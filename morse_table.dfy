/** The fixed character-to-Morse table of the player (`MORSE_DICT`): the
    international Morse code of ITU-R M.1677-1 for the letters, the digits and
    three punctuation marks, plus the word separator `/` for a space. The
    dictionary is constant, so it is written as the cases of `Lookup`: one
    per table entry, plus a default case. */
module MorseTable {

  datatype Option<T> = None | Some(value: T)

  /** The word separator a space encodes to. */
  const WordToken: string := "/"

  /** The characters the table has an entry for. */
  predicate InTable(c: char) {
    ('A' <= c <= 'Z') || ('0' <= c <= '9') || c == '.' || c == ',' || c == '?' || c == ' '
  }

  /** A code made of dots and dashes only. */
  predicate IsDotDash(code: string) {
    forall i :: 0 <= i < |code| ==> code[i] == '.' || code[i] == '-'
  }

  /** `MORSE_DICT.get(c, '')`: the code of `c`, or (the default case) the
      empty code when `c` has no entry. A space gives the word separator; every other entry is a
      non-empty run of dots and dashes. */
  function Lookup(c: char): (r: string)
    ensures r == "" <==> !InTable(c)
    ensures c == ' ' ==> r == WordToken
    ensures c != ' ' ==> IsDotDash(r)
    ensures ' ' !in r
  {
    match c
    case 'A' => ".-" case 'B' => "-..." case 'C' => "-.-." case 'D' => "-.."
    case 'E' => "." case 'F' => "..-." case 'G' => "--." case 'H' => "...."
    case 'I' => ".." case 'J' => ".---" case 'K' => "-.-" case 'L' => ".-.."
    case 'M' => "--" case 'N' => "-." case 'O' => "---" case 'P' => ".--."
    case 'Q' => "--.-" case 'R' => ".-." case 'S' => "..." case 'T' => "-"
    case 'U' => "..-" case 'V' => "...-" case 'W' => ".--" case 'X' => "-..-"
    case 'Y' => "-.--" case 'Z' => "--.." case '0' => "-----" case '1' => ".----"
    case '2' => "..---" case '3' => "...--" case '4' => "....-" case '5' => "....."
    case '6' => "-...." case '7' => "--..." case '8' => "---.." case '9' => "----."
    case '.' => ".-.-.-" case ',' => "--..--" case '?' => "..--.." case ' ' => "/"
    case _ => ""
  }

  /** The table read backwards: the character whose code is `code`. This is
      not part of the player; it is the reference inverse that shows the codes
      are pairwise distinct. */
  function Decode(code: string): (r: Option<char>)
    ensures r.Some? ==> InTable(r.value)
  {
    match code
    case ".-" => Some('A') case "-..." => Some('B') case "-.-." => Some('C') case "-.." => Some('D')
    case "." => Some('E') case "..-." => Some('F') case "--." => Some('G') case "...." => Some('H')
    case ".." => Some('I') case ".---" => Some('J') case "-.-" => Some('K') case ".-.." => Some('L')
    case "--" => Some('M') case "-." => Some('N') case "---" => Some('O') case ".--." => Some('P')
    case "--.-" => Some('Q') case ".-." => Some('R') case "..." => Some('S') case "-" => Some('T')
    case "..-" => Some('U') case "...-" => Some('V') case ".--" => Some('W') case "-..-" => Some('X')
    case "-.--" => Some('Y') case "--.." => Some('Z') case "-----" => Some('0') case ".----" => Some('1')
    case "..---" => Some('2') case "...--" => Some('3') case "....-" => Some('4') case "....." => Some('5')
    case "-...." => Some('6') case "--..." => Some('7') case "---.." => Some('8') case "----." => Some('9')
    case ".-.-.-" => Some('.') case "--..--" => Some(',') case "..--.." => Some('?') case "/" => Some(' ')
    case _ => None
  }

  /** Reading the table backwards undoes it on the table's domain. */
  lemma DecodeLookup(c: char)
    requires InTable(c)
    ensures Decode(Lookup(c)) == Some(c)
  {
    if 'A' <= c <= 'D' {
      DecodeAD(c);
    } else if 'E' <= c <= 'H' {
      DecodeEH(c);
    } else if 'I' <= c <= 'L' {
      DecodeIL(c);
    } else if 'M' <= c <= 'P' {
      DecodeMP(c);
    } else if 'Q' <= c <= 'T' {
      DecodeQT(c);
    } else if 'U' <= c <= 'X' {
      DecodeUX(c);
    } else if 'Y' <= c <= 'Z' {
      DecodeYZ(c);
    } else if '0' <= c <= '4' {
      DecodeDigits1(c);
    } else if '5' <= c <= '9' {
      DecodeDigits2(c);
    } else if c == '.' || c == ',' {
      DecodeStops(c);
    } else {
      DecodeMarks(c);
    }
  }

  lemma DecodeAD(c: char)
    requires 'A' <= c <= 'D'
    ensures Decode(Lookup(c)) == Some(c)
  {
  }

  lemma DecodeEH(c: char)
    requires 'E' <= c <= 'H'
    ensures Decode(Lookup(c)) == Some(c)
  {
  }

  lemma DecodeIL(c: char)
    requires 'I' <= c <= 'L'
    ensures Decode(Lookup(c)) == Some(c)
  {
  }

  lemma DecodeMP(c: char)
    requires 'M' <= c <= 'P'
    ensures Decode(Lookup(c)) == Some(c)
  {
  }

  lemma DecodeQT(c: char)
    requires 'Q' <= c <= 'T'
    ensures Decode(Lookup(c)) == Some(c)
  {
  }

  lemma DecodeUX(c: char)
    requires 'U' <= c <= 'X'
    ensures Decode(Lookup(c)) == Some(c)
  {
  }

  lemma DecodeYZ(c: char)
    requires 'Y' <= c <= 'Z'
    ensures Decode(Lookup(c)) == Some(c)
  {
  }

  lemma DecodeDigits1(c: char)
    requires '0' <= c <= '4'
    ensures Decode(Lookup(c)) == Some(c)
  {
  }

  lemma DecodeDigits2(c: char)
    requires '5' <= c <= '9'
    ensures Decode(Lookup(c)) == Some(c)
  {
  }

  lemma DecodeStops(c: char)
    requires c == '.' || c == ','
    ensures Decode(Lookup(c)) == Some(c)
  {
  }

  lemma DecodeMarks(c: char)
    requires c == '?' || c == ' '
    ensures Decode(Lookup(c)) == Some(c)
  {
  }

  /** A code that reads back to a character is that character's code, so
      `Decode` and `Lookup` are inverse bijections between the table's
      characters and its codes. */
  lemma LookupDecode(code: string)
    requires Decode(code).Some?
    ensures Lookup(Decode(code).value) == code
  {
    if |code| == 1 {
      LookupDecode1(code);
    } else if |code| == 2 {
      LookupDecode2(code);
    } else if |code| == 3 {
      LookupDecode3(code);
    } else if |code| == 4 && code[0] == '.' {
      LookupDecodeDot4(code);
    } else if |code| == 4 {
      LookupDecodeDash4(code);
    } else if |code| == 5 {
      LookupDecode5(code);
    } else {
      LookupDecode6(code);
    }
  }

  lemma LookupDecode1(code: string)
    requires Decode(code).Some? && |code| == 1
    ensures Lookup(Decode(code).value) == code
  {
  }

  lemma LookupDecode2(code: string)
    requires Decode(code).Some? && |code| == 2
    ensures Lookup(Decode(code).value) == code
  {
  }

  lemma LookupDecode3(code: string)
    requires Decode(code).Some? && |code| == 3
    ensures Lookup(Decode(code).value) == code
  {
  }

  lemma LookupDecodeDot4(code: string)
    requires Decode(code).Some? && |code| == 4 && code[0] == '.'
    ensures Lookup(Decode(code).value) == code
  {
  }

  lemma LookupDecodeDash4(code: string)
    requires Decode(code).Some? && |code| == 4 && code[0] != '.'
    ensures Lookup(Decode(code).value) == code
  {
  }

  lemma LookupDecode5(code: string)
    requires Decode(code).Some? && |code| == 5
    ensures Lookup(Decode(code).value) == code
  {
  }

  lemma LookupDecode6(code: string)
    requires Decode(code).Some? && |code| >= 6
    ensures Lookup(Decode(code).value) == code
  {
  }

  /** No two characters of the table share a code. */
  lemma CodesDistinct(a: char, b: char)
    requires InTable(a) && InTable(b)
    requires a != b
    ensures Lookup(a) != Lookup(b)
  {
    DecodeLookup(a);
    DecodeLookup(b);
  }
}
