/** `text_to_morse`: upper-case the text, drop every character outside the
    supported alphabet, look each remaining character up in the table and join
    the codes with single spaces. */
module MorseEncoder {
  import opened PyStr
  import opened MorseTable

  /** `str.upper()` on one character, for the ASCII letters; every other
      character is left as it is. */
  function Upper(c: char): char {
    if 'a' <= c <= 'z' then (c as int - 32) as char else c
  }

  /** The characters that survive `re.sub(r'[^A-Z0-9\s\?\.,]', '', ...)`. */
  predicate Kept(c: char) {
    ('A' <= c <= 'Z') || ('0' <= c <= '9') || IsSpace(c) || c == '?' || c == '.' || c == ','
  }

  /** A string all of whose characters survive the filter. */
  predicate AllKept(s: string) {
    forall i :: 0 <= i < |s| ==> Kept(s[i])
  }

  /** The normalised text: upper-cased, then filtered. Nothing is ever
      substituted, so the result is no longer than the input. */
  function Normalize(text: string): (r: string)
    ensures |r| <= |text|
    ensures AllKept(r)
  {
    if text == [] then []
    else
      var u := Upper(text[0]);
      (if Kept(u) then [u] else []) + Normalize(text[1..])
  }

  /** Normalisation works character by character. */
  lemma {:induction false} NormalizeAppend(a: string, b: string)
    ensures Normalize(a + b) == Normalize(a) + Normalize(b)
  {
    if a == [] {
      assert a + b == b;
    } else {
      assert (a + b)[0] == a[0] && (a + b)[1..] == a[1..] + b;
      NormalizeAppend(a[1..], b);
      var u := Upper(a[0]);
      var h := if Kept(u) then [u] else [];
      assert h + (Normalize(a[1..]) + Normalize(b)) == (h + Normalize(a[1..])) + Normalize(b);
    }
  }

  /** A character is kept as its upper-case form when that form is supported,
      and dropped (not replaced) otherwise; so a lower-case ASCII letter comes
      out as its capital. */
  lemma NormalizeChar(a: string, c: char, b: string)
    ensures Kept(Upper(c)) ==> Normalize(a + [c] + b) == Normalize(a) + [Upper(c)] + Normalize(b)
    ensures !Kept(Upper(c)) ==> Normalize(a + [c] + b) == Normalize(a) + Normalize(b)
    ensures 'a' <= c <= 'z' ==> Normalize([c]) == [(c as int - 32) as char]
  {
    NormalizeAppend(a + [c], b);
    NormalizeAppend(a, [c]);
    NormalizeSingle(c);
  }

  lemma NormalizeSingle(c: char)
    ensures Normalize([c]) == if Kept(Upper(c)) then [Upper(c)] else []
  {
    assert [c][1..] == [];
  }

  /** The text is already normalised exactly when every character of it is
      supported. */
  lemma {:induction false} NormalizeFixed(s: string)
    ensures Normalize(s) == s <==> AllKept(s)
  {
    if s != [] {
      if AllKept(s) {
        assert Upper(s[0]) == s[0];
        assert AllKept(s[1..]) by {
          forall i | 0 <= i < |s[1..]| ensures Kept(s[1..][i]) {
            assert s[1..][i] == s[i + 1];
          }
        }
        NormalizeFixed(s[1..]);
        assert s == [s[0]] + s[1..];
      }
    }
  }

  /** Normalising twice is the same as normalising once. */
  lemma NormalizeIdempotent(s: string)
    ensures Normalize(Normalize(s)) == Normalize(s)
  {
    NormalizeFixed(Normalize(s));
  }

  /** The codes of the characters, in order (`MORSE_DICT.get(c, '')` for each). */
  function Codes(s: string): (r: seq<string>)
    ensures |r| == |s|
  {
    seq(|s|, i requires 0 <= i < |s| => Lookup(s[i]))
  }

  /** The characters that can appear in an encoded message. */
  predicate IsMorseChar(c: char) {
    c == '.' || c == '-' || c == '/' || c == ' '
  }

  /** `text_to_morse`. The result is made of dots, dashes, separators and
      spaces only. It is empty exactly when no character survives
      normalisation, or when the only survivor has no entry in the table; two
      or more survivors always leave at least one separating space. */
  function TextToMorse(text: string): (r: string)
    ensures forall i :: 0 <= i < |r| ==> IsMorseChar(r[i])
    ensures r == "" <==>
      Normalize(text) == [] || (|Normalize(text)| == 1 && !InTable(Normalize(text)[0]))
  {
    JoinMorseChars(Codes(Normalize(text)));
    JoinEmpty(Codes(Normalize(text)));
    Join(Codes(Normalize(text)), " ")
  }

  /** Joining with a space gives the empty string exactly when there is no
      part, or a single empty one. */
  lemma JoinEmpty(parts: seq<string>)
    ensures Join(parts, " ") == "" <==> |parts| == 0 || (|parts| == 1 && parts[0] == "")
  {
    if |parts| > 1 {
      assert Join(parts, " ") == parts[0] + " " + Join(parts[1..], " ");
    }
  }

  lemma {:induction false} JoinMorseChars(parts: seq<string>)
    requires forall k :: 0 <= k < |parts| ==> parts[k] == WordToken || IsDotDash(parts[k])
    ensures forall i :: 0 <= i < |Join(parts, " ")| ==> IsMorseChar(Join(parts, " ")[i])
  {
    if |parts| > 1 {
      JoinMorseChars(parts[1..]);
      var r := Join(parts, " ");
      var t := Join(parts[1..], " ");
      assert r == parts[0] + " " + t;
      forall i | 0 <= i < |r| ensures IsMorseChar(r[i]) {
        if i < |parts[0]| {
          assert r[i] == parts[0][i];
        } else if i == |parts[0]| {
          assert r[i] == ' ';
        } else {
          assert r[i] == t[i - |parts[0]| - 1];
        }
      }
    } else if |parts| == 1 {
      assert parts[0] == WordToken || IsDotDash(parts[0]);
    }
  }

  /** The encoding is the table codes of the normalised characters, in input
      order, separated by single spaces: splitting it on `' '` gives those
      codes back whenever some character survives normalisation. */
  lemma EncodeTokens(text: string)
    requires Normalize(text) != []
    ensures Split(TextToMorse(text), " ") == Codes(Normalize(text))
  {
    var codes := Codes(Normalize(text));
    forall i | 0 <= i < |codes| ensures ' ' !in codes[i] {
      assert codes[i] == Lookup(Normalize(text)[i]);
    }
    SplitJoin(codes, ' ');
  }

  lemma CodesAppend(x: string, y: string)
    ensures Codes(x + y) == Codes(x) + Codes(y)
  {
  }

  lemma CodesAroundSpace(na: string, nb: string)
    ensures Codes(na + [' '] + nb) == Codes(na) + [WordToken] + Codes(nb)
  {
    CodesAppend(na + [' '], nb);
    CodesAppend(na, [' ']);
  }

  lemma JoinAroundToken(ca: seq<string>, cb: seq<string>)
    requires ca != [] && cb != []
    ensures Join(ca + [WordToken] + cb, " ") == Join(ca, " ") + " / " + Join(cb, " ")
  {
    JoinAppend(ca + [WordToken], cb, " ");
    JoinAppend(ca, [WordToken], " ");
  }

  /** Words separated by one space encode to their encodings separated by the
      word token with a space either side. */
  lemma EncodeWords(a: string, b: string)
    requires Normalize(a) != [] && Normalize(b) != []
    ensures TextToMorse(a + " " + b) == TextToMorse(a) + " / " + TextToMorse(b)
  {
    NormalizeChar(a, ' ', b);
    CodesAroundSpace(Normalize(a), Normalize(b));
    JoinAroundToken(Codes(Normalize(a)), Codes(Normalize(b)));
  }

  /** Two texts with the same encoding normalise to the same text, as long as
      every surviving character has an entry in the table (the whitespace
      other than `' '` that survives normalisation encodes to nothing and so
      can be lost). */
  lemma EncodeInjective(t1: string, t2: string)
    requires forall i :: 0 <= i < |Normalize(t1)| ==> InTable(Normalize(t1)[i])
    requires forall i :: 0 <= i < |Normalize(t2)| ==> InTable(Normalize(t2)[i])
    requires TextToMorse(t1) == TextToMorse(t2)
    ensures Normalize(t1) == Normalize(t2)
  {
    var n1, n2 := Normalize(t1), Normalize(t2);
    if n1 != [] && n2 != [] {
      EncodeTokens(t1);
      EncodeTokens(t2);
      assert Codes(n1) == Codes(n2);
      forall i | 0 <= i < |n1| ensures n1[i] == n2[i] {
        assert Lookup(n1[i]) == Codes(n1)[i] == Codes(n2)[i] == Lookup(n2[i]);
        if n1[i] != n2[i] {
          CodesDistinct(n1[i], n2[i]);
        }
      }
    }
  }

  lemma NonEmptyEncoding(text: string)
    requires Normalize(text) != [] && Lookup(Normalize(text)[0]) != ""
    ensures TextToMorse(text) != ""
  {
    var codes := Codes(Normalize(text));
    if |codes| > 1 {
      assert TextToMorse(text) == codes[0] + " " + Join(codes[1..], " ");
    }
  }

  lemma NormalizeThree(x: char, y: char, z: char)
    ensures Normalize([x, y, z]) == Normalize([x]) + Normalize([y]) + Normalize([z])
  {
    NormalizeAppend([x], [y, z]);
    NormalizeAppend([y], [z]);
    assert [x, y, z] == [x] + [y, z] && [y, z] == [y] + [z];
  }

  lemma JoinThree(a: string, b: string, c: string)
    ensures Join([a, b, c], " ") == a + " " + b + " " + c
  {
    assert [a, b, c][1..] == [b, c] && [b, c][1..] == [c];
  }

  lemma NormalizeSos()
    ensures Normalize("sos") == "SOS"
  {
    NormalizeThree('s', 'o', 's');
    NormalizeSingle('s');
    NormalizeSingle('o');
  }

  lemma CodesSos()
    ensures Codes("SOS") == ["...", "---", "..."]
  {
    var c := Codes("SOS");
    assert c[0] == Lookup('S') && c[1] == Lookup('O') && c[2] == Lookup('S');
  }

  /** The table agrees with the international Morse code on, for instance,
      `S`, `O` and `0`, and `"sos"` encodes to the distress call. */
  lemma EncodeSos()
    ensures Lookup('S') == "..." && Lookup('O') == "---" && Lookup('0') == "-----"
    ensures TextToMorse("sos") == "... --- ..."
  {
    NormalizeSos();
    CodesSos();
    JoinThree("...", "---", "...");
  }

  lemma NormalizeDrops()
    ensures Normalize("A@B") == "AB"
  {
    NormalizeThree('A', '@', 'B');
    NormalizeSingle('A');
    NormalizeSingle('@');
    NormalizeSingle('B');
  }

  /** Unsupported characters are dropped rather than replaced. */
  lemma EncodeDrops()
    ensures Normalize("A@B") == "AB"
    ensures TextToMorse("A@B") == ".- -..."
  {
    NormalizeDrops();
    var c := Codes("AB");
    assert c[0] == Lookup('A') && c[1] == Lookup('B');
    assert c == [".-", "-..."];
    assert c[1..] == ["-..."];
  }

  lemma NormalizeTab()
    ensures Normalize("a\tb") == "A\tB"
  {
    NormalizeThree('a', '\t', 'b');
    NormalizeSingle('a');
    NormalizeSingle('\t');
    NormalizeSingle('b');
  }

  lemma CodesTab()
    ensures Codes("A\tB") == [".-", "", "-..."]
  {
    var c := Codes("A\tB");
    assert c[0] == Lookup('A') && c[1] == Lookup('\t') && c[2] == Lookup('B');
  }

  /** A tab survives normalisation but has no entry in the table, so it
      leaves an empty code between two spaces. */
  lemma EncodeTab()
    ensures TextToMorse("a\tb") == ".-  -..."
  {
    NormalizeTab();
    CodesTab();
    JoinThree(".-", "", "-...");
  }

  lemma NormalizeDoubleSpace()
    ensures Normalize("e  e") == "E  E"
  {
    NormalizeAppend("e  ", "e");
    NormalizeThree('e', ' ', ' ');
    NormalizeSingle('e');
    NormalizeSingle(' ');
    assert "e  e" == "e  " + "e";
  }

  lemma CodesDoubleSpace()
    ensures Codes("E  E") == [".", "/", "/", "."]
  {
    var c := Codes("E  E");
    assert c[0] == Lookup('E') && c[1] == Lookup(' ') && c[2] == Lookup(' ') && c[3] == Lookup('E');
  }

  /** Each of two spaces in a row becomes a word token of its own. */
  lemma EncodeDoubleSpace()
    ensures TextToMorse("e  e") == ". / / ."
  {
    NormalizeDoubleSpace();
    CodesDoubleSpace();
    assert [".", "/", "/", "."] == [".", "/", "/"] + ["."];
    JoinAppend([".", "/", "/"], ["."], " ");
    JoinThree(".", "/", "/");
  }
}
