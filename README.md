# Morse timing player, modelled in Dafny

This project models the core of a small Python program (`test.py`) that turns a
news headline into Morse code and plays it through a sound generator:

- `MORSE_DICT`, the fixed table from characters to Morse codes: 26 letters,
  10 digits, `.`, `,`, `?`, and a space, which maps to the word token `/`.
- `text_to_morse`:
  - upper-cases the text;
  - deletes every character other than `A`–`Z`, `0`–`9`, whitespace, `?`,
    `.` and `,`;
  - replaces each remaining character with its table code, or with the empty
    code when it has none;
  - joins the codes with single spaces.
- `play_morse`. Its three nested loops run:
  - over the word groups of the message, split on `" / "`;
  - over the character codes of a group, split on whitespace;
  - over the symbols of a code.

  For each symbol it plays a tone (1 dit for `.`, 3 dits for anything else)
  and then sleeps 1 dit. After each code it sleeps 3 dits, and after each
  group 7 dits. A dit lasts `1.2 / wpm` seconds.

The model is split into five modules:

- `PyStr` (`pystr.dfy`) holds the Python string primitives the program relies
  on, over `seq<char>`:
  - the `str.isspace` / `\s` whitespace class;
  - `sep.join`;
  - `s.split(sep)`;
  - the argument-less `s.split()`.

  It also proves how they relate (split after join, join after split).
- `MorseTable` (`morse_table.dfy`) is the table, written as the cases of
  `Lookup`: one per entry of the table, plus a default case for the
  `.get(c, '')` default. It also has a
  reference inverse, `Decode`, which shows that the codes are pairwise
  distinct.
- `MorseEncoder` (`encoder.dfy`) holds `text_to_morse` as pure functions
  (`Normalize`, `Codes`, `TextToMorse`) together with their lemmas.
- `MorsePlayer` (`player.dfy`) holds `play_morse` as an imperative method.
  - Each `play_tone` and `time.sleep` call becomes an `Event` appended to a
    log that the method returns.
  - The three loops are the methods `PlayMorse`, `PlayGroup` and `PlayCode`.
  - Each method is proved equal to a specification function (`Schedule`,
    `GroupEvents`, `CharEvents`).
  - Lemmas then prove the schedule's tone sequence, its spacing, its total
    length and where the pauses fall.
- `MorsePipeline` (`pipeline.dfy`) chains the two halves, as the program's
  main block does.

All lengths in the log are whole numbers of dits. `DitSeconds` converts a dit
to seconds over `real`.

## Timing as written

The comments in `play_morse` say that the pause between characters is 3 dits
"total" and the pause between words is 7 dits "total". The code does not do
that: it adds the 3-dit sleep after the 1-dit sleep that follows the last
symbol, and the 7-dit sleep after those two. So:

- the silence between the last tone of one character and the first tone of
  the next is 4 dits;
- the silence between words is 11 dits.

The model keeps this behaviour exactly and states it:

- `MorsePlayer.CharBoundary` states the 4-dit silence between characters.
- `MorsePlayer.WordBoundary` states the 11-dit silence between words.

A second behaviour also follows from the code: two spaces in a row encode to
`" / / "`. The player splits only on the first `" / "` as a separator, so the
second `/` stays in the next group and sounds as a 3-dit tone. The model keeps
this too (`MorsePipeline.DoubleSpaceTone`).

## Model

| member | source | states |
|---|---|---|
| MorseTable.Lookup | test.py:11-20 | a character has a code exactly when it is one of the 40 in the table. A space gives the word token `/`. Every other code is made of dots and dashes only, and no code has a space in it |
| MorseTable.DecodeLookup | test.py:11-20 | reading the table backwards gives back every character of the table |
| MorseTable.LookupDecode | test.py:11-20 | every code that reads back to a character is that character's code, so the table is a bijection onto its codes |
| MorseTable.CodesDistinct | test.py:11-20 | no two characters of the table share a code |
| MorseEncoder.Normalize | test.py:24 | the normalised text is no longer than the input, and every character of it is an ASCII capital, a digit, whitespace, `?`, `.` or `,` |
| MorseEncoder.NormalizeChar | test.py:24 | in any context, a character is replaced by its upper-case form when that form is supported and dropped otherwise; a lower-case ASCII letter becomes its capital |
| MorseEncoder.NormalizeAppend | test.py:24 | normalisation works character by character: normalising a concatenation concatenates the normalised parts |
| MorseEncoder.NormalizeFixed | test.py:24 | a text is left unchanged by normalisation exactly when every character of it is already supported |
| MorseEncoder.NormalizeIdempotent | test.py:24 | normalising twice gives the same as normalising once |
| MorseEncoder.TextToMorse | test.py:22-25 | the encoding contains only `.`, `-`, `/` and spaces. It is empty exactly when nothing survives normalisation or the only survivor has no table entry; two survivors always leave a space, even two tabs |
| MorseEncoder.JoinEmpty | test.py:25 | joining with `' '` gives the empty string exactly when there is no part or a single empty one |
| MorseEncoder.EncodeTokens | test.py:25 | splitting the encoding on `' '` gives exactly the table codes of the normalised characters, in input order |
| MorseEncoder.EncodeWords | test.py:19-25 | two words separated by one space encode to their own encodings separated by `" / "` |
| MorseEncoder.EncodeInjective | test.py:11-25 | two texts with the same encoding normalise to the same text, when every surviving character is in the table |
| MorseEncoder.NonEmptyEncoding | test.py:25 | the encoding is non-empty when the first surviving character has a code |
| MorseEncoder.EncodeSos | test.py:11-25 | `S`, `O` and `0` have their ITU-R M.1677-1 codes, and `"sos"` encodes to `"... --- ..."` |
| MorseEncoder.EncodeDrops | test.py:24-25 | `"A@B"` normalises to `"AB"` and encodes to `".- -..."`: an unsupported character is deleted, not replaced |
| MorseEncoder.EncodeTab | test.py:24-25 | a tab survives the filter but has no table entry, so `"a\tb"` encodes with an empty code between two spaces |
| MorseEncoder.EncodeDoubleSpace | test.py:19-25 | each of two consecutive spaces becomes its own `/` token: `"e  e"` encodes to `". / / ."` |
| PyStr.Join | test.py:25 | the definition of `sep.join`; its contract only restates the base cases (no parts give `""`, one part gives itself), and what it means is stated by `JoinSplit`, `SplitJoin`, `FieldsJoin` and `JoinAppend` |
| PyStr.JoinAppend | test.py:25 | joining a concatenation of two non-empty lists puts one separator between the two joined halves |
| PyStr.Split | test.py:39 | splitting on a separator always yields at least one piece |
| PyStr.JoinSplit | test.py:39 | joining the pieces of a split with the same separator gives back the original string |
| PyStr.SplitJoin | test.py:25 | splitting on a one-character separator undoes joining with it, when no part contains it |
| PyStr.SplitAbsent | test.py:39 | a string lacking some character of the separator splits into itself alone |
| PyStr.Fields | test.py:40 | whitespace splitting yields only non-empty pieces that contain no whitespace |
| PyStr.ConcatFields | test.py:40 | the whitespace-split pieces hold exactly the non-whitespace characters of the string, in order |
| PyStr.FieldsJoin | test.py:40 | whitespace splitting undoes joining with single spaces, for non-empty parts without whitespace |
| PyStr.RemoveSpaces | test.py:40 | dropping whitespace leaves a string no longer than the original, with no whitespace in it |
| MorsePlayer.SymbolUnits | test.py:43 | the duration rule itself (1 dit exactly for `.`, 3 for anything else), which its contract restates; its consequences for whole messages are stated by `ScheduleTones`, `ScheduleDuration` and `DoubleSpaceTone` |
| MorsePlayer.DitSeconds | test.py:35 | a dit multiplied by the speed in wpm is 1.2 seconds |
| MorsePlayer.DitBounds | test.py:71-72 | over the speeds the command line offers, 5 to 30 wpm, a dit lasts between 0.04 s and 0.24 s, so it is strictly positive |
| MorsePlayer.DitValues | test.py:33-35 | at the default 100 wpm a dit is 0.012 s; at 5 wpm it is 0.24 s and at 30 wpm 0.04 s |
| MorsePlayer.DashIsThreeDots | test.py:43 | in seconds, a dash tone lasts exactly three times a dot tone |
| MorsePlayer.PlayMorse | test.py:33-49 | the log of tones and pauses the loops produce is the schedule: for each `" / "` group in turn, what one group plays |
| MorsePlayer.PlayGroup | test.py:40-49 | one group plays each of its whitespace-separated codes in turn, then a 7-dit pause |
| MorsePlayer.PlayCode | test.py:42-47 | one code plays, for each symbol, its tone and a 1-dit pause, then a 3-dit pause |
| MorsePlayer.ScheduleTones | test.py:39-44 | the tones are one per non-whitespace character left in the groups, in order, 1 dit for `.` and 3 dits for any other character |
| MorsePlayer.ScheduleSpaced | test.py:44-45 | every tone is at the requested frequency and is followed at once by a 1-dit pause |
| MorsePlayer.ScheduleDuration | test.py:39-49 | the total length in dits is the sum of tone lengths, plus one per tone, plus three per character code, plus seven per word group |
| MorsePlayer.ScheduleEndsWithWordGap | test.py:49 | every schedule ends with a 7-dit pause, including that of the last group |
| MorsePlayer.ScheduleEmpty | test.py:39-49 | the empty message plays no tone and one 7-dit pause, because splitting `""` gives one empty group |
| MorsePlayer.CharBoundary | test.py:42-47 | a code starts with its first symbol's tone and ends with its last symbol's tone followed by 1 + 3 dits of silence |
| MorsePlayer.WordBoundary | test.py:40-49 | a group with codes starts with its first symbol's tone and ends with its last symbol's tone followed by 1 + 3 + 7 dits of silence |
| MorsePipeline.PlayWord | test.py:81-85 | an encoded single word is one group whose codes are the table codes of its characters; it plays those codes in turn and its tones are theirs, one after the other |
| MorsePipeline.PlaySos | test.py:81-85 | `"sos"` plays the nine tones 1,1,1,3,3,3,1,1,1 dits long and lasts 40 dits |
| MorsePipeline.DoubleSpaceTone | test.py:39-43 | `"e  e"` plays the three tones 1, 3, 1: the second `/` of a double space sounds as a dash |

## Left out

- `play_tone` (test.py:27-31) starts an external SoX process.
  - It is modelled only as the `Tone` event it stands for.
  - The rounding of the duration to milliseconds in its command line is not
    modelled.
  - `check=False` (test.py:30) makes the source ignore a non-zero exit
    status, which agrees with the model.
  - If `play` cannot be started at all (for instance it is not installed),
    `subprocess.run` raises, and the exception leaves `play_tone` and
    `play_morse` and ends the program at the first tone. That is not
    modelled: the model's log always runs to the end of the message.
- `time.sleep` is modelled only as the `Silence` event it stands for. No time
  passes in the model.
- Durations are kept in whole dits rather than floating-point seconds.
  `DitSeconds` gives the length of a dit over exact reals, not floats.
- MorsePlayer.DitSeconds: requires a non-zero speed. The source divides by
  zero for a speed of 0 and raises an exception, and that is not modelled. A
  negative speed gives a negative dit here; the source's `time.sleep` would
  reject it.
- The progress message printed by `play_morse` (test.py:37) is output only.
- `get_headline` (test.py:51-67) fetches and parses a news feed over the
  network. It is not part of this model.
- The command-line entry point (test.py:69-86) is not modelled: argument
  parsing and printing. `MorsePipeline` only chains `text_to_morse` into
  `play_morse` as line 85 does.
- MorseEncoder.Normalize: upper-cases ASCII letters only. Python's
  `str.upper` also maps some non-ASCII characters to ASCII capitals, and those
  would survive the filter. Examples: `ß` becomes `SS`, the ligature `ﬁ`
  becomes `FI`, the dotless `ı` becomes `I` and the long `ſ` becomes `S`.
  The model drops every non-ASCII character that is not whitespace.
- PyStr.IsSpace: whitespace is a fixed set of code points, those for which
  Python's `str.isspace` holds. The `\s` class of `re` and `str.split()` use
  the same set.
- `beep.py` and `rlec.py`, which drive a buzzer through GPIO pins: hardware
  set-up with no logic of its own. They are not part of this model.
- The table in `test.py` has 40 entries. 26 letters, 10 digits, three
  punctuation marks and the space make 40, and the model has all 40.
