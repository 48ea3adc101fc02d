/** The two halves together: what the player does with the output of the
    encoder, as the command-line program chains them (`play_morse(text_to_morse(text), ...)`). */
module MorsePipeline {
  import opened PyStr
  import opened MorseTable
  import opened MorseEncoder
  import opened MorsePlayer

  lemma CodesPlayable(n: string)
    requires forall i :: 0 <= i < |n| ==> InTable(n[i]) && n[i] != ' '
    ensures forall k :: 0 <= k < |Codes(n)| ==> Codes(n)[k] != [] && IsDotDash(Codes(n)[k])
    ensures forall k, i :: 0 <= k < |Codes(n)| && 0 <= i < |Codes(n)[k]| ==> !IsSpace(Codes(n)[k][i])
  {
    forall k | 0 <= k < |Codes(n)| ensures Codes(n)[k] != [] && IsDotDash(Codes(n)[k]) {
      assert Codes(n)[k] == Lookup(n[k]);
    }
  }

  lemma {:induction false} JoinLacksSlash(parts: seq<string>)
    requires forall k :: 0 <= k < |parts| ==> IsDotDash(parts[k])
    ensures '/' !in Join(parts, " ")
  {
    if |parts| == 1 {
      assert '/' !in parts[0];
    } else if |parts| > 1 {
      JoinLacksSlash(parts[1..]);
      assert '/' !in parts[0];
      assert Join(parts, " ") == parts[0] + " " + Join(parts[1..], " ");
    }
  }

  /** A single word whose every character is in the table is played as one
      word group: each character's code in turn, then the word pause. Its
      tones are those of its codes, one after the other. */
  lemma PlayWord(text: string, freq: int)
    requires Normalize(text) != []
    requires forall i :: 0 <= i < |Normalize(text)| ==> InTable(Normalize(text)[i]) && Normalize(text)[i] != ' '
    ensures var codes := Codes(Normalize(text));
      && Split(TextToMorse(text), WordSeparator) == [TextToMorse(text)]
      && Fields(TextToMorse(text)) == codes
      && Schedule(TextToMorse(text), freq) == CharsEvents(codes, |codes|, freq) + [Silence(7)]
      && Tones(Schedule(TextToMorse(text), freq)) == Dits(Concat(codes))
  {
    var codes := Codes(Normalize(text));
    var m := TextToMorse(text);
    CodesPlayable(Normalize(text));
    JoinLacksSlash(codes);
    SplitAbsent(m, WordSeparator, '/');
    FieldsJoin(codes);
    assert GroupsEvents([m], 1, freq) == [] + GroupEvents(m, freq);
    ScheduleTones(m, freq);
    ConcatFields(m);
    assert PlayedSymbols(m) == GroupsSymbols([m]);
    assert GroupsSymbols([m]) == GroupsSymbols([]) + RemoveSpaces(m);
  }

  lemma SosJoin()
    ensures Join(["...", "---", "..."], " ") == "... --- ..."
    ensures Concat(["...", "---", "..."]) == "...---..."
  {
    var codes := ["...", "---", "..."];
    assert codes[1..] == ["---", "..."] && codes[1..][1..] == ["..."];
    assert Join(codes, " ") == "..." + " " + ("---" + " " + "...");
    assert codes[1..][1..][1..] == [];
  }

  lemma SosFields()
    ensures Fields("... --- ...") == ["...", "---", "..."]
  {
    var codes := ["...", "---", "..."];
    SosJoin();
    CodesPlayable("SOS");
    CodesSos();
    FieldsJoin(codes);
  }

  lemma SosPlayed()
    ensures Split("... --- ...", WordSeparator) == ["... --- ..."]
    ensures PlayedSymbols("... --- ...") == "...---..."
    ensures CharCount(Split("... --- ...", WordSeparator)) == 3
  {
    var m := "... --- ...";
    SplitAbsent(m, WordSeparator, '/');
    SosFields();
    SosJoin();
    ConcatFields(m);
    assert GroupsSymbols([m]) == GroupsSymbols([]) + RemoveSpaces(m);
    assert CharCount([m]) == CharCount([]) + |Fields(m)|;
  }

  lemma SosDits()
    ensures Dits("...---...") == [1, 1, 1, 3, 3, 3, 1, 1, 1]
    ensures Sum(Dits("...---...")) == 15
  {
    var d: seq<nat> := [1, 1, 1, 3, 3, 3, 1, 1, 1];
    assert Dits("...---...") == d;
    SumAppend([1, 1, 1, 3], [3, 3, 1, 1, 1]);
    assert d == [1, 1, 1, 3] + [3, 3, 1, 1, 1];
  }

  /** `"sos"` plays as three dots, three dashes and three dots, and lasts
      forty dits: fifteen of tone, one pause after each of the nine symbols,
      three per character and seven for the word. */
  lemma PlaySos(freq: int)
    ensures Tones(Schedule(TextToMorse("sos"), freq)) == [1, 1, 1, 3, 3, 3, 1, 1, 1]
    ensures Duration(Schedule(TextToMorse("sos"), freq)) == 40
  {
    EncodeSos();
    SosPlayed();
    SosDits();
    ScheduleTones("... --- ...", freq);
    ScheduleDuration("... --- ...", freq);
  }

  lemma DoubleSpaceSplit()
    ensures Split(". / / .", WordSeparator) == [".", "/ ."]
  {
    var m := ". / / .";
    assert Split(" .", WordSeparator) == [" ."];
    assert Split("/ .", WordSeparator) == ["/ ."] by {
      assert "/ ."[..3][0] != WordSeparator[0];
      assert "/ ."[1..] == " .";
      assert ['/'] + " ." == "/ .";
    }
    assert Split(" / / .", WordSeparator) == ["", "/ ."] by {
      assert " / / ."[..3] == WordSeparator;
      assert " / / ."[3..] == "/ .";
    }
    assert m[..3][1] != WordSeparator[1];
    assert m[1..] == " / / .";
    assert ['.'] + "" == ".";
  }

  lemma RemoveSpacesSlashDot()
    ensures RemoveSpaces("/ .") == "/."
  {
    assert "/ ."[1..] == " ." && " ."[1..] == ".";
  }

  lemma DoubleSpacePlayed()
    ensures PlayedSymbols(". / / .") == "./."
  {
    DoubleSpaceSplit();
    RemoveSpacesSlashDot();
    var groups := [".", "/ ."];
    assert RemoveSpaces(".") == ".";
    assert groups[..1] == ["."];
    assert GroupsSymbols(groups) == GroupsSymbols(["."]) + "/.";
    assert GroupsSymbols(["."]) == GroupsSymbols([]) + ".";
  }

  lemma DitsSlash()
    ensures Dits("./.") == [1, 3, 1]
  {
  }

  /** Two spaces in a row encode to two word tokens (`". / / ."` for
      `"e  e"`), but the player takes only the first `" / "` as a separator
      (the groups are `"."` and `"/ ."`): the second `/` is left at the head
      of the next group and sounds as a three-dit tone. */
  lemma DoubleSpaceTone(freq: int)
    ensures Tones(Schedule(TextToMorse("e  e"), freq)) == [1, 3, 1]
  {
    EncodeDoubleSpace();
    var m := TextToMorse("e  e");
    assert m == ". / / .";
    DoubleSpacePlayed();
    ScheduleTones(m, freq);
    DitsSlash();
  }
}
