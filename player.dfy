/** `play_morse`: split the Morse string into word groups on `" / "`, each
    group into character codes on whitespace, and play every symbol of every
    code as a tone followed by a one-dit pause, with a further pause after each
    code and after each group. Sound output (`play_tone`) and sleeping
    (`time.sleep`) are modelled as the events they append to a log; every
    length is a whole number of dits. */
module MorsePlayer {
  import opened PyStr

  /** One thing the player does: sound a tone of `units` dits at `freq` hertz,
      or stay silent for `units` dits. */
  datatype Event = Tone(units: nat, freq: int) | Silence(units: nat)

  /** The separator `play_morse` splits word groups on. */
  const WordSeparator: string := " / "

  /** Length of the tone for one symbol: a dot is one dit, and anything else
      (a dash, but also a stray `/`) is three. */
  function SymbolUnits(signal: char): (n: nat)
    ensures n == 1 <==> signal == '.'
    ensures n == 1 || n == 3
  {
    if signal == '.' then 1 else 3
  }

  /** The seconds one dit lasts at `wpm` words per minute (`1.2 / wpm`). */
  function DitSeconds(wpm: int): (dit: real)
    requires wpm != 0
    ensures dit * (wpm as real) == 1.2
  {
    1.2 / (wpm as real)
  }

  /** Over the speeds the command line accepts (5 to 30) a dit is strictly
      positive, from 0.04 s at 30 wpm to 0.24 s at 5 wpm. */
  lemma DitBounds(wpm: int)
    requires 5 <= wpm <= 30
    ensures 0.04 <= DitSeconds(wpm) <= 0.24
  {
  }

  /** At the default speed of 100 wpm, above the 5 to 30 wpm range the command
      line offers, a dit is 12 ms, shorter than the 0.04 s to 0.24 s that the
      range's ends give. */
  lemma DitValues()
    ensures DitSeconds(100) == 0.012
    ensures DitSeconds(5) == 0.24 && DitSeconds(30) == 0.04
  {
  }

  /** In seconds, a dash lasts exactly three times as long as a dot. */
  lemma DashIsThreeDots(wpm: int)
    requires wpm != 0
    ensures (SymbolUnits('-') as real) * DitSeconds(wpm) == 3.0 * ((SymbolUnits('.') as real) * DitSeconds(wpm))
  {
  }

  // The schedule as a specification, built the way the loops of
  // `play_morse` build it: each item appends its events to those of the
  // items before it.

  /** The events for the first `n` symbols of one code: each symbol's tone,
      then a one-dit pause. */
  function SymbolsEvents(code: string, n: nat, freq: int): seq<Event>
    requires n <= |code|
  {
    if n == 0 then []
    else SymbolsEvents(code, n - 1, freq) + [Tone(SymbolUnits(code[n - 1]), freq), Silence(1)]
  }

  /** The events for one character code: its symbols, then three dits more. */
  function CharEvents(code: string, freq: int): seq<Event> {
    SymbolsEvents(code, |code|, freq) + [Silence(3)]
  }

  /** The events for the first `n` character codes of a word group. */
  function CharsEvents(codes: seq<string>, n: nat, freq: int): seq<Event>
    requires n <= |codes|
  {
    if n == 0 then []
    else CharsEvents(codes, n - 1, freq) + CharEvents(codes[n - 1], freq)
  }

  /** The events for one word group: its character codes, then seven dits
      more. */
  function GroupEvents(group: string, freq: int): seq<Event> {
    var codes := Fields(group);
    CharsEvents(codes, |codes|, freq) + [Silence(7)]
  }

  /** The events for the first `n` word groups. */
  function GroupsEvents(groups: seq<string>, n: nat, freq: int): seq<Event>
    requires n <= |groups|
  {
    if n == 0 then []
    else GroupsEvents(groups, n - 1, freq) + GroupEvents(groups[n - 1], freq)
  }

  /** Everything `play_morse(morse, wpm, freq)` does, in order. */
  function Schedule(morse: string, freq: int): seq<Event> {
    var groups := Split(morse, WordSeparator);
    GroupsEvents(groups, |groups|, freq)
  }

  /** `play_morse`, with each `play_tone` and `time.sleep` it performs appended
      to the returned log, in order. The loop over the codes of a group and the
      loop over the symbols of a code are `PlayGroup` and `PlayCode`. */
  method PlayMorse(morse: string, freq: int) returns (log: seq<Event>)
    ensures log == Schedule(morse, freq)
  {
    log := [];
    var groups := Split(morse, WordSeparator);
    for g := 0 to |groups|
      invariant log == GroupsEvents(groups, g, freq)
    {
      var events := PlayGroup(groups[g], freq);
      log := log + events;
    }
  }

  /** One pass of the loop over word groups: every code of the group, then the
      seven-dit word pause. */
  method PlayGroup(group: string, freq: int) returns (log: seq<Event>)
    ensures log == GroupEvents(group, freq)
  {
    log := [];
    var codes := Fields(group);
    for k := 0 to |codes|
      invariant log == CharsEvents(codes, k, freq)
    {
      var events := PlayCode(codes[k], freq);
      log := log + events;
    }
    log := log + [Silence(7)];
  }

  /** One pass of the loop over the codes of a group: for each symbol a tone
      and a one-dit pause, then the three-dit character pause. */
  method PlayCode(code: string, freq: int) returns (log: seq<Event>)
    ensures log == CharEvents(code, freq)
  {
    log := [];
    for i := 0 to |code|
      invariant log == SymbolsEvents(code, i, freq)
    {
      var units := if code[i] == '.' then 1 else 3;
      log := log + [Tone(units, freq)];
      log := log + [Silence(1)];
    }
    log := log + [Silence(3)];
  }

  // Measures of a log.

  /** The lengths of the tones of `log`, in order. */
  function Tones(log: seq<Event>): seq<nat> {
    if log == [] then []
    else (if log[0].Tone? then [log[0].units] else []) + Tones(log[1..])
  }

  /** The total length of `log` in dits, tones and silences together. */
  function Duration(log: seq<Event>): nat {
    if log == [] then 0 else log[0].units + Duration(log[1..])
  }

  /** Every tone is at `freq` and is followed at once by a one-dit silence. */
  predicate TonesSpaced(log: seq<Event>, freq: int) {
    forall i :: 0 <= i < |log| && log[i].Tone? ==>
      log[i].freq == freq && i + 1 < |log| && log[i + 1] == Silence(1)
  }

  function Sum(xs: seq<nat>): nat {
    if xs == [] then 0 else xs[0] + Sum(xs[1..])
  }

  /** The tone lengths the symbols of `s` call for. */
  function Dits(s: string): (r: seq<nat>)
    ensures |r| == |s|
  {
    seq(|s|, i requires 0 <= i < |s| => SymbolUnits(s[i]))
  }

  lemma {:induction false} TonesAppend(a: seq<Event>, b: seq<Event>)
    ensures Tones(a + b) == Tones(a) + Tones(b)
  {
    if a == [] {
      assert a + b == b;
    } else {
      assert (a + b)[0] == a[0] && (a + b)[1..] == a[1..] + b;
      TonesAppend(a[1..], b);
      var h: seq<nat> := if a[0].Tone? then [a[0].units] else [];
      assert h + (Tones(a[1..]) + Tones(b)) == (h + Tones(a[1..])) + Tones(b);
    }
  }

  lemma {:induction false} DurationAppend(a: seq<Event>, b: seq<Event>)
    ensures Duration(a + b) == Duration(a) + Duration(b)
  {
    if a == [] {
      assert a + b == b;
    } else {
      assert (a + b)[0] == a[0] && (a + b)[1..] == a[1..] + b;
      DurationAppend(a[1..], b);
    }
  }

  lemma {:induction false} SumAppend(a: seq<nat>, b: seq<nat>)
    ensures Sum(a + b) == Sum(a) + Sum(b)
  {
    if a == [] {
      assert a + b == b;
    } else {
      assert (a + b)[0] == a[0] && (a + b)[1..] == a[1..] + b;
      SumAppend(a[1..], b);
    }
  }

  lemma DitsAppend(a: string, b: string)
    ensures Dits(a + b) == Dits(a) + Dits(b)
  {
  }

  lemma TonesSpacedAppend(a: seq<Event>, b: seq<Event>, freq: int)
    requires TonesSpaced(a, freq) && TonesSpaced(b, freq)
    ensures TonesSpaced(a + b, freq)
  {
    var c := a + b;
    forall i | 0 <= i < |c| && c[i].Tone?
      ensures c[i].freq == freq && i + 1 < |c| && c[i + 1] == Silence(1)
    {
      if i < |a| {
        assert c[i] == a[i] && c[i + 1] == a[i + 1];
      } else {
        assert c[i] == b[i - |a|];
        assert c[i + 1] == b[i + 1 - |a|];
      }
    }
  }

  // The symbols a message plays: the non-whitespace characters of its groups.

  /** The characters of the groups that a tone is played for. */
  function GroupsSymbols(groups: seq<string>): string
    decreases |groups|
  {
    if groups == [] then []
    else GroupsSymbols(groups[..|groups| - 1]) + RemoveSpaces(groups[|groups| - 1])
  }

  /** The number of character codes in the groups. */
  function CharCount(groups: seq<string>): nat
    decreases |groups|
  {
    if groups == [] then 0
    else CharCount(groups[..|groups| - 1]) + |Fields(groups[|groups| - 1])|
  }

  /** The symbols `play_morse` plays for `morse`, in order. */
  function PlayedSymbols(morse: string): string {
    GroupsSymbols(Split(morse, WordSeparator))
  }

  // One code.

  lemma PairFacts(c: char, freq: int)
    ensures Tones([Tone(SymbolUnits(c), freq), Silence(1)]) == Dits([c])
    ensures Duration([Tone(SymbolUnits(c), freq), Silence(1)]) == Sum(Dits([c])) + 1
    ensures TonesSpaced([Tone(SymbolUnits(c), freq), Silence(1)], freq)
  {
    var pair := [Tone(SymbolUnits(c), freq), Silence(1)];
    assert pair[1..] == [Silence(1)] && pair[1..][1..] == [];
    assert Tones(pair[1..][1..]) == [];
    assert Tones(pair[1..]) == [];
    assert Tones(pair) == [SymbolUnits(c)];
    assert Duration(pair[1..][1..]) == 0;
    assert Duration(pair) == SymbolUnits(c) + 1;
    var d := Dits([c]);
    assert d == [SymbolUnits(c)] && d[1..] == [];
    assert Sum(d) == SymbolUnits(c) + Sum([]);
  }

  lemma {:induction false} SymbolsFacts(code: string, n: nat, freq: int)
    requires n <= |code|
    ensures Tones(SymbolsEvents(code, n, freq)) == Dits(code[..n])
    ensures Duration(SymbolsEvents(code, n, freq)) == Sum(Dits(code[..n])) + n
    ensures TonesSpaced(SymbolsEvents(code, n, freq), freq)
  {
    if n > 0 {
      var c := code[n - 1];
      var pair := [Tone(SymbolUnits(c), freq), Silence(1)];
      var init := SymbolsEvents(code, n - 1, freq);
      SymbolsFacts(code, n - 1, freq);
      PairFacts(c, freq);
      TonesAppend(init, pair);
      DurationAppend(init, pair);
      TonesSpacedAppend(init, pair, freq);
      assert code[..n] == code[..n - 1] + [c];
      DitsAppend(code[..n - 1], [c]);
      SumAppend(Dits(code[..n - 1]), Dits([c]));
    }
  }

  lemma CharFacts(code: string, freq: int)
    ensures Tones(CharEvents(code, freq)) == Dits(code)
    ensures Duration(CharEvents(code, freq)) == Sum(Dits(code)) + |code| + 3
    ensures TonesSpaced(CharEvents(code, freq), freq)
  {
    var symbols := SymbolsEvents(code, |code|, freq);
    SymbolsFacts(code, |code|, freq);
    assert code[..|code|] == code;
    TonesAppend(symbols, [Silence(3)]);
    DurationAppend(symbols, [Silence(3)]);
    TonesSpacedAppend(symbols, [Silence(3)], freq);
  }

  // One group.

  lemma {:induction false} CharsFacts(codes: seq<string>, n: nat, freq: int)
    requires n <= |codes|
    ensures Tones(CharsEvents(codes, n, freq)) == Dits(Concat(codes[..n]))
    ensures Duration(CharsEvents(codes, n, freq))
         == Sum(Dits(Concat(codes[..n]))) + |Concat(codes[..n])| + 3 * n
    ensures TonesSpaced(CharsEvents(codes, n, freq), freq)
  {
    if n > 0 {
      var last := codes[n - 1];
      var a, b := CharsEvents(codes, n - 1, freq), CharEvents(last, freq);
      CharsFacts(codes, n - 1, freq);
      CharFacts(last, freq);
      TonesAppend(a, b);
      DurationAppend(a, b);
      TonesSpacedAppend(a, b, freq);
      assert codes[..n] == codes[..n - 1] + [last];
      ConcatAppend(codes[..n - 1], [last]);
      assert Concat([last]) == last + Concat([]);
      assert Concat(codes[..n]) == Concat(codes[..n - 1]) + last;
      DitsAppend(Concat(codes[..n - 1]), last);
      SumAppend(Dits(Concat(codes[..n - 1])), Dits(last));
    }
  }

  lemma GroupFacts(group: string, freq: int)
    ensures Tones(GroupEvents(group, freq)) == Dits(RemoveSpaces(group))
    ensures Duration(GroupEvents(group, freq))
         == Sum(Dits(RemoveSpaces(group))) + |RemoveSpaces(group)| + 3 * |Fields(group)| + 7
    ensures TonesSpaced(GroupEvents(group, freq), freq)
  {
    var codes := Fields(group);
    var chars := CharsEvents(codes, |codes|, freq);
    CharsFacts(codes, |codes|, freq);
    assert codes[..|codes|] == codes;
    ConcatFields(group);
    TonesAppend(chars, [Silence(7)]);
    DurationAppend(chars, [Silence(7)]);
    TonesSpacedAppend(chars, [Silence(7)], freq);
  }

  // All groups.

  lemma {:induction false} GroupsFacts(groups: seq<string>, n: nat, freq: int)
    requires n <= |groups|
    ensures Tones(GroupsEvents(groups, n, freq)) == Dits(GroupsSymbols(groups[..n]))
    ensures Duration(GroupsEvents(groups, n, freq))
         == Sum(Dits(GroupsSymbols(groups[..n]))) + |GroupsSymbols(groups[..n])|
            + 3 * CharCount(groups[..n]) + 7 * n
    ensures TonesSpaced(GroupsEvents(groups, n, freq), freq)
  {
    if n > 0 {
      var last := groups[n - 1];
      var a, b := GroupsEvents(groups, n - 1, freq), GroupEvents(last, freq);
      GroupsFacts(groups, n - 1, freq);
      GroupFacts(last, freq);
      TonesAppend(a, b);
      DurationAppend(a, b);
      TonesSpacedAppend(a, b, freq);
      assert groups[..n][..n - 1] == groups[..n - 1];
      assert GroupsSymbols(groups[..n]) == GroupsSymbols(groups[..n - 1]) + RemoveSpaces(last);
      assert CharCount(groups[..n]) == CharCount(groups[..n - 1]) + |Fields(last)|;
      DitsAppend(GroupsSymbols(groups[..n - 1]), RemoveSpaces(last));
      SumAppend(Dits(GroupsSymbols(groups[..n - 1])), Dits(RemoveSpaces(last)));
    }
  }

  /** One tone per symbol played, in order, a dot lasting one dit and any
      other symbol three; so the number of tones is the number of
      non-whitespace characters left in the groups. */
  lemma ScheduleTones(morse: string, freq: int)
    ensures Tones(Schedule(morse, freq)) == Dits(PlayedSymbols(morse))
    ensures |Tones(Schedule(morse, freq))| == |PlayedSymbols(morse)|
  {
    var groups := Split(morse, WordSeparator);
    GroupsFacts(groups, |groups|, freq);
    assert groups[..|groups|] == groups;
  }

  /** Every tone is at the requested frequency and is followed at once by a
      one-dit silence. */
  lemma ScheduleSpaced(morse: string, freq: int)
    ensures TonesSpaced(Schedule(morse, freq), freq)
  {
    var groups := Split(morse, WordSeparator);
    GroupsFacts(groups, |groups|, freq);
  }

  /** The whole schedule lasts, in dits, each tone plus its one-dit pause,
      three more per character code and seven more per word group. */
  lemma ScheduleDuration(morse: string, freq: int)
    ensures
      var groups := Split(morse, WordSeparator);
      Duration(Schedule(morse, freq))
      == Sum(Dits(PlayedSymbols(morse))) + |PlayedSymbols(morse)| + 3 * CharCount(groups) + 7 * |groups|
  {
    var groups := Split(morse, WordSeparator);
    GroupsFacts(groups, |groups|, freq);
    assert groups[..|groups|] == groups;
  }

  /** Every schedule ends with the seven-dit pause of its last word group. */
  lemma ScheduleEndsWithWordGap(morse: string, freq: int)
    ensures |Schedule(morse, freq)| > 0 && Schedule(morse, freq)[|Schedule(morse, freq)| - 1] == Silence(7)
  {
  }

  /** An empty message plays nothing and waits seven dits, because splitting
      the empty string yields one empty group. */
  lemma ScheduleEmpty(freq: int)
    ensures Schedule("", freq) == [Silence(7)]
  {
    assert Split("", WordSeparator) == [""];
    assert Fields("") == [];
    assert GroupEvents("", freq) == [Silence(7)];
    assert GroupsEvents([""], 1, freq) == [] + GroupEvents("", freq);
  }

  // Where the pauses fall.

  lemma {:induction false} SymbolsHead(code: string, n: nat, freq: int)
    requires 0 < n <= |code|
    ensures SymbolsEvents(code, n, freq)[0] == Tone(SymbolUnits(code[0]), freq)
  {
    if n > 1 {
      SymbolsHead(code, n - 1, freq);
    }
  }

  /** A non-empty code starts with the tone of its first symbol and ends with
      the tone of its last symbol followed by a one-dit and a three-dit pause:
      the silence after the last tone of a character is four dits. */
  lemma CharBoundary(code: string, freq: int)
    requires code != []
    ensures var e := CharEvents(code, freq);
      && |e| >= 3
      && e[0] == Tone(SymbolUnits(code[0]), freq)
      && e[|e| - 3] == Tone(SymbolUnits(code[|code| - 1]), freq)
      && e[|e| - 2..] == [Silence(1), Silence(3)]
  {
    SymbolsHead(code, |code|, freq);
  }

  lemma {:induction false} CharsHead(codes: seq<string>, n: nat, freq: int)
    requires 0 < n <= |codes| && codes[0] != []
    ensures CharsEvents(codes, n, freq)[0] == Tone(SymbolUnits(codes[0][0]), freq)
  {
    if n > 1 {
      CharsHead(codes, n - 1, freq);
    } else {
      CharBoundary(codes[0], freq);
      assert CharsEvents(codes, 1, freq) == [] + CharEvents(codes[0], freq);
    }
  }

  /** A word group with at least one code starts with the tone of its first
      symbol and ends with the tone of its last symbol followed by pauses of
      one, three and seven dits: the silence after the last tone of a word is
      eleven dits. */
  lemma WordBoundary(group: string, freq: int)
    requires Fields(group) != []
    ensures var codes := Fields(group);
      var e := GroupEvents(group, freq);
      && |e| >= 4
      && e[0] == Tone(SymbolUnits(codes[0][0]), freq)
      && e[|e| - 4] == Tone(SymbolUnits(codes[|codes| - 1][|codes[|codes| - 1]| - 1]), freq)
      && e[|e| - 3..] == [Silence(1), Silence(3), Silence(7)]
  {
    var codes := Fields(group);
    var last := codes[|codes| - 1];
    CharsHead(codes, |codes|, freq);
    CharBoundary(last, freq);
    var a, b := CharsEvents(codes, |codes| - 1, freq), CharEvents(last, freq);
    var e := GroupEvents(group, freq);
    assert e == a + b + [Silence(7)];
    assert e[|e| - 4] == b[|b| - 3];
    assert e[|e| - 3..] == b[|b| - 2..] + [Silence(7)];
  }
}
