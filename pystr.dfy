/** The Python string primitives the Morse pipeline relies on, over `seq<char>`:
    the whitespace class, `sep.join(parts)`, `s.split(sep)` and `s.split()`. */
module PyStr {

  /** Python's whitespace class: the characters for which `str.isspace()` holds,
      which is also what the `\s` class of `re` and the argument-less `str.split()`
      use on `str` values. */
  predicate IsSpace(c: char) {
    || ('\U{9}' <= c <= '\U{D}')
    || ('\U{1C}' <= c <= '\U{1F}')
    || c == ' '
    || c == '\U{85}'
    || c == '\U{A0}'
    || c == '\U{1680}'
    || ('\U{2000}' <= c <= '\U{200A}')
    || c == '\U{2028}'
    || c == '\U{2029}'
    || c == '\U{202F}'
    || c == '\U{205F}'
    || c == '\U{3000}'
  }

  /** The characters of `s` that are not whitespace, in order. */
  function RemoveSpaces(s: string): (r: string)
    ensures |r| <= |s|
    ensures forall i :: 0 <= i < |r| ==> !IsSpace(r[i])
  {
    if s == [] then []
    else (if IsSpace(s[0]) then [] else [s[0]]) + RemoveSpaces(s[1..])
  }

  /** The strings of `parts`, one after the other. */
  function Concat(parts: seq<string>): string {
    if parts == [] then [] else parts[0] + Concat(parts[1..])
  }

  lemma {:induction false} ConcatAppend(xs: seq<string>, ys: seq<string>)
    ensures Concat(xs + ys) == Concat(xs) + Concat(ys)
  {
    if xs != [] {
      assert (xs + ys)[0] == xs[0] && (xs + ys)[1..] == xs[1..] + ys;
      ConcatAppend(xs[1..], ys);
      assert xs[0] + (Concat(xs[1..]) + Concat(ys)) == (xs[0] + Concat(xs[1..])) + Concat(ys);
    } else {
      assert xs + ys == ys;
    }
  }

  lemma RemoveSpacesAppend(a: string, b: string)
    ensures RemoveSpaces(a + b) == RemoveSpaces(a) + RemoveSpaces(b)
  {
    if a != [] {
      assert (a + b)[0] == a[0] && (a + b)[1..] == a[1..] + b;
      RemoveSpacesAppend(a[1..], b);
      var h := if IsSpace(a[0]) then [] else [a[0]];
      assert h + (RemoveSpaces(a[1..]) + RemoveSpaces(b)) == (h + RemoveSpaces(a[1..])) + RemoveSpaces(b);
    } else {
      assert a + b == b;
    }
  }

  /** `sep.join(parts)`: the parts with one copy of `sep` between neighbours. */
  function Join(parts: seq<string>, sep: string): (r: string)
    ensures |parts| == 0 ==> r == ""
    ensures |parts| == 1 ==> r == parts[0]
  {
    if |parts| == 0 then ""
    else if |parts| == 1 then parts[0]
    else parts[0] + sep + Join(parts[1..], sep)
  }

  lemma {:induction false} JoinAppend(xs: seq<string>, ys: seq<string>, sep: string)
    requires xs != [] && ys != []
    ensures Join(xs + ys, sep) == Join(xs, sep) + sep + Join(ys, sep)
  {
    if |xs| > 1 {
      assert (xs + ys)[1..] == xs[1..] + ys;
      JoinAppend(xs[1..], ys, sep);
    } else {
      assert (xs + ys)[1..] == ys;
    }
  }

  /** `s.split(sep)` for a non-empty separator: the pieces between the
      non-overlapping occurrences of `sep`, found from the left. There is always
      at least one piece (`"".split(sep)` is `[""]`). */
  function Split(s: string, sep: string): (r: seq<string>)
    requires sep != []
    ensures |r| >= 1
    decreases |s|
  {
    if |s| < |sep| then [s]
    else if s[..|sep|] == sep then [""] + Split(s[|sep|..], sep)
    else
      var rest := Split(s[1..], sep);
      [[s[0]] + rest[0]] + rest[1..]
  }

  lemma JoinConsHead(c: char, x: string, tail: seq<string>, sep: string)
    ensures Join([[c] + x] + tail, sep) == [c] + Join([x] + tail, sep)
  {
    if tail != [] {
      assert ([[c] + x] + tail)[1..] == tail;
      assert ([x] + tail)[1..] == tail;
    }
  }

  /** Joining the pieces of a split with the same separator gives back the
      original string, whatever it is. */
  lemma {:induction false} JoinSplit(s: string, sep: string)
    requires sep != []
    ensures Join(Split(s, sep), sep) == s
    decreases |s|
  {
    if |s| < |sep| {
    } else if s[..|sep|] == sep {
      var rest := Split(s[|sep|..], sep);
      JoinSplit(s[|sep|..], sep);
      assert ([""] + rest)[1..] == rest;
      assert s == sep + s[|sep|..];
    } else {
      var rest := Split(s[1..], sep);
      JoinSplit(s[1..], sep);
      assert rest == [rest[0]] + rest[1..];
      JoinConsHead(s[0], rest[0], rest[1..], sep);
      assert s == [s[0]] + s[1..];
    }
  }

  /** A piece free of a one-character separator stays at the head of the first
      piece of whatever follows it. */
  lemma {:induction false} SplitFreePrefix(p: string, t: string, x: char)
    requires x !in p
    ensures Split(p + t, [x]) == [p + Split(t, [x])[0]] + Split(t, [x])[1..]
    decreases |p|
  {
    if p != [] {
      var s := p + t;
      assert s[0] == p[0] && s[..1] == [p[0]] && s[1..] == p[1..] + t;
      SplitFreePrefix(p[1..], t, x);
      var r := Split(t, [x]);
      var rest := Split(s[1..], [x]);
      assert rest == [p[1..] + r[0]] + r[1..];
      assert rest[0] == p[1..] + r[0] && rest[1..] == r[1..];
      assert Split(s, [x]) == [[s[0]] + rest[0]] + rest[1..];
      assert [p[0]] + (p[1..] + r[0]) == p + r[0];
    } else {
      assert p + t == t;
      var r := Split(t, [x]);
      assert r == [r[0]] + r[1..];
      assert p + r[0] == r[0];
    }
  }

  /** Splitting on a one-character separator undoes joining with it, provided
      no part contains the separator and there is at least one part. */
  lemma {:induction false} SplitJoin(parts: seq<string>, x: char)
    requires |parts| >= 1
    requires forall i :: 0 <= i < |parts| ==> x !in parts[i]
    ensures Split(Join(parts, [x]), [x]) == parts
  {
    if |parts| == 1 {
      SplitFreePrefix(parts[0], "", x);
      assert parts[0] + "" == parts[0];
    } else {
      var tail := Join(parts[1..], [x]);
      SplitJoin(parts[1..], x);
      assert Split([x] + tail, [x]) == [""] + Split(tail, [x]) by {
        assert ([x] + tail)[..1] == [x];
        assert ([x] + tail)[1..] == tail;
      }
      assert Join(parts, [x]) == parts[0] + ([x] + tail);
      SplitFreePrefix(parts[0], [x] + tail, x);
      assert parts[0] + "" == parts[0];
      assert parts == [parts[0]] + parts[1..];
    }
  }

  /** Length of the run of non-whitespace characters at the head of `s`. */
  function WordLen(s: string): (n: nat)
    ensures n <= |s|
    ensures forall i :: 0 <= i < n ==> !IsSpace(s[i])
    ensures n < |s| ==> IsSpace(s[n])
  {
    if s == [] || IsSpace(s[0]) then 0 else 1 + WordLen(s[1..])
  }

  /** `s.split()` with no argument: the maximal runs of non-whitespace
      characters, so no piece is empty and leading, trailing and repeated
      whitespace produce nothing. */
  function Fields(s: string): (r: seq<string>)
    ensures forall i :: 0 <= i < |r| ==> r[i] != []
    ensures forall i, j :: 0 <= i < |r| && 0 <= j < |r[i]| ==> !IsSpace(r[i][j])
    decreases |s|
  {
    if s == [] then []
    else if IsSpace(s[0]) then Fields(s[1..])
    else
      var n := WordLen(s);
      [s[..n]] + Fields(s[n..])
  }

  lemma {:induction false} RemoveSpacesOfWord(s: string, n: nat)
    requires n <= |s|
    requires forall i :: 0 <= i < n ==> !IsSpace(s[i])
    ensures RemoveSpaces(s[..n]) == s[..n]
    decreases n
  {
    if n > 0 {
      assert s[..n][1..] == s[1..][..n - 1];
      RemoveSpacesOfWord(s[1..], n - 1);
    }
  }

  /** The fields of `s` hold exactly its non-whitespace characters, in order. */
  lemma {:induction false} ConcatFields(s: string)
    ensures Concat(Fields(s)) == RemoveSpaces(s)
    decreases |s|
  {
    if s == [] {
    } else if IsSpace(s[0]) {
      ConcatFields(s[1..]);
    } else {
      var n := WordLen(s);
      ConcatFields(s[n..]);
      assert ([s[..n]] + Fields(s[n..]))[1..] == Fields(s[n..]);
      assert s == s[..n] + s[n..];
      RemoveSpacesAppend(s[..n], s[n..]);
      RemoveSpacesOfWord(s, n);
    }
  }

  /** A string that lacks some character of the separator is a single piece. */
  lemma {:induction false} SplitAbsent(s: string, sep: string, c: char)
    requires c in sep && c !in s
    ensures Split(s, sep) == [s]
    decreases |s|
  {
    if |s| >= |sep| {
      assert c !in s[..|sep|];
      SplitAbsent(s[1..], sep, c);
      assert [s[0]] + s[1..] == s;
    }
  }

  lemma {:induction false} WordLenPrefix(w: string, t: string)
    requires forall i :: 0 <= i < |w| ==> !IsSpace(w[i])
    requires t == [] || IsSpace(t[0])
    ensures WordLen(w + t) == |w|
    decreases |w|
  {
    if w != [] {
      assert (w + t)[1..] == w[1..] + t;
      WordLenPrefix(w[1..], t);
    } else {
      assert w + t == t;
    }
  }

  /** A word followed by whitespace or by nothing is the first field. */
  lemma FieldsWordThen(w: string, t: string)
    requires w != []
    requires forall i :: 0 <= i < |w| ==> !IsSpace(w[i])
    requires t == [] || IsSpace(t[0])
    ensures Fields(w + t) == [w] + Fields(t)
  {
    WordLenPrefix(w, t);
    assert (w + t)[..|w|] == w && (w + t)[|w|..] == t;
  }

  /** Splitting on whitespace undoes joining with single spaces, provided the
      parts are non-empty and hold no whitespace. */
  lemma {:induction false} FieldsJoin(parts: seq<string>)
    requires forall k :: 0 <= k < |parts| ==> parts[k] != []
    requires forall k, i :: 0 <= k < |parts| && 0 <= i < |parts[k]| ==> !IsSpace(parts[k][i])
    ensures Fields(Join(parts, " ")) == parts
  {
    if |parts| == 1 {
      FieldsWordThen(parts[0], []);
      assert parts[0] + [] == parts[0];
    } else if |parts| > 1 {
      var rest := Join(parts[1..], " ");
      FieldsJoin(parts[1..]);
      assert Fields(" " + rest) == Fields(rest) by {
        assert (" " + rest)[1..] == rest;
      }
      assert Join(parts, " ") == parts[0] + (" " + rest);
      FieldsWordThen(parts[0], " " + rest);
      assert parts == [parts[0]] + parts[1..];
    }
  }
}
