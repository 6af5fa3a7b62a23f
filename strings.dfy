/** The Python `str` methods `ecfg.py` relies on: `strip`, `splitlines`, `split` with a
    separator, and `join`, over strings as sequences of Unicode scalar values. */
module Strings {

  /** `c.isspace()`: the characters Python treats as whitespace. */
  predicate IsSpace(c: char) {
    || c == ' ' || ('\t' <= c <= '\r') || ('\U{1C}' <= c <= '\U{1F}')
    || c == '\U{85}' || c == '\U{A0}' || c == '\U{1680}' || ('\U{2000}' <= c <= '\U{200A}')
    || c == '\U{2028}' || c == '\U{2029}' || c == '\U{202F}' || c == '\U{205F}' || c == '\U{3000}'
  }

  /** The characters `str.splitlines` breaks at. */
  predicate IsLineBreak(c: char) {
    || ('\n' <= c <= '\r') || ('\U{1C}' <= c <= '\U{1E}')
    || c == '\U{85}' || c == '\U{2028}' || c == '\U{2029}'
  }

  /** No line of `lines` holds a line break. */
  ghost predicate AllNoBreak(lines: seq<string>) {
    forall k :: 0 <= k < |lines| ==> NoBreak(lines[k])
  }

  ghost predicate NoBreak(s: string) {
    forall i :: 0 <= i < |s| ==> !IsLineBreak(s[i])
  }

  /** `s.lstrip()`: drops the leading whitespace and nothing else. */
  function LStrip(s: string): (r: string)
    ensures |r| <= |s| && r == s[|s| - |r|..]
    ensures forall i :: 0 <= i < |s| - |r| ==> IsSpace(s[i])
    ensures r == [] || !IsSpace(r[0])
  {
    if s != [] && IsSpace(s[0]) then LStrip(s[1..]) else s
  }

  /** `s.rstrip()`: drops the trailing whitespace and nothing else. */
  function RStrip(s: string): (r: string)
    ensures |r| <= |s| && r == s[..|r|]
    ensures forall i :: |r| <= i < |s| ==> IsSpace(s[i])
    ensures r == [] || !IsSpace(r[|r| - 1])
  {
    if s != [] && IsSpace(s[|s| - 1]) then RStrip(s[..|s| - 1]) else s
  }

  /** `s.strip()`: no longer than `s`, with whitespace at neither end. */
  function Strip(s: string): (r: string)
    ensures |r| <= |s|
    ensures r == [] || (!IsSpace(r[0]) && !IsSpace(r[|r| - 1]))
  {
    var l := LStrip(s);
    var r := RStrip(l);
    assert r == [] || r[0] == l[0];
    r
  }

  /** The stripped string is the slice `s[i..j]` with only whitespace on either side
      of it; it starts and ends with non-whitespace. */
  lemma StripSlice(s: string) returns (i: nat, j: nat)
    ensures i <= j <= |s| && Strip(s) == s[i..j]
    ensures forall k :: 0 <= k < i ==> IsSpace(s[k])
    ensures forall k :: j <= k < |s| ==> IsSpace(s[k])
    ensures i < j ==> !IsSpace(s[i]) && !IsSpace(s[j - 1])
  {
    var l := LStrip(s);
    var r := RStrip(l);
    i, j := SliceBetween(s, l, r);
  }

  /** What `lstrip` leaves of `s` and what `rstrip` then leaves of that, as a slice of
      `s`. */
  lemma SliceBetween(s: string, l: string, r: string) returns (i: nat, j: nat)
    requires |l| <= |s| && l == s[|s| - |l|..]
    requires forall k :: 0 <= k < |s| - |l| ==> IsSpace(s[k])
    requires l == [] || !IsSpace(l[0])
    requires |r| <= |l| && r == l[..|r|]
    requires forall k :: |r| <= k < |l| ==> IsSpace(l[k])
    requires r == [] || !IsSpace(r[|r| - 1])
    ensures i <= j <= |s| && r == s[i..j]
    ensures forall k :: 0 <= k < i ==> IsSpace(s[k])
    ensures forall k :: j <= k < |s| ==> IsSpace(s[k])
    ensures i < j ==> !IsSpace(s[i]) && !IsSpace(s[j - 1])
  {
    i := |s| - |l|;
    j := i + |r|;
    forall k | j <= k < |s| ensures IsSpace(s[k]) {
      assert s[k] == l[k - i];
    }
    if r != [] {
      assert r[0] == l[0] == s[i] && r[|r| - 1] == s[j - 1];
    }
  }

  /** `if not line.strip()` holds exactly for the whitespace-only lines. */
  lemma StripEmpty(s: string)
    ensures Strip(s) == [] <==> forall k :: 0 <= k < |s| ==> IsSpace(s[k])
  {
    var i, j := StripSlice(s);
    if Strip(s) == [] {
      forall k | 0 <= k < |s| ensures IsSpace(s[k]) {
        if k >= i {
          assert k >= j;
        }
      }
    }
  }

  /** A string without whitespace at either end is its own strip. */
  lemma StripNoop(s: string)
    requires s == [] || (!IsSpace(s[0]) && !IsSpace(s[|s| - 1]))
    ensures Strip(s) == s
  {
  }

  /** Stripping twice strips no more than once. */
  lemma StripIdempotent(s: string)
    ensures Strip(Strip(s)) == Strip(s)
  {
    var _, _ := StripSlice(s);
    StripNoop(Strip(s));
  }

  /** Trailing whitespace after a stripped string is stripped away. */
  lemma StripTrailing(s: string, t: string)
    requires s != [] && Strip(s) == s
    requires forall k :: 0 <= k < |t| ==> IsSpace(t[k])
    ensures Strip(s + t) == s
  {
    var _, _ := StripSlice(s);
    assert LStrip(s + t) == s + t;
    RStripSpaces(s, t);
  }

  lemma RStripSpaces(s: string, t: string)
    requires s != [] && !IsSpace(s[|s| - 1])
    requires forall k :: 0 <= k < |t| ==> IsSpace(t[k])
    ensures RStrip(s + t) == s
  {
    var u := s + t;
    var r := RStrip(u);
    var n := |r|;
    assert u[|s| - 1] == s[|s| - 1];
    assert n >= |s|;
    assert forall k :: |s| <= k < |u| ==> u[k] == t[k - |s|];
    assert r != [] ==> r[n - 1] == u[n - 1];
    assert n <= |s|;
    assert r == u[..|s|];
    assert u[..|s|] == s;
  }

  /** Whitespace before a stripped string is stripped away. */
  lemma LStripSpaces(t: string, s: string)
    requires s != [] && !IsSpace(s[0])
    requires forall k :: 0 <= k < |t| ==> IsSpace(t[k])
    ensures LStrip(t + s) == s
  {
    var u := t + s;
    var r := LStrip(u);
    var m := |u| - |r|;
    assert u[|t|] == s[0];
    assert m <= |t|;
    assert forall k :: 0 <= k < |t| ==> u[k] == t[k];
    assert r != [] ==> r[0] == u[m];
    assert m >= |t|;
    assert r == u[|t|..];
    assert u[|t|..] == s;
  }

  lemma StripLeading(t: string, s: string)
    requires s != [] && Strip(s) == s
    requires forall k :: 0 <= k < |t| ==> IsSpace(t[k])
    ensures Strip(t + s) == s
  {
    var _, _ := StripSlice(s);
    LStripSpaces(t, s);
  }

  /** `sep.join(parts)`. */
  function Join(sep: string, parts: seq<string>): string
    decreases |parts|
  {
    if |parts| == 0 then []
    else if |parts| == 1 then parts[0]
    else parts[0] + sep + Join(sep, parts[1..])
  }

  /** `sub` occurs in `s` at position `i`. */
  predicate OccursAt(s: string, sub: string, i: nat) {
    i + |sub| <= |s| && s[i..i + |sub|] == sub
  }

  /** `s.split(sep)`: the pieces between the non-overlapping occurrences of `sep`,
      found from the left. */
  function Split(s: string, sep: string): (r: seq<string>)
    requires |sep| > 0
    ensures |r| >= 1
    decreases |s|
  {
    if |s| < |sep| then [s]
    else if s[..|sep|] == sep then [[]] + Split(s[|sep|..], sep)
    else
      var rest := Split(s[1..], sep);
      [[s[0]] + rest[0]] + rest[1..]
  }

  /** Joining the pieces with the separator gives back the string. */
  lemma {:induction false} JoinSplit(s: string, sep: string)
    requires |sep| > 0
    ensures Join(sep, Split(s, sep)) == s
    decreases |s|
  {
    if |s| >= |sep| {
      if s[..|sep|] == sep {
        JoinSplit(s[|sep|..], sep);
        JoinSplitSep(s, sep);
      } else {
        JoinSplit(s[1..], sep);
        JoinSplitChar(s, sep);
      }
    }
  }

  lemma AppendAssoc<T>(a: seq<T>, b: seq<T>, c: seq<T>)
    ensures (a + b) + c == a + (b + c)
  {
  }

  /** A string that starts with `sep` joins back from the pieces after it. */
  lemma JoinSplitSep(s: string, sep: string)
    requires |sep| > 0 && |s| >= |sep| && s[..|sep|] == sep
    requires Join(sep, Split(s[|sep|..], sep)) == s[|sep|..]
    ensures Join(sep, Split(s, sep)) == s
  {
    assert s == sep + s[|sep|..];
  }

  /** A string that does not start with `sep` joins back from the pieces of its tail. */
  lemma JoinSplitChar(s: string, sep: string)
    requires |sep| > 0 && |s| >= |sep| && s[..|sep|] != sep
    requires Join(sep, Split(s[1..], sep)) == s[1..]
    ensures Join(sep, Split(s, sep)) == s
  {
    var rest := Split(s[1..], sep);
    assert Split(s, sep) == [[s[0]] + rest[0]] + rest[1..];
    JoinPrepend(sep, s[0], rest);
    assert s == [s[0]] + s[1..];
  }

  /** Putting `c` in front of the first piece puts it in front of the join. */
  lemma JoinPrepend(sep: string, c: char, parts: seq<string>)
    requires parts != []
    ensures Join(sep, [[c] + parts[0]] + parts[1..]) == [c] + Join(sep, parts)
  {
    var x := [c] + parts[0];
    var ps := [x] + parts[1..];
    if |parts| > 1 {
      assert ps[0] == x && ps[1..] == parts[1..] && |ps| == |parts|;
      var tail := Join(sep, parts[1..]);
      assert Join(sep, ps) == x + sep + tail;
      AppendAssoc([c], parts[0], sep);
      AppendAssoc([c], parts[0] + sep, tail);
    }
  }

  /** A string in which `sep` does not occur is one piece. */
  lemma {:induction false} SplitNone(s: string, sep: string)
    requires |sep| > 0
    requires forall i :: 0 <= i < |s| ==> !OccursAt(s, sep, i)
    ensures Split(s, sep) == [s]
    decreases |s|
  {
    if |s| >= |sep| {
      assert !OccursAt(s, sep, 0);
      forall i | 0 <= i < |s[1..]| ensures !OccursAt(s[1..], sep, i) {
        assert !OccursAt(s, sep, i + 1);
        if i + |sep| <= |s[1..]| {
          assert s[1..][i..i + |sep|] == s[i + 1..i + 1 + |sep|];
        }
      }
      SplitNone(s[1..], sep);
      assert [s[0]] + s[1..] == s;
    }
  }

  /** The first piece ends at the first occurrence of `sep`. */
  lemma {:induction false} SplitFirst(x: string, sep: string, y: string)
    requires |sep| > 0
    requires forall i :: 0 <= i < |x| ==> !OccursAt(x + sep + y, sep, i)
    ensures Split(x + sep + y, sep) == [x] + Split(y, sep)
    decreases |x|
  {
    var s := x + sep + y;
    if x == [] {
      assert s[..|sep|] == sep && s[|sep|..] == y;
    } else {
      assert !OccursAt(s, sep, 0);
      assert s[1..] == x[1..] + sep + y;
      forall i | 0 <= i < |x[1..]| ensures !OccursAt(x[1..] + sep + y, sep, i) {
        assert !OccursAt(s, sep, i + 1);
        if i + |sep| <= |s[1..]| {
          assert s[1..][i..i + |sep|] == s[i + 1..i + 1 + |sep|];
        }
      }
      SplitFirst(x[1..], sep, y);
      assert [x[0]] + x[1..] == x;
    }
  }

  /** `sep` starts nowhere inside `x` when `x` is followed by `sep`. */
  ghost predicate SepFree(x: string, sep: string) {
    forall i :: 0 <= i < |x| ==> !OccursAt(x + sep, sep, i)
  }

  /** Parts in which the separator starts nowhere, not even to run on into the separator
      that follows, split back into themselves once joined. */
  lemma {:induction false} SplitJoin(sep: string, parts: seq<string>)
    requires |sep| > 0 && |parts| > 0
    requires forall k :: 0 <= k < |parts| ==> SepFree(parts[k], sep)
    ensures Split(Join(sep, parts), sep) == parts
    decreases |parts|
  {
    var x := parts[0];
    if |parts| == 1 {
      forall i | 0 <= i < |x| ensures !OccursAt(x, sep, i) {
        assert !OccursAt(x + sep, sep, i);
        if i + |sep| <= |x| {
          assert (x + sep)[i..i + |sep|] == x[i..i + |sep|];
        }
      }
      SplitNone(x, sep);
    } else {
      var j := Join(sep, parts[1..]);
      forall i | 0 <= i < |x| ensures !OccursAt(x + sep + j, sep, i) {
        assert !OccursAt(x + sep, sep, i);
        assert (x + sep + j)[i..i + |sep|] == (x + sep)[i..i + |sep|];
      }
      SplitFirst(x, sep, j);
      SplitJoin(sep, parts[1..]);
    }
  }

  /** The length of the first line of `s`. */
  function LineEnd(s: string): (k: nat)
    ensures k <= |s| && (k < |s| ==> IsLineBreak(s[k]))
    ensures forall i :: 0 <= i < k ==> !IsLineBreak(s[i])
  {
    if s == [] || IsLineBreak(s[0]) then 0 else 1 + LineEnd(s[1..])
  }

  /** `s.splitlines()`: the lines of `s` without their line ends; `\r\n` is one line
      end, and a line end at the very end of `s` opens no further line. */
  function SplitLines(s: string): (r: seq<string>)
    ensures forall k :: 0 <= k < |r| ==> NoBreak(r[k])
    decreases |s|
  {
    if s == [] then []
    else
      var k := LineEnd(s);
      if k == |s| then [s]
      else
        var w := if s[k] == '\r' && k + 1 < |s| && s[k + 1] == '\n' then 2 else 1;
        [s[..k]] + SplitLines(s[k + w..])
  }

  /** Lines joined by `\n` split back into the same lines, provided the last one is not
      empty. */
  lemma SplitLinesJoin(lines: seq<string>)
    requires |lines| > 0 && lines[|lines| - 1] != []
    requires AllNoBreak(lines)
    ensures SplitLines(Join("\n", lines)) == lines
  {
    SplitLinesJoinSep("\n", lines);
  }

  /** The induction behind `SplitLinesJoin`, with the separator passed in rather than
      written as a literal. */
  lemma {:induction false} SplitLinesJoinSep(nl: string, lines: seq<string>)
    requires nl == "\n"
    requires |lines| > 0 && lines[|lines| - 1] != []
    requires AllNoBreak(lines)
    ensures SplitLines(Join(nl, lines)) == lines
    decreases |lines|
  {
    if |lines| == 1 {
      SplitLinesOne(lines);
    } else {
      LinesTail(lines);
      SplitLinesJoinSep(nl, lines[1..]);
      SplitLinesStep(lines);
    }
  }

  /** If the lines after the first split back, so do all of them. */
  lemma SplitLinesStep(lines: seq<string>)
    requires |lines| > 1 && NoBreak(lines[0])
    requires SplitLines(Join("\n", lines[1..])) == lines[1..]
    ensures SplitLines(Join("\n", lines)) == lines
  {
    assert Join("\n", lines) == lines[0] + "\n" + Join("\n", lines[1..]);
    SplitLinesCons(lines[0], Join("\n", lines[1..]));
    assert lines == [lines[0]] + lines[1..];
  }

  /** A single non-empty line without line breaks splits into itself. */
  lemma SplitLinesOne(lines: seq<string>)
    requires |lines| == 1 && lines[0] != [] && AllNoBreak(lines)
    ensures SplitLines(Join("\n", lines)) == lines
  {
    var x := lines[0];
    assert NoBreak(x);
    LineEndAt(x, []);
    assert x + [] == x;
    assert Join("\n", lines) == x && lines == [x];
  }

  /** The lines after the first still meet the requirements of `SplitLinesJoin`, and
      `\n` joins the first line to their join. */
  lemma LinesTail(lines: seq<string>)
    requires |lines| > 1 && lines[|lines| - 1] != []
    requires AllNoBreak(lines)
    ensures lines[1..][|lines| - 2] != [] && NoBreak(lines[0])
    ensures AllNoBreak(lines[1..])
    ensures Join("\n", lines) == lines[0] + "\n" + Join("\n", lines[1..])
    ensures lines == [lines[0]] + lines[1..]
  {
    forall k | 0 <= k < |lines| - 1 ensures NoBreak(lines[1..][k]) {
      assert lines[1..][k] == lines[k + 1];
    }
  }

  /** A first line without line breaks, followed by `\n`, is split off on its own. */
  lemma SplitLinesCons(x: string, rest: string)
    requires NoBreak(x)
    ensures SplitLines(x + "\n" + rest) == [x] + SplitLines(rest)
  {
    var s := x + "\n" + rest;
    assert s == x + ("\n" + rest);
    LineEndAt(x, "\n" + rest);
    assert s[..|x|] == x && s[|x|] == '\n' && s[|x| + 1..] == rest;
    SplitLinesNewline(s, |x|);
  }

  /** A line ended by `\n` is split off on its own. */
  lemma SplitLinesNewline(s: string, k: nat)
    requires k < |s| && LineEnd(s) == k && s[k] == '\n'
    ensures SplitLines(s) == [s[..k]] + SplitLines(s[k + 1..])
  {
  }

  lemma {:induction false} LineEndAt(x: string, y: string)
    requires NoBreak(x) && (y == [] || IsLineBreak(y[0]))
    ensures LineEnd(x + y) == |x|
    decreases |x|
  {
    if x != [] {
      assert (x + y)[1..] == x[1..] + y;
      LineEndAt(x[1..], y);
    } else {
      assert x + y == y;
    }
  }
}
