/**
 * The parts of Python's `str` that the core relies on: ASCII `lower()`,
 * `strip()` with Python's whitespace set, `startswith` and `splitlines()`.
 */
module Text {

  /** Characters for which Python's `str.isspace()` holds (what `strip()` removes). */
  predicate IsSpace(c: char) {
    var n := c as int;
    (0x09 <= n <= 0x0D) || (0x1C <= n <= 0x20) || n == 0x85 || n == 0xA0 || n == 0x1680
    || (0x2000 <= n <= 0x200A) || n == 0x2028 || n == 0x2029 || n == 0x202F || n == 0x205F
    || n == 0x3000
  }

  /** Line boundaries recognised by Python's `str.splitlines()`. */
  predicate IsLineBreak(c: char) {
    var n := c as int;
    (0x0A <= n <= 0x0D) || (0x1C <= n <= 0x1E) || n == 0x85 || n == 0x2028 || n == 0x2029
  }

  predicate IsAsciiUpper(c: char) { 'A' <= c <= 'Z' }
  predicate IsAsciiLower(c: char) { 'a' <= c <= 'z' }
  predicate IsAsciiDigit(c: char) { '0' <= c <= '9' }

  function LowerChar(c: char): char {
    if IsAsciiUpper(c) then (c as int + 32) as char else c
  }

  /** `s.lower()`, restricted to the ASCII letters. */
  function Lower(s: string): (r: string)
    ensures |r| == |s|
    ensures IsLowered(r)
    ensures forall i :: 0 <= i < |s| && !IsAsciiUpper(s[i]) ==> r[i] == s[i]
    ensures forall i :: 0 <= i < |s| && IsAsciiUpper(s[i]) ==> r[i] as int == s[i] as int + 32
  {
    seq(|s|, i requires 0 <= i < |s| => LowerChar(s[i]))
  }

  /** No upper-case ASCII letter occurs in `s`. */
  predicate IsLowered(s: string) {
    forall i :: 0 <= i < |s| ==> !IsAsciiUpper(s[i])
  }

  lemma LowerIsLowered(s: string)
    ensures IsLowered(Lower(s))
    ensures Lower(Lower(s)) == Lower(s)
  {
  }

  /** Lowering leaves strings without upper-case letters alone. */
  lemma LoweredFixed(s: string)
    requires IsLowered(s)
    ensures Lower(s) == s
  {
  }

  function StripLeft(s: string): (r: string)
    ensures |r| <= |s| && r == s[|s| - |r|..]
    ensures r != [] ==> !IsSpace(r[0])
    ensures forall i :: 0 <= i < |s| - |r| ==> IsSpace(s[i])
  {
    if s != [] && IsSpace(s[0]) then StripLeft(s[1..]) else s
  }

  function StripRight(s: string): (r: string)
    ensures |r| <= |s| && r == s[..|r|]
    ensures r != [] ==> !IsSpace(r[|r| - 1])
    ensures forall i :: |r| <= i < |s| ==> IsSpace(s[i])
  {
    if s != [] && IsSpace(s[|s| - 1]) then StripRight(s[..|s| - 1]) else s
  }

  /** A leading whitespace character is dropped by `lstrip()`. */
  lemma StripLeftSpace(c: char, s: string)
    requires IsSpace(c)
    ensures StripLeft([c] + s) == StripLeft(s)
  {
    assert ([c] + s)[1..] == s;
  }

  /** Neither end is whitespace. */
  predicate Stripped(s: string) {
    s == [] || (!IsSpace(s[0]) && !IsSpace(s[|s| - 1]))
  }

  /** `s.strip()`: drops leading and trailing whitespace and nothing else. */
  function Strip(s: string): (r: string)
    ensures |r| <= |s|
    ensures Stripped(r)
  {
    StripRight(StripLeft(s))
  }

  /** What `Strip` removes is whitespace at the two ends: the result is a slice of `s` with only whitespace around it. */
  lemma StripSlice(s: string)
    ensures exists a :: SpaceAround(s, a, Strip(s))
  {
    var l := StripLeft(s);
    SliceAround(s, l, StripRight(l));
    assert SpaceAround(s, |s| - |l|, Strip(s));
  }

  /** Whitespace before a suffix `l` of `s` and after a prefix `r` of `l` surrounds `r` in `s`. */
  lemma SliceAround(s: string, l: string, r: string)
    requires |l| <= |s| && l == s[|s| - |l|..]
    requires forall i :: 0 <= i < |s| - |l| ==> IsSpace(s[i])
    requires |r| <= |l| && r == l[..|r|]
    requires forall i :: |r| <= i < |l| ==> IsSpace(l[i])
    ensures SpaceAround(s, |s| - |l|, r)
  {
    var a := |s| - |l|;
    forall i | a + |r| <= i < |s| ensures IsSpace(s[i]) {
      assert s[i] == l[i - a];
    }
  }

  /** `r` is the slice of `s` starting at `a`, and `s` holds only whitespace around it. */
  predicate SpaceAround(s: string, a: int, r: string) {
    0 <= a && a + |r| <= |s| && r == s[a..a + |r|]
    && (forall i :: 0 <= i < a ==> IsSpace(s[i]))
    && (forall i :: a + |r| <= i < |s| ==> IsSpace(s[i]))
  }

  /** A string whose ends are not whitespace is its own `strip()`. */
  lemma StripFixed(s: string)
    requires Stripped(s)
    ensures Strip(s) == s
  {
  }

  /** `strip()` is idempotent. */
  lemma StripIdempotent(s: string)
    ensures Strip(Strip(s)) == Strip(s)
  {
    StripFixed(Strip(s));
  }

  /** Lower-casing does not touch whitespace, so the result of lowering then stripping is lowered. */
  lemma LowerThenStripLowered(s: string)
    ensures IsLowered(Strip(Lower(s)))
  {
    var x := Lower(s);
    LowerIsLowered(s);
    var l := StripLeft(x);
    assert IsLowered(l) by { SliceLowered(x, |x| - |l|, |x|); }
    SliceLowered(l, 0, |StripRight(l)|);
  }

  lemma SliceLowered(s: string, a: nat, b: nat)
    requires IsLowered(s) && a <= b <= |s|
    ensures IsLowered(s[a..b])
  {
    forall i | 0 <= i < b - a ensures !IsAsciiUpper(s[a..b][i]) {
      assert s[a..b][i] == s[a + i];
    }
  }

  /** `s.startswith(p)`, case-sensitive. */
  predicate StartsWith(s: string, p: string) {
    |p| <= |s| && s[..|p|] == p
  }

  /** Index of the first line boundary in `s`, or `|s|` when there is none. */
  function FirstBreak(s: string): (i: nat)
    ensures i <= |s|
    ensures i < |s| ==> IsLineBreak(s[i])
    ensures forall k :: 0 <= k < i ==> !IsLineBreak(s[k])
  {
    if s == [] || IsLineBreak(s[0]) then 0 else 1 + FirstBreak(s[1..])
  }

  /** Width of the boundary at index `i`: "\r\n" counts as one boundary of two characters. */
  function BreakWidth(s: string, i: nat): nat
    requires i < |s|
  {
    if s[i] == '\r' && i + 1 < |s| && s[i + 1] == '\n' then 2 else 1
  }

  /**
   * `s.splitlines()`: the pieces between line boundaries; a boundary at the
   * very end does not start a further, empty line.
   */
  function SplitLines(s: string): (lines: seq<string>)
    ensures forall j :: 0 <= j < |lines| ==> HasNoBreak(lines[j])
    decreases |s|
  {
    if s == [] then []
    else
      var i := FirstBreak(s);
      if i == |s| then [s]
      else [s[..i]] + SplitLines(s[i + BreakWidth(s, i)..])
  }

  predicate HasNoBreak(line: string) {
    forall k :: 0 <= k < |line| ==> !IsLineBreak(line[k])
  }

  /** Each line followed by "\r\n". */
  function Terminated(lines: seq<string>): string {
    if lines == [] then [] else lines[0] + "\r\n" + Terminated(lines[1..])
  }

  /** `splitlines()` undoes CRLF-terminating each of a list of break-free lines, whatever follows. */
  lemma {:induction false} SplitTerminated(lines: seq<string>, rest: string)
    requires forall j :: 0 <= j < |lines| ==> HasNoBreak(lines[j])
    ensures SplitLines(Terminated(lines) + rest) == lines + SplitLines(rest)
    decreases |lines|
  {
    if lines != [] {
      var l := lines[0];
      var tail := Terminated(lines[1..]) + rest;
      assert Terminated(lines) + rest == l + ("\r\n" + tail);
      SplitAfterLine(l, tail);
      SplitTerminated(lines[1..], rest);
      ConsAppend(lines, SplitLines(rest));
    } else {
      assert Terminated(lines) + rest == rest;
    }
  }

  lemma ConsAppend<T>(xs: seq<T>, ys: seq<T>)
    requires xs != []
    ensures [xs[0]] + (xs[1..] + ys) == xs + ys
  {
    assert xs == [xs[0]] + xs[1..];
  }

  /** One break-free line followed by "\r\n" is split off as a line of its own. */
  lemma SplitAfterLine(l: string, tail: string)
    requires HasNoBreak(l)
    ensures SplitLines(l + ("\r\n" + tail)) == [l] + SplitLines(tail)
  {
    var s := l + ("\r\n" + tail);
    assert s[|l|] == '\r' && s[|l| + 1] == '\n';
    FirstBreakAt(s, l);
    assert BreakWidth(s, |l|) == 2;
    assert s[..|l|] == l;
    assert s[|l| + 2..] == tail;
  }

  lemma FirstBreakAt(s: string, l: string)
    requires HasNoBreak(l) && |l| < |s| && s[..|l|] == l && IsLineBreak(s[|l|])
    ensures FirstBreak(s) == |l|
  {
  }
}
