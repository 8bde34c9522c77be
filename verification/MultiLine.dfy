/** Searching a text with a multi-line pattern: `^` matches at the start and after a
    line terminator. */
module MultiLine {
  import opened Wrappers
  import opened Text

  /** A line terminator: `.` does not match it, and with the m flag `^` matches
      after it. */
  predicate IsEol(c: char) {
    c in ['\n', '\r', '\U{2028}', '\U{2029}']
  }

  /** The leftmost place where `^` matches and `at` holds; `atStart` says whether
      `^` matches before `s`. */
  function Locate(s: string, atStart: bool, at: string -> bool): (p: Option<nat>)
    ensures p.Some? ==> p.value <= |s|
  {
    if atStart && at(s) then Some(0)
    else if s == "" then None
    else match Locate(s[1..], IsEol(s[0]), at)
      case None => None
      case Some(p) => Some(p + 1)
  }

  lemma {:induction false} LocateHolds(s: string, atStart: bool, at: string -> bool)
    ensures var p := Locate(s, atStart, at); p.Some? ==> at(s[p.value..])
  {
    var p := Locate(s, atStart, at);
    assert s[0..] == s;
    if p.Some? && !(atStart && at(s)) {
      LocateHolds(s[1..], IsEol(s[0]), at);
      assert s[1..][p.value - 1..] == s[p.value..];
    }
  }

  function Shift(n: nat, p: Option<nat>): Option<nat> {
    if p.None? then None else Some(n + p.value)
  }

  lemma ShiftTwice(m: nat, n: nat, p: Option<nat>)
    ensures Shift(m, Shift(n, p)) == Shift(m + n, p)
  {
  }

  lemma LocateHere(s: string, at: string -> bool)
    requires at(s)
    ensures Locate(s, true, at) == Some(0)
  {
  }

  /** Nothing in `pre` is found when `x` follows it. */
  predicate Quiet(pre: string, atStart: bool, x: string, at: string -> bool) {
    pre == "" || ((atStart ==> !at(pre + x)) && Quiet(pre[1..], IsEol(pre[0]), x, at))
  }

  /** Does `^` match after `pre`? */
  predicate AtLine(pre: string, atStart: bool) {
    if pre == "" then atStart else IsEol(pre[|pre| - 1])
  }

  lemma LocateNext(c: char, s: string, atStart: bool, at: string -> bool)
    requires atStart ==> !at([c] + s)
    ensures Locate([c] + s, atStart, at) == Shift(1, Locate(s, IsEol(c), at))
  {
    assert ([c] + s)[1..] == s;
  }

  lemma FirstChar(l: string, s: string)
    requires l != ""
    ensures l + s == [l[0]] + (l[1..] + s)
  {
  }

  /** The search passes over a quiet text. */
  lemma {:induction false} SkipQuiet(pre: string, atStart: bool, x: string, at: string -> bool)
    requires Quiet(pre, atStart, x, at)
    ensures Locate(pre + x, atStart, at) == Shift(|pre|, Locate(x, AtLine(pre, atStart), at))
    decreases |pre|
  {
    if pre == "" {
      assert pre + x == x;
    } else {
      FirstChar(pre, x);
      LocateNext(pre[0], pre[1..] + x, atStart, at);
      SkipQuiet(pre[1..], IsEol(pre[0]), x, at);
      ShiftTwice(1, |pre| - 1, Locate(x, AtLine(pre, atStart), at));
    }
  }

  lemma {:induction false} QuietAppend(a: string, b: string, atStart: bool, x: string, at: string -> bool)
    requires Quiet(a, atStart, b + x, at) && Quiet(b, AtLine(a, atStart), x, at)
    ensures Quiet(a + b, atStart, x, at) && AtLine(a + b, atStart) == AtLine(b, AtLine(a, atStart))
    decreases |a|
  {
    if a == "" {
      assert a + b == b;
    } else {
      QuietAppend(a[1..], b, IsEol(a[0]), x, at);
      FirstChar(a, b);
      assert (a + b)[1..] == a[1..] + b && (a + b)[0] == a[0];
      Assoc(a, b, x);
    }
  }
}
