/** The regular expression of frontend/src/components/ConfigEditor/ConfigEditor.tsx:
    export\s+(\w+)\s*=\s*(.+), as a matcher. */
module ConfigPattern {
  import opened Wrappers
  import opened JsText
  import opened MultiLine

  const EXPORT := "export"

  /** \w */
  predicate IsWord(c: char) {
    'a' <= c <= 'z' || 'A' <= c <= 'Z' || '0' <= c <= '9' || c == '_'
  }

  function SkipSpace(s: string, i: nat): (j: nat)
    requires i <= |s|
    ensures i <= j <= |s|
    ensures forall k :: i <= k < j ==> IsJsSpace(s[k])
    ensures j < |s| ==> !IsJsSpace(s[j])
    decreases |s| - i
  {
    if i < |s| && IsJsSpace(s[i]) then SkipSpace(s, i + 1) else i
  }

  function SkipWord(s: string, i: nat): (j: nat)
    requires i <= |s|
    ensures i <= j <= |s|
    ensures forall k :: i <= k < j ==> IsWord(s[k])
    ensures j < |s| ==> !IsWord(s[j])
    decreases |s| - i
  {
    if i < |s| && IsWord(s[i]) then SkipWord(s, i + 1) else i
  }

  /** The end of the run that `.+` takes from `i`. */
  function SkipRest(s: string, i: nat): (j: nat)
    requires i <= |s|
    ensures i <= j <= |s|
    ensures forall k :: i <= k < j ==> !IsEol(s[k])
    ensures j < |s| ==> IsEol(s[j])
    decreases |s| - i
  {
    if i < |s| && !IsEol(s[i]) then SkipRest(s, i + 1) else i
  }

  /** Where `\s*` must end, giving characters back, for `.+` to match when only
      white space follows: the last character at or after `i` that `.` matches. */
  function GiveBack(s: string, i: nat, j: nat): (q: Option<nat>)
    requires i <= j <= |s|
    ensures q.Some? ==> i <= q.value < j && !IsEol(s[q.value])
    decreases j
  {
    if j == i then None else if !IsEol(s[j - 1]) then Some(j - 1) else GiveBack(s, i, j - 1)
  }

  /** Where \s*(.+) starts its value: after all the white space if anything
      follows it, and otherwise as late as `.` allows. */
  function ValueStart(s: string, from: nat): (q: Option<nat>)
    requires from <= |s|
    ensures q.Some? ==> from <= q.value < |s| && !IsEol(s[q.value])
  {
    var v := SkipSpace(s, from);
    if v == |s| then GiveBack(s, from, |s|) else
    NonSpaceIsNotEol(s[v]);
    Some(v)
  }

  /** Where the key, the `=` and the value of a match are. */
  datatype Found = Found(keyStart: nat, keyEnd: nat, eq: nat, valStart: nat, valEnd: nat)

  /** Where the key starts and ends, and the `=` after it. */
  datatype Lead = Lead(keyStart: nat, keyEnd: nat, eq: nat)

  /** The pattern up to its `=`. */
  function LeadOf(s: string): (l: Option<Lead>)
    ensures l.Some? ==> |EXPORT| < l.value.keyStart < l.value.keyEnd <= l.value.eq < |s|
  {
    if |s| < |EXPORT| || s[..|EXPORT|] != EXPORT then None
    else
      var b := SkipSpace(s, |EXPORT|);
      var c := SkipWord(s, b);
      var d := SkipSpace(s, c);
      if b == |EXPORT| || c == b || d == |s| || s[d] != '=' then None else Some(Lead(b, c, d))
  }

  /** The pattern export\s+(\w+)\s*=\s*(.+) at the start of `s`. Only the last
      \s* can usefully give characters back. */
  function Match(s: string): (m: Option<Found>)
    ensures m.Some? ==> m.value.keyStart < m.value.keyEnd <= m.value.eq < m.value.valStart < m.value.valEnd <= |s|
  {
    match LeadOf(s)
    case None => None
    case Some(l) =>
      match ValueStart(s, l.eq + 1)
      case None => None
      case Some(q) => Some(Found(l.keyStart, l.keyEnd, l.eq, q, SkipRest(s, q)))
  }

  /** The groups of the pattern at these positions, `*` and `+` taking any number
      of the characters they may. */
  ghost predicate Splits(s: string, m: Found) {
    && |EXPORT| < m.keyStart < m.keyEnd <= m.eq < m.valStart < m.valEnd <= |s|
    && s[..|EXPORT|] == EXPORT && s[m.eq] == '='
    && (forall k :: |EXPORT| <= k < m.keyStart || m.keyEnd <= k < m.eq || m.eq < k < m.valStart ==> IsJsSpace(s[k]))
    && (forall k :: m.keyStart <= k < m.keyEnd ==> IsWord(s[k]))
    && (forall k :: m.valStart <= k < m.valEnd ==> !IsEol(s[k]))
  }

  lemma {:induction false} GiveBackIsLast(s: string, i: nat, j: nat, k: nat)
    requires i <= k < j <= |s| && !IsEol(s[k])
    ensures GiveBack(s, i, j).Some? && GiveBack(s, i, j).value >= k
    decreases j
  {
    if IsEol(s[j - 1]) { GiveBackIsLast(s, i, j - 1, k); }
  }

  /** Any way to read the pattern finds the same key and `=`. */
  lemma SplitsAgree(s: string, m: Found)
    requires Splits(s, m)
    ensures Shape(s, m.keyStart, m.keyEnd, m.eq)
  {
    assert IsWord(s[m.keyStart]) && !IsWord('=') && !IsJsSpace('=');
    assert m.keyEnd < m.eq ==> IsJsSpace(s[m.keyEnd]);
    SpaceStops(s, |EXPORT|, m.keyStart);
    WordStops(s, m.keyStart, m.keyEnd);
    SpaceStops(s, m.keyEnd, m.eq);
  }

  lemma MatchSplits(s: string)
    requires Match(s).Some?
    ensures Splits(s, Match(s).value)
  {
  }

  lemma ValueStartsLast(s: string, from: nat, k: nat)
    requires from <= k < |s| && !IsEol(s[k]) && forall j :: from <= j < k ==> IsJsSpace(s[j])
    ensures ValueStart(s, from).Some? && k <= ValueStart(s, from).value
  {
    if SkipSpace(s, from) == |s| { GiveBackIsLast(s, from, |s|, k); }
  }

  lemma SplitsValue(s: string, m: Found)
    requires Splits(s, m)
    ensures ValueStart(s, m.eq + 1).Some? && m.valStart <= ValueStart(s, m.eq + 1).value
  {
    ValueStartsLast(s, m.eq + 1, m.valStart);
  }

  /** The match once the key and `=` are known. */
  lemma MatchFrom(s: string, m: Found)
    requires Splits(s, m)
    ensures Match(s).Some? && var g := Match(s).value;
      g.keyStart == m.keyStart && g.keyEnd == m.keyEnd && g.eq == m.eq && m.valStart <= g.valStart
  {
    SplitsAgree(s, m);
    SplitsValue(s, m);
    ShapeMatches(s, m.keyStart, m.keyEnd, m.eq);
  }

  lemma LaterStartLaterEnd(s: string, m: Found, g: Found)
    requires Splits(s, m) && Splits(s, g) && m.valStart <= g.valStart && (g.valEnd < |s| ==> IsEol(s[g.valEnd]))
    ensures m.valEnd <= g.valEnd
  {
  }

  lemma ValueEndsAtEol(s: string)
    requires Match(s).Some?
    ensures var g := Match(s).value; g.valEnd < |s| ==> IsEol(s[g.valEnd])
  {
  }

  /** `Match` finds a match whenever there is one, and the greedy one: no other
      reading of the pattern begins or ends its value later. */
  lemma MatchIsGreedy(s: string)
    ensures Match(s).Some? <==> exists m :: Splits(s, m)
    ensures Match(s).Some? ==> forall m | Splits(s, m) :: var g := Match(s).value;
      g.keyStart == m.keyStart && g.keyEnd == m.keyEnd && g.eq == m.eq && m.valStart <= g.valStart && m.valEnd <= g.valEnd
  {
    if Match(s).Some? { MatchSplits(s); ValueEndsAtEol(s); }
    forall m | Splits(s, m)
      ensures Match(s).Some? && var g := Match(s).value;
        g.keyStart == m.keyStart && g.keyEnd == m.keyEnd && g.eq == m.eq && m.valStart <= g.valStart && m.valEnd <= g.valEnd
    {
      MatchFrom(s, m);
      LaterStartLaterEnd(s, m, Match(s).value);
    }
  }

  function Key(s: string): string
    requires Match(s).Some?
  {
    s[Match(s).value.keyStart..Match(s).value.keyEnd]
  }

  lemma NonSpaceIsNotEol(c: char)
    ensures !IsJsSpace(c) ==> !IsEol(c)
  {
  }

  predicate IsKey(key: string) { key != "" && forall c <- key :: IsWord(c) }

  predicate Defines(s: string, key: string) {
    Match(s).Some? && Key(s) == key
  }

  /** The pattern with a word key spelled out matches exactly the texts whose
      match has that key. */
  lemma SpelledOutKey(s: string, key: string)
    requires IsKey(key)
    ensures Defines(s, key) <==> exists m :: Splits(s, m) && s[m.keyStart..m.keyEnd] == key
  {
    MatchIsGreedy(s);
    if Defines(s, key) { assert Splits(s, Match(s).value); }
  }

  // ----- a match looks no further than its value -----

  lemma SkipSpaceLocal(a: string, tail: string, i: nat)
    requires i <= |a| && SkipSpace(a, i) < |a|
    ensures SkipSpace(a + tail, i) == SkipSpace(a, i)
    decreases |a| - i
  {
    if IsJsSpace(a[i]) { SkipSpaceLocal(a, tail, i + 1); }
  }

  lemma SkipWordLocal(a: string, tail: string, i: nat)
    requires i <= |a| && SkipWord(a, i) < |a|
    ensures SkipWord(a + tail, i) == SkipWord(a, i)
    decreases |a| - i
  {
    if IsWord(a[i]) { SkipWordLocal(a, tail, i + 1); }
  }

  lemma SkipRestLocal(a: string, tail: string, i: nat)
    requires i <= |a| && (tail == "" || IsEol(tail[0]))
    ensures SkipRest(a + tail, i) == SkipRest(a, i)
    decreases |a| - i
  {
    if i < |a| && !IsEol(a[i]) { SkipRestLocal(a, tail, i + 1); }
  }

  /** The pieces of `s` up to the `=`. */
  ghost predicate Shape(s: string, b: nat, c: nat, d: nat) {
    && |EXPORT| < b < c <= d < |s| && s[..|EXPORT|] == EXPORT
    && b == SkipSpace(s, |EXPORT|) && c == SkipWord(s, b) && d == SkipSpace(s, c) && s[d] == '='
  }

  lemma ShapeIsLead(s: string, b: nat, c: nat, d: nat)
    requires Shape(s, b, c, d)
    ensures LeadOf(s) == Some(Lead(b, c, d))
  {
  }

  lemma MatchHasShape(s: string)
    requires Match(s).Some?
    ensures Shape(s, Match(s).value.keyStart, Match(s).value.keyEnd, Match(s).value.eq)
  {
  }

  lemma ShapeMatches(s: string, b: nat, c: nat, d: nat)
    requires Shape(s, b, c, d) && ValueStart(s, d + 1).Some?
    ensures var q := ValueStart(s, d + 1).value; Match(s) == Some(Found(b, c, d, q, SkipRest(s, q)))
  {
    ShapeIsLead(s, b, c, d);
  }

  lemma SpaceStops(s: string, i: nat, j: nat)
    requires i <= j < |s| && (forall k :: i <= k < j ==> IsJsSpace(s[k])) && !IsJsSpace(s[j])
    ensures SkipSpace(s, i) == j
  {
  }

  lemma WordStops(s: string, i: nat, j: nat)
    requires i <= j < |s| && (forall k :: i <= k < j ==> IsWord(s[k])) && !IsWord(s[j])
    ensures SkipWord(s, i) == j
  {
  }

  /** A shape depends only on the text up to its `=`. */
  lemma ShapeIsLocal(s: string, t: string, b: nat, c: nat, d: nat)
    requires Shape(s, b, c, d) && d < |t| && s[..d + 1] == t[..d + 1]
    ensures Shape(t, b, c, d) && s[b..c] == t[b..c]
  {
    assert forall k :: 0 <= k <= d ==> s[k] == s[..d + 1][k] == t[k];
    assert !IsJsSpace('=') && !IsWord('=');
    SpaceStops(t, |EXPORT|, b);
    WordStops(t, b, c);
    SpaceStops(t, c, d);
  }

  /** With that shape, where the value starts and ends decides the match. */
  lemma MatchFromShape(t: string, m: Found)
    requires Shape(t, m.keyStart, m.keyEnd, m.eq)
    requires SkipSpace(t, m.eq + 1) == m.valStart < |t| && SkipRest(t, m.valStart) == m.valEnd
    ensures Match(t) == Some(m) && Key(t) == t[m.keyStart..m.keyEnd]
  {
    ShapeMatches(t, m.keyStart, m.keyEnd, m.eq);
  }

  lemma RestStops(s: string, i: nat, j: nat)
    requires i <= j <= |s| && (forall k :: i <= k < j ==> !IsEol(s[k])) && (j < |s| ==> IsEol(s[j]))
    ensures SkipRest(s, i) == j
  {
  }
}
