/** Definitions with a blank value, which the parameter form makes whenever a field
    is cleared: the search for the value runs on past the end of the line. */
module ConfigBlank {
  import opened Wrappers
  import opened Text
  import opened JsText
  import opened MultiLine
  import opened ConfigPattern
  import opened Replacement
  import opened ConfigMk

  /** A line that starts to define the key, its `=` at `lead`. */
  ghost predicate Leads(line: string, key: string, lead: Lead) {
    Shape(line, lead.keyStart, lead.keyEnd, lead.eq) && line[lead.keyStart..lead.keyEnd] == key
  }

  /** A line that defines the key with nothing visible after its `=`. */
  ghost predicate BlankDefinition(line: string, key: string, lead: Lead) {
    && Leads(line, key, lead)
    && (forall k :: lead.eq < k < |line| ==> IsJsSpace(line[k]))
    && forall c <- line :: !IsEol(c)
  }

  /** Something that `.` matches comes on a later line. */
  predicate Later(tail: string) { exists k :: 0 <= k < |tail| && !IsEol(tail[k]) }

  // ----- where the value is found -----

  lemma {:induction false} SkipsTo(s: string, i: nat, j: nat)
    requires i <= j <= |s| && forall k :: i <= k < j ==> IsJsSpace(s[k])
    ensures SkipSpace(s, i) >= j
    decreases j - i
  {
    if i < j { SkipsTo(s, i + 1, j); }
  }

  lemma {:induction false} GiveBackNothing(s: string, i: nat, j: nat)
    requires i <= j <= |s| && forall k :: i <= k < j ==> IsEol(s[k])
    ensures GiveBack(s, i, j).None?
    decreases j
  {
    if i < j { GiveBackNothing(s, i, j - 1); }
  }

  lemma {:induction false} GiveBackPastEols(s: string, i: nat, k: nat, j: nat)
    requires i <= k < j <= |s| && !IsEol(s[k]) && forall n :: k < n < j ==> IsEol(s[n])
    ensures GiveBack(s, i, j) == Some(k)
    decreases j
  {
    if k < j - 1 { GiveBackPastEols(s, i, k, j - 1); }
  }

  lemma EolIsSpace(c: char)
    ensures IsEol(c) ==> IsJsSpace(c)
  {
  }

  /** A later line has something to match: the value is found there. */
  lemma FoundLater(line: string, tail: string, from: nat)
    requires from <= |line| && (forall k :: from <= k < |line| ==> IsJsSpace(line[k])) && Later(tail)
    ensures ValueStart(line + tail, from).Some? && ValueStart(line + tail, from).value >= |line|
  {
    var t := line + tail;
    var k :| 0 <= k < |tail| && !IsEol(tail[k]);
    assert t[|line| + k] == tail[k];
    SkipsTo(t, from, |line|);
    if SkipSpace(t, from) == |t| { GiveBackIsLast(t, from, |t|, |line| + k); }
  }

  /** Nothing later, but white space after the `=`: its last character is taken. */
  lemma FoundInGap(line: string, tail: string, from: nat)
    requires from < |line| && (forall k :: from <= k < |line| ==> IsJsSpace(line[k]))
    requires !IsEol(line[|line| - 1]) && !Later(tail)
    ensures ValueStart(line + tail, from) == Some(|line| - 1)
  {
    var t := line + tail;
    AllSpace(line, tail, from);
    GiveBackPastEols(t, from, |line| - 1, |t|);
  }

  /** Nothing later and nothing after the `=`: no value is found. */
  lemma FoundNowhere(line: string, tail: string)
    requires !Later(tail)
    ensures ValueStart(line + tail, |line|).None?
  {
    var t := line + tail;
    AllSpace(line, tail, |line|);
    assert forall k :: |line| <= k < |t| ==> t[k] == tail[k - |line|];
    GiveBackNothing(t, |line|, |t|);
  }

  lemma AllSpace(line: string, tail: string, from: nat)
    requires from <= |line| && (forall k :: from <= k < |line| ==> IsJsSpace(line[k])) && !Later(tail)
    ensures SkipSpace(line + tail, from) == |line + tail|
    ensures forall k :: |line| <= k < |line + tail| ==> IsEol((line + tail)[k])
  {
    var t := line + tail;
    forall k | |line| <= k < |t| ensures IsEol(t[k]) && IsJsSpace(t[k]) {
      assert t[k] == tail[k - |line|];
      EolIsSpace(t[k]);
    }
    SkipsTo(t, from, |t|);
  }

  // ----- what a change does -----

  lemma BlankShape(line: string, tail: string, key: string, lead: Lead)
    requires Leads(line, key, lead)
    ensures Shape(line + tail, lead.keyStart, lead.keyEnd, lead.eq)
    ensures (line + tail)[lead.keyStart..lead.keyEnd] == key
  {
    assert (line + tail)[..lead.eq + 1] == line[..lead.eq + 1];
    ShapeIsLocal(line, line + tail, lead.keyStart, lead.keyEnd, lead.eq);
  }

  /** With a value found at `q`, it reaches to the next line end. */
  lemma BlankMatches(line: string, tail: string, key: string, lead: Lead, q: nat, e: nat)
    requires Leads(line, key, lead)
    requires ValueStart(line + tail, lead.eq + 1) == Some(q) && SkipRest(line + tail, q) == e
    ensures Match(line + tail) == Some(Found(lead.keyStart, lead.keyEnd, lead.eq, q, e)) && Defines(line + tail, key)
  {
    BlankShape(line, tail, key, lead);
    MatchesAt(line + tail, key, Found(lead.keyStart, lead.keyEnd, lead.eq, q, e));
  }

  lemma MatchesAt(t: string, key: string, m: Found)
    requires Shape(t, m.keyStart, m.keyEnd, m.eq) && t[m.keyStart..m.keyEnd] == key
    requires ValueStart(t, m.eq + 1) == Some(m.valStart) && SkipRest(t, m.valStart) == m.valEnd
    ensures Match(t) == Some(m) && Defines(t, key)
  {
    ShapeMatches(t, m.keyStart, m.keyEnd, m.eq);
  }

  lemma NoValueNoMatch(line: string, tail: string, key: string, lead: Lead)
    requires BlankDefinition(line, key, lead) && ValueStart(line + tail, lead.eq + 1).None?
    ensures Match(line + tail).None?
  {
    BlankShape(line, tail, key, lead);
    LeadWithoutValue(line + tail, lead);
  }

  lemma LeadWithoutValue(t: string, lead: Lead)
    requires Shape(t, lead.keyStart, lead.keyEnd, lead.eq) && ValueStart(t, lead.eq + 1).None?
    ensures Match(t).None?
  {
    ShapeIsLead(t, lead.keyStart, lead.keyEnd, lead.eq);
  }

  lemma {:induction false} EolsHaveNoHeads(tail: string, atStart: bool)
    requires !Later(tail)
    ensures NoHeads(tail, atStart)
    decreases |tail|
  {
    if tail != "" {
      assert IsEol(tail[0]) && !IsEol(EXPORT[0]);
      assert |tail| >= |EXPORT| ==> tail[..|EXPORT|][0] == tail[0];
      assert forall k :: 0 <= k < |tail[1..]| ==> tail[1..][k] == tail[k + 1];
      EolsHaveNoHeads(tail[1..], IsEol(tail[0]));
    }
  }

  /** A blank definition that does not match ends the search. */
  lemma BlankIsQuiet(line: string, tail: string, key: string, lead: Lead)
    requires BlankDefinition(line, key, lead) && !Later(tail) && Match(line + tail).None?
    ensures Quiet(line + tail, true, "", Defining(key))
  {
    var t := line + tail;
    assert t[0] == EXPORT[0] by { assert line[..|EXPORT|][0] == EXPORT[0]; }
    assert t[1..] == line[1..] + tail && t + "" == t;
    NothingBegins(line[1..], tail);
    EolsHaveNoHeads(tail, false);
    NoHeadsQuiet(t[1..], false, "", key);
  }

  /** The line the search would overwrite. */
  ghost predicate Spans(tail: string, q: nat, e: nat) {
    && q < e <= |tail| && (forall k :: q <= k < e ==> !IsEol(tail[k])) && (e < |tail| ==> IsEol(tail[e]))
  }

  lemma CutLater(line: string, tail: string, q: nat, e: nat, v: string)
    requires q <= e <= |tail|
    ensures (line + tail)[..|line| + q] + v + (line + tail)[|line| + e..] == line + (tail[..q] + v + tail[e..])
  {
    assert (line + tail)[..|line| + q] == line + tail[..q] && (line + tail)[|line| + e..] == tail[e..];
    Assoc(line, tail[..q], v);
    Assoc(line, tail[..q] + v, tail[e..]);
  }

  lemma SpansTheRest(line: string, tail: string, q: nat)
    requires q < |tail| && !IsEol(tail[q])
    ensures var e := SkipRest(line + tail, |line| + q) - |line|; q < e <= |tail| && Spans(tail, q, e)
  {
    var t := line + tail;
    var e := SkipRest(t, |line| + q) - |line|;
    assert t[|line| + q] == tail[q];
    assert forall k :: 0 <= k < |tail| ==> tail[k] == t[|line| + k];
  }

  lemma SpanLater(line: string, tail: string, from: nat) returns (q: nat, e: nat)
    requires from <= |line| && (forall k :: from <= k < |line| ==> IsJsSpace(line[k])) && Later(tail)
    ensures ValueStart(line + tail, from) == Some(|line| + q) && SkipRest(line + tail, |line| + q) == |line| + e
    ensures Spans(tail, q, e)
  {
    var t := line + tail;
    FoundLater(line, tail, from);
    q := ValueStart(t, from).value - |line|;
    assert t[|line| + q] == tail[q];
    SpansTheRest(line, tail, q);
    e := SkipRest(t, |line| + q) - |line|;
  }

  lemma MatchAtSpan(line: string, tail: string, key: string, lead: Lead, q: nat, e: nat)
    requires Leads(line, key, lead)
    requires ValueStart(line + tail, lead.eq + 1) == Some(|line| + q) && SkipRest(line + tail, |line| + q) == |line| + e
    ensures Defines(line + tail, key)
    ensures Match(line + tail).value.valStart == |line| + q && Match(line + tail).value.valEnd == |line| + e
  {
    BlankMatches(line, tail, key, lead, |line| + q, |line| + e);
  }

  /** What is found at a blank definition with something later. */
  lemma MatchLater(line: string, tail: string, key: string, lead: Lead) returns (q: nat, e: nat)
    requires BlankDefinition(line, key, lead) && Later(tail)
    ensures Spans(tail, q, e) && Defines(line + tail, key)
    ensures Match(line + tail).value.valStart == |line| + q && Match(line + tail).value.valEnd == |line| + e
  {
    q, e := SpanLater(line, tail, lead.eq + 1);
    MatchAtSpan(line, tail, key, lead, q, e);
  }

  /** A change at a blank definition with something later: part of a later line is
      overwritten, and the definition stays blank. */
  lemma ChangeLater(line: string, tail: string, key: string, lead: Lead, v: string) returns (q: nat, e: nat)
    requires BlankDefinition(line, key, lead) && Later(tail)
    ensures Spans(tail, q, e) && Defines(line + tail, key)
    ensures Match(line + tail).value.valStart == |line| + q && Match(line + tail).value.valEnd == |line| + e
    ensures SetValue(line + tail, v) == line + (tail[..q] + v + tail[e..])
  {
    q, e := MatchLater(line, tail, key, lead);
    SetLater(line, tail, Match(line + tail).value, q, e, v);
  }

  lemma SetLater(line: string, tail: string, m: Found, q: nat, e: nat, v: string)
    requires Match(line + tail) == Some(m) && m.valStart == |line| + q && m.valEnd == |line| + e && q <= e <= |tail|
    ensures SetValue(line + tail, v) == line + (tail[..q] + v + tail[e..])
  {
    SetValueAt(line + tail, m, v);
    CutLater(line, tail, q, e, v);
  }

  lemma RestIsOneChar(line: string, tail: string)
    requires line != "" && !IsEol(line[|line| - 1]) && !Later(tail)
    ensures SkipRest(line + tail, |line| - 1) == |line|
    ensures (line + tail)[..|line| - 1] == line[..|line| - 1] && (line + tail)[|line|..] == tail
  {
    var t, n := line + tail, |line|;
    assert t[n - 1] == line[n - 1] && (n < |t| ==> t[n] == tail[0]);
    RestStops(t, n - 1, n);
  }

  lemma GapMatches(line: string, tail: string, key: string, lead: Lead)
    requires BlankDefinition(line, key, lead) && !Later(tail) && lead.eq + 1 < |line|
    ensures Match(line + tail) == Some(Found(lead.keyStart, lead.keyEnd, lead.eq, |line| - 1, |line|))
    ensures Defines(line + tail, key)
  {
    assert line[|line| - 1] in line;
    FoundInGap(line, tail, lead.eq + 1);
    RestIsOneChar(line, tail);
    BlankMatches(line, tail, key, lead, |line| - 1, |line|);
  }

  /** With nothing later but white space after the `=`, the value goes where it
      belongs. */
  lemma ChangeInGap(line: string, tail: string, key: string, lead: Lead, v: string)
    requires BlankDefinition(line, key, lead) && !Later(tail) && lead.eq + 1 < |line|
    ensures Defines(line + tail, key) && SetValue(line + tail, v) == line[..|line| - 1] + v + tail
  {
    GapMatches(line, tail, key, lead);
    SetValueAt(line + tail, Match(line + tail).value, v);
    assert line[|line| - 1] in line;
    RestIsOneChar(line, tail);
  }

  // ----- the whole text -----

  /** The later lines are as before: only the definition's own line changed, or a
      new line was appended. */
  ghost predicate LaterLinesKept(before: string, line: string, tail: string, key: string, v: string, r: string) {
    || (exists l: string :: (forall c <- l :: !IsEol(c)) && r == before + (l + tail))
    || r == before + (line + tail) + "\n" + NewLine(key, v)
  }

  /** What a change overwrites: the matched value. */
  function Overwritten(t: string): string
    requires Match(t).Some?
  {
    t[Match(t).value.valStart..Match(t).value.valEnd]
  }

  lemma ChangeLaterLine(before: seq<string>, line: string, tail: string, key: string, lead: Lead, v: string)
    requires AllOk(before) && Count(before, key) == 0 && BlankDefinition(line, key, lead) && Plain(v)
    requires (tail == "" || IsEol(tail[0])) && Later(tail)
    ensures var b, t := Terminated(before), line + tail; Match(t).Some? && Apply(b + t, key, v) == b + SetValue(t, v)
  {
    LinesAreQuiet(before, line + tail, key);
    PlainIsPut(Terminated(before) + (line + tail), key, v);
    var q, e := ChangeLater(line, tail, key, lead, v);
    PutAt(Terminated(before), line + tail, key, v);
  }

  lemma ChangeOwnLine(before: seq<string>, line: string, tail: string, key: string, lead: Lead, v: string)
    requires AllOk(before) && Count(before, key) == 0 && BlankDefinition(line, key, lead) && Plain(v)
    requires (tail == "" || IsEol(tail[0])) && !Later(tail) && lead.eq + 1 < |line|
    ensures Apply(Terminated(before) + (line + tail), key, v) == Terminated(before) + (line[..|line| - 1] + v + tail)
  {
    LinesAreQuiet(before, line + tail, key);
    PlainIsPut(Terminated(before) + (line + tail), key, v);
    ChangeInGap(line, tail, key, lead, v);
    PutAt(Terminated(before), line + tail, key, v);
  }

  lemma ChangeAppends(before: seq<string>, line: string, tail: string, key: string, lead: Lead, v: string)
    requires AllOk(before) && Count(before, key) == 0 && BlankDefinition(line, key, lead) && Plain(v)
    requires (tail == "" || IsEol(tail[0])) && !Later(tail) && lead.eq + 1 == |line|
    ensures var c := Terminated(before) + (line + tail); Apply(c, key, v) == c + "\n" + NewLine(key, v)
  {
    var b, t := Terminated(before), line + tail;
    LinesAreQuiet(before, t, key);
    PlainIsPut(b + t, key, v);
    FoundNowhere(line, tail);
    NoValueNoMatch(line, tail, key, lead);
    BlankIsQuiet(line, tail, key, lead);
    assert t + "" == t;
    QuietAppend(b, t, true, "", Defining(key));
    PutAtEnd(b + t, key, v);
  }

  /** A change at the first definition of a key, when that is blank. */
  lemma ChangeBlank(before: seq<string>, line: string, tail: string, key: string, lead: Lead, v: string)
    requires AllOk(before) && Count(before, key) == 0 && BlankDefinition(line, key, lead) && Plain(v)
    requires tail == "" || IsEol(tail[0])
    ensures var b, r := Terminated(before), Apply(Terminated(before) + (line + tail), key, v);
      && (Later(tail) ==> Match(line + tail).Some? && r == b + SetValue(line + tail, v))
      && (!Later(tail) && lead.eq + 1 < |line| ==> r == b + (line[..|line| - 1] + v + tail))
      && (!Later(tail) && lead.eq + 1 == |line| ==> r == b + (line + tail) + "\n" + NewLine(key, v))
  {
    if Later(tail) {
      ChangeLaterLine(before, line, tail, key, lead, v);
    } else if lead.eq + 1 < |line| {
      ChangeOwnLine(before, line, tail, key, lead, v);
    } else {
      ChangeAppends(before, line, tail, key, lead, v);
    }
  }

  lemma PlainIsPut(content: string, key: string, v: string)
    requires Plain(v)
    ensures Apply(content, key, v) == Put(content, key, v)
  {
    ApplyIsPut(content, key, v);
    LocateDefines(content, true, key);
    if p: nat :| Locate(content, true, Defining(key)) == Some(p) { PlainIsLiteral(v, GroupsAt(content, p)); }
  }

  /** Only the definition's own line changed. */
  lemma KeptByLine(before: string, line: string, tail: string, key: string, v: string, l: string)
    requires forall c <- l :: !IsEol(c)
    ensures LaterLinesKept(before, line, tail, key, v, before + (l + tail))
  {
  }

  lemma KeptIffSame(before: string, line: string, tail: string, key: string, v: string, q: nat, e: nat)
    requires (forall c <- line :: !IsEol(c)) && tail != "" && IsEol(tail[0]) && Spans(tail, q, e)
    ensures LaterLinesKept(before, line, tail, key, v, before + (line + (tail[..q] + v + tail[e..]))) <==> tail[q..e] == v
  {
    if tail[q..e] == v {
      assert tail[..q] + v + tail[e..] == tail;
      KeptByLine(before, line, tail, key, v, line);
    }
    if LaterLinesKept(before, line, tail, key, v, before + (line + (tail[..q] + v + tail[e..]))) {
      KeptMeansSame(before, line, tail, key, v, q, e);
    }
  }

  /** A change at a blank definition keeps the later lines exactly when nothing
      that `.` matches is on them, or the text it overwrites there is the value. */
  lemma BlankKeepsLaterIff(before: seq<string>, line: string, tail: string, key: string, lead: Lead, v: string)
    requires AllOk(before) && Count(before, key) == 0 && BlankDefinition(line, key, lead)
    requires Plain(v) && (forall c <- v :: !IsEol(c)) && (tail == "" || IsEol(tail[0]))
    ensures Later(tail) ==> Match(line + tail).Some?
    ensures LaterLinesKept(Terminated(before), line, tail, key, v, Apply(Terminated(before) + (line + tail), key, v)) <==>
      !Later(tail) || Overwritten(line + tail) == v
  {
    var b := Terminated(before);
    ChangeBlank(before, line, tail, key, lead, v);
    if Later(tail) {
      var q, e := ChangeLater(line, tail, key, lead, v);
      OverwrittenIs(line, tail, q, e);
      KeptIffSame(b, line, tail, key, v, q, e);
    } else if lead.eq + 1 < |line| {
      KeptInGap(b, line, tail, key, v);
    }
  }

  lemma KeptInGap(b: string, line: string, tail: string, key: string, v: string)
    requires line != "" && (forall c <- line :: !IsEol(c)) && (forall c <- v :: !IsEol(c))
    ensures LaterLinesKept(b, line, tail, key, v, b + (line[..|line| - 1] + v + tail))
  {
    var l := line[..|line| - 1] + v;
    assert forall c <- l :: !IsEol(c);
    KeptByLine(b, line, tail, key, v, l);
  }

  lemma OverwrittenIs(line: string, tail: string, q: nat, e: nat)
    requires Match(line + tail).Some? && q <= e <= |tail|
    requires Match(line + tail).value.valStart == |line| + q && Match(line + tail).value.valEnd == |line| + e
    ensures Overwritten(line + tail) == tail[q..e]
  {
    LaterPart(line, tail, q, e);
  }

  lemma LaterPart(line: string, tail: string, q: nat, e: nat)
    requires q <= e <= |tail|
    ensures (line + tail)[|line| + q..|line| + e] == tail[q..e]
  {
  }

  lemma NoEolInFront(m: string, b: string)
    requires forall c <- m :: !IsEol(c)
    ensures forall k :: 0 <= k < |m| ==> !IsEol((m + b)[k])
  {
    forall k | 0 <= k < |m| ensures !IsEol((m + b)[k]) { assert (m + b)[k] == m[k] && m[k] in m; }
  }

  lemma FirstLineNotShorter(l: string, a: string, m: string, b: string)
    requires l + a == m + b && (forall c <- m :: !IsEol(c)) && a != "" && IsEol(a[0])
    ensures |m| <= |l|
  {
    NoEolInFront(m, b);
    assert (l + a)[|l|] == a[0];
  }

  /** The first line ends where its first terminator is. */
  lemma SameFirstLine(l: string, a: string, m: string, b: string)
    requires l + a == m + b && (forall c <- l :: !IsEol(c)) && (forall c <- m :: !IsEol(c))
    requires a != "" && IsEol(a[0]) && b != "" && IsEol(b[0])
    ensures l == m && a == b
  {
    FirstLineNotShorter(l, a, m, b);
    FirstLineNotShorter(m, b, l, a);
    SameFront(l, a, m, b);
  }

  lemma AppendIsLonger(b: string, line: string, tail: string, key: string, v: string, q: nat, e: nat)
    requires q < e <= |tail|
    ensures b + (line + (tail[..q] + v + tail[e..])) != b + (line + tail) + "\n" + NewLine(key, v)
  {
    assert |b + (line + (tail[..q] + v + tail[e..]))| < |b + (line + tail) + "\n" + NewLine(key, v)|;
  }

  lemma KeptMeansSame(b: string, line: string, tail: string, key: string, v: string, q: nat, e: nat)
    requires (forall c <- line :: !IsEol(c)) && tail != "" && IsEol(tail[0]) && Spans(tail, q, e)
    requires LaterLinesKept(b, line, tail, key, v, b + (line + (tail[..q] + v + tail[e..])))
    ensures tail[q..e] == v
  {
    var changed := tail[..q] + v + tail[e..];
    AppendIsLonger(b, line, tail, key, v, q, e);
    var l: string :| (forall c <- l :: !IsEol(c)) && b + (line + changed) == b + (l + tail);
    assert changed[0] == tail[0] by { assert q > 0; }
    SameFront(b, line + changed, b, l + tail);
    SameFirstLine(line, changed, l, tail);
    MiddleIs(tail, v, q, e);
  }

  lemma MiddleIs(tail: string, v: string, q: nat, e: nat)
    requires q <= e <= |tail| && tail[..q] + v + tail[e..] == tail
    ensures tail[q..e] == v
  {
    assert |v| == e - q;
    assert (tail[..q] + v + tail[e..])[q..q + |v|] == v;
  }

  // ----- clearing a field, and typing into it -----

  /** A complete definition is blank up to its value. */
  lemma ValuelessIsBlank(l: string, key: string) returns (lead: Lead)
    requires LineOk(l) && Defines(l, key)
    ensures BlankDefinition(l[..Match(l).value.valStart], key, lead)
  {
    var m := Match(l).value;
    var line := l[..m.valStart];
    DefinesIsComplete(l, key);
    lead := Lead(m.keyStart, m.keyEnd, m.eq);
    assert line[..m.eq + 1] == l[..m.eq + 1];
    ShapeOfComplete(l, line);
    CutAtValue(l, line, l[m.valEnd..]);
  }

  lemma ClearedText(l: string, m: Found)
    requires Match(l) == Some(m)
    ensures SetValue(l, "") == l[..m.valStart] + l[m.valEnd..]
  {
    SetValueAt(l, m, "");
    assert l[..m.valStart] + "" == l[..m.valStart];
  }

  lemma ClearStep(before: seq<string>, l: string, tail: string, key: string)
    requires AllOk(before) && Count(before, key) == 0 && LineOk(l) && Defines(l, key) && (tail == "" || IsEol(tail[0]))
    ensures var m := Match(l).value; var rest := l[m.valEnd..] + tail;
      && Apply(Terminated(before) + (l + tail), key, "") == Terminated(before) + (l[..m.valStart] + rest)
      && (rest == "" || IsEol(rest[0]))
  {
    var m := Match(l).value;
    ClearedText(l, m);
    PlainIsPut(Terminated(before) + (l + tail), key, "");
    PutInSplit(before, l, tail, key, "");
    Assoc(l[..m.valStart], l[m.valEnd..], tail);
    EolAfterValue(l, tail, key);
  }

  lemma EolAfterValue(l: string, tail: string, key: string)
    requires LineOk(l) && Defines(l, key) && (tail == "" || IsEol(tail[0]))
    ensures var rest := l[Match(l).value.valEnd..] + tail; rest == "" || IsEol(rest[0])
  {
    DefinesIsComplete(l, key);
    CutAtValue(l, l[..Match(l).value.valStart], l[Match(l).value.valEnd..]);
  }

  /** Clearing the field of a complete definition and then typing `w` keeps the
      later lines exactly when nothing that `.` matches is on them, or `w` is what
      it overwrites. */
  lemma ClearThenType(before: seq<string>, l: string, tail: string, key: string, w: string)
    requires AllOk(before) && Count(before, key) == 0 && LineOk(l) && Defines(l, key)
    requires (tail == "" || IsEol(tail[0])) && Plain(w) && forall c <- w :: !IsEol(c)
    ensures var line, rest := l[..Match(l).value.valStart], l[Match(l).value.valEnd..] + tail;
      && (Later(rest) ==> Match(line + rest).Some?)
      && (LaterLinesKept(Terminated(before), line, rest, key, w, Apply(Apply(Terminated(before) + (l + tail), key, ""), key, w)) <==>
            !Later(rest) || Overwritten(line + rest) == w)
  {
    var lead := ValuelessIsBlank(l, key);
    ClearStep(before, l, tail, key);
    BlankKeepsLaterIff(before, l[..Match(l).value.valStart], l[Match(l).value.valEnd..] + tail, key, lead, w);
  }

  /** In particular the next line, if it begins with something visible, is gone:
      `w` stands in its place and the definition stays blank. */
  lemma ClearThenTypeOverwrites(before: seq<string>, l: string, next: string, rest: string, key: string, w: string)
    requires AllOk(before) && Count(before, key) == 0 && LineOk(l) && Defines(l, key) && Match(l).value.valEnd == |l|
    requires next != "" && !IsJsSpace(next[0]) && (forall c <- next :: !IsEol(c)) && (rest == "" || IsEol(rest[0]))
    requires Plain(w)
    ensures var b, line := Terminated(before), l[..Match(l).value.valStart];
      Apply(Apply(b + (l + ("\n" + next + rest)), key, ""), key, w) == b + (line + ("\n" + w + rest))
  {
    var lead := ValuelessIsBlank(l, key);
    var tail := "\n" + next + rest;
    assert tail[0] == '\n';
    ClearStep(before, l, tail, key);
    assert l[|l|..] + tail == tail;
    OverwritesNext(before, l[..Match(l).value.valStart], next, rest, key, lead, w);
  }

  /** The value found is the next line. */
  lemma NextIsFound(line: string, next: string, rest: string, from: nat, t: string)
    requires t == line + ("\n" + next + rest) && from <= |line| && forall k :: from <= k < |line| ==> IsJsSpace(line[k])
    requires next != "" && !IsJsSpace(next[0])
    ensures ValueStart(t, from) == Some(|line| + 1)
  {
    assert forall k :: from <= k < |line| + 1 ==> t[k] == if k < |line| then line[k] else '\n';
    assert t[|line| + 1] == next[0];
    SpaceStops(t, from, |line| + 1);
  }

  lemma NextCut(line: string, next: string, rest: string, w: string, t: string)
    requires t == line + ("\n" + next + rest)
    ensures t[..|line| + 1] + w + t[|line| + 1 + |next|..] == line + ("\n" + w + rest)
  {
    assert t[..|line| + 1] == line + "\n" && t[|line| + 1 + |next|..] == rest;
    Assoc(line, "\n", w);
    Assoc(line, "\n" + w, rest);
  }

  lemma NextReplaced(line: string, next: string, rest: string, w: string, t: string, m: Found)
    requires t == line + ("\n" + next + rest) && Match(t) == Some(m)
    requires m.valStart == |line| + 1 && m.valEnd == |line| + 1 + |next|
    ensures SetValue(t, w) == line + ("\n" + w + rest)
  {
    SetValueAt(t, m, w);
    NextCut(line, next, rest, w, t);
  }

  lemma NextSpans(line: string, next: string, rest: string, from: nat, tail: string)
    requires tail == "\n" + next + rest && from <= |line| && forall k :: from <= k < |line| ==> IsJsSpace(line[k])
    requires next != "" && !IsJsSpace(next[0]) && (forall c <- next :: !IsEol(c)) && (rest == "" || IsEol(rest[0]))
    ensures ValueStart(line + tail, from) == Some(|line| + 1)
    ensures SkipRest(line + tail, |line| + 1) == |line| + 1 + |next|
  {
    NextIsFound(line, next, rest, from, line + tail);
    NextEnds(line, next, rest, line + tail);
  }

  lemma NextMatches(line: string, next: string, rest: string, key: string, lead: Lead, tail: string)
    requires BlankDefinition(line, key, lead) && tail == "\n" + next + rest
    requires next != "" && !IsJsSpace(next[0]) && (forall c <- next :: !IsEol(c)) && (rest == "" || IsEol(rest[0]))
    ensures Match(line + tail) == Some(Found(lead.keyStart, lead.keyEnd, lead.eq, |line| + 1, |line| + 1 + |next|))
  {
    NextSpans(line, next, rest, lead.eq + 1, tail);
    BlankMatches(line, tail, key, lead, |line| + 1, |line| + 1 + |next|);
  }

  lemma SetNext(line: string, next: string, rest: string, key: string, lead: Lead, w: string)
    requires BlankDefinition(line, key, lead)
    requires next != "" && !IsJsSpace(next[0]) && (forall c <- next :: !IsEol(c)) && (rest == "" || IsEol(rest[0]))
    ensures var t := line + ("\n" + next + rest); Match(t).Some? && SetValue(t, w) == line + ("\n" + w + rest)
  {
    var t := line + ("\n" + next + rest);
    NextMatches(line, next, rest, key, lead, "\n" + next + rest);
    NextReplaced(line, next, rest, w, t, Match(t).value);
  }

  lemma NextIsLater(next: string, rest: string)
    requires next != "" && !IsJsSpace(next[0])
    ensures Later("\n" + next + rest) && ("\n" + next + rest)[0] == '\n'
  {
    assert ("\n" + next + rest)[1] == next[0];
    EolIsSpace(next[0]);
  }

  /** A change at a blank definition with a visible line after it. */
  lemma OverwritesNext(before: seq<string>, line: string, next: string, rest: string, key: string, lead: Lead, w: string)
    requires AllOk(before) && Count(before, key) == 0 && BlankDefinition(line, key, lead) && Plain(w)
    requires next != "" && !IsJsSpace(next[0]) && (forall c <- next :: !IsEol(c)) && (rest == "" || IsEol(rest[0]))
    ensures var b := Terminated(before);
      Apply(b + (line + ("\n" + next + rest)), key, w) == b + (line + ("\n" + w + rest))
  {
    NextIsLater(next, rest);
    ChangeLaterLine(before, line, "\n" + next + rest, key, lead, w);
    SetNext(line, next, rest, key, lead, w);
  }

  lemma NextEnds(line: string, next: string, rest: string, t: string)
    requires t == line + ("\n" + next + rest) && (forall c <- next :: !IsEol(c)) && (rest == "" || IsEol(rest[0]))
    ensures SkipRest(t, |line| + 1) == |line| + 1 + |next|
  {
    forall k | |line| + 1 <= k < |line| + 1 + |next| ensures !IsEol(t[k]) {
      assert t[k] == next[k - |line| - 1] && next[k - |line| - 1] in next;
    }
    assert rest != "" ==> t[|line| + 1 + |next|] == rest[0];
    RestStops(t, |line| + 1, |line| + 1 + |next|);
  }
}
