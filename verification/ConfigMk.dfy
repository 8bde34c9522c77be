/** frontend/src/components/ConfigEditor/ConfigEditor.tsx: reading and editing the
    `export KEY = VALUE` lines of a config.mk text. */
module ConfigMk {
  import opened Wrappers
  import opened Text
  import opened JsText
  import opened MultiLine
  import opened ConfigPattern
  import opened Replacement

  // ----- parseParamValues -----

  /** The value a line gives its key. */
  function ValueOf(line: string): string
    requires Match(line).Some?
  {
    JsTrim(line[Match(line).value.valStart..Match(line).value.valEnd])
  }

  /** Assigning a string to this key of a JavaScript object stores nothing. */
  const PROTO := "__proto__"

  /** The values once one more line is read. */
  function Override(values: map<string, string>, line: string): map<string, string> {
    if Match(line).None? || Key(line) == PROTO then values else values[Key(line) := ValueOf(line)]
  }

  /** Later lines override earlier ones. */
  function ParseFrom(values: map<string, string>, ls: seq<string>): map<string, string>
    decreases |ls|
  {
    if ls == [] then values else ParseFrom(Override(values, ls[0]), ls[1..])
  }

  function Parse(content: string): map<string, string> { ParseFrom(map[], Lines(content)) }

  method ParseParamValues(content: string) returns (values: map<string, string>)
    ensures values == Parse(content)
  {
    var lines := Lines(content);
    values := map[];
    for i := 0 to |lines|
      invariant ParseFrom(values, lines[i..]) == Parse(content)
    {
      var line := lines[i];
      assert lines[i..][0] == line && lines[i..][1..] == lines[i + 1..];
      if Match(line).Some? && Key(line) != PROTO {
        values := values[Key(line) := ValueOf(line)];
      }
    }
  }

  // ----- applyParamChange -----

  /** The text with the matched value replaced. */
  function SetValue(s: string, value: string): string
    requires Match(s).Some?
  {
    s[..Match(s).value.valStart] + value + s[Match(s).value.valEnd..]
  }

  /** Does a definition of the key begin the text? */
  function Defining(key: string): string -> bool { (t: string) => Defines(t, key) }

  lemma LocateDefines(s: string, atStart: bool, key: string)
    ensures var p := Locate(s, atStart, Defining(key)); p.Some? ==> Defines(s[p.value..], key)
  {
    LocateHolds(s, atStart, Defining(key));
  }

  function NewLine(key: string, value: string): string {
    EXPORT + " " + key + " = " + value
  }

  /** What the replacement text can refer to. */
  function GroupsAt(content: string, p: nat): Groups
    requires p <= |content| && Match(content[p..]).Some?
  {
    var s, m := content[p..], Match(content[p..]).value;
    Groups(content[..p], s[m.valEnd..], s[..m.valStart], s[m.valStart..m.valEnd])
  }

  lemma CutTwice(s: string, i: nat, j: nat)
    requires i <= j <= |s|
    ensures s == s[..i] + s[i..j] + s[j..]
  {
  }

  /** The groups make up the text: what is before the match, the match up to its
      value, the value, and what follows. */
  lemma GroupsCover(content: string, p: nat)
    requires p <= |content| && Match(content[p..]).Some?
    ensures var g, m := GroupsAt(content, p), Match(content[p..]).value;
      && content == g.before + (g.first + g.second + g.after)
      && |g.before| == p && |g.first| == m.valStart && |g.second| == m.valEnd - m.valStart
  {
    var m := Match(content[p..]).value;
    CutTwice(content[p..], m.valStart, m.valEnd);
    CutTwice(content, p, |content|);
  }

  /** `applyParamChange` for a word key. */
  function Apply(content: string, key: string, value: string): string {
    LocateDefines(content, true, key);
    match Locate(content, true, Defining(key))
    case None => content + "\n" + NewLine(key, value)
    case Some(p) =>
      var g := GroupsAt(content, p);
      g.before + Expand("$1" + value, g) + g.after
  }

  /** The same change with the text taken as it is. */
  function Put(content: string, key: string, text: string): string {
    LocateDefines(content, true, key);
    match Locate(content, true, Defining(key))
    case None => content + "\n" + NewLine(key, text)
    case Some(p) => content[..p] + SetValue(content[p..], text)
  }

  /** What a change writes for the value. */
  function Written(content: string, key: string, value: string): string {
    LocateDefines(content, true, key);
    match Locate(content, true, Defining(key))
    case None => value
    case Some(p) => Expand(value, GroupsAt(content, p))
  }

  lemma WrittenAround(content: string, p: nat, value: string)
    requires p <= |content| && Match(content[p..]).Some?
    ensures var g := GroupsAt(content, p);
      g.before + Expand("$1" + value, g) + g.after == content[..p] + SetValue(content[p..], Expand(value, g))
  {
    var g := GroupsAt(content, p);
    var x := Expand(value, g);
    TemplateStart(value, g);
    Assoc(g.before, g.first + x, g.after);
  }

  /** A change puts what the value expands to. */
  lemma ApplyIsPut(content: string, key: string, value: string)
    ensures Apply(content, key, value) == Put(content, key, Written(content, key, value))
  {
    LocateDefines(content, true, key);
    match Locate(content, true, Defining(key))
    case None =>
    case Some(p) => WrittenAround(content, p, value);
  }

  // ----- well-formed content -----

  /** Not empty, nothing to trim, on one line. */
  predicate IsValue(v: string) { Trimmed(v) && forall c <- v :: !IsEol(c) }

  /** On one line, with something visible at the start. */
  predicate IsText(v: string) { v != "" && !IsJsSpace(v[0]) && forall c <- v :: !IsEol(c) }

  /** The text begins with the word `export` as the pattern wants it. */
  predicate Head(s: string) {
    |s| >= |EXPORT| && s[..|EXPORT|] == EXPORT && (|s| == |EXPORT| || IsJsSpace(s[|EXPORT|]))
  }

  /** No export statement begins in `s` where `^` matches. */
  predicate NoHeads(s: string, atStart: bool) {
    (atStart ==> !Head(s)) && (s != "" ==> NoHeads(s[1..], IsEol(s[0])))
  }

  /** A complete one-line assignment with a value that is not blank. */
  predicate Complete(line: string) {
    && Match(line).Some? && !IsJsSpace(line[Match(line).value.valStart])
    && forall k :: 0 <= k < Match(line).value.valStart ==> !IsEol(line[k])
  }

  /** An export line is complete, and nothing but the line start can begin one. */
  predicate LineOk(line: string) {
    if Head(line) then Complete(line) && NoHeads(line[1..], false) else NoHeads(line, true)
  }

  predicate WellFormed(content: string) {
    forall l <- Lines(content) :: LineOk(l)
  }

  // ----- one line -----

  lemma ShapeOfComplete(line: string, t: string)
    requires Complete(line)
    requires Match(line).value.eq < |t| && line[..Match(line).value.eq + 1] == t[..Match(line).value.eq + 1]
    ensures var m := Match(line).value;
      Shape(t, m.keyStart, m.keyEnd, m.eq) && t[m.keyStart..m.keyEnd] == Key(line)
    ensures Match(line).value.valStart == SkipSpace(line, Match(line).value.eq + 1)
    ensures Match(line).value.valEnd == SkipRest(line, Match(line).value.valStart)
  {
    var m := Match(line).value;
    MatchHasShape(line);
    ShapeIsLocal(line, t, m.keyStart, m.keyEnd, m.eq);
  }

  /** A complete line matches the same way whatever follows it. */
  lemma CompleteIsLocal(line: string, tail: string)
    requires Complete(line) && (tail == "" || IsEol(tail[0]))
    ensures Match(line + tail) == Match(line) && Key(line + tail) == Key(line)
  {
    var m, t := Match(line).value, line + tail;
    assert line[..m.eq + 1] == t[..m.eq + 1];
    ShapeOfComplete(line, t);
    SkipSpaceLocal(line, tail, m.eq + 1);
    SkipRestLocal(line, tail, m.valStart);
    MatchFromShape(t, m);
  }

  /** Where the new value starts and ends: `head` is the line up to the value,
      `rest` what follows it. */
  lemma ValueStops(head: string, v: string, rest: string, from: nat)
    requires from <= |head| && (forall k :: from <= k < |head| ==> IsJsSpace(head[k]))
    requires IsText(v) && (rest == "" || IsEol(rest[0]))
    ensures SkipSpace(head + v + rest, from) == |head|
    ensures SkipRest(head + v + rest, |head|) == |head| + |v|
  {
    var t, e := head + v + rest, |head| + |v|;
    assert t[|head|] == v[0];
    SpaceStops(t, from, |head|);
    forall k | |head| <= k < e ensures !IsEol(t[k]) { assert t[k] == v[k - |head|]; }
    RestStops(t, |head|, e);
  }

  /** A line cut at its value: up to the value, and after it. */
  lemma CutAtValue(line: string, head: string, rest: string)
    requires Complete(line)
    requires head == line[..Match(line).value.valStart] && rest == line[Match(line).value.valEnd..]
    ensures forall k :: Match(line).value.eq + 1 <= k < |head| ==> IsJsSpace(head[k])
    ensures rest == "" || IsEol(rest[0])
  {
    var m := Match(line).value;
    ShapeOfComplete(line, line);
    assert rest != "" ==> rest[0] == line[m.valEnd];
  }

  lemma NewValueMatches(line: string, m: Found, head: string, v: string, rest: string)
    requires Complete(line) && IsText(v) && Match(line) == Some(m) && head == line[..m.valStart]
    requires forall k :: m.eq + 1 <= k < |head| ==> IsJsSpace(head[k])
    requires rest == "" || IsEol(rest[0])
    ensures Match(head + v + rest) == Some(m.(valEnd := m.valStart + |v|)) && Key(head + v + rest) == Key(line)
  {
    var t := head + v + rest;
    assert line[..m.eq + 1] == t[..m.eq + 1];
    ShapeOfComplete(line, t);
    ValueStops(head, v, rest, m.eq + 1);
    MatchFromShape(t, m.(valEnd := m.valStart + |v|));
  }

  lemma SetValueAt(t: string, m: Found, v: string)
    requires Match(t) == Some(m)
    ensures SetValue(t, v) == t[..m.valStart] + v + t[m.valEnd..]
  {
  }

  lemma CutMatches(line: string, m: Found, head: string, v: string, rest: string)
    requires Complete(line) && IsText(v) && Match(line) == Some(m)
    requires head == line[..m.valStart] && rest == line[m.valEnd..]
    ensures Match(head + v + rest) == Some(m.(valEnd := m.valStart + |v|)) && Key(head + v + rest) == Key(line)
  {
    CutAtValue(line, head, rest);
    NewValueMatches(line, m, head, v, rest);
  }

  /** Setting a value keeps the key and moves only the end of the value. */
  lemma SetValueMatches(line: string, v: string, t: string)
    requires Complete(line) && IsText(v) && t == SetValue(line, v)
    ensures var m := Match(line).value;
      Match(t) == Some(m.(valEnd := m.valStart + |v|)) && Key(t) == Key(line)
  {
    var m := Match(line).value;
    SetValueAt(line, m, v);
    CutMatches(line, m, line[..m.valStart], v, line[m.valEnd..]);
  }

  lemma SetValueTwice(line: string, v: string, w: string)
    requires Complete(line) && IsText(v)
    ensures Match(SetValue(line, v)).Some? && SetValue(SetValue(line, v), w) == SetValue(line, w)
  {
    var m, t := Match(line).value, SetValue(line, v);
    SetValueMatches(line, v, t);
    assert t[..m.valStart] == line[..m.valStart] && t[m.valStart + |v|..] == line[m.valEnd..];
  }

  lemma SetValueReadsBack(line: string, v: string)
    requires Complete(line) && IsText(v)
    ensures Complete(SetValue(line, v)) && ValueOf(SetValue(line, v)) == JsTrim(v)
  {
    var m, t := Match(line).value, SetValue(line, v);
    SetValueMatches(line, v, t);
    assert t[m.valStart] == v[0];
    assert t[m.valStart..m.valStart + |v|] == v;
    assert forall k :: 0 <= k < m.valStart ==> t[k] == line[k];
  }

  // ----- searching line by line -----

  /** The lines with the first one that defines `key` edited. */
  function ReplaceLines(ls: seq<string>, key: string, v: string): Option<seq<string>> {
    if ls == [] then None
    else if Defines(ls[0], key) then Some([SetValue(ls[0], v)] + ls[1..])
    else match ReplaceLines(ls[1..], key, v)
      case None => None
      case Some(rs) => Some([ls[0]] + rs)
  }

  predicate AllOk(ls: seq<string>) {
    forall l <- ls :: LineOk(l) && '\n' !in l
  }

  lemma ShortNoMatch(l: string, tail: string)
    requires |l| < |EXPORT| && (tail == "" || IsEol(tail[0]))
    ensures Match(l + tail).None?
  {
    var t := l + tail;
    if |t| >= |EXPORT| {
      assert t[..|EXPORT|][|l|] == tail[0];
      assert !IsEol(EXPORT[|l|]);
    }
  }

  /** Where no export statement begins, followed by a line end, none matches. */
  lemma NoHeadNoMatch(l: string, tail: string)
    requires !Head(l) && (tail == "" || IsEol(tail[0]))
    ensures Match(l + tail).None?
  {
    var t := l + tail;
    if |l| < |EXPORT| {
      ShortNoMatch(l, tail);
    } else {
      assert t[..|EXPORT|] == l[..|EXPORT|];
      assert |l| > |EXPORT| ==> t[|EXPORT|] == l[|EXPORT|];
    }
  }

  lemma {:induction false} NoHeadsQuiet(l: string, atStart: bool, tail: string, key: string)
    requires NoHeads(l, atStart) && (tail == "" || IsEol(tail[0]))
    ensures Quiet(l, atStart, tail, Defining(key))
    decreases |l|
  {
    if l != "" {
      if atStart { NoHeadNoMatch(l, tail); }
      NoHeadsQuiet(l[1..], IsEol(l[0]), tail, key);
    }
  }

  lemma StillOtherKey(l: string, tail: string, key: string)
    requires Complete(l) && !Defines(l, key) && (tail == "" || IsEol(tail[0]))
    ensures !Defines(l + tail, key)
  {
    CompleteIsLocal(l, tail);
  }

  /** In a line that does not define the key the search finds nothing. */
  lemma LineIsQuiet(l: string, tail: string, key: string)
    requires LineOk(l) && !Defines(l, key) && (tail == "" || IsEol(tail[0]))
    ensures Quiet(l, true, tail, Defining(key))
  {
    if Head(l) {
      StillOtherKey(l, tail, key);
      assert l[0] == EXPORT[0];
      NoHeadsQuiet(l[1..], false, tail, key);
    } else {
      NoHeadsQuiet(l, true, tail, key);
    }
  }

  lemma DefinesIsComplete(l: string, key: string)
    requires LineOk(l) && Defines(l, key)
    ensures Head(l) && Complete(l)
  {
    MatchHasShape(l);
  }

  lemma StillDefines(l: string, tail: string, key: string)
    requires LineOk(l) && Defines(l, key) && (tail == "" || IsEol(tail[0]))
    ensures Defines(l + tail, key) && Match(l + tail) == Match(l)
  {
    DefinesIsComplete(l, key);
    CompleteIsLocal(l, tail);
  }

  lemma SetValueAppend(l: string, tail: string, v: string)
    requires Match(l).Some? && Match(l + tail) == Match(l)
    ensures SetValue(l + tail, v) == SetValue(l, v) + tail
  {
    var m, t := Match(l).value, l + tail;
    assert t[..m.valStart] == l[..m.valStart] && t[m.valEnd..] == l[m.valEnd..] + tail;
    assert l[..m.valStart] + v + (l[m.valEnd..] + tail) == l[..m.valStart] + v + l[m.valEnd..] + tail;
  }

  // ----- editing the text -----

  /** Lines that each end in a newline. */
  function Terminated(ls: seq<string>): string {
    if ls == [] then "" else ls[0] + ("\n" + Terminated(ls[1..]))
  }

  /** What follows a line. */
  function Following(after: seq<string>): string {
    if after == [] then "" else "\n" + Unlines(after)
  }

  lemma NewlineIsQuiet(x: string, atStart: bool, key: string)
    ensures Quiet("\n", atStart, x, Defining(key)) && AtLine("\n", atStart)
  {
    assert ("\n" + x)[0] == '\n' != EXPORT[0];
    assert |"\n" + x| >= |EXPORT| ==> ("\n" + x)[..|EXPORT|][0] == '\n';
    assert "\n"[1..] == "";
  }

  /** Nor in lines that do not. */
  lemma {:induction false} LinesAreQuiet(ls: seq<string>, x: string, key: string)
    requires AllOk(ls) && Count(ls, key) == 0
    ensures Quiet(Terminated(ls), true, x, Defining(key)) && AtLine(Terminated(ls), true)
    decreases |ls|
  {
    if ls != [] {
      var l, t := ls[0], Terminated(ls[1..]);
      assert l in ls;
      LinesAreQuiet(ls[1..], x, key);
      OneMoreQuiet(l, t, x, key);
    }
  }

  lemma OneMoreQuiet(l: string, t: string, x: string, key: string)
    requires LineOk(l) && !Defines(l, key) && Quiet(t, true, x, Defining(key)) && AtLine(t, true)
    ensures Quiet(l + ("\n" + t), true, x, Defining(key)) && AtLine(l + ("\n" + t), true)
  {
    NewlineIsQuiet(t + x, AtLine(l, true), key);
    QuietAppend("\n", t, AtLine(l, true), x, Defining(key));
    assert ("\n" + t + x)[0] == '\n';
    LineIsQuiet(l, "\n" + t + x, key);
    QuietAppend(l, "\n" + t, true, x, Defining(key));
  }

  /** Putting where the search stops after a quiet text. */
  lemma PutAt(before: string, s: string, key: string, text: string)
    requires Quiet(before, true, s, Defining(key)) && AtLine(before, true) && Defines(s, key)
    ensures Locate(before + s, true, Defining(key)) == Some(|before|)
    ensures Put(before + s, key, text) == before + SetValue(s, text)
  {
    SkipQuiet(before, true, s, Defining(key));
    LocateHere(s, Defining(key));
    assert (before + s)[|before|..] == s && (before + s)[..|before|] == before;
  }

  /** Putting where the search finds nothing. */
  lemma PutAtEnd(content: string, key: string, text: string)
    requires Quiet(content, true, "", Defining(key))
    ensures Locate(content, true, Defining(key)) == None
    ensures Put(content, key, text) == content + "\n" + NewLine(key, text)
  {
    SkipQuiet(content, true, "", Defining(key));
    assert content + "" == content;
    assert !Defines("", key);
  }

  /** The first line that defines the key, and the lines around it. */
  lemma {:induction false} FirstDefinition(ls: seq<string>, key: string) returns (before: seq<string>, l: string, after: seq<string>)
    requires Count(ls, key) > 0
    ensures ls == before + [l] + after && Count(before, key) == 0 && Defines(l, key)
    decreases |ls|
  {
    if Defines(ls[0], key) {
      before, l, after := [], ls[0], ls[1..];
    } else {
      before, l, after := FirstDefinition(ls[1..], key);
      CountCons(ls[0], before, key);
      before := [ls[0]] + before;
    }
  }

  lemma CountCons(l: string, ls: seq<string>, key: string)
    ensures Count([l] + ls, key) == (if Defines(l, key) then 1 else 0) + Count(ls, key)
  {
    assert ([l] + ls)[1..] == ls;
  }

  lemma ConsSplit(x: string, before: seq<string>, l: string, after: seq<string>)
    ensures ([x] + before) + [l] + after == [x] + (before + [l] + after)
    ensures (([x] + before) + [l] + after)[1..] == before + [l] + after
  {
  }

  lemma {:induction false} ReplaceFirstDefinition(before: seq<string>, l: string, after: seq<string>, key: string, v: string)
    requires Count(before, key) == 0 && Defines(l, key)
    ensures ReplaceLines(before + [l] + after, key, v) == Some(before + [SetValue(l, v)] + after)
    decreases |before|
  {
    if before == [] {
      assert before + [l] + after == [l] + after && ([l] + after)[1..] == after;
      assert before + [SetValue(l, v)] + after == [SetValue(l, v)] + after;
    } else {
      var x, rest := before[0], before[1..];
      assert before == [x] + rest;
      ReplaceFirstDefinition(rest, l, after, key, v);
      ConsSplit(x, rest, l, after);
      ConsSplit(x, rest, SetValue(l, v), after);
    }
  }

  lemma UnlinesCons(l: string, ls: seq<string>)
    requires ls != []
    ensures Unlines([l] + ls) == l + ("\n" + Unlines(ls)) == (l + "\n") + Unlines(ls)
  {
    assert ([l] + ls)[1..] == ls;
  }

  lemma {:induction false} UnlinesSplit(before: seq<string>, l: string, after: seq<string>)
    ensures Unlines(before + [l] + after) == Terminated(before) + (l + Following(after))
    decreases |before|
  {
    if before == [] {
      assert before + [l] + after == [l] + after;
      UnlinesHead(l, after);
    } else {
      var x, rest := before[0], before[1..];
      assert before == [x] + rest;
      UnlinesSplit(rest, l, after);
      ConsSplit(x, rest, l, after);
      UnlinesCons(x, rest + [l] + after);
      Assoc("\n", Terminated(rest), l + Following(after));
      Assoc(x, "\n" + Terminated(rest), l + Following(after));
    }
  }

  lemma UnlinesHead(l: string, after: seq<string>)
    ensures Unlines([l] + after) == "" + (l + Following(after))
  {
    if after == [] { assert [l] + after == [l] && l + "" == l; } else { UnlinesCons(l, after); }
  }

  /** A change to lines around a first definition edits it in place. */
  lemma PutInSplit(before: seq<string>, l: string, tail: string, key: string, text: string)
    requires AllOk(before) && Count(before, key) == 0 && LineOk(l) && Defines(l, key) && (tail == "" || IsEol(tail[0]))
    ensures Locate(Terminated(before) + (l + tail), true, Defining(key)) == Some(|Terminated(before)|)
    ensures Put(Terminated(before) + (l + tail), key, text) == Terminated(before) + (SetValue(l, text) + tail)
  {
    LinesAreQuiet(before, l + tail, key);
    StillDefines(l, tail, key);
    PutAt(Terminated(before), l + tail, key, text);
    SetValueAppend(l, tail, text);
  }

  lemma SplitIsOk(before: seq<string>, l: string, after: seq<string>)
    requires AllOk(before + [l] + after)
    ensures AllOk(before) && LineOk(l) && '\n' !in l && AllOk(after)
  {
    var ls := before + [l] + after;
    assert ls[|before|] == l && l in ls;
    forall x | x in before ensures x in ls { }
    forall x | x in after ensures x in ls { }
  }

  /** On well-formed lines the search edits the first defining line. */
  lemma SearchEditsLines(ls: seq<string>, key: string, text: string)
    requires AllOk(ls) && Count(ls, key) > 0
    ensures ReplaceLines(ls, key, text).Some? && ReplaceLines(ls, key, text).value != []
    ensures Put(Unlines(ls), key, text) == Unlines(ReplaceLines(ls, key, text).value)
  {
    var before, l, after := FirstDefinition(ls, key);
    SplitIsOk(before, l, after);
    ReplaceFirstDefinition(before, l, after, key, text);
    UnlinesSplit(before, l, after);
    UnlinesSplit(before, SetValue(l, text), after);
    PutInSplit(before, l, Following(after), key, text);
  }

  /** Without a definition it finds nothing. */
  lemma SearchFindsNothing(ls: seq<string>, key: string)
    requires ls != [] && AllOk(ls) && Count(ls, key) == 0
    ensures Quiet(Unlines(ls), true, "", Defining(key))
  {
    var init, last := Init(ls), Last(ls);
    assert ls == init + [last] + [] == init + [last];
    SplitIsOk(init, last, []);
    CountSplit(init, last, key);
    UnlinesSplit(init, last, []);
    assert last + "" == last;
    LinesAreQuiet(init, last + "", key);
    LineIsQuiet(last, "", key);
    QuietAppend(Terminated(init), last, true, "", Defining(key));
  }

  lemma {:induction false} CountSplit(init: seq<string>, last: string, key: string)
    ensures Count(init + [last], key) == Count(init, key) + (if Defines(last, key) then 1 else 0)
    decreases |init|
  {
    if init == [] {
      assert init + [last] == [last] && [last][1..] == [];
    } else {
      CountSplit(init[1..], last, key);
      assert init + [last] == [init[0]] + (init[1..] + [last]);
      CountCons(init[0], init[1..] + [last], key);
    }
  }

  // ----- a new statement -----

  /** An export statement with some white space before its value. */
  function Statement(key: string, gap: string, v: string): string {
    EXPORT + " " + key + " =" + gap + v
  }

  lemma StatementShape(key: string, rest: string)
    requires IsKey(key)
    ensures Shape(EXPORT + " " + key + " =" + rest, 7, 7 + |key|, 8 + |key|)
    ensures (EXPORT + " " + key + " =" + rest)[7..7 + |key|] == key
  {
    var t, c := EXPORT + " " + key + " =" + rest, 7 + |key|;
    assert t[..6] == EXPORT && t[6] == ' ' && t[7..c] == key && t[c] == ' ' && t[c + 1] == '=';
    assert forall k :: 7 <= k < c ==> t[k] == key[k - 7];
    assert IsWord(t[7]) && !IsWord(' ') && !IsJsSpace('=') && IsJsSpace(' ');
    SpaceStops(t, 6, 7);
    WordStops(t, 7, c);
    SpaceStops(t, c, c + 1);
  }

  lemma StatementParts(key: string, gap: string, v: string)
    ensures Statement(key, gap, v) == EXPORT + " " + key + " =" + (gap + v)
    ensures Statement(key, gap, v) == (EXPORT + " " + key + " =" + gap) + v + ""
  {
    Assoc(EXPORT + " " + key + " =", gap, v);
    assert Statement(key, gap, v) + "" == Statement(key, gap, v);
  }

  lemma StatementValue(key: string, gap: string, v: string)
    requires JsBlank(gap) && IsText(v)
    ensures var t := Statement(key, gap, v);
      SkipSpace(t, 9 + |key|) == 9 + |key| + |gap| && SkipRest(t, 9 + |key| + |gap|) == |t|
  {
    var head := EXPORT + " " + key + " =" + gap;
    StatementParts(key, gap, v);
    assert forall k :: 9 + |key| <= k < |head| ==> head[k] in gap;
    ValueStops(head, v, "", 9 + |key|);
  }

  lemma StatementMatches(key: string, gap: string, v: string)
    requires IsKey(key) && JsBlank(gap) && IsText(v)
    ensures var t := Statement(key, gap, v);
      Match(t) == Some(Found(7, 7 + |key|, 8 + |key|, 9 + |key| + |gap|, |t|)) && Key(t) == key
  {
    var t := Statement(key, gap, v);
    StatementParts(key, gap, v);
    StatementShape(key, gap + v);
    StatementValue(key, gap, v);
    MatchFromShape(t, Found(7, 7 + |key|, 8 + |key|, 9 + |key| + |gap|, |t|));
  }

  lemma {:induction false} NothingBegins(p: string, rest: string)
    requires (forall c <- p :: !IsEol(c))
    ensures NoHeads(p + rest, false) == NoHeads(rest, false)
    decreases |p|
  {
    if p == "" {
      assert p + rest == rest;
    } else {
      assert (p + rest)[1..] == p[1..] + rest;
      NothingBegins(p[1..], rest);
    }
  }

  /** In a line without terminators only its start can begin a statement. */
  lemma OneStatement(l: string)
    requires Head(l) && (forall c <- l :: !IsEol(c))
    ensures NoHeads(l[1..], false) && '\n' !in l
  {
    assert l[1..] + "" == l[1..];
    NothingBegins(l[1..], "");
    assert IsEol('\n');
  }

  lemma NewLineChars(key: string, v: string)
    requires IsKey(key) && IsText(v)
    ensures Head(NewLine(key, v)) && forall c <- NewLine(key, v) :: !IsEol(c)
  {
    var l := NewLine(key, v);
    assert l[..6] == EXPORT && l[6] == ' ';
    forall c | c in l ensures !IsEol(c) {
      assert c in EXPORT || c in " = " || c in key || c in v;
      if c in key { assert IsWord(c); }
    }
  }

  lemma NewLineMatches(key: string, v: string, l: string)
    requires IsKey(key) && IsText(v) && l == NewLine(key, v)
    ensures Match(l) == Some(Found(7, 7 + |key|, 8 + |key|, 10 + |key|, |l|)) && Key(l) == key
    ensures l[..10 + |key|] == EXPORT + " " + key + " = " && l[10 + |key|..] == v
  {
    assert l == Statement(key, " ", v);
    StatementMatches(key, " ", v);
  }

  lemma NewLineIsComplete(key: string, v: string, l: string)
    requires IsKey(key) && IsText(v) && l == NewLine(key, v)
    ensures Complete(l)
  {
    NewLineMatches(key, v, l);
    NewLineChars(key, v);
    assert l[10 + |key|] == v[0];
  }

  lemma NewLineIsOk(key: string, v: string, l: string)
    requires IsKey(key) && IsText(v) && l == NewLine(key, v)
    ensures LineOk(l) && '\n' !in l && Defines(l, key) && ValueOf(l) == JsTrim(v)
  {
    NewLineMatches(key, v, l);
    NewLineIsComplete(key, v, l);
    NewLineChars(key, v);
    OneStatement(l);
    assert l[10 + |key|..|l|] == v;
  }

  lemma NewLineIsSet(key: string, v: string, w: string)
    requires IsKey(key) && IsText(v)
    ensures Defines(NewLine(key, v), key) && SetValue(NewLine(key, v), w) == NewLine(key, w)
  {
    NewLineMatches(key, v, NewLine(key, v));
  }

  /** Another value begins no statement either. */
  lemma StillOneStatement(head: string, was: string, rest: string, v: string)
    requires head != "" && (forall c <- head :: !IsEol(c)) && (forall c <- was :: !IsEol(c)) && (forall c <- v :: !IsEol(c))
    ensures NoHeads((head + was + rest)[1..], false) == NoHeads((head + v + rest)[1..], false)
  {
    var p := head[1..];
    assert (head + was + rest)[1..] == (p + was) + rest && (head + v + rest)[1..] == (p + v) + rest;
    NothingBegins(p + was, rest);
    NothingBegins(p + v, rest);
  }

  lemma SameHead(head: string, x: string, y: string)
    requires |head| > |EXPORT|
    ensures Head(head + x) == Head(head + y)
  {
    assert (head + x)[..|EXPORT|] == head[..|EXPORT|] == (head + y)[..|EXPORT|];
    assert (head + x)[|EXPORT|] == head[|EXPORT|] == (head + y)[|EXPORT|];
  }

  lemma SameBeginning(l: string, t: string, head: string, was: string, rest: string, v: string)
    requires l == head + was + rest && t == head + v + rest && |head| > |EXPORT|
    requires (forall c <- head :: !IsEol(c)) && (forall c <- was :: !IsEol(c)) && (forall c <- v :: !IsEol(c))
    requires Head(l) && NoHeads(l[1..], false)
    ensures Head(t) && NoHeads(t[1..], false)
  {
    StillOneStatement(head, was, rest, v);
    Assoc(head, was, rest);
    Assoc(head, v, rest);
    SameHead(head, was + rest, v + rest);
  }

  lemma NoEolIn(l: string, i: nat, j: nat)
    requires i <= j <= |l| && forall k :: i <= k < j ==> !IsEol(l[k])
    ensures forall c <- l[i..j] :: !IsEol(c)
  {
  }

  lemma ThreeParts(l: string, i: nat, j: nat)
    requires i <= j <= |l|
    ensures l == l[..i] + l[i..j] + l[j..]
  {
  }

  lemma CompleteParts(l: string, m: Found, head: string, was: string, rest: string)
    requires Complete(l) && Match(l) == Some(m)
    requires head == l[..m.valStart] && was == l[m.valStart..m.valEnd] && rest == l[m.valEnd..]
    ensures l == head + was + rest && |head| > |EXPORT|
    ensures (forall c <- head :: !IsEol(c)) && (forall c <- was :: !IsEol(c))
  {
    ShapeOfComplete(l, l);
    ThreeParts(l, m.valStart, m.valEnd);
    NoEolIn(l, 0, m.valStart);
    NoEolIn(l, m.valStart, m.valEnd);
  }

  lemma EditedLineBegins(l: string, v: string)
    requires Complete(l) && Head(l) && NoHeads(l[1..], false) && IsText(v)
    ensures Head(SetValue(l, v)) && NoHeads(SetValue(l, v)[1..], false)
  {
    var m := Match(l).value;
    var head, was, rest := l[..m.valStart], l[m.valStart..m.valEnd], l[m.valEnd..];
    CompleteParts(l, m, head, was, rest);
    SetValueAt(l, m, v);
    SameBeginning(l, SetValue(l, v), head, was, rest, v);
  }

  /** An edited line is as well-formed as before. */
  lemma EditedLineIsOk(l: string, key: string, v: string)
    requires LineOk(l) && '\n' !in l && Defines(l, key) && IsText(v)
    ensures LineOk(SetValue(l, v)) && '\n' !in SetValue(l, v) && Defines(SetValue(l, v), key)
  {
    DefinesIsComplete(l, key);
    SetValueReadsBack(l, v);
    SetValueMatches(l, v, SetValue(l, v));
    EditedLineBegins(l, v);
    assert IsEol('\n');
  }

  // ----- the laws on lines -----

  function Count(ls: seq<string>, key: string): nat {
    if ls == [] then 0 else (if Defines(ls[0], key) then 1 else 0) + Count(ls[1..], key)
  }

  lemma {:induction false} NoneToReplace(ls: seq<string>, key: string, v: string)
    ensures ReplaceLines(ls, key, v).None? <==> Count(ls, key) == 0
  {
    if ls != [] { NoneToReplace(ls[1..], key, v); }
  }

  /** After an edit the lines are still well-formed, and the next edit finds the
      same line. */
  lemma {:induction false} EditAgain(ls: seq<string>, key: string, v: string, w: string)
    requires AllOk(ls) && IsText(v) && ReplaceLines(ls, key, v).Some?
    ensures AllOk(ReplaceLines(ls, key, v).value)
    ensures ReplaceLines(ReplaceLines(ls, key, v).value, key, w) == ReplaceLines(ls, key, w)
  {
    var l, tail := ls[0], ls[1..];
    assert l in ls;
    if Defines(l, key) {
      EditedLineIsOk(l, key, v);
      DefinesIsComplete(l, key);
      SetValueTwice(l, v, w);
    } else {
      EditAgain(tail, key, v, w);
    }
  }

  /** A value given before the lines are read shows only if they do not define
      its key. */
  lemma {:induction false} Shadowed(values: map<string, string>, ls: seq<string>, key: string, v: string)
    requires key != PROTO
    ensures ParseFrom(values[key := v], ls) ==
      if Count(ls, key) == 0 then ParseFrom(values, ls)[key := v] else ParseFrom(values, ls)
    decreases |ls|
  {
    if ls != [] {
      ShadowStep(values, ls[0], key, v);
      if !Defines(ls[0], key) { Shadowed(Override(values, ls[0]), ls[1..], key, v); }
    }
  }

  lemma ShadowStep(values: map<string, string>, l: string, key: string, v: string)
    requires key != PROTO
    ensures Override(values[key := v], l) ==
      if Defines(l, key) then Override(values, l) else Override(values, l)[key := v]
  {
  }

  lemma EditFirst(values: map<string, string>, l: string, tail: seq<string>, key: string, v: string)
    requires LineOk(l) && Defines(l, key) && IsText(v) && key != PROTO
    ensures ParseFrom(values, [SetValue(l, v)] + tail) ==
      if Count(tail, key) == 0 then ParseFrom(values, [l] + tail)[key := JsTrim(v)] else ParseFrom(values, [l] + tail)
  {
    OverrideOfEdit(values, l, key, v);
    ParseStep(values, SetValue(l, v), tail);
    ParseStep(values, l, tail);
    Shadowed(values, tail, key, JsTrim(v));
    Shadowed(values, tail, key, ValueOf(l));
  }

  lemma {:induction false} EditParsed(values: map<string, string>, ls: seq<string>, key: string, v: string)
    requires AllOk(ls) && IsText(v) && ReplaceLines(ls, key, v).Some? && key != PROTO
    ensures ParseFrom(values, ReplaceLines(ls, key, v).value) ==
      if Count(ls, key) == 1 then ParseFrom(values, ls)[key := JsTrim(v)] else ParseFrom(values, ls)
    decreases |ls|
  {
    var l, tail := ls[0], ls[1..];
    assert l in ls;
    assert ls == [l] + tail;
    if Defines(l, key) {
      EditFirst(values, l, tail, key, v);
    } else {
      ParseStep(values, l, tail);
      ParseStep(values, l, ReplaceLines(tail, key, v).value);
      EditParsed(Override(values, l), tail, key, v);
    }
  }

  lemma ParseStep(values: map<string, string>, l: string, tail: seq<string>)
    ensures ParseFrom(values, [l] + tail) == ParseFrom(Override(values, l), tail)
  {
    assert ([l] + tail)[1..] == tail;
  }

  lemma OverrideIs(values: map<string, string>, l: string, key: string, v: string)
    requires Defines(l, key) && ValueOf(l) == v && key != PROTO
    ensures Override(values, l) == values[key := v]
  {
  }

  lemma OverrideOfEdit(values: map<string, string>, l: string, key: string, v: string)
    requires LineOk(l) && Defines(l, key) && IsText(v) && key != PROTO
    ensures Override(values, SetValue(l, v)) == values[key := JsTrim(v)]
    ensures Override(values, l) == values[key := ValueOf(l)]
  {
    DefinesIsComplete(l, key);
    SetValueReadsBack(l, v);
    SetValueMatches(l, v, SetValue(l, v));
    OverrideIs(values, SetValue(l, v), key, JsTrim(v));
    OverrideIs(values, l, key, ValueOf(l));
  }

  lemma {:induction false} ParseSnoc(values: map<string, string>, ls: seq<string>, l: string)
    ensures ParseFrom(values, ls + [l]) == Override(ParseFrom(values, ls), l)
    decreases |ls|
  {
    if ls == [] {
      assert ls + [l] == [l];
    } else {
      ParseSnoc(Override(values, ls[0]), ls[1..], l);
      assert (ls + [l])[1..] == ls[1..] + [l];
    }
  }

  // ----- the laws for texts taken as they are -----

  /** The lines once a text is put. */
  function PutLines(ls: seq<string>, key: string, v: string): seq<string> {
    match ReplaceLines(ls, key, v)
    case Some(rs) => rs
    case None => ls + [NewLine(key, v)]
  }

  lemma LinesAreOk(content: string)
    requires WellFormed(content)
    ensures AllOk(Lines(content))
  {
    LinesAreOneLiners(content);
  }

  lemma {:induction false} UnlinesSnoc(ls: seq<string>, l: string)
    requires ls != []
    ensures Unlines(ls + [l]) == Unlines(ls) + "\n" + l
  {
    if |ls| == 1 {
      assert (ls + [l])[1..] == [l];
    } else {
      UnlinesSnoc(ls[1..], l);
      assert (ls + [l])[1..] == ls[1..] + [l];
      assert ls[0] + "\n" + (Unlines(ls[1..]) + "\n" + l) == ls[0] + "\n" + Unlines(ls[1..]) + "\n" + l;
    }
  }

  /** On well-formed content a change edits whole lines, and keeps it well-formed. */
  lemma PutEditsLines(content: string, key: string, v: string)
    requires WellFormed(content) && IsKey(key) && IsText(v)
    ensures Lines(Put(content, key, v)) == PutLines(Lines(content), key, v)
    ensures WellFormed(Put(content, key, v))
  {
    var ls := Lines(content);
    var rs := PutLines(ls, key, v);
    LinesAreOk(content);
    UnlinesOfLines(content);
    NoneToReplace(ls, key, v);
    if Count(ls, key) > 0 {
      SearchEditsLines(ls, key, v);
      EditAgain(ls, key, v, v);
    } else {
      SearchFindsNothing(ls, key);
      PutAtEnd(content, key, v);
      UnlinesSnoc(ls, NewLine(key, v));
      NewLineIsOk(key, v, NewLine(key, v));
    }
    assert OneLiners(rs);
    LinesOfUnlines(rs);
  }

  /** What is read after a text is put: it, unless an earlier one of several
      definitions was edited, which leaves every value as it was. */
  lemma ParseOfPut(content: string, key: string, v: string)
    requires WellFormed(content) && IsKey(key) && IsText(v) && key != PROTO
    ensures Parse(Put(content, key, v)) ==
      if Count(Lines(content), key) <= 1 then Parse(content)[key := JsTrim(v)] else Parse(content)
  {
    var ls := Lines(content);
    LinesAreOk(content);
    PutEditsLines(content, key, v);
    NoneToReplace(ls, key, v);
    if ReplaceLines(ls, key, v).Some? {
      EditParsed(map[], ls, key, v);
    } else {
      NewLineIsOk(key, v, NewLine(key, v));
      ParseSnoc(map[], ls, NewLine(key, v));
    }
  }

  lemma {:induction false} TrimIsTrimmed(s: string)
    requires !JsBlank(s)
    ensures Trimmed(JsTrim(s)) && forall c <- JsTrim(s) :: c in s
    decreases |s|
  {
    if IsJsSpace(s[0]) {
      assert s == [s[0]] + s[1..];
      TrimIsTrimmed(s[1..]);
    } else if IsJsSpace(s[|s| - 1]) {
      assert s == s[..|s| - 1] + [s[|s| - 1]];
      TrimIsTrimmed(s[..|s| - 1]);
    }
  }

  lemma ValueOfIsValue(l: string)
    requires Complete(l)
    ensures IsValue(ValueOf(l)) && IsKey(Key(l))
  {
    var m := Match(l).value;
    var raw := l[m.valStart..m.valEnd];
    ShapeOfComplete(l, l);
    assert raw[0] == l[m.valStart] && raw[0] in raw;
    TrimIsTrimmed(raw);
    assert forall k :: m.valStart <= k < m.valEnd ==> !IsEol(l[k]);
  }

  ghost predicate Writable(values: map<string, string>) {
    forall k <- values :: IsKey(k) && IsValue(values[k])
  }

  lemma {:induction false} ReadIsWritable(values: map<string, string>, ls: seq<string>)
    requires Writable(values) && AllOk(ls)
    ensures Writable(ParseFrom(values, ls))
    decreases |ls|
  {
    if ls != [] {
      var l := ls[0];
      assert l in ls;
      if Match(l).Some? {
        DefinesIsComplete(l, Key(l));
        ValueOfIsValue(l);
      }
      ReadIsWritable(Override(values, l), ls[1..]);
    }
  }
}
