/** The lens laws of the config.mk editor: what its parser reads after a change.
    A change expands `$` references in the value when it edits a definition and
    not when it appends one. */
module ConfigLaws {
  import opened Wrappers
  import opened JsText
  import opened MultiLine
  import opened ConfigPattern
  import opened Replacement
  import opened ConfigMk

  /** How many lines define the key. */
  function Definitions(content: string, key: string): nat { Count(Lines(content), key) }

  /** The text the first definition gives as value, white space at its end
      included. */
  function RawValue(content: string, key: string): string
    requires Locate(content, true, Defining(key)).Some?
  {
    LocateDefines(content, true, key);
    GroupsAt(content, Locate(content, true, Defining(key)).value).second
  }

  // ----- where a change happens -----

  /** Content cut at its first definition of the key. */
  lemma CutContent(content: string, key: string) returns (before: seq<string>, l: string, tail: string)
    requires WellFormed(content) && Definitions(content, key) > 0
    ensures content == Terminated(before) + (l + tail)
    ensures AllOk(before) && Count(before, key) == 0 && LineOk(l) && Defines(l, key) && '\n' !in l
    ensures tail == "" || IsEol(tail[0])
  {
    var ls, after := Lines(content), [];
    LinesAreOk(content);
    UnlinesOfLines(content);
    before, l, after := FirstDefinition(ls, key);
    SplitIsOk(before, l, after);
    UnlinesSplit(before, l, after);
    tail := Following(after);
  }

  lemma NothingToEdit(content: string, key: string)
    requires WellFormed(content) && Definitions(content, key) == 0
    ensures Locate(content, true, Defining(key)) == None
  {
    LinesAreOk(content);
    UnlinesOfLines(content);
    SearchFindsNothing(Lines(content), key);
    PutAtEnd(content, key, "");
  }

  lemma GroupsOfCut(before: string, l: string, tail: string, key: string)
    requires LineOk(l) && Defines(l, key) && (tail == "" || IsEol(tail[0]))
    ensures Match(l + tail) == Match(l) && (before + (l + tail))[|before|..] == l + tail
    ensures var m := Match(l).value;
      GroupsAt(before + (l + tail), |before|) ==
        Groups(before, l[m.valEnd..] + tail, l[..m.valStart], l[m.valStart..m.valEnd])
  {
    StillDefines(l, tail, key);
    var c := before + (l + tail);
    assert c[|before|..] == l + tail && c[..|before|] == before;
    PartsOfLonger(l, tail, Match(l).value);
  }

  lemma PartsOfLonger(l: string, tail: string, m: Found)
    requires m.valStart <= m.valEnd <= |l|
    ensures (l + tail)[m.valEnd..] == l[m.valEnd..] + tail
    ensures (l + tail)[..m.valStart] == l[..m.valStart]
    ensures (l + tail)[m.valStart..m.valEnd] == l[m.valStart..m.valEnd]
  {
  }

  /** Putting a value moves no group but the value itself. */
  lemma GroupsAfterPut(content: string, key: string, v: string)
    requires WellFormed(content) && IsText(v) && Definitions(content, key) > 0
    ensures var p := Locate(content, true, Defining(key));
      && p.Some? && Match(content[p.value..]).Some?
      && Locate(Put(content, key, v), true, Defining(key)) == p
      && p.value <= |Put(content, key, v)| && Match(Put(content, key, v)[p.value..]).Some?
      && GroupsAt(Put(content, key, v), p.value) == GroupsAt(content, p.value).(second := v)
  {
    var before, l, tail := CutContent(content, key);
    var b, e := Terminated(before), SetValue(l, v);
    PutInSplit(before, l, tail, key, v);
    GroupsOfCut(b, l, tail, key);
    EditedLineIsOk(l, key, v);
    PutInSplit(before, e, tail, key, v);
    GroupsOfCut(b, e, tail, key);
    EditedGroups(l, key, v);
  }

  lemma EditedGroups(l: string, key: string, v: string)
    requires LineOk(l) && Defines(l, key) && IsText(v) && Match(SetValue(l, v)).Some?
    ensures var m, e, n := Match(l).value, SetValue(l, v), Match(SetValue(l, v)).value;
      e[n.valEnd..] == l[m.valEnd..] && e[..n.valStart] == l[..m.valStart] && e[n.valStart..n.valEnd] == v
  {
    DefinesIsComplete(l, key);
    SetValueMatches(l, v, SetValue(l, v));
  }

  // ----- putting twice -----

  /** The second of two texts put is what counts. */
  lemma PutTwice(content: string, key: string, v: string, x: string)
    requires WellFormed(content) && IsKey(key) && IsText(v)
    ensures Put(Put(content, key, v), key, x) == Put(content, key, x)
  {
    if Definitions(content, key) > 0 {
      var before, l, tail := CutContent(content, key);
      DefinesIsComplete(l, key);
      EditedLineIsOk(l, key, v);
      SetValueTwice(l, v, x);
      PutInSplit(before, l, tail, key, v);
      PutInSplit(before, l, tail, key, x);
      PutInSplit(before, SetValue(l, v), tail, key, x);
    } else {
      NothingToEdit(content, key);
      PutInNewLine(content, key, v, x);
    }
  }

  /** Putting after the key was appended edits the new line. */
  lemma PutInNewLine(content: string, key: string, v: string, x: string)
    requires WellFormed(content) && IsKey(key) && IsText(v) && Definitions(content, key) == 0
    ensures Put(content + "\n" + NewLine(key, v), key, x) == content + "\n" + NewLine(key, x)
  {
    var ls, n := Lines(content), NewLine(key, v);
    LinesAreOk(content);
    UnlinesOfLines(content);
    NewLineIsOk(key, v, n);
    NewLineIsSet(key, v, x);
    PutInSplit(ls, n, "", key, x);
    TerminatedIs(ls);
    assert n + "" == n && SetValue(n, x) + "" == NewLine(key, x);
  }

  lemma {:induction false} TerminatedIs(ls: seq<string>)
    requires ls != []
    ensures Terminated(ls) == Unlines(ls) + "\n"
    decreases |ls|
  {
    if |ls| == 1 {
      assert ls[1..] == [] && ls[0] + ("\n" + "") == ls[0] + "\n";
    } else {
      TerminatedIs(ls[1..]);
      assert ls[0] + ("\n" + (Unlines(ls[1..]) + "\n")) == ls[0] + "\n" + Unlines(ls[1..]) + "\n";
    }
  }

  /** Different texts put differ. */
  lemma PutInjective(content: string, key: string, x: string, y: string)
    ensures Put(content, key, x) == Put(content, key, y) <==> x == y
  {
    var p := Locate(content, true, Defining(key));
    LocateDefines(content, true, key);
    if p.Some? {
      var g := GroupsAt(content, p.value);
      PutIsGroups(content, key, x);
      PutIsGroups(content, key, y);
      SameMiddle(g.before + g.first, x, y, g.after);
    } else {
      SameMiddle(content + "\n" + (EXPORT + " " + key + " = "), x, y, "");
      NewLineEnds(content, key, x);
      NewLineEnds(content, key, y);
    }
  }

  lemma PutIsGroups(content: string, key: string, x: string)
    requires Locate(content, true, Defining(key)).Some?
    ensures (LocateDefines(content, true, key);
      var g := GroupsAt(content, Locate(content, true, Defining(key)).value);
      Put(content, key, x) == (g.before + g.first) + x + g.after)
  {
    LocateDefines(content, true, key);
    var g := GroupsAt(content, Locate(content, true, Defining(key)).value);
    assert g.before + (g.first + x + g.after) == (g.before + g.first) + x + g.after;
  }

  lemma NewLineEnds(content: string, key: string, x: string)
    ensures content + "\n" + NewLine(key, x) == (content + "\n" + (EXPORT + " " + key + " = ")) + x + ""
  {
  }

  lemma SameMiddle(a: string, x: string, y: string, b: string)
    ensures a + x + b == a + y + b <==> x == y
  {
    if a + x + b == a + y + b {
      assert |a + x + b| == |a + y + b|;
      assert x == (a + x + b)[|a|..|a| + |x|] && y == (a + y + b)[|a|..|a| + |y|];
    }
  }

  /** Two changes end as the second alone exactly when it writes the same text
      with and without the first. */
  lemma PutPutWritten(content: string, key: string, v: string, w: string)
    requires WellFormed(content) && IsKey(key) && IsText(Written(content, key, v))
    ensures Apply(Apply(content, key, v), key, w) == Apply(content, key, w) <==>
      Written(Apply(content, key, v), key, w) == Written(content, key, w)
  {
    var u, x, y := Written(content, key, v), Written(Apply(content, key, v), key, w), Written(content, key, w);
    ApplyIsPut(content, key, v);
    ApplyIsPut(Apply(content, key, v), key, w);
    ApplyIsPut(content, key, w);
    PutTwice(content, key, u, x);
    PutInjective(content, key, x, y);
  }

  // ----- what is written -----

  /** `$$` alone collapses, whatever the content. */
  lemma WrittenDoubles(content: string, key: string, v: string)
    requires WellFormed(content) && OnlyDoubles(v)
    ensures Written(content, key, v) == if Definitions(content, key) == 0 then v else Collapse(v)
  {
    if Definitions(content, key) == 0 {
      NothingToEdit(content, key);
    } else {
      var before, l, tail := CutContent(content, key);
      PutInSplit(before, l, tail, key, "");
      LocateDefines(content, true, key);
      DoublesCollapse(v, GroupsAt(content, Locate(content, true, Defining(key)).value));
    }
  }

  lemma CollapseIsValue(v: string)
    requires IsValue(v) && OnlyDoubles(v)
    ensures IsValue(Collapse(v)) && JsTrim(Collapse(v)) == Collapse(v) && (Collapse(v) == v <==> Plain(v))
  {
    CollapseKeepsEnds(v);
    CollapseShrinks(v);
    if Plain(v) { PlainIsLiteral(v, NOTHING); }
  }

  lemma PartOf(s: string, i: nat, j: nat)
    requires i <= j <= |s| && '$' !in s
    ensures '$' !in s[i..j] && '$' !in s[..i] && '$' !in s[j..]
  {
  }

  lemma GroupsAreParts(content: string, p: nat)
    requires p <= |content| && Match(content[p..]).Some? && '$' !in content
    ensures Dollarless(GroupsAt(content, p))
  {
    var s, m := content[p..], Match(content[p..]).value;
    PartOf(content, p, p);
    PartOf(s, m.valStart, m.valEnd);
  }

  // ----- PutPut -----

  /** What the second change to a new key can refer to. */
  function AppendedGroups(content: string, key: string, v: string): Groups {
    Groups(content + "\n", "", EXPORT + " " + key + " = ", v)
  }

  /** Writing twice. When the key is defined, and the first value is written as one
      line of text, `w` must not insert the value it replaces, or must find it
      unchanged; when the key is new, `w` is expanded once and not the other time,
      so it must expand to itself, which in content without `$` means to hold no
      reference. */
  lemma PutPut(content: string, key: string, v: string, w: string)
    requires WellFormed(content) && IsKey(key)
    ensures Definitions(content, key) > 0 ==> Locate(content, true, Defining(key)).Some?
    ensures var law := Apply(Apply(content, key, v), key, w) == Apply(content, key, w);
      && (Definitions(content, key) > 0 && IsText(Written(content, key, v)) ==>
            (law <==> Uses(w) == 0 || RawValue(content, key) == Written(content, key, v)))
      && (Definitions(content, key) == 0 && IsText(v) ==> (law <==> Expand(w, AppendedGroups(content, key, v)) == w))
      && (Definitions(content, key) == 0 && IsText(v) && '$' !in content && '$' !in v ==> (law <==> Plain(w)))
  {
    if Definitions(content, key) > 0 {
      IsLocated(content, key);
      if IsText(Written(content, key, v)) { PutPutDefined(content, key, v, w); }
    } else if IsText(v) {
      PutPutNew(content, key, v, w);
    }
  }

  lemma IsLocated(content: string, key: string)
    requires WellFormed(content) && Definitions(content, key) > 0
    ensures Locate(content, true, Defining(key)).Some?
  {
    var before, l, tail := CutContent(content, key);
    PutInSplit(before, l, tail, key, "");
  }

  lemma PutPutDefined(content: string, key: string, v: string, w: string)
    requires WellFormed(content) && IsKey(key) && Definitions(content, key) > 0 && IsText(Written(content, key, v))
    requires Locate(content, true, Defining(key)).Some?
    ensures Apply(Apply(content, key, v), key, w) == Apply(content, key, w) <==>
      Uses(w) == 0 || RawValue(content, key) == Written(content, key, v)
  {
    var u := Written(content, key, v);
    PutPutWritten(content, key, v, w);
    ApplyIsPut(content, key, v);
    GroupsAfterPut(content, key, u);
    SecondMatters(w, GroupsAt(content, Locate(content, true, Defining(key)).value), u);
  }

  lemma PutPutNew(content: string, key: string, v: string, w: string)
    requires WellFormed(content) && IsKey(key) && IsText(v) && Definitions(content, key) == 0
    ensures var law := Apply(Apply(content, key, v), key, w) == Apply(content, key, w);
      && (law <==> Expand(w, AppendedGroups(content, key, v)) == w)
      && ('$' !in content && '$' !in v ==> (law <==> Plain(w)))
  {
    NothingToEdit(content, key);
    PutPutWritten(content, key, v, w);
    FindNewLine(content, key, v);
    var g := AppendedGroups(content, key, v);
    if Plain(w) { PlainIsLiteral(w, g); }
    if '$' !in content && '$' !in v {
      NewLineHasNoDollar(content, key, v);
      ExpandLosesDollars(w, g);
    }
  }

  lemma NewLineParts(key: string, v: string)
    requires IsKey(key) && IsText(v)
    ensures LineOk(NewLine(key, v)) && Defines(NewLine(key, v), key)
    ensures var n, m := NewLine(key, v), Match(NewLine(key, v)).value;
      n[m.valEnd..] == "" && n[..m.valStart] == EXPORT + " " + key + " = " && n[m.valStart..m.valEnd] == v
  {
    NewLineIsOk(key, v, NewLine(key, v));
    NewLineMatches(key, v, NewLine(key, v));
  }

  lemma FindNewLine(content: string, key: string, v: string)
    requires WellFormed(content) && IsKey(key) && IsText(v) && Definitions(content, key) == 0
    ensures var c, p := content + "\n" + NewLine(key, v), |content| + 1;
      && Locate(c, true, Defining(key)) == Some(p) && p <= |c| && Match(c[p..]).Some?
      && GroupsAt(c, p) == AppendedGroups(content, key, v)
  {
    var ls, n := Lines(content), NewLine(key, v);
    LinesAreOk(content);
    UnlinesOfLines(content);
    NewLineParts(key, v);
    PutInSplit(ls, n, "", key, v);
    GroupsOfCut(Terminated(ls), n, "", key);
    TerminatedIs(ls);
    assert n + "" == n && "" + "" == "";
  }

  lemma NewLineHasNoDollar(content: string, key: string, v: string)
    requires '$' !in content && '$' !in v && IsKey(key)
    ensures Dollarless(AppendedGroups(content, key, v))
  {
    assert !IsWord('$');
    assert '$' !in EXPORT && '$' !in " " && '$' !in " = " && '$' !in "\n" && '$' !in key;
  }

  // ----- PutGet -----

  ghost predicate GetsWhatWasPut(content: string, key: string, v: string) {
    Parse(Apply(content, key, v)) == Parse(content)[key := v]
  }

  predicate HasValue(content: string, key: string, v: string) {
    key in Parse(content) && Parse(content)[key] == v
  }

  lemma {:induction false} NeverProto(values: map<string, string>, ls: seq<string>)
    requires PROTO !in values
    ensures PROTO !in ParseFrom(values, ls)
    decreases |ls|
  {
    if ls != [] { NeverProto(Override(values, ls[0]), ls[1..]); }
  }

  lemma UpdateIsSame(values: map<string, string>, key: string, v: string)
    ensures values[key := v] == values <==> key in values && values[key] == v
  {
    assert key in values[key := v];
  }

  lemma UpdatesDiffer(values: map<string, string>, key: string, v: string, w: string)
    ensures values[key := v] == values[key := w] <==> v == w
  {
    assert values[key := v][key] == v && values[key := w][key] == w;
  }

  /** Reading after writing gives the old values with the new one, other keys
      untouched. When the value is written as one line of text: exactly when the
      key is new or defined once and what is written trims to the value, or it is
      defined more often and reads as the value already (the first definition is
      edited, the last is read). A trimmed value whose references are all `$$` is
      written as it is exactly if it holds none or the key is new. In content
      without `$` no value with a reference is ever read back. Never for
      `__proto__`. */
  lemma PutGet(content: string, key: string, v: string)
    requires WellFormed(content) && IsKey(key)
    ensures var n, law, u := Definitions(content, key), GetsWhatWasPut(content, key, v), Written(content, key, v);
      && (IsText(u) ==> (law <==>
            key != PROTO && ((n <= 1 && JsTrim(u) == v) || (n > 1 && HasValue(content, key, v)))))
      && (IsValue(v) && OnlyDoubles(v) ==> (law <==>
            key != PROTO && (n == 0 || (n == 1 && Plain(v)) || (n > 1 && HasValue(content, key, v)))))
      && (IsValue(v) && '$' !in content ==> (law <==>
            key != PROTO && (n == 0 || (Plain(v) && (n == 1 || HasValue(content, key, v))))))
  {
    if key == PROTO {
      NeverProto(map[], Lines(Apply(content, key, v)));
    } else {
      if IsText(Written(content, key, v)) { PutGetWritten(content, key, v); }
      if IsValue(v) && OnlyDoubles(v) { PutGetDoubles(content, key, v); }
      if IsValue(v) && '$' !in content { PutGetNoDollar(content, key, v); }
    }
  }

  lemma PutGetWritten(content: string, key: string, v: string)
    requires WellFormed(content) && IsKey(key) && key != PROTO && IsText(Written(content, key, v))
    ensures var n := Definitions(content, key);
      GetsWhatWasPut(content, key, v) <==>
        (n <= 1 && JsTrim(Written(content, key, v)) == v) || (n > 1 && HasValue(content, key, v))
  {
    var u := Written(content, key, v);
    ApplyIsPut(content, key, v);
    ParseOfPut(content, key, u);
    UpdatesDiffer(Parse(content), key, JsTrim(u), v);
    UpdateIsSame(Parse(content), key, v);
  }

  lemma PutGetDoubles(content: string, key: string, v: string)
    requires WellFormed(content) && IsKey(key) && IsValue(v) && key != PROTO && OnlyDoubles(v)
    ensures var n := Definitions(content, key);
      GetsWhatWasPut(content, key, v) <==> n == 0 || (n == 1 && Plain(v)) || (n > 1 && HasValue(content, key, v))
  {
    WrittenDoubles(content, key, v);
    CollapseIsValue(v);
    PutGetWritten(content, key, v);
  }

  lemma PutGetNoDollar(content: string, key: string, v: string)
    requires WellFormed(content) && IsKey(key) && IsValue(v) && key != PROTO && '$' !in content
    ensures var n := Definitions(content, key);
      GetsWhatWasPut(content, key, v) <==> n == 0 || (Plain(v) && (n == 1 || HasValue(content, key, v)))
  {
    if Plain(v) {
      PlainIsOnlyDoubles(v);
      PutGetDoubles(content, key, v);
    } else if Definitions(content, key) == 0 {
      AppendedIsRead(content, key, v);
    } else {
      ReferenceIsNotRead(content, key, v);
    }
  }

  lemma AppendedIsRead(content: string, key: string, v: string)
    requires WellFormed(content) && IsKey(key) && IsValue(v) && key != PROTO && Definitions(content, key) == 0
    ensures GetsWhatWasPut(content, key, v)
  {
    NothingToEdit(content, key);
    ApplyIsPut(content, key, v);
    ParseOfPut(content, key, v);
  }

  lemma ReferenceIsNotRead(content: string, key: string, v: string)
    requires WellFormed(content) && Definitions(content, key) > 0 && '$' !in content && !Plain(v)
    ensures !GetsWhatWasPut(content, key, v)
  {
    ReferenceIsLost(content, key, v);
    DollarsParsed(Apply(content, key, v));
    TooFewDollars(Parse(Apply(content, key, v)), Parse(content), key, v, Dollars(Apply(content, key, v)));
  }

  lemma TooFewDollars(values: map<string, string>, was: map<string, string>, key: string, v: string, n: nat)
    requires AtMost(values, n) && n < Dollars(v)
    ensures values != was[key := v]
  {
    assert was[key := v][key] == v;
  }

  /** In content without `$` a reference leaves the whole text with fewer `$` than
      the value. */
  lemma ReferenceIsLost(content: string, key: string, v: string)
    requires WellFormed(content) && Definitions(content, key) > 0 && '$' !in content && !Plain(v)
    ensures Dollars(Apply(content, key, v)) < Dollars(v)
  {
    var before, l, tail := CutContent(content, key);
    PutInSplit(before, l, tail, key, "");
    LocateDefines(content, true, key);
    var p := Locate(content, true, Defining(key)).value;
    var g := GroupsAt(content, p);
    GroupsAreParts(content, p);
    ExpandLosesDollars(v, g);
    TemplateStart(v, g);
    DollarsAppend(g.before + (g.first + Expand(v, g)), g.after);
    DollarsAppend(g.before, g.first + Expand(v, g));
    DollarsAppend(g.first, Expand(v, g));
    NoDollars(g.before);
    NoDollars(g.first);
    NoDollars(g.after);
  }

  // ----- no value read has more dollars than the text -----

  lemma DollarsOfPart(s: string, i: nat, j: nat)
    requires i <= j <= |s|
    ensures Dollars(s[i..j]) <= Dollars(s)
  {
    DollarsAppend(s[..i], s[i..j]);
    DollarsAppend(s[..i] + s[i..j], s[j..]);
    assert s == s[..i] + s[i..j] + s[j..];
  }

  lemma {:induction false} DollarsOfTrim(s: string)
    ensures Dollars(JsTrim(s)) <= Dollars(s)
    decreases |s|
  {
    if s != "" && IsJsSpace(s[0]) {
      DollarsOfTrim(s[1..]);
    } else if s != "" && IsJsSpace(s[|s| - 1]) {
      DollarsOfTrim(s[..|s| - 1]);
      DollarsOfPart(s, 0, |s| - 1);
    }
  }

  ghost predicate AtMost(values: map<string, string>, n: nat) {
    forall k <- values :: Dollars(values[k]) <= n
  }

  lemma {:induction false} DollarsOfValues(values: map<string, string>, ls: seq<string>, n: nat)
    requires AtMost(values, n) && forall l <- ls :: Dollars(l) <= n
    ensures AtMost(ParseFrom(values, ls), n)
    decreases |ls|
  {
    if ls != [] {
      var l := ls[0];
      assert l in ls;
      if Match(l).Some? {
        var m := Match(l).value;
        DollarsOfPart(l, m.valStart, m.valEnd);
        DollarsOfTrim(l[m.valStart..m.valEnd]);
      }
      DollarsOfValues(Override(values, l), ls[1..], n);
    }
  }

  lemma {:induction false} DollarsOfLines(ls: seq<string>)
    requires ls != []
    ensures forall l <- ls :: Dollars(l) <= Dollars(Unlines(ls))
    decreases |ls|
  {
    if |ls| > 1 {
      DollarsOfLines(ls[1..]);
      DollarsAppend(ls[0] + "\n", Unlines(ls[1..]));
      DollarsAppend(ls[0], "\n");
      assert ls == [ls[0]] + ls[1..];
    }
  }

  lemma DollarsParsed(text: string)
    ensures AtMost(Parse(text), Dollars(text))
  {
    UnlinesOfLines(text);
    DollarsOfLines(Lines(text));
    DollarsOfValues(map[], Lines(text), Dollars(text));
  }

  // ----- GetPut -----

  /** Writing back the value read changes no value: when it is written as one line of
      text, exactly when that trims to the value, or the definition edited is not
      the one read. A value whose references are all `$$` is written as it is exactly if it
      holds none. */
  lemma GetPut(content: string, key: string)
    requires WellFormed(content) && key in Parse(content)
    ensures var v := Parse(content)[key];
      var law := Parse(Apply(content, key, v)) == Parse(content);
      && (IsText(Written(content, key, v)) ==> (law <==> JsTrim(Written(content, key, v)) == v || Definitions(content, key) > 1))
      && (OnlyDoubles(v) ==> (law <==> Plain(v) || Definitions(content, key) > 1))
  {
    var v := Parse(content)[key];
    LinesAreOk(content);
    ReadIsWritable(map[], Lines(content));
    NeverProto(map[], Lines(content));
    ReadIsDefined(map[], Lines(content), key);
    UpdateIsSame(Parse(content), key, v);
    if IsText(Written(content, key, v)) { PutGetWritten(content, key, v); }
    if OnlyDoubles(v) { PutGetDoubles(content, key, v); }
  }

  lemma {:induction false} ReadIsDefined(values: map<string, string>, ls: seq<string>, key: string)
    requires key !in values && key in ParseFrom(values, ls)
    ensures Count(ls, key) > 0
    decreases |ls|
  {
    if !Defines(ls[0], key) { ReadIsDefined(Override(values, ls[0]), ls[1..], key); }
  }

  lemma ExpandDoubleDollar(g: Groups)
    ensures Expand("a$$b", g) == "a$b"
  {
    assert "a$$b"[1..] == "$$b" && "$$b"[2..] == "b" && "b"[1..] == "";
    assert Expand("b", g) == "b" && Expand("$$b", g) == "$b";
  }

  /** Writing `a$$b` back to where it was read writes `a$b`. */
  lemma DoubleDollarIsHalved(key: string)
    requires IsKey(key)
    ensures Apply(NewLine(key, "a$$b"), key, "a$$b") == NewLine(key, "a$b")
  {
    var n := NewLine(key, "a$$b");
    NewLineIsSet(key, "a$$b", "a$b");
    LocateHere(n, Defining(key));
    assert n[0..] == n && n[..0] == "";
    ExpandDoubleDollar(GroupsAt(n, 0));
    ApplyIsPut(n, key, "a$$b");
    Empty(SetValue(n, "a$b"));
  }

  lemma Empty(s: string)
    ensures "" + s == s
  {
  }
}
