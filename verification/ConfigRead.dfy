/** What the config.mk parser reads, said on the characters of the text:
    frontend/src/components/ConfigEditor/ConfigEditor.tsx, `parseParamValues`. */
module ConfigRead {
  import opened Wrappers
  import opened JsText
  import opened MultiLine
  import opened ConfigPattern
  import opened ConfigMk

  /** White space, wherever the pattern has `\s*`. */
  datatype Gaps = Gaps(afterExport: string, afterKey: string, afterEq: string)

  /** A definition up to its value. */
  function LeadText(g: Gaps, key: string): string {
    EXPORT + g.afterExport + key + g.afterKey + "="
  }

  predicate AreGaps(g: Gaps) {
    g.afterExport != "" && JsBlank(g.afterExport) && JsBlank(g.afterKey) && JsBlank(g.afterEq)
  }

  /** A definition whose value is `v`, with blanks after it on its line; what
      follows a line terminator is not part of the value. */
  predicate IsDefinition(line: string, g: Gaps, key: string, v: string, blanks: string, rest: string) {
    && line == LeadText(g, key) + g.afterEq + (v + blanks) + rest
    && AreGaps(g) && IsKey(key)
    && Trimmed(v) && (forall c <- v :: !IsEol(c))
    && (forall c <- blanks :: IsJsSpace(c) && !IsEol(c))
    && (rest == "" || IsEol(rest[0]))
  }

  /** The text of a lead, part by part. */
  lemma LeadParts(t: string, e: string, ws: string, key: string, gap: string, tail: string)
    requires t == e + ws + key + gap + "=" + tail
    ensures var b := |e| + |ws|; var c := b + |key|; var d := c + |gap|;
      && d < |t| && t[..|e|] == e && t[b..c] == key && t[d] == '='
      && (forall k :: |e| <= k < b ==> t[k] == ws[k - |e|])
      && (forall k :: b <= k < c ==> t[k] == key[k - b])
      && (forall k :: c <= k < d ==> t[k] == gap[k - c])
  {
  }

  lemma LeadShape(g: Gaps, key: string, tail: string)
    requires AreGaps(g) && IsKey(key)
    ensures var b := |EXPORT| + |g.afterExport|; var c := b + |key|; var d := c + |g.afterKey|;
      Shape(LeadText(g, key) + tail, b, c, d) && (LeadText(g, key) + tail)[b..c] == key && |LeadText(g, key)| == d + 1
  {
    var t := LeadText(g, key) + tail;
    var b := |EXPORT| + |g.afterExport|;
    var c := b + |key|;
    var d := c + |g.afterKey|;
    LeadParts(t, EXPORT, g.afterExport, key, g.afterKey, tail);
    WordIsNoSpace(t[b]);
    SpaceStops(t, |EXPORT|, b);
    if c < d { SpaceIsNoWord(t[c]); }
    WordStops(t, b, c);
    SpaceStops(t, c, d);
  }

  lemma WordIsNoSpace(c: char)
    requires IsWord(c)
    ensures !IsJsSpace(c)
  {
  }

  lemma SpaceIsNoWord(c: char)
    requires IsJsSpace(c)
    ensures !IsWord(c)
  {
  }

  lemma BlanksStayText(v: string, blanks: string)
    requires Trimmed(v) && (forall c <- v :: !IsEol(c)) && (forall c <- blanks :: !IsEol(c))
    ensures IsText(v + blanks)
  {
    assert (v + blanks)[0] == v[0];
  }

  /** Where the value of a definition starts and ends. */
  lemma ValuePlace(t: string, lead: string, gap: string, text: string, rest: string)
    requires t == lead + gap + text + rest && JsBlank(gap) && IsText(text) && (rest == "" || IsEol(rest[0]))
    ensures var q := |lead| + |gap|;
      q < |t| && SkipSpace(t, |lead|) == q && SkipRest(t, q) == q + |text| && t[q..q + |text|] == text
  {
    var head := lead + gap;
    assert forall k :: |lead| <= k < |head| ==> head[k] == gap[k - |lead|];
    ValueStops(head, text, rest, |lead|);
  }

  lemma LeadAndValueMatch(t: string, lead: string, gap: string, text: string, rest: string, m: Found)
    requires t == lead + gap + text + rest && JsBlank(gap) && IsText(text) && (rest == "" || IsEol(rest[0]))
    requires Shape(t, m.keyStart, m.keyEnd, m.eq) && |lead| == m.eq + 1
    requires m.valStart == |lead| + |gap| && m.valEnd == m.valStart + |text|
    ensures Match(t) == Some(m) && t[m.valStart..m.valEnd] == text
  {
    ValuePlace(t, lead, gap, text, rest);
    MatchFromShape(t, m);
  }

  lemma FourParts(a: string, b: string, c: string, d: string)
    ensures a + b + c + d == a + (b + c + d)
  {
  }

  lemma DefinitionMatches(line: string, g: Gaps, key: string, v: string, blanks: string, rest: string)
    requires IsDefinition(line, g, key, v, blanks, rest)
    ensures Defines(line, key) && ValueOf(line) == v
  {
    var lead, gap, text := LeadText(g, key), g.afterEq, v + blanks;
    var b, q := |EXPORT| + |g.afterExport|, |lead| + |gap|;
    var c := b + |key|;
    FourParts(lead, gap, text, rest);
    LeadShape(g, key, gap + text + rest);
    BlanksStayText(v, blanks);
    LeadAndValueMatch(line, lead, gap, text, rest, Found(b, c, c + |g.afterKey|, q, q + |text|));
    JsTrimEnd(v, blanks);
  }

  lemma {:induction false} KeepsValue(values: map<string, string>, ls: seq<string>, key: string)
    requires key in values && forall l <- ls :: !Defines(l, key)
    ensures key in ParseFrom(values, ls) && ParseFrom(values, ls)[key] == values[key]
    decreases |ls|
  {
    if ls != [] {
      assert ls[0] in ls;
      KeepsValue(Override(values, ls[0]), ls[1..], key);
    }
  }

  lemma {:induction false} ParseAppend(values: map<string, string>, a: seq<string>, b: seq<string>)
    ensures ParseFrom(values, a + b) == ParseFrom(ParseFrom(values, a), b)
    decreases |a|
  {
    if a == [] {
      assert a + b == b;
    } else {
      assert (a + b)[1..] == a[1..] + b && (a + b)[0] == a[0];
      ParseAppend(Override(values, a[0]), a[1..], b);
    }
  }

  /** The parser reads `v` from every one-line definition of a key that no later line
      defines, whatever white space surrounds it and whatever the other lines are. */
  lemma DefinitionIsRead(before: seq<string>, line: string, after: seq<string>, g: Gaps, key: string, v: string,
                         blanks: string, rest: string)
    requires IsDefinition(line, g, key, v, blanks, rest) && key != PROTO
    requires OneLiners(before + [line] + after) && forall l <- after :: !Defines(l, key)
    ensures var values := Parse(Unlines(before + [line] + after)); key in values && values[key] == v
  {
    LinesOfUnlines(before + [line] + after);
    DefinitionMatches(line, g, key, v, blanks, rest);
    ParseAppend(map[], before + [line], after);
    ParseSnoc(map[], before, line);
    KeepsValue(ParseFrom(map[], before + [line]), after, key);
  }

  lemma OverrideKeys(values: map<string, string>, l: string, key: string)
    ensures key in Override(values, l) <==> key in values || (key != PROTO && Defines(l, key))
  {
  }

  lemma {:induction false} ReadKeys(values: map<string, string>, ls: seq<string>, key: string)
    ensures key in ParseFrom(values, ls) <==> key in values || (key != PROTO && exists l <- ls :: Defines(l, key))
    decreases |ls|
  {
    if ls != [] {
      OverrideKeys(values, ls[0], key);
      ReadKeys(Override(values, ls[0]), ls[1..], key);
      forall l ensures l in ls <==> l == ls[0] || l in ls[1..] {
        assert ls == [ls[0]] + ls[1..];
      }
      assert ls[0] in ls;
    }
  }

  /** A key has a value exactly when some line defines it, and it is not the one key
      that a JavaScript object does not store. */
  lemma OnlyDefinitionsAreRead(content: string, key: string)
    ensures key in Parse(content) <==> key != PROTO && exists l <- Lines(content) :: Defines(l, key)
  {
    ReadKeys(map[], Lines(content), key);
  }
}
