/** JavaScript strings: white space and splitting at newlines. */
module JsText {
  import opened Text

  /** What JavaScript's `String.prototype.trim` removes. */
  predicate IsJsSpace(c: char) {
    || c in " \t\n\r" || '\U{b}' <= c <= '\U{c}'
    || c in ['\U{a0}', '\U{1680}', '\U{2028}', '\U{2029}', '\U{202f}', '\U{205f}', '\U{3000}', '\U{feff}']
    || '\U{2000}' <= c <= '\U{200a}'
  }

  predicate JsBlank(s: string) {
    forall c <- s :: IsJsSpace(c)
  }

  function Last<T>(s: seq<T>): T requires s != [] { s[|s| - 1] }
  function Init<T>(s: seq<T>): seq<T> requires s != [] { s[..|s| - 1] }

  /** The lines once one more character is read. */
  function Extend(ls: seq<string>, c: char): (r: seq<string>)
    requires ls != []
    ensures r != []
  {
    if c == '\n' then ls + [""] else Init(ls) + [Last(ls) + [c]]
  }

  /** text.split("\n") */
  function Lines(text: string): (ls: seq<string>)
    ensures ls != []
  {
    if text == "" then [""] else Extend(Lines(Init(text)), Last(text))
  }

  lemma {:induction false} LinesOfOne(line: string)
    requires '\n' !in line
    ensures Lines(line) == [line]
  {
    if line != "" {
      LinesOfOne(Init(line));
      assert Init(line) + [Last(line)] == line;
    }
  }

  lemma {:induction false} LastLineIsOpen(text: string)
    ensures '\n' !in Last(Lines(text))
  {
    if text != "" { LastLineIsOpen(Init(text)); }
  }

  lemma ExtendLast(done: seq<string>, ls: seq<string>, c: char)
    requires ls != []
    ensures Extend(done + ls, c) == done + Extend(ls, c)
  {
    assert Init(done + ls) == done + Init(ls);
  }

  /** Splitting a longer text only changes the last line of the split so far. */
  lemma {:induction false} LinesAppend(a: string, b: string)
    ensures Lines(a + b) == Init(Lines(a)) + Lines(Last(Lines(a)) + b)
  {
    var done, open := Init(Lines(a)), Last(Lines(a));
    if b == "" {
      LastLineIsOpen(a);
      LinesOfOne(open);
      assert a + b == a && open + b == open;
    } else {
      var init, c := Init(b), Last(b);
      LinesAppend(a, init);
      assert b == init + [c];
      LinesSnoc(a, init, c);
      LinesSnoc(open, init, c);
      ExtendLast(done, Lines(open + init), c);
    }
  }

  lemma LinesSnoc(a: string, b: string, c: char)
    ensures Lines(a + (b + [c])) == Extend(Lines(a + b), c)
  {
    assert Init(a + (b + [c])) == a + b;
  }

  /** `String.prototype.trim` */
  function JsTrim(s: string): string {
    if s != "" && IsJsSpace(s[0]) then JsTrim(s[1..])
    else if s != "" && IsJsSpace(s[|s| - 1]) then JsTrim(s[..|s| - 1])
    else s
  }

  /** Non-empty, with nothing to trim. */
  predicate Trimmed(s: string) {
    s != "" && !IsJsSpace(s[0]) && !IsJsSpace(s[|s| - 1])
  }

  /** Only white space goes, and only from the two ends. */
  lemma {:induction false} JsTrimSpans(s: string) returns (a: string, b: string)
    ensures JsBlank(a) && JsBlank(b) && s == a + JsTrim(s) + b
    ensures JsTrim(s) == "" || Trimmed(JsTrim(s))
  {
    if s != "" && IsJsSpace(s[0]) {
      a, b := JsTrimSpans(s[1..]);
      SpanLeft(s[0], a, JsTrim(s[1..]), b, s);
      a := [s[0]] + a;
    } else if s != "" && IsJsSpace(s[|s| - 1]) {
      a, b := JsTrimSpans(s[..|s| - 1]);
      SpanRight(a, JsTrim(s[..|s| - 1]), b, s[|s| - 1], s);
      b := b + [s[|s| - 1]];
    } else {
      a, b := "", "";
    }
  }

  /** Trailing white space goes. */
  lemma {:induction false} JsTrimEnd(v: string, b: string)
    requires Trimmed(v) && JsBlank(b)
    ensures JsTrim(v + b) == v
    decreases |b|
  {
    if b == "" {
      assert v + b == v;
    } else {
      var n := |b| - 1;
      assert (v + b)[..|v + b| - 1] == v + b[..n];
      JsTrimEnd(v, b[..n]);
    }
  }

  lemma LineOf(line: string, rest: string)
    requires '\n' !in line
    ensures Lines(line + "\n" + rest) == [line] + Lines(rest)
  {
    var head := line + "\n";
    LinesOfOne(line);
    assert Init(head) == line;
    assert Lines(head) == [line, ""];
    LinesAppend(head, rest);
    assert "" + rest == rest;
  }

  /** lines.join("\n") */
  function Unlines(ls: seq<string>): string
    requires ls != []
  {
    if |ls| == 1 then ls[0] else ls[0] + "\n" + Unlines(ls[1..])
  }

  predicate OneLiners(ls: seq<string>) {
    forall l <- ls :: '\n' !in l
  }

  lemma {:induction false} LinesOfUnlines(ls: seq<string>)
    requires ls != [] && OneLiners(ls)
    ensures Lines(Unlines(ls)) == ls
  {
    assert ls[0] in ls;
    if |ls| == 1 {
      LinesOfOne(ls[0]);
    } else {
      LinesOfUnlines(ls[1..]);
      LineOf(ls[0], Unlines(ls[1..]));
    }
  }

  lemma {:induction false} LinesAreOneLiners(text: string)
    ensures OneLiners(Lines(text))
  {
    if text != "" {
      var ls := Lines(Init(text));
      LinesAreOneLiners(Init(text));
      LastLineIsOpen(text);
      forall l | l in Lines(text) ensures '\n' !in l {
        if Last(text) == '\n' {
          assert l in ls || l == "";
        } else {
          assert l in Init(ls) || l == Last(Lines(text));
          assert ls == Init(ls) + [Last(ls)];
        }
      }
    }
  }

  lemma {:induction false} UnlinesSnocChar(ls: seq<string>, c: char)
    requires ls != []
    ensures Unlines(Extend(ls, c)) == Unlines(ls) + [c]
  {
    if |ls| == 1 {
      if c == '\n' {
        assert Extend(ls, c) == [ls[0], ""] && [ls[0], ""][1..] == [""];
        assert ls[0] + "\n" + "" == ls[0] + [c];
      } else {
        assert Extend(ls, c) == [ls[0] + [c]];
      }
    } else {
      UnlinesSnocChar(ls[1..], c);
      assert ls == [ls[0]] + ls[1..];
      ExtendLast([ls[0]], ls[1..], c);
      assert Extend(ls, c)[1..] == Extend(ls[1..], c) && Extend(ls, c)[0] == ls[0];
      assert ls[0] + "\n" + (Unlines(ls[1..]) + [c]) == ls[0] + "\n" + Unlines(ls[1..]) + [c];
    }
  }

  lemma UnlinesExtend(ls: seq<string>, before: string, c: char, text: string, longer: seq<string>)
    requires ls != [] && Unlines(ls) == before && text == before + [c] && longer == Extend(ls, c)
    ensures Unlines(longer) == text
  {
    UnlinesSnocChar(ls, c);
  }

  lemma LinesStep(text: string, before: string, c: char)
    requires text != "" && before == Init(text) && c == Last(text)
    ensures text == before + [c] && Lines(text) == Extend(Lines(before), c)
  {
  }

  lemma {:induction false} UnlinesOfLines(text: string)
    ensures Unlines(Lines(text)) == text
  {
    if text != "" {
      var before, c := Init(text), Last(text);
      UnlinesOfLines(before);
      LinesStep(text, before, c);
      UnlinesExtend(Lines(before), before, c, text, Lines(text));
    }
  }
}
