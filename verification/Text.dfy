/** Strings as the chat pipeline sees them. */
module Text {
  /** Concatenation of a sequence of strings. */
  function Join(ss: seq<string>): string {
    if ss == [] then "" else ss[0] + Join(ss[1..])
  }

  lemma {:induction false} JoinAppend(a: seq<string>, b: seq<string>)
    ensures Join(a + b) == Join(a) + Join(b)
  {
    if a == [] {
      assert a + b == b;
    } else {
      JoinAppend(a[1..], b);
      assert (a + b)[1..] == a[1..] + b;
      Assoc(a[0], Join(a[1..]), Join(b));
    }
  }

  lemma Assoc(a: string, b: string, c: string)
    ensures a + (b + c) == (a + b) + c
  {
  }

  lemma SpanLeft(c: char, a: string, v: string, b: string, s: string)
    requires s != "" && s[0] == c && s[1..] == a + v + b
    ensures s == ([c] + a) + v + b
  {
    assert s == [c] + s[1..];
  }

  lemma SpanRight(a: string, v: string, b: string, c: char, s: string)
    requires s != "" && s[|s| - 1] == c && s[..|s| - 1] == a + v + b
    ensures s == a + v + (b + [c])
  {
    assert s == s[..|s| - 1] + [c];
  }

  /** What Python's `str.strip` removes. */
  predicate IsSpace(c: char) {
    || c in " \t\n\r"
    || '\U{b}' <= c <= '\U{c}' || '\U{1c}' <= c <= '\U{1f}'
    || c in ['\U{85}', '\U{a0}', '\U{1680}', '\U{2028}', '\U{2029}', '\U{202f}', '\U{205f}', '\U{3000}']
    || '\U{2000}' <= c <= '\U{200a}'
  }

  predicate Blank(s: string) {
    forall c <- s :: IsSpace(c)
  }

  /** The characters of `s` that are not white space. */
  function Ink(s: string): string {
    if s == "" then "" else if IsSpace(s[0]) then Ink(s[1..]) else [s[0]] + Ink(s[1..])
  }

  lemma {:induction false} InkAppend(a: string, b: string)
    ensures Ink(a + b) == Ink(a) + Ink(b)
  {
    if a == "" {
      assert a + b == b;
    } else {
      InkAppend(a[1..], b);
      assert (a + b)[1..] == a[1..] + b && (a + b)[0] == a[0];
      if !IsSpace(a[0]) {
        assert [a[0]] + (Ink(a[1..]) + Ink(b)) == ([a[0]] + Ink(a[1..])) + Ink(b);
      }
    }
  }

  lemma {:induction false} InkOfBlank(s: string)
    ensures Blank(s) <==> Ink(s) == ""
  {
    if s != "" {
      InkOfBlank(s[1..]);
      assert s == [s[0]] + s[1..];
    }
  }
}
