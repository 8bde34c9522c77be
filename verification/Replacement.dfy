/** The replacement text of JavaScript's `String.prototype.replace` with a pattern
    of two groups. `$` begins a reference before `$`, `&`, a backquote, a quote, or
    the number 1, 2, 01 or 02; a longer number names no group, so its first digit
    counts alone. Any other `$` stands for itself. */
module Replacement {
  /** What a reference can insert: the text before and after the match, and its
      two groups, which make up the match. */
  datatype Groups = Groups(before: string, after: string, first: string, second: string)

  /** The length of the reference that `t` begins with; 1 if it begins with none. */
  function RefLength(t: string): (n: nat)
    requires t != ""
    ensures 1 <= n <= |t|
    ensures n > 1 ==> t[0] == '$'
  {
    if |t| >= 2 && t[0] == '$' && t[1] in "$&`'12" then 2
    else if |t| >= 3 && t[0] == '$' && t[1] == '0' && t[2] in "12" then 3
    else 1
  }

  /** What the first reference or character of `t` becomes. */
  function Inserted(t: string, g: Groups): string
    requires t != ""
  {
    var n := RefLength(t);
    if n == 1 then [t[0]]
    else match t[n - 1]
      case '$' => "$"
      case '&' => g.first + g.second
      case '`' => g.before
      case '\'' => g.after
      case '1' => g.first
      case _ => g.second
  }

  function Expand(t: string, g: Groups): string
    decreases |t|
  {
    if t == "" then "" else Inserted(t, g) + Expand(t[RefLength(t)..], g)
  }

  /** The template of `applyParamChange`: the first group, whatever follows. */
  lemma TemplateStart(v: string, g: Groups)
    ensures Expand("$1" + v, g) == g.first + Expand(v, g)
  {
    assert ("$1" + v)[2..] == v;
  }

  const REFERENCES := ["$$", "$&", "$`", "$'", "$1", "$01", "$2", "$02"]

  /** What each reference stands for. */
  function Meaning(ref: string, g: Groups): string
    requires ref in REFERENCES
  {
    if ref == "$$" then "$"
    else if ref == "$&" then g.first + g.second
    else if ref == "$`" then g.before
    else if ref == "$'" then g.after
    else if ref == "$1" || ref == "$01" then g.first
    else g.second
  }

  lemma ReferenceShape(ref: string)
    requires ref in REFERENCES
    ensures |ref| == 2 || |ref| == 3
    ensures ref[0] == '$' && if |ref| == 2 then ref[1] in "$&`'12" else ref[1] == '0' && ref[2] in "12"
  {
  }

  lemma ReferenceMeans(ref: string, t: string, g: Groups)
    requires ref in REFERENCES
    ensures RefLength(ref + t) == |ref| && Inserted(ref + t, g) == Meaning(ref, g)
  {
    ReferenceShape(ref);
    assert forall k :: 0 <= k < |ref| ==> (ref + t)[k] == ref[k];
  }

  /** A reference inserts what it stands for, whatever follows it. */
  lemma ReferenceExpands(ref: string, t: string, g: Groups)
    requires ref in REFERENCES
    ensures Expand(ref + t, g) == Meaning(ref, g) + Expand(t, g)
  {
    ReferenceMeans(ref, t, g);
    assert (ref + t)[|ref|..] == t;
  }

  /** Any other character is itself, a `$` that begins no reference too. */
  lemma OthersStay(c: char, t: string, g: Groups)
    requires c == '$' && t != "" ==> t[0] !in "$&`'12" && (t[0] == '0' && |t| > 1 ==> t[1] !in "12")
    ensures Expand([c] + t, g) == [c] + Expand(t, g)
  {
    assert ([c] + t)[1..] == t;
  }

  /** The text holds no reference. */
  predicate Plain(t: string)
    decreases |t|
  {
    t == "" || (RefLength(t) == 1 && Plain(t[1..]))
  }

  lemma {:induction false} PlainIsLiteral(t: string, g: Groups)
    requires Plain(t)
    ensures Expand(t, g) == t
    decreases |t|
  {
    if t != "" {
      PlainIsLiteral(t[1..], g);
      assert t == [t[0]] + t[1..];
    }
  }

  lemma {:induction false} NoDollarIsPlain(t: string)
    requires '$' !in t
    ensures Plain(t)
    decreases |t|
  {
    if t != "" { NoDollarIsPlain(t[1..]); }
  }

  // ----- counting dollars -----

  function Dollars(s: string): nat {
    if s == "" then 0 else (if s[0] == '$' then 1 else 0) + Dollars(s[1..])
  }

  lemma {:induction false} DollarsAppend(a: string, b: string)
    ensures Dollars(a + b) == Dollars(a) + Dollars(b)
  {
    if a == "" {
      assert a + b == b;
    } else {
      DollarsAppend(a[1..], b);
      assert (a + b)[1..] == a[1..] + b;
    }
  }

  lemma {:induction false} NoDollars(s: string)
    ensures Dollars(s) == 0 <==> '$' !in s
  {
    if s != "" {
      NoDollars(s[1..]);
      assert s == [s[0]] + s[1..];
    }
  }

  predicate Dollarless(g: Groups) {
    '$' !in g.before && '$' !in g.after && '$' !in g.first && '$' !in g.second
  }

  lemma InsertedDollars(t: string, g: Groups)
    requires t != "" && Dollarless(g)
    ensures Dollars(Inserted(t, g)) <= (if t[0] == '$' then 1 else 0)
  {
    NoDollars(g.before);
    NoDollars(g.after);
    NoDollars(g.first);
    NoDollars(g.second);
    NoDollars(g.first + g.second);
  }

  lemma ReferenceDollars(t: string)
    requires t != "" && RefLength(t) > 1
    ensures Dollars(t[..RefLength(t)]) >= if t[1] == '$' then 2 else 1
  {
    var r := t[..RefLength(t)];
    assert r == [t[0]] + r[1..] && r[1..][0] == t[1];
    DollarsAppend([t[0]], r[1..]);
  }

  lemma InsertedLosesDollars(t: string, g: Groups)
    requires t != "" && Dollarless(g) && RefLength(t) > 1
    ensures Dollars(Inserted(t, g)) < Dollars(t[..RefLength(t)])
  {
    ReferenceDollars(t);
    InsertedDollars(t, g);
    if t[1] != '$' {
      NoDollars(g.before);
      NoDollars(g.after);
      NoDollars(g.first);
      NoDollars(g.second);
      NoDollars(g.first + g.second);
    }
  }

  /** Every reference into a text without `$` costs a `$`. */
  lemma {:induction false} ExpandLosesDollars(t: string, g: Groups)
    requires Dollarless(g)
    ensures Dollars(Expand(t, g)) <= Dollars(t)
    ensures !Plain(t) ==> Dollars(Expand(t, g)) < Dollars(t)
    decreases |t|
  {
    if t != "" {
      var n := RefLength(t);
      ExpandLosesDollars(t[n..], g);
      DollarsAppend(Inserted(t, g), Expand(t[n..], g));
      DollarsAppend(t[..n], t[n..]);
      assert t == t[..n] + t[n..];
      if n == 1 { assert t[..1] == [t[0]] == Inserted(t, g); } else { InsertedLosesDollars(t, g); }
    }
  }

  // ----- doubled dollars -----

  /** Every reference is `$$`. */
  predicate OnlyDoubles(t: string)
    decreases |t|
  {
    t == "" || ((RefLength(t) == 1 || t[1] == '$') && OnlyDoubles(t[RefLength(t)..]))
  }

  const NOTHING := Groups("", "", "", "")

  /** Each `$$` becomes `$`. */
  function Collapse(t: string): string { Expand(t, NOTHING) }

  lemma {:induction false} PlainIsOnlyDoubles(t: string)
    requires Plain(t)
    ensures OnlyDoubles(t)
    decreases |t|
  {
    if t != "" { PlainIsOnlyDoubles(t[1..]); }
  }

  lemma {:induction false} DoublesCollapse(t: string, g: Groups)
    requires OnlyDoubles(t)
    ensures Expand(t, g) == Collapse(t)
    decreases |t|
  {
    if t != "" { DoublesCollapse(t[RefLength(t)..], g); }
  }

  lemma {:induction false} CollapseShrinks(t: string)
    ensures |Collapse(t)| <= |t|
    ensures !Plain(t) ==> |Collapse(t)| < |t|
    decreases |t|
  {
    if t != "" { CollapseShrinks(t[RefLength(t)..]); }
  }

  /** Collapsing keeps the first and last character and adds none. */
  lemma {:induction false} CollapseKeepsEnds(t: string)
    requires OnlyDoubles(t) && t != ""
    ensures var c := Collapse(t);
      c != "" && c[0] == t[0] && c[|c| - 1] == t[|t| - 1] && forall x <- c :: x in t
    decreases |t|
  {
    var n := RefLength(t);
    var rest := t[n..];
    assert Collapse(t) == [t[0]] + Collapse(rest);
    assert t == t[..n] + rest && t[0] == t[..n][0];
    if rest == "" {
      assert t[|t| - 1] == t[0];
    } else {
      CollapseKeepsEnds(rest);
      assert t[|t| - 1] == rest[|rest| - 1];
    }
  }

  // ----- references to the second group -----

  /** Does the first reference insert the second group? */
  function UsedFirst(t: string): nat
    requires t != ""
  {
    if RefLength(t) > 1 && t[RefLength(t) - 1] in "&2" then 1 else 0
  }

  /** How often the second group is inserted. */
  function Uses(t: string): nat
    decreases |t|
  {
    if t == "" then 0 else UsedFirst(t) + Uses(t[RefLength(t)..])
  }

  lemma {:induction false} UnusedSecond(t: string, g: Groups, second: string)
    requires Uses(t) == 0
    ensures Expand(t, g) == Expand(t, g.(second := second))
    decreases |t|
  {
    if t != "" { UnusedSecond(t[RefLength(t)..], g, second); }
  }

  lemma Distribute(m: nat, n: nat, a: nat)
    ensures (m + n) * a == m * a + n * a
  {
  }

  lemma InsertedLength(t: string, g: Groups, second: string)
    requires t != ""
    ensures |Inserted(t, g)| + UsedFirst(t) * |second| == |Inserted(t, g.(second := second))| + UsedFirst(t) * |g.second|
  {
  }

  lemma {:induction false} ExpandLength(t: string, g: Groups, second: string)
    ensures |Expand(t, g)| + Uses(t) * |second| == |Expand(t, g.(second := second))| + Uses(t) * |g.second|
    decreases |t|
  {
    if t != "" {
      var rest := t[RefLength(t)..];
      ExpandLength(rest, g, second);
      InsertedLength(t, g, second);
      Distribute(UsedFirst(t), Uses(rest), |second|);
      Distribute(UsedFirst(t), Uses(rest), |g.second|);
    }
  }

  lemma SameFront(a: string, b: string, c: string, d: string)
    requires a + b == c + d && |a| == |c|
    ensures a == c && b == d
  {
    assert a == (a + b)[..|a|] && b == (a + b)[|a|..];
  }

  lemma {:induction false} UsedSecond(t: string, g: Groups, second: string)
    requires Uses(t) > 0 && |g.second| == |second|
    requires Expand(t, g) == Expand(t, g.(second := second))
    ensures g.second == second
    decreases |t|
  {
    var h, rest := g.(second := second), t[RefLength(t)..];
    SameFront(Inserted(t, g), Expand(rest, g), Inserted(t, h), Expand(rest, h));
    if UsedFirst(t) == 0 {
      UsedSecond(rest, g, second);
    } else if t[RefLength(t) - 1] == '&' {
      SameFront(g.first, g.second, g.first, second);
    }
  }

  lemma LargerProduct(n: nat, a: nat, b: nat)
    requires n > 0 && a < b
    ensures n * a < n * b
  {
    assert n * b == n * a + n * (b - a);
  }

  lemma SameProduct(n: nat, a: nat, b: nat)
    requires n > 0 && n * a == n * b
    ensures a == b
  {
    if a < b { LargerProduct(n, a, b); } else if b < a { LargerProduct(n, b, a); }
  }

  /** Two second groups give the same text exactly when they are the same or none
      is inserted. */
  lemma SecondMatters(t: string, g: Groups, second: string)
    ensures Expand(t, g) == Expand(t, g.(second := second)) <==> Uses(t) == 0 || g.second == second
  {
    if Uses(t) == 0 {
      UnusedSecond(t, g, second);
    } else if Expand(t, g) == Expand(t, g.(second := second)) {
      ExpandLength(t, g, second);
      SameProduct(Uses(t), |g.second|, |second|);
      UsedSecond(t, g, second);
    }
    assert g.second == second ==> g == g.(second := second);
  }
}
