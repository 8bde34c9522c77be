/** The <think> filter: the batch form of backend/app/ai/llm_client.py and the
    streaming form of backend/app/api/routes/ai.py. */
module ThinkFilter {
  import opened Text

  const OPEN := "<think>"
  const CLOSE := "</think>"

  predicate TagAt(s: string, tag: string, i: nat) {
    i + |tag| <= |s| && s[i..i + |tag|] == tag
  }

  /** `str.find(tag, from)`: the first occurrence at or after `from`, or |s|. */
  function Find(s: string, tag: string, from: nat): (i: nat)
    requires from <= |s|
    ensures from <= i <= |s|
    ensures forall k :: from <= k < i ==> !TagAt(s, tag, k)
    ensures i < |s| && tag != "" ==> TagAt(s, tag, i)
    decreases |s| - from
  {
    if from == |s| || TagAt(s, tag, from) then from else Find(s, tag, from + 1)
  }

  predicate Contains(s: string, tag: string) {
    Find(s, tag, 0) < |s|
  }

  lemma ContainsIff(s: string, tag: string)
    requires tag != ""
    ensures Contains(s, tag) <==> exists a, b :: s == a + tag + b
  {
    if Contains(s, tag) {
      var i := Find(s, tag, 0);
      assert s == s[..i] + s[i..i + |tag|] + s[i + |tag|..];
    }
    if a, b :| s == a + tag + b {
      assert TagAt(s, tag, |a|);
    }
  }

  /** Where the first tag pair matched by the non-greedy pattern begins and
      ends; |s| for both when there is none. */
  function BlockStart(s: string): (i: nat) ensures i <= |s| {
    Find(s, OPEN, 0)
  }

  function BlockClose(s: string): (c: nat)
    ensures BlockStart(s) <= c <= |s|
    ensures c < |s| ==> TagAt(s, CLOSE, c) && BlockStart(s) + |OPEN| <= c
  {
    var i := BlockStart(s);
    if i == |s| then |s| else Find(s, CLOSE, i + |OPEN|)
  }

  predicate HasBlock(s: string) { BlockClose(s) < |s| }

  /** The text after the first block. */
  function AfterBlock(s: string): (r: string)
    requires HasBlock(s)
    ensures |r| < |s|
  {
    s[BlockClose(s) + |CLOSE|..]
  }

  /** re.sub(r"<think>.*?</think>", "", s, flags=re.DOTALL) */
  function Strip(s: string): string
    decreases |s|
  {
    if HasBlock(s) then s[..BlockStart(s)] + Strip(AfterBlock(s)) else s
  }

  /** The text after the last complete block. */
  function Leftover(s: string): (r: string)
    ensures !HasBlock(r)
    decreases |s|
  {
    if HasBlock(s) then Leftover(AfterBlock(s)) else s
  }

  // ----- locality of the search -----

  lemma FindIs(s: string, tag: string, from: nat, i: nat)
    requires tag != "" && from <= i && TagAt(s, tag, i)
    requires forall k :: from <= k < i ==> !TagAt(s, tag, k)
    ensures Find(s, tag, from) == i
  {
  }

  /** The first block of `s` is the one with these ends. */
  ghost predicate FirstBlock(s: string, i: nat, c: nat) {
    && TagAt(s, OPEN, i) && (forall k :: 0 <= k < i ==> !TagAt(s, OPEN, k))
    && i + |OPEN| <= c && TagAt(s, CLOSE, c) && (forall k :: i + |OPEN| <= k < c ==> !TagAt(s, CLOSE, k))
  }

  lemma FirstBlockIs(s: string, i: nat, c: nat)
    requires FirstBlock(s, i, c)
    ensures HasBlock(s) && BlockStart(s) == i && BlockClose(s) == c
  {
    FindIs(s, OPEN, 0, i);
    FindIs(s, CLOSE, i + |OPEN|, c);
  }

  lemma HasFirstBlock(s: string)
    requires HasBlock(s)
    ensures FirstBlock(s, BlockStart(s), BlockClose(s))
  {
  }

  /** Any tag pair means there is a block. */
  lemma PairMeansBlock(s: string, i: nat, c: nat)
    requires TagAt(s, OPEN, i) && i + |OPEN| <= c && TagAt(s, CLOSE, c)
    ensures HasBlock(s) && BlockStart(s) <= i
  {
  }

  lemma TagInLeft(x: string, y: string, tag: string, k: nat)
    requires k + |tag| <= |x|
    ensures TagAt(x + y, tag, k) <==> TagAt(x, tag, k)
  {
    assert (x + y)[k..k + |tag|] == x[k..k + |tag|];
  }

  lemma TagInRight(x: string, y: string, tag: string, k: nat)
    ensures TagAt(x + y, tag, |x| + k) <==> TagAt(y, tag, k)
  {
    if k + |tag| <= |y| {
      assert (x + y)[|x| + k..|x| + k + |tag|] == y[k..k + |tag|];
    }
  }

  /** A block of the left part is the first block of the whole. */
  lemma BlockInLeft(x: string, y: string)
    requires HasBlock(x)
    ensures HasBlock(x + y) && BlockStart(x + y) == BlockStart(x) && BlockClose(x + y) == BlockClose(x)
    ensures AfterBlock(x + y) == AfterBlock(x) + y
  {
    var i, c := BlockStart(x), BlockClose(x);
    HasFirstBlock(x);
    forall k: nat | k <= i ensures TagAt(x + y, OPEN, k) <==> TagAt(x, OPEN, k) { TagInLeft(x, y, OPEN, k); }
    forall k: nat | k <= c ensures TagAt(x + y, CLOSE, k) <==> TagAt(x, CLOSE, k) { TagInLeft(x, y, CLOSE, k); }
    FirstBlockIs(x + y, i, c);
  }

  /** A block of the right part makes a block of the whole. */
  lemma BlockInRight(x: string, y: string)
    requires HasBlock(y)
    ensures HasBlock(x + y)
  {
    TagInRight(x, y, OPEN, BlockStart(y));
    TagInRight(x, y, CLOSE, BlockClose(y));
    PairMeansBlock(x + y, |x| + BlockStart(y), |x| + BlockClose(y));
  }

  /** A first block that begins in the right part is its first block. */
  lemma BlockFromRight(x: string, y: string)
    requires HasBlock(x + y) && BlockStart(x + y) >= |x|
    ensures HasBlock(y) && BlockStart(x + y) == |x| + BlockStart(y)
    ensures AfterBlock(x + y) == AfterBlock(y)
  {
    var i, c := BlockStart(x + y) - |x|, BlockClose(x + y) - |x|;
    HasFirstBlock(x + y);
    forall k: nat ensures TagAt(x + y, OPEN, |x| + k) <==> TagAt(y, OPEN, k) { TagInRight(x, y, OPEN, k); }
    forall k: nat ensures TagAt(x + y, CLOSE, |x| + k) <==> TagAt(y, CLOSE, k) { TagInRight(x, y, CLOSE, k); }
    forall k | 0 <= k < i ensures !TagAt(y, OPEN, k) { assert !TagAt(x + y, OPEN, |x| + k); }
    forall k | i + |OPEN| <= k < c ensures !TagAt(y, CLOSE, k) { assert !TagAt(x + y, CLOSE, |x| + k); }
    FirstBlockIs(y, i, c);
  }

  /** What stripping is, tag by tag: a text in which no closing tag follows an
      opening one stays; otherwise the first opening tag goes, with everything up to
      and including the first closing tag after it. */
  lemma StripDeletes(before: string, body: string, rest: string, s: string)
    requires s == before + (OPEN + (body + (CLOSE + rest)))
    requires forall k :: 0 <= k < |before| ==> !TagAt(s, OPEN, k)
    requires forall k :: |before| + |OPEN| <= k < |before| + |OPEN| + |body| ==> !TagAt(s, CLOSE, k)
    ensures Strip(s) == before + Strip(rest)
  {
    var i, c := |before|, |before| + |OPEN| + |body|;
    assert s[i..i + |OPEN|] == OPEN && s[c..c + |CLOSE|] == CLOSE;
    FirstBlockIs(s, i, c);
    assert s[..i] == before && AfterBlock(s) == rest;
  }

  lemma StripKeeps(s: string)
    requires forall i, c :: 0 <= i && i + |OPEN| <= c && TagAt(s, OPEN, i) ==> !TagAt(s, CLOSE, c)
    ensures Strip(s) == s
  {
  }

  // ----- cutting a text in two -----

  /** Cutting the text between `x` and `y` cuts through a block: an opening tag
      that begins in `x` and is not closed there is closed once `y` follows. */
  predicate Severs(x: string, y: string) {
    HasBlock(Leftover(x) + y) && BlockStart(Leftover(x) + y) < |Leftover(x)|
  }

  /** Stripping text after a first block of the left part. */
  lemma StripPastBlock(x: string, y: string)
    requires HasBlock(x)
    ensures Strip(x) == x[..BlockStart(x)] + Strip(AfterBlock(x))
    ensures Strip(x + y) == x[..BlockStart(x)] + Strip(AfterBlock(x) + y)
    ensures Leftover(x) == Leftover(AfterBlock(x))
  {
    BlockInLeft(x, y);
    assert (x + y)[..BlockStart(x)] == x[..BlockStart(x)];
  }

  /** Stripping when the first block lies in the right part. */
  lemma StripRightBlock(x: string, y: string)
    requires HasBlock(x + y) && BlockStart(x + y) >= |x|
    ensures Strip(x + y) == x + Strip(y)
  {
    BlockFromRight(x, y);
    var head, tail := y[..BlockStart(y)], Strip(AfterBlock(y));
    assert (x + y)[..BlockStart(x + y)] == x + head;
    Assoc(x, head, tail);
  }

  /** Stripping distributes over a cut that severs no block. */
  lemma {:induction false} StripAcrossCut(x: string, y: string)
    requires !Severs(x, y)
    ensures Strip(x + y) == Strip(x) + Strip(y)
    decreases |x|
  {
    if HasBlock(x) {
      var rest := AfterBlock(x);
      StripPastBlock(x, y);
      StripAcrossCut(rest, y);
      Assoc(x[..BlockStart(x)], Strip(rest), Strip(y));
    } else if HasBlock(x + y) {
      StripRightBlock(x, y);
    } else if HasBlock(y) {
      BlockInRight(x, y);
      assert false;
    }
  }

  lemma NotTag(s: string, tag: string, p: nat, d: nat)
    requires d < |tag| && p + d < |s| && s[p + d] != tag[d]
    ensures !TagAt(s, tag, p)
  {
    if p + |tag| <= |s| {
      assert s[p..p + |tag|][d] == s[p + d];
    }
  }

  lemma TagChar(s: string, tag: string, p: nat, d: nat)
    requires TagAt(s, tag, p) && d < |tag|
    ensures s[p + d] == tag[d]
  {
    assert s[p..p + |tag|][d] == s[p + d];
  }

  /** The text ends in a closing tag, or is the end of one. */
  predicate EndsInClose(w: string) {
    if |w| < |CLOSE| then w == CLOSE[|CLOSE| - |w|..] else TagAt(w, CLOSE, |w| - |CLOSE|)
  }

  /** What is left of a text that ends in a closing tag holds no opening tag. */
  lemma NoOpenBeforeClose(w: string, rest: string, p: nat)
    requires !HasBlock(w) && EndsInClose(w) && p < |w|
    ensures !TagAt(w + rest, OPEN, p)
  {
    var at := |w| - |CLOSE|;
    if p + |OPEN| <= at {
      TagInLeft(w, rest, OPEN, p);
      NoBlockNoOpen(w, p, at);
    } else {
      NoOpenInClose(w, rest, p, at);
    }
  }

  /** No opening tag begins so late that it meets the closing tag at `at`. */
  lemma NoOpenInClose(w: string, rest: string, p: nat, at: int)
    requires EndsInClose(w) && at == |w| - |CLOSE| && at < p + |OPEN| && p < |w|
    ensures !TagAt(w + rest, OPEN, p)
  {
    if at < p {
      CloseChar(w, p - at);
      NotTag(w + rest, OPEN, p, 0);
    } else if at == p {
      CloseChar(w, 1);
      NotTag(w + rest, OPEN, p, 1);
    } else {
      CloseChar(w, 0);
      NotTag(w + rest, OPEN, p, at - p);
    }
  }

  lemma NoBlockNoOpen(w: string, p: nat, c: nat)
    requires !HasBlock(w) && p + |OPEN| <= c && TagAt(w, CLOSE, c)
    ensures !TagAt(w, OPEN, p)
  {
  }

  lemma CloseChar(w: string, d: nat)
    requires EndsInClose(w)
    requires d < |CLOSE| && |w| - |CLOSE| + d >= 0
    ensures w[|w| - |CLOSE| + d] == CLOSE[d]
  {
    if |w| >= |CLOSE| { TagChar(w, CLOSE, |w| - |CLOSE|, d); }
  }

  /** A suffix of a text that ends in a closing tag ends like one. */
  lemma SuffixEndsInClose(z: string, w: string)
    requires |z| >= |CLOSE| && TagAt(z, CLOSE, |z| - |CLOSE|)
    requires |w| <= |z| && w == z[|z| - |w|..]
    ensures EndsInClose(w)
  {
    assert z[|z| - |CLOSE|..] == CLOSE;
    if |w| < |CLOSE| {
      assert w == z[|z| - |CLOSE|..][|CLOSE| - |w|..];
    } else {
      assert w[|w| - |CLOSE|..] == z[|z| - |CLOSE|..];
    }
  }

  lemma SplitAfterBlock(a: string) returns (head: string)
    requires HasBlock(a)
    ensures a == head + AfterBlock(a)
  {
    head := a[..BlockClose(a) + |CLOSE|];
  }

  lemma {:induction false} LeftoverEndsInClose(x: string, a: string, z: string)
    requires z == x + a && |z| >= |CLOSE| && TagAt(z, CLOSE, |z| - |CLOSE|)
    ensures EndsInClose(Leftover(a))
    decreases |a|
  {
    if HasBlock(a) {
      var head := SplitAfterBlock(a);
      Assoc(x, head, AfterBlock(a));
      LeftoverEndsInClose(x + head, AfterBlock(a), z);
    } else {
      SuffixEndsInClose(z, a);
    }
  }

  /** Just after a closing tag, which may begin in `x`, a cut severs nothing. */
  lemma CutAfterClose(x: string, a: string, b: string)
    requires |x| + |a| >= |CLOSE| && TagAt(x + a, CLOSE, |x| + |a| - |CLOSE|)
    ensures !Severs(a, b)
  {
    LeftoverEndsInClose(x, a, x + a);
    if Severs(a, b) { NoOpenBeforeClose(Leftover(a), b, BlockStart(Leftover(a) + b)); }
  }

  /** A severing cut makes the two halves keep more visible text than the whole. */
  lemma {:induction false} SeveredKeepsMore(x: string, y: string)
    requires Severs(x, y)
    ensures |Ink(Strip(x + y))| < |Ink(Strip(x))| + |Ink(Strip(y))|
    decreases |x|
  {
    if HasBlock(x) {
      StripPastBlock(x, y);
      SeveredKeepsMore(AfterBlock(x), y);
      var head := x[..BlockStart(x)];
      InkAppend(head, Strip(AfterBlock(x)));
      InkAppend(head, Strip(AfterBlock(x) + y));
    } else {
      SeveredOpenTag(x, y);
    }
  }

  /** How much of `y` a severed block swallows. */
  function Swallowed(x: string, y: string): int {
    BlockClose(x + y) + |CLOSE| - |x|
  }

  lemma SwallowedInRange(x: string, y: string)
    requires !HasBlock(x) && HasBlock(x + y) && BlockStart(x + y) < |x|
    ensures 0 < Swallowed(x, y) <= |y|
  {
    var i, c := BlockStart(x + y), BlockClose(x + y);
    if c + |CLOSE| <= |x| {
      TagInLeft(x, y, CLOSE, c);
      NoBlockNoOpen(x, i, c);
      TagInLeft(x, y, OPEN, i);
    }
  }

  lemma SeveredOpenTag(x: string, y: string)
    requires !HasBlock(x) && HasBlock(x + y) && BlockStart(x + y) < |x|
    ensures |Ink(Strip(x + y))| < |Ink(x)| + |Ink(Strip(y))|
  {
    SwallowedInRange(x, y);
    var k := Swallowed(x, y);
    var a, b := y[..k], y[k..];
    assert y == a + b;
    Assoc(x, a, b);
    SeveredCount(x, a, b, BlockStart(x + y), x + y);
  }

  /** The severed block takes the end of `x` and all of `a`, and leaves `b`. */
  lemma SeveredStrip(x: string, a: string, b: string, i: nat, s: string)
    requires s == x + a + b && HasBlock(s) && BlockStart(s) == i < |x|
    requires BlockClose(s) + |CLOSE| == |x + a|
    ensures Strip(s) == x[..i] + Strip(b) && x[i] == OPEN[0]
  {
    assert AfterBlock(s) == b && s[..i] == x[..i];
    TagChar(s, OPEN, i, 0);
    assert s[i] == x[i];
  }

  lemma CutAfterSevered(x: string, a: string, b: string, s: string)
    requires s == x + a + b && HasBlock(s) && BlockClose(s) + |CLOSE| == |x + a|
    ensures Strip(a + b) == Strip(a) + Strip(b)
  {
    TagInLeft(x + a, b, CLOSE, BlockClose(s));
    CutAfterClose(x, a, b);
    StripAcrossCut(a, b);
  }

  lemma SeveredCount(x: string, a: string, b: string, i: nat, s: string)
    requires s == x + a + b && HasBlock(s) && BlockStart(s) == i < |x|
    requires BlockClose(s) + |CLOSE| == |x + a|
    ensures |Ink(Strip(s))| < |Ink(x)| + |Ink(Strip(a + b))|
  {
    SeveredStrip(x, a, b, i, s);
    CutAfterSevered(x, a, b, s);
    SubstituteInk(Strip(s), x, i, Strip(a), Strip(b), Strip(a + b));
  }

  lemma SubstituteInk(whole: string, x: string, i: nat, a: string, b: string, rest: string)
    requires i < |x| && !IsSpace(x[i]) && whole == x[..i] + b && rest == a + b
    ensures |Ink(whole)| < |Ink(x)| + |Ink(rest)|
  {
    KeptInk(x, i, a, b);
  }

  lemma KeptInk(x: string, i: nat, a: string, b: string)
    requires i < |x| && !IsSpace(x[i])
    ensures |Ink(x[..i] + b)| < |Ink(x)| + |Ink(a + b)|
  {
    InkAppend(a, b);
    InkAppend(x[..i], b);
    InkGrows(x, i);
  }

  lemma InkGrows(x: string, i: nat)
    requires i < |x| && !IsSpace(x[i])
    ensures |Ink(x[..i])| < |Ink(x)|
  {
    InkAppend(x[..i], x[i..]);
    assert x == x[..i] + x[i..];
  }

  /** Cutting is harmless exactly when it severs no block. */
  lemma CutIsHarmless(x: string, y: string)
    ensures Strip(x + y) == Strip(x) + Strip(y) <==> !Severs(x, y)
    ensures Ink(Strip(x + y)) == Ink(Strip(x)) + Ink(Strip(y)) <==> !Severs(x, y)
    ensures |Ink(Strip(x + y))| <= |Ink(Strip(x))| + |Ink(Strip(y))|
  {
    InkAppend(Strip(x), Strip(y));
    if Severs(x, y) { SeveredKeepsMore(x, y); } else { StripAcrossCut(x, y); }
  }

  // ----- the streaming form -----

  /** The text of a flush or of a token that passed through, before stripping. */
  datatype Piece = Pass(text: string) | Flush(text: string)

  /** What was cut off so far, and what is buffered inside an open block. */
  datatype Cut = Cut(pieces: seq<Piece>, buf: string)

  /** One token of the stream: outside a block a token without an opening tag
      passes; otherwise it is buffered until a closing tag flushes the buffer. */
  function Take(c: Cut, token: string): Cut {
    if token == "" then c
    else if !Contains(token, OPEN) && c.buf == "" then c.(pieces := c.pieces + [Pass(token)])
    else if Contains(c.buf + token, CLOSE) then Cut(c.pieces + [Flush(c.buf + token)], "")
    else c.(buf := c.buf + token)
  }

  function Feed(tokens: seq<string>): Cut {
    if tokens == [] then Cut([], "") else Take(Feed(tokens[..|tokens| - 1]), tokens[|tokens| - 1])
  }

  /** The end of the stream flushes what is still buffered. */
  function Finish(c: Cut): seq<Piece> {
    if c.buf == "" then c.pieces else c.pieces + [Flush(c.buf)]
  }

  function Pieces(tokens: seq<string>): seq<Piece> { Finish(Feed(tokens)) }

  /** What a piece sends: a flush whose stripped text is blank sends nothing. */
  function Sent(p: Piece): seq<string> {
    match p
    case Pass(t) => [t]
    case Flush(b) => if Blank(Strip(b)) then [] else [Strip(b)]
  }

  function Emitted(ps: seq<Piece>): seq<string> {
    if ps == [] then [] else Sent(ps[0]) + Emitted(ps[1..])
  }

  function Texts(ps: seq<Piece>): string {
    if ps == [] then "" else ps[0].text + Texts(ps[1..])
  }

  /** No boundary between two pieces cuts through a block. */
  predicate Clean(ps: seq<Piece>) {
    ps == [] || (!Severs(ps[0].text, Texts(ps[1..])) && Clean(ps[1..]))
  }

  /** Tokens pass through only when they hold no opening tag. */
  predicate PassesPlain(ps: seq<Piece>) {
    forall p <- ps :: p.Pass? ==> !Contains(p.text, OPEN)
  }

  lemma {:induction false} TextsSnoc(ps: seq<Piece>, p: Piece)
    ensures Texts(ps + [p]) == Texts(ps) + p.text
  {
    if ps == [] {
      assert ps + [p] == [p] && [p][1..] == [];
    } else {
      TextsSnoc(ps[1..], p);
      assert (ps + [p])[1..] == ps[1..] + [p];
      Assoc(ps[0].text, Texts(ps[1..]), p.text);
    }
  }

  lemma TakeKeepsText(c: Cut, token: string)
    ensures Texts(Take(c, token).pieces) + Take(c, token).buf == Texts(c.pieces) + (c.buf + token)
  {
    TextsSnoc(c.pieces, Pass(token));
    TextsSnoc(c.pieces, Flush(c.buf + token));
  }

  lemma {:induction false} FeedKeepsText(tokens: seq<string>)
    ensures Texts(Feed(tokens).pieces) + Feed(tokens).buf == Join(tokens)
  {
    if tokens != [] {
      var init, last := tokens[..|tokens| - 1], tokens[|tokens| - 1];
      var c := Feed(init);
      FeedKeepsText(init);
      TakeKeepsText(c, last);
      Assoc(Texts(c.pieces), c.buf, last);
      JoinAppend(init, [last]);
      assert init + [last] == tokens && Join([last]) == last;
    }
  }

  /** The pieces are the tokens' text, cut differently. */
  lemma PiecesCoverTokens(tokens: seq<string>)
    ensures Texts(Pieces(tokens)) == Join(tokens)
  {
    FeedKeepsText(tokens);
    TextsSnoc(Feed(tokens).pieces, Flush(Feed(tokens).buf));
  }

  lemma {:induction false} PassedTokensArePlain(tokens: seq<string>)
    ensures PassesPlain(Feed(tokens).pieces)
  {
    if tokens != [] { PassedTokensArePlain(tokens[..|tokens| - 1]); }
  }

  lemma StripPlain(s: string)
    requires !Contains(s, OPEN)
    ensures Strip(s) == s
  {
  }

  lemma SentInk(p: Piece)
    requires p.Pass? ==> !Contains(p.text, OPEN)
    ensures Ink(Join(Sent(p))) == Ink(Strip(p.text))
  {
    match p
    case Pass(t) => StripPlain(t); assert Join([t]) == t;
    case Flush(b) => InkOfBlank(Strip(b)); assert Join([Strip(b)]) == Strip(b);
  }

  lemma EmittedInk(ps: seq<Piece>)
    requires ps != [] && PassesPlain(ps)
    ensures Ink(Join(Emitted(ps))) == Ink(Strip(ps[0].text)) + Ink(Join(Emitted(ps[1..])))
  {
    assert ps[0] in ps;
    SentInk(ps[0]);
    JoinAppend(Sent(ps[0]), Emitted(ps[1..]));
    InkAppend(Join(Sent(ps[0])), Join(Emitted(ps[1..])));
  }

  /** The pieces show at least what the batch form shows, and exactly that when
      and only when no boundary cuts through a block. */
  lemma {:induction false} PiecesAgainstBatch(ps: seq<Piece>)
    requires PassesPlain(ps)
    ensures |Ink(Strip(Texts(ps)))| <= |Ink(Join(Emitted(ps)))|
    ensures |Ink(Strip(Texts(ps)))| == |Ink(Join(Emitted(ps)))| ==> Clean(ps)
    ensures Clean(ps) ==> Ink(Strip(Texts(ps))) == Ink(Join(Emitted(ps)))
  {
    if ps != [] {
      var head, tail := ps[0].text, ps[1..];
      PiecesAgainstBatch(tail);
      EmittedInk(ps);
      CutIsHarmless(head, Texts(tail));
      if Severs(head, Texts(tail)) { SeveredKeepsMore(head, Texts(tail)); }
    }
  }

  /** `str.strip()` */
  function Trim(s: string): string {
    if s != "" && IsSpace(s[0]) then Trim(s[1..])
    else if s != "" && IsSpace(s[|s| - 1]) then Trim(s[..|s| - 1])
    else s
  }

  lemma {:induction false} TrimKeepsInk(s: string)
    ensures Ink(Trim(s)) == Ink(s)
  {
    if s != "" && IsSpace(s[0]) {
      TrimKeepsInk(s[1..]);
    } else if s != "" && IsSpace(s[|s| - 1]) {
      TrimKeepsInk(s[..|s| - 1]);
      InkAppend(s[..|s| - 1], s[|s| - 1..]);
      assert s == s[..|s| - 1] + s[|s| - 1..];
    }
  }

  /** Only white space goes, and only from the two ends. */
  lemma {:induction false} TrimSpans(s: string) returns (a: string, b: string)
    ensures Blank(a) && Blank(b) && s == a + Trim(s) + b
    ensures Trim(s) != "" ==> !IsSpace(Trim(s)[0]) && !IsSpace(Trim(s)[|Trim(s)| - 1])
  {
    if s != "" && IsSpace(s[0]) {
      a, b := TrimSpans(s[1..]);
      SpanLeft(s[0], a, Trim(s[1..]), b, s);
      a := [s[0]] + a;
    } else if s != "" && IsSpace(s[|s| - 1]) {
      a, b := TrimSpans(s[..|s| - 1]);
      SpanRight(a, Trim(s[..|s| - 1]), b, s[|s| - 1], s);
      b := b + [s[|s| - 1]];
    } else {
      a, b := "", "";
    }
  }

  /** `OllamaClient.generate` on the raw response. */
  function Generate(raw: string): string { Trim(Strip(raw)) }

  lemma PiecesRefineBatch(ps: seq<Piece>)
    requires PassesPlain(ps)
    ensures Ink(Join(Emitted(ps))) == Ink(Generate(Texts(ps))) <==> Clean(ps)
  {
    PiecesAgainstBatch(ps);
    TrimKeepsInk(Strip(Texts(ps)));
  }

  /** The streaming filter shows what the batch form shows of the same text, up
      to white space, exactly when no piece boundary cuts through a block. */
  lemma FilterRefinesBatch(tokens: seq<string>)
    ensures Ink(Join(Emitted(Pieces(tokens)))) == Ink(Generate(Join(tokens))) <==> Clean(Pieces(tokens))
  {
    PiecesCoverTokens(tokens);
    PassedTokensArePlain(tokens);
    PiecesRefineBatch(Pieces(tokens));
  }

  /** The stripped pieces, blank ones included. */
  function Stripped(ps: seq<Piece>): string {
    if ps == [] then "" else Strip(ps[0].text) + Stripped(ps[1..])
  }

  /** With no severed block the pieces are the batch text to the character. */
  lemma {:induction false} CleanPiecesAreExact(ps: seq<Piece>)
    requires Clean(ps)
    ensures Stripped(ps) == Strip(Texts(ps))
  {
    if ps != [] {
      CleanPiecesAreExact(ps[1..]);
      StripAcrossCut(ps[0].text, Texts(ps[1..]));
    }
  }

  // ----- to the character -----

  /** A flush that strips to white space: it sends nothing, not even that. */
  predicate BlankFlush(p: Piece) {
    p.Flush? && Strip(p.text) != "" && Blank(Strip(p.text))
  }

  predicate NoBlankFlush(ps: seq<Piece>) {
    forall p <- ps :: !BlankFlush(p)
  }

  /** The pieces that send what they strip to. */
  function Shown(ps: seq<Piece>): seq<Piece> {
    if ps == [] then [] else if BlankFlush(ps[0]) then Shown(ps[1..]) else [ps[0]] + Shown(ps[1..])
  }

  lemma SentIsStripped(p: Piece)
    requires p.Pass? ==> !Contains(p.text, OPEN)
    ensures Join(Sent(p)) == if BlankFlush(p) then "" else Strip(p.text)
  {
    match p
    case Pass(t) => StripPlain(t); assert Join([t]) == t;
    case Flush(b) => assert Join([Strip(b)]) == Strip(b);
  }

  /** What is sent is the stripped pieces without the blank flushes. */
  lemma {:induction false} EmittedIsShown(ps: seq<Piece>)
    requires PassesPlain(ps)
    ensures Join(Emitted(ps)) == Stripped(Shown(ps))
  {
    if ps != [] {
      assert ps[0] in ps && ps == [ps[0]] + ps[1..];
      EmittedIsShown(ps[1..]);
      SentIsStripped(ps[0]);
      JoinAppend(Sent(ps[0]), Emitted(ps[1..]));
      ShownCons(ps[0], ps[1..]);
    }
  }

  lemma {:induction false} AllShown(ps: seq<Piece>)
    requires NoBlankFlush(ps)
    ensures Shown(ps) == ps
  {
    if ps != [] {
      assert ps[0] in ps;
      AllShown(ps[1..]);
    }
  }

  lemma ShownCons(p: Piece, ps: seq<Piece>)
    ensures Stripped(Shown([p] + ps)) == (if BlankFlush(p) then "" else Strip(p.text)) + Stripped(Shown(ps))
    ensures Stripped([p] + ps) == Strip(p.text) + Stripped(ps)
  {
    assert ([p] + ps)[1..] == ps && ([p] + Shown(ps))[1..] == Shown(ps);
  }

  lemma {:induction false} ShownIsShorter(ps: seq<Piece>)
    ensures |Stripped(Shown(ps))| <= |Stripped(ps)|
    ensures !NoBlankFlush(ps) ==> |Stripped(Shown(ps))| < |Stripped(ps)|
  {
    if ps != [] {
      assert ps == [ps[0]] + ps[1..];
      ShownIsShorter(ps[1..]);
      ShownCons(ps[0], ps[1..]);
    }
  }

  /** The streamed text is the batch text before its outer strip, to the
      character, exactly when no boundary cuts through a block and no flush strips
      to white space. */
  lemma FilterIsExact(tokens: seq<string>)
    ensures Join(Emitted(Pieces(tokens))) == Strip(Join(tokens)) <==>
      Clean(Pieces(tokens)) && NoBlankFlush(Pieces(tokens))
  {
    var ps := Pieces(tokens);
    FilterRefinesBatch(tokens);
    TrimKeepsInk(Strip(Join(tokens)));
    PiecesCoverTokens(tokens);
    PassedTokensArePlain(tokens);
    EmittedIsShown(ps);
    ShownIsShorter(ps);
    if NoBlankFlush(ps) { AllShown(ps); }
    if Clean(ps) { CleanPiecesAreExact(ps); }
  }

  // ----- the promised case -----

  predicate TagBegins(s: string) { exists i :: 0 <= i < |s| && TagAt(s, OPEN, i) }

  /** An opening tag begins in `x` and ends in `y`. */
  predicate Straddles(x: string, y: string) {
    exists i :: 0 <= i < |x| < i + |OPEN| && TagAt(x + y, OPEN, i)
  }

  /** What a piece leaves after its blocks holds no opening tag, and none that
      ends in the text after the piece. */
  predicate WholeTags(ps: seq<Piece>) {
    forall k :: 0 <= k < |ps| - 1 ==>
      !TagBegins(Leftover(ps[k].text)) && !Straddles(Leftover(ps[k].text), Texts(ps[k + 1..]))
  }

  lemma SeveredTag(x: string, y: string)
    requires Severs(x, y)
    ensures TagBegins(Leftover(x)) || Straddles(Leftover(x), y)
  {
    var w := Leftover(x);
    var i := BlockStart(w + y);
    assert TagAt(w + y, OPEN, i);
    if i + |OPEN| <= |w| { TagInLeft(w, y, OPEN, i); }
  }

  lemma NothingFollows(x: string)
    ensures !Severs(x, "")
  {
    assert Leftover(x) + "" == Leftover(x);
  }

  lemma {:induction false} WholeTagsAreClean(ps: seq<Piece>)
    requires WholeTags(ps)
    ensures Clean(ps)
  {
    if ps != [] {
      var tail := ps[1..];
      assert forall k :: 0 <= k < |tail| - 1 ==> tail[k] == ps[k + 1] && tail[k + 1..] == ps[k + 1 + 1..];
      WholeTagsAreClean(tail);
      if tail == [] {
        NothingFollows(ps[0].text);
      } else if Severs(ps[0].text, Texts(tail)) {
        SeveredTag(ps[0].text, Texts(tail));
      }
    }
  }

  /** No tag straddles a token boundary outside a block and no flush leaves a
      block open. Then the stream is the batch form, whatever the last piece
      holds, an unterminated block included: up to white space, and to the
      character if no flush strips to white space. */
  lemma WholeTagsRefineBatch(tokens: seq<string>)
    requires WholeTags(Pieces(tokens))
    ensures Ink(Join(Emitted(Pieces(tokens)))) == Ink(Generate(Join(tokens)))
    ensures Join(Emitted(Pieces(tokens))) == Strip(Join(tokens)) <==> NoBlankFlush(Pieces(tokens))
  {
    WholeTagsAreClean(Pieces(tokens));
    FilterRefinesBatch(tokens);
    FilterIsExact(tokens);
  }

  lemma TwoPlainTokens(a: string, b: string)
    requires a != "" && b != "" && !Contains(a, OPEN) && !Contains(b, OPEN)
    ensures Emitted(Pieces([a, b])) == [a, b] && Join([a, b]) == a + b
  {
    assert [a, b][..1] == [a] && [a][..0] == [] && [a, b][1..] == [b] && [b][1..] == [];
    assert Feed([]) == Cut([], "");
    assert Feed([a]) == Cut([Pass(a)], "");
    assert Pieces([a, b]) == [Pass(a), Pass(b)];
    assert [Pass(a), Pass(b)][1..] == [Pass(b)] && [Pass(b)][1..] == [];
    assert Emitted([Pass(b)]) == [b] && Join([b]) == b;
  }

  /** An opening tag split over two tokens, however it is split, lets the whole
      block through, though the batch form deletes it. */
  lemma SplitTagGetsThrough(a: string, b: string, body: string)
    requires a + b == OPEN + body + CLOSE && 0 < |a| < |OPEN| && '<' !in body
    ensures Emitted(Pieces([a, b])) == [a, b]
    ensures Strip(Join([a, b])) == ""
  {
    SplitTagIsPlain(a, b, body);
    TwoPlainTokens(a, b);
    WholeBlockIsStripped(body);
  }

  lemma SplitTagIsPlain(a: string, b: string, body: string)
    requires a + b == OPEN + body + CLOSE && 0 < |a| < |OPEN| && '<' !in body
    ensures !Contains(a, OPEN) && !Contains(b, OPEN)
  {
    var s, at := OPEN + body + CLOSE, |OPEN| + |body|;
    assert s[at + 1] == CLOSE[1];
    forall p: nat | p < |b| ensures !TagAt(b, OPEN, p) {
      assert b[p] == s[|a| + p];
      if |a| + p == at {
        assert b[p + 1] == s[at + 1];
        NotTag(b, OPEN, p, 1);
      } else {
        assert s[|a| + p] != '<';
        NotTag(b, OPEN, p, 0);
      }
    }
  }

  lemma WholeBlockIsStripped(body: string)
    requires '<' !in body
    ensures Strip(OPEN + body + CLOSE) == ""
  {
    var s, c := OPEN + body + CLOSE, |OPEN| + |body|;
    assert s[0..|OPEN|] == OPEN && s[c..c + |CLOSE|] == CLOSE;
    forall p | |OPEN| <= p < c ensures !TagAt(s, CLOSE, p) {
      assert s[p] == body[p - |OPEN|];
      NotTag(s, CLOSE, p, 0);
    }
    FirstBlockIs(s, 0, c);
    assert s[..0] + Strip(AfterBlock(s)) == "";
  }
}
