/** What the student sees of a chat answer, said on the model's tokens and without
    the filter's buffer: backend/app/api/routes/ai.py, `generate_stream`. */
module ChatTokens {
  import opened Text
  import opened ThinkFilter
  import opened ChatStream

  // ----- stretches of tokens -----

  /** The first token holds an opening tag, and the tokens complete no closing tag
      before the last one. */
  predicate Opens(g: seq<string>) {
    g != [] && Contains(g[0], OPEN) && forall k :: 0 < k < |g| ==> !Contains(Join(g[..k]), CLOSE)
  }

  /** A token on its own, tokens that open a block up to the one that closes it, or
      tokens that open one for good. */
  predicate IsPlain(token: string) { token != "" && !Contains(token, OPEN) }
  predicate IsBlock(g: seq<string>) { Opens(g) && Contains(Join(g), CLOSE) }
  predicate IsOpen(g: seq<string>) { Opens(g) && !Contains(Join(g), CLOSE) }

  /** What buffered tokens send: their text without its blocks, if it is visible. */
  function Visible(g: seq<string>): seq<Msg> {
    if Blank(Strip(Join(g))) then [] else [Token(Strip(Join(g)))]
  }

  function Ending(breaks: bool): seq<Msg> { if breaks then [Error(UNAVAILABLE)] else [Done] }

  /** After a point where nothing is buffered the filter begins anew. */
  lemma {:induction false} FeedAfter(a: seq<string>, b: seq<string>)
    requires Feed(a).buf == ""
    ensures Feed(a + b) == Cut(Feed(a).pieces + Feed(b).pieces, Feed(b).buf)
  {
    if b == [] {
      assert a + b == a;
    } else {
      var init, last := b[..|b| - 1], b[|b| - 1];
      FeedAfter(a, init);
      assert (a + b)[..|a + b| - 1] == a + init;
      assert Feed(a).pieces + (Feed(init).pieces + [Pass(last)]) == (Feed(a).pieces + Feed(init).pieces) + [Pass(last)];
      var flush := Flush(Feed(init).buf + last);
      assert Feed(a).pieces + (Feed(init).pieces + [flush]) == (Feed(a).pieces + Feed(init).pieces) + [flush];
    }
  }

  lemma JoinPrefix(g: seq<string>, k: nat)
    requires 0 < k <= |g|
    ensures Join(g[..k]) == Join(g[..k - 1]) + g[k - 1]
  {
    assert g[..k] == g[..k - 1] + [g[k - 1]];
    JoinAppend(g[..k - 1], [g[k - 1]]);
    assert Join([g[k - 1]]) == g[k - 1] + "" == g[k - 1];
  }

  /** Everything from the opening token on is buffered. */
  lemma {:induction false} Buffering(g: seq<string>, k: nat)
    requires Opens(g) && 0 < k <= |g| && !Contains(Join(g[..k]), CLOSE)
    ensures Feed(g[..k]) == Cut([], Join(g[..k])) && Join(g[..k]) != ""
  {
    JoinPrefix(g, k);
    assert g[..k][..k - 1] == g[..k - 1];
    if k == 1 {
      assert Join(g[..0]) + g[0] == g[0];
    } else {
      Buffering(g, k - 1);
    }
  }

  lemma TakeFlushes(buf: string, token: string)
    requires token != "" && (Contains(token, OPEN) || buf != "") && Contains(buf + token, CLOSE)
    ensures Take(Cut([], buf), token) == Cut([Flush(buf + token)], "")
  {
  }

  lemma BlockIsFlushed(g: seq<string>)
    requires IsBlock(g)
    ensures Feed(g) == Cut([Flush(Join(g))], "")
  {
    var init, last := g[..|g| - 1], g[|g| - 1];
    JoinPrefix(g, |g|);
    assert g[..|g|] == g && Join(g) == Join(init) + last;
    if init == [] {
      assert "" + last == last && Feed(init) == Cut([], "");
      TakeFlushes("", last);
    } else {
      Buffering(g, |g| - 1);
      assert last == "" ==> Join(init) + last == Join(init);
      TakeFlushes(Join(init), last);
    }
  }

  lemma OpenIsBuffered(g: seq<string>)
    requires IsOpen(g)
    ensures Feed(g) == Cut([], Join(g)) && Join(g) != ""
  {
    assert g[..|g|] == g;
    Buffering(g, |g|);
  }

  lemma Associate<T>(a: seq<T>, b: seq<T>, c: seq<T>)
    ensures a + (b + c) == (a + b) + c
  {
  }

  lemma {:induction false} EmittedAppend(a: seq<Piece>, b: seq<Piece>)
    ensures Emitted(a + b) == Emitted(a) + Emitted(b)
  {
    if a == [] {
      assert a + b == b;
    } else {
      EmittedAppend(a[1..], b);
      assert (a + b)[1..] == a[1..] + b;
      Associate(Sent(a[0]), Emitted(a[1..]), Emitted(b));
    }
  }

  lemma TokensAppend(a: seq<string>, b: seq<string>)
    ensures Tokens(a + b) == Tokens(a) + Tokens(b)
  {
  }

  /** Messages for tokens that leave nothing buffered come first. */
  lemma MessagesAfter(attempts: seq<Attempt>, a: seq<string>, b: seq<string>, breaks: bool)
    requires Connects(attempts) && Feed(a).buf == ""
    ensures Messages(attempts, a + b, breaks) == Tokens(Emitted(Feed(a).pieces)) + Messages(attempts, b, breaks)
  {
    FeedAfter(a, b);
    var ps := Feed(a).pieces;
    var qs := if breaks then Feed(b).pieces else Pieces(b);
    Associate(ps, Feed(b).pieces, [Flush(Feed(b).buf)]);
    assert (if breaks then Feed(a + b).pieces else Pieces(a + b)) == ps + qs;
    EmittedAppend(ps, qs);
    TokensAppend(Emitted(ps), Emitted(qs));
    Associate(Tokens(Emitted(ps)), Tokens(Emitted(qs)), Ending(breaks));
  }

  lemma OneSent(p: Piece)
    ensures Emitted([p]) == Sent(p)
  {
    assert [p][1..] == [];
  }

  // ----- message by message -----

  /** A token outside a block is sent at once, and an empty one never. */
  lemma PlainIsSent(attempts: seq<Attempt>, token: string, rest: seq<string>, breaks: bool)
    requires Connects(attempts) && (token == "" || IsPlain(token))
    ensures Messages(attempts, [token] + rest, breaks) ==
      (if token == "" then [] else [Token(token)]) + Messages(attempts, rest, breaks)
  {
    assert [token][..0] == [];
    assert Feed([token]) == Take(Cut([], ""), token);
    MessagesAfter(attempts, [token], rest, breaks);
    OneSent(Pass(token));
  }

  /** Nothing of a block is sent before it is closed, and then what is visible
      around it, as one message. */
  lemma BlockIsHeldBack(attempts: seq<Attempt>, g: seq<string>, rest: seq<string>, breaks: bool)
    requires Connects(attempts) && IsBlock(g)
    ensures Messages(attempts, g + rest, breaks) == Visible(g) + Messages(attempts, rest, breaks)
  {
    BlockIsFlushed(g);
    MessagesAfter(attempts, g, rest, breaks);
    OneSent(Flush(Join(g)));
  }

  lemma LastFlush(buf: string)
    requires buf != ""
    ensures Emitted(Finish(Cut([], buf))) == Sent(Flush(buf))
  {
    OneSent(Flush(buf));
    assert Finish(Cut([], buf)) == [Flush(buf)];
  }

  /** A block that is never closed is sent at the end, unless the source breaks. */
  lemma OpenComesLast(attempts: seq<Attempt>, g: seq<string>, breaks: bool)
    requires Connects(attempts) && (g == [] || IsOpen(g))
    ensures Messages(attempts, g, breaks) == (if breaks || g == [] then [] else Visible(g)) + Ending(breaks)
  {
    if g == [] {
      assert Emitted([]) == [];
    } else {
      OpenIsBuffered(g);
      LastFlush(Join(g));
    }
  }

  /** Any token sequence read from the left: plain or empty tokens and blocks. */
  datatype Part = Single(token: string) | Block(tokens: seq<string>)

  predicate IsPart(p: Part) {
    match p
    case Single(token) => token == "" || IsPlain(token)
    case Block(g) => IsBlock(g)
  }

  function TokensOf(p: Part): seq<string> {
    match p
    case Single(token) => [token]
    case Block(g) => g
  }

  function Flat(ps: seq<Part>): seq<string> {
    if ps == [] then [] else TokensOf(ps[0]) + Flat(ps[1..])
  }

  predicate IsStream(ps: seq<Part>, tail: seq<string>) {
    (forall p <- ps :: IsPart(p)) && (tail == [] || IsOpen(tail))
  }

  function ShownOf(p: Part): seq<Msg> {
    match p
    case Single(token) => if token == "" then [] else [Token(token)]
    case Block(g) => Visible(g)
  }

  function Shown(ps: seq<Part>): seq<Msg> {
    if ps == [] then [] else ShownOf(ps[0]) + Shown(ps[1..])
  }

  lemma PartComesFirst(attempts: seq<Attempt>, p: Part, rest: seq<string>, breaks: bool)
    requires Connects(attempts) && IsPart(p)
    ensures Messages(attempts, TokensOf(p) + rest, breaks) == ShownOf(p) + Messages(attempts, rest, breaks)
  {
    match p
    case Single(token) => PlainIsSent(attempts, token, rest, breaks);
    case Block(g) => BlockIsHeldBack(attempts, g, rest, breaks);
  }

  lemma Regroup<T>(a: seq<T>, b: seq<T>, c: seq<T>, d: seq<T>)
    ensures a + (b + c + d) == (a + b) + c + d
  {
  }

  /** The messages of an answer, part by part. */
  lemma {:induction false} StreamOfParts(attempts: seq<Attempt>, ps: seq<Part>, tail: seq<string>, breaks: bool)
    requires Connects(attempts) && IsStream(ps, tail)
    ensures Messages(attempts, Flat(ps) + tail, breaks) ==
      Shown(ps) + (if breaks || tail == [] then [] else Visible(tail)) + Ending(breaks)
    decreases |ps|
  {
    if ps == [] {
      assert Flat(ps) + tail == tail;
      OpenComesLast(attempts, tail, breaks);
    } else {
      var p, more := ps[0], ps[1..];
      assert p in ps;
      StreamOfParts(attempts, more, tail, breaks);
      Associate(TokensOf(p), Flat(more), tail);
      PartComesFirst(attempts, p, Flat(more) + tail, breaks);
      Regroup(ShownOf(p), Shown(more), if breaks || tail == [] then [] else Visible(tail), Ending(breaks));
    }
  }

  /** The shortest stretch of tokens that closes what the first one opens. */
  lemma {:induction false} CloseAt(g: seq<string>, n: nat) returns (k: nat)
    requires g != [] && Contains(g[0], OPEN) && 0 < n <= |g|
    ensures 0 < k <= n && Opens(g[..k])
    ensures k < n ==> Contains(Join(g[..k]), CLOSE)
  {
    if n == 1 {
      k := 1;
    } else {
      k := CloseAt(g, n - 1);
      if k == n - 1 && !Contains(Join(g[..k]), CLOSE) {
        assert forall j :: 0 < j < k ==> g[..n][..j] == g[..k][..j];
        assert g[..n][..k] == g[..k];
        k := n;
      }
    }
  }

  lemma StreamCons(p: Part, ps: seq<Part>, tail: seq<string>, tokens: seq<string>)
    requires IsPart(p) && IsStream(ps, tail) && tokens == TokensOf(p) + (Flat(ps) + tail)
    ensures IsStream([p] + ps, tail) && tokens == Flat([p] + ps) + tail
  {
    PartsCons(p, ps);
    Associate(TokensOf(p), Flat(ps), tail);
  }

  lemma PartsCons(p: Part, ps: seq<Part>)
    ensures Flat([p] + ps) == TokensOf(p) + Flat(ps) && Shown([p] + ps) == ShownOf(p) + Shown(ps)
  {
    assert ([p] + ps)[1..] == ps;
  }

  /** The first part, up to the token that closes what the first one opens. */
  lemma FirstPart(tokens: seq<string>) returns (p: Part, rest: seq<string>)
    requires tokens != [] && !IsOpen(tokens)
    ensures IsPart(p) && tokens == TokensOf(p) + rest && |rest| < |tokens|
  {
    if Contains(tokens[0], OPEN) {
      var k := CloseAt(tokens, |tokens|);
      assert k == |tokens| ==> tokens[..k] == tokens;
      p, rest := Block(tokens[..k]), tokens[k..];
    } else {
      p, rest := Single(tokens[0]), tokens[1..];
    }
  }

  /** Every token sequence is made of such parts. */
  lemma {:induction false} EveryStreamHasParts(tokens: seq<string>) returns (ps: seq<Part>, tail: seq<string>)
    ensures IsStream(ps, tail) && tokens == Flat(ps) + tail
    decreases |tokens|
  {
    if tokens == [] || IsOpen(tokens) {
      ps, tail := [], tokens;
    } else {
      var p, rest := FirstPart(tokens);
      ps, tail := EveryStreamHasParts(rest);
      StreamCons(p, ps, tail, tokens);
      ps := [p] + ps;
    }
  }

  function Singles(texts: seq<string>): seq<Part> { seq(|texts|, i requires 0 <= i < |texts| => Single(texts[i])) }

  lemma {:induction false} SinglesAre(texts: seq<string>)
    requires forall t <- texts :: IsPlain(t)
    ensures Flat(Singles(texts)) == texts && Shown(Singles(texts)) == Tokens(texts)
    ensures forall p <- Singles(texts) :: IsPart(p)
  {
    if texts != [] {
      assert texts[0] in texts && Singles(texts)[1..] == Singles(texts[1..]);
      SinglesAre(texts[1..]);
      assert Tokens(texts) == [Token(texts[0])] + Tokens(texts[1..]);
    }
  }

  lemma {:induction false} FlatAppend(a: seq<Part>, b: seq<Part>)
    ensures Flat(a + b) == Flat(a) + Flat(b)
  {
    if a == [] {
      assert a + b == b;
    } else {
      FlatAppend(a[1..], b);
      assert a + b == [a[0]] + (a[1..] + b);
      PartsCons(a[0], a[1..] + b);
      Associate(TokensOf(a[0]), Flat(a[1..]), Flat(b));
    }
  }

  lemma {:induction false} ShownAppend(a: seq<Part>, b: seq<Part>)
    ensures Shown(a + b) == Shown(a) + Shown(b)
  {
    if a == [] {
      assert a + b == b;
    } else {
      var shown := ShownOf(a[0]);
      ShownAppend(a[1..], b);
      assert a + b == [a[0]] + (a[1..] + b);
      PartsCons(a[0], a[1..] + b);
      Associate(shown, Shown(a[1..]), Shown(b));
    }
  }

  lemma OneBlock(g: seq<string>)
    ensures Flat([Block(g)]) == g && Shown([Block(g)]) == Visible(g)
  {
    var none: seq<Part> := [];
    PartsCons(Block(g), none);
    assert [Block(g)] + none == [Block(g)];
  }

  /** Plain tokens, a block opened in one token and closed in the same or a later
      one, and plain tokens: the tokens one by one, and between them what is visible
      around the block. */
  lemma BlockAmongPlainTokens(attempts: seq<Attempt>, before: seq<string>, g: seq<string>, after: seq<string>, breaks: bool)
    requires Connects(attempts) && IsBlock(g)
    requires (forall t <- before :: IsPlain(t)) && (forall t <- after :: IsPlain(t))
    ensures Messages(attempts, before + g + after, breaks) ==
      Tokens(before) + Visible(g) + Tokens(after) + Ending(breaks)
  {
    var a, b, c := Singles(before), [Block(g)], Singles(after);
    SinglesAre(before);
    SinglesAre(after);
    OneBlock(g);
    FlatAppend(a, b);
    FlatAppend(a + b, c);
    ShownAppend(a, b);
    ShownAppend(a + b, c);
    assert before + g + after + [] == before + g + after;
    var none: seq<Msg> := [];
    assert Shown(a + b + c) + none == Shown(a + b + c);
    StreamOfParts(attempts, a + b + c, [], breaks);
  }

  // ----- against the batch form -----

  /** No block is open after this text. */
  predicate Outside(x: string) { !TagBegins(Leftover(x)) }

  /** After `x` the token closes a block, or opens and closes one by itself. */
  predicate Closes(x: string, token: string) {
    HasBlock(Leftover(x) + token) || (Contains(token, OPEN) && Contains(token, CLOSE))
  }

  /** After this token, no opening tag outside a block goes on in the next ones, and
      a token that closes a block leaves none open. */
  predicate WholeAfter(x: string, token: string, y: string) {
    && (Outside(x + token) ==> !Straddles(Leftover(x + token), y))
    && (Closes(x, token) ==> Outside(x + token))
  }

  /** So at every token boundary. */
  predicate WholeTokens(tokens: seq<string>) {
    forall i :: 0 <= i < |tokens| && Join(tokens[i + 1..]) != "" ==>
      WholeAfter(Join(tokens[..i]), tokens[i], Join(tokens[i + 1..]))
  }

  /** No stretch of tokens that begins with an opening one strips to white space. */
  predicate NoBlankStretch(tokens: seq<string>) {
    forall i, j :: 0 <= i < j <= |tokens| && Contains(tokens[i], OPEN) ==> !BlankFlush(Flush(Join(tokens[i..j])))
  }

  /** The text of the token messages. */
  function Said(ms: seq<Msg>): string {
    if ms == [] then "" else (if ms[0].Token? then ms[0].text else "") + Said(ms[1..])
  }

  lemma {:induction false} SaidTokens(texts: seq<string>)
    ensures Said(Tokens(texts)) == Join(texts)
  {
    if texts != [] {
      SaidTokens(texts[1..]);
      assert Tokens(texts)[1..] == Tokens(texts[1..]);
    }
  }

  lemma {:induction false} SaidEnd(ms: seq<Msg>, end: Msg)
    requires !end.Token?
    ensures Said(ms + [end]) == Said(ms)
  {
    if ms == [] {
      assert ms + [end] == [end] && [end][1..] == [];
    } else {
      SaidEnd(ms[1..], end);
      assert (ms + [end])[1..] == ms[1..] + [end];
    }
  }

  /** Nothing is open after `p`, and no opening tag begins there and ends in `rest`. */
  predicate Settled(p: string, rest: string) {
    Outside(p) && !Straddles(Leftover(p), rest)
  }

  lemma SettledSeversNothing(p: string, b: string, rest: string)
    requires Settled(p, b + rest)
    ensures !Severs(p, b) && forall i :: 0 <= i < |Leftover(p)| ==> !TagAt(Leftover(p) + b, OPEN, i)
  {
    var w := Leftover(p);
    forall i | 0 <= i < |w| ensures !TagAt(w + b, OPEN, i) {
      if i + |OPEN| <= |w| {
        TagInLeft(w, b, OPEN, i);
      } else if TagAt(w + b, OPEN, i) {
        Assoc(w, b, rest);
        TagInLeft(w + b, rest, OPEN, i);
      }
    }
  }

  lemma PlainAfterSettled(w: string, t: string)
    requires (forall i :: 0 <= i < |w| ==> !TagAt(w + t, OPEN, i)) && !Contains(t, OPEN)
    ensures !TagBegins(w + t) && Leftover(w + t) == w + t
  {
    forall i | 0 <= i < |w + t| ensures !TagAt(w + t, OPEN, i) {
      if i >= |w| { TagInRight(w, t, OPEN, i - |w|); }
    }
  }

  /** What is left after a plain token. */
  lemma LeftoverOfPlain(p: string, t: string, rest: string)
    requires Settled(p, t + rest) && !Contains(t, OPEN)
    ensures Leftover(p + t) == Leftover(p) + t && Outside(p + t)
  {
    SettledSeversNothing(p, t, rest);
    PlainAfterSettled(Leftover(p), t);
    LeftoverAcross(p, t);
  }

  lemma {:induction false} LeftoverAcross(x: string, y: string)
    ensures Leftover(x + y) == Leftover(Leftover(x) + y)
    decreases |x|
  {
    if HasBlock(x) {
      BlockInLeft(x, y);
      LeftoverAcross(AfterBlock(x), y);
    }
  }

  lemma PassSettles(p: string, t: string, y: string)
    requires Settled(p, t + y) && !Contains(t, OPEN) && (y != "" ==> WholeAfter(p, t, y))
    ensures y != "" ==> Settled(p + t, y)
    ensures Strip(p + t) == Strip(p) + t
  {
    LeftoverOfPlain(p, t, y);
    SettledSeversNothing(p, t, y);
    StripAcrossCut(p, t);
    StripPlain(t);
  }

  /** The closing tag that a buffered opening tag waits for comes after it. */
  lemma CloseComesLater(buf: string, t: string)
    requires Contains(buf, OPEN) && !Contains(buf, CLOSE) && Contains(buf + t, CLOSE)
    ensures HasBlock(buf + t)
  {
    var i, c := Find(buf, OPEN, 0), Find(buf + t, CLOSE, 0);
    TagInLeft(buf, t, OPEN, i);
    if c + |CLOSE| <= |buf| {
      TagInLeft(buf, t, CLOSE, c);
      assert false;
    }
    if c < i + |OPEN| {
      TagChar(buf + t, CLOSE, c, 0);
      TagChar(buf + t, CLOSE, c, 1);
      TagChar(buf + t, OPEN, i, c - i);
      TagChar(buf + t, OPEN, i, 1);
      assert false;
    }
    PairMeansBlock(buf + t, i, c);
  }

  /** A block that is open stays so while no closing tag comes. */
  lemma OpenStaysOpen(p: string, buf: string, rest: string)
    requires Settled(p, buf + rest) && !Contains(buf, CLOSE)
    ensures Leftover(p + buf) == Leftover(p) + buf
  {
    var w := Leftover(p);
    LeftoverAcross(p, buf);
    SettledSeversNothing(p, buf, rest);
    if HasBlock(w + buf) {
      BlockFromRight(w, buf);
      assert false;
    }
  }

  lemma FlushCloses(p: string, buf: string, t: string, y: string)
    requires Settled(p, buf + (t + y)) && Contains(buf + t, CLOSE)
    requires if buf == "" then Contains(t, OPEN) else Contains(buf, OPEN) && !Contains(buf, CLOSE)
    ensures Closes(p + buf, t)
  {
    if buf == "" {
      assert buf + t == t;
    } else {
      OpenStaysOpen(p, buf, t + y);
      CloseComesLater(buf, t);
      BlockInRight(Leftover(p), buf + t);
      Assoc(Leftover(p), buf, t);
    }
  }

  lemma FlushSettles(p: string, buf: string, t: string, y: string)
    requires Settled(p, buf + (t + y)) && Contains(buf + t, CLOSE)
    requires if buf == "" then Contains(t, OPEN) else Contains(buf, OPEN) && !Contains(buf, CLOSE)
    requires y != "" ==> WholeAfter(p + buf, t, y)
    ensures y != "" ==> Settled(p + (buf + t), y)
    ensures Strip(p + (buf + t)) == Strip(p) + Strip(buf + t)
  {
    FlushCloses(p, buf, t, y);
    Assoc(p, buf, t);
    Assoc(buf, t, y);
    SettledSeversNothing(p, buf + t, y);
    StripAcrossCut(p, buf + t);
  }

  // ----- along the tokens -----

  /** What is cut off is settled, and what is buffered opened a block and did not
      close it; `y` is the text still to come. */
  predicate Tracks(c: Cut, y: string) {
    && (c.buf + y != "" ==> Settled(Texts(c.pieces), c.buf + y))
    && (c.buf != "" ==> Contains(c.buf, OPEN) && !Contains(c.buf, CLOSE))
  }

  /** What the pieces send is the batch text of what they cut off: up to white
      space, and to the character if `exact`. */
  predicate Faithful(ps: seq<Piece>, exact: bool) {
    && Ink(Join(Emitted(ps))) == Ink(Strip(Texts(ps)))
    && (exact ==> Join(Emitted(ps)) == Strip(Texts(ps)))
  }

  lemma FaithfulSnoc(ps: seq<Piece>, p: Piece, exact: bool)
    requires Faithful(ps, exact) && Strip(Texts(ps) + p.text) == Strip(Texts(ps)) + Strip(p.text)
    requires (p.Pass? ==> !Contains(p.text, OPEN)) && (exact ==> !BlankFlush(p))
    ensures Faithful(ps + [p], exact)
  {
    TextsSnoc(ps, p);
    EmittedSnoc(ps, p);
    JoinAppend(Emitted(ps), Sent(p));
    SentInk(p);
    SentIsStripped(p);
    InkAppend(Join(Emitted(ps)), Join(Sent(p)));
    InkAppend(Strip(Texts(ps)), Strip(p.text));
  }

  lemma TakeTracks(c: Cut, t: string, y: string, exact: bool)
    requires Tracks(c, t + y) && Faithful(c.pieces, exact)
    requires y != "" ==> WholeAfter(Texts(c.pieces) + c.buf, t, y)
    requires exact && (c.buf != "" || Contains(t, OPEN)) ==> !BlankFlush(Flush(c.buf + t))
    ensures Tracks(Take(c, t), y) && Faithful(Take(c, t).pieces, exact)
  {
    var p := Texts(c.pieces);
    if t == "" {
      assert t + y == y;
    } else if !Contains(t, OPEN) && c.buf == "" {
      assert c.buf + (t + y) == t + y && p + "" == p && "" + y == y;
      PassSettles(p, t, y);
      StripPlain(t);
      TextsSnoc(c.pieces, Pass(t));
      FaithfulSnoc(c.pieces, Pass(t), exact);
    } else if Contains(c.buf + t, CLOSE) {
      FlushSettles(p, c.buf, t, y);
      TextsSnoc(c.pieces, Flush(c.buf + t));
      FaithfulSnoc(c.pieces, Flush(c.buf + t), exact);
      assert "" + y == y;
    } else {
      Assoc(c.buf, t, y);
      StillOpen(c.buf, t);
    }
  }

  lemma StillOpen(buf: string, t: string)
    requires Contains(t, OPEN) || (buf != "" && Contains(buf, OPEN))
    ensures Contains(buf + t, OPEN)
  {
    if Contains(t, OPEN) {
      TagInRight(buf, t, OPEN, Find(t, OPEN, 0));
    } else {
      TagInLeft(buf, t, OPEN, Find(buf, OPEN, 0));
    }
  }

  /** The buffer is a stretch of tokens that begins with an opening one. */
  ghost predicate Stretch(tokens: seq<string>, i: nat, buf: string) {
    buf != "" ==> exists j :: 0 <= j < i <= |tokens| && Contains(tokens[j], OPEN) && buf == Join(tokens[j..i])
  }

  lemma JoinOneMore(tokens: seq<string>, j: nat, i: nat)
    requires j <= i < |tokens|
    ensures Join(tokens[j..i + 1]) == Join(tokens[j..i]) + tokens[i]
  {
    var g := tokens[j..i + 1];
    JoinPrefix(g, i + 1 - j);
    assert g[..i - j] == tokens[j..i] && g[..i + 1 - j] == g;
  }

  lemma StretchGrows(tokens: seq<string>, i: nat, buf: string)
    requires i < |tokens| && Stretch(tokens, i, buf) && (buf == "" ==> Contains(tokens[i], OPEN))
    ensures Stretch(tokens, i + 1, buf + tokens[i])
    ensures NoBlankStretch(tokens) ==> !BlankFlush(Flush(buf + tokens[i]))
  {
    var j := i;
    if buf != "" { j :| 0 <= j < i && Contains(tokens[j], OPEN) && buf == Join(tokens[j..i]); }
    JoinOneMore(tokens, j, i);
    assert Join(tokens[j..i + 1]) == buf + tokens[i];
  }

  lemma StretchStep(tokens: seq<string>, i: nat, c: Cut)
    requires i < |tokens| && Stretch(tokens, i, c.buf)
    ensures Stretch(tokens, i + 1, Take(c, tokens[i]).buf)
    ensures NoBlankStretch(tokens) && (c.buf != "" || Contains(tokens[i], OPEN)) ==>
      !BlankFlush(Flush(c.buf + tokens[i]))
  {
    var t := tokens[i];
    assert t == "" ==> c.buf + t == c.buf;
    if c.buf != "" || Contains(t, OPEN) { StretchGrows(tokens, i, c.buf); }
  }

  /** Where the filter stands before token `i`. */
  ghost predicate StandsAt(tokens: seq<string>, i: nat, c: Cut)
    requires i <= |tokens|
  {
    && Tracks(c, Join(tokens[i..])) && Faithful(c.pieces, NoBlankStretch(tokens)) && Stretch(tokens, i, c.buf)
    && Texts(c.pieces) + c.buf == Join(tokens[..i])
  }

  lemma StandsStep(tokens: seq<string>, i: nat, c: Cut)
    requires WholeTokens(tokens) && i < |tokens| && StandsAt(tokens, i, c)
    ensures StandsAt(tokens, i + 1, Take(c, tokens[i]))
  {
    var t, y := tokens[i], Join(tokens[i + 1..]);
    assert tokens[i..][1..] == tokens[i + 1..];
    StretchStep(tokens, i, c);
    TakeTracks(c, t, y, NoBlankStretch(tokens));
    TakeKeepsText(c, t);
    Assoc(Texts(c.pieces), c.buf, t);
    JoinPrefix(tokens, i + 1);
  }

  lemma {:induction false} WholeTokensTrack(tokens: seq<string>, i: nat)
    requires WholeTokens(tokens) && i <= |tokens|
    ensures StandsAt(tokens, i, Feed(tokens[..i]))
  {
    if i == 0 {
      assert Leftover("") == "" && Strip("") == "";
    } else {
      WholeTokensTrack(tokens, i - 1);
      assert tokens[..i][..i - 1] == tokens[..i - 1];
      StandsStep(tokens, i - 1, Feed(tokens[..i - 1]));
    }
  }

  /** No opening tag goes on over a token boundary outside a block, and a token that
      closes a block leaves none open. Then what is said is the batch text, whatever
      the tokens end with: up to white space, and to the character if no buffered
      stretch strips to white space. */
  lemma WholeTokensRefineBatch(attempts: seq<Attempt>, tokens: seq<string>)
    requires Connects(attempts) && WholeTokens(tokens)
    ensures var said := Said(Messages(attempts, tokens, false));
      Ink(said) == Ink(Generate(Join(tokens))) && (NoBlankStretch(tokens) ==> said == Strip(Join(tokens)))
  {
    var c, n, exact := Feed(tokens), |tokens|, NoBlankStretch(tokens);
    assert tokens[..n] == tokens && tokens[n..] == [];
    WholeTokensTrack(tokens, n);
    FeedKeepsText(tokens);
    FinishIsFaithful(c, exact, tokens);
    SaidTokens(Emitted(Pieces(tokens)));
    SaidEnd(Tokens(Emitted(Pieces(tokens))), Done);
    TrimKeepsInk(Strip(Join(tokens)));
  }

  lemma FinishIsFaithful(c: Cut, exact: bool, tokens: seq<string>)
    requires Tracks(c, "") && Faithful(c.pieces, exact) && Stretch(tokens, |tokens|, c.buf)
    requires exact ==> NoBlankStretch(tokens)
    ensures Faithful(Finish(c), exact) && Texts(Finish(c)) == Texts(c.pieces) + c.buf
  {
    var p := Texts(c.pieces);
    if c.buf == "" {
      assert p + "" == p;
    } else {
      assert c.buf + "" == c.buf;
      SettledSeversNothing(p, c.buf, "");
      StripAcrossCut(p, c.buf);
      TextsSnoc(c.pieces, Flush(c.buf));
      FaithfulSnoc(c.pieces, Flush(c.buf), exact);
    }
  }
}
