/** backend/app/api/routes/ai.py, `generate_stream`: the NDJSON messages of one
    chat answer. */
module ChatStream {
  import opened Text
  import opened ThinkFilter

  const RETRY_ATTEMPTS := 3
  const UNAVAILABLE := "AI assistant is currently unavailable. Contact your instructor if this persists."

  datatype Msg = Token(text: string) | Done | Error(text: string)

  /** What one call of `chat_stream` does. */
  datatype Attempt = Connected | ConnectError | OllamaError | OtherError

  /** The outcomes of the calls, as far as they are made. */
  type Attempts = a: seq<Attempt> | |a| == RETRY_ATTEMPTS witness [Connected, Connected, Connected]

  /** The model is reached when some attempt connects and only errors that are
      retried come before it. */
  predicate Connects(attempts: seq<Attempt>) {
    exists k :: 0 <= k < |attempts| && attempts[k].Connected? && forall j :: 0 <= j < k ==> Retried(attempts[j])
  }

  predicate Retried(a: Attempt) { a.ConnectError? || a.OllamaError? }

  function Tokens(texts: seq<string>): seq<Msg> {
    seq(|texts|, i requires 0 <= i < |texts| => Token(texts[i]))
  }

  /** `breaks`: the token source raises after its last token, which skips the
      final flush. */
  function Messages(attempts: seq<Attempt>, tokens: seq<string>, breaks: bool): seq<Msg> {
    if !Connects(attempts) then [Error(UNAVAILABLE)]
    else if breaks then Tokens(Emitted(Feed(tokens).pieces)) + [Error(UNAVAILABLE)]
    else Tokens(Emitted(Pieces(tokens))) + [Done]
  }

  lemma {:induction false} EmittedSnoc(ps: seq<Piece>, p: Piece)
    ensures Emitted(ps + [p]) == Emitted(ps) + Sent(p)
  {
    if ps == [] {
      assert ps + [p] == [p] && [p][1..] == [];
    } else {
      EmittedSnoc(ps[1..], p);
      assert (ps + [p])[1..] == ps[1..] + [p];
    }
  }

  /** Sending one more piece. */
  lemma SendSnoc(ps: seq<Piece>, p: Piece)
    ensures Tokens(Emitted(ps + [p])) == Tokens(Emitted(ps)) + Tokens(Sent(p))
  {
    EmittedSnoc(ps, p);
  }

  /** The retry loop: is the model reached within the attempts allowed? */
  method Reach(attempts: Attempts) returns (connected: bool)
    ensures connected <==> Connects(attempts)
    ensures connected <==> exists k ::
      && 0 <= k < |attempts| && attempts[k] == Connected
      && forall j :: 0 <= j < k ==> attempts[j] == ConnectError || attempts[j] == OllamaError
  {
    var attempt := 0;
    while attempt < RETRY_ATTEMPTS
      invariant 0 <= attempt <= RETRY_ATTEMPTS
      invariant forall j :: 0 <= j < attempt ==> Retried(attempts[j])
    {
      match attempts[attempt]
      case Connected => return true;
      case OtherError => return false;
      case _ => attempt := attempt + 1;
    }
    connected := false;
  }

  /** The line, if any, sent for a flushed buffer. */
  method FlushLine(thinkBuf: string) returns (line: seq<Msg>)
    ensures line == Tokens(Sent(Flush(thinkBuf)))
  {
    var cleaned := Strip(thinkBuf);
    line := if Blank(cleaned) then [] else [Token(cleaned)];
  }

  method GenerateStream(attempts: Attempts, tokens: seq<string>, breaks: bool) returns (out: seq<Msg>)
    ensures out == Messages(attempts, tokens, breaks)
  {
    var connected := Reach(attempts);
    if !connected { return [Error(UNAVAILABLE)]; }
    out := [];
    var inThink, thinkBuf := false, "";
    var i := 0;
    while i < |tokens|
      invariant 0 <= i <= |tokens|
      invariant inThink <==> thinkBuf != ""
      invariant thinkBuf == Feed(tokens[..i]).buf
      invariant out == Tokens(Emitted(Feed(tokens[..i]).pieces))
    {
      var token := tokens[i];
      ghost var c := Feed(tokens[..i]);
      assert tokens[..i + 1][..i] == tokens[..i];
      i := i + 1;
      assert Feed(tokens[..i]) == Take(c, token);
      if token == "" { continue; }
      if Contains(token, OPEN) || inThink {
        inThink := true;
        thinkBuf := thinkBuf + token;
        if Contains(thinkBuf, CLOSE) {
          SendSnoc(c.pieces, Flush(thinkBuf));
          var line := FlushLine(thinkBuf);
          out := out + line;
          inThink, thinkBuf := false, "";
        }
        continue;
      }
      SendSnoc(c.pieces, Pass(token));
      out := out + [Token(token)];
    }
    assert tokens[..|tokens|] == tokens;
    if breaks { return out + [Error(UNAVAILABLE)]; }
    if thinkBuf != "" {
      SendSnoc(Feed(tokens).pieces, Flush(thinkBuf));
      var line := FlushLine(thinkBuf);
      out := out + line;
    }
    out := out + [Done];
  }

  /** Tokens, then exactly one message that ends the stream. */
  predicate WellFormed(ms: seq<Msg>) {
    && |ms| > 0 && (ms[|ms| - 1] == Done || ms[|ms| - 1] == Error(UNAVAILABLE))
    && forall i :: 0 <= i < |ms| - 1 ==> ms[i].Token? && ms[i].text != ""
  }

  lemma {:induction false} EmittedNonEmpty(ps: seq<Piece>)
    requires forall p <- ps :: p.Pass? ==> p.text != ""
    ensures forall t <- Emitted(ps) :: t != ""
  {
    if ps != [] {
      assert ps[0] in ps;
      EmittedNonEmpty(ps[1..]);
    }
  }

  lemma {:induction false} PassesNonEmpty(tokens: seq<string>)
    ensures forall p <- Feed(tokens).pieces :: p.Pass? ==> p.text != ""
  {
    if tokens != [] { PassesNonEmpty(tokens[..|tokens| - 1]); }
  }

  /** Every answer, whatever fails, is tokens and one terminator. */
  lemma AnswerShape(attempts: seq<Attempt>, tokens: seq<string>, breaks: bool)
    ensures WellFormed(Messages(attempts, tokens, breaks))
    ensures Done in Messages(attempts, tokens, breaks) <==> Connects(attempts) && !breaks
    ensures !Connects(attempts) ==> |Messages(attempts, tokens, breaks)| == 1
  {
    PassesNonEmpty(tokens);
    EmittedNonEmpty(Feed(tokens).pieces);
    EmittedNonEmpty(Pieces(tokens));
    var ms := Messages(attempts, tokens, breaks);
    if Connects(attempts) {
      var texts := Emitted(if breaks then Feed(tokens).pieces else Pieces(tokens));
      assert ms[..|ms| - 1] == Tokens(texts);
      forall i | 0 <= i < |ms| - 1 ensures ms[i].Token? && ms[i].text != "" {
        assert ms[i] == Token(texts[i]) && texts[i] in texts;
      }
      if !breaks { assert ms[|ms| - 1] == Done; }
    }
  }
}
