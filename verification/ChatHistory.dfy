/** frontend/src/store/aiSlice.ts and AiChatTab.tsx: the chat history and how one
    streamed answer is folded into it. */
module ChatHistory {
  import opened Wrappers
  import opened Text
  import opened ThinkFilter
  import opened ChatStream
  import opened ChatTokens
  import opened JsText
  import opened Ndjson

  datatype Role = User | Assistant
  datatype ChatMessage = ChatMessage(role: Role, content: string)

  /** The history after `appendChatToken(token)`. */
  function AppendToken(history: seq<ChatMessage>, token: string): seq<ChatMessage> {
    if history != [] && Last(history).role == Assistant
    then Init(history) + [Last(history).(content := Last(history).content + token)]
    else history + [ChatMessage(Assistant, token)]
  }

  /** What the sending component shows once it stops reading. */
  datatype Outcome = Finished | Failure(message: string)

  /** The history and outcome after reading `ms` until the stream ends. */
  function Consume(history: seq<ChatMessage>, ms: seq<Msg>, threw: bool): (seq<ChatMessage>, Outcome)
    decreases |ms|
  {
    if ms == [] then (history, if threw then Failure(INTERRUPTED) else Finished)
    else match ms[0]
      case Done => (history, Finished)
      case Error(text) => if text != "" then (history, Failure(text)) else Consume(history, ms[1..], threw)
      case Token(text) => Consume(if text != "" then AppendToken(history, text) else history, ms[1..], threw)
  }

  const INTERRUPTED := "[Response interrupted — please try again]"

  class AiSlice {
    var chatHistory: seq<ChatMessage>
    var chatStreaming: bool

    constructor ()
      ensures chatHistory == [] && !chatStreaming
    {
      chatHistory, chatStreaming := [], false;
    }

    method SetChatHistory(history: seq<ChatMessage>)
      modifies this`chatHistory
      ensures chatHistory == history
    {
      chatHistory := history;
    }

    method AppendChatToken(token: string)
      modifies this`chatHistory
      ensures chatHistory == AppendToken(old(chatHistory), token)
      ensures old(chatHistory) == [] || Last(old(chatHistory)).role == User ==>
        chatHistory == old(chatHistory) + [ChatMessage(Assistant, token)]
    {
      var hist := chatHistory;
      if |hist| > 0 && hist[|hist| - 1].role == Assistant {
        var last := hist[|hist| - 1];
        hist := hist[|hist| - 1 := last.(content := last.content + token)];
      } else {
        hist := hist + [ChatMessage(Assistant, token)];
      }
      chatHistory := hist;
    }

    /** `handleSend` with the trimmed input and what `streamChat` yields for it.
        Nothing happens on a blank input, while an answer streams, or when there
        is no access token. */
    method HandleSend(trimmed: string, signedIn: bool, ms: seq<Msg>, threw: bool) returns (outcome: Option<Outcome>)
      modifies this
      ensures trimmed == "" || old(chatStreaming) || !signedIn ==> outcome == None && unchanged(this)
      ensures !(trimmed == "" || old(chatStreaming) || !signedIn) ==>
        && outcome.Some? && !chatStreaming
        && (chatHistory, outcome.value) == Consume(old(chatHistory) + [ChatMessage(User, trimmed)], ms, threw)
    {
      if trimmed == "" || chatStreaming || !signedIn { return None; }
      SetChatHistory(chatHistory + [ChatMessage(User, trimmed)]);
      ghost var start := chatHistory;
      var i := 0;
      while i < |ms|
        invariant 0 <= i <= |ms|
        invariant Consume(start, ms, threw) == Consume(chatHistory, ms[i..], threw)
      {
        var chunk := ms[i];
        i := i + 1;
        match chunk
        case Error(text) =>
          if text != "" { chatStreaming := false; return Some(Failure(text)); }
        case Done => chatStreaming := false; return Some(Finished);
        case Token(text) =>
          if text != "" { AppendChatToken(text); }
      }
      chatStreaming := false;
      outcome := Some(if threw then Failure(INTERRUPTED) else Finished);
    }
  }

  /** The visible effect of one answer: nothing, or one assistant message. */
  function WithAnswer(history: seq<ChatMessage>, answer: string): seq<ChatMessage> {
    if answer == "" then history else history + [ChatMessage(Assistant, answer)]
  }

  lemma AppendExtends(history: seq<ChatMessage>, sofar: string, t: string)
    requires history != [] && Last(history).role == User && t != ""
    ensures AppendToken(WithAnswer(history, sofar), t) == WithAnswer(history, sofar + t)
  {
    if sofar == "" {
      assert sofar + t == t;
    } else {
      var h := history + [ChatMessage(Assistant, sofar)];
      assert Init(h) == history && Last(h) == ChatMessage(Assistant, sofar);
    }
  }

  /** Messages that do not end the stream: tokens, and an empty error. */
  predicate GoesOn(ms: seq<Msg>) { forall m <- ms :: m.Token? || m == Error("") }

  /** Reading them extends one and the same message by what they say. */
  lemma {:induction false} ReadingExtends(history: seq<ChatMessage>, sofar: string, ms: seq<Msg>, more: seq<Msg>, threw: bool)
    requires history != [] && Last(history).role == User && GoesOn(ms)
    ensures Consume(WithAnswer(history, sofar), ms + more, threw) ==
      Consume(WithAnswer(history, sofar + Said(ms)), more, threw)
    decreases |ms|
  {
    if ms == [] {
      assert ms + more == more && sofar + "" == sofar;
    } else {
      var t, rest := if ms[0].Token? then ms[0].text else "", ms[1..];
      assert ms[0] in ms && (ms + more)[0] == ms[0] && (ms + more)[1..] == rest + more;
      if t != "" {
        AppendExtends(history, sofar, t);
      } else {
        assert sofar + t == sofar;
      }
      ReadingExtends(history, sofar + t, rest, more, threw);
      Assoc(sofar, t, Said(rest));
    }
  }

  /** How reading ends: at the first `done` or visible error, whatever follows it;
      without one, when the stream ends, or when it throws. */
  lemma ReadingEnds(history: seq<ChatMessage>, ms: seq<Msg>, end: Msg, more: seq<Msg>, threw: bool)
    requires history != [] && Last(history).role == User && GoesOn(ms)
    ensures end == Done ==> Consume(history, ms + ([end] + more), threw) == (WithAnswer(history, Said(ms)), Finished)
    ensures end.Error? && end.text != "" ==>
      Consume(history, ms + ([end] + more), threw) == (WithAnswer(history, Said(ms)), Failure(end.text))
    ensures Consume(history, ms, threw) == (WithAnswer(history, Said(ms)), if threw then Failure(INTERRUPTED) else Finished)
  {
    ReadingExtends(history, "", ms, [end] + more, threw);
    ReadingExtends(history, "", ms, [], threw);
    assert "" + Said(ms) == Said(ms) && ms + [] == ms;
  }

  /** The text of the tokens an answer carries. */
  function AnswerText(attempts: seq<Attempt>, tokens: seq<string>, breaks: bool): string {
    if !Connects(attempts) then ""
    else Join(Emitted(if breaks then Feed(tokens).pieces else Pieces(tokens)))
  }

  lemma TokensSay(texts: seq<string>)
    ensures Said(Tokens(texts)) == Join(texts) && GoesOn(Tokens(texts))
  {
    SaidTokens(texts);
  }

  lemma AnswerIsSaid(attempts: seq<Attempt>, tokens: seq<string>, breaks: bool)
    ensures AnswerText(attempts, tokens, breaks) == Said(Messages(attempts, tokens, breaks))
  {
    if Connects(attempts) {
      var texts := Emitted(if breaks then Feed(tokens).pieces else Pieces(tokens));
      TokensSay(texts);
      SaidEnd(Tokens(texts), if breaks then Error(UNAVAILABLE) else Done);
    } else {
      assert [Error(UNAVAILABLE)][1..] == [];
    }
  }

  /** Reading a whole answer adds one assistant message with the tokens' text, or
      none when no token came, and ends the way the answer ended. */
  lemma AnswerFolds(history: seq<ChatMessage>, attempts: seq<Attempt>, tokens: seq<string>, breaks: bool)
    requires history != [] && Last(history).role == User
    ensures Consume(history, Messages(attempts, tokens, breaks), false) ==
      (WithAnswer(history, AnswerText(attempts, tokens, breaks)),
       if Connects(attempts) && !breaks then Finished else Failure(UNAVAILABLE))
  {
    var texts := if !Connects(attempts) then []
                 else Emitted(if breaks then Feed(tokens).pieces else Pieces(tokens));
    var end := if Connects(attempts) && !breaks then Done else Error(UNAVAILABLE);
    assert Messages(attempts, tokens, breaks) == Tokens(texts) + [end];
    TokensSay(texts);
    ReadingEnds(history, Tokens(texts), end, [], false);
    assert [end] + [] == [end];
  }

  /** From model tokens to history, through any chunking of the wire and whatever
      fails on the server: the history gains the answer's text as one message. Of
      a complete answer the user sees the batch form, up to white space, exactly
      when no piece boundary cuts through a think block, and to the character
      exactly when moreover no flush strips to white space. */
  lemma EndToEnd(history: seq<ChatMessage>, attempts: seq<Attempt>, tokens: seq<string>, breaks: bool,
                 chunks: seq<string>, encode: Msg -> string, parse: string -> Option<Msg>, unavailable: Msg)
    requires history != [] && Last(history).role == User
    requires Codec(encode, parse)
    requires Join(chunks) == Wire(Messages(attempts, tokens, breaks), encode)
    ensures
      var y := Decoded(Body(chunks), parse, unavailable);
      var answer := AnswerText(attempts, tokens, breaks);
      var complete := Connects(attempts) && !breaks;
      && Consume(history, y.values, y.threw) ==
           (WithAnswer(history, answer), if complete then Finished else Failure(UNAVAILABLE))
      && answer == Said(Messages(attempts, tokens, breaks))
      && (complete && WholeTokens(tokens) ==> Ink(answer) == Ink(Generate(Join(tokens))))
      && (complete ==> (Ink(answer) == Ink(Generate(Join(tokens))) <==> Clean(Pieces(tokens))))
      && (complete ==> (answer == Strip(Join(tokens)) <==> Clean(Pieces(tokens)) && NoBlankFlush(Pieces(tokens))))
  {
    RoundTrip(Messages(attempts, tokens, breaks), encode, parse);
    AnswerFolds(history, attempts, tokens, breaks);
    FilterRefinesBatch(tokens);
    FilterIsExact(tokens);
    AnswerIsSaid(attempts, tokens, breaks);
    if Connects(attempts) && !breaks && WholeTokens(tokens) { WholeTokensRefineBatch(attempts, tokens); }
  }

  /** When the connection breaks, the history gains the tokens whose lines arrived
      whole, and the user is told that the answer was interrupted, unless the last
      line had arrived too. */
  lemma BrokenConnection(history: seq<ChatMessage>, attempts: seq<Attempt>, tokens: seq<string>, breaks: bool,
                         chunks: seq<string>, encode: Msg -> string, parse: string -> Option<Msg>, unavailable: Msg)
    returns (k: nat)
    requires history != [] && Last(history).role == User
    requires Codec(encode, parse)
    requires Join(chunks) <= Wire(Messages(attempts, tokens, breaks), encode)
    ensures
      var ms := Messages(attempts, tokens, breaks);
      var y := Decoded(Broken(chunks), parse, unavailable);
      && k <= |ms| && Wire(ms[..k], encode) <= Join(chunks)
      && (k < |ms| ==> |Join(chunks)| <= |Wire(ms[..k], encode)| + |encode(ms[k])|)
      && Consume(history, y.values, y.threw) ==
           (WithAnswer(history, Said(ms[..k])),
            if k < |ms| then Failure(INTERRUPTED)
            else if Connects(attempts) && !breaks then Finished else Failure(UNAVAILABLE))
  {
    var ms := Messages(attempts, tokens, breaks);
    k := BrokenOff(chunks, ms, encode, parse, unavailable);
    AnswerShape(attempts, tokens, breaks);
    CutAnswer(history, ms, k);
  }

  lemma CutAnswer(history: seq<ChatMessage>, ms: seq<Msg>, k: nat)
    requires history != [] && Last(history).role == User && WellFormed(ms) && k <= |ms|
    ensures Consume(history, ms[..k], true) ==
      (WithAnswer(history, Said(ms[..k])),
       if k < |ms| then Failure(INTERRUPTED) else if Done in ms then Finished else Failure(UNAVAILABLE))
  {
    var texts, end := Init(ms), Last(ms);
    assert ms == texts + ([end] + []);
    assert GoesOn(texts);
    if k < |ms| {
      ReadingEnds(history, ms[..k], end, [], true);
    } else {
      assert ms[..k] == ms == texts + [end] && |UNAVAILABLE| > 0;
      SaidEnd(texts, end);
      ReadingEnds(history, texts, end, [], true);
    }
  }
}
