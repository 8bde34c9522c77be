/** frontend/src/api/ai.ts, `streamChat`: newline-delimited messages decoded from
    network chunks. Chunks are characters; JSON itself is an abstract pair of
    functions, where `None` stands for a text JSON.parse rejects. */
module Ndjson {
  import opened Wrappers
  import opened Text
  import opened JsText

  /** The values yielded, and whether the generator then threw. */
  datatype Yield<T> = Yield(values: seq<T>, threw: bool)

  /** Parse the lines that are not blank, up to the first that does not parse. */
  function Decode<T>(ls: seq<string>, parse: string -> Option<T>): Yield<T> {
    if ls == [] then Yield([], false)
    else if JsBlank(ls[0]) then Decode(ls[1..], parse)
    else match parse(ls[0])
      case None => Yield([], true)
      case Some(v) => var rest := Decode(ls[1..], parse); Yield([v] + rest.values, rest.threw)
  }

  lemma {:induction false} DecodeAppend<T>(a: seq<string>, b: seq<string>, parse: string -> Option<T>)
    ensures Decode(a + b, parse) ==
      if Decode(a, parse).threw then Decode(a, parse)
      else Yield(Decode(a, parse).values + Decode(b, parse).values, Decode(b, parse).threw)
  {
    if a == [] {
      assert a + b == b;
    } else {
      DecodeAppend(a[1..], b, parse);
      assert (a + b)[1..] == a[1..] + b && (a + b)[0] == a[0];
      if !JsBlank(a[0]) && parse(a[0]).Some? {
        var v := parse(a[0]).value;
        assert [v] + (Decode(a[1..], parse).values + Decode(b, parse).values)
            == ([v] + Decode(a[1..], parse).values) + Decode(b, parse).values;
      }
    }
  }

  /** The answer of `fetch`. `Broken`: the connection fails after these chunks. */
  datatype Response = Unavailable | Failed | Body(chunks: seq<string>) | Broken(chunks: seq<string>)

  /** What the reader is promised, chunks or no chunks. */
  function Decoded<T>(resp: Response, parse: string -> Option<T>, unavailable: T): Yield<T> {
    match resp
    case Unavailable => Yield([unavailable], false)
    case Failed => Yield([], true)
    case Body(chunks) => Decode(Lines(Join(chunks)), parse)
    case Broken(chunks) => Yield(Decode(Init(Lines(Join(chunks))), parse).values, true)
  }

  /** Lines already cut off, the text after them, and the text still to come. */
  lemma CutChunk(done: seq<string>, buf: string, before: string, chunk: string)
    requires Lines(before) == done + [buf]
    ensures Lines(before + chunk) == done + Lines(buf + chunk)
  {
    LinesAppend(before, chunk);
    assert Init(done + [buf]) == done;
  }

  /** The lines of one chunk, parsed one by one. */
  method YieldLines<T>(ls: seq<string>, parse: string -> Option<T>) returns (values: seq<T>, threw: bool)
    ensures Yield(values, threw) == Decode(ls, parse)
  {
    values := [];
    var i := 0;
    while i < |ls|
      invariant 0 <= i <= |ls|
      invariant Decode(ls[..i], parse) == Yield(values, false)
    {
      assert ls[..i + 1] == ls[..i] + [ls[i]] && [ls[i]][1..] == [];
      DecodeAppend(ls[..i], [ls[i]], parse);
      assert ls == ls[..i + 1] + ls[i + 1..];
      DecodeAppend(ls[..i + 1], ls[i + 1..], parse);
      if !JsBlank(ls[i]) {
        match parse(ls[i])
        case None => return values, true;
        case Some(v) => values := values + [v];
      }
      i := i + 1;
    }
    assert ls[..|ls|] == ls;
    threw := false;
  }

  /** One more chunk: the lines it completes, and the text it leaves open. */
  lemma ChunkStep<T>(done: seq<string>, buf: string, before: string, chunk: string, values: seq<T>,
                     more: seq<T>, bad: bool, parse: string -> Option<T>)
    requires Lines(before) == done + [buf] && Decode(done, parse) == Yield(values, false)
    requires Yield(more, bad) == Decode(Init(Lines(buf + chunk)), parse)
    ensures var lines := Lines(buf + chunk);
      && Lines(before + chunk) == (done + Init(lines)) + [Last(lines)]
      && Decode(done + Init(lines), parse) == Yield(values + more, bad)
  {
    var lines := Lines(buf + chunk);
    CutChunk(done, buf, before, chunk);
    assert lines == Init(lines) + [Last(lines)];
    DecodeAppend(done, Init(lines), parse);
  }

  method StreamChat<T>(resp: Response, parse: string -> Option<T>, unavailable: T) returns (values: seq<T>, threw: bool)
    ensures Yield(values, threw) == Decoded(resp, parse, unavailable)
    ensures resp.Unavailable? ==> values == [unavailable] && !threw
    ensures resp.Failed? ==> values == [] && threw
    ensures resp.Broken? ==> threw
  {
    if resp.Unavailable? { return [unavailable], false; }
    if resp.Failed? { return [], true; }
    var chunks := resp.chunks;
    var buf := "";
    ghost var done: seq<string>, before := [], "";
    values := [];
    var i := 0;
    while i < |chunks|
      invariant 0 <= i <= |chunks|
      invariant Join(chunks) == before + Join(chunks[i..])
      invariant Lines(before) == done + [buf]
      invariant Decode(done, parse) == Yield(values, false)
    {
      ghost var after := Join(chunks[i + 1..]);
      assert chunks[i..][1..] == chunks[i + 1..];
      Assoc(before, chunks[i], after);
      ghost var open := buf;
      buf := buf + chunks[i];
      var lines := Lines(buf);
      buf, lines := lines[|lines| - 1], lines[..|lines| - 1];
      var more, bad := YieldLines(lines, parse);
      ChunkStep(done, open, before, chunks[i], values, more, bad, parse);
      before, done := before + chunks[i], done + lines;
      values := values + more;
      if bad {
        ThrownEarly(before, after, done, buf, parse);
        return values, true;
      }
      i := i + 1;
    }
    assert before + "" == before && Join(chunks) == before;
    if resp.Broken? {
      assert Init(done + [buf]) == done;
      return values, true;
    }
    var rest, bad := YieldLines([buf], parse);
    DecodeAppend(done, [buf], parse);
    values, threw := values + rest, bad;
  }

  /** Lines that throw throw whatever follows. */
  lemma ThrownEarly<T>(before: string, after: string, done: seq<string>, buf: string, parse: string -> Option<T>)
    requires Lines(before) == done + [buf] && Decode(done, parse).threw
    ensures Decode(Lines(before + after), parse) == Decode(Init(Lines(before + after)), parse) == Decode(done, parse)
  {
    var more := Lines(buf + after);
    CutChunk(done, buf, before, after);
    DecodeAppend(done, more, parse);
    DecodeAppend(done, Init(more), parse);
    assert Init(done + more) == done + Init(more);
  }

  // ----- round trip -----

  /** What the server writes: each message on a line of its own. */
  function Wire<T>(ms: seq<T>, encode: T -> string): string {
    if ms == [] then "" else encode(ms[0]) + "\n" + Wire(ms[1..], encode)
  }

  /** An encoder whose lines are whole, visible and read back by `parse`. */
  ghost predicate Codec<T(!new)>(encode: T -> string, parse: string -> Option<T>) {
    forall m: T :: '\n' !in encode(m) && !JsBlank(encode(m)) && parse(encode(m)) == Some(m)
  }

  /** Messages on the wire come first, whatever follows them. */
  lemma {:induction false} WireThen<T(!new)>(ms: seq<T>, more: string, encode: T -> string, parse: string -> Option<T>)
    requires Codec(encode, parse)
    ensures var rest := Decode(Lines(more), parse);
      Decode(Lines(Wire(ms, encode) + more), parse) == Yield(ms + rest.values, rest.threw)
  {
    if ms == [] {
      assert "" + more == more;
    } else {
      var line, wire := encode(ms[0]), Wire(ms[1..], encode);
      var rest := Decode(Lines(more), parse);
      WireThen(ms[1..], more, encode, parse);
      Assoc(line + "\n", wire, more);
      LineOf(line, wire + more);
      ConsDecode(ms[0], line, Lines(wire + more), parse);
      ConsValues(ms, rest.values);
    }
  }

  lemma ConsValues<T>(ms: seq<T>, values: seq<T>)
    requires ms != []
    ensures [ms[0]] + (ms[1..] + values) == ms + values
  {
  }

  lemma ConsDecode<T>(m: T, line: string, ls: seq<string>, parse: string -> Option<T>)
    requires !JsBlank(line) && parse(line) == Some(m)
    ensures Decode([line] + ls, parse) == Yield([m] + Decode(ls, parse).values, Decode(ls, parse).threw)
  {
    assert ([line] + ls)[1..] == ls;
  }

  /** Decoding any chunking of the wire text gives back the messages. */
  lemma RoundTrip<T(!new)>(ms: seq<T>, encode: T -> string, parse: string -> Option<T>)
    requires Codec(encode, parse)
    ensures Decode(Lines(Wire(ms, encode)), parse) == Yield(ms, false)
  {
    WireThen(ms, "", encode, parse);
    assert Lines("") == [""] && [""][1..] == [] && Wire(ms, encode) + "" == Wire(ms, encode);
  }

  /** A visible line that does not parse ends the stream: what came before it is
      yielded, nothing after it is, and the generator throws. */
  lemma BadLineEnds<T(!new)>(chunks: seq<string>, ms: seq<T>, bad: string, more: string, encode: T -> string,
                             parse: string -> Option<T>, unavailable: T)
    requires Codec(encode, parse) && '\n' !in bad && !JsBlank(bad) && parse(bad).None?
    requires Join(chunks) == Wire(ms, encode) + bad || Join(chunks) == Wire(ms, encode) + (bad + "\n" + more)
    ensures Decoded(Body(chunks), parse, unavailable) == Yield(ms, true)
  {
    WireThen(ms, bad + "\n" + more, encode, parse);
    WireThen(ms, bad, encode, parse);
    LineOf(bad, more);
    LinesOfOne(bad);
  }

  /** A blank line changes nothing. */
  lemma BlankLineIsSkipped<T(!new)>(chunks: seq<string>, shorter: seq<string>, ms: seq<T>, blank: string, more: string,
                                    encode: T -> string, parse: string -> Option<T>, unavailable: T)
    requires Codec(encode, parse) && '\n' !in blank && JsBlank(blank)
    requires Join(chunks) == Wire(ms, encode) + (blank + "\n" + more) && Join(shorter) == Wire(ms, encode) + more
    ensures Decoded(Body(chunks), parse, unavailable) == Decoded(Body(shorter), parse, unavailable)
  {
    WireThen(ms, blank + "\n" + more, encode, parse);
    WireThen(ms, more, encode, parse);
    LineOf(blank, more);
    assert ([blank] + Lines(more))[1..] == Lines(more);
  }

  /** The last line needs no newline. */
  lemma LastLineIsRead<T(!new)>(chunks: seq<string>, ms: seq<T>, m: T, encode: T -> string, parse: string -> Option<T>,
                                unavailable: T)
    requires Codec(encode, parse) && Join(chunks) == Wire(ms, encode) + encode(m)
    ensures Decoded(Body(chunks), parse, unavailable) == Yield(ms + [m], false)
  {
    WireThen(ms, encode(m), encode, parse);
    OneLine(m, encode(m), parse);
  }

  lemma OneLine<T>(m: T, line: string, parse: string -> Option<T>)
    requires '\n' !in line && !JsBlank(line) && parse(line) == Some(m)
    ensures Decode(Lines(line), parse) == Yield([m], false)
  {
    LinesOfOne(line);
    assert [line][1..] == [];
  }

  // ----- a connection that breaks -----

  /** How many messages of the wire a first part of it holds whole, and what it
      holds of the next. */
  lemma {:induction false} CutWire<T(!new)>(ms: seq<T>, got: string, encode: T -> string, parse: string -> Option<T>)
    returns (k: nat, open: string)
    requires Codec(encode, parse) && got <= Wire(ms, encode)
    ensures k <= |ms| && got == Wire(ms[..k], encode) + open && '\n' !in open
    ensures if k == |ms| then open == "" else open <= encode(ms[k])
  {
    if ms == [] {
      k, open := 0, "";
    } else {
      var line, wire := encode(ms[0]), Wire(ms[1..], encode);
      if |got| <= |line| {
        k, open := 0, got;
        assert got == line[..|got|] && "" + got == got;
      } else {
        var head := line + "\n";
        var rest := got[|head|..];
        CutHead(got, head, wire, rest);
        k, open := CutWire(ms[1..], rest, encode, parse);
        assert ms[..k + 1][1..] == ms[1..][..k];
        Assoc(head, Wire(ms[1..][..k], encode), open);
        k := k + 1;
      }
    }
  }

  lemma CutHead(got: string, head: string, wire: string, rest: string)
    requires got <= head + wire && |got| >= |head| && rest == got[|head|..]
    ensures got == head + rest && rest <= wire
  {
    assert got == (head + wire)[..|got|];
    assert head == (head + wire)[..|head|] == got[..|head|];
    assert rest == wire[..|rest|];
  }

  /** A broken connection yields the messages whose lines arrived whole, and then
      throws. */
  lemma BrokenOff<T(!new)>(chunks: seq<string>, ms: seq<T>, encode: T -> string, parse: string -> Option<T>, unavailable: T)
    returns (k: nat)
    requires Codec(encode, parse) && Join(chunks) <= Wire(ms, encode)
    ensures k <= |ms| && Decoded(Broken(chunks), parse, unavailable) == Yield(ms[..k], true)
    ensures Wire(ms[..k], encode) <= Join(chunks)
    ensures k < |ms| ==> |Join(chunks)| <= |Wire(ms[..k], encode)| + |encode(ms[k])|
  {
    var open: string;
    k, open := CutWire(ms, Join(chunks), encode, parse);
    WholeLines(ms[..k], open, encode, parse);
  }

  lemma WireLines<T(!new)>(ms: seq<T>, open: string, encode: T -> string, parse: string -> Option<T>)
    requires Codec(encode, parse) && '\n' !in open
    ensures Lines(Wire(ms, encode) + open) == Init(Lines(Wire(ms, encode))) + [open]
  {
    LastIsEmpty(ms, encode, parse);
    LinesAppend(Wire(ms, encode), open);
    LinesOfOne(open);
    assert "" + open == open;
  }

  lemma {:induction false} LastIsEmpty<T(!new)>(ms: seq<T>, encode: T -> string, parse: string -> Option<T>)
    requires Codec(encode, parse)
    ensures Last(Lines(Wire(ms, encode))) == ""
  {
    if ms != [] {
      LastIsEmpty(ms[1..], encode, parse);
      LineOf(encode(ms[0]), Wire(ms[1..], encode));
    }
  }

  lemma WholeLines<T(!new)>(ms: seq<T>, open: string, encode: T -> string, parse: string -> Option<T>)
    requires Codec(encode, parse) && '\n' !in open
    ensures Decode(Init(Lines(Wire(ms, encode) + open)), parse) == Yield(ms, false)
  {
    var ls := Lines(Wire(ms, encode));
    WireLines(ms, open, encode, parse);
    LastIsEmpty(ms, encode, parse);
    RoundTrip(ms, encode, parse);
    assert Init(Init(ls) + [open]) == Init(ls) && ls == Init(ls) + [""];
    DecodeAppend(Init(ls), [""], parse);
    assert Decode([""], parse) == Yield([], false);
  }
}
