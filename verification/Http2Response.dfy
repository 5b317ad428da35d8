/** The frames of one HTTP/2 server response: any number of `write` calls, then one `end`,
    with or without flow control, with or without a trailer. */
module Http2Response {
  import opened Basics
  import opened Http2Frames
  import FlowControl
  import SessionWindow

  /** What `write` calls leave on the wire: HEADERS before the first one, never END_STREAM. */
  function AfterWrites(header: seq<byte>, writes: seq<seq<byte>>, max: nat): seq<Frame>
    requires max > 0
  {
    if writes == [] then []
    else
      var init := writes[..|writes| - 1];
      (if init == [] then [Headers(header, false)] else AfterWrites(header, init, max))
      + Split(writes[|writes| - 1], false, max)
  }

  function HeaderPart(header: seq<byte>, sent: bool, bodyEmpty: bool, endStream: bool): seq<Frame> {
    if sent then [] else [Headers(header, endStream && bodyEmpty)]
  }

  /** The trailer array as the encoder left it: None when unset or empty, and an empty block
      when every entry has a null value or an integer key; only a non-empty block is sent. */
  function TrailerPart(trailer: Option<seq<byte>>): seq<Frame> {
    if trailer.Some? && trailer.value != [] then [Headers(trailer.value, true)] else []
  }

  /** Everything `end` adds, given the DATA frames the body was sent in. */
  function EndPart(header: seq<byte>, sent: bool, body: seq<byte>, bodyFrames: seq<Frame>, trailer: Option<seq<byte>>): seq<Frame> {
    HeaderPart(header, sent, body == [], trailer.None?) + bodyFrames + TrailerPart(trailer)
  }

  /** Exactly when the response terminates the stream. */
  predicate Terminates(writes: seq<seq<byte>>, body: seq<byte>, trailer: Option<seq<byte>>) {
    match trailer
    case None => writes == [] || body != []
    case Some(block) => block != []
  }

  /** HEADERS first, then DATA within the frame size, with at most one HEADERS, the trailer, last. */
  predicate WellShaped(frames: seq<Frame>, max: nat) {
    && frames != [] && frames[0].Headers?
    && (forall i | 1 <= i < |frames| :: frames[i].Headers? ==> i == |frames| - 1)
    && (forall i | 0 <= i < |frames| :: frames[i].Data? ==> 1 <= |frames[i].payload| <= max)
  }

  /** The header block first, and the trailer block, if there is one, last. */
  predicate Blocks(frames: seq<Frame>, header: seq<byte>, trailer: Option<seq<byte>>) {
    && frames != [] && frames[0].Headers? && frames[0].block == header
    && if trailer.Some? && |trailer.value| > 0
       then |frames| > 1 && frames[|frames| - 1] == Headers(trailer.value, true)
       else forall i | 1 <= i < |frames| :: frames[i].Data?
  }

  lemma {:induction false} WritesShape(header: seq<byte>, writes: seq<seq<byte>>, max: nat)
    requires max > 0 && writes != []
    ensures var w := AfterWrites(header, writes, max);
      && w != [] && w[0] == Headers(header, false)
      && NoEnd(w) && Payload(w) == Flatten(writes)
      && DataWithin(w[1..], max)
    decreases |writes|
  {
    hide Payload, Split;
    var init := writes[..|writes| - 1];
    var w := AfterWrites(header, writes, max);
    var last := Split(writes[|writes| - 1], false, max);
    SplitCarries(writes[|writes| - 1], false, max);
    FlattenSnoc(init, writes[|writes| - 1]);
    assert init + [writes[|writes| - 1]] == writes;
    if init == [] {
      PayloadConcat([Headers(header, false)], last);
      PayloadOfHeaders(header, false);
      assert w[1..] == last;
      assert Flatten(init) == [];
    } else {
      WritesShape(header, init, max);
      var before := AfterWrites(header, init, max);
      PayloadConcat(before, last);
      assert w[1..] == before[1..] + last;
    }
  }

  /** The framing theorem.  For every sequence of writes and one end, however the body was cut
      by flow control: HEADERS come first; DATA payloads concatenate to the written data plus
      the final body, each within the frame size; END_STREAM is on the last frame and only
      there exactly when the response terminates the stream, and otherwise nowhere. */
  lemma ResponseFraming(header: seq<byte>, writes: seq<seq<byte>>, body: seq<byte>, bodyFrames: seq<Frame>,
                        trailer: Option<seq<byte>>, max: nat)
    requires max > 0 && Carries(bodyFrames, body, trailer.None?, max)
    ensures var out := AfterWrites(header, writes, max) + EndPart(header, writes != [], body, bodyFrames, trailer);
      && WellShaped(out, max) && Blocks(out, header, trailer)
      && Payload(out) == Flatten(writes) + body
      && (EndsOnce(out) <==> Terminates(writes, body, trailer))
      && (NoEnd(out) <==> !Terminates(writes, body, trailer))
  {
    hide Payload, AfterWrites, Flatten;
    ResponseBlocks(header, writes, body, bodyFrames, trailer, max);
    hide Blocks;
    var w := AfterWrites(header, writes, max);
    var h := HeaderPart(header, writes != [], body == [], trailer.None?);
    var t := TrailerPart(trailer);
    ResponsePayload(header, writes, body, bodyFrames, trailer, max);
    CarriesEmpty(bodyFrames, body, trailer.None?, max);
    var front := w + h;
    assert w + (h + bodyFrames + t) == front + bodyFrames + t;
    if writes != [] {
      WritesShape(header, writes, max);
      assert front == w;
    } else {
      NothingWritten(header, max);
      assert front == h;
    }
    ShapeOfResponse(front, bodyFrames, t, max);
    EndOfResponse(front, bodyFrames, t);
  }

  lemma ResponseBlocks(header: seq<byte>, writes: seq<seq<byte>>, body: seq<byte>, bodyFrames: seq<Frame>,
                       trailer: Option<seq<byte>>, max: nat)
    requires max > 0 && Carries(bodyFrames, body, trailer.None?, max)
    ensures Blocks(AfterWrites(header, writes, max) + EndPart(header, writes != [], body, bodyFrames, trailer), header, trailer)
  {
    hide Payload, AfterWrites, Flatten, Blocks;
    var w := AfterWrites(header, writes, max);
    var h := HeaderPart(header, writes != [], body == [], trailer.None?);
    var t := TrailerPart(trailer);
    var front := w + h;
    assert w + (h + bodyFrames + t) == front + bodyFrames + t;
    if writes != [] {
      WritesShape(header, writes, max);
      assert front == w;
    } else {
      NothingWritten(header, max);
      assert front == h;
    }
    BlocksOfResponse(front, bodyFrames, t, header, trailer, max);
  }

  lemma BlocksOfResponse(front: seq<Frame>, middle: seq<Frame>, tail: seq<Frame>, header: seq<byte>,
                         trailer: Option<seq<byte>>, max: nat)
    requires front != [] && front[0].Headers? && front[0].block == header
    requires DataWithin(front[1..], max) && DataWithin(middle, max)
    requires tail == if trailer.Some? && trailer.value != [] then [Headers(trailer.value, true)] else []
    ensures Blocks(front + middle + tail, header, trailer)
  {
    var out := front + middle + tail;
    forall i | 1 <= i < |front| + |middle| ensures out[i].Data? {
      if i < |front| {
        assert out[i] == front[1..][i - 1];
      } else {
        assert out[i] == middle[i - |front|];
      }
    }
  }

  lemma NothingWritten(header: seq<byte>, max: nat)
    requires max > 0
    ensures AfterWrites(header, [], max) == [] && Flatten([]) == [] && Payload([]) == []
  {
  }

  lemma ResponsePayload(header: seq<byte>, writes: seq<seq<byte>>, body: seq<byte>, bodyFrames: seq<Frame>,
                        trailer: Option<seq<byte>>, max: nat)
    requires max > 0 && Payload(bodyFrames) == body
    ensures Payload(AfterWrites(header, writes, max) + EndPart(header, writes != [], body, bodyFrames, trailer))
            == Flatten(writes) + body
  {
    hide Payload, AfterWrites, Flatten;
    var w := AfterWrites(header, writes, max);
    var h := HeaderPart(header, writes != [], body == [], trailer.None?);
    var t := TrailerPart(trailer);
    NothingWritten(header, max);
    if writes != [] {
      WritesShape(header, writes, max);
    }
    PayloadOfHeaders(header, trailer.None? && body == []);
    if t != [] {
      PayloadOfHeaders(trailer.value, true);
    }
    PayloadConcat(h, bodyFrames);
    PayloadConcat(h + bodyFrames, t);
    PayloadConcat(w, h + bodyFrames + t);
  }

  /** What is out while `end` is parked. */
  lemma ParkedPayload(header: seq<byte>, writes: seq<seq<byte>>, bodyFrames: seq<Frame>, max: nat, empty: bool, end: bool)
    requires max > 0
    ensures Payload(AfterWrites(header, writes, max) + (HeaderPart(header, writes != [], empty, end) + bodyFrames)) ==
      Flatten(writes) + Payload(bodyFrames)
  {
    hide Payload, AfterWrites, Flatten;
    var w := AfterWrites(header, writes, max);
    var h := HeaderPart(header, writes != [], empty, end);
    NothingWritten(header, max);
    if writes != [] {
      WritesShape(header, writes, max);
    }
    PayloadOfHeaders(header, end && empty);
    PayloadConcat(h, bodyFrames);
    PayloadConcat(w, h + bodyFrames);
  }

  lemma ShapeOfResponse(front: seq<Frame>, middle: seq<Frame>, tail: seq<Frame>, max: nat)
    requires front != [] && front[0].Headers? && DataWithin(front[1..], max) && DataWithin(middle, max)
    requires tail == [] || (|tail| == 1 && tail[0].Headers?)
    ensures WellShaped(front + middle + tail, max)
  {
    var out := front + middle + tail;
    forall i | 1 <= i < |out|
      ensures out[i].Headers? ==> i == |out| - 1
      ensures out[i].Data? ==> 1 <= |out[i].payload| <= max
    {
      if i < |front| {
        assert out[i] == front[1..][i - 1];
      } else if i < |front| + |middle| {
        assert out[i] == middle[i - |front|];
      }
    }
  }

  /** END_STREAM of the concatenation, from where it may sit in the parts. */
  lemma EndOfResponse(front: seq<Frame>, middle: seq<Frame>, tail: seq<Frame>)
    requires front != [] && (NoEnd(front) || (|front| == 1 && middle == [] && tail == []))
    requires NoEnd(middle) || (EndsOnce(middle) && tail == [])
    requires tail == [] || (|tail| == 1 && tail[0].endStream)
    ensures var out := front + middle + tail;
      var ended := tail != [] || !NoEnd(middle) || !NoEnd(front);
      (EndsOnce(out) <==> ended) && (NoEnd(out) <==> !ended)
  {
    var out := front + middle + tail;
    var n := |out| - 1;
    if tail != [] {
      assert out[..n] == front + middle;
      assert out[n] == tail[0];
    } else if !NoEnd(middle) {
      assert out == front + middle;
      assert out[n] == middle[|middle| - 1];
      assert out[..n] == front + middle[..|middle| - 1];
    } else if !NoEnd(front) {
      assert out == front;
    } else {
      assert forall i | 0 <= i < |out| :: !out[i].endStream;
    }
  }

  // What a peer reads.

  predicate ShortWrites(writes: seq<seq<byte>>, max: nat) {
    forall i | 0 <= i < |writes| :: Min(|writes[i]|, max) < LENGTH_LIMIT
  }

  lemma {:induction false} WritesShort(header: seq<byte>, writes: seq<seq<byte>>, max: nat)
    requires max > 0
    ensures ShortFrames(AfterWrites(header, writes, max)) <==>
      (writes == [] || |header| < LENGTH_LIMIT) && ShortWrites(writes, max)
    decreases |writes|
  {
    hide Split, ShortFrames;
    NothingIsShort();
    if writes != [] {
      var init := writes[..|writes| - 1];
      var last := writes[|writes| - 1];
      WritesShort(header, init, max);
      SplitShort(last, false, max);
      HeadersShort(header, false);
      ShortConcat(if init == [] then [Headers(header, false)] else AfterWrites(header, init, max), Split(last, false, max));
      assert ShortWrites(writes, max) <==> ShortWrites(init, max) && Min(|last|, max) < LENGTH_LIMIT by {
        assert forall i | 0 <= i < |init| :: init[i] == writes[i];
        assert writes[|init|] == last;
      }
    }
  }

  lemma HeadersShort(block: seq<byte>, end: bool)
    ensures ShortFrames([Headers(block, end)]) <==> |block| < LENGTH_LIMIT
  {
    NothingIsShort();
    ShortCons(Headers(block, end), []);
    assert [Headers(block, end)] + [] == [Headers(block, end)];
  }

  /** A peer reads the bytes of a response as the frames that were meant if and only if the
      header block, the trailer block, the longest piece of each write and the frames of the
      body all have less than 2^24 bytes; a frame size below 2^24 is enough for the last two. */
  lemma ResponseAsMeant(id: nat, header: seq<byte>, writes: seq<seq<byte>>, body: seq<byte>, bodyFrames: seq<Frame>,
                        trailer: Option<seq<byte>>, max: nat)
    requires id < UINT32 && max > 0 && Carries(bodyFrames, body, trailer.None?, max)
    ensures var out := AfterWrites(header, writes, max) + EndPart(header, writes != [], body, bodyFrames, trailer);
      AsMeant(Under(id, out)) <==>
        && |header| < LENGTH_LIMIT && ShortWrites(writes, max) && ShortFrames(bodyFrames)
        && (trailer.Some? ==> |trailer.value| < LENGTH_LIMIT)
    ensures max < LENGTH_LIMIT ==> ShortWrites(writes, max) && ShortFrames(bodyFrames)
  {
    hide AfterWrites, AsMeant, Ids32, AllShort;
    assert max < LENGTH_LIMIT ==> ShortFrames(bodyFrames) by { hide Payload; }
    hide ShortFrames, Carries;
    var w := AfterWrites(header, writes, max);
    var h := HeaderPart(header, writes != [], body == [], trailer.None?);
    var t := TrailerPart(trailer);
    UnderShort(id, w + EndPart(header, writes != [], body, bodyFrames, trailer));
    AsMeantExactly(Under(id, w + EndPart(header, writes != [], body, bodyFrames, trailer)));
    ShortConcat(w, h + bodyFrames + t);
    ShortConcat(h + bodyFrames, t);
    ShortConcat(h, bodyFrames);
    WritesShort(header, writes, max);
    NothingIsShort();
    HeadersShort(header, trailer.None? && body == []);
    if trailer.Some? {
      HeadersShort(trailer.value, true);
    }
  }

  /** What decides whether `end` keeps to the stream window. */
  datatype Guard = Guard(coSocket: bool, sendYield: bool, inCoroutine: bool)

  predicate FlowControlled(g: Guard) {
    !g.coSocket && g.sendYield && g.inCoroutine
  }

  /** The DATA bytes of `end` on the stream: what the flow-controlled loop has sent in a run, or
      the whole body at once. */
  function EndBytes(g: Guard, width: nat, body: seq<byte>, endStream: bool, maxFrame: nat, run: seq<FlowControl.Step>): nat
    requires FlowControlled(g) ==> FlowControl.IsRun(FlowControl.Init(body, endStream, maxFrame, width), run)
  {
    if FlowControlled(g)
    then |FlowControl.Sent(FlowControl.Exec(FlowControl.Init(body, endStream, maxFrame, width), run))|
    else |body|
  }

  /** The flow-controlled loop is parked or done, and no update overflowed. */
  predicate AtRest(width: nat, body: seq<byte>, endStream: bool, maxFrame: nat, run: seq<FlowControl.Step>) {
    var s := FlowControl.Init(body, endStream, maxFrame, width);
    && maxFrame > 0 && FlowControl.IsRun(s, run) && FlowControl.NoWrap(s, run)
    && (FlowControl.Exec(s, run).pc.Parked? || FlowControl.Exec(s, run).pc.Done?)
  }

  /** What the peer granted to a stream: its initial window, as it stands after all settings,
      and the updates of the stream.  Writes do not look at the window, an open stream does not
      follow later settings, it opens with the session's variable, and `end` keeps to the
      window only under the guard.  So the DATA bytes stay within the grant exactly when all of
      them fit it, or `end` is flow-controlled and the writes fit into what the peer's initial
      window exceeds the opening window by. */
  lemma WithinGrantExactly(g: Guard, before: seq<SessionWindow.Event>, later: seq<SessionWindow.Event>,
                           writes: seq<seq<byte>>, body: seq<byte>, endStream: bool, maxFrame: nat,
                           run: seq<FlowControl.Step>, increments: nat)
    requires FlowControlled(g) ==>
      && AtRest(SessionWindow.Opening(SessionWindow.Exec(before)), body, endStream, maxFrame, run)
      && increments == FlowControl.Increments(run)
    ensures var width := SessionWindow.Opening(SessionWindow.Exec(before));
      var initial := SessionWindow.PeerInitial(before + later);
      var grant := initial + increments;
      var written := |Flatten(writes)|;
      written + EndBytes(g, width, body, endStream, maxFrame, run) <= grant <==>
        written + |body| <= grant || (FlowControlled(g) && written + width <= initial)
  {
    hide EndBytes, AtRest, SessionWindow.Exec, SessionWindow.Opening, SessionWindow.PeerInitial, FlowControl.Increments;
    EndBytesAtRest(g, SessionWindow.Opening(SessionWindow.Exec(before)), body, endStream, maxFrame, run);
  }

  /** The closed form, under the guard. */
  lemma EndBytesAtRest(g: Guard, width: nat, body: seq<byte>, endStream: bool, maxFrame: nat, run: seq<FlowControl.Step>)
    requires FlowControlled(g) ==> AtRest(width, body, endStream, maxFrame, run)
    ensures EndBytes(g, width, body, endStream, maxFrame, run) ==
      if FlowControlled(g) then Min(|body|, width + FlowControl.Increments(run)) else |body|
  {
    hide FlowControl.IsRun, FlowControl.NoWrap, FlowControl.Exec, Payload;
    if FlowControlled(g) {
      FlowControl.ClosedForm(body, endStream, maxFrame, width, run);
    }
  }

  /** So on a stream that opened with the peer's value, which the peer keeps, DATA stays within
      the grant exactly when everything fits, or nothing was written before `end` and `end` is
      flow-controlled. */
  lemma WritesBypassWindow(g: Guard, before: seq<SessionWindow.Event>, later: seq<SessionWindow.Event>,
                           writes: seq<seq<byte>>, body: seq<byte>, endStream: bool, maxFrame: nat,
                           run: seq<FlowControl.Step>, increments: nat)
    requires SessionWindow.Opening(SessionWindow.Exec(before)) == SessionWindow.PeerInitial(before + later)
    requires FlowControlled(g) ==>
      && AtRest(SessionWindow.Opening(SessionWindow.Exec(before)), body, endStream, maxFrame, run)
      && increments == FlowControl.Increments(run)
    ensures var width := SessionWindow.Opening(SessionWindow.Exec(before));
      |Flatten(writes)| + EndBytes(g, width, body, endStream, maxFrame, run) <= width + increments <==>
        |Flatten(writes)| + |body| <= width + increments || (FlowControlled(g) && Flatten(writes) == [])
  {
    hide EndBytes;
    WithinGrantExactly(g, before, later, writes, body, endStream, maxFrame, run, increments);
  }

  /** An ordinary `end`, in a coroutine, with send_yield and outside the coroutine server, on a
      stream that opened with the peer's value and without writes: whatever it sends is within
      the grant, in every run, and at rest it has sent all that the grant allows. */
  lemma ControlledEnd(g: Guard, before: seq<SessionWindow.Event>, later: seq<SessionWindow.Event>,
                      body: seq<byte>, endStream: bool, maxFrame: nat, run: seq<FlowControl.Step>)
    requires !g.coSocket && g.sendYield && g.inCoroutine
    requires SessionWindow.Opening(SessionWindow.Exec(before)) == SessionWindow.PeerInitial(before + later)
    requires AtRest(SessionWindow.Opening(SessionWindow.Exec(before)), body, endStream, maxFrame, run)
    ensures var width := SessionWindow.Opening(SessionWindow.Exec(before));
      EndBytes(g, width, body, endStream, maxFrame, run) ==
        Min(|body|, SessionWindow.PeerInitial(before + later) + FlowControl.Increments(run))
  {
    hide EndBytes, AtRest, FlowControl.Increments;
    EndBytesAtRest(g, SessionWindow.Opening(SessionWindow.Exec(before)), body, endStream, maxFrame, run);
  }

  /** In the coroutine server, with send_yield off, or outside a coroutine, `end` sends the whole
      body whatever the window; 265537 bytes go out against a grant of 65535. */
  lemma UncontrolledEnd(g: Guard, width: nat, body: seq<byte>, endStream: bool, maxFrame: nat, run: seq<FlowControl.Step>)
    requires g.coSocket || !g.sendYield || !g.inCoroutine
    ensures EndBytes(g, width, body, endStream, maxFrame, run) == |body|
    ensures |body| == 265537 && width == SessionWindow.Opening(SessionWindow.Exec([])) ==>
      SessionWindow.PeerInitial([]) == width == 65535 < EndBytes(g, width, body, endStream, maxFrame, run)
  {
  }

  /** One response in progress. */
  class Response {
    const header: seq<byte>        // the encoded header block
    const maxFrame: nat
    var sendHeader: bool
    var ended: bool
    var out: seq<Frame>
    ghost var writes: seq<seq<byte>>

    ghost predicate Valid()
      reads this
    {
      && maxFrame > 0
      && (!ended ==> out == AfterWrites(header, writes, maxFrame) && (sendHeader <==> writes != []))
    }

    constructor (header: seq<byte>, maxFrame: nat)
      requires maxFrame > 0
      ensures Valid() && !ended && writes == [] && this.header == header && this.maxFrame == maxFrame
    {
      this.header, this.maxFrame := header, maxFrame;
      sendHeader, ended, out, writes := false, false, [], [];
    }

    /** HEADERS, with END_STREAM only when asked for and no body follows. */
    method SendHeader(bodyLength: nat, endStream: bool)
      requires !sendHeader
      modifies this`out, this`sendHeader
      ensures sendHeader && out == old(out) + HeaderPart(header, false, bodyLength == 0, endStream)
    {
      sendHeader := true;
      if endStream && bodyLength == 0 {
        out := out + [Headers(header, true)];
      } else {
        out := out + [Headers(header, false)];
      }
    }

    /** send_body from offset 0 with the length taken from the body. */
    method SendBody(body: seq<byte>, endStream: bool)
      requires maxFrame > 0
      modifies this`out
      ensures out == old(out) + Split(body, endStream, maxFrame)
    {
      var p := 0;
      while p < |body|
        invariant p <= |body|
        invariant out + Split(body[p..], endStream, maxFrame) == old(out) + Split(body, endStream, maxFrame)
      {
        var left := |body| - p;
        var n := if left > maxFrame then maxFrame else left;
        assert body[p..][..n] == body[p..p + n] && body[p..][n..] == body[p + n..];
        var f := Data(body[p..p + n], if left > maxFrame then false else endStream);
        SplitStep(body[p..], endStream, maxFrame, n);
        out := out + [f];
        p := p + n;
      }
    }

    /** `write`: headers on first use, then the data at once. */
    method Write(data: seq<byte>)
      requires Valid() && !ended
      modifies this
      ensures Valid() && !ended && writes == old(writes) + [data]
    {
      if !sendHeader {
        SendHeader(0, false);
      }
      SendBody(data, false);
      writes := writes + [data];
      assert writes[..|writes| - 1] == old(writes);
    }

    /** The body of `end`: through the flow-controlled sender of the stream under the guard, and
        in full otherwise. */
    method EndBody(body: seq<byte>, endStream: bool, g: Guard, stream: FlowControl.Stream) returns (done: bool, ghost bodyFrames: seq<Frame>)
      requires maxFrame > 0
      requires stream.frames == [] && !stream.waitingCoroutine && FlowControl.AllWords(stream.duringSend) && FlowControl.Words(stream.wakeUps)
      modifies this`out, stream
      ensures out == old(out) + bodyFrames
      ensures g.coSocket || !g.sendYield || !g.inCoroutine ==> done && Carries(bodyFrames, body, endStream, maxFrame)
      ensures !g.coSocket && g.sendYield && g.inCoroutine ==>
        && stream.Tracked()
        && (FlowControl.NoWrap(stream.start, stream.run) ==>
              var grant := old(stream.remoteWindowSize) + FlowControl.Increments(stream.run);
              && Payload(bodyFrames) == body[..Min(|body|, grant)] && (done <==> |body| <= grant)
              && (done ==> Carries(bodyFrames, body, endStream, maxFrame)))
    {
      hide Split, Carries, FlowControl.NoWrap, FlowControl.IsRun, FlowControl.Exec;
      if !FlowControlled(g) {
        SplitCarries(body, endStream, maxFrame);
        bodyFrames := Split(body, endStream, maxFrame);
        SendBody(body, endStream);
        done := true;
      } else {
        done := stream.Respond(body, endStream, maxFrame);
        bodyFrames := stream.frames;
        out := out + stream.frames;
      }
    }

    /** `end`: headers if still due, the body, the trailer.  When the body cannot be completed
        the call stays parked. */
    method End(body: seq<byte>, trailer: Option<seq<byte>>, g: Guard, stream: FlowControl.Stream) returns (done: bool)
      requires Valid() && !ended
      requires stream.frames == [] && !stream.waitingCoroutine && FlowControl.AllWords(stream.duringSend) && FlowControl.Words(stream.wakeUps)
      modifies this, stream
      ensures ended && writes == old(writes)
      ensures g.coSocket || !g.sendYield || !g.inCoroutine ==> done
      ensures !g.coSocket && g.sendYield && g.inCoroutine ==>
        && stream.Tracked()
        && (FlowControl.NoWrap(stream.start, stream.run) ==>
              var grant := old(stream.remoteWindowSize) + FlowControl.Increments(stream.run);
              Payload(out) == Flatten(writes) + body[..Min(|body|, grant)] && (done <==> |body| <= grant))
      ensures done && (!g.coSocket && g.sendYield && g.inCoroutine ==> FlowControl.NoWrap(stream.start, stream.run)) ==>
        && WellShaped(out, maxFrame) && Blocks(out, header, trailer)
        && Payload(out) == Flatten(writes) + body
        && (EndsOnce(out) <==> Terminates(writes, body, trailer))
        && (NoEnd(out) <==> !Terminates(writes, body, trailer))
    {
      hide Payload, Split, AfterWrites, Carries, WellShaped, EndsOnce, NoEnd, Flatten;
      hide FlowControl.NoWrap, FlowControl.IsRun, FlowControl.Exec, FlowControl.Next;
      ghost var before := out;
      if !sendHeader {
        SendHeader(|body|, trailer.None?);
      }
      ended := true;
      ghost var bodyFrames;
      done, bodyFrames := EndBody(body, trailer.None?, g, stream);
      if done {
        if trailer.Some? && trailer.value != [] {
          out := out + [Headers(trailer.value, true)];
        }
        if FlowControlled(g) ==> FlowControl.NoWrap(stream.start, stream.run) {
          ResponseFraming(header, writes, body, bodyFrames, trailer, maxFrame);
          assert out == before + EndPart(header, writes != [], body, bodyFrames, trailer);
        }
        assert body[..|body|] == body;
      } else {
        ParkedPayload(header, writes, bodyFrames, maxFrame, |body| == 0, trailer.None?);
        assert out == before + (HeaderPart(header, writes != [], |body| == 0, trailer.None?) + bodyFrames);
      }
    }
  }
}
