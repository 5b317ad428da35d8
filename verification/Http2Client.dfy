/** The HTTP/2 client: stream ids, the END_STREAM discipline of requests, and the delivery of
    pipelined responses.  Sends succeed, bodies are not compressed and not padded. */
module Http2Client {
  import opened Basics
  import opened Http2Frames

  /** The flags of a stream and the response data not handed out yet. */
  datatype Stream = Stream(
    pipelineRequest: bool, requestEnd: bool, usePipelineRead: bool, pipelineResponse: bool, buffer: seq<byte>)

  /** A request.  `dataEmpty` is how the code classifies the data (an empty string, an empty
      array, a false value); `bytes` is what it is encoded to. */
  datatype Request = Request(
    header: seq<byte>, dataEmpty: bool, isArray: bool, bytes: seq<byte>, pipeline: bool, usePipelineRead: bool)

  datatype Response = Response(data: seq<byte>, pipeline: bool)

  /** What was accepted for one stream object, and the responses handed out for it. */
  datatype Delivery = Delivery(got: seq<Frame>, handed: seq<Response>)

  /** `streams` is the map of open streams.  The rest is history: the ids returned, the frames
      sent in order and under each id as a peer reads it, and the deliveries of the newest
      stream object of each id. */
  datatype State = State(
    nextId: nat, maxStreams: nat, maxFrame: nat, streams: map<nat, Stream>,
    issued: seq<nat>, out: seq<Addressed>, sent: map<nat, seq<Frame>>, log: map<nat, Delivery>)

  datatype Event =
    | Send(request: Request)
    | Write(id: nat, data: Option<seq<byte>>, end: bool)   // None: an array that encodes to nothing
    | Receive(id: nat, frame: Frame, read: bool)           // during a call of read or of recv
    | Reset(id: nat)
    | Settings(maxStreams: nat)

  function Init(maxStreams: nat, maxFrame: nat): State {
    State(1, maxStreams, maxFrame, map[], [], [], map[], map[])
  }

  predicate Accepts(s: State, r: Request) {
    r.header != [] && |s.streams| < s.maxStreams
  }

  /** A non-empty array without anything to encode: the request is given up after its HEADERS. */
  predicate GivenUp(r: Request) {
    !r.dataEmpty && r.isArray && r.bytes == []
  }

  function RequestFrames(r: Request, maxFrame: nat): seq<Frame>
    requires maxFrame > 0
  {
    [Headers(r.header, r.dataEmpty && !r.pipeline)] + if r.dataEmpty then [] else Split(r.bytes, !r.pipeline, maxFrame)
  }

  function NewStream(r: Request): Stream {
    Stream(r.pipeline, false, r.usePipelineRead, false, [])
  }

  predicate Writable(t: Stream) {
    t.pipelineRequest && !t.requestEnd
  }

  /** What a frame does to its stream before anything is handed out. */
  function Absorb(t: Stream, f: Frame): Stream {
    if f.Data?
    then t.(pipelineResponse := t.pipelineResponse || !f.endStream, buffer := t.buffer + f.payload)
    else t
  }

  /** A response is handed out at the end of the stream, or earlier in pipelined reading. */
  predicate HandsOut(t: Stream, f: Frame, read: bool) {
    f.endStream || ((read || t.usePipelineRead) && Absorb(t, f).pipelineResponse)
  }

  function Received(t: Stream, d: Delivery, f: Frame, read: bool): Delivery {
    if HandsOut(t, f, read)
    then Delivery(d.got + [f], d.handed + [Response(Absorb(t, f).buffer, !f.endStream)])
    else Delivery(d.got + [f], d.handed)
  }

  function Kept(t: Stream, f: Frame, read: bool): Stream {
    if HandsOut(t, f, read) then Absorb(t, f).(buffer := []) else Absorb(t, f)
  }

  function Out(sent: map<nat, seq<Frame>>, id: nat): seq<Frame> {
    if id % WIRE in sent then sent[id % WIRE] else []
  }

  function Sent(sent: map<nat, seq<Frame>>, id: nat, frames: seq<Frame>): map<nat, seq<Frame>> {
    sent[id % WIRE := Out(sent, id) + frames]
  }

  function LogOf(log: map<nat, Delivery>, id: nat): Delivery {
    if id in log then log[id] else Delivery([], [])
  }

  function Next(s: State, e: Event): State
    requires s.maxFrame > 0
  {
    match e
    case Send(r) =>
      if !Accepts(s, r) then s
      else
        var open := s.nextId in s.streams;
        var t := s.(streams := if open then s.streams else s.streams[s.nextId := NewStream(r)],
                    log := if open then s.log else s.log[s.nextId := Delivery([], [])],
                    out := s.out + Under(s.nextId, RequestFrames(r, s.maxFrame)),
                    sent := Sent(s.sent, s.nextId, RequestFrames(r, s.maxFrame)));
        if GivenUp(r) then t
        else t.(nextId := (s.nextId + 2) % UINT32, issued := s.issued + [s.nextId])
    case Write(id, data, end) =>
      if id !in s.streams || !Writable(s.streams[id]) || data.None? then s
      else s.(out := s.out + [Addressed(id, Data(data.value, end))],
              sent := Sent(s.sent, id, [Data(data.value, end)]),
              streams := s.streams[id := s.streams[id].(requestEnd := end)])
    case Receive(wire, f, read) =>
      var id := wire % WIRE;
      if id !in s.streams then s
      else s.(log := s.log[id := Received(s.streams[id], LogOf(s.log, id), f, read)],
              streams := if f.endStream then s.streams - {id} else s.streams[id := Kept(s.streams[id], f, read)])
    case Reset(wire) => s.(streams := s.streams - {wire % WIRE})
    case Settings(n) => s.(maxStreams := n)
  }

  function Exec(s: State, run: seq<Event>): (t: State)
    requires s.maxFrame > 0
    ensures t.maxFrame == s.maxFrame
    decreases |run|
  {
    if run == [] then s else Exec(Next(s, run[0]), run[1..])
  }

  // ---------------------------------------------------------------------------
  // Stream ids.

  /** Ids are the odd numbers in order, modulo 2^32. */
  predicate Ids(next: nat, issued: seq<nat>) {
    && next == (2 * |issued| + 1) % UINT32
    && (forall i | 0 <= i < |issued| :: issued[i] == (2 * i + 1) % UINT32)
  }

  lemma NextOdd(n: nat)
    ensures ((2 * n + 1) % UINT32 + 2) % UINT32 == (2 * (n + 1) + 1) % UINT32
  {
    var q, r := (2 * n + 1) / UINT32, (2 * n + 1) % UINT32;
    assert 2 * n + 3 == q * UINT32 + (r + 2);
    if r + 2 >= UINT32 {
      assert 2 * n + 3 == (q + 1) * UINT32 + (r + 2 - UINT32);
    }
  }

  lemma IdsStep(next: nat, issued: seq<nat>)
    requires Ids(next, issued)
    ensures Ids((next + 2) % UINT32, issued + [next])
  {
    NextOdd(|issued|);
  }

  /** What one event does to the ids. */
  lemma EventIds(s: State, e: Event)
    requires s.maxFrame > 0
    ensures var t := Next(s, e);
      if e.Send? && Accepts(s, e.request) && !GivenUp(e.request)
      then t.issued == s.issued + [s.nextId] && t.nextId == (s.nextId + 2) % UINT32
      else t.issued == s.issued && t.nextId == s.nextId
    ensures Next(s, e).maxFrame == s.maxFrame
  {
  }

  lemma {:induction false} IdsRun(s: State, run: seq<Event>)
    requires Ids(s.nextId, s.issued) && s.maxFrame > 0
    ensures var t := Exec(s, run); Ids(t.nextId, t.issued) && |s.issued| <= |t.issued|
    decreases |run|
  {
    hide Next, Ids;
    if run != [] {
      EventIds(s, run[0]);
      IdsStep(s.nextId, s.issued);
      IdsRun(Next(s, run[0]), run[1..]);
    }
  }

  lemma WireIds(next: nat, issued: seq<nat>)
    requires Ids(next, issued)
    ensures forall i | 0 <= i < |issued| && i < WIRE / 2 :: issued[i] == 2 * i + 1
    ensures (forall i, j | 0 <= i < j < |issued| :: issued[i] % WIRE != issued[j] % WIRE) <==> |issued| <= WIRE / 2
  {
    assert forall i | 0 <= i < |issued| && i < WIRE / 2 :: issued[i] == 2 * i + 1;
    if |issued| > WIRE / 2 {
      var n := WIRE / 2;
      assert issued[n] == WIRE + 1;
      assert issued[n] % WIRE == issued[0] % WIRE;
    }
  }

  /** In every run the ids returned are 1, 3, 5, ...; no two of them are the same stream to a
      peer exactly as long as there are at most 2^30 of them. */
  lemma StreamIds(maxStreams: nat, maxFrame: nat, run: seq<Event>)
    requires maxFrame > 0
    ensures var t := Exec(Init(maxStreams, maxFrame), run);
      && (forall i | 0 <= i < |t.issued| && i < WIRE / 2 :: t.issued[i] == 2 * i + 1)
      && ((forall i, j | 0 <= i < j < |t.issued| :: t.issued[i] % WIRE != t.issued[j] % WIRE) <==>
          |t.issued| <= WIRE / 2)
  {
    var t := Exec(Init(maxStreams, maxFrame), run);
    IdsRun(Init(maxStreams, maxFrame), run);
    WireIds(t.nextId, t.issued);
  }

  /** A stream is created only below the peer's limit, so right after a creation the number of
      open streams is within the limit in force at that moment. */
  lemma WithinLimit(s: State, r: Request)
    requires s.maxFrame > 0
    ensures var t := Next(s, Send(r));
      |t.streams| > |s.streams| ==> |t.streams| <= t.maxStreams
    ensures Accepts(s, r) ==> s.nextId in Next(s, Send(r)).streams
  {
    hide RequestFrames, NewStream, Sent;
    var m := s.streams[s.nextId := NewStream(r)];
    assert m.Keys == s.streams.Keys + {s.nextId};
  }

  // ---------------------------------------------------------------------------
  // Delivery, for every run.

  function Joined(rs: seq<Response>): seq<byte> {
    if rs == [] then [] else Joined(rs[..|rs| - 1]) + rs[|rs| - 1].data
  }

  lemma JoinedSnoc(rs: seq<Response>, r: Response)
    ensures Joined(rs + [r]) == Joined(rs) + r.data
  {
    assert (rs + [r])[..|rs|] == rs;
  }

  predicate AllPipeline(rs: seq<Response>) {
    forall i | 0 <= i < |rs| :: rs[i].pipeline
  }

  /** What was handed out plus what is buffered is what arrived. */
  predicate InProgress(buffer: seq<byte>, d: Delivery) {
    Joined(d.handed) + buffer == Payload(d.got) && AllPipeline(d.handed) && NoEnd(d.got)
  }

  /** Everything that arrived was handed out; the last response, and only the last, is not a
      pipeline one. */
  predicate Complete(d: Delivery) {
    var n := |d.handed|;
    && Joined(d.handed) == Payload(d.got)
    && n > 0 && !d.handed[n - 1].pipeline && AllPipeline(d.handed[..n - 1])
  }

  lemma EndOrNot(frames: seq<Frame>)
    ensures !(NoEnd(frames) && EndsOnce(frames))
  {
  }

  lemma ReceiveKeeps(t: Stream, d: Delivery, f: Frame, read: bool)
    requires InProgress(t.buffer, d)
    ensures var d' := Received(t, d, f, read);
      && (f.endStream ==> EndsOnce(d'.got) && Complete(d'))
      && (!f.endStream ==> InProgress(Kept(t, f, read).buffer, d'))
  {
    var u := Absorb(t, f);
    PayloadSnoc(d.got, f);
    JoinedSnoc(d.handed, Response(u.buffer, !f.endStream));
    assert (Joined(d.handed) + t.buffer) + FrameBytes(f) == Joined(d.handed) + u.buffer;
    hide Payload, Joined;
    assert (d.got + [f])[..|d.got|] == d.got;
    assert (d.handed + [Response(u.buffer, !f.endStream)])[..|d.handed|] == d.handed;
  }

  /** Open streams are in progress; of the others, those that ended are complete. */
  ghost predicate Delivers(streams: map<nat, Stream>, log: map<nat, Delivery>) {
    && streams.Keys <= log.Keys
    && (forall id | id in streams :: InProgress(streams[id].buffer, log[id]))
    && (forall id | id in log && id !in streams && EndsOnce(log[id].got) :: Complete(log[id]))
  }

  lemma DeliversOn(streams: map<nat, Stream>, log: map<nat, Delivery>, id: nat, t: Stream, d: Delivery)
    requires Delivers(streams, log) && InProgress(t.buffer, d)
    ensures Delivers(streams[id := t], log[id := d])
  {
    hide InProgress, Complete, EndsOnce;
  }

  lemma DeliversOff(streams: map<nat, Stream>, log: map<nat, Delivery>, id: nat, d: Delivery)
    requires Delivers(streams, log) && id in log && (EndsOnce(d.got) ==> Complete(d))
    ensures Delivers(streams - {id}, log[id := d])
  {
    hide InProgress, Complete, EndsOnce;
    var rest := streams - {id};
    assert forall k | k in rest :: k in streams && k != id && rest[k] == streams[k];
  }

  lemma NothingYet()
    ensures InProgress([], Delivery([], []))
  {
  }

  lemma InProgressMeans(buffer: seq<byte>, d: Delivery)
    requires InProgress(buffer, d)
    ensures !EndsOnce(d.got)
  {
    EndOrNot(d.got);
    hide Payload, Joined;
  }

  lemma DeliversReceive(s: State, wire: nat, f: Frame, read: bool)
    requires Delivers(s.streams, s.log) && s.maxFrame > 0
    ensures var t := Next(s, Receive(wire, f, read)); Delivers(t.streams, t.log)
  {
    hide InProgress, Complete, EndsOnce, Received, Kept;
    var id := wire % WIRE;
    if id in s.streams {
      assert id in s.log && InProgress(s.streams[id].buffer, s.log[id]);
      hide Delivers;
      var d := Received(s.streams[id], s.log[id], f, read);
      ReceiveKeeps(s.streams[id], s.log[id], f, read);
      if f.endStream {
        DeliversOff(s.streams, s.log, id, d);
      } else {
        DeliversOn(s.streams, s.log, id, Kept(s.streams[id], f, read), d);
      }
    }
  }

  lemma DeliversStep(s: State, e: Event)
    requires Delivers(s.streams, s.log) && s.maxFrame > 0
    ensures var t := Next(s, e); Delivers(t.streams, t.log)
  {
    hide InProgress, Complete, EndsOnce, Received, Kept;
    match e
    case Send(r) =>
      if Accepts(s, r) && s.nextId !in s.streams {
        NothingYet();
        DeliversOn(s.streams, s.log, s.nextId, NewStream(r), Delivery([], []));
      }
    case Write(id, data, end) =>
      if id in s.streams {
        DeliversOn(s.streams, s.log, id, s.streams[id].(requestEnd := end), s.log[id]);
        assert s.log[id := s.log[id]] == s.log;
      }
    case Receive(wire, f, read) => DeliversReceive(s, wire, f, read);
    case Reset(wire) =>
      var id := wire % WIRE;
      if id in s.streams {
        InProgressMeans(s.streams[id].buffer, s.log[id]);
        DeliversOff(s.streams, s.log, id, s.log[id]);
        assert s.log[id := s.log[id]] == s.log;
      } else {
        assert s.streams - {id} == s.streams;
      }
    case Settings(n) =>
  }

  lemma {:induction false} DeliversRun(s: State, run: seq<Event>)
    requires Delivers(s.streams, s.log) && s.maxFrame > 0
    ensures var t := Exec(s, run); Delivers(t.streams, t.log)
    decreases |run|
  {
    hide Next, Delivers;
    if run != [] {
      EventIds(s, run[0]);
      DeliversStep(s, run[0]);
      DeliversRun(Next(s, run[0]), run[1..]);
    }
  }

  /** For every run and any mix of recv and read calls: once END_STREAM of a stream arrived,
      the data handed out for it concatenates to exactly the DATA payloads received, only the
      last response is not a pipeline one, and the stream has left the map; while it is open,
      what is missing is in its buffer. */
  lemma DeliveryConservation(maxStreams: nat, maxFrame: nat, run: seq<Event>)
    requires maxFrame > 0
    ensures var t := Exec(Init(maxStreams, maxFrame), run);
      && t.streams.Keys <= t.log.Keys
      && (forall id | id in t.log && EndsOnce(t.log[id].got) :: id !in t.streams && Complete(t.log[id]))
      && (forall id | id in t.streams :: InProgress(t.streams[id].buffer, t.log[id]))
  {
    hide Complete, InProgress, EndsOnce, Exec;
    var t := Exec(Init(maxStreams, maxFrame), run);
    DeliversRun(Init(maxStreams, maxFrame), run);
    forall id | id in t.streams ensures !EndsOnce(t.log[id].got) {
      InProgressMeans(t.streams[id].buffer, t.log[id]);
    }
  }

  /** Pipelined reading holds nothing back: every DATA frame is handed out as it arrives,
      together with whatever was buffered before. */
  lemma ReadIsPrompt(t: Stream, d: Delivery, f: Frame, read: bool)
    requires InProgress(t.buffer, d) && f.Data? && !f.endStream && (read || t.usePipelineRead)
    ensures var d' := Received(t, d, f, read);
      && Kept(t, f, read).buffer == []
      && d'.handed == d.handed + [Response(t.buffer + f.payload, true)]
      && Joined(d'.handed) == Payload(d'.got)
  {
    ReceiveKeeps(t, d, f, read);
    hide Joined, Payload;
    var d' := Received(t, d, f, read);
    assert Joined(d'.handed) + [] == Joined(d'.handed);
  }

  /** A stream after some frames, none of which ends it, arrived during calls of recv. */
  function GatherStream(t: Stream, frames: seq<Frame>): Stream {
    if frames == [] then t else Kept(GatherStream(t, frames[..|frames| - 1]), frames[|frames| - 1], false)
  }

  function GatherLog(t: Stream, frames: seq<Frame>): Delivery {
    if frames == [] then Delivery([], [])
    else
      var init := frames[..|frames| - 1];
      Received(GatherStream(t, init), GatherLog(t, init), frames[|frames| - 1], false)
  }

  lemma {:induction false} Gathers(r: Request, frames: seq<Frame>)
    requires !r.usePipelineRead && NoEnd(frames)
    ensures var t := GatherStream(NewStream(r), frames);
      && !t.usePipelineRead && t.buffer == Payload(frames)
      && GatherLog(NewStream(r), frames) == Delivery(frames, [])
    decreases |frames|
  {
    if frames != [] {
      var init := frames[..|frames| - 1];
      Gathers(r, init);
      assert init + [frames[|frames| - 1]] == frames;
    }
  }

  /** Plain recv returns one response for the whole stream: all its data, not a pipeline one. */
  lemma RecvIsWhole(r: Request, frames: seq<Frame>, last: Frame)
    requires !r.usePipelineRead && NoEnd(frames) && last.endStream
    ensures var t := GatherStream(NewStream(r), frames);
      Received(t, GatherLog(NewStream(r), frames), last, false) ==
      Delivery(frames + [last], [Response(Payload(frames + [last]), false)])
  {
    Gathers(r, frames);
    PayloadSnoc(frames, last);
    hide GatherStream, GatherLog, Payload;
    assert last.Headers? ==> Payload(frames) + [] == Payload(frames);
  }

  predicate AllData(frames: seq<Frame>) {
    forall i | 0 <= i < |frames| :: frames[i].Data?
  }

  /** A request that asks for pipelined reading gets one response per DATA frame instead. */
  lemma {:induction false} RecvIsPiecewise(r: Request, frames: seq<Frame>)
    requires r.usePipelineRead && NoEnd(frames) && AllData(frames)
    ensures var t := GatherStream(NewStream(r), frames);
      && t.usePipelineRead && t.buffer == []
      && GatherLog(NewStream(r), frames) ==
         Delivery(frames, seq(|frames|, i requires 0 <= i < |frames| => Response(FrameBytes(frames[i]), true)))
    decreases |frames|
  {
    if frames != [] {
      var init := frames[..|frames| - 1];
      var last := frames[|frames| - 1];
      RecvIsPiecewise(r, init);
      assert init + [last] == frames && last.Data? && !last.endStream;
      assert [] + last.payload == last.payload;
    }
  }

  // What opens and closes a stream.

  /** A request: refused without a trace unless it has headers and there is room.  Otherwise a
      new stream has the flags of the request and nothing else; one that is open already stays
      as it is. */
  lemma SendMeaning(s: State, r: Request)
    requires s.maxFrame > 0
    ensures var t := Next(s, Send(r));
      if r.header == [] || |s.streams| >= s.maxStreams then t == s
      else
        && s.nextId in t.streams && t.streams - {s.nextId} == s.streams - {s.nextId}
        && (s.nextId in s.streams ==> t.streams == s.streams && t.log == s.log)
        && (s.nextId !in s.streams ==>
              var n := t.streams[s.nextId];
              && n.pipelineRequest == r.pipeline && n.usePipelineRead == r.usePipelineRead
              && !n.requestEnd && !n.pipelineResponse && n.buffer == []
              && t.log == s.log[s.nextId := Delivery([], [])])
        && (t.issued == s.issued + [s.nextId] <==> r.dataEmpty || !r.isArray || r.bytes != [])
  {
    hide RequestFrames, Sent;
    assert s.issued + [s.nextId] != s.issued;
  }

  /** The limit of the peer's last SETTINGS is the one that counts. */
  lemma LimitInForce(s: State, n: nat, r: Request)
    requires s.maxFrame > 0
    ensures var t := Next(Next(s, Settings(n)), Send(r));
      && (|t.out| > |s.out| <==> r.header != [] && |s.streams| < n)
      && (|t.issued| > |s.issued| <==>
          r.header != [] && |s.streams| < n && (r.dataEmpty || !r.isArray || r.bytes != []))
  {
    RequestShape(r, s.maxFrame);
    hide RequestFrames, Sent, Disciplined, Payload, EndsOnce, NoEnd;
    var frames := RequestFrames(r, s.maxFrame);
    UnderSize(s.nextId, frames);
  }

  lemma {:induction false} UnderSize(id: nat, frames: seq<Frame>)
    ensures |Under(id, frames)| == |frames|
  {
    if frames != [] {
      UnderSize(id, frames[1..]);
    }
  }

  /** No request of the run gets this id. */
  predicate NeverReopens(s: State, run: seq<Event>, id: nat)
    requires s.maxFrame > 0
    decreases |run|
  {
    run == [] ||
    (EventIds(s, run[0]);
     !(run[0].Send? && s.nextId == id) && NeverReopens(Next(s, run[0]), run[1..], id))
  }

  lemma ClosedStep(s: State, e: Event, id: nat)
    requires s.maxFrame > 0 && id !in s.streams && !(e.Send? && s.nextId == id)
    ensures var t := Next(s, e); id !in t.streams && LogOf(t.log, id) == LogOf(s.log, id)
  {
    hide RequestFrames, Sent, Received, Kept;
  }

  lemma {:induction false} ClosedRun(s: State, run: seq<Event>, id: nat)
    requires s.maxFrame > 0 && id !in s.streams && NeverReopens(s, run, id)
    ensures var t := Exec(s, run); id !in t.streams && LogOf(t.log, id) == LogOf(s.log, id)
    decreases |run|
  {
    hide Next;
    if run != [] {
      EventIds(s, run[0]);
      ClosedStep(s, run[0], id);
      ClosedRun(Next(s, run[0]), run[1..], id);
    }
  }

  /** A reset, or the frame with END_STREAM, is final: whatever follows, the stream does not
      come back and nothing more is handed out for it, unless its id is given again.  The top
      bit of the id field does not count, and other streams stay. */
  lemma ClosedForGood(s: State, e: Event, run: seq<Event>)
    requires s.maxFrame > 0 && (e.Reset? || (e.Receive? && e.frame.endStream))
    ensures Next(s, e).maxFrame == s.maxFrame
    ensures var id := e.id % 0x8000_0000;
      var u := Next(s, e);
      && u.streams == s.streams - {id}
      && (e.Reset? ==> u.log == s.log)
      && (NeverReopens(u, run, id) ==>
            id !in Exec(u, run).streams && LogOf(Exec(u, run).log, id) == LogOf(u.log, id))
  {
    EventIds(s, e);
    hide Exec, NeverReopens, Received, Kept;
    var id := e.id % 0x8000_0000;
    var u := Next(s, e);
    assert u.streams == s.streams - {id};
    hide Next;
    if NeverReopens(u, run, id) {
      ClosedRun(u, run, id);
    }
  }

  // ---------------------------------------------------------------------------
  // END_STREAM on the requests.

  /** HEADERS first, then DATA; at most one END_STREAM and no frame after it. */
  predicate Disciplined(frames: seq<Frame>) {
    && frames != [] && frames[0].Headers?
    && (forall i | 0 <= i < |frames| - 1 :: !frames[i].endStream)
    && (forall i | 1 <= i < |frames| :: frames[i].Data?)
  }

  /** HEADERS in front of the frames of a body. */
  lemma HeadedBody(head: Frame, body: seq<Frame>, bytes: seq<byte>, flag: bool, maxFrame: nat)
    requires head.Headers? && !head.endStream && Carries(body, bytes, flag, maxFrame) && maxFrame > 0
    ensures Disciplined([head] + body) && Payload([head] + body) == bytes
    ensures flag && bytes != [] ==> EndsOnce([head] + body)
    ensures !flag || bytes == [] ==> NoEnd([head] + body)
  {
    CarriesEmpty(body, bytes, flag, maxFrame);
    PayloadConcat([head], body);
    PayloadOfHeaders(head.block, head.endStream);
    hide Payload;
    var fs := [head] + body;
    assert forall i | 1 <= i < |fs| :: fs[i] == body[i - 1];
    if body != [] {
      assert fs[..|fs| - 1] == [head] + body[..|body| - 1];
    }
  }

  /** What a request puts on its stream.  Data that is not classified as empty but encodes to
      nothing leaves the stream without END_STREAM. */
  lemma RequestShape(r: Request, maxFrame: nat)
    requires maxFrame > 0
    ensures var fs := RequestFrames(r, maxFrame);
      && Disciplined(fs)
      && (NoEnd(fs) <==> r.pipeline || (!r.dataEmpty && r.bytes == []))
      && (EndsOnce(fs) <==> !r.pipeline && (r.dataEmpty || r.bytes != []))
      && Payload(fs) == (if r.dataEmpty then [] else r.bytes)
      && (GivenUp(r) ==> fs == [Headers(r.header, false)])
  {
    var head := Headers(r.header, r.dataEmpty && !r.pipeline);
    var fs := RequestFrames(r, maxFrame);
    if r.dataEmpty {
      assert fs == [head] && fs[..0] == [];
      PayloadOfHeaders(head.block, head.endStream);
    } else {
      SplitCarries(r.bytes, !r.pipeline, maxFrame);
      CarriesEmpty(Split(r.bytes, !r.pipeline, maxFrame), r.bytes, !r.pipeline, maxFrame);
      HeadedBody(head, Split(r.bytes, !r.pipeline, maxFrame), r.bytes, !r.pipeline, maxFrame);
      EndOrNot(fs);
      hide Split, Payload;
    }
  }

  /** Two HEADERS on one stream. */
  predicate Doubled(frames: seq<Frame>) {
    exists i | 1 <= i < |frames| :: frames[i].Headers?
  }

  lemma DoubledIsBad(frames: seq<Frame>)
    requires Doubled(frames)
    ensures !Disciplined(frames)
  {
  }

  lemma DoubledStays(frames: seq<Frame>, more: seq<Frame>)
    requires Doubled(frames)
    ensures Doubled(frames + more)
  {
    var i :| 1 <= i < |frames| && frames[i].Headers?;
    assert (frames + more)[i] == frames[i];
  }

  /** Every stream that carries frames is disciplined. */
  ghost predicate AllDisciplined(sent: map<nat, seq<Frame>>) {
    forall id | id in sent :: Disciplined(sent[id])
  }

  lemma SentGrows(s: State, e: Event, k: nat)
    requires s.maxFrame > 0 && k in s.sent && Doubled(s.sent[k])
    ensures var t := Next(s, e); k in t.sent && Doubled(t.sent[k])
  {
    hide Doubled, Received, Kept, RequestFrames;
    if e.Send? {
      DoubledStays(s.sent[k], RequestFrames(e.request, s.maxFrame));
    } else if e.Write? && e.data.Some? {
      DoubledStays(s.sent[k], [Data(e.data.value, e.end)]);
    }
  }

  lemma {:induction false} DoubledForEver(s: State, run: seq<Event>, k: nat)
    requires s.maxFrame > 0 && k in s.sent && Doubled(s.sent[k])
    ensures !AllDisciplined(Exec(s, run).sent)
    decreases |run|
  {
    hide Doubled, Next;
    if run == [] {
      DoubledIsBad(s.sent[k]);
    } else {
      EventIds(s, run[0]);
      SentGrows(s, run[0], k);
      DoubledForEver(Next(s, run[0]), run[1..], k);
    }
  }

  /** An accepted request that is given up is the last accepted one of the run; `pending` says
      that there has been one already. */
  predicate NothingAfterGivenUp(s: State, run: seq<Event>, pending: bool)
    requires s.maxFrame > 0
    decreases |run|
  {
    run == [] ||
    (EventIds(s, run[0]);
     if run[0].Send? && Accepts(s, run[0].request)
     then !pending && NothingAfterGivenUp(Next(s, run[0]), run[1..], GivenUp(run[0].request))
     else NothingAfterGivenUp(Next(s, run[0]), run[1..], pending))
  }

  function AcceptedCount(s: State, run: seq<Event>): nat
    requires s.maxFrame > 0
    decreases |run|
  {
    if run == [] then 0
    else
      EventIds(s, run[0]);
      (if run[0].Send? && Accepts(s, run[0].request) then 1 else 0) + AcceptedCount(Next(s, run[0]), run[1..])
  }

  /** As long as no id was used twice: the streams of `n` requests, each disciplined, and a
      writable stream not ended. */
  ghost predicate Orderly(s: State, n: nat, pending: bool) {
    && s.maxFrame > 0 && n <= WIRE / 2
    && s.nextId == 2 * (if pending then n - 1 else n) + 1 && (pending ==> n > 0)
    && (forall k | k in s.sent :: k < 2 * n) && (n > 0 ==> 1 in s.sent) && (pending ==> s.nextId in s.sent)
    && AllDisciplined(s.sent)
    && (forall id | id in s.streams :: id in s.sent && (Writable(s.streams[id]) ==> NoEnd(s.sent[id])))
  }

  lemma OrderlyInit(maxStreams: nat, maxFrame: nat)
    requires maxFrame > 0
    ensures Orderly(Init(maxStreams, maxFrame), 0, false)
  {
  }

  /** What an accepted request does, apart from the ids. */
  lemma SendEffect(s: State, r: Request)
    requires s.maxFrame > 0 && Accepts(s, r)
    ensures var t := Next(s, Send(r));
      && t.sent == Sent(s.sent, s.nextId, RequestFrames(r, s.maxFrame))
      && t.streams == if s.nextId in s.streams then s.streams else s.streams[s.nextId := NewStream(r)]
  {
    hide Sent, RequestFrames, NewStream;
  }

  lemma SentFresh(sent: map<nat, seq<Frame>>, id: nat, frames: seq<Frame>)
    requires id < WIRE && id !in sent
    ensures Sent(sent, id, frames) == sent[id := frames]
  {
    assert [] + frames == frames;
  }

  lemma OrderlySend(s: State, r: Request, n: nat)
    requires Orderly(s, n, false) && Accepts(s, r) && n < WIRE / 2
    ensures Orderly(Next(s, Send(r)), n + 1, GivenUp(r))
  {
    hide RequestFrames, Payload, Disciplined, Next, Accepts, Sent, EndsOnce, NoEnd;
    var id := s.nextId;
    RequestShape(r, s.maxFrame);
    EventIds(s, Send(r));
    SendEffect(s, r);
    assert id < WIRE && id !in s.sent && id !in s.streams;
    SentFresh(s.sent, id, RequestFrames(r, s.maxFrame));
  }

  /** A second request on an id, or one more than there are ids: HEADERS twice. */
  lemma ReuseDoubles(s: State, r: Request, n: nat, pending: bool)
    requires Orderly(s, n, pending) && Accepts(s, r) && (pending || n == WIRE / 2)
    ensures var k := s.nextId % WIRE;
      var t := Next(s, Send(r));
      k in t.sent && Doubled(t.sent[k])
  {
    hide RequestFrames, Next, Accepts, Disciplined;
    var k := s.nextId % WIRE;
    assert k in s.sent && Disciplined(s.sent[k]);
    SendEffect(s, r);
    RequestShape(r, s.maxFrame);
    HeadersAgain(s.sent[k], RequestFrames(r, s.maxFrame));
  }

  lemma HeadersAgain(a: seq<Frame>, b: seq<Frame>)
    requires Disciplined(a) && Disciplined(b)
    ensures Doubled(a + b)
  {
    assert (a + b)[|a|] == b[0];
  }

  lemma OrderlyWrite(s: State, n: nat, pending: bool, id: nat, data: Option<seq<byte>>, end: bool)
    requires Orderly(s, n, pending)
    ensures Orderly(Next(s, Write(id, data, end)), n, pending)
  {
    if id in s.streams && Writable(s.streams[id]) && data.Some? {
      assert id < WIRE && id % WIRE == id;
      var fs := s.sent[id] + [Data(data.value, end)];
      assert Disciplined(s.sent[id]) && NoEnd(s.sent[id]);
      assert Disciplined(fs) && (!end ==> NoEnd(fs));
      hide Disciplined, NoEnd;
    }
  }

  lemma OrderlyStep(s: State, e: Event, n: nat, pending: bool)
    requires Orderly(s, n, pending) && !(e.Send? && Accepts(s, e.request))
    ensures Orderly(Next(s, e), n, pending)
  {
    if e.Write? {
      OrderlyWrite(s, n, pending, e.id, e.data, e.end);
    }
    hide Disciplined, Received;
  }

  lemma {:induction false} DisciplineRun(s: State, run: seq<Event>, n: nat, pending: bool)
    requires Orderly(s, n, pending)
    ensures AllDisciplined(Exec(s, run).sent) <==>
      NothingAfterGivenUp(s, run, pending) && n + AcceptedCount(s, run) <= WIRE / 2
    decreases |run|
  {
    if run != [] {
      EventIds(s, run[0]);
      hide Next, AllDisciplined, Accepts;
      if run[0].Send? && Accepts(s, run[0].request) {
        if pending || n == WIRE / 2 {
          ReuseDoubles(s, run[0].request, n, pending);
          hide Orderly, Doubled;
          DoubledForEver(Next(s, run[0]), run[1..], s.nextId % WIRE);
        } else {
          OrderlySend(s, run[0].request, n);
          hide Orderly;
          DisciplineRun(Next(s, run[0]), run[1..], n + 1, GivenUp(run[0].request));
        }
      } else {
        OrderlyStep(s, run[0], n, pending);
        hide Orderly;
        DisciplineRun(Next(s, run[0]), run[1..], n, pending);
      }
    }
  }

  // What a peer reads.

  /** The frames of one stream, as a peer tells streams apart. */
  function On(out: seq<Addressed>, k: nat): seq<Frame> {
    if out == [] then []
    else (if out[0].id % WIRE == k then [out[0].frame] else []) + On(out[1..], k)
  }

  lemma {:induction false} OnJoin(a: seq<Addressed>, b: seq<Addressed>, k: nat)
    ensures On(a + b, k) == On(a, k) + On(b, k)
  {
    if a == [] {
      assert a + b == b;
    } else {
      assert (a + b)[0] == a[0] && (a + b)[1..] == a[1..] + b;
      OnJoin(a[1..], b, k);
      var first := if a[0].id % WIRE == k then [a[0].frame] else [];
      assert On(a, k) == first + On(a[1..], k);
      assert On(a + b, k) == first + (On(a[1..], k) + On(b, k));
    }
  }

  lemma {:induction false} OnUnder(id: nat, frames: seq<Frame>, k: nat)
    ensures On(Under(id, frames), k) == if id % WIRE == k then frames else []
  {
    if frames != [] {
      OnUnder(id, frames[1..], k);
      assert Under(id, frames)[0] == Addressed(id, frames[0]) && Under(id, frames)[1..] == Under(id, frames[1..]);
    }
  }

  /** The frames per stream are those of the order they were sent in. */
  ghost predicate Sorted(s: State) {
    && s.maxFrame > 0 && s.nextId < UINT32 && Ids32(s.out)
    && (forall id | id in s.streams :: id < UINT32)
    && (forall k: nat :: On(s.out, k) == if k in s.sent then s.sent[k] else [])
    && (forall k | k in s.sent :: s.sent[k] != [])
  }

  lemma SortedSent(s: State, id: nat, frames: seq<Frame>)
    requires Sorted(s) && id < UINT32 && frames != []
    ensures var out := s.out + Under(id, frames);
      var sent := Sent(s.sent, id, frames);
      && Ids32(out)
      && (forall k: nat :: On(out, k) == if k in sent then sent[k] else [])
      && (forall k | k in sent :: sent[k] != [])
  {
    hide On;
    var out := s.out + Under(id, frames);
    var sent := Sent(s.sent, id, frames);
    UnderShort(id, frames);
    forall k: nat ensures On(out, k) == if k in sent then sent[k] else [] {
      OnJoin(s.out, Under(id, frames), k);
      OnUnder(id, frames, k);
    }
  }

  lemma SortedStep(s: State, e: Event)
    requires Sorted(s)
    ensures Sorted(Next(s, e))
  {
    hide On, RequestFrames, Under, Received, Kept, Sent;
    match e
    case Send(r) =>
      if Accepts(s, r) {
        RequestShape(r, s.maxFrame);
        SortedSent(s, s.nextId, RequestFrames(r, s.maxFrame));
      }
    case Write(id, data, end) =>
      if id in s.streams && Writable(s.streams[id]) && data.Some? {
        UnderOne(id, Data(data.value, end));
        SortedSent(s, id, [Data(data.value, end)]);
      }
    case Receive(wire, f, read) =>
    case Reset(wire) =>
    case Settings(n) =>
  }

  lemma {:induction false} SortedRun(s: State, run: seq<Event>)
    requires Sorted(s)
    ensures Sorted(Exec(s, run))
    decreases |run|
  {
    hide Sorted, Next;
    if run != [] {
      SortedMeans(s);
      EventIds(s, run[0]);
      SortedStep(s, run[0]);
      SortedRun(Next(s, run[0]), run[1..]);
    }
  }

  lemma SortedMeans(s: State)
    requires Sorted(s)
    ensures s.maxFrame > 0
  {
  }

  /** Nothing that is sent is longer than the length field of a frame: header blocks, the pieces
      of a body, and what is written at once. */
  predicate ShortEvent(s: State, e: Event) {
    && (e.Send? && Accepts(s, e.request) ==>
          && |e.request.header| < LENGTH_LIMIT
          && (e.request.dataEmpty || Min(|e.request.bytes|, s.maxFrame) < LENGTH_LIMIT))
    && (e.Write? && e.id in s.streams && Writable(s.streams[e.id]) && e.data.Some? ==>
          |e.data.value| < LENGTH_LIMIT)
  }

  predicate ShortRun(s: State, run: seq<Event>)
    requires s.maxFrame > 0
    decreases |run|
  {
    run == [] || (EventIds(s, run[0]); ShortEvent(s, run[0]) && ShortRun(Next(s, run[0]), run[1..]))
  }

  lemma ShortRequest(r: Request, maxFrame: nat)
    requires maxFrame > 0
    ensures ShortFrames(RequestFrames(r, maxFrame)) <==>
      |r.header| < LENGTH_LIMIT && (r.dataEmpty || Min(|r.bytes|, maxFrame) < LENGTH_LIMIT)
  {
    hide Split, ShortFrames;
    SplitShort(r.bytes, !r.pipeline, maxFrame);
    NothingIsShort();
    ShortCons(Headers(r.header, r.dataEmpty && !r.pipeline),
              if r.dataEmpty then [] else Split(r.bytes, !r.pipeline, maxFrame));
  }

  lemma ShortStep(s: State, e: Event)
    requires s.maxFrame > 0
    ensures AllShort(Next(s, e).out) <==> AllShort(s.out) && ShortEvent(s, e)
  {
    hide RequestFrames, Under, Received, Kept, Sent, ShortFrames;
    match e
    case Send(r) =>
      if Accepts(s, r) {
        ShortRequest(r, s.maxFrame);
        UnderShort(s.nextId, RequestFrames(r, s.maxFrame));
        ShortJoin(s.out, Under(s.nextId, RequestFrames(r, s.maxFrame)));
      }
    case Write(id, data, end) =>
      if id in s.streams && Writable(s.streams[id]) && data.Some? {
        var one := [Addressed(id, Data(data.value, end))];
        ShortJoin(s.out, one);
        assert one[0].frame.payload == data.value;
      }
    case Receive(wire, f, read) =>
    case Reset(wire) =>
    case Settings(n) =>
  }

  lemma {:induction false} ShortRunExactly(s: State, run: seq<Event>)
    requires s.maxFrame > 0
    ensures AllShort(Exec(s, run).out) <==> AllShort(s.out) && ShortRun(s, run)
    decreases |run|
  {
    hide Next, ShortEvent, AllShort;
    if run != [] {
      EventIds(s, run[0]);
      ShortStep(s, run[0]);
      ShortRunExactly(Next(s, run[0]), run[1..]);
    }
  }

  /** For every run: a peer reads the bytes sent as the frames that were meant, and each stream
      carries HEADERS first, at most one END_STREAM and no frame after it, if and only if no
      accepted request follows one that was given up after its HEADERS, at most 2^30 were
      accepted, and nothing sent in one frame has 2^24 bytes or more. */
  lemma EndStreamDiscipline(maxStreams: nat, maxFrame: nat, run: seq<Event>)
    requires maxFrame > 0
    ensures var s := Init(maxStreams, maxFrame);
      var out := Exec(s, run).out;
      AsMeant(out) && EachDisciplined(out) <==>
        && NothingAfterGivenUp(s, run, false) && AcceptedCount(s, run) <= WIRE / 2 && ShortRun(s, run)
  {
    hide Exec, Disciplined, On, AsMeant, NothingAfterGivenUp, AcceptedCount, ShortRun, AllShort, AllDisciplined, EachDisciplined;
    var s := Init(maxStreams, maxFrame);
    var t := Exec(s, run);
    OrderlyInit(maxStreams, maxFrame);
    DisciplineRun(s, run, 0, false);
    SortedInit(maxStreams, maxFrame);
    SortedRun(s, run);
    ShortRunExactly(s, run);
    AsMeantExactly(t.out);
    BothViews(t);
  }

  lemma SortedInit(maxStreams: nat, maxFrame: nat)
    requires maxFrame > 0
    ensures Sorted(Init(maxStreams, maxFrame)) && AllShort(Init(maxStreams, maxFrame).out)
  {
  }

  /** Every stream that carries frames in `out` is disciplined. */
  ghost predicate EachDisciplined(out: seq<Addressed>) {
    forall k: nat :: On(out, k) == [] || Disciplined(On(out, k))
  }

  lemma BothViews(t: State)
    requires Sorted(t)
    ensures AllDisciplined(t.sent) <==> EachDisciplined(t.out)
  {
    hide Disciplined, On;
    if AllDisciplined(t.sent) {
      forall k: nat ensures On(t.out, k) == [] || Disciplined(On(t.out, k)) {
        if k in t.sent {
          assert Disciplined(t.sent[k]);
        }
      }
    }
    if EachDisciplined(t.out) {
      forall k | k in t.sent ensures Disciplined(t.sent[k]) {
        assert On(t.out, k) == t.sent[k];
      }
    }
  }

  /** One pipelined request and a write of 2^24 bytes: the condition on requests is met, but a
      peer reads an empty DATA frame with END_STREAM, and the data as the frames after it. */
  lemma LongWrite(h: seq<byte>, data: seq<byte>, maxFrame: nat)
    requires maxFrame > 0 && 0 < |h| < LENGTH_LIMIT && |data| == LENGTH_LIMIT
    ensures var r := Request(h, true, false, [], true, false);
      var run := [Send(r), Write(1, Some(data), true)];
      var s := Init(100, maxFrame);
      && NothingAfterGivenUp(s, run, false) && AcceptedCount(s, run) == 1 && !ShortRun(s, run)
      && Encode(Exec(s, run).out) ==
         Encode([Addressed(1, Headers(h, false)), Addressed(1, Data([], true))]) + data
  {
    var r := Request(h, true, false, [], true, false);
    var w := Write(1, Some(data), true);
    var s := Init(100, maxFrame);
    var s1 := Next(s, Send(r));
    var s2 := Next(s1, w);
    var a, b := Addressed(1, Headers(h, false)), Addressed(1, Data(data, true));
    LongWriteStates(h, data, maxFrame);
    hide Next, ShortEvent, Accepts, Encode, EncodeFrame;
    var run := [Send(r), w];
    assert run[0] == Send(r) && run[1..] == [w] && [w][0] == w && [w][1..] == [];
    assert NothingAfterGivenUp(s1, [w], false) && AcceptedCount(s1, [w]) == 0 && !ShortRun(s1, [w])
      && Exec(s1, [w]) == s2;
    TwoFrames(a, b);
    TwoFrames(a, Addressed(1, Data([], true)));
    LongFrameIsCut(1, data, true);
    assert data[..0] == [] && data[0..] == data;
    assert EncodeFrame(a) + (EncodeFrame(Addressed(1, Data([], true))) + data) ==
      (EncodeFrame(a) + EncodeFrame(Addressed(1, Data([], true)))) + data;
  }

  lemma LongWriteStates(h: seq<byte>, data: seq<byte>, maxFrame: nat)
    requires maxFrame > 0 && 0 < |h| < LENGTH_LIMIT && |data| == LENGTH_LIMIT
    ensures var r := Request(h, true, false, [], true, false);
      var w := Write(1, Some(data), true);
      var s := Init(100, maxFrame);
      var s1 := Next(s, Send(r));
      var s2 := Next(s1, w);
      && Accepts(s, r) && !GivenUp(r) && s1.maxFrame == s2.maxFrame == maxFrame
      && ShortEvent(s, Send(r)) && !ShortEvent(s1, w)
      && s2.out == [Addressed(1, Headers(h, false)), Addressed(1, Data(data, true))]
  {
    var r := Request(h, true, false, [], true, false);
    UnderOne(1, Headers(h, false));
    assert RequestFrames(r, maxFrame) == [Headers(h, false)];
    var s1 := Next(Init(100, maxFrame), Send(r));
    assert s1.out == [Addressed(1, Headers(h, false))];
    assert 1 in s1.streams && Writable(s1.streams[1]);
  }

  lemma TwoFrames(a: Addressed, b: Addressed)
    ensures Encode([a, b]) == EncodeFrame(a) + EncodeFrame(b)
  {
    hide EncodeFrame;
    assert [a, b][1..] == [b] && [b][1..] == [];
    assert Encode([b]) == EncodeFrame(b) + [];
  }

  /** One turn of the loop of send_data moves on if and only if the frame size is positive; with
      http2_max_frame_size 0 it never ends. */
  lemma TurnAdvances(left: nat, maxFrame: nat)
    requires left > 0
    ensures var n := if left > maxFrame then maxFrame else left; left - n < left <==> maxFrame > 0
  {
  }

  /** The three calls that send DATA after END_STREAM: a pipelined request whose array encodes
      to nothing, a plain request that gets the same id, and a write to that id. */
  lemma EndsTwice(h: seq<byte>, g: seq<byte>, x: seq<byte>, maxFrame: nat)
    requires maxFrame > 0 && h != [] && g != []
    ensures var lost := Request(h, false, true, [], true, false);
      var plain := Request(g, true, false, [], false, false);
      var s1 := Next(Init(100, maxFrame), Send(lost));
      var s2 := Next(s1, Send(plain));
      var s3 := Next(s2, Write(1, Some(x), true));
      && s1.issued == [] && s1.nextId == 1 && s2.issued == [1]
      && s3.sent[1] == [Headers(h, false), Headers(g, true), Data(x, true)]
      && !Disciplined(s3.sent[1])
  {
    var lost := Request(h, false, true, [], true, false);
    var plain := Request(g, true, false, [], false, false);
    var s1 := Next(Init(100, maxFrame), Send(lost));
    assert s1.sent[1] == [Headers(h, false)];
    var s2 := Next(s1, Send(plain));
    assert |s1.streams| == 1;
    assert s2.sent[1] == [Headers(h, false), Headers(g, true)];
    assert s2.streams == map[1 := NewStream(lost)];
    var s3 := Next(s2, Write(1, Some(x), true));
    assert s3.sent[1] == [Headers(h, false), Headers(g, true), Data(x, true)];
    assert s3.sent[1][1].Headers?;
  }

  // ---------------------------------------------------------------------------
  // The client object.

  class Client {
    var streamId: nat
    var maxStreams: nat
    const maxFrame: nat
    var streams: map<nat, Stream>
    var wire: seq<byte>
    ghost var out: seq<Addressed>
    ghost var sent: map<nat, seq<Frame>>
    ghost var log: map<nat, Delivery>
    ghost var issued: seq<nat>

    ghost function Value(): State
      reads this
    {
      State(streamId, maxStreams, maxFrame, streams, issued, out, sent, log)
    }

    constructor (maxStreams: nat, maxFrame: nat)
      requires maxFrame > 0
      ensures Value() == Init(maxStreams, maxFrame) && wire == Encode(out)
    {
      streamId, this.maxStreams, this.maxFrame, streams := 1, maxStreams, maxFrame, map[];
      wire, out, sent, log, issued := [], [], map[], map[], [];
    }

    /** send_data: cut at the frame size, the flag on the last frame. */
    method SendData(bytes: seq<byte>, flag: bool) returns (frames: seq<Frame>)
      requires maxFrame > 0
      ensures frames == Split(bytes, flag, maxFrame)
    {
      frames := [];
      var p := 0;
      assert bytes[0..] == bytes;
      while p < |bytes|
        invariant p <= |bytes|
        invariant frames + Split(bytes[p..], flag, maxFrame) == Split(bytes, flag, maxFrame)
      {
        var left := |bytes| - p;
        var n := if left > maxFrame then maxFrame else left;
        ghost var rest := Split(bytes[p + n..], flag, maxFrame);
        var f := Data(bytes[p..p + n], if left > maxFrame then false else flag);
        assert Split(bytes[p..], flag, maxFrame) == [f] + rest by {
          SplitStep(bytes[p..], flag, maxFrame, n);
          assert bytes[p..][..n] == bytes[p..p + n] && bytes[p..][n..] == bytes[p + n..];
        }
        assert frames + ([f] + rest) == (frames + [f]) + rest;
        frames := frames + [f];
        p := p + n;
      }
      assert bytes[p..] == [];
    }

    /** Frame header and content of each frame, in order. */
    method Transmit(id: nat, frames: seq<Frame>)
      requires wire == Encode(out)
      modifies this`wire, this`out, this`sent
      ensures wire == Encode(out) && out == old(out) + Under(id, frames) && sent == Sent(old(sent), id, frames)
    {
      assert Under(id, frames[..0]) == [] && out + [] == out;
      hide EncodeFrame, Under, Sent, Encode;
      for i := 0 to |frames|
        invariant wire == Encode(old(out) + Under(id, frames[..i])) && sent == old(sent) && out == old(out)
      {
        var f := frames[i];
        var header := SetFrameHeader(|Content(f)|, Kind(f), Flags(f), id);
        assert header + Content(f) == EncodeFrame(Addressed(id, f)) by { EncodedAs(id, f); }
        UnderSnoc(id, frames, i);
        EncodeSnoc(out + Under(id, frames[..i]), Addressed(id, f));
        assert out + Under(id, frames[..i + 1]) == (out + Under(id, frames[..i])) + [Addressed(id, f)];
        wire := wire + (header + Content(f));
      }
      assert frames[..|frames|] == frames;
      out := out + Under(id, frames);
      sent := Sent(sent, id, frames);
    }

    /** send_request: 0 when refused, and also when the array turns out to have nothing to
        encode after the HEADERS are out; otherwise the id of the new stream. */
    method SendRequest(r: Request) returns (id: nat)
      requires maxFrame > 0 && wire == Encode(out)
      modifies this
      ensures wire == Encode(out)
      ensures Value() == Next(old(Value()), Send(r))
      ensures id == if Accepts(old(Value()), r) && !GivenUp(r) then old(streamId) else 0
    {
      hide Split, Encode, Under, Sent;
      if r.header == [] || |streams| >= maxStreams {
        return 0;
      }
      if streamId !in streams {
        streams := streams[streamId := NewStream(r)];
        log := log[streamId := Delivery([], [])];
      }
      var head := Headers(r.header, r.dataEmpty && !r.pipeline);
      Transmit(streamId, [head]);
      if !r.dataEmpty {
        if r.isArray && r.bytes == [] {
          SplitNothing(!r.pipeline, maxFrame);
          assert RequestFrames(r, maxFrame) == [head];
          return 0;
        }
        var frames := SendData(r.bytes, !r.pipeline);
        Transmit(streamId, frames);
        SentTwice(old(sent), streamId, [head], frames);
        UnderJoin(streamId, [head], frames);
        assert old(out) + Under(streamId, [head]) + Under(streamId, frames) ==
          old(out) + (Under(streamId, [head]) + Under(streamId, frames));
      }
      assert r.dataEmpty ==> RequestFrames(r, maxFrame) == [head];
      assert sent == Sent(old(sent), streamId, RequestFrames(r, maxFrame));
      assert out == old(out) + Under(streamId, RequestFrames(r, maxFrame));
      id := streamId;
      issued := issued + [id];
      streamId := (streamId + 2) % UINT32;
    }

    /** write_data: refused unless the stream is an unfinished pipelined request, and for an
        array with nothing to encode. */
    method WriteData(id: nat, data: Option<seq<byte>>, end: bool) returns (ok: bool)
      requires maxFrame > 0 && wire == Encode(out)
      modifies this
      ensures wire == Encode(out)
      ensures Value() == Next(old(Value()), Write(id, data, end))
      ensures ok == (id in old(streams) && Writable(old(streams)[id]) && data.Some?)
    {
      if id !in streams || !streams[id].pipelineRequest || streams[id].requestEnd {
        return false;
      }
      if data.None? {
        return false;
      }
      UnderOne(id, Data(data.value, end));
      Transmit(id, [Data(data.value, end)]);
      if end {
        streams := streams[id := streams[id].(requestEnd := true)];
      } else {
        assert streams[id := streams[id].(requestEnd := false)] == streams;
      }
      return true;
    }

    /** The HEADERS, DATA and delivery part of parse_frame. */
    method ParseFrame(field: nat, f: Frame, read: bool) returns (ready: bool, response: Response)
      requires maxFrame > 0
      modifies this`streams, this`log
      ensures Value() == Next(old(Value()), Receive(field, f, read))
      ensures ready == (field % WIRE in old(streams) && HandsOut(old(streams)[field % WIRE], f, read))
      ensures ready ==>
        LogOf(log, field % WIRE).handed == LogOf(old(log), field % WIRE).handed + [response]
    {
      var id := field % WIRE;
      ready, response := false, Response([], false);
      if id !in streams {
        return;
      }
      var t := streams[id];
      if f.Data? {
        if !f.endStream {
          t := t.(pipelineResponse := true);
        }
        if |f.payload| > 0 {
          t := t.(buffer := t.buffer + f.payload);
        }
      }
      assert t == Absorb(streams[id], f) by {
        assert f.Data? && f.payload == [] ==> t.buffer + f.payload == t.buffer;
      }
      ghost var d := LogOf(log, id);
      d := d.(got := d.got + [f]);
      ready := f.endStream || ((read || t.usePipelineRead) && t.pipelineResponse);
      if ready {
        response := Response(t.buffer, !f.endStream);
        d := d.(handed := d.handed + [response]);
        t := t.(buffer := []);
      }
      log := log[id := d];
      streams := if f.endStream then streams - {id} else streams[id := t];
    }
  }

  /** set_frame_header. */
  method SetFrameHeader(length: nat, kind: byte, flags: byte, id: nat) returns (header: seq<byte>)
    ensures header == FrameHeader(length, kind, flags, id)
  {
    header := [length / 65536 % 256, length / 256 % 256, length % 256];
    header := header + [kind] + [flags];
    header := header + [id / 16777216 % 256, id / 65536 % 256, id / 256 % 256, id % 256];
  }

  lemma EncodedAs(id: nat, f: Frame)
    ensures EncodeFrame(Addressed(id, f)) == FrameHeader(|Content(f)|, Kind(f), Flags(f), id) + Content(f)
  {
  }

  lemma {:induction false} EncodeSnoc(frames: seq<Addressed>, a: Addressed)
    ensures Encode(frames + [a]) == Encode(frames) + EncodeFrame(a)
  {
    hide EncodeFrame;
    if frames == [] {
      assert [] + [a] == [a] && [a][1..] == [];
    } else {
      assert (frames + [a])[0] == frames[0] && (frames + [a])[1..] == frames[1..] + [a];
      EncodeSnoc(frames[1..], a);
    }
  }

  lemma UnderSnoc(id: nat, frames: seq<Frame>, i: nat)
    requires i < |frames|
    ensures Under(id, frames[..i + 1]) == Under(id, frames[..i]) + [Addressed(id, frames[i])]
  {
    assert frames[..i + 1] == frames[..i] + [frames[i]];
    UnderJoin(id, frames[..i], [frames[i]]);
    UnderOne(id, frames[i]);
  }

  lemma SplitNothing(flag: bool, maxFrame: nat)
    requires maxFrame > 0
    ensures Split([], flag, maxFrame) == []
  {
  }

  lemma SentTwice(sent: map<nat, seq<Frame>>, id: nat, a: seq<Frame>, b: seq<Frame>)
    ensures Sent(Sent(sent, id, a), id, b) == Sent(sent, id, a + b)
  {
    assert (Out(sent, id) + a) + b == Out(sent, id) + (a + b);
  }
}
