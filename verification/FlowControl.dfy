/** The flow-controlled part of the HTTP/2 server's `end`: a responder coroutine that sends the
    body as far as the stream window allows and parks when it is empty, against the frame
    parser that adds WINDOW_UPDATE increments and wakes it.  The parser may run whenever the
    responder is parked and also between any two frames, because a send can yield. */
module FlowControl {
  import opened Basics
  import opened Http2Frames


  /** Top: at the head of the loop.  Sending: inside send_body, `done` of `len` bytes are out.
      Parked: yielded with `waiting_coroutine` set.  Done: the loop was left. */
  datatype Pc = Top | Sending(len: nat, end: bool, done: nat) | Parked | Done

  /** `granted` is the initial window plus all increments so far (a history variable);
      `clamped` records that the saturating branch of the window update was taken. */
  datatype State = State(
    body: seq<byte>, endStream: bool, maxFrame: nat,
    offset: nat, window: nat, pc: Pc, frames: seq<Frame>,
    granted: nat, clamped: bool)

  datatype Step = Advance | Update(increment: nat)

  function Init(body: seq<byte>, endStream: bool, maxFrame: nat, window: nat): State {
    State(body, endStream, maxFrame, 0, window, Top, [], window, false)
  }

  predicate Enabled(s: State, e: Step) {
    match e
    case Advance => s.pc.Top? || (s.pc.Sending? && s.offset + s.pc.len <= |s.body| && s.pc.done <= s.pc.len)
    case Update(v) => v < UINT32
  }

  /** The frame send_body emits next, with `left` bytes of the slice still to go. */
  function NextFrame(slice: seq<byte>, end: bool, maxFrame: nat): Frame
  {
    if |slice| > maxFrame then Data(slice[..maxFrame], false) else Data(slice, end)
  }

  function Next(s: State, e: Step): State
    requires Enabled(s, e)
  {
    match e
    case Update(v) =>
      s.(window := (s.window + v) % UINT32, granted := s.granted + v % WIRE, pc := if s.pc.Parked? then Top else s.pc)
    case Advance =>
      match s.pc
      case Top =>
        var left := if s.offset <= |s.body| then |s.body| - s.offset else 0;
        if left == 0 then s.(pc := Done)
        else if s.window == 0 then s.(pc := Parked)
        else if left > s.window then s.(pc := Sending(s.window, false, 0))
        else s.(pc := Sending(left, s.endStream, 0))
      case Sending(len, end, done) =>
        if done < len then
          var f := NextFrame(s.body[s.offset + done..s.offset + len], end, s.maxFrame);
          s.(frames := s.frames + [f], pc := Sending(len, end, done + |f.payload|))
        else
          s.(offset := s.offset + len,
             window := if len > s.window then 0 else s.window - len,
             clamped := s.clamped || len > s.window,
             pc := Top)
  }

  predicate IsRun(s: State, run: seq<Step>)
    decreases |run|, 0
  {
    run == [] || (IsRun(s, run[..|run| - 1]) && Enabled(Exec(s, run[..|run| - 1]), run[|run| - 1]))
  }

  function Exec(s: State, run: seq<Step>): State
    requires IsRun(s, run)
    decreases |run|, 1
  {
    if run == [] then s else Next(Exec(s, run[..|run| - 1]), run[|run| - 1])
  }

  /** No WINDOW_UPDATE of the run sets the reserved top bit, which a peer does not mean but the
      code adds, and none overflows the 32-bit window variable. */
  predicate NoWrap(s: State, run: seq<Step>)
    requires IsRun(s, run)
  {
    run == [] || (
      && NoWrap(s, run[..|run| - 1])
      && (run[|run| - 1].Update? ==> Plain(Exec(s, run[..|run| - 1]).window, run[|run| - 1].increment)))
  }

  predicate Plain(window: nat, increment: nat) {
    increment < WIRE && window + increment < UINT32
  }

  function Sent(s: State): seq<byte> {
    Payload(s.frames)
  }

  /** How far the body is out: whole send_body calls plus the frames of the current one. */
  function Progress(s: State): nat {
    s.offset + if s.pc.Sending? then s.pc.done else 0
  }

  predicate Inv(s: State) {
    && s.maxFrame > 0
    && s.window + s.offset == s.granted
    && !s.clamped
    && Progress(s) <= |s.body|
    && (s.pc.Sending? ==>
          && s.pc.done <= s.pc.len <= s.window
          && 0 < s.pc.len && s.offset + s.pc.len <= |s.body|
          && (s.pc.end <==> s.endStream && s.offset + s.pc.len == |s.body|))
    && (s.pc.Parked? ==> s.window == 0 && s.offset < |s.body|)
    && (s.pc.Done? ==> s.offset == |s.body|)
    && Carries(s.frames, s.body[..Progress(s)], s.endStream && Progress(s) == |s.body|, s.maxFrame)
  }

  lemma InitInv(body: seq<byte>, endStream: bool, maxFrame: nat, window: nat)
    requires maxFrame > 0
    ensures Inv(Init(body, endStream, maxFrame, window))
  {
  }

  lemma SendFrameKeeps(s: State)
    requires Inv(s) && s.pc.Sending? && s.pc.done < s.pc.len
    ensures Inv(Next(s, Advance))
  {
    hide Payload;
    var slice := s.body[s.offset + s.pc.done..s.offset + s.pc.len];
    var f := NextFrame(slice, s.pc.end, s.maxFrame);
    var p := Progress(s);
    assert s.body[..p] + f.payload == s.body[..p + |f.payload|];
    CarriesSnoc(s.frames, s.body[..p], f.payload, f.endStream, s.maxFrame);
  }

  lemma StepKeeps(s: State, e: Step)
    requires Inv(s) && Enabled(s, e)
    requires e.Update? ==> Plain(s.window, e.increment)
    ensures Inv(Next(s, e))
  {
    if e.Advance? && s.pc.Sending? && s.pc.done < s.pc.len {
      SendFrameKeeps(s);
    }
  }

  lemma {:induction false} RunKeeps(s: State, run: seq<Step>)
    requires Inv(s) && IsRun(s, run) && NoWrap(s, run)
    ensures Inv(Exec(s, run))
    ensures Exec(s, run).body == s.body && Exec(s, run).endStream == s.endStream && Exec(s, run).maxFrame == s.maxFrame
    decreases |run|
  {
    if run != [] {
      RunKeeps(s, run[..|run| - 1]);
      StepKeeps(Exec(s, run[..|run| - 1]), run[|run| - 1]);
    }
  }

  function Increments(run: seq<Step>): nat {
    if run == [] then 0
    else Increments(run[..|run| - 1]) + if run[|run| - 1].Update? then run[|run| - 1].increment % WIRE else 0
  }

  lemma {:induction false} GrantedIsSum(s: State, run: seq<Step>)
    requires IsRun(s, run)
    ensures Exec(s, run).granted == s.granted + Increments(run)
    decreases |run|
  {
    if run != [] {
      GrantedIsSum(s, run[..|run| - 1]);
    }
  }

  /** The closed form.  In every interleaving, whenever the responder is parked or done, what
      was sent is the prefix of the body of length min(body, initial window + increments);
      nothing beyond the grant is ever sent; the clamp is never taken; END_STREAM is on the
      last frame exactly when the body is complete and no trailer follows. */
  lemma ClosedForm(body: seq<byte>, endStream: bool, maxFrame: nat, window: nat, run: seq<Step>)
    requires maxFrame > 0 && IsRun(Init(body, endStream, maxFrame, window), run)
    requires NoWrap(Init(body, endStream, maxFrame, window), run)
    ensures var t := Exec(Init(body, endStream, maxFrame, window), run);
      var grant := window + Increments(run);
      && (t.pc.Parked? || t.pc.Done? ==> Sent(t) == body[..Min(|body|, grant)])
      && (t.pc.Done? ==> Carries(t.frames, body, endStream, maxFrame) && |body| <= grant)
      && (t.pc.Parked? ==> grant < |body|)
      && |Sent(t)| <= grant && Sent(t) <= body
      && t.window == grant - t.offset && !t.clamped
      && DataWithin(t.frames, maxFrame)
      && (|Sent(t)| < |body| || !endStream ==> NoEnd(t.frames))
  {
    hide IsRun, NoWrap, Exec, Increments, Payload;
    var s := Init(body, endStream, maxFrame, window);
    InitInv(body, endStream, maxFrame, window);
    RunKeeps(s, run);
    GrantedIsSum(s, run);
    var t := Exec(s, run);
    if t.pc.Done? {
      assert body[..|body|] == body;
    }
  }

  /** The sum the code keeps is the one the peer means exactly for a plain update. */
  lemma AddedAsMeant(window: nat, increment: nat)
    requires increment < UINT32
    ensures (window + increment) % UINT32 == window + increment % WIRE <==> Plain(window, increment)
  {
    var sum := window + increment;
    var q := sum / UINT32;
    assert sum == q * UINT32 + sum % UINT32;
    assert increment % WIRE == if increment < WIRE then increment else increment - WIRE;
    assert q * UINT32 != WIRE;
  }

  predicate AlwaysExact(s: State, run: seq<Step>)
    requires IsRun(s, run)
  {
    Exec(s, run).window + Exec(s, run).offset == Exec(s, run).granted
    && (run == [] || AlwaysExact(s, run[..|run| - 1]))
  }

  /** The window variable is exact in every state of a run if and only if no update wraps. */
  lemma {:induction false} ExactWithoutWrapOnly(s: State, run: seq<Step>)
    requires Inv(s) && IsRun(s, run)
    ensures AlwaysExact(s, run) <==> NoWrap(s, run)
    decreases |run|
  {
    hide Inv, Next, Enabled, Plain;
    if run != [] {
      var init := run[..|run| - 1];
      ExactWithoutWrapOnly(s, init);
      if NoWrap(s, init) {
        RunKeeps(s, init);
        StepExact(Exec(s, init), run[|run| - 1]);
      }
    } else {
      InvExact(s);
    }
  }

  lemma InvExact(s: State)
    requires Inv(s)
    ensures s.window + s.offset == s.granted
  {
    hide Carries;
  }

  lemma StepExact(s: State, e: Step)
    requires Inv(s) && Enabled(s, e)
    ensures var t := Next(s, e);
      t.window + t.offset == t.granted <==> (e.Update? ==> Plain(s.window, e.increment))
  {
    InvExact(s);
    if e.Update? {
      hide Inv;
      AddedAsMeant(s.window, e.increment);
      hide Plain;
    } else {
      StepKeeps(s, e);
      InvExact(Next(s, e));
      hide Inv;
    }
  }

  /** A parked responder is woken by the next update and then makes progress: an update of a
      positive increment leads to a send of at least one byte. */
  lemma WakeMakesProgress(s: State, v: nat)
    requires Inv(s) && s.pc.Parked? && 0 < v < UINT32
    ensures var t := Next(Next(s, Update(v)), Advance);
      t.pc.Sending? && t.pc.len == Min(|s.body| - s.offset, v)
  {
  }

  lemma RunSnoc(s: State, run: seq<Step>, e: Step)
    requires IsRun(s, run) && Enabled(Exec(s, run), e)
    ensures IsRun(s, run + [e]) && Exec(s, run + [e]) == Next(Exec(s, run), e)
  {
    assert (run + [e])[..|run|] == run;
  }

  predicate Words(vs: seq<nat>) {
    forall i | 0 <= i < |vs| :: vs[i] < UINT32
  }

  predicate AllWords(batches: seq<seq<nat>>) {
    forall i | 0 <= i < |batches| :: Words(batches[i])
  }

  /** Nothing but the window, the grant, the frames and the position changed. */
  predicate SameCall(s: State, t: State) {
    s.body == t.body && s.maxFrame == t.maxFrame && s.endStream == t.endStream && s.offset == t.offset
  }

  /** Increments as they arrive. */
  function Updates(vs: seq<nat>): seq<Step> {
    seq(|vs|, i requires 0 <= i < |vs| => Update(vs[i]))
  }

  lemma UpdatesSnoc(vs: seq<nat>, i: nat)
    requires i < |vs|
    ensures Updates(vs[..i + 1]) == Updates(vs[..i]) + [Update(vs[i])]
  {
  }

  /** The stream object and the loop, with the peer's updates given as a schedule: one batch
      that arrives while each frame is being sent, and one increment for each time the
      responder is parked.  The loop ends when the body is out, or parked for ever once the
      wake-ups are used up. */
  class Stream {
    var remoteWindowSize: nat
    var waitingCoroutine: bool
    var frames: seq<Frame>
    var duringSend: seq<seq<nat>>
    var wakeUps: seq<nat>
    ghost var start: State
    ghost var run: seq<Step>
    ghost var state: State

    /** The recorded run is a run of the machine and leads to the tracked state. */
    ghost predicate Tracked()
      reads this
    {
      && IsRun(start, run) && Exec(start, run) == state
      && state.window == remoteWindowSize && state.frames == frames
      && AllWords(duringSend) && Words(wakeUps)
    }

    constructor (window: nat, duringSend: seq<seq<nat>>, wakeUps: seq<nat>)
      ensures remoteWindowSize == window && frames == [] && !waitingCoroutine
      ensures this.duringSend == duringSend && this.wakeUps == wakeUps
    {
      remoteWindowSize, waitingCoroutine, frames := window, false, [];
      this.duringSend, this.wakeUps := duringSend, wakeUps;
    }

    ghost method Record(e: Step)
      requires IsRun(start, run) && Exec(start, run) == state && Enabled(state, e)
      modifies this`run, this`state
      ensures IsRun(start, run) && Exec(start, run) == state && state == Next(old(state), e)
      ensures run == old(run) + [e]
    {
      RunSnoc(start, run, e);
      run := run + [e];
      state := Next(state, e);
    }

    /** The WINDOW_UPDATE case of the frame parser for this stream. */
    method OnWindowUpdate(v: nat)
      requires Tracked() && v < UINT32
      modifies this`remoteWindowSize, this`run, this`state
      ensures Tracked() && state == Next(old(state), Update(v)) && run == old(run) + [Update(v)]
    {
      remoteWindowSize := (remoteWindowSize + v) % UINT32;
      Record(Update(v));
    }

    /** One send of a frame; the updates of the next batch arrive before it returns. */
    method Send(f: Frame)
      requires Tracked() && state.pc.Sending? && state.pc.done < state.pc.len && Enabled(state, Advance)
      requires f.Data? && f == NextFrame(state.body[state.offset + state.pc.done..state.offset + state.pc.len], state.pc.end, state.maxFrame)
      modifies this
      ensures Tracked() && start == old(start) && wakeUps == old(wakeUps)
      ensures SameCall(old(state), state)
      ensures state.pc == old(state).pc.(done := old(state).pc.done + |f.payload|)
      ensures waitingCoroutine == old(waitingCoroutine)
      ensures duringSend == old(duringSend)[Min(1, |old(duringSend)|)..]
      ensures run == old(run) + [Advance] + if old(duringSend) == [] then [] else Updates(old(duringSend)[0])
    {
      hide IsRun, Exec;
      frames := frames + [f];
      Record(Advance);
      if duringSend != [] {
        var batch := duringSend[0];
        duringSend := duringSend[1..];
        ghost var before := run;
        for i := 0 to |batch|
          invariant Tracked() && start == old(start) && wakeUps == old(wakeUps)
          invariant duringSend == old(duringSend)[1..] && run == before + Updates(batch[..i])
          invariant waitingCoroutine == old(waitingCoroutine)
          invariant SameCall(old(state), state)
          invariant state.pc == old(state).pc.(done := old(state).pc.done + |f.payload|)
        {
          UpdatesSnoc(batch, i);
          OnWindowUpdate(batch[i]);
        }
        assert batch[..|batch|] == batch;
      }
    }

    /** send_body for the slice of `len` bytes at `offset`: cut at the frame size, the flag on
        the last frame only. */
    method SendBody(body: seq<byte>, end: bool, maxFrame: nat, offset: nat, len: nat)
      requires Tracked() && state.pc == Sending(len, end, 0) && maxFrame > 0 && offset + len <= |body|
      requires state.body == body && state.maxFrame == maxFrame && state.offset == offset
      modifies this
      ensures Tracked() && start == old(start) && wakeUps == old(wakeUps)
      ensures SameCall(old(state), state) && state.pc == Sending(len, end, len)
      ensures waitingCoroutine == old(waitingCoroutine)
    {
      hide IsRun, Exec, Next;
      var p := offset;
      var left := len;
      while left > 0
        invariant Tracked() && start == old(start) && wakeUps == old(wakeUps)
        invariant 0 <= left <= len && p == offset + len - left && waitingCoroutine == old(waitingCoroutine)
        invariant SameCall(old(state), state) && state.pc == Sending(len, end, len - left)
      {
        var n := if left > maxFrame then maxFrame else left;
        var f := Data(body[p..p + n], if left > maxFrame then false else end);
        assert f == NextFrame(body[p..offset + len], end, maxFrame) by {
          assert left > maxFrame ==> body[p..offset + len][..maxFrame] == body[p..p + maxFrame];
        }
        Send(f);
        left := left - n;
        p := p + n;
      }
    }

    /** The tracked state is at the loop head of this call, `offset` bytes in. */
    ghost predicate AtTop(body: seq<byte>, endStream: bool, maxFrame: nat, offset: nat)
      reads this
    {
      && Tracked() && state.pc.Top? && !waitingCoroutine && state.offset == offset <= |body|
      && state.body == body && state.maxFrame == maxFrame && state.endStream == endStream
    }

    /** An empty window: wait for an update of this stream. */
    method Park(body: seq<byte>, endStream: bool, maxFrame: nat, offset: nat) returns (woken: bool)
      requires AtTop(body, endStream, maxFrame, offset) && offset < |body| && remoteWindowSize == 0
      modifies this
      ensures start == old(start)
      ensures if woken then AtTop(body, endStream, maxFrame, offset) && |wakeUps| < |old(wakeUps)|
              else Tracked() && state.pc.Parked? && wakeUps == [] && waitingCoroutine
      ensures run == old(run) + [Advance] + if woken then [Update(old(wakeUps)[0])] else []
    {
      hide IsRun, Exec;
      Record(Advance);
      waitingCoroutine := true;
      woken := wakeUps != [];
      if woken {
        var v := wakeUps[0];
        wakeUps := wakeUps[1..];
        OnWindowUpdate(v);
        waitingCoroutine := false;
      }
    }

    /** A non-empty window: send as much as it and the body allow, then charge the window. */
    method SendSome(body: seq<byte>, endStream: bool, maxFrame: nat, offset: nat) returns (sendLen: nat)
      requires AtTop(body, endStream, maxFrame, offset) && offset < |body| && remoteWindowSize > 0 && maxFrame > 0
      modifies this
      ensures start == old(start) && 0 < sendLen <= |body| - offset
      ensures AtTop(body, endStream, maxFrame, offset + sendLen) && wakeUps == old(wakeUps)
    {
      hide IsRun, Exec;
      sendLen := |body| - offset;
      Record(Advance);
      var last := endStream;
      if sendLen > remoteWindowSize {
        sendLen, last := remoteWindowSize, false;
      }
      SendBody(body, last, maxFrame, offset, sendLen);
      remoteWindowSize := if sendLen > remoteWindowSize then 0 else remoteWindowSize - sendLen;
      Record(Advance);
    }

    ghost method Leave(body: seq<byte>, endStream: bool, maxFrame: nat)
      requires AtTop(body, endStream, maxFrame, |body|)
      modifies this`run, this`state
      ensures Tracked() && state.pc.Done? && !waitingCoroutine
    {
      Record(Advance);
    }

    /** The flow-controlled loop.  It performs a run of the machine and stops parked or done,
        so that without 32-bit overflow the bytes sent are the closed form. */
    method Respond(body: seq<byte>, endStream: bool, maxFrame: nat) returns (done: bool)
      requires maxFrame > 0 && frames == [] && !waitingCoroutine
      requires AllWords(duringSend) && Words(wakeUps)
      modifies this
      ensures Tracked() && start == Init(body, endStream, maxFrame, old(remoteWindowSize))
      ensures if done then state.pc.Done? else state.pc.Parked? && wakeUps == []
      ensures waitingCoroutine <==> !done
      ensures NoWrap(start, run) ==> Payload(frames) == body[..Min(|body|, old(remoteWindowSize) + Increments(run))]
      ensures NoWrap(start, run) && done ==> Carries(frames, body, endStream, maxFrame)
      ensures NoWrap(start, run) ==> (done <==> |body| <= old(remoteWindowSize) + Increments(run))
    {
      hide IsRun, Exec, NoWrap, Payload, Carries, Increments, DataWithin, NoEnd, Next, Enabled;
      done := RespondLoop(body, endStream, maxFrame);
      if NoWrap(start, run) {
        ClosedForm(body, endStream, maxFrame, old(remoteWindowSize), run);
      }
    }

    /** The loop itself. */
    method RespondLoop(body: seq<byte>, endStream: bool, maxFrame: nat) returns (done: bool)
      requires maxFrame > 0 && frames == [] && !waitingCoroutine
      requires AllWords(duringSend) && Words(wakeUps)
      modifies this
      ensures Tracked() && start == Init(body, endStream, maxFrame, old(remoteWindowSize))
      ensures if done then state.pc.Done? else state.pc.Parked? && wakeUps == []
      ensures waitingCoroutine <==> !done
    {
      start := Init(body, endStream, maxFrame, remoteWindowSize);
      run, state := [], start;
      assert IsRun(start, run) && Exec(start, run) == state;
      hide IsRun, Exec, Next, Enabled;
      var offset := 0;
      done := false;
      while true
        invariant AtTop(body, endStream, maxFrame, offset)
        invariant start == Init(body, endStream, maxFrame, old(remoteWindowSize))
        decreases |body| - offset, |wakeUps|
      {
        if offset == |body| {
          Leave(body, endStream, maxFrame);
          done := true;
          break;
        }
        if remoteWindowSize == 0 {
          var woken := Park(body, endStream, maxFrame, offset);
          if !woken {
            break;
          }
        } else {
          var n := SendSome(body, endStream, maxFrame, offset);
          offset := offset + n;
        }
      }
    }
  }
}
