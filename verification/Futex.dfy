/** The futex-based wait/wakeup of the shared atomic counter.

    Any number of processes share one word.  `wait` is a compare-and-set 1 -> 0, then a
    FUTEX_WAIT on the value 0, then a second compare-and-set; `wakeup` is a compare-and-set
    0 -> 1 followed by a FUTEX_WAKE.  Each of those is one atomic step here, and a run is any
    interleaving of the steps of any number of processes.  The count of a wakeup is any int;
    FUTEX_WAKE compares it after each wake, so it wakes one sleeper even for counts below 1. */
module Futex {
  import opened Basics

  type Pid = nat

  /** Where a process is inside `wait` or `wakeup`. */
  datatype Pc =
    | Idle
    | WaitTry             // before the first compare-and-set
    | WaitEnter           // before FUTEX_WAIT
    | Asleep              // queued in the kernel
    | Awake               // FUTEX_WAIT returned 0, before the second compare-and-set
    | WakeTry(n: int)     // before the compare-and-set 0 -> 1
    | WakeCall(n: int)    // the set succeeded, FUTEX_WAKE still owed

  /** History: waits begun, and how they ended: with the token, because FUTEX_WAIT met another
      value, because the queue was left by timeout or signal, or because the second attempt
      came too late.  Wakeups begun, and how they ended: nothing to set, or FUTEX_WAKE done. */
  datatype Tally = Tally(begun: nat, declined: nat, left: nat, late: nat, calls: nat, refused: nat, woke: nat)

  /** The word, the processes that are inside a call, successful waits and sets, and the rest of
      the history. */
  datatype State = State(value: nat, pc: map<Pid, Pc>, waits: nat, sets: nat, tally: Tally)

  datatype Step =
    | CallWait(p: Pid)
    | TakeFirst(p: Pid)
    | EnterWait(p: Pid)
    | LeaveSleep(p: Pid, woken: bool)   // woken: spurious return 0; otherwise timeout or signal
    | TakeSecond(p: Pid)
    | CallWakeup(p: Pid, n: int)
    | SetOne(p: Pid)
    | WakeSleepers(p: Pid, chosen: set<Pid>)

  function At(s: State, p: Pid): Pc {
    if p in s.pc then s.pc[p] else Idle
  }

  function Sleepers(s: State): set<Pid> {
    set p | p in s.pc && s.pc[p].Asleep?
  }

  /** How many of `sleepers` a FUTEX_WAKE with count `n` wakes. */
  function Woken(n: int, sleepers: nat): nat {
    Min(if n < 1 then 1 else n, sleepers)
  }

  predicate Enabled(s: State, e: Step) {
    match e
    case CallWait(p) => At(s, p).Idle?
    case TakeFirst(p) => At(s, p).WaitTry?
    case EnterWait(p) => At(s, p).WaitEnter?
    case LeaveSleep(p, _) => At(s, p).Asleep?
    case TakeSecond(p) => At(s, p).Awake?
    case CallWakeup(p, _) => At(s, p).Idle?
    case SetOne(p) => At(s, p).WakeTry?
    case WakeSleepers(p, chosen) =>
      At(s, p).WakeCall? && chosen <= Sleepers(s) && |chosen| == Woken(At(s, p).n, |Sleepers(s)|)
  }

  function Goto(s: State, p: Pid, pc: Pc): State {
    s.(pc := s.pc[p := pc])
  }

  /** Compare-and-set 1 -> 0 by a waiter; `otherwise` is where a failed attempt continues. */
  function Take(s: State, p: Pid, otherwise: Pc): State {
    if s.value == 1
    then Goto(s.(value := 0, waits := s.waits + 1), p, Idle)
    else Goto(s, p, otherwise)
  }

  function Next(s: State, e: Step): State
    requires Enabled(s, e)
  {
    match e
    case CallWait(p) => Goto(s.(tally := s.tally.(begun := s.tally.begun + 1)), p, WaitTry)
    case TakeFirst(p) => Take(s, p, WaitEnter)
    case EnterWait(p) =>
      if s.value == 0 then Goto(s, p, Asleep)
      else Goto(s.(tally := s.tally.(declined := s.tally.declined + 1)), p, Idle)
    case LeaveSleep(p, woken) =>
      if woken then Goto(s, p, Awake)
      else Goto(s.(tally := s.tally.(left := s.tally.left + 1)), p, Idle)
    case TakeSecond(p) =>
      Take(if s.value == 1 then s else s.(tally := s.tally.(late := s.tally.late + 1)), p, Idle)
    case CallWakeup(p, n) => Goto(s.(tally := s.tally.(calls := s.tally.calls + 1)), p, WakeTry(n))
    case SetOne(p) =>
      if s.value == 0
      then Goto(s.(value := 1, sets := s.sets + 1), p, WakeCall(At(s, p).n))
      else Goto(s.(tally := s.tally.(refused := s.tally.refused + 1)), p, Idle)
    case WakeSleepers(p, chosen) =>
      s.(pc := (map q | q in s.pc :: if q in chosen then Awake else s.pc[q])[p := Idle],
         tally := s.tally.(woke := s.tally.woke + 1))
  }

  function Init(value: nat): State {
    State(value, map[], 0, 0, Tally(0, 0, 0, 0, 0, 0, 0))
  }

  /** Every step of the run is enabled where it is taken. */
  predicate IsRun(s: State, run: seq<Step>)
    decreases |run|
  {
    run == [] || (Enabled(s, run[0]) && IsRun(Next(s, run[0]), run[1..]))
  }

  function Exec(s: State, run: seq<Step>): State
    requires IsRun(s, run)
    decreases |run|
  {
    if run == [] then s else Exec(Next(s, run[0]), run[1..])
  }

  /** A run goes on where it has come to. */
  lemma {:induction false} RunSnoc(s: State, run: seq<Step>, e: Step)
    requires IsRun(s, run)
    ensures IsRun(s, run + [e]) <==> Enabled(Exec(s, run), e)
    ensures Enabled(Exec(s, run), e) ==> Exec(s, run + [e]) == Next(Exec(s, run), e)
    decreases |run|
  {
    hide Enabled, Next;
    if run == [] {
      assert [] + [e] == [e] && [e][1..] == [];
    } else {
      assert (run + [e])[0] == run[0] && (run + [e])[1..] == run[1..] + [e];
      RunSnoc(Next(s, run[0]), run[1..], e);
    }
  }

  /** Somebody will still act on a value of 1: a waker owes its FUTEX_WAKE, or an awakened
      waiter has not tried its compare-and-set. */
  predicate Obliged(s: State) {
    exists p | p in s.pc :: s.pc[p].WakeCall? || s.pc[p].Awake?
  }

  predicate NoLostWakeup(s: State) {
    s.value == 1 && Sleepers(s) != {} ==> Obliged(s)
  }

  /** No process is in the middle of a call, other than sleeping in it. */
  predicate Quiescent(s: State) {
    forall p | p in s.pc :: s.pc[p].Idle? || s.pc[p].Asleep?
  }

  /** Every step keeps the invariant, whatever count a wakeup was called with. */
  lemma StepKeepsObligation(s: State, e: Step)
    requires Enabled(s, e) && NoLostWakeup(s)
    ensures NoLostWakeup(Next(s, e))
  {
    var t := Next(s, e);
    if t.value == 1 && Sleepers(t) != {} {
      var z :| z in Sleepers(t);
      assert t.pc[z].Asleep?;
      if e.WakeSleepers? {
        assert z in s.pc && z in Sleepers(s);
        if e.chosen == {} {
          assert false;
        }
        var q :| q in e.chosen;
        assert q in Sleepers(s) && t.pc[q].Awake?;
      } else if e.SetOne? && s.value == 0 {
        assert t.pc[e.p].WakeCall?;
      } else if e.EnterWait? && z == e.p {
        assert false;
      } else {
        assert z in Sleepers(s);
        var q :| q in s.pc && (s.pc[q].WakeCall? || s.pc[q].Awake?);
        if q == e.p {
          assert false;
        }
        assert q in t.pc && t.pc[q] == s.pc[q];
      }
    }
  }

  /** Conservation and absence of lost wakeups, in every state of every interleaving. */
  lemma {:induction false} RunInvariant(s: State, run: seq<Step>)
    requires IsRun(s, run)
    ensures Exec(s, run).waits + Exec(s, run).value + s.sets == s.waits + s.value + Exec(s, run).sets
    ensures NoLostWakeup(s) ==> NoLostWakeup(Exec(s, run))
    decreases |run|
  {
    if run != [] {
      RunInvariant(Next(s, run[0]), run[1..]);
      if NoLostWakeup(s) {
        StepKeepsObligation(s, run[0]);
      }
    }
  }

  // ---------------------------------------------------------------------------
  // How calls end.

  predicate InWait(pc: Pc) {
    pc.WaitTry? || pc.WaitEnter? || pc.Asleep? || pc.Awake?
  }

  /** The processes at a position, by kind. */
  function Waiting(s: State): set<Pid> {
    set p | p in s.pc && InWait(s.pc[p])
  }

  function Setting(s: State): set<Pid> {
    set p | p in s.pc && s.pc[p].WakeTry?
  }

  function Owing(s: State): set<Pid> {
    set p | p in s.pc && s.pc[p].WakeCall?
  }

  /** Every wait begun is still going on or ended in one of four ways; every wakeup begun is
      still going on, found the value set, or set it; every set owes or did one FUTEX_WAKE. */
  predicate Accounted(s: State) {
    && s.tally.begun == s.waits + s.tally.declined + s.tally.left + s.tally.late + |Waiting(s)|
    && s.tally.calls == s.sets + s.tally.refused + |Setting(s)|
    && s.sets == s.tally.woke + |Owing(s)|
  }

  /** What moving one process does to the three sets. */
  lemma Moved(s: State, t: State, p: Pid)
    requires p in t.pc && t.pc == s.pc[p := t.pc[p]]
    ensures |Waiting(t)| == |Waiting(s)| + (if InWait(At(t, p)) then 1 else 0) - (if InWait(At(s, p)) then 1 else 0)
    ensures |Setting(t)| == |Setting(s)| + (if At(t, p).WakeTry? then 1 else 0) - (if At(s, p).WakeTry? then 1 else 0)
    ensures |Owing(t)| == |Owing(s)| + (if At(t, p).WakeCall? then 1 else 0) - (if At(s, p).WakeCall? then 1 else 0)
  {
    OthersStay(s, t, p);
    assert p in Waiting(s) <==> InWait(At(s, p));
    assert p in Setting(s) <==> At(s, p).WakeTry?;
    assert p in Owing(s) <==> At(s, p).WakeCall?;
    hide Waiting, Setting, Owing, InWait, At;
    Size(Waiting(s), p);
    Size(Waiting(t), p);
    Size(Setting(s), p);
    Size(Setting(t), p);
    Size(Owing(s), p);
    Size(Owing(t), p);
  }

  lemma OthersStay(s: State, t: State, p: Pid)
    requires p in t.pc && t.pc == s.pc[p := t.pc[p]]
    ensures Waiting(t) - {p} == Waiting(s) - {p} && (p in Waiting(t) <==> InWait(At(t, p)))
    ensures Setting(t) - {p} == Setting(s) - {p} && (p in Setting(t) <==> At(t, p).WakeTry?)
    ensures Owing(t) - {p} == Owing(s) - {p} && (p in Owing(t) <==> At(t, p).WakeCall?)
  {
  }

  lemma Size(s: set<Pid>, p: Pid)
    ensures |s| == |s - {p}| + if p in s then 1 else 0
  {
    if p in s {
      assert s == (s - {p}) + {p};
    } else {
      assert s == s - {p};
    }
  }

  lemma WokenAccounted(s: State, p: Pid, chosen: set<Pid>)
    requires Accounted(s) && Enabled(s, WakeSleepers(p, chosen))
    ensures Accounted(Next(s, WakeSleepers(p, chosen)))
  {
    var t := Next(s, WakeSleepers(p, chosen));
    assert Waiting(t) == Waiting(s);
    assert Setting(t) == Setting(s);
    assert Owing(t) == Owing(s) - {p};
    Size(Owing(s), p);
  }

  lemma StepAccounted(s: State, e: Step)
    requires Accounted(s) && Enabled(s, e)
    ensures Accounted(Next(s, e))
  {
    if e.WakeSleepers? {
      WokenAccounted(s, e.p, e.chosen);
    } else {
      var t := Next(s, e);
      assert t.pc == s.pc[e.p := t.pc[e.p]];
      Moved(s, t, e.p);
      hide Waiting, Setting, Owing;
    }
  }

  lemma {:induction false} RunAccounted(s: State, run: seq<Step>)
    requires Accounted(s) && IsRun(s, run)
    ensures Accounted(Exec(s, run))
    decreases |run|
  {
    hide Accounted, Next, Enabled;
    if run != [] {
      StepAccounted(s, run[0]);
      RunAccounted(Next(s, run[0]), run[1..]);
    }
  }

  lemma InitAccounted(value: nat)
    ensures Accounted(Init(value))
  {
    var s := Init(value);
    assert Waiting(s) == {} && Setting(s) == {} && Owing(s) == {};
  }

  /** A wait comes back in one step of the process itself, and only like this: with the token,
      which was there and now is gone; because FUTEX_WAIT met a value other than 0; because the
      process left the queue by timeout or signal; or because its second attempt found no
      token.  Whatever the others do, it stays in its call. */
  lemma WaitReturnsOnlyBy(s: State, e: Step, p: Pid)
    requires Enabled(s, e) && InWait(At(s, p)) && !InWait(At(Next(s, e), p))
    ensures e.p == p && At(Next(s, e), p) == Idle
    ensures
      || ((e.TakeFirst? || e.TakeSecond?) && s.value == 1 && Next(s, e).value == 0 && Next(s, e).waits == s.waits + 1)
      || (e.EnterWait? && s.value != 0)
      || (e.LeaveSleep? && !e.woken)
      || (e.TakeSecond? && s.value != 1)
  {
  }

  /** A FUTEX_WAIT that meets 0 queues the caller, and only a wake or a return of its own takes
      a process out of the queue. */
  lemma SleepsUntilWoken(s: State, e: Step, p: Pid)
    requires Enabled(s, e)
    ensures e == EnterWait(p) && s.value == 0 ==> p in Sleepers(Next(s, e))
    ensures p in Sleepers(s) && p !in Sleepers(Next(s, e)) ==>
      || (e.WakeSleepers? && p in e.chosen && At(Next(s, e), p) == Awake)
      || (e.LeaveSleep? && e.p == p && At(Next(s, e), p) == if e.woken then Awake else Idle)
  {
  }

  /** The protocol theorem: from any initial value, successful waits plus the value equal the
      initial value plus the successful sets; and a value of 1 with sleepers present always
      leaves somebody obliged to act, so when the system comes to rest with sleepers the value
      is not 1.  Every wait and wakeup begun is accounted for. */
  lemma FutexProtocol(value: nat, run: seq<Step>)
    requires IsRun(Init(value), run)
    ensures var t := Exec(Init(value), run);
      && t.waits + t.value == value + t.sets
      && (value <= 1 ==> t.value <= 1)
      && NoLostWakeup(t)
      && (Quiescent(t) && Sleepers(t) != {} ==> t.value != 1)
      && Accounted(t)
  {
    InitAccounted(value);
    RunAccounted(Init(value), run);
    hide Accounted;
    RunInvariant(Init(value), run);
    if value <= 1 {
      StaysBinary(Init(value), run);
    }
  }

  lemma {:induction false} StaysBinary(s: State, run: seq<Step>)
    requires IsRun(s, run) && s.value <= 1
    ensures Exec(s, run).value <= 1
    decreases |run|
  {
    if run != [] {
      StaysBinary(Next(s, run[0]), run[1..]);
    }
  }

  /** The kernel's loop over the queue: the count is compared after each wake. */
  method WakeLoop(sleepers: set<Pid>, n: int) returns (chosen: set<Pid>)
    ensures chosen <= sleepers && |chosen| == Woken(n, |sleepers|)
  {
    var queue := sleepers;
    chosen := {};
    var woken := 0;
    while queue != {}
      invariant queue <= sleepers && chosen <= sleepers && chosen !! queue
      invariant |chosen| == woken == |sleepers| - |queue| && (woken == 0 || woken < n)
      decreases |queue|
    {
      var q :| q in queue;
      queue := queue - {q};
      chosen := chosen + {q};
      woken := woken + 1;
      if woken >= n {
        return;
      }
    }
  }

  /** The shared word with its callers; each method is one atomic step of the source. */
  class SharedWord {
    var value: nat
    var pc: map<Pid, Pc>
    var waits: nat
    var sets: nat
    ghost var tally: Tally

    ghost function View(): State
      reads this
    {
      State(value, pc, waits, sets, tally)
    }

    constructor (v: nat)
      ensures View() == Init(v)
    {
      value, pc, waits, sets, tally := v, map[], 0, 0, Tally(0, 0, 0, 0, 0, 0, 0);
    }

    function Position(p: Pid): (r: Pc)
      reads this
      ensures r == At(View(), p)
    {
      if p in pc then pc[p] else Idle
    }

    method CompareAndSet(from: nat, to: nat) returns (ok: bool)
      modifies this`value
      ensures ok == (old(value) == from)
      ensures value == if ok then to else old(value)
    {
      ok := value == from;
      if ok {
        value := to;
      }
    }

    method StartWait(p: Pid)
      requires Position(p).Idle?
      modifies this
      ensures View() == Next(old(View()), CallWait(p))
    {
      pc := pc[p := WaitTry];
      tally := tally.(begun := tally.begun + 1);
    }

    method StartWakeup(p: Pid, n: int)
      requires Position(p).Idle?
      modifies this
      ensures View() == Next(old(View()), CallWakeup(p, n))
    {
      pc := pc[p := WakeTry(n)];
      tally := tally.(calls := tally.calls + 1);
    }

    /** FUTEX_WAIT returns without a FUTEX_WAKE: 0 when spurious, an error on timeout or signal. */
    method LeaveQueue(p: Pid, woken: bool)
      requires Position(p).Asleep?
      modifies this
      ensures View() == Next(old(View()), LeaveSleep(p, woken))
    {
      pc := pc[p := if woken then Awake else Idle];
      tally := if woken then tally else tally.(left := tally.left + 1);
    }

    /** Either compare-and-set of `wait`: one attempt of a waiter to take the token. */
    method Attempt(p: Pid)
      requires Position(p).WaitTry? || Position(p).Awake?
      modifies this
      ensures View() == Next(old(View()), if old(Position(p)).WaitTry? then TakeFirst(p) else TakeSecond(p))
    {
      var first := Position(p).WaitTry?;
      var ok := CompareAndSet(1, 0);
      if ok {
        waits := waits + 1;
        pc := pc[p := Idle];
      } else {
        pc := pc[p := if first then WaitEnter else Idle];
        tally := if first then tally else tally.(late := tally.late + 1);
      }
    }

    /** FUTEX_WAIT with expected value 0: the kernel compares and queues atomically. */
    method FutexWait(p: Pid)
      requires Position(p).WaitEnter?
      modifies this
      ensures View() == Next(old(View()), EnterWait(p))
    {
      pc := pc[p := if value == 0 then Asleep else Idle];
      tally := if value == 0 then tally else tally.(declined := tally.declined + 1);
    }

    /** The compare-and-set of `wakeup`, up to the system call. */
    method Publish(p: Pid)
      requires Position(p).WakeTry?
      modifies this
      ensures View() == Next(old(View()), SetOne(p))
    {
      var n := Position(p).n;
      var ok := CompareAndSet(0, 1);
      if ok {
        sets := sets + 1;
        pc := pc[p := WakeCall(n)];
      } else {
        tally := tally.(refused := tally.refused + 1);
        pc := pc[p := Idle];
      }
    }

    /** FUTEX_WAKE: moves sleepers out of the queue one at a time until the count is reached. */
    method FutexWake(p: Pid) returns (chosen: set<Pid>)
      requires Position(p).WakeCall?
      modifies this
      ensures Enabled(old(View()), WakeSleepers(p, chosen))
      ensures View() == Next(old(View()), WakeSleepers(p, chosen))
    {
      var queue := set q | q in pc && pc[q].Asleep?;
      assert queue == Sleepers(View());
      chosen := WakeLoop(queue, Position(p).n);
      pc := (map q | q in pc :: if q in chosen then Awake else pc[q])[p := Idle];
      tally := tally.(woke := tally.woke + 1);
    }
  }
}
