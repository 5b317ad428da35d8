/** Who runs: the coroutine kernel together with the user yield/resume table, cancellation, the
    queue of deferred resumes and the concurrency gate.  What the switches do to the executor
    globals is in ContextSwitch. */
module CoroutineKernel {
  import opened Basics

  const MAIN: Cid := -1

  /** What a coroutine is doing.  The first two are possible only for the running one, Nested
      only for one that resumed or created another and waits for it to yield or close. */
  datatype Pc =
    | User | AtGate
    | Nested
    | ParkedUser        // in its own user yield
    | ParkedIo          // in a wait that an event, a timer or another frame ends
    | ParkedGate        // waiting for a concurrency slot, a deferred resume is queued
    | Preempted         // interrupted by the scheduler, a deferred resume is queued

  datatype Cancel = NoCancel | CancelUser | CancelIo

  datatype Co = Co(origin: Cid, pcid: Cid, pc: Pc, cancel: Cancel)

  datatype Config = Config(maxConcurrency: nat, maxNum: nat)

  /** `stack` is a history variable: the origin chain of the current coroutine, itself first.
      `fault` records a null or freed pointer being followed, or a kernel assertion failing. */
  datatype Kernel = Kernel(
    cos: map<Cid, Co>, current: Cid, lastCid: nat,
    table: set<Cid>, deferred: seq<Cid>, concurrency: nat,
    stack: seq<Cid>, fault: bool)

  datatype Step =
    | Local                     // user code, silence operators: no switch
    | Create
    | PassGate                  // one turn of the loop at the start of a coroutine
    | UserYield
    | IoYield(cancelable: bool)
    | Preempt
    | IoResume(target: Cid)
    | UserResume(target: Cid)   // any argument
    | CancelCall(target: Cid)   // any argument
    | RunDeferred
    | Close

  function Init(): Kernel {
    Kernel(map[MAIN := Co(MAIN, MAIN, User, NoCancel)], MAIN, 0, {}, [], 0, [MAIN], false)
  }

  predicate Running(k: Kernel, pc: Pc) {
    k.current in k.cos && k.cos[k.current].pc == pc
  }

  predicate Enabled(k: Kernel, e: Step) {
    match e
    case Local | Create | UserResume(_) | CancelCall(_) => Running(k, User)
    case UserYield | IoYield(_) | Preempt | Close => Running(k, User) && k.current != MAIN
    case PassGate => Running(k, AtGate)
    case IoResume(target) => Running(k, User) && target in k.cos && k.cos[target].pc.ParkedIo?
    case RunDeferred => Running(k, User) && k.current == MAIN && k.deferred != []
  }

  function Mark(k: Kernel, c: Cid, pc: Pc, cancel: Cancel): Kernel
    requires c in k.cos
  {
    k.(cos := k.cos[c := k.cos[c].(pc := pc, cancel := cancel)])
  }

  /** Coroutine::yield: control goes back to the origin. */
  function Yield(k: Kernel, pc: Pc, cancel: Cancel): Kernel {
    if k.current !in k.cos || k.cos[k.current].origin !in k.cos || k.stack == [] then k.(fault := true)
    else
      var o := k.cos[k.current].origin;
      Mark(Mark(k, k.current, pc, cancel), o, User, NoCancel).(current := o, stack := k.stack[1..])
  }

  /** Coroutine::resume: the current one becomes the origin of the target.  A coroutine that
      was waiting at the gate tests it again. */
  function Resume(k: Kernel, target: Cid): Kernel {
    if target !in k.cos || k.current !in k.cos || target == k.current then k.(fault := true)
    else
      var pc := if k.cos[target].pc.ParkedGate? then AtGate else User;
      var k1 := Mark(Mark(k, k.current, Nested, NoCancel), target, pc, NoCancel);
      k1.(cos := k1.cos[target := k1.cos[target].(origin := k.current)],
          current := target, stack := [target] + k.stack)
  }

  predicate Gated(cfg: Config, k: Kernel)
    requires k.current in k.cos
  {
    cfg.maxConcurrency > 0 && k.cos[k.current].pcid == MAIN
  }

  function Next(cfg: Config, k: Kernel, e: Step): Kernel
    requires Enabled(k, e)
  {
    match e
    case Local => k
    case Create =>
      if |k.cos| - 1 >= cfg.maxNum then k
      else
        var c := k.lastCid + 1;
        var k1 := Mark(k, k.current, Nested, NoCancel);
        k1.(cos := k1.cos[c := Co(k.current, k.current, AtGate, NoCancel)],
            lastCid := c, current := c, stack := [c] + k.stack)
    case PassGate =>
      if !Gated(cfg, k) then Mark(k, k.current, User, NoCancel)
      else if k.concurrency > cfg.maxConcurrency - 1 then
        Yield(k.(deferred := k.deferred + [k.current]), ParkedGate, NoCancel)
      else Mark(k, k.current, User, NoCancel).(concurrency := (k.concurrency + 1) % UINT32)
    case UserYield => Yield(k.(table := k.table + {k.current}), ParkedUser, CancelUser)
    case IoYield(cancelable) => Yield(k, ParkedIo, if cancelable then CancelIo else NoCancel)
    case Preempt => Yield(k.(deferred := k.deferred + [k.current]), Preempted, NoCancel)
    case IoResume(target) => Resume(k, target)
    case UserResume(target) =>
      if target !in k.table then k else Resume(k.(table := k.table - {target}), target)
    case CancelCall(target) =>
      if target !in k.cos then k
      else if k.cos[target].cancel.CancelUser? then Resume(k.(table := k.table - {target}), target)
      else if k.cos[target].cancel.CancelIo? then Resume(k, target)
      else k
    case RunDeferred => Resume(k.(deferred := k.deferred[1..]), k.deferred[0])
    case Close =>
      var co := k.cos[k.current];
      if co.origin !in k.cos || co.origin == k.current || k.stack == [] then k.(fault := true)
      else
        Mark(k, co.origin, User, NoCancel).(
          cos := Mark(k, co.origin, User, NoCancel).cos - {k.current},
          concurrency := if Gated(cfg, k) then (k.concurrency + UINT32 - 1) % UINT32 else k.concurrency,
          current := co.origin, stack := k.stack[1..])
  }

  predicate IsRun(cfg: Config, k: Kernel, run: seq<Step>)
    decreases |run|
  {
    run == [] || (Enabled(k, run[0]) && IsRun(cfg, Next(cfg, k, run[0]), run[1..]))
  }

  function Exec(cfg: Config, k: Kernel, run: seq<Step>): Kernel
    requires IsRun(cfg, k, run)
    decreases |run|
  {
    if run == [] then k else Exec(cfg, Next(cfg, k, run[0]), run[1..])
  }

  // ---------------------------------------------------------------------------
  // Invariants.

  predicate NoDup(s: seq<Cid>) {
    forall i, j | 0 <= i < j < |s| :: s[i] != s[j]
  }

  predicate Parked(pc: Pc) {
    pc.ParkedUser? || pc.ParkedIo? || pc.ParkedGate? || pc.Preempted?
  }

  predicate HasDeferred(pc: Pc) {
    pc.ParkedGate? || pc.Preempted?
  }

  /** The history variable is the chain of origin pointers; it has no repetition and ends at main. */
  predicate Linked(k: Kernel) {
    && !k.fault
    && k.stack != [] && k.stack[0] == k.current && k.stack[|k.stack| - 1] == MAIN
    && NoDup(k.stack)
    && (forall i | 0 <= i < |k.stack| :: k.stack[i] in k.cos)
    && (forall i | 0 <= i < |k.stack| - 1 :: k.cos[k.stack[i]].origin == k.stack[i + 1])
    && (forall c | c in k.cos :: c == MAIN || 1 <= c <= k.lastCid)
  }

  /** The running coroutine runs, its ancestors wait in a nested call, all others are parked. */
  predicate Placed(k: Kernel) {
    forall c | c in k.cos ::
      && (c == k.current ==> k.cos[c].pc.User? || (k.cos[c].pc.AtGate? && c != MAIN))
      && (c != k.current && c in k.stack ==> k.cos[c].pc.Nested?)
      && (c !in k.stack ==> Parked(k.cos[c].pc))
  }

  /** The user table holds exactly the coroutines in their own user yield. */
  predicate Registered(k: Kernel) {
    && (forall c | c in k.table :: c in k.cos)
    && (forall c | c in k.cos ::
         && (c in k.table <==> k.cos[c].pc.ParkedUser?)
         && (k.cos[c].cancel.CancelUser? <==> k.cos[c].pc.ParkedUser?)
         && (k.cos[c].cancel.CancelIo? ==> k.cos[c].pc.ParkedIo?))
  }

  /** Exactly one pending deferred resume for each coroutine that waits for one. */
  predicate Queued(k: Kernel) {
    && NoDup(k.deferred)
    && (forall c | c in k.deferred :: c in k.cos)
    && (forall c | c in k.cos :: c in k.deferred <==> HasDeferred(k.cos[c].pc))
  }

  predicate IsAdmitted(c: Cid, co: Co) {
    c != MAIN && co.pcid == MAIN && !co.pc.AtGate? && !co.pc.ParkedGate?
  }

  /** The top-level coroutines that passed the gate and have not closed. */
  function Admitted(cos: map<Cid, Co>): set<Cid> {
    set c | c in cos && IsAdmitted(c, cos[c])
  }

  predicate Counted(cfg: Config, k: Kernel) {
    cfg.maxConcurrency > 0 ==> k.concurrency == |Admitted(k.cos)| <= cfg.maxConcurrency
  }

  predicate Structure(k: Kernel) {
    Linked(k) && Placed(k) && Registered(k) && Queued(k)
  }

  predicate Inv(cfg: Config, k: Kernel) {
    Structure(k) && Counted(cfg, k)
  }

  lemma MainIsThere(k: Kernel)
    requires Linked(k)
    ensures MAIN in k.cos && k.current in k.cos
    ensures k.current != MAIN ==> |k.stack| >= 2 && k.cos[k.current].origin == k.stack[1] && k.stack[1] in k.cos
  {
    assert k.stack[|k.stack| - 1] in k.cos && k.stack[0] in k.cos;
  }

  // ---------------------------------------------------------------------------
  // Yielding.

  /** What a yield needs besides the structure: the caller has already made its registration. */
  predicate ReadyToYield(k: Kernel, pc: Pc, cancel: Cancel) {
    Linked(k) && Placed(k) && k.current != MAIN && Parked(pc) && BooksForYield(k, pc, cancel)
  }

  predicate BooksForYield(k: Kernel, pc: Pc, cancel: Cancel) {
    && (cancel.CancelUser? <==> pc.ParkedUser?) && (cancel.CancelIo? ==> pc.ParkedIo?)
    && (forall c | c in k.table :: c in k.cos)
    && (forall c | c in k.cos && c != k.current ::
         && (c in k.table <==> k.cos[c].pc.ParkedUser?)
         && (k.cos[c].cancel.CancelUser? <==> k.cos[c].pc.ParkedUser?)
         && (k.cos[c].cancel.CancelIo? ==> k.cos[c].pc.ParkedIo?)
         && (c in k.deferred <==> HasDeferred(k.cos[c].pc)))
    && (k.current in k.table <==> pc.ParkedUser?)
    && (k.current in k.deferred <==> HasDeferred(pc))
    && NoDup(k.deferred) && (forall c | c in k.deferred :: c in k.cos)
  }

  lemma TailOfStack(k: Kernel)
    requires Linked(k) && k.current != MAIN
    ensures |k.stack| >= 2 && NoDup(k.stack[1..])
    ensures k.current !in k.stack[1..]
    ensures forall c :: c in k.stack <==> c == k.current || c in k.stack[1..]
  {
    MainIsThere(k);
    assert k.stack == [k.stack[0]] + k.stack[1..];
  }

  lemma YieldBooks(k: Kernel, pc: Pc, cancel: Cancel)
    requires BooksForYield(k, pc, cancel) && k.current in k.cos && k.stack != []
    requires var o := k.cos[k.current].origin; o in k.cos && o != k.current && k.cos[o].pc.Nested?
    ensures Registered(Yield(k, pc, cancel)) && Queued(Yield(k, pc, cancel))
  {
    hide NoDup;
    var t := Yield(k, pc, cancel);
    var o := k.cos[k.current].origin;
    assert forall c | c in k.cos && c != k.current && c != o :: t.cos[c] == k.cos[c];
  }

  lemma YieldKeeps(k: Kernel, pc: Pc, cancel: Cancel)
    requires ReadyToYield(k, pc, cancel)
    ensures Structure(Yield(k, pc, cancel))
    ensures Yield(k, pc, cancel).current == k.cos[k.current].origin != k.current
    ensures Yield(k, pc, cancel).cos.Keys == k.cos.Keys
  {
    hide BooksForYield, Registered, Queued;
    MainIsThere(k);
    TailOfStack(k);
    var t := Yield(k, pc, cancel);
    assert k.stack[1] in k.stack[1..];
    assert k.stack[1] in k.stack && k.cos[k.stack[1]].pc.Nested?;
    YieldBooks(k, pc, cancel);
    PopLinked(k, t);
    PopPlaced(k, t);
  }

  // ---------------------------------------------------------------------------
  // Resuming.

  /** What a resume needs: the target is parked and its registration has been withdrawn. */
  predicate ReadyToResume(k: Kernel, target: Cid) {
    Linked(k) && Placed(k) && Running(k, User) && target in k.cos && Parked(k.cos[target].pc) && BooksForResume(k, target)
  }

  predicate BooksForResume(k: Kernel, target: Cid) {
    && target !in k.table && target !in k.deferred
    && (forall c | c in k.table :: c in k.cos)
    && (forall c | c in k.cos && c != target ::
         && (c in k.table <==> k.cos[c].pc.ParkedUser?)
         && (k.cos[c].cancel.CancelUser? <==> k.cos[c].pc.ParkedUser?)
         && (k.cos[c].cancel.CancelIo? ==> k.cos[c].pc.ParkedIo?)
         && (c in k.deferred <==> HasDeferred(k.cos[c].pc)))
    && NoDup(k.deferred) && (forall c | c in k.deferred :: c in k.cos)
  }

  lemma ResumeBooks(k: Kernel, target: Cid)
    requires BooksForResume(k, target) && k.current in k.cos && k.current != target && target in k.cos
    requires k.cos[k.current].pc.User?
    ensures Registered(Resume(k, target)) && Queued(Resume(k, target))
  {
    hide NoDup;
    var t := Resume(k, target);
    assert forall c | c in k.cos && c != k.current && c != target :: t.cos[c] == k.cos[c];
  }

  lemma ResumeKeeps(k: Kernel, target: Cid)
    requires ReadyToResume(k, target)
    ensures Structure(Resume(k, target))
    ensures Resume(k, target).current == target != k.current
    ensures Resume(k, target).cos.Keys == k.cos.Keys
  {
    hide BooksForResume, Registered, Queued;
    MainIsThere(k);
    var t := Resume(k, target);
    assert target !in k.stack && k.current in k.stack && MAIN in k.stack;
    ResumeBooks(k, target);
    PushLinked(k, target, t);
    PushPlaced(k, target, t);
  }

  /** Pushing a coroutine that is not on the chain, with the current one as its origin. */
  lemma PushLinked(k: Kernel, c: Cid, t: Kernel)
    requires Linked(k) && c !in k.stack && !t.fault
    requires t.stack == [c] + k.stack && t.current == c && c in t.cos && t.cos[c].origin == k.current
    requires forall d | d in k.cos :: d in t.cos && (d != c ==> t.cos[d].origin == k.cos[d].origin)
    requires forall d | d in t.cos :: d == MAIN || 1 <= d <= t.lastCid
    ensures Linked(t)
  {
    assert forall i | 1 <= i < |t.stack| :: t.stack[i] == k.stack[i - 1];
    forall i | 0 <= i < |t.stack| - 1 ensures t.cos[t.stack[i]].origin == t.stack[i + 1] {
      if i > 0 {
        assert k.stack[i - 1] in k.cos && k.stack[i - 1] != c;
        assert k.cos[k.stack[i - 1]].origin == k.stack[i];
      }
    }
  }

  lemma PushPlaced(k: Kernel, c: Cid, t: Kernel)
    requires k.stack != [] && k.stack[0] == k.current && MAIN in k.stack && Placed(k) && c !in k.stack
    requires t.stack == [c] + k.stack && t.current == c && c in t.cos
    requires t.cos[c].pc.User? || t.cos[c].pc.AtGate?
    requires k.current in t.cos && t.cos[k.current].pc.Nested?
    requires forall d | d in t.cos && d != c && d != k.current :: d in k.cos && t.cos[d].pc == k.cos[d].pc
    ensures Placed(t)
  {
    assert forall d :: d in t.stack <==> d == c || d in k.stack;
  }

  lemma PopPlaced(k: Kernel, t: Kernel)
    requires Placed(k) && |k.stack| >= 2 && k.current !in k.stack[1..]
    requires t.stack == k.stack[1..] && t.current == k.stack[1] && t.current in t.cos && t.cos[t.current].pc.User?
    requires k.current in t.cos ==> Parked(t.cos[k.current].pc)
    requires forall d | d in t.cos && d != k.current && d != t.current :: d in k.cos && t.cos[d].pc == k.cos[d].pc
    requires k.stack[0] == k.current
    ensures Placed(t)
  {
    assert k.stack == [k.current] + k.stack[1..];
    assert t.current in t.stack;
    assert forall d :: d in k.stack <==> d == k.current || d in t.stack;
  }

  /** Popping the current coroutine, whether it stays parked or is gone. */
  lemma PopLinked(k: Kernel, t: Kernel)
    requires Linked(k) && |k.stack| >= 2 && !t.fault
    requires t.stack == k.stack[1..] && t.current == k.stack[1]
    requires forall d | d in k.cos && d != k.current :: d in t.cos && t.cos[d].origin == k.cos[d].origin
    requires forall d | d in t.cos :: d == MAIN || 1 <= d <= t.lastCid
    ensures Linked(t)
  {
    forall i | 0 <= i < |t.stack| ensures t.stack[i] in t.cos && t.stack[i] != k.current {
      assert t.stack[i] == k.stack[i + 1];
    }
    forall i | 0 <= i < |t.stack| - 1 ensures t.cos[t.stack[i]].origin == t.stack[i + 1] {
      assert k.cos[k.stack[i + 1]].origin == k.stack[i + 2];
    }
  }

  // ---------------------------------------------------------------------------
  // The steps.

  lemma CreateBooks(cfg: Config, k: Kernel)
    requires Registered(k) && Queued(k) && Enabled(k, Create) && |k.cos| - 1 < cfg.maxNum && k.lastCid + 1 !in k.cos
    ensures Registered(Next(cfg, k, Create)) && Queued(Next(cfg, k, Create))
  {
    hide NoDup;
    var t := Next(cfg, k, Create);
    assert forall c | c in k.cos && c != k.current :: t.cos[c] == k.cos[c];
  }

  lemma CreateKeeps(cfg: Config, k: Kernel)
    requires Structure(k) && Enabled(k, Create) && |k.cos| - 1 < cfg.maxNum
    ensures Structure(Next(cfg, k, Create))
    ensures Next(cfg, k, Create).cos.Keys == k.cos.Keys + {k.lastCid + 1} && k.lastCid + 1 !in k.cos
  {
    hide Registered, Queued;
    MainIsThere(k);
    var t := Next(cfg, k, Create);
    var c := k.lastCid + 1;
    assert forall i | 0 <= i < |k.stack| :: k.stack[i] in k.cos;
    assert c !in k.stack && k.current in k.stack && MAIN in k.stack;
    CreateBooks(cfg, k);
    PushLinked(k, c, t);
    PushPlaced(k, c, t);
  }

  lemma CloseKeeps(cfg: Config, k: Kernel)
    requires Structure(k) && Enabled(k, Close)
    ensures Structure(Next(cfg, k, Close))
    ensures Next(cfg, k, Close).cos.Keys == k.cos.Keys - {k.current}
    ensures Next(cfg, k, Close).current == k.cos[k.current].origin != k.current
  {
    MainIsThere(k);
    TailOfStack(k);
    var t := Next(cfg, k, Close);
    assert k.stack[1] in k.stack[1..];
    PopLinked(k, t);
    PopPlaced(k, t);
    assert k.stack[1] in k.stack && k.cos[k.stack[1]].pc.Nested?;
    hide Linked, NoDup, Placed;
  }

  lemma DeferKeepsNoDup(k: Kernel)
    requires Structure(k) && k.current in k.cos && !HasDeferred(k.cos[k.current].pc)
    ensures NoDup(k.deferred + [k.current])
    ensures forall c :: c in k.deferred + [k.current] <==> c in k.deferred || c == k.current
  {
  }

  lemma SwitchKeeps(cfg: Config, k: Kernel, e: Step)
    requires Structure(k) && Enabled(k, e)
    ensures Structure(Next(cfg, k, e))
    ensures !e.Create? && !e.Close? ==> Next(cfg, k, e).cos.Keys == k.cos.Keys
  {
    hide Yield, Resume, Linked, NoDup;
    MainIsThere(k);
    match e {
      case Local =>
      case Create =>
        if |k.cos| - 1 < cfg.maxNum { CreateKeeps(cfg, k); }
      case PassGate => PassGateKeeps(cfg, k);
      case UserYield => YieldKeeps(k.(table := k.table + {k.current}), ParkedUser, CancelUser) by { ReadyUserYield(k); }
      case IoYield(cancelable) => ReadyIoYield(k, cancelable); YieldKeeps(k, ParkedIo, if cancelable then CancelIo else NoCancel);
      case Preempt => ReadyDefer(k, Preempted); YieldKeeps(k.(deferred := k.deferred + [k.current]), Preempted, NoCancel);
      case IoResume(target) => ReadyFromIo(k, target); ResumeKeeps(k, target);
      case UserResume(target) =>
        if target in k.table { ReadyFromTable(k, target); ResumeKeeps(k.(table := k.table - {target}), target); }
      case CancelCall(target) =>
        if target in k.cos && k.cos[target].cancel.CancelUser? {
          ReadyFromTable(k, target);
          ResumeKeeps(k.(table := k.table - {target}), target);
        } else if target in k.cos && k.cos[target].cancel.CancelIo? {
          ReadyFromIo(k, target);
          ResumeKeeps(k, target);
        }
      case RunDeferred => ReadyFromQueue(k); ResumeKeeps(k.(deferred := k.deferred[1..]), k.deferred[0]);
      case Close => CloseKeeps(cfg, k);
    }
  }

  lemma PassGateKeeps(cfg: Config, k: Kernel)
    requires Structure(k) && Enabled(k, PassGate)
    ensures Structure(Next(cfg, k, PassGate))
    ensures Next(cfg, k, PassGate).cos.Keys == k.cos.Keys
  {
    MainIsThere(k);
    if Gated(cfg, k) && k.concurrency > cfg.maxConcurrency - 1 {
      hide Linked, Placed, Registered, Queued, Yield;
      ReadyDefer(k, ParkedGate);
      YieldKeeps(k.(deferred := k.deferred + [k.current]), ParkedGate, NoCancel);
    } else {
      hide NoDup;
      var t := Mark(k, k.current, User, NoCancel);
      assert forall c | c in k.cos && c != k.current :: t.cos[c] == k.cos[c];
    }
  }

  lemma ReadyUserYield(k: Kernel)
    requires Structure(k) && Enabled(k, UserYield)
    ensures ReadyToYield(k.(table := k.table + {k.current}), ParkedUser, CancelUser)
  {
  }

  lemma ReadyIoYield(k: Kernel, cancelable: bool)
    requires Structure(k) && Enabled(k, IoYield(cancelable))
    ensures ReadyToYield(k, ParkedIo, if cancelable then CancelIo else NoCancel)
  {
  }

  lemma ReadyDefer(k: Kernel, pc: Pc)
    requires Structure(k) && k.current in k.cos && k.current != MAIN && HasDeferred(pc)
    ensures ReadyToYield(k.(deferred := k.deferred + [k.current]), pc, NoCancel)
  {
    DeferKeepsNoDup(k);
  }

  lemma ReadyFromIo(k: Kernel, target: Cid)
    requires Structure(k) && Running(k, User) && target in k.cos && k.cos[target].pc.ParkedIo?
    ensures ReadyToResume(k, target)
  {
  }

  lemma ReadyFromTable(k: Kernel, target: Cid)
    requires Structure(k) && Running(k, User) && target in k.cos && k.cos[target].pc.ParkedUser?
    ensures ReadyToResume(k.(table := k.table - {target}), target)
  {
  }

  lemma ReadyFromQueue(k: Kernel)
    requires Structure(k) && Enabled(k, RunDeferred)
    ensures ReadyToResume(k.(deferred := k.deferred[1..]), k.deferred[0])
  {
    var target := k.deferred[0];
    assert target in k.deferred;
    assert k.deferred == [target] + k.deferred[1..];
    assert forall c :: c in k.deferred <==> c == target || c in k.deferred[1..];
    assert target !in k.deferred[1..];
  }

  // ---------------------------------------------------------------------------
  // The gate.

  lemma YieldAdmitted(k: Kernel, pc: Pc, cancel: Cancel)
    requires ReadyToYield(k, pc, cancel) && k.current in k.cos
    requires (k.cos[k.current].pc.AtGate? <==> pc.ParkedGate?)
    ensures Admitted(Yield(k, pc, cancel).cos) == Admitted(k.cos)
  {
    MainIsThere(k);
    TailOfStack(k);
    var t := Yield(k, pc, cancel);
    assert k.stack[1] in k.stack && k.cos[k.stack[1]].pc.Nested?;
    assert forall c | c in k.cos :: IsAdmitted(c, t.cos[c]) <==> IsAdmitted(c, k.cos[c]);
  }

  lemma ResumeAdmitted(k: Kernel, target: Cid)
    requires ReadyToResume(k, target)
    ensures Admitted(Resume(k, target).cos) == Admitted(k.cos)
  {
    var t := Resume(k, target);
    assert forall c | c in k.cos :: IsAdmitted(c, t.cos[c]) <==> IsAdmitted(c, k.cos[c]);
  }

  lemma CreateAdmitted(cfg: Config, k: Kernel)
    requires Structure(k) && Enabled(k, Create) && |k.cos| - 1 < cfg.maxNum
    ensures Admitted(Next(cfg, k, Create).cos) == Admitted(k.cos)
  {
    CreateKeeps(cfg, k);
    var t := Next(cfg, k, Create);
    assert forall c | c in k.cos :: IsAdmitted(c, t.cos[c]) <==> IsAdmitted(c, k.cos[c]);
  }

  lemma CloseAdmitted(cfg: Config, k: Kernel)
    requires Structure(k) && Enabled(k, Close)
    ensures Admitted(Next(cfg, k, Close).cos) == Admitted(k.cos) - {k.current}
    ensures k.current in Admitted(k.cos) <==> k.cos[k.current].pcid == MAIN
  {
    MainIsThere(k);
    TailOfStack(k);
    var t := Next(cfg, k, Close);
    assert k.stack[1] in k.stack && k.cos[k.stack[1]].pc.Nested?;
    assert forall c | c in t.cos :: IsAdmitted(c, t.cos[c]) <==> IsAdmitted(c, k.cos[c]);
  }

  lemma PassGateAdmitted(cfg: Config, k: Kernel)
    requires Structure(k) && Enabled(k, PassGate)
    ensures var admit := Gated(cfg, k) && k.concurrency <= cfg.maxConcurrency - 1;
      cfg.maxConcurrency > 0 ==>
        Admitted(Next(cfg, k, PassGate).cos) == Admitted(k.cos) + (if admit then {k.current} else {})
    ensures k.current !in Admitted(k.cos)
  {
    MainIsThere(k);
    if Gated(cfg, k) && k.concurrency > cfg.maxConcurrency - 1 {
      ReadyDefer(k, ParkedGate);
      YieldAdmitted(k.(deferred := k.deferred + [k.current]), ParkedGate, NoCancel);
    } else {
      var t := Mark(k, k.current, User, NoCancel);
      assert forall c | c in k.cos && c != k.current :: IsAdmitted(c, t.cos[c]) <==> IsAdmitted(c, k.cos[c]);
    }
  }

  /** Steps that neither admit nor close leave the admitted set and the counter alone. */
  lemma SwitchAdmitted(cfg: Config, k: Kernel, e: Step)
    requires Structure(k) && Enabled(k, e) && !e.PassGate? && !e.Close?
    ensures Admitted(Next(cfg, k, e).cos) == Admitted(k.cos) && Next(cfg, k, e).concurrency == k.concurrency
  {
    hide Admitted, Linked, Placed, Yield, Resume, Queued, BooksForYield, BooksForResume;
    match e {
      case Local =>
      case Create =>
        if |k.cos| - 1 < cfg.maxNum { CreateAdmitted(cfg, k); }
      case UserYield =>
        ReadyUserYield(k);
        YieldAdmitted(k.(table := k.table + {k.current}), ParkedUser, CancelUser);
      case IoYield(cancelable) =>
        ReadyIoYield(k, cancelable);
        YieldAdmitted(k, ParkedIo, if cancelable then CancelIo else NoCancel);
      case Preempt =>
        ReadyDefer(k, Preempted);
        YieldAdmitted(k.(deferred := k.deferred + [k.current]), Preempted, NoCancel);
      case IoResume(target) =>
        ReadyFromIo(k, target);
        ResumeAdmitted(k, target);
      case UserResume(target) =>
        if target in k.table {
          ReadyFromTable(k, target);
          ResumeAdmitted(k.(table := k.table - {target}), target);
        }
      case CancelCall(target) =>
        if target in k.cos && k.cos[target].cancel.CancelUser? {
          ReadyFromTable(k, target);
          ResumeAdmitted(k.(table := k.table - {target}), target);
        } else if target in k.cos && k.cos[target].cancel.CancelIo? {
          ReadyFromIo(k, target);
          ResumeAdmitted(k, target);
        }
      case RunDeferred =>
        ReadyFromQueue(k);
        ResumeAdmitted(k.(deferred := k.deferred[1..]), k.deferred[0]);
    }
    SwitchKeepsCount(cfg, k, e);
  }

  lemma SwitchKeepsCount(cfg: Config, k: Kernel, e: Step)
    requires Enabled(k, e) && !e.PassGate? && !e.Close?
    ensures Next(cfg, k, e).concurrency == k.concurrency
  {
  }

  lemma GateStep(cfg: Config, k: Kernel, e: Step)
    requires Inv(cfg, k) && Enabled(k, e) && cfg.maxConcurrency < UINT32
    ensures Counted(cfg, Next(cfg, k, e))
  {
    hide Structure, Admitted;
    if e.PassGate? {
      PassGateAdmitted(cfg, k);
    } else if e.Close? {
      CloseAdmitted(cfg, k);
      var t := Next(cfg, k, Close);
      if k.current in Admitted(k.cos) {
        assert |Admitted(k.cos)| == |Admitted(k.cos) - {k.current}| + 1;
      } else {
        assert Admitted(k.cos) - {k.current} == Admitted(k.cos);
      }
    } else {
      SwitchAdmitted(cfg, k, e);
    }
  }

  /** Every step keeps the whole invariant. */
  lemma StepKeeps(cfg: Config, k: Kernel, e: Step)
    requires Inv(cfg, k) && Enabled(k, e) && cfg.maxConcurrency < UINT32
    ensures Inv(cfg, Next(cfg, k, e))
  {
    SwitchKeeps(cfg, k, e);
    GateStep(cfg, k, e);
  }

  lemma InitInv(cfg: Config)
    ensures Inv(cfg, Init())
  {
    assert Admitted(Init().cos) == {};
  }

  lemma {:induction false} RunKeeps(cfg: Config, k: Kernel, run: seq<Step>)
    requires Inv(cfg, k) && IsRun(cfg, k, run) && cfg.maxConcurrency < UINT32
    ensures Inv(cfg, Exec(cfg, k, run))
    decreases |run|
  {
    hide Inv, Next;
    if run != [] {
      StepKeeps(cfg, k, run[0]);
      RunKeeps(cfg, Next(cfg, k, run[0]), run[1..]);
    }
  }

  // ---------------------------------------------------------------------------
  // The theorems.

  /** Follow the origin pointer n times from the current coroutine. */
  function Ancestor(k: Kernel, n: nat): Cid {
    if n == 0 then k.current
    else
      var c := Ancestor(k, n - 1);
      if c in k.cos && c != MAIN then k.cos[c].origin else c
  }

  lemma {:induction false} AncestorIsStack(k: Kernel, n: nat)
    requires Linked(k) && n < |k.stack|
    ensures Ancestor(k, n) == k.stack[n]
  {
    if n > 0 {
      AncestorIsStack(k, n - 1);
      assert k.stack[n - 1] != k.stack[|k.stack| - 1];
    }
  }

  /** Origin-chain safety.  In every state of every run, following origins from the current
      coroutine reaches main without meeting anybody twice; the user table holds exactly the
      coroutines parked in their own user yield, and none of them is on that chain; no freed or
      null coroutine is ever followed. */
  lemma OriginChainSafety(cfg: Config, run: seq<Step>) returns (depth: nat)
    requires IsRun(cfg, Init(), run) && cfg.maxConcurrency < UINT32
    ensures var k := Exec(cfg, Init(), run);
      && !k.fault
      && Ancestor(k, depth) == MAIN
      && (forall i: nat, j: nat | i < j <= depth :: Ancestor(k, i) != Ancestor(k, j))
      && (forall c :: c in k.table <==> c in k.cos && k.cos[c].pc.ParkedUser?)
      && (forall i: nat | i <= depth :: Ancestor(k, i) in k.cos && Ancestor(k, i) !in k.table)
  {
    InitInv(cfg);
    RunKeeps(cfg, Init(), run);
    var k := Exec(cfg, Init(), run);
    depth := |k.stack| - 1;
    forall i: nat | i <= depth ensures Ancestor(k, i) == k.stack[i] && k.stack[i] in k.cos && k.stack[i] !in k.table {
      AncestorIsStack(k, i);
      assert k.stack[i] in k.stack;
    }
  }

  /** A fault is a coroutine that is not there being followed, or one resuming itself. */
  lemma FaultMeaning(k: Kernel, pc: Pc, cancel: Cancel, target: Cid)
    requires k.stack != []
    ensures Yield(k, pc, cancel).fault <==>
      k.fault || k.current !in k.cos || k.cos[k.current].origin !in k.cos
    ensures Resume(k, target).fault <==>
      k.fault || target !in k.cos || k.current !in k.cos || target == k.current
  {
  }

  /** How many creations of the run succeed. */
  function Created(cfg: Config, k: Kernel, run: seq<Step>): nat
    requires IsRun(cfg, k, run)
    decreases |run|
  {
    if run == [] then 0
    else (if run[0] == Create && |k.cos| <= cfg.maxNum then 1 else 0) + Created(cfg, Next(cfg, k, run[0]), run[1..])
  }

  lemma StepCid(cfg: Config, k: Kernel, e: Step)
    requires Enabled(k, e)
    ensures Next(cfg, k, e).lastCid == k.lastCid + if e == Create && |k.cos| <= cfg.maxNum then 1 else 0
  {
  }

  lemma {:induction false} RunCid(cfg: Config, k: Kernel, run: seq<Step>)
    requires IsRun(cfg, k, run)
    ensures Exec(cfg, k, run).lastCid == k.lastCid + Created(cfg, k, run)
    decreases |run|
  {
    hide Next;
    if run != [] {
      StepCid(cfg, k, run[0]);
      RunCid(cfg, Next(cfg, k, run[0]), run[1..]);
    }
  }

  /** In every run the ids are 1, 2, 3, ... in the order of creation, and never reused. */
  lemma CidsInOrder(cfg: Config, run: seq<Step>)
    requires IsRun(cfg, Init(), run) && cfg.maxConcurrency < UINT32
    ensures var k := Exec(cfg, Init(), run);
      && k.lastCid == Created(cfg, Init(), run)
      && (forall c | c in k.cos :: c == -1 || 1 <= c <= Created(cfg, Init(), run))
      && (Enabled(k, Create) && |k.cos| <= cfg.maxNum ==> Next(cfg, k, Create).current == Created(cfg, Init(), run) + 1)
  {
    InitInv(cfg);
    RunKeeps(cfg, Init(), run);
    RunCid(cfg, Init(), run);
    hide Exec, Created, Linked, Registered, Queued, Counted;
  }

  /** A user resume with any argument whatever resumes only a coroutine in its own user yield,
      and then exactly that one runs, unregistered; any other argument changes nothing. */
  lemma UserResumeMeaning(cfg: Config, k: Kernel, target: Cid)
    requires Inv(cfg, k) && Enabled(k, UserResume(target))
    ensures var t := Next(cfg, k, UserResume(target));
      if target in k.cos && k.cos[target].pc.ParkedUser?
      then t.current == target && target !in t.table && t.table == k.table - {target} && t.cos[target].origin == k.current
      else t == k
  {
    if target in k.table {
      ReadyFromTable(k, target);
      ResumeKeeps(k.(table := k.table - {target}), target);
    }
  }

  /** Creation: refused at the limit; otherwise a coroutine with a new id runs at once, its
      creator waits for it and is its origin and its parent, and nobody else is touched. */
  lemma CreateMeaning(cfg: Config, k: Kernel)
    requires Inv(cfg, k) && Enabled(k, Create)
    ensures var t := Next(cfg, k, Create);
      var c := t.current;
      if |k.cos| > cfg.maxNum then t == k
      else
        && c !in k.cos && c == k.lastCid + 1 && t.lastCid == c && t.cos.Keys == k.cos.Keys + {c}
        && t.cos[c] == Co(k.current, k.current, AtGate, NoCancel)
        && t.cos[k.current] == k.cos[k.current].(pc := Nested, cancel := NoCancel)
        && (forall d | d in k.cos && d != k.current :: t.cos[d] == k.cos[d])
        && t.table == k.table && t.deferred == k.deferred && t.concurrency == k.concurrency
  {
    if |k.cos| - 1 < cfg.maxNum {
      CreateKeeps(cfg, k);
    }
  }

  /** Leaving the running state: control is at the origin, which runs again, and nobody else is
      touched.  A user yield registers and can be cancelled; a wait for an event can be
      cancelled if asked for; a preemption queues one deferred resume, last. */
  lemma YieldMeaning(cfg: Config, k: Kernel, e: Step)
    requires Inv(cfg, k) && Enabled(k, e) && (e.UserYield? || e.IoYield? || e.Preempt?)
    ensures var t := Next(cfg, k, e);
      var c := k.current;
      var o := k.cos[c].origin;
      && o in k.cos && o != c && t.current == o && t.cos.Keys == k.cos.Keys
      && t.cos[o] == k.cos[o].(pc := User, cancel := NoCancel)
      && (forall d | d in k.cos && d != c && d != o :: t.cos[d] == k.cos[d])
      && t.cos[c].origin == k.cos[c].origin && t.cos[c].pcid == k.cos[c].pcid
      && t.concurrency == k.concurrency && t.lastCid == k.lastCid
      && match e
         case UserYield =>
           t.cos[c].pc == ParkedUser && t.cos[c].cancel == CancelUser && t.table == k.table + {c} && t.deferred == k.deferred
         case IoYield(cancelable) =>
           && t.cos[c].pc == ParkedIo && t.cos[c].cancel == (if cancelable then CancelIo else NoCancel)
           && t.table == k.table && t.deferred == k.deferred
         case _ =>
           t.cos[c].pc == Preempted && t.cos[c].cancel == NoCancel && t.table == k.table && t.deferred == k.deferred + [c]
  {
    MainIsThere(k);
    hide Placed, Registered, Queued, Counted;
    assert k.stack[0] != k.stack[1];
  }

  /** Gaining control: the target runs user code, or tests the gate again if that is where it
      waited; the one that gave control waits in a nested call and is its origin; nobody else is
      touched. */
  predicate Resumed(k: Kernel, t: Kernel, target: Cid)
    requires target in k.cos && k.current in k.cos
  {
    && target != k.current && t.current == target && t.cos.Keys == k.cos.Keys
    && t.cos[target].pc == (if k.cos[target].pc == ParkedGate then AtGate else User)
    && t.cos[target].origin == k.current && t.cos[target].pcid == k.cos[target].pcid
    && t.cos[target].cancel == NoCancel
    && t.cos[k.current] == k.cos[k.current].(pc := Nested, cancel := NoCancel)
    && (forall d | d in k.cos && d != target && d != k.current :: t.cos[d] == k.cos[d])
    && t.concurrency == k.concurrency && t.lastCid == k.lastCid
  }

  lemma ResumeResumes(k: Kernel, target: Cid)
    requires ReadyToResume(k, target) && target in k.cos && k.current in k.cos
    ensures var t := Resume(k, target);
      Resumed(k, t, target) && t.table == k.table && t.deferred == k.deferred
  {
    ResumeKeeps(k, target);
    hide Structure, ReadyToResume;
  }

  lemma IoResumeMeaning(cfg: Config, k: Kernel, target: Cid)
    requires Inv(cfg, k) && Enabled(k, IoResume(target))
    ensures var t := Next(cfg, k, IoResume(target));
      Resumed(k, t, target) && t.table == k.table && t.deferred == k.deferred
  {
    ReadyFromIo(k, target);
    ResumeResumes(k, target);
  }

  /** The oldest deferred resume runs, and leaves the queue. */
  lemma DeferredMeaning(cfg: Config, k: Kernel)
    requires Inv(cfg, k) && Enabled(k, RunDeferred)
    ensures var t := Next(cfg, k, RunDeferred);
      && k.deferred[0] in k.cos && HasDeferred(k.cos[k.deferred[0]].pc)
      && Resumed(k, t, k.deferred[0]) && t.table == k.table && t.deferred == k.deferred[1..]
  {
    assert k.deferred[0] in k.deferred;
    ReadyFromQueue(k);
    ResumeResumes(k.(deferred := k.deferred[1..]), k.deferred[0]);
  }

  /** A cancel with any argument: a coroutine in its own user yield is unregistered and resumed,
      one in a wait that can be cancelled is resumed, and anything else changes nothing. */
  lemma CancelMeaning(cfg: Config, k: Kernel, target: Cid)
    requires Inv(cfg, k) && Enabled(k, CancelCall(target))
    ensures var t := Next(cfg, k, CancelCall(target));
      if target in k.cos && k.cos[target].pc == ParkedUser
      then Resumed(k, t, target) && t.table == k.table - {target} && t.deferred == k.deferred
      else if target in k.cos && k.cos[target].pc == ParkedIo && k.cos[target].cancel == CancelIo
      then Resumed(k, t, target) && t.table == k.table && t.deferred == k.deferred
      else t == k
  {
    if target in k.cos && k.cos[target].cancel.CancelUser? {
      ReadyFromTable(k, target);
      ResumeResumes(k.(table := k.table - {target}), target);
    } else if target in k.cos && k.cos[target].cancel.CancelIo? {
      ReadyFromIo(k, target);
      ResumeResumes(k, target);
    }
  }

  /** A close: control is at the origin, which runs again, and the coroutine is gone; a top-level
      one gives its slot back if slots are counted. */
  lemma CloseMeaning(cfg: Config, k: Kernel)
    requires Inv(cfg, k) && Enabled(k, Close) && cfg.maxConcurrency < UINT32
    ensures var t := Next(cfg, k, Close);
      var c := k.current;
      var o := k.cos[c].origin;
      && o in k.cos && o != c && t.current == o && t.cos.Keys == k.cos.Keys - {c}
      && t.cos[o] == k.cos[o].(pc := User, cancel := NoCancel)
      && (forall d | d in t.cos && d != o :: t.cos[d] == k.cos[d])
      && t.table == k.table && t.deferred == k.deferred && t.lastCid == k.lastCid
      && t.concurrency == k.concurrency - (if cfg.maxConcurrency > 0 && k.cos[c].pcid == MAIN then 1 else 0)
  {
    CloseKeeps(cfg, k);
    if cfg.maxConcurrency > 0 && k.cos[k.current].pcid == MAIN {
      assert k.current in Admitted(k.cos);
      assert |Admitted(k.cos)| >= 1;
    }
    MainIsThere(k);
    hide Structure, Admitted;
  }

  /** One turn of the gate.  Without a limit, below another coroutine, or with a slot free, the
      coroutine goes on to its function; otherwise it waits, last in the queue, and control is
      at its origin. */
  lemma PassGateMeaning(cfg: Config, k: Kernel)
    requires Inv(cfg, k) && Enabled(k, PassGate) && cfg.maxConcurrency < UINT32
    ensures var t := Next(cfg, k, PassGate);
      var c := k.current;
      var counted := cfg.maxConcurrency > 0 && k.cos[c].pcid == MAIN;
      if !counted || |Admitted(k.cos)| < cfg.maxConcurrency
      then
        && t.current == c && t.cos == k.cos[c := k.cos[c].(pc := User, cancel := NoCancel)]
        && t.table == k.table && t.deferred == k.deferred
        && t.concurrency == k.concurrency + (if counted then 1 else 0)
      else
        && t.current == k.cos[c].origin != c && t.cos[c].pc == ParkedGate && t.deferred == k.deferred + [c]
        && t.table == k.table && t.concurrency == k.concurrency
        && t.current in k.cos && t.cos[t.current] == k.cos[t.current].(pc := User, cancel := NoCancel)
  {
    MainIsThere(k);
    hide Registered, Queued, Admitted;
    if k.current != MAIN {
      assert k.stack[0] != k.stack[1];
    }
  }

  /** A coroutine that is resumed and yields again inside that nested resume stays registered. */
  lemma ReentrantYieldStays(cfg: Config, k: Kernel, target: Cid)
    requires Inv(cfg, k) && Enabled(k, UserResume(target)) && target in k.table && cfg.maxConcurrency < UINT32
    ensures var t := Next(cfg, k, UserResume(target));
      && Enabled(t, UserYield)
      && var u := Next(cfg, t, UserYield); u.current == k.current && target in u.table && u.table == k.table
  {
    assert target in k.cos && k.cos[target].pc.ParkedUser?;
    assert k.cos[target].pc != ParkedGate;
    hide Inv, Linked, Placed, Queued, ReadyToResume;
    ReadyFromTable(k, target);
    ResumeKeeps(k.(table := k.table - {target}), target);
  }

  /** The concurrency gate.  In every state of every run the counter is the number of admitted
      top-level coroutines that have not closed, within the limit, and every coroutine waiting
      at the gate has exactly one deferred resume. */
  lemma ConcurrencyGate(cfg: Config, run: seq<Step>)
    requires IsRun(cfg, Init(), run) && 0 < cfg.maxConcurrency < UINT32
    ensures var k := Exec(cfg, Init(), run);
      && k.concurrency == |Admitted(k.cos)| <= cfg.maxConcurrency
      && (forall c | c in k.cos && k.cos[c].pc.ParkedGate? :: multiset(k.deferred)[c] == 1)
  {
    InitInv(cfg);
    RunKeeps(cfg, Init(), run);
    var k := Exec(cfg, Init(), run);
    forall c | c in k.cos && k.cos[c].pc.ParkedGate? ensures multiset(k.deferred)[c] == 1 {
      NoDupCounts(k.deferred, c);
    }
  }

  lemma {:induction false} NoDupCounts(s: seq<Cid>, c: Cid)
    requires NoDup(s) && c in s
    ensures multiset(s)[c] == 1
  {
    var i :| 0 <= i < |s| && s[i] == c;
    assert s == s[..i] + [c] + s[i + 1..];
    assert c !in s[..i] && c !in s[i + 1..];
    assert multiset(s) == multiset(s[..i]) + multiset{c} + multiset(s[i + 1..]);
  }

  /** A waiting coroutine whose turn comes is admitted exactly when a slot is free. */
  lemma GateTurn(cfg: Config, k: Kernel)
    requires Inv(cfg, k) && Enabled(k, RunDeferred) && k.deferred[0] in k.cos && 0 < cfg.maxConcurrency < UINT32
    requires k.cos[k.deferred[0]].pc.ParkedGate? && k.cos[k.deferred[0]].pcid == MAIN
    ensures var c := k.deferred[0];
      var t := Next(cfg, k, RunDeferred);
      && Enabled(t, PassGate)
      && var u := Next(cfg, t, PassGate);
      && (c in Admitted(u.cos) <==> |Admitted(k.cos)| < cfg.maxConcurrency)
      && (c !in Admitted(u.cos) ==> u.current == MAIN && u.deferred == k.deferred[1..] + [c])
  {
    var c := k.deferred[0];
    assert c in k.deferred;
    ReadyFromQueue(k);
    ResumeKeeps(k.(deferred := k.deferred[1..]), c);
    var t := Next(cfg, k, RunDeferred);
    ResumeAdmitted(k.(deferred := k.deferred[1..]), c);
    assert t.cos[c].pc == AtGate && t.cos[c].origin == MAIN;
    MainIsThere(t);
  }
}
