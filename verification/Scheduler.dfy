/** Kernel and executor together: the callbacks run at every switch, so the theorems about
    contexts hold over every run of create, yield, resume and close. */
module Scheduler {
  import opened Basics
  import K = CoroutineKernel
  import X = ContextSwitch

  datatype State = State(k: K.Kernel, x: X.Executor)

  datatype Event =
    | Work(vm: X.Vm, og: X.Output)    // user code changes the VM fields and the output stack
    | BeginSilence
    | EndSilence
    | Create(vm: X.Vm)                // the new coroutine starts with these VM fields
    | Kernel(e: K.Step)               // everything that can only switch

  function Init(vm: X.Vm, og: X.Output, level: int): State {
    State(K.Init(), X.Executor(vm, level, og, map[K.MAIN := X.Context(vm, None, false, 0, 0, 0)], map[], 0, false))
  }

  function KStep(ev: Event): K.Step {
    match ev
    case Work(_, _) | BeginSilence | EndSilence => K.Local
    case Create(_) => K.Create
    case Kernel(e) => e
  }

  predicate Enabled(s: State, ev: Event) {
    && K.Enabled(s.k, KStep(ev))
    && (ev.Kernel? ==> !ev.e.Create? && !ev.e.Local?)
  }

  /** A missing context is a null or freed pointer. */
  function Next(cfg: K.Config, silenced: int, s: State, ev: Event): State
    requires Enabled(s, ev)
  {
    var k := K.Next(cfg, s.k, KStep(ev));
    var c := s.k.current;
    if c !in s.x.contexts then State(k, s.x.(fault := true))
    else
      var x :=
        match ev {
          case Work(vm, og) => s.x.(vm := vm, og := og)
          case BeginSilence => X.BeginSilence(s.x, c, silenced)
          case EndSilence => X.EndSilence(s.x, c)
          case Create(vm) => if k.current == c then s.x else X.Spawn(s.x, c, k.current, vm)
          case Kernel(e) =>
            if k.current == c then s.x
            else if k.current !in s.x.contexts then s.x.(fault := true)
            else if e.Close? then X.Shut(s.x, c, k.current)
            else X.Switch(s.x, c, k.current)
        };
      State(k, x)
  }

  predicate IsRun(cfg: K.Config, silenced: int, s: State, run: seq<Event>)
    decreases |run|
  {
    run == [] || (Enabled(s, run[0]) && IsRun(cfg, silenced, Next(cfg, silenced, s, run[0]), run[1..]))
  }

  function Exec(cfg: K.Config, silenced: int, s: State, run: seq<Event>): State
    requires IsRun(cfg, silenced, s, run)
    decreases |run|
  {
    if run == [] then s else Exec(cfg, silenced, Next(cfg, silenced, s, run[0]), run[1..])
  }

  // The kernel alone.

  function Steps(run: seq<Event>): seq<K.Step> {
    seq(|run|, i requires 0 <= i < |run| => KStep(run[i]))
  }

  /** Seen without the executor, a run is a run of the kernel. */
  lemma {:induction false} RunOfKernel(cfg: K.Config, silenced: int, s: State, run: seq<Event>)
    requires IsRun(cfg, silenced, s, run)
    ensures K.IsRun(cfg, s.k, Steps(run)) && K.Exec(cfg, s.k, Steps(run)) == Exec(cfg, silenced, s, run).k
    decreases |run|
  {
    hide K.Next, K.Enabled;
    if run != [] {
      RunOfKernel(cfg, silenced, Next(cfg, silenced, s, run[0]), run[1..]);
      assert Steps(run)[0] == KStep(run[0]) && Steps(run)[1..] == Steps(run[1..]);
      StepOfKernel(cfg, silenced, s, run[0]);
    }
  }

  /** A context that should be there and is not is a fault. */
  lemma StepOfKernel(cfg: K.Config, silenced: int, s: State, ev: Event)
    requires Enabled(s, ev)
    ensures var t := Next(cfg, silenced, s, ev);
      && t.k == K.Next(cfg, s.k, KStep(ev))
      && (s.k.current !in s.x.contexts ==> t.x.fault)
      && (ev.Kernel? && t.k.current != s.k.current && t.k.current !in s.x.contexts ==> t.x.fault)
  {
    hide K.Next, K.Enabled, X.Switch, X.Spawn, X.Shut;
  }

  /** Every step of the kernel is the step of an event. */
  lemma EventOfStep(s: State, e: K.Step, vm: X.Vm) returns (ev: Event)
    requires K.Enabled(s.k, e)
    ensures Enabled(s, ev) && KStep(ev) == e
  {
    ev := if e.Create? then Create(vm) else if e.Local? then BeginSilence else Kernel(e);
  }

  /** Kernel and executor agree on who lives and who runs. */
  predicate Inv(cfg: K.Config, s: State) {
    && K.Inv(cfg, s.k)
    && s.x.contexts.Keys == s.k.cos.Keys
    && X.Isolated(s.x, s.k.current)
  }

  /** What one event does to the coroutine `c`: it keeps a coroutine that does not run as it
      is, records the view of one that stops running, and gives it back to one that starts. */
  predicate Respects(s: State, t: State, c: Cid)
    requires c in s.x.contexts && c in t.x.contexts
  {
    && (s.k.current != c && t.k.current != c ==> X.Saved(t.x, c) == X.Saved(s.x, c))
    && (s.k.current == c && t.k.current != c ==> X.Saved(t.x, c) == X.Visible(s.x))
    && (s.k.current != c && t.k.current == c ==> X.Visible(t.x) == X.Saved(s.x, c))
  }

  lemma KernelMoves(cfg: K.Config, k: K.Kernel, e: K.Step)
    requires K.Inv(cfg, k) && K.Enabled(k, e) && cfg.maxConcurrency < UINT32
    ensures var t := K.Next(cfg, k, e);
      && K.Inv(cfg, t) && k.current in k.cos && t.current in t.cos
      && t.cos.Keys == (if e.Create? && t.current != k.current then k.cos.Keys + {t.current}
                        else if e.Close? then k.cos.Keys - {k.current} else k.cos.Keys)
      && (e.Create? && t.current != k.current ==> t.current !in k.cos)
      && (e.Close? ==> t.current != k.current)
      && (e.Local? ==> t == k)
  {
    K.StepKeeps(cfg, k, e);
    K.MainIsThere(k);
    K.MainIsThere(K.Next(cfg, k, e));
    K.SwitchKeeps(cfg, k, e);
    if e.Create? && |k.cos| - 1 < cfg.maxNum {
      K.CreateKeeps(cfg, k);
    } else if e.Close? {
      K.CloseKeeps(cfg, k);
    }
  }

  lemma LocalKeeps(x: X.Executor, y: X.Executor, c: Cid)
    requires X.Isolated(x, c) && X.SameCopies(x, y)
    requires forall d | d in x.contexts && d != c :: y.contexts[d] == x.contexts[d]
    ensures X.Isolated(y, c)
    ensures forall d | d in x.contexts && d != c :: X.Saved(y, d) == X.Saved(x, d)
  {
    X.SameCopiesOk(x, y);
  }

  lemma StepKeeps(cfg: K.Config, silenced: int, s: State, ev: Event)
    requires Inv(cfg, s) && Enabled(s, ev) && cfg.maxConcurrency < UINT32
    ensures var t := Next(cfg, silenced, s, ev);
      && Inv(cfg, t)
      && forall c | c in s.x.contexts && c in t.x.contexts :: Respects(s, t, c)
  {
    hide K.Inv, K.Next, K.Enabled, X.Isolated, X.Switch, X.Spawn, X.Shut, X.Saved, X.Visible;
    KernelMoves(cfg, s.k, KStep(ev));
    var t := Next(cfg, silenced, s, ev);
    var c := s.k.current;
    match ev {
      case Work(_, _) => LocalKeeps(s.x, t.x, c);
      case BeginSilence => LocalKeeps(s.x, t.x, c);
      case EndSilence => LocalKeeps(s.x, t.x, c);
      case Create(vm) =>
        if t.k.current != c { X.SpawnIsolates(s.x, c, t.k.current, vm); }
      case Kernel(e) =>
        if t.k.current != c {
          if e.Close? {
            X.ShutIsolates(s.x, c, t.k.current);
          } else {
            X.SwitchIsolates(s.x, c, t.k.current);
          }
        }
    }
  }

  lemma InitInv(cfg: K.Config, vm: X.Vm, og: X.Output, level: int)
    ensures Inv(cfg, Init(vm, og, level))
  {
    K.InitInv(cfg);
  }

  lemma {:induction false} RunKeeps(cfg: K.Config, silenced: int, s: State, run: seq<Event>)
    requires Inv(cfg, s) && IsRun(cfg, silenced, s, run) && cfg.maxConcurrency < UINT32
    ensures Inv(cfg, Exec(cfg, silenced, s, run))
    decreases |run|
  {
    hide Inv, Next;
    if run != [] {
      StepKeeps(cfg, silenced, s, run[0]);
      RunKeeps(cfg, silenced, Next(cfg, silenced, s, run[0]), run[1..]);
    }
  }

  /** `c` does not run in any state of the run, nor is it closed. */
  predicate Away(cfg: K.Config, silenced: int, s: State, run: seq<Event>, c: Cid)
    requires IsRun(cfg, silenced, s, run)
    decreases |run|
  {
    && s.k.current != c
    && (run == [] || Away(cfg, silenced, Next(cfg, silenced, s, run[0]), run[1..], c))
  }

  lemma {:induction false} AwayKeepsSaved(cfg: K.Config, silenced: int, s: State, run: seq<Event>, c: Cid)
    requires Inv(cfg, s) && IsRun(cfg, silenced, s, run) && cfg.maxConcurrency < UINT32
    requires Away(cfg, silenced, s, run, c) && c in s.x.contexts
    ensures var t := Exec(cfg, silenced, s, run); c in t.x.contexts && t.k.current != c && X.Saved(t.x, c) == X.Saved(s.x, c)
    decreases |run|
  {
    if run != [] {
      var u := Next(cfg, silenced, s, run[0]);
      StepKeeps(cfg, silenced, s, run[0]);
      StillThere(cfg, silenced, s, run[0], c);
      hide Inv, Next;
      assert Respects(s, u, c);
      AwayKeepsSaved(cfg, silenced, u, run[1..], c);
    }
  }

  /** Only the running coroutine can go away. */
  lemma StillThere(cfg: K.Config, silenced: int, s: State, ev: Event, c: Cid)
    requires Inv(cfg, s) && Enabled(s, ev) && cfg.maxConcurrency < UINT32
    requires c in s.x.contexts && s.k.current != c
    ensures c in Next(cfg, silenced, s, ev).x.contexts
  {
    hide K.Inv, K.Next, K.Enabled, X.Isolated;
    StepKeeps(cfg, silenced, s, ev);
    KernelMoves(cfg, s.k, KStep(ev));
  }

  /** Context isolation.  Take any reachable state in which `c` runs, any event that takes
      control away from it without ending it, any run during which it does not run, and any
      event that gives control back: then `c` sees exactly the VM fields and the output-buffer
      stack it had. */
  lemma ContextIsolation(cfg: K.Config, silenced: int, start: State, before: seq<Event>, lose: Event,
                         between: seq<Event>, regain: Event, c: Cid)
    requires cfg.maxConcurrency < UINT32 && Inv(cfg, start)
    requires IsRun(cfg, silenced, start, before)
    requires var s := Exec(cfg, silenced, start, before);
      && s.k.current == c && Enabled(s, lose)
      && var s1 := Next(cfg, silenced, s, lose);
      && c in s1.x.contexts && s1.k.current != c
      && IsRun(cfg, silenced, s1, between) && Away(cfg, silenced, s1, between, c)
      && var s2 := Exec(cfg, silenced, s1, between);
      && Enabled(s2, regain) && Next(cfg, silenced, s2, regain).k.current == c
    ensures var s := Exec(cfg, silenced, start, before);
      var t := Next(cfg, silenced, Exec(cfg, silenced, Next(cfg, silenced, s, lose), between), regain);
      X.Visible(t.x) == X.Visible(s.x)
  {
    var s := Exec(cfg, silenced, start, before);
    var s1 := Next(cfg, silenced, s, lose);
    var s2 := Exec(cfg, silenced, s1, between);
    var t := Next(cfg, silenced, s2, regain);
    RunKeeps(cfg, silenced, start, before);
    StepKeeps(cfg, silenced, s, lose);
    RunKeeps(cfg, silenced, s1, between);
    AwayKeepsSaved(cfg, silenced, s1, between, c);
    StillThere(cfg, silenced, s2, regain, c);
    StepKeeps(cfg, silenced, s2, regain);
    assert c in s.x.contexts by { KeysAgree(cfg, s); }
    assert Respects(s, s1, c) && Respects(s2, t, c);
  }

  lemma KeysAgree(cfg: K.Config, s: State)
    requires Inv(cfg, s)
    ensures s.k.current in s.x.contexts
  {
  }

  /** Output copies.  In every reachable state the running coroutine holds no saved copy, every
      allocated copy is held by exactly one coroutine, and no copy was read or freed after it
      had been freed: each one is freed exactly once, when its coroutine regains control. */
  lemma OutputCopies(cfg: K.Config, silenced: int, vm: X.Vm, og: X.Output, level: int, run: seq<Event>)
    requires cfg.maxConcurrency < UINT32 && IsRun(cfg, silenced, Init(vm, og, level), run)
    ensures var x := Exec(cfg, silenced, Init(vm, og, level), run).x;
      var current := Exec(cfg, silenced, Init(vm, og, level), run).k.current;
      && !x.fault
      && current in x.contexts && x.contexts[current].outputPtr == None
      && (forall a | a in x.heap :: exists c | c in x.contexts :: x.contexts[c].outputPtr == Some(a))
      && (forall c, d | c in x.contexts && d in x.contexts && x.contexts[c].outputPtr.Some? ::
            x.contexts[d].outputPtr == x.contexts[c].outputPtr ==> c == d)
  {
    InitInv(cfg, vm, og, level);
    RunKeeps(cfg, silenced, Init(vm, og, level), run);
  }

  // ---------------------------------------------------------------------------
  // Silence.

  /** Silence is not nested. */
  predicate Flat(s: State, ev: Event) {
    s.k.current in s.x.contexts ==>
      && (ev.BeginSilence? ==> !s.x.contexts[s.k.current].inSilence)
      && (ev.EndSilence? ==> s.x.contexts[s.k.current].inSilence)
  }

  predicate FlatRun(cfg: K.Config, silenced: int, s: State, run: seq<Event>)
    requires IsRun(cfg, silenced, s, run)
    decreases |run|
  {
    run == [] || (Flat(s, run[0]) && FlatRun(cfg, silenced, Next(cfg, silenced, s, run[0]), run[1..]))
  }

  /** A coroutine closes only outside silence, or into an origin that is in silence itself. */
  predicate Polite(s: State, ev: Event) {
    var c := s.k.current;
    ev.Kernel? && ev.e.Close? && c in s.x.contexts && c in s.k.cos && s.k.cos[c].origin in s.x.contexts ==>
      !s.x.contexts[c].inSilence || s.x.contexts[s.k.cos[c].origin].inSilence
  }

  predicate PoliteRun(cfg: K.Config, silenced: int, s: State, run: seq<Event>)
    requires IsRun(cfg, silenced, s, run)
    decreases |run|
  {
    run == [] || (Polite(s, run[0]) && PoliteRun(cfg, silenced, Next(cfg, silenced, s, run[0]), run[1..]))
  }

  /** In every state of the run, the running coroutine sees the silenced level exactly when it
      is itself in silence, and the unsilenced level otherwise. */
  predicate AlwaysSees(cfg: K.Config, silenced: int, unsilenced: int, s: State, run: seq<Event>)
    requires IsRun(cfg, silenced, s, run)
    decreases |run|
  {
    && X.Sees(s.x, s.k.current, unsilenced, silenced)
    && (run == [] || AlwaysSees(cfg, silenced, unsilenced, Next(cfg, silenced, s, run[0]), run[1..]))
  }

  /** A close goes back to the origin. */
  lemma ClosesToOrigin(cfg: K.Config, k: K.Kernel)
    requires K.Inv(cfg, k) && K.Enabled(k, K.Close)
    ensures k.current in k.cos && K.Next(cfg, k, K.Close).current == k.cos[k.current].origin
  {
    K.CloseKeeps(cfg, k);
  }

  lemma SilenceStep(cfg: K.Config, silenced: int, unsilenced: int, s: State, ev: Event)
    requires Inv(cfg, s) && Enabled(s, ev) && Flat(s, ev) && cfg.maxConcurrency < UINT32 && silenced != unsilenced
    requires X.Silences(s.x, s.k.current, unsilenced, silenced)
    ensures var t := Next(cfg, silenced, s, ev);
      && (Polite(s, ev) ==> X.Silences(t.x, t.k.current, unsilenced, silenced))
      && (!Polite(s, ev) ==> !X.Sees(t.x, t.k.current, unsilenced, silenced))
  {
    hide K.Inv, K.Next, K.Enabled, X.Isolated, X.Switch, X.Spawn, X.Shut, X.Sees;
    KernelMoves(cfg, s.k, KStep(ev));
    var t := Next(cfg, silenced, s, ev);
    var c := s.k.current;
    if t.k.current != c {
      hide X.Silences;
      if ev.Create? {
        X.SpawnSilences(s.x, c, t.k.current, ev.vm, unsilenced, silenced);
      } else if ev.e.Close? {
        ClosesToOrigin(cfg, s.k);
        X.ShutSilencesExactly(s.x, c, t.k.current, unsilenced, silenced);
      } else {
        X.SwitchSilences(s.x, c, t.k.current, unsilenced, silenced);
      }
    }
  }

  lemma SilencesSee(x: X.Executor, c: Cid, unsilenced: int, silenced: int)
    requires X.Silences(x, c, unsilenced, silenced)
    ensures X.Sees(x, c, unsilenced, silenced)
  {
  }

  lemma {:induction false} SilenceRun(cfg: K.Config, silenced: int, unsilenced: int, s: State, run: seq<Event>)
    requires Inv(cfg, s) && IsRun(cfg, silenced, s, run) && FlatRun(cfg, silenced, s, run)
    requires cfg.maxConcurrency < UINT32 && silenced != unsilenced
    requires X.Silences(s.x, s.k.current, unsilenced, silenced)
    ensures AlwaysSees(cfg, silenced, unsilenced, s, run) <==> PoliteRun(cfg, silenced, s, run)
    decreases |run|
  {
    hide Inv, Next, X.Silences, X.Sees, Flat, Polite;
    SilencesSee(s.x, s.k.current, unsilenced, silenced);
    if run != [] {
      StepKeeps(cfg, silenced, s, run[0]);
      SilenceStep(cfg, silenced, unsilenced, s, run[0]);
      if Polite(s, run[0]) {
        SilenceRun(cfg, silenced, unsilenced, Next(cfg, silenced, s, run[0]), run[1..]);
      }
    }
  }

  /** Silence isolation.  In every state of a run without nested silence the running coroutine
      sees the level that belongs to it, if and only if no coroutine closes while in silence
      into an origin that is not. */
  lemma SilenceIsolation(cfg: K.Config, silenced: int, unsilenced: int, vm: X.Vm, og: X.Output, run: seq<Event>)
    requires cfg.maxConcurrency < UINT32 && silenced != unsilenced
    requires IsRun(cfg, silenced, Init(vm, og, unsilenced), run)
    requires FlatRun(cfg, silenced, Init(vm, og, unsilenced), run)
    ensures AlwaysSees(cfg, silenced, unsilenced, Init(vm, og, unsilenced), run) <==>
      PoliteRun(cfg, silenced, Init(vm, og, unsilenced), run)
  {
    InitInv(cfg, vm, og, unsilenced);
    SilenceRun(cfg, silenced, unsilenced, Init(vm, og, unsilenced), run);
  }

  // ---------------------------------------------------------------------------
  // The operations themselves.  Each one performs its event and keeps the invariant.

  class Runtime {
    const cfg: K.Config
    const globals: X.Globals
    var cos: map<Cid, K.Co>
    var current: Cid
    var lastCid: nat
    var userYieldCoros: set<Cid>
    var deferTasks: seq<Cid>
    var workerConcurrency: nat
    ghost var stack: seq<Cid>

    ghost function Kern(): K.Kernel
      reads this
    {
      K.Kernel(cos, current, lastCid, userYieldCoros, deferTasks, workerConcurrency, stack, false)
    }

    ghost function Value(): State
      reads this, globals
    {
      State(Kern(), globals.Value())
    }

    ghost predicate Valid()
      reads this, globals
    {
      Inv(cfg, Value()) && cfg.maxConcurrency < UINT32
    }

    constructor (cfg: K.Config, vm: X.Vm, og: X.Output, level: int)
      requires cfg.maxConcurrency < UINT32
      ensures Valid() && fresh(globals) && this.cfg == cfg && Value() == Init(vm, og, level)
    {
      this.cfg := cfg;
      globals := new X.Globals(K.MAIN, vm, level, og);
      cos := map[K.MAIN := K.Co(K.MAIN, K.MAIN, K.User, K.NoCancel)];
      current, lastCid, userYieldCoros, deferTasks, workerConcurrency, stack := K.MAIN, 0, {}, [], 0, [K.MAIN];
      new;
      InitInv(cfg, vm, og, level);
    }

    /** Coroutine::yield with its on_yield callback. */
    method Yield(pc: K.Pc, cancel: K.Cancel)
      requires K.ReadyToYield(Kern(), pc, cancel)
      requires X.Isolated(globals.Value(), current) && globals.contexts.Keys == cos.Keys
      modifies this`cos, this`current, this`stack, globals
      ensures Kern() == K.Yield(old(Kern()), pc, cancel) && current != old(current)
      ensures old(current) in old(globals.contexts) && current in old(globals.contexts)
      ensures globals.Value() == X.Switch(old(globals.Value()), old(current), current)
    {
      hide K.Structure, K.ReadyToYield, K.Yield, X.Isolated, X.Switch, X.Saved, X.Visible;
      YieldEffect(Kern(), pc, cancel);
      var o := cos[current].origin;
      globals.SwitchTasks(current, o);
      cos := cos[current := cos[current].(pc := pc, cancel := cancel)];
      cos := cos[o := cos[o].(pc := K.User, cancel := K.NoCancel)];
      current := o;
      stack := stack[1..];
    }

    /** Coroutine::resume with its on_resume callback. */
    method Resume(target: Cid)
      requires K.ReadyToResume(Kern(), target) && current in cos && target in cos
      requires X.Isolated(globals.Value(), current) && globals.contexts.Keys == cos.Keys
      modifies this`cos, this`current, this`stack, globals
      ensures Kern() == K.Resume(old(Kern()), target) && current == target != old(current)
      ensures old(current) in old(globals.contexts) && target in old(globals.contexts)
      ensures globals.Value() == X.Switch(old(globals.Value()), old(current), target)
    {
      hide K.Structure, K.ReadyToResume, K.Linked, K.Placed, K.BooksForResume, X.Isolated, X.Switch, X.Saved, X.Visible;
      K.ResumeKeeps(Kern(), target);
      globals.SwitchTasks(current, target);
      var pc := if cos[target].pc.ParkedGate? then K.AtGate else K.User;
      var table := cos[current := cos[current].(pc := K.Nested, cancel := K.NoCancel)];
      table := table[target := table[target].(pc := pc, cancel := K.NoCancel)];
      table := table[target := table[target].(origin := current)];
      stack := [target] + stack;
      cos, current := table, target;
    }

    /** PHPCoroutine::create: refused at the limit, otherwise the new coroutine runs at once. */
    method CreateCo(vm: X.Vm) returns (cid: int)
      requires Valid() && Enabled(Value(), Create(vm))
      modifies this, globals
      ensures Value() == Next(cfg, 0, old(Value()), Create(vm)) && Valid()
      ensures cid == if |old(cos)| - 1 >= cfg.maxNum then -1 else current
    {
      hide K.Inv, X.Isolated, X.Spawn, X.Visible, X.Saved, K.Linked, K.Placed, K.Queued, K.Registered;
      ReadyFacts(cfg, Value());
      StepKeeps(cfg, 0, Value(), Create(vm));
      if |cos| - 1 >= cfg.maxNum {
        return -1;
      }
      K.CreateKeeps(cfg, Kern());
      cid := lastCid + 1;
      globals.Start(current, cid, vm);
      var table := cos[current := cos[current].(pc := K.Nested, cancel := K.NoCancel)];
      cos := table[cid := K.Co(current, current, K.AtGate, K.NoCancel)];
      lastCid, current, stack := cid, cid, [cid] + stack;
    }

    /** The event loop runs the oldest deferred resume. */
    method RunDeferred()
      requires Valid() && Enabled(Value(), Kernel(K.RunDeferred))
      modifies this, globals
      ensures Value() == Next(cfg, 0, old(Value()), Kernel(K.RunDeferred)) && Valid()
    {
      hide K.Inv, X.Isolated, K.Resume, X.Switch, K.Linked, K.Placed, K.Queued, K.Registered, K.BooksForResume;
      ReadyFacts(cfg, Value());
      StepKeeps(cfg, 0, Value(), Kernel(K.RunDeferred));
      K.ReadyFromQueue(Kern());
      var target := deferTasks[0];
      deferTasks := deferTasks[1..];
      Resume(target);
    }

    /** The user-level yield: registered before control is given up. */
    method UserYield()
      requires Valid() && Enabled(Value(), Kernel(K.UserYield))
      modifies this, globals
      ensures Value() == Next(cfg, 0, old(Value()), Kernel(K.UserYield)) && Valid()
    {
      hide K.Inv, X.Isolated, K.Yield, X.Switch, K.Linked, K.Placed, K.Queued, K.BooksForYield;
      ReadyFacts(cfg, Value());
      K.ReadyUserYield(Kern());
      StepKeeps(cfg, 0, Value(), Kernel(K.UserYield));
      userYieldCoros := userYieldCoros + {current};
      Yield(K.ParkedUser, K.CancelUser);
    }

    /** A wait that an event, a timer or another frame ends; yield_ex registers a cancel
        function, a plain yield does not. */
    method IoYield(cancelable: bool)
      requires Valid() && Enabled(Value(), Kernel(K.IoYield(cancelable)))
      modifies this, globals
      ensures Value() == Next(cfg, 0, old(Value()), Kernel(K.IoYield(cancelable))) && Valid()
    {
      hide K.Inv, X.Isolated, K.Yield, X.Switch, K.Linked, K.Placed, K.Queued, K.BooksForYield;
      ReadyFacts(cfg, Value());
      K.ReadyIoYield(Kern(), cancelable);
      StepKeeps(cfg, 0, Value(), Kernel(K.IoYield(cancelable)));
      Yield(K.ParkedIo, if cancelable then K.CancelIo else K.NoCancel);
    }

    /** The event that such a wait was for. */
    method IoResume(target: Cid)
      requires Valid() && Enabled(Value(), Kernel(K.IoResume(target)))
      modifies this, globals
      ensures Value() == Next(cfg, 0, old(Value()), Kernel(K.IoResume(target))) && Valid()
    {
      hide K.Inv, X.Isolated, K.Resume, X.Switch, K.Linked, K.Placed, K.Queued, K.BooksForResume;
      ReadyFacts(cfg, Value());
      K.ReadyFromIo(Kern(), target);
      StepKeeps(cfg, 0, Value(), Kernel(K.IoResume(target)));
      Resume(target);
    }

    /** The scheduler's interrupt: a deferred resume is queued, then the coroutine yields. */
    method Preempt()
      requires Valid() && Enabled(Value(), Kernel(K.Preempt))
      modifies this, globals
      ensures Value() == Next(cfg, 0, old(Value()), Kernel(K.Preempt)) && Valid()
    {
      hide K.Inv, X.Isolated, K.Yield, X.Switch, K.Linked, K.Placed, K.Queued, K.BooksForYield;
      ReadyFacts(cfg, Value());
      K.ReadyDefer(Kern(), K.Preempted);
      StepKeeps(cfg, 0, Value(), Kernel(K.Preempt));
      deferTasks := deferTasks + [current];
      Yield(K.Preempted, K.NoCancel);
    }

    method EnterSilence(silenced: int)
      requires Valid() && Enabled(Value(), BeginSilence)
      modifies globals
      ensures Value() == Next(cfg, silenced, old(Value()), BeginSilence) && Valid()
    {
      hide K.Inv, K.Next, X.Isolated;
      KeysAgree(cfg, Value());
      KernelMoves(cfg, Kern(), K.Local);
      StepKeeps(cfg, silenced, Value(), BeginSilence);
      globals.BeginSilenceHandler(current, silenced);
    }

    method LeaveSilence()
      requires Valid() && Enabled(Value(), EndSilence)
      modifies globals
      ensures Value() == Next(cfg, 0, old(Value()), EndSilence) && Valid()
    {
      hide K.Inv, K.Next, X.Isolated;
      KeysAgree(cfg, Value());
      KernelMoves(cfg, Kern(), K.Local);
      StepKeeps(cfg, 0, Value(), EndSilence);
      globals.EndSilenceHandler(current);
    }

    /** The user-level resume: unregistered first, then resumed; false for any other argument. */
    method UserResume(cid: Cid) returns (ok: bool)
      requires Valid() && Enabled(Value(), Kernel(K.UserResume(cid)))
      modifies this, globals
      ensures Value() == Next(cfg, 0, old(Value()), Kernel(K.UserResume(cid))) && Valid()
      ensures ok == (cid in old(cos) && old(cos)[cid].pc.ParkedUser?)
      ensures ok ==> current == cid
    {
      hide K.Inv, X.Isolated, K.Resume, X.Switch, K.Linked, K.Placed, K.Queued, K.BooksForResume;
      ReadyFacts(cfg, Value());
      StepKeeps(cfg, 0, Value(), Kernel(K.UserResume(cid)));
      ok := cid in userYieldCoros;
      if ok {
        K.ReadyFromTable(Kern(), cid);
        userYieldCoros := userYieldCoros - {cid};
        Resume(cid);
      }
    }

    /** Coroutine::cancel through the registered cancel function. */
    method Cancel(cid: Cid) returns (ok: bool)
      requires Valid() && Enabled(Value(), Kernel(K.CancelCall(cid)))
      modifies this, globals
      ensures Value() == Next(cfg, 0, old(Value()), Kernel(K.CancelCall(cid))) && Valid()
      ensures ok == (cid in old(cos) && old(cos)[cid].cancel != K.NoCancel)
    {
      hide K.Inv, X.Isolated, K.Resume, X.Switch, K.Linked, K.Placed, K.Queued, K.BooksForResume;
      ReadyFacts(cfg, Value());
      StepKeeps(cfg, 0, Value(), Kernel(K.CancelCall(cid)));
      ok := cid in cos && cos[cid].cancel != K.NoCancel;
      if ok {
        if cos[cid].cancel.CancelUser? {
          K.ReadyFromTable(Kern(), cid);
          userYieldCoros := userYieldCoros - {cid};
        } else {
          K.ReadyFromIo(Kern(), cid);
        }
        Resume(cid);
      }
    }

    /** One turn of the gate loop in main_func. */
    method PassGate()
      requires Valid() && Enabled(Value(), Kernel(K.PassGate))
      modifies this, globals
      ensures Value() == Next(cfg, 0, old(Value()), Kernel(K.PassGate)) && Valid()
    {
      hide K.Inv, X.Isolated, K.Yield, X.Switch, K.Linked, K.Placed, K.Queued, K.Registered, K.BooksForYield;
      ReadyFacts(cfg, Value());
      StepKeeps(cfg, 0, Value(), Kernel(K.PassGate));
      if cfg.maxConcurrency > 0 && cos[current].pcid == K.MAIN {
        if workerConcurrency > cfg.maxConcurrency - 1 {
          GateIsNotMain(cfg, Value());
          K.ReadyDefer(Kern(), K.ParkedGate);
          deferTasks := deferTasks + [current];
          Yield(K.ParkedGate, K.NoCancel);
          return;
        }
        workerConcurrency := (workerConcurrency + 1) % UINT32;
      }
      cos := cos[current := cos[current].(pc := K.User, cancel := K.NoCancel)];
    }

    /** Coroutine::close with its on_close callback. */
    method Close()
      requires Valid() && Enabled(Value(), Kernel(K.Close))
      modifies this, globals
      ensures Value() == Next(cfg, 0, old(Value()), Kernel(K.Close)) && Valid()
    {
      hide Inv, Enabled, Next, X.Isolated, X.Shut, X.Saved, X.Visible;
      CloseEffect(cfg, Value());
      var o := cos[current].origin;
      globals.OnClose(current, o);
      if cfg.maxConcurrency > 0 && cos[current].pcid == K.MAIN {
        workerConcurrency := (workerConcurrency + UINT32 - 1) % UINT32;
      }
      var table := cos[o := cos[o].(pc := K.User, cancel := K.NoCancel)];
      cos, current, stack := table - {current}, o, stack[1..];
    }
  }

  /** What a yield comes to. */
  lemma YieldEffect(k: K.Kernel, pc: K.Pc, cancel: K.Cancel)
    requires K.ReadyToYield(k, pc, cancel)
    ensures var c := k.current;
      && c in k.cos && k.stack != []
      && var o := k.cos[c].origin;
      && o in k.cos && o != c
      && K.Yield(k, pc, cancel) == k.(
           cos := k.cos[c := k.cos[c].(pc := pc, cancel := cancel)][o := k.cos[o].(pc := K.User, cancel := K.NoCancel)],
           current := o, stack := k.stack[1..])
  {
    K.MainIsThere(k);
    K.YieldKeeps(k, pc, cancel);
    hide K.Structure, K.ReadyToYield;
  }

  /** What a close comes to. */
  lemma CloseEffect(cfg: K.Config, s: State)
    requires Inv(cfg, s) && Enabled(s, Kernel(K.Close)) && cfg.maxConcurrency < UINT32
    ensures var c := s.k.current;
      && c in s.k.cos && s.x.contexts.Keys == s.k.cos.Keys && s.k.stack != [] && X.Isolated(s.x, c)
      && var o := s.k.cos[c].origin;
      && o in s.k.cos && o != c
      && var t := Next(cfg, 0, s, Kernel(K.Close));
      && Inv(cfg, t) && t.x == X.Shut(s.x, c, o)
      && t.k == s.k.(
           cos := s.k.cos[o := s.k.cos[o].(pc := K.User, cancel := K.NoCancel)] - {c}, current := o, stack := s.k.stack[1..],
           concurrency := if cfg.maxConcurrency > 0 && s.k.cos[c].pcid == K.MAIN
                          then (s.k.concurrency + UINT32 - 1) % UINT32 else s.k.concurrency)
  {
    hide K.Inv, X.Isolated, X.Shut, K.Linked, K.Placed, K.Queued, K.Registered;
    ReadyFacts(cfg, s);
    K.CloseKeeps(cfg, s.k);
    StepKeeps(cfg, 0, s, Kernel(K.Close));
    K.MainIsThere(s.k);
    hide K.Structure;
  }

  lemma ReadyFacts(cfg: K.Config, s: State)
    requires Inv(cfg, s)
    ensures K.Structure(s.k) && X.Isolated(s.x, s.k.current) && s.x.contexts.Keys == s.k.cos.Keys
    ensures s.k.current in s.k.cos && !s.k.fault
  {
    K.MainIsThere(s.k);
  }

  lemma GateIsNotMain(cfg: K.Config, s: State)
    requires Inv(cfg, s) && K.Enabled(s.k, K.PassGate)
    ensures s.k.current != K.MAIN
  {
  }
}
