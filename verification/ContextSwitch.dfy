/** What a switch does to the executor: saving and restoring the VM fields, the output buffers
    and the silenced error level, in the default (non-fiber) mode.  Pointers into Zend are
    opaque numbers; saved output copies live in an explicit heap so that leaks, double frees
    and uses after free are visible. */
module ContextSwitch {
  import opened Basics

  datatype Vm = Vm(
    bailout: nat, vmStackTop: nat, vmStackEnd: nat, vmStack: nat, vmStackPageSize: nat, executeData: nat,
    jitTraceNum: nat, stackBase: nat, stackLimit: nat, errorHandling: nat, exceptionClass: nat, exception: nat)

  /** The output globals: the stack of active handlers and everything else. */
  datatype Output = Output(handlers: seq<nat>, rest: nat)

  /** php_output_activate: no handlers, initial flags. */
  function Activated(): Output {
    Output([], 0)
  }

  /** The per-coroutine PHPContext.  `operand` is the temporary in which the VM's silence
      operator keeps the level it will put back. */
  datatype Context = Context(
    vm: Vm, outputPtr: Option<nat>, inSilence: bool, oriErrorReporting: int, tmpErrorReporting: int, operand: int)

  datatype Executor = Executor(
    vm: Vm, errorReporting: int, og: Output, contexts: map<Cid, Context>,
    heap: map<nat, Output>, nextAddr: nat, fault: bool)

  function SaveVmStack(x: Executor, c: Cid): Executor
    requires c in x.contexts
  {
    var t := x.contexts[c];
    if t.inSilence
    then x.(contexts := x.contexts[c := t.(vm := x.vm, tmpErrorReporting := x.errorReporting)], errorReporting := t.oriErrorReporting)
    else x.(contexts := x.contexts[c := t.(vm := x.vm)])
  }

  function RestoreVmStack(x: Executor, c: Cid): Executor
    requires c in x.contexts
  {
    var t := x.contexts[c];
    x.(vm := t.vm, errorReporting := if t.inSilence then t.tmpErrorReporting else x.errorReporting)
  }

  function SaveOg(x: Executor, c: Cid): Executor
    requires c in x.contexts
  {
    var t := x.contexts[c];
    if x.og.handlers != []
    then x.(contexts := x.contexts[c := t.(outputPtr := Some(x.nextAddr))],
            heap := x.heap[x.nextAddr := x.og], nextAddr := x.nextAddr + 1, og := Activated())
    else x.(contexts := x.contexts[c := t.(outputPtr := None)])
  }

  /** Reading or freeing an address that is not allocated is recorded as a fault. */
  function RestoreOg(x: Executor, c: Cid): Executor
    requires c in x.contexts
  {
    var t := x.contexts[c];
    if t.outputPtr.None? then x
    else if t.outputPtr.value !in x.heap then x.(fault := true)
    else x.(og := x.heap[t.outputPtr.value], heap := x.heap - {t.outputPtr.value},
            contexts := x.contexts[c := t.(outputPtr := None)])
  }

  function SaveTask(x: Executor, c: Cid): (y: Executor)
    requires c in x.contexts
    ensures y.contexts.Keys == x.contexts.Keys
  {
    SaveOg(SaveVmStack(x, c), c)
  }

  function RestoreTask(x: Executor, c: Cid): (y: Executor)
    requires c in x.contexts
    ensures y.contexts.Keys == x.contexts.Keys
  {
    RestoreOg(RestoreVmStack(x, c), c)
  }

  /** on_yield and on_resume: save the one that loses control, restore the one that gains it. */
  function Switch(x: Executor, from: Cid, to: Cid): Executor
    requires from in x.contexts && to in x.contexts
  {
    RestoreTask(SaveTask(x, from), to)
  }

  /** create and the start of main_func: save the creator, set up the new coroutine on its own VM
      stack, with normal error handling, no exception and no trace. */
  function Spawn(x: Executor, from: Cid, c: Cid, vm: Vm): Executor
    requires from in x.contexts
  {
    var y := SaveTask(x, from);
    var own := vm.(jitTraceNum := 0, errorHandling := 0, exceptionClass := 0, exception := 0);
    SaveVmStack(y.(vm := own, contexts := y.contexts[c := Context(own, None, false, 0, 0, 0)]), c)
  }

  /** on_close: end and reset the output, drop the VM stack, restore the origin. */
  function Shut(x: Executor, c: Cid, to: Cid): Executor
    requires c in x.contexts && to in x.contexts && c != to
  {
    var y := if x.og.handlers != [] then x.(og := Activated()) else x;
    RestoreTask(y.(contexts := y.contexts - {c}), to)
  }

  function BeginSilence(x: Executor, c: Cid, silenced: int): Executor
    requires c in x.contexts
  {
    var t := x.contexts[c].(inSilence := true, oriErrorReporting := x.errorReporting, operand := x.errorReporting);
    x.(contexts := x.contexts[c := t], errorReporting := silenced)
  }

  function EndSilence(x: Executor, c: Cid): Executor
    requires c in x.contexts
  {
    x.(contexts := x.contexts[c := x.contexts[c].(inSilence := false)], errorReporting := x.contexts[c].operand)
  }

  // ---------------------------------------------------------------------------
  // Isolation of the VM fields and the output buffers.

  /** What a coroutine sees of the executor: the VM fields, and its output buffers if any. */
  datatype View = View(vm: Vm, output: Option<Output>)

  function Visible(x: Executor): View {
    View(x.vm, if x.og.handlers != [] then Some(x.og) else None)
  }

  /** What is kept for a coroutine that is not running. */
  function Saved(x: Executor, c: Cid): View
    requires c in x.contexts
  {
    var p := x.contexts[c].outputPtr;
    View(x.contexts[c].vm, if p.Some? && p.value in x.heap then Some(x.heap[p.value]) else None)
  }

  /** Saved copies: every pointer is live and non-empty, no two contexts share one. */
  predicate CopiesOk(x: Executor) {
    && !x.fault
    && (forall a | a in x.heap :: a < x.nextAddr && x.heap[a].handlers != [])
    && (forall c | c in x.contexts && x.contexts[c].outputPtr.Some? :: x.contexts[c].outputPtr.value in x.heap)
    && (forall c, d | c in x.contexts && d in x.contexts && c != d && x.contexts[c].outputPtr.Some? ::
          x.contexts[d].outputPtr != x.contexts[c].outputPtr)
  }

  /** Every copy still allocated belongs to a context. */
  predicate NoLeak(x: Executor) {
    forall a | a in x.heap :: exists c | c in x.contexts :: x.contexts[c].outputPtr == Some(a)
  }

  /** The executor while `current` runs: it holds no saved copy of its own. */
  predicate Isolated(x: Executor, current: Cid) {
    CopiesOk(x) && NoLeak(x) && current in x.contexts && x.contexts[current].outputPtr.None?
  }

  /** Two executors with the same output pointers and the same copies. */
  predicate SameCopies(x: Executor, y: Executor) {
    && y.contexts.Keys == x.contexts.Keys && y.heap == x.heap && y.nextAddr == x.nextAddr && y.fault == x.fault
    && forall c | c in x.contexts :: y.contexts[c].outputPtr == x.contexts[c].outputPtr
  }

  lemma SameCopiesOk(x: Executor, y: Executor)
    requires SameCopies(x, y) && CopiesOk(x) && NoLeak(x)
    ensures CopiesOk(y) && NoLeak(y)
  {
    forall a | a in y.heap ensures exists d | d in y.contexts :: y.contexts[d].outputPtr == Some(a) {
      var d :| d in x.contexts && x.contexts[d].outputPtr == Some(a);
      assert y.contexts[d].outputPtr == Some(a);
    }
  }

  /** What is still allocated had an owner before, and that owner has it still. */
  predicate OwnersStay(x: Executor, y: Executor) {
    forall d | d in x.contexts && x.contexts[d].outputPtr.Some? && x.contexts[d].outputPtr.value in y.heap ::
      d in y.contexts && y.contexts[d].outputPtr == x.contexts[d].outputPtr
  }

  lemma NoNewLeak(x: Executor, y: Executor)
    requires NoLeak(x) && y.heap.Keys <= x.heap.Keys && OwnersStay(x, y)
    ensures NoLeak(y)
  {
    forall a | a in y.heap ensures exists d | d in y.contexts :: y.contexts[d].outputPtr == Some(a) {
      var d :| d in x.contexts && x.contexts[d].outputPtr == Some(a);
      assert d in y.contexts && y.contexts[d].outputPtr == Some(a);
    }
  }

  lemma SaveOgIsolates(x: Executor, c: Cid)
    requires Isolated(x, c)
    ensures var y := SaveOg(x, c);
      && CopiesOk(y) && NoLeak(y) && y.og.handlers == []
      && y.contexts.Keys == x.contexts.Keys
      && Saved(y, c) == View(x.contexts[c].vm, Visible(x).output)
      && forall d | d in x.contexts && d != c :: y.contexts[d] == x.contexts[d] && Saved(y, d) == Saved(x, d)
  {
    var y := SaveOg(x, c);
    assert x.nextAddr !in x.heap;
    if x.og.handlers == [] {
      SameCopiesOk(x, y);
    } else {
      forall a | a in y.heap ensures exists d | d in y.contexts :: y.contexts[d].outputPtr == Some(a) {
        if a in x.heap {
          var d :| d in x.contexts && x.contexts[d].outputPtr == Some(a);
          assert y.contexts[d].outputPtr == Some(a);
        } else {
          assert y.contexts[c].outputPtr == Some(a);
        }
      }
    }
  }

  lemma SaveIsolates(x: Executor, c: Cid)
    requires Isolated(x, c)
    ensures var y := SaveTask(x, c);
      && CopiesOk(y) && NoLeak(y) && y.og.handlers == []
      && Saved(y, c) == Visible(x)
      && forall d | d in x.contexts && d != c :: y.contexts[d] == x.contexts[d] && Saved(y, d) == Saved(x, d)
  {
    hide CopiesOk, NoLeak, SaveOg;
    var z := SaveVmStack(x, c);
    assert SameCopies(x, z);
    SameCopiesOk(x, z);
    SaveOgIsolates(z, c);
  }

  lemma RestoreOgIsolates(x: Executor, c: Cid)
    requires CopiesOk(x) && NoLeak(x) && c in x.contexts && x.og.handlers == []
    ensures var y := RestoreOg(x, c);
      && Isolated(y, c)
      && Visible(y) == View(x.vm, Saved(x, c).output)
      && y.contexts.Keys == x.contexts.Keys
      && forall d | d in x.contexts && d != c :: y.contexts[d] == x.contexts[d] && Saved(y, d) == Saved(x, d)
  {
    hide NoLeak;
    var y := RestoreOg(x, c);
    assert OwnersStay(x, y);
    NoNewLeak(x, y);
  }

  lemma RestoreIsolates(x: Executor, c: Cid)
    requires CopiesOk(x) && NoLeak(x) && c in x.contexts && x.og.handlers == []
    ensures var y := RestoreTask(x, c);
      && Isolated(y, c)
      && Visible(y) == Saved(x, c)
      && forall d | d in x.contexts && d != c :: y.contexts[d] == x.contexts[d] && Saved(y, d) == Saved(x, d)
  {
    hide CopiesOk, NoLeak, RestoreOg, Isolated;
    var z := RestoreVmStack(x, c);
    assert SameCopies(x, z);
    SameCopiesOk(x, z);
    RestoreOgIsolates(z, c);
    assert forall d | d in x.contexts :: Saved(z, d) == Saved(x, d);
  }

  /** The switch lemma: the loser's view is kept, the winner gets its own back, nobody else is
      touched, and no copy is leaked, shared or freed twice. */
  lemma SwitchIsolates(x: Executor, from: Cid, to: Cid)
    requires Isolated(x, from) && to in x.contexts && from != to
    ensures var y := Switch(x, from, to);
      && Isolated(y, to) && y.contexts.Keys == x.contexts.Keys
      && Saved(y, from) == Visible(x) && Visible(y) == Saved(x, to)
      && forall d | d in x.contexts && d != from && d != to :: Saved(y, d) == Saved(x, d)
  {
    SaveIsolates(x, from);
    RestoreIsolates(SaveTask(x, from), to);
  }

  lemma SpawnIsolates(x: Executor, from: Cid, c: Cid, vm: Vm)
    requires Isolated(x, from) && c !in x.contexts
    ensures var y := Spawn(x, from, c, vm);
      && Isolated(y, c) && y.contexts.Keys == x.contexts.Keys + {c}
      && Saved(y, from) == Visible(x) && Visible(y).output == None
      && Visible(y).vm == vm.(jitTraceNum := 0, errorHandling := 0, exceptionClass := 0, exception := 0)
      && forall d | d in x.contexts && d != from :: Saved(y, d) == Saved(x, d)
  {
    SaveIsolates(x, from);
    hide SaveTask, Isolated, CopiesOk, NoLeak;
    AddIsolates(SaveTask(x, from), c, vm.(jitTraceNum := 0, errorHandling := 0, exceptionClass := 0, exception := 0));
  }

  lemma AddIsolates(z: Executor, c: Cid, vm: Vm)
    requires CopiesOk(z) && NoLeak(z) && z.og.handlers == [] && c !in z.contexts
    ensures var y := SaveVmStack(z.(vm := vm, contexts := z.contexts[c := Context(vm, None, false, 0, 0, 0)]), c);
      && Isolated(y, c) && y.contexts.Keys == z.contexts.Keys + {c} && Visible(y) == View(vm, None)
      && forall d | d in z.contexts :: Saved(y, d) == Saved(z, d)
  {
    var y := SaveVmStack(z.(vm := vm, contexts := z.contexts[c := Context(vm, None, false, 0, 0, 0)]), c);
    hide NoLeak;
    assert forall d | d in z.contexts :: y.contexts[d] == z.contexts[d];
    NoNewLeak(z, y);
  }

  lemma ShutIsolates(x: Executor, c: Cid, to: Cid)
    requires Isolated(x, c) && to in x.contexts && c != to
    ensures var y := Shut(x, c, to);
      && Isolated(y, to) && y.contexts.Keys == x.contexts.Keys - {c}
      && Visible(y) == Saved(x, to)
      && forall d | d in y.contexts && d != to :: Saved(y, d) == Saved(x, d)
  {
    var z := (if x.og.handlers != [] then x.(og := Activated()) else x).(contexts := x.contexts - {c});
    DropIsolates(x, z, c);
    hide CopiesOk, NoLeak, Isolated, RestoreTask;
    RestoreIsolates(z, to);
  }

  /** A context that holds no copy can go. */
  lemma DropIsolates(x: Executor, z: Executor, c: Cid)
    requires Isolated(x, c) && z.contexts == x.contexts - {c} && z.heap == x.heap && z.nextAddr == x.nextAddr && !z.fault
    ensures CopiesOk(z) && NoLeak(z)
    ensures forall d | d in z.contexts :: Saved(z, d) == Saved(x, d)
  {
    hide NoLeak;
    assert OwnersStay(x, z);
    NoNewLeak(x, z);
  }

  // ---------------------------------------------------------------------------
  // Isolation of the silenced error level.

  /** With a constant unsilenced level: the running coroutine sees the silenced level exactly
      when it is itself in silence, and every coroutine in silence will find its level again. */
  predicate Silences(x: Executor, current: Cid, unsilenced: int, silenced: int) {
    && current in x.contexts
    && (forall c | c in x.contexts && x.contexts[c].inSilence ::
          x.contexts[c].oriErrorReporting == unsilenced && x.contexts[c].operand == unsilenced)
    && (forall c | c in x.contexts && x.contexts[c].inSilence && c != current ::
          x.contexts[c].tmpErrorReporting == silenced)
    && x.errorReporting == if x.contexts[current].inSilence then silenced else unsilenced
  }

  /** What the running coroutine can observe of it. */
  predicate Sees(x: Executor, current: Cid, unsilenced: int, silenced: int) {
    current in x.contexts && x.errorReporting == if x.contexts[current].inSilence then silenced else unsilenced
  }

  lemma SwitchSilences(x: Executor, from: Cid, to: Cid, unsilenced: int, silenced: int)
    requires Silences(x, from, unsilenced, silenced) && to in x.contexts && from != to
    ensures Silences(Switch(x, from, to), to, unsilenced, silenced)
  {
    var z := SaveTask(x, from);
    assert z.errorReporting == unsilenced;
    assert forall c | c in x.contexts && c != from :: z.contexts[c] == x.contexts[c];
    assert z.contexts[from].inSilence ==> z.contexts[from].tmpErrorReporting == silenced;
    assert z.contexts[from].inSilence == x.contexts[from].inSilence;
    assert z.contexts[from].oriErrorReporting == x.contexts[from].oriErrorReporting && z.contexts[from].operand == x.contexts[from].operand;
    hide SaveTask;
    RestoreSilences(z, to, unsilenced, silenced);
  }

  lemma RestoreSilences(z: Executor, to: Cid, unsilenced: int, silenced: int)
    requires to in z.contexts && z.errorReporting == unsilenced
    requires forall c | c in z.contexts && z.contexts[c].inSilence ::
      && z.contexts[c].oriErrorReporting == unsilenced && z.contexts[c].operand == unsilenced
      && z.contexts[c].tmpErrorReporting == silenced
    ensures Silences(RestoreTask(z, to), to, unsilenced, silenced)
  {
    var y := RestoreTask(z, to);
    assert forall c | c in z.contexts && c != to :: y.contexts[c] == z.contexts[c];
  }

  lemma SpawnSilences(x: Executor, from: Cid, c: Cid, vm: Vm, unsilenced: int, silenced: int)
    requires Silences(x, from, unsilenced, silenced) && c !in x.contexts
    ensures Silences(Spawn(x, from, c, vm), c, unsilenced, silenced)
  {
  }

  /** A coroutine that closes leaves its level behind.  Its origin is unharmed exactly when the
      closing coroutine was not in silence, or the origin is and so restores its own level. */
  lemma ShutSilencesExactly(x: Executor, c: Cid, to: Cid, unsilenced: int, silenced: int)
    requires Silences(x, c, unsilenced, silenced) && to in x.contexts && c != to && unsilenced != silenced
    ensures Silences(Shut(x, c, to), to, unsilenced, silenced) <==> !x.contexts[c].inSilence || x.contexts[to].inSilence
    ensures Sees(Shut(x, c, to), to, unsilenced, silenced) <==> !x.contexts[c].inSilence || x.contexts[to].inSilence
  {
    var y := Shut(x, c, to);
    assert forall d | d in y.contexts :: d in x.contexts && y.contexts[d].inSilence == x.contexts[d].inSilence;
  }

  // ---------------------------------------------------------------------------
  // The executor globals and the callbacks, field by field.

  class Globals {
    var bailout: nat
    var vmStackTop: nat
    var vmStackEnd: nat
    var vmStack: nat
    var vmStackPageSize: nat
    var currentExecuteData: nat
    var jitTraceNum: nat
    var stackBase: nat
    var stackLimit: nat
    var errorHandling: nat
    var exceptionClass: nat
    var exception: nat
    var errorReporting: int
    var og: Output
    var contexts: map<Cid, Context>
    var heap: map<nat, Output>
    var nextAddr: nat
    var fault: bool

    function CurrentVm(): Vm
      reads this
    {
      Vm(bailout, vmStackTop, vmStackEnd, vmStack, vmStackPageSize, currentExecuteData,
         jitTraceNum, stackBase, stackLimit, errorHandling, exceptionClass, exception)
    }

    ghost function Value(): Executor
      reads this
    {
      Executor(CurrentVm(), errorReporting, og, contexts, heap, nextAddr, fault)
    }

    constructor (main: Cid, vm: Vm, level: int, og: Output)
      ensures Value() == Executor(vm, level, og, map[main := Context(vm, None, false, 0, 0, 0)], map[], 0, false)
    {
      bailout, vmStackTop, vmStackEnd, vmStack := vm.bailout, vm.vmStackTop, vm.vmStackEnd, vm.vmStack;
      vmStackPageSize, currentExecuteData, jitTraceNum := vm.vmStackPageSize, vm.executeData, vm.jitTraceNum;
      stackBase, stackLimit, errorHandling := vm.stackBase, vm.stackLimit, vm.errorHandling;
      exceptionClass, exception, errorReporting := vm.exceptionClass, vm.exception, level;
      this.og, contexts := og, map[main := Context(vm, None, false, 0, 0, 0)];
      heap, nextAddr, fault := map[], 0, false;
    }

    method SaveVm(c: Cid)
      requires c in contexts
      modifies this`contexts, this`errorReporting
      ensures Value() == SaveVmStack(old(Value()), c)
    {
      var task := contexts[c];
      var vm := Vm(bailout, vmStackTop, vmStackEnd, vmStack, vmStackPageSize, currentExecuteData,
                   jitTraceNum, stackBase, stackLimit, errorHandling, exceptionClass, exception);
      task := task.(vm := vm);
      if task.inSilence {
        task := task.(tmpErrorReporting := errorReporting);
        errorReporting := task.oriErrorReporting;
      }
      contexts := contexts[c := task];
    }

    method RestoreVm(c: Cid)
      requires c in contexts
      modifies this`bailout, this`vmStackTop, this`vmStackEnd, this`vmStack, this`vmStackPageSize,
               this`currentExecuteData, this`jitTraceNum, this`stackBase, this`stackLimit,
               this`errorReporting, this`errorHandling, this`exceptionClass, this`exception
      ensures Value() == RestoreVmStack(old(Value()), c)
    {
      var task := contexts[c];
      RestoreStack(task.vm);
      if task.inSilence {
        errorReporting := task.tmpErrorReporting;
      }
      RestoreErrors(task.vm);
    }

    /** The VM fields at the start of main_func. */
    method LoadFresh(vm: Vm)
      modifies this
      ensures Value() == old(Value()).(vm := vm.(jitTraceNum := 0, errorHandling := 0, exceptionClass := 0, exception := 0))
    {
      RestoreStack(vm);
      errorHandling, exceptionClass, exception := 0, 0, 0;
      jitTraceNum := 0;
    }

    method RestoreErrors(vm: Vm)
      modifies this`errorHandling, this`exceptionClass, this`exception
      ensures errorHandling == vm.errorHandling && exceptionClass == vm.exceptionClass && exception == vm.exception
    {
      errorHandling, exceptionClass, exception := vm.errorHandling, vm.exceptionClass, vm.exception;
    }

    method RestoreStack(vm: Vm)
      modifies this`bailout, this`vmStackTop, this`vmStackEnd, this`vmStack, this`vmStackPageSize,
               this`currentExecuteData, this`jitTraceNum, this`stackBase, this`stackLimit
      ensures CurrentVm() == vm.(errorHandling := errorHandling, exceptionClass := exceptionClass, exception := exception)
    {
      bailout, vmStackTop, vmStackEnd := vm.bailout, vm.vmStackTop, vm.vmStackEnd;
      vmStack, vmStackPageSize, currentExecuteData := vm.vmStack, vm.vmStackPageSize, vm.executeData;
      jitTraceNum, stackBase, stackLimit := vm.jitTraceNum, vm.stackBase, vm.stackLimit;
    }

    method SaveOutput(c: Cid)
      requires c in contexts
      modifies this`contexts, this`heap, this`nextAddr, this`og
      ensures Value() == SaveOg(old(Value()), c)
    {
      if og.handlers != [] {
        contexts := contexts[c := contexts[c].(outputPtr := Some(nextAddr))];
        heap := heap[nextAddr := og];
        nextAddr := nextAddr + 1;
        og := Activated();
      } else {
        contexts := contexts[c := contexts[c].(outputPtr := None)];
      }
    }

    method RestoreOutput(c: Cid)
      requires c in contexts
      modifies this`contexts, this`heap, this`og, this`fault
      ensures Value() == RestoreOg(old(Value()), c)
    {
      var p := contexts[c].outputPtr;
      if p.Some? {
        if p.value !in heap {
          fault := true;
        } else {
          og := heap[p.value];
          heap := heap - {p.value};
          contexts := contexts[c := contexts[c].(outputPtr := None)];
        }
      }
    }

    /** on_yield: from a coroutine to its origin; on_resume: from the current coroutine to the target. */
    method SwitchTasks(from: Cid, to: Cid)
      requires Isolated(Value(), from) && to in contexts && from != to
      modifies this
      ensures Value() == Switch(old(Value()), from, to) && Isolated(Value(), to)
      ensures Visible(Value()) == Saved(old(Value()), to) && Saved(Value(), from) == Visible(old(Value()))
    {
      SwitchIsolates(Value(), from, to);
      SaveVm(from);
      SaveOutput(from);
      RestoreVm(to);
      RestoreOutput(to);
    }

    /** create and main_func up to the gate: the creator is saved with its output, the new
        coroutine starts on fresh VM fields and its context is initialised. */
    method Start(from: Cid, c: Cid, vm: Vm)
      requires Isolated(Value(), from) && c !in contexts
      modifies this
      ensures Value() == Spawn(old(Value()), from, c, vm) && Isolated(Value(), c)
      ensures Visible(Value()).output == None && Saved(Value(), from) == Visible(old(Value()))
      ensures Visible(Value()).vm == vm.(jitTraceNum := 0, errorHandling := 0, exceptionClass := 0, exception := 0)
    {
      SpawnIsolates(Value(), from, c, vm);
      hide Isolated, Visible, Saved, SaveOg, SaveVmStack;
      SaveVm(from);
      SaveOutput(from);
      LoadFresh(vm);
      contexts := contexts[c := Context(CurrentVm(), None, false, 0, 0, 0)];
      SaveVm(c);
    }

    method BeginSilenceHandler(c: Cid, silenced: int)
      requires c in contexts
      modifies this`contexts, this`errorReporting
      ensures Value() == BeginSilence(old(Value()), c, silenced)
    {
      contexts := contexts[c := contexts[c].(inSilence := true, oriErrorReporting := errorReporting, operand := errorReporting)];
      errorReporting := silenced;
    }

    method EndSilenceHandler(c: Cid)
      requires c in contexts
      modifies this`contexts, this`errorReporting
      ensures Value() == EndSilence(old(Value()), c)
    {
      var operand := contexts[c].operand;
      contexts := contexts[c := contexts[c].(inSilence := false)];
      errorReporting := operand;
    }

    method OnClose(c: Cid, to: Cid)
      requires Isolated(Value(), c) && to in contexts && c != to
      modifies this
      ensures Value() == Shut(old(Value()), c, to) && Isolated(Value(), to)
      ensures Visible(Value()) == Saved(old(Value()), to)
    {
      ShutIsolates(Value(), c, to);
      if og.handlers != [] {
        og := Activated();
      }
      contexts := contexts - {c};
      RestoreVm(to);
      RestoreOutput(to);
    }
  }
}
