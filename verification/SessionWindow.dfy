/** The window a server stream opens with.  One variable of the session is overwritten by the
    peer's SETTINGS_INITIAL_WINDOW_SIZE, raised by WINDOW_UPDATE frames of the connection and
    lowered by sendfile; a new stream takes it over, or the default when it is 0. */
module SessionWindow {
  import opened Basics

  datatype Event =
    | Setting(value: nat)       // SETTINGS_INITIAL_WINDOW_SIZE
    | Update(increment: nat)    // WINDOW_UPDATE on stream 0
    | SentFile(length: nat)

  /** Values of SETTINGS and WINDOW_UPDATE are 32-bit words. */
  predicate WordEvents(run: seq<Event>) {
    forall i | 0 <= i < |run| ::
      && (run[i].Setting? ==> run[i].value < UINT32)
      && (run[i].Update? ==> run[i].increment < UINT32)
  }

  function Next(window: nat, e: Event): nat {
    match e
    case Setting(v) => v
    case Update(v) => (window + v) % UINT32
    case SentFile(n) => (window - n) % UINT32
  }

  function Exec(run: seq<Event>): nat {
    if run == [] then DEFAULT_WINDOW else Next(Exec(run[..|run| - 1]), run[|run| - 1])
  }

  /** The window a stream opens with. */
  function Opening(window: nat): nat {
    if window > 0 then window else DEFAULT_WINDOW
  }

  // What the peer means: its last setting, which nothing else changes.

  function PeerInitial(run: seq<Event>): nat {
    if run == [] then DEFAULT_WINDOW
    else if run[|run| - 1].Setting? then run[|run| - 1].value
    else PeerInitial(run[..|run| - 1])
  }

  /** What the connection's updates and files added since the last setting. */
  function Drift(run: seq<Event>): int {
    if run == [] then 0
    else
      match run[|run| - 1]
      case Setting(_) => 0
      case Update(v) => Drift(run[..|run| - 1]) + v
      case SentFile(n) => Drift(run[..|run| - 1]) - n
  }

  lemma ModStep(a: int, b: int)
    ensures (a % UINT32 + b) % UINT32 == (a + b) % UINT32
  {
    var q := a / UINT32;
    assert a == q * UINT32 + a % UINT32;
    AddMultiple(a % UINT32 + b, q);
  }

  lemma AddMultiple(x: int, q: int)
    ensures (x + q * UINT32) % UINT32 == x % UINT32
  {
    var k, r := x / UINT32, x % UINT32;
    assert x + q * UINT32 == (k + q) * UINT32 + r;
  }

  lemma {:induction false} ExecIsDrift(run: seq<Event>)
    requires WordEvents(run)
    ensures PeerInitial(run) < UINT32
    ensures Exec(run) == (PeerInitial(run) + Drift(run)) % UINT32
    decreases |run|
  {
    if run != [] {
      var init := run[..|run| - 1];
      var e := run[|run| - 1];
      ExecIsDrift(init);
      match e
      case Setting(v) =>
      case Update(v) => ModStep(PeerInitial(init) + Drift(init), v);
      case SentFile(n) => ModStep(PeerInitial(init) + Drift(init), 0 - n);
    }
  }

  lemma SameResidue(p: nat, d: int)
    requires p < UINT32
    ensures (p + d) % UINT32 == p <==> d % UINT32 == 0
  {
    var q, r := d / UINT32, d % UINT32;
    assert d == q * UINT32 + r;
    AddMultiple(p + r, q);
    assert (p + d) % UINT32 == (p + r) % UINT32;
    if r != 0 {
      assert (p + r) % UINT32 == if p + r < UINT32 then p + r else p + r - UINT32;
    }
  }

  /** For every history of a session: a stream opens with the peer's initial window if and
      only if that is positive and the connection's updates and files since it was set cancel
      out, or it is the default and they brought the variable to 0. */
  lemma OpensRightExactly(run: seq<Event>)
    requires WordEvents(run)
    ensures var p := PeerInitial(run);
      Opening(Exec(run)) == p <==>
        (p > 0 && Drift(run) % UINT32 == 0) || (p == DEFAULT_WINDOW && (p + Drift(run)) % UINT32 == 0)
  {
    ExecIsDrift(run);
    SameResidue(PeerInitial(run), Drift(run));
  }

  /** No positive update of the connection since the last setting. */
  predicate Untouched(run: seq<Event>) {
    run == [] || run[|run| - 1].Setting? ||
    ((run[|run| - 1].Update? ==> run[|run| - 1].increment == 0) && Untouched(run[..|run| - 1]))
  }

  predicate NoFiles(run: seq<Event>) {
    forall i | 0 <= i < |run| :: !run[i].SentFile?
  }

  lemma {:induction false} UntouchedDrift(run: seq<Event>)
    requires NoFiles(run)
    ensures Drift(run) >= 0 && (Drift(run) == 0 <==> Untouched(run))
    decreases |run|
  {
    if run != [] {
      UntouchedDrift(run[..|run| - 1]);
    }
  }

  /** Without files and without overflow: exactly when the peer's value is positive and no
      positive update of the connection followed it.  Otherwise the stream opens too wide. */
  lemma OpensRightWithoutFiles(run: seq<Event>)
    requires WordEvents(run) && NoFiles(run) && PeerInitial(run) + Drift(run) < UINT32
    ensures Opening(Exec(run)) >= PeerInitial(run)
    ensures Opening(Exec(run)) == PeerInitial(run) <==> PeerInitial(run) > 0 && Untouched(run)
  {
    ExecIsDrift(run);
    UntouchedDrift(run);
  }

  /** A connection update of 1000000 opens streams with 1065535 against a peer's 65535; a
      setting of 0 opens them with 65535 against 0. */
  lemma TooWide()
    ensures Opening(Exec([Update(1000000)])) == 1065535 && PeerInitial([Update(1000000)]) == DEFAULT_WINDOW
    ensures Opening(Exec([Setting(0)])) == DEFAULT_WINDOW && PeerInitial([Setting(0)]) == 0
  {
    assert [Update(1000000)][..0] == [];
    assert [Setting(0)][..0] == [];
  }

  class Session {
    var windowSize: nat
    ghost var history: seq<Event>

    ghost predicate Valid()
      reads this
    {
      WordEvents(history) && windowSize == Exec(history)
    }

    constructor ()
      ensures Valid() && history == []
    {
      windowSize, history := DEFAULT_WINDOW, [];
    }

    ghost method Record(e: Event)
      requires WordEvents(history) && WordEvents([e]) && windowSize == Next(Exec(history), e)
      modifies this`history
      ensures Valid() && history == old(history) + [e]
    {
      assert (history + [e])[..|history|] == history;
      assert e == [e][0];
      history := history + [e];
    }

    method OnSetting(value: nat)
      requires Valid() && value < UINT32
      modifies this
      ensures Valid() && history == old(history) + [Setting(value)]
    {
      windowSize := value;
      Record(Setting(value));
    }

    /** WINDOW_UPDATE on stream 0. */
    method OnConnectionUpdate(increment: nat)
      requires Valid() && increment < UINT32
      modifies this
      ensures Valid() && history == old(history) + [Update(increment)]
    {
      windowSize := (windowSize + increment) % UINT32;
      Record(Update(increment));
    }

    method OnSentFile(length: nat)
      requires Valid()
      modifies this
      ensures Valid() && history == old(history) + [SentFile(length)]
    {
      windowSize := (windowSize - length) % UINT32;
      Record(SentFile(length));
    }

    /** The constructor of a stream: its send window, which is the peer's exactly under the
        condition above. */
    method OpenStream() returns (remoteWindowSize: nat)
      requires Valid()
      ensures remoteWindowSize == Opening(Exec(history))
      ensures var p := PeerInitial(history);
        remoteWindowSize == p <==>
          (p > 0 && Drift(history) % UINT32 == 0) || (p == DEFAULT_WINDOW && (p + Drift(history)) % UINT32 == 0)
    {
      OpensRightExactly(history);
      if windowSize > 0 {
        remoteWindowSize := windowSize;
      } else {
        remoteWindowSize := DEFAULT_WINDOW;
      }
    }
  }
}
