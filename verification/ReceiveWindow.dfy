/** Receive-side flow control, the same on the HTTP/2 server and client: every DATA frame is
    charged to the connection window and to the stream window, and a window that falls below a
    quarter of the maximum is announced back up to the maximum. */
module ReceiveWindow {
  import opened Basics

  const MAX: nat := 0x7fff_ffff
  const FRAME_LIMIT: nat := 0x100_0000    // frame lengths have 24 bits

  /** One window variable with its history: what was announced and what was charged. */
  datatype Account = Account(initial: nat, window: nat, announced: seq<nat>, received: nat)

  function Open(initial: nat): Account {
    Account(initial, initial, [], 0)
  }

  function Sum(s: seq<nat>): nat {
    if s == [] then 0 else Sum(s[..|s| - 1]) + s[|s| - 1]
  }

  /** The window after a uint32 subtraction. */
  function Minus(window: nat, length: nat): nat {
    (window - length) % UINT32
  }

  /** The increment announced for a frame, if any; a frame of length zero never triggers one. */
  function Increment(window: nat, length: nat): (r: seq<nat>)
    ensures |r| <= 1 && forall i | 0 <= i < |r| :: 1 <= r[i] <= MAX
  {
    if length > 0 && Minus(window, length) < MAX / 4 then [MAX - Minus(window, length)] else []
  }

  function After(window: nat, length: nat): nat {
    if Increment(window, length) == [] then Minus(window, length) else MAX
  }

  function Charge(a: Account, length: nat): Account {
    Account(a.initial, After(a.window, length), a.announced + Increment(a.window, length), a.received + length)
  }

  /** The variable equals its initial value plus what was announced minus what was charged. */
  predicate Exact(a: Account) {
    a.window + a.received == a.initial + Sum(a.announced)
  }

  predicate Announcements(a: Account) {
    forall i | 0 <= i < |a.announced| :: 1 <= a.announced[i] <= MAX
  }

  /** Once something has been charged the window stays between a quarter and the maximum. */
  predicate Steady(a: Account) {
    && Exact(a) && Announcements(a)
    && (if a.received == 0 then a.window == a.initial && a.announced == [] else MAX / 4 <= a.window)
    && a.window <= (if a.initial <= MAX then MAX else UINT32 - 1)
  }

  lemma SumSnoc(s: seq<nat>, v: nat)
    ensures Sum(s + [v]) == Sum(s) + v
  {
    assert (s + [v])[..|s|] == s;
  }

  lemma ChargeKeeps(a: Account, length: nat)
    requires Steady(a) && length < FRAME_LIMIT && a.initial < UINT32
    requires a.received == 0 ==> length <= a.initial
    ensures Steady(Charge(a, length))
    ensures length > 0 ==> MAX / 4 <= Charge(a, length).window
  {
    MinusFits(a.window, length);
    ChargeAnnounces(a, length);
    hide Sum, Increment, Minus;
  }

  lemma ChargeAnnounces(a: Account, length: nat)
    ensures var b := Charge(a, length);
      && (Announcements(a) ==> Announcements(b))
      && ((b.window == Minus(a.window, length) && b.announced == a.announced)
          || (b.window == MAX && Sum(b.announced) == Sum(a.announced) + MAX - Minus(a.window, length)))
      && (length > 0 ==> MAX / 4 <= b.window)
      && (length == 0 || Minus(a.window, length) >= MAX / 4 ==> b.window == Minus(a.window, length) && b.announced == a.announced)
      && (b.window <= MAX || b.window == Minus(a.window, length))
  {
    var inc := Increment(a.window, length);
    if inc == [] {
      assert a.announced + inc == a.announced;
    } else {
      SumSnoc(a.announced, inc[0]);
      assert a.announced + inc == a.announced + [inc[0]];
    }
  }

  lemma MinusFits(window: nat, length: nat)
    requires window < UINT32 && length < UINT32
    ensures Minus(window, length) == if length <= window then window - length else window - length + UINT32
  {
  }

  // ---------------------------------------------------------------------------
  // One window over a whole run of frames.

  function ChargeAll(a: Account, lengths: seq<nat>): Account {
    if lengths == [] then a else Charge(ChargeAll(a, lengths[..|lengths| - 1]), lengths[|lengths| - 1])
  }

  predicate AlwaysExact(a: Account, lengths: seq<nat>) {
    Exact(ChargeAll(a, lengths)) && (lengths == [] || AlwaysExact(a, lengths[..|lengths| - 1]))
  }

  /** The first frame that carries anything fits the initial window. */
  predicate FirstFits(initial: nat, lengths: seq<nat>) {
    forall i | 0 <= i < |lengths| && AllZero(lengths[..i]) :: lengths[i] <= initial
  }

  predicate Frames(lengths: seq<nat>) {
    forall i | 0 <= i < |lengths| :: lengths[i] < FRAME_LIMIT
  }

  lemma FirstFitsPrefix(initial: nat, lengths: seq<nat>)
    requires lengths != []
    ensures var init := lengths[..|lengths| - 1];
      FirstFits(initial, lengths) <==>
        FirstFits(initial, init) && (AllZero(init) ==> lengths[|init|] <= initial)
  {
    var init := lengths[..|lengths| - 1];
    assert forall i | 0 <= i <= |init| :: init[..i] == lengths[..i];
    assert lengths[..|init|] == init;
    assert forall i | 0 <= i < |init| :: init[i] == lengths[i];
  }

  predicate AllZero(lengths: seq<nat>) {
    forall j | 0 <= j < |lengths| :: lengths[j] == 0
  }

  lemma {:induction false} ReceivedNothing(a: Account, lengths: seq<nat>)
    ensures ChargeAll(a, lengths).received == 0 <==> a.received == 0 && AllZero(lengths)
    ensures ChargeAll(a, lengths).initial == a.initial
    decreases |lengths|
  {
    if lengths != [] {
      var init := lengths[..|lengths| - 1];
      ReceivedNothing(a, init);
      assert lengths == init + [lengths[|init|]];
      assert AllZero(lengths) <==> AllZero(init) && lengths[|init|] == 0;
    }
  }

  lemma OpenSteady(initial: nat)
    requires initial < UINT32
    ensures Steady(Open(initial))
  {
  }

  lemma {:induction false} RunKeeps(initial: nat, lengths: seq<nat>)
    requires initial < UINT32 && Frames(lengths) && FirstFits(initial, lengths)
    ensures Steady(ChargeAll(Open(initial), lengths))
    decreases |lengths|
  {
    hide FirstFits, Charge, Steady;
    OpenSteady(initial);
    if lengths != [] {
      var init := lengths[..|lengths| - 1];
      FirstFitsPrefix(initial, lengths);
      RunKeeps(initial, init);
      ReceivedNothing(Open(initial), init);
      var a := ChargeAll(Open(initial), init);
      assert ChargeAll(Open(initial), lengths) == Charge(a, lengths[|init|]);
      ChargeKeeps(a, lengths[|init|]);
    }
  }

  /** Receive-window accounting.  Over every run of frames the window variable is initial plus
      announced minus received in every state, if and only if the first non-empty frame fits
      the initial window: afterwards no 24-bit length can underflow it. */
  lemma {:induction false} AccountingExactly(initial: nat, lengths: seq<nat>)
    requires initial < UINT32 && Frames(lengths)
    ensures AlwaysExact(Open(initial), lengths) <==> FirstFits(initial, lengths)
    decreases |lengths|
  {
    if lengths != [] {
      var init := lengths[..|lengths| - 1];
      var last := lengths[|init|];
      AccountingExactly(initial, init);
      FirstFitsPrefix(initial, lengths);
      if FirstFits(initial, lengths) {
        RunKeeps(initial, lengths);
      } else if FirstFits(initial, init) {
        RunKeeps(initial, init);
        ReceivedNothing(Open(initial), init);
        var a := ChargeAll(Open(initial), init);
        assert a.received == 0 && a.window == initial < last;
        MinusFits(a.window, last);
        assert ChargeAll(Open(initial), lengths) == Charge(a, last);
      }
    }
  }

  /** The ranges that go with it. */
  lemma WindowRange(initial: nat, lengths: seq<nat>)
    requires initial <= MAX && Frames(lengths) && FirstFits(initial, lengths)
    ensures var a := ChargeAll(Open(initial), lengths);
      && Announcements(a)
      && (a.received > 0 ==> FRAME_LIMIT <= MAX / 4 <= a.window <= MAX)
  {
    RunKeeps(initial, lengths);
    ReceivedNothing(Open(initial), lengths);
  }

  // ---------------------------------------------------------------------------
  // A connection with its streams.

  datatype Role = Server | Client

  datatype State = State(conn: Account, streams: map<nat, Account>, closed: bool)

  datatype Event = OpenStream(id: nat) | Data(id: nat, length: nat) | CloseStream(id: nat)

  function Init(initial: nat): State {
    State(Open(initial), map[], false)
  }

  function Next(role: Role, s: State, e: Event): State {
    if s.closed then s
    else
      match e
      case OpenStream(id) => if id in s.streams then s else s.(streams := s.streams[id := Open(DEFAULT_WINDOW)])
      case CloseStream(id) => s.(streams := s.streams - {id})
      case Data(id, length) =>
        if id in s.streams
        then s.(conn := Charge(s.conn, length), streams := s.streams[id := Charge(s.streams[id], length)])
        else s.(closed := role.Server?)
  }

  /** The peer keeps to the first window of the connection and of each stream. */
  predicate Obeys(s: State, e: Event) {
    e.Data? ==>
      && e.length < FRAME_LIMIT
      && (s.conn.received == 0 ==> e.length <= s.conn.initial)
      && (e.id in s.streams && s.streams[e.id].received == 0 ==> e.length <= s.streams[e.id].initial)
  }

  predicate ObeyingRun(role: Role, s: State, run: seq<Event>)
    decreases |run|
  {
    run == [] || (Obeys(s, run[0]) && ObeyingRun(role, Next(role, s, run[0]), run[1..]))
  }

  function Exec(role: Role, s: State, run: seq<Event>): State
    decreases |run|
  {
    if run == [] then s else Exec(role, Next(role, s, run[0]), run[1..])
  }

  predicate Inv(s: State) {
    && Steady(s.conn) && s.conn.initial < UINT32
    && forall id | id in s.streams :: Steady(s.streams[id]) && s.streams[id].initial == DEFAULT_WINDOW
  }

  lemma StepKeeps(role: Role, s: State, e: Event)
    requires Inv(s) && Obeys(s, e)
    ensures Inv(Next(role, s, e))
  {
    if !s.closed && e.Data? && e.id in s.streams {
      ChargeKeeps(s.conn, e.length);
      ChargeKeeps(s.streams[e.id], e.length);
      hide Steady, Charge;
      assert Charge(s.conn, e.length).initial == s.conn.initial by { ChargeInitial(s.conn, e.length); }
      ChargeInitial(s.streams[e.id], e.length);
    }
  }

  lemma ChargeInitial(a: Account, length: nat)
    ensures Charge(a, length).initial == a.initial
  {
  }

  lemma {:induction false} ConnectionAccounting(role: Role, s: State, run: seq<Event>)
    requires Inv(s) && ObeyingRun(role, s, run)
    ensures Inv(Exec(role, s, run))
    decreases |run|
  {
    if run != [] {
      StepKeeps(role, s, run[0]);
      ConnectionAccounting(role, Next(role, s, run[0]), run[1..]);
    }
  }

  /** The bytes of the run that arrive on open streams before the connection is closed. */
  function Charged(role: Role, s: State, run: seq<Event>): nat
    decreases |run|
  {
    if run == [] || s.closed then 0
    else (if run[0].Data? && run[0].id in s.streams then run[0].length else 0) + Charged(role, Next(role, s, run[0]), run[1..])
  }

  lemma ChargeCounts(a: Account, length: nat)
    ensures Charge(a, length).received == a.received + length
  {
  }

  /** Every byte of them is charged to the connection, and no other; only an unknown stream
      closes it, and only on the server. */
  lemma {:induction false} ChargedInTotal(role: Role, s: State, run: seq<Event>)
    ensures var t := Exec(role, s, run);
      && t.conn.received == s.conn.received + Charged(role, s, run)
      && (t.closed && !s.closed ==> role.Server? && exists i :: 0 <= i < |run| && run[i].Data?)
    decreases |run|
  {
    hide Charge;
    if run != [] {
      var u := Next(role, s, run[0]);
      if run[0].Data? {
        ChargeCounts(s.conn, run[0].length);
      }
      ChargedInTotal(role, u, run[1..]);
      var t := Exec(role, u, run[1..]);
      if t.closed && !u.closed {
        var i :| 0 <= i < |run[1..]| && run[1..][i].Data?;
        assert run[i + 1].Data?;
      }
    }
  }

  // ---------------------------------------------------------------------------
  // Both ends of the connection, with DATA and WINDOW_UPDATE frames under way.

  /** The largest DATA frame a peer may send: the server announces this frame size, the client
      announces none and this is the default. */
  const LEGAL: nat := 16384

  /** `peer` and `peerStreams` are the windows at the sender of the DATA; `data` and `updates`
      are under way to this and to the other end, as pairs of a stream id, 0 for the
      connection, and a length; `lost` counts DATA bytes that arrived uncharged. */
  datatype Link = Link(
    local: State, peer: int, peerStreams: map<nat, int>, data: seq<(nat, nat)>, updates: seq<(nat, nat)>, lost: nat)

  datatype Move =
    | Opens(id: nat)
    | Closes(id: nat)
    | PeerSends(id: nat, length: nat)
    | DataArrives
    | UpdateArrives

  /** The variable may hold any value when a connection begins: the configured one, or on the
      client what an earlier connection left.  The connection window of the peer starts at
      65535 whatever that is (section 6.9.2 of RFC 7540). */
  function Connected(initial: nat): Link {
    Link(Init(initial), DEFAULT_WINDOW, map[], [], [], 0)
  }

  /** The initial window of streams that the peer was told: the client announces its variable,
      the server always the default. */
  function Announced(role: Role, initial: nat): nat {
    if role.Client? then initial else DEFAULT_WINDOW
  }

  /** A new stream has a new id.  A legal frame is within the frame size and both windows. */
  predicate CanMove(l: Link, m: Move) {
    match m
    case Opens(id) => id != 0 && id !in l.peerStreams
    case Closes(_) => true
    case PeerSends(id, length) =>
      id in l.peerStreams && length <= LEGAL && length <= l.peer && length <= l.peerStreams[id]
    case DataArrives => l.data != []
    case UpdateArrives => l.updates != []
  }

  predicate Charges(s: State, id: nat) {
    !s.closed && id in s.streams
  }

  function MoveOn(role: Role, l: Link, m: Move): Link
    requires CanMove(l, m)
  {
    match m
    case Opens(id) =>
      l.(local := Next(role, l.local, OpenStream(id)),
         peerStreams := l.peerStreams[id := Announced(role, l.local.conn.initial)])
    case Closes(id) => l.(local := Next(role, l.local, CloseStream(id)))
    case PeerSends(id, length) =>
      l.(peer := l.peer - length, peerStreams := l.peerStreams[id := l.peerStreams[id] - length],
         data := l.data + [(id, length)])
    case DataArrives =>
      var (id, length) := l.data[0];
      var l1 := l.(local := Next(role, l.local, Data(id, length)), data := l.data[1..]);
      if Charges(l.local, id)
      then l1.(updates := l.updates + Answers(l.local, id, length))
      else l1.(lost := l.lost + length)
    case UpdateArrives =>
      var (id, increment) := l.updates[0];
      var l1 := l.(updates := l.updates[1..]);
      if id == 0 then l1.(peer := l.peer + increment)
      else if id in l.peerStreams then l1.(peerStreams := l.peerStreams[id := l.peerStreams[id] + increment])
      else l1
  }

  /** The WINDOW_UPDATE frames that answer a charged DATA frame. */
  function Answers(s: State, id: nat, length: nat): seq<(nat, nat)>
    requires id in s.streams
  {
    Tagged(0, Increment(s.conn.window, length)) + Tagged(id, Increment(s.streams[id].window, length))
  }

  predicate IsLinkRun(role: Role, l: Link, run: seq<Move>)
    decreases |run|
  {
    run == [] || (CanMove(l, run[0]) && IsLinkRun(role, MoveOn(role, l, run[0]), run[1..]))
  }

  function LinkExec(role: Role, l: Link, run: seq<Move>): Link
    requires IsLinkRun(role, l, run)
    decreases |run|
  {
    if run == [] then l else LinkExec(role, MoveOn(role, l, run[0]), run[1..])
  }

  lemma {:induction false} LinkSnoc(role: Role, l: Link, run: seq<Move>, m: Move)
    requires IsLinkRun(role, l, run) && CanMove(LinkExec(role, l, run), m)
    ensures IsLinkRun(role, l, run + [m])
    ensures LinkExec(role, l, run + [m]) == MoveOn(role, LinkExec(role, l, run), m)
    decreases |run|
  {
    hide MoveOn, CanMove;
    if run == [] {
      assert [] + [m] == [m] && [m][1..] == [];
    } else {
      assert (run + [m])[0] == run[0] && (run + [m])[1..] == run[1..] + [m];
      LinkSnoc(role, MoveOn(role, l, run[0]), run[1..], m);
    }
  }

  /** All that is under way, and what is under way for one id. */
  function UnderWay(frames: seq<(nat, nat)>): nat {
    if frames == [] then 0 else frames[0].1 + UnderWay(frames[1..])
  }

  function For(frames: seq<(nat, nat)>, id: nat): nat {
    if frames == [] then 0 else (if frames[0].0 == id then frames[0].1 else 0) + For(frames[1..], id)
  }

  lemma {:induction false} UnderWayJoin(a: seq<(nat, nat)>, b: seq<(nat, nat)>, id: nat)
    ensures UnderWay(a + b) == UnderWay(a) + UnderWay(b)
    ensures For(a + b, id) == For(a, id) + For(b, id)
  {
    if a == [] {
      assert a + b == b;
    } else {
      assert (a + b)[0] == a[0] && (a + b)[1..] == a[1..] + b;
      UnderWayJoin(a[1..], b, id);
    }
  }

  lemma TaggedFor(k: nat, increment: seq<nat>, id: nat)
    requires |increment| <= 1
    ensures For(Tagged(k, increment), id) == if k == id then Sum(increment) else 0
  {
    if increment != [] {
      assert Tagged(k, increment)[1..] == [] && increment[..0] == [];
    }
  }

  lemma OneUnderWay(id: nat, length: nat, k: nat)
    ensures UnderWay([(id, length)]) == length && For([(id, length)], k) == if k == id then length else 0
  {
    assert [(id, length)][1..] == [];
  }

  // ---------------------------------------------------------------------------
  // The connection window.

  predicate Within(frames: seq<(nat, nat)>, max: nat) {
    forall i | 0 <= i < |frames| :: frames[i].1 <= max
  }

  /** The first frame of a connection fits its variable: the server's is large enough for any
      frame, the client's is what the peer was told for its streams. */
  predicate FirstFrameFits(role: Role, initial: nat) {
    role.Client? || initial >= LEGAL
  }

  /** Until something is charged, nothing but the announced windows allows the peer to send. */
  predicate Untold(role: Role, l: Link) {
    l.local.conn.received == 0 ==>
      && l.updates == [] && Within(l.data, Announced(role, l.local.conn.initial))
      && forall id | id in l.peerStreams :: l.peerStreams[id] <= Announced(role, l.local.conn.initial)
  }

  /** The variable is exact, and its distance from the peer's window is accounted for. */
  predicate ConnBooks(role: Role, initial: nat, l: Link) {
    && Steady(l.local.conn) && l.local.conn.initial == initial < UINT32
    && (l.local.conn.window <= MAX || l.local.conn.announced == [])
    && l.peer >= 0 && Within(l.data, LEGAL)
    && l.local.conn.window == l.peer + UnderWay(l.data) + For(l.updates, 0) + l.lost + initial - DEFAULT_WINDOW
    && Untold(role, l)
  }

  lemma ConnectedBooks(role: Role, initial: nat)
    requires initial < UINT32
    ensures ConnBooks(role, initial, Connected(initial))
  {
    OpenSteady(initial);
  }

  lemma {:induction false} FirstUnderWay(frames: seq<(nat, nat)>, id: nat)
    requires frames != []
    ensures UnderWay(frames) == frames[0].1 + UnderWay(frames[1..])
    ensures For(frames, id) == (if frames[0].0 == id then frames[0].1 else 0) + For(frames[1..], id)
  {
  }

  /** The new window of an exact charge. */
  lemma ChargedWindow(a: Account, length: nat)
    requires Steady(a) && Steady(Charge(a, length))
    ensures var b := Charge(a, length);
      && b.window == a.window - length + Sum(Increment(a.window, length))
      && b.initial == a.initial && b.received == a.received + length
      && (a.window <= MAX || a.announced == [] ==> b.window <= MAX || b.announced == [])
      && (b.received == 0 ==> Increment(a.window, length) == [])
  {
    SumJoin(a.announced, Increment(a.window, length));
    if Increment(a.window, length) == [] {
      assert a.announced + [] == a.announced;
    }
  }

  lemma SumJoin(s: seq<nat>, t: seq<nat>)
    requires |t| <= 1
    ensures Sum(s + t) == Sum(s) + Sum(t)
  {
    if t == [] {
      assert s + t == s;
    } else {
      SumSnoc(s, t[0]);
      assert s + t == s + [t[0]];
      assert t[..0] == [];
    }
  }

  lemma AnswersFor(s: State, id: nat, length: nat, k: nat)
    requires id in s.streams
    ensures For(Answers(s, id, length), k) ==
      (if k == 0 then Sum(Increment(s.conn.window, length)) else 0) +
      (if k == id then Sum(Increment(s.streams[id].window, length)) else 0)
  {
    var a := Tagged(0, Increment(s.conn.window, length));
    var b := Tagged(id, Increment(s.streams[id].window, length));
    UnderWayJoin(a, b, k);
    TaggedFor(0, Increment(s.conn.window, length), k);
    TaggedFor(id, Increment(s.streams[id].window, length), k);
  }

  lemma ArrivalBooks(role: Role, initial: nat, l: Link)
    requires ConnBooks(role, initial, l) && FirstFrameFits(role, initial) && l.data != [] && StreamsBegun(l)
    ensures ConnBooks(role, initial, MoveOn(role, l, DataArrives))
  {
    hide Sum, UnderWay, For, Increment, Steady, Charge, Answers;
    var (id, length) := l.data[0];
    assert l.data[0].0 == id && l.data[0].1 == length;
    assert Within(l.data[1..], LEGAL) && length <= LEGAL;
    FirstUnderWay(l.data, 0);
    if Charges(l.local, id) {
      ChargedStreams(role, l, id, length);
      var a := l.local.conn;
      assert a.received == 0 ==> length <= initial by {
        assert a.received == 0 && role.Client? ==> Within(l.data, initial);
      }
      assert Steady(Charge(a, length)) by { SteadyCharge(a, length); }
      ChargedWindow(a, length);
      AnswersFor(l.local, id, length, 0);
      UnderWayJoin(l.updates, Answers(l.local, id, length), 0);
      NoAnswerToNothing(l.local, id, length);
      assert l.local.conn.received + length == 0 ==> l.updates + [] == [];
    }
  }

  lemma SteadyCharge(a: Account, length: nat)
    requires Steady(a) && length <= LEGAL && a.initial < UINT32 && (a.received == 0 ==> length <= a.initial)
    ensures Steady(Charge(a, length))
  {
    ChargeKeeps(a, length);
  }

  /** Streams are never 0, and those open here are known to the peer. */
  predicate StreamsBegun(l: Link) {
    && l.local.streams.Keys <= l.peerStreams.Keys && 0 !in l.peerStreams
    && (forall i | 0 <= i < |l.data| :: l.data[i].0 in l.peerStreams)
    && (forall i | 0 <= i < |l.updates| :: l.updates[i].0 == 0 || l.updates[i].0 in l.peerStreams)
  }

  lemma NoAnswerToNothing(s: State, id: nat, length: nat)
    requires id in s.streams
    ensures length == 0 ==> Answers(s, id, length) == []
  {
  }

  lemma MoveBooks(role: Role, initial: nat, l: Link, m: Move)
    requires ConnBooks(role, initial, l) && FirstFrameFits(role, initial) && CanMove(l, m) && StreamsBegun(l)
    ensures ConnBooks(role, initial, MoveOn(role, l, m))
  {
    hide Sum, Steady, Increment;
    match m
    case Opens(id) =>
    case Closes(id) =>
    case PeerSends(id, length) =>
      UnderWayJoin(l.data, [(id, length)], 0);
      OneUnderWay(id, length, 0);
    case DataArrives => ArrivalBooks(role, initial, l);
    case UpdateArrives => FirstUnderWay(l.updates, 0);
  }

  lemma MoveBegun(role: Role, l: Link, m: Move)
    requires StreamsBegun(l) && CanMove(l, m)
    ensures StreamsBegun(MoveOn(role, l, m)) && l.lost <= MoveOn(role, l, m).lost
  {
    hide Increment, Charge;
  }

  lemma {:induction false} BooksRun(role: Role, initial: nat, l: Link, run: seq<Move>)
    requires ConnBooks(role, initial, l) && FirstFrameFits(role, initial) && StreamsBegun(l) && IsLinkRun(role, l, run)
    ensures var t := LinkExec(role, l, run); ConnBooks(role, initial, t) && StreamsBegun(t) && l.lost <= t.lost
    decreases |run|
  {
    hide ConnBooks, StreamsBegun, MoveOn, CanMove;
    if run != [] {
      MoveBooks(role, initial, l, run[0]);
      MoveBegun(role, l, run[0]);
      BooksRun(role, initial, MoveOn(role, l, run[0]), run[1..]);
    }
  }

  // ---------------------------------------------------------------------------
  // The stream windows.

  /** One stream that is open at both ends. */
  predicate StreamBook(a: Account, peer: int, data: nat, updates: nat, announced: nat) {
    Steady(a) && a.initial == DEFAULT_WINDOW && a.window == peer + data + updates + DEFAULT_WINDOW - announced
  }

  predicate StreamBooks(role: Role, l: Link) {
    && StreamsBegun(l) && Within(l.data, LEGAL)
    && (forall id | id in l.peerStreams :: l.peerStreams[id] >= 0)
    && (!l.local.closed ==> forall id | id in l.local.streams ::
          StreamBook(l.local.streams[id], l.peerStreams[id], For(l.data, id), For(l.updates, id),
                     Announced(role, l.local.conn.initial)))
    && (forall id | id in l.local.streams :: Steady(l.local.streams[id]) && l.local.streams[id].initial == DEFAULT_WINDOW)
  }

  lemma {:induction false} NothingFor(frames: seq<(nat, nat)>, id: nat)
    requires forall i | 0 <= i < |frames| :: frames[i].0 != id
    ensures For(frames, id) == 0
  {
    if frames != [] {
      NothingFor(frames[1..], id);
    }
  }

  lemma OpensStream(role: Role, l: Link, id: nat)
    requires StreamBooks(role, l) && CanMove(l, Opens(id))
    ensures StreamBooks(role, MoveOn(role, l, Opens(id)))
  {
    OpenSteady(DEFAULT_WINDOW);
    NothingFor(l.data, id);
    NothingFor(l.updates, id);
    hide For, Steady;
  }

  lemma SendsOnStream(role: Role, l: Link, id: nat, length: nat)
    requires StreamBooks(role, l) && CanMove(l, PeerSends(id, length))
    ensures StreamBooks(role, MoveOn(role, l, PeerSends(id, length)))
  {
    hide For, Steady;
    forall k ensures For(l.data + [(id, length)], k) == For(l.data, k) + (if k == id then length else 0) {
      UnderWayJoin(l.data, [(id, length)], k);
      OneUnderWay(id, length, k);
    }
  }

  lemma UpdatesStream(role: Role, l: Link)
    requires StreamBooks(role, l) && l.updates != []
    ensures StreamBooks(role, MoveOn(role, l, UpdateArrives))
  {
    hide For, Steady;
    forall k ensures For(l.updates, k) == (if l.updates[0].0 == k then l.updates[0].1 else 0) + For(l.updates[1..], k) {
      FirstUnderWay(l.updates, k);
    }
  }

  lemma ChargesStream(role: Role, l: Link)
    requires StreamBooks(role, l) && l.data != []
    ensures StreamBooks(role, MoveOn(role, l, DataArrives))
  {
    hide For, Steady, Increment, Sum, Charge;
    MoveBegun(role, l, DataArrives);
    var (id, length) := l.data[0];
    assert l.data[0].0 == id && l.data[0].1 == length <= LEGAL;
    assert Within(l.data[1..], LEGAL);
    forall k ensures For(l.data, k) == (if k == id then length else 0) + For(l.data[1..], k) {
      FirstUnderWay(l.data, k);
    }
    if Charges(l.local, id) {
      var a := l.local.streams[id];
      SteadyCharge(a, length);
      ChargedWindow(a, length);
      forall k | k != 0
        ensures For(l.updates + Answers(l.local, id, length), k) ==
          For(l.updates, k) + (if k == id then Sum(Increment(a.window, length)) else 0)
      {
        UnderWayJoin(l.updates, Answers(l.local, id, length), k);
        AnswersFor(l.local, id, length, k);
      }
      ChargeInitial(l.local.conn, length);
      ChargedStreams(role, l, id, length);
    }
  }

  /** The stream part of an arrival that is charged. */
  lemma ChargedStreams(role: Role, l: Link, id: nat, length: nat)
    requires l.data != [] && l.data[0] == (id, length) && Charges(l.local, id)
    ensures var t := MoveOn(role, l, DataArrives);
      && t.local.streams == l.local.streams[id := Charge(l.local.streams[id], length)]
      && t.local.conn == Charge(l.local.conn, length)
      && t.updates == l.updates + Answers(l.local, id, length)
      && t.data == l.data[1..] && t.peerStreams == l.peerStreams && !t.local.closed
  {
    hide Charge, Answers;
  }

  lemma MoveStreams(role: Role, l: Link, m: Move)
    requires StreamBooks(role, l) && CanMove(l, m)
    ensures StreamBooks(role, MoveOn(role, l, m))
  {
    match m
    case Opens(id) => OpensStream(role, l, id);
    case Closes(id) =>
      hide For, Steady;
    case PeerSends(id, length) => SendsOnStream(role, l, id, length);
    case DataArrives => ChargesStream(role, l);
    case UpdateArrives => UpdatesStream(role, l);
  }

  lemma {:induction false} StreamsRun(role: Role, l: Link, run: seq<Move>)
    requires StreamBooks(role, l) && IsLinkRun(role, l, run)
    ensures StreamBooks(role, LinkExec(role, l, run))
    decreases |run|
  {
    hide StreamBooks, MoveOn, CanMove;
    if run != [] {
      MoveStreams(role, l, run[0]);
      StreamsRun(role, MoveOn(role, l, run[0]), run[1..]);
    }
  }

  lemma ConnectedStreams(role: Role, initial: nat)
    ensures StreamBooks(role, Connected(initial)) && StreamsBegun(Connected(initial))
  {
  }

  // ---------------------------------------------------------------------------
  // What this means for a legal peer, for every value the variable may begin with.

  predicate AllExact(s: State) {
    Exact(s.conn) && forall id | id in s.streams :: Exact(s.streams[id])
  }

  lemma SteadyExact(a: Account)
    requires Steady(a)
    ensures Exact(a)
  {
  }

  lemma RunExact(role: Role, initial: nat, run: seq<Move>)
    requires initial < UINT32 && FirstFrameFits(role, initial) && IsLinkRun(role, Connected(initial), run)
    ensures AllExact(LinkExec(role, Connected(initial), run).local)
  {
    hide Exact, Steady, LinkExec;
    ConnectedBooks(role, initial);
    ConnectedStreams(role, initial);
    BooksRun(role, initial, Connected(initial), run);
    StreamsRun(role, Connected(initial), run);
    var s := LinkExec(role, Connected(initial), run).local;
    SteadyExact(s.conn);
    forall id | id in s.streams ensures Exact(s.streams[id]) {
      SteadyExact(s.streams[id]);
    }
  }

  /** A full frame of a peer against a smaller variable of the server: it wraps. */
  lemma FirstFrameUnderflows(initial: nat) returns (run: seq<Move>)
    requires initial < LEGAL
    ensures IsLinkRun(Server, Connected(initial), run)
    ensures !AllExact(LinkExec(Server, Connected(initial), run).local)
  {
    run := FirstRound(Server, initial);
    var l := LinkExec(Server, Connected(initial), run);
    assert !Exact(l.local.conn) by {
      assert l.local.conn.initial == initial;
    }
  }

  /** Every window variable is exact in every state of every run with a legal peer if and only
      if this is the client, whatever its variable begins with, or the variable of the server
      begins with at least 16384. */
  lemma SafeConfigurationExactly(role: Role, initial: nat)
    requires initial < UINT32
    ensures (forall run | IsLinkRun(role, Connected(initial), run) ::
               AllExact(LinkExec(role, Connected(initial), run).local))
            <==> FirstFrameFits(role, initial)
  {
    hide AllExact, IsLinkRun, LinkExec;
    if FirstFrameFits(role, initial) {
      forall run | IsLinkRun(role, Connected(initial), run)
        ensures AllExact(LinkExec(role, Connected(initial), run).local)
      {
        RunExact(role, initial, run);
      }
    } else {
      var run := FirstFrameUnderflows(initial);
    }
  }

  /** The two connection windows differ by exactly what is under way. */
  predicate InStep(l: Link) {
    l.local.conn.window == l.peer + UnderWay(l.data) + For(l.updates, 0)
  }

  predicate AlwaysInStep(role: Role, l: Link, run: seq<Move>)
    requires IsLinkRun(role, l, run)
    decreases |run|
  {
    InStep(l) && (run == [] || AlwaysInStep(role, MoveOn(role, l, run[0]), run[1..]))
  }

  lemma BooksInStep(role: Role, l: Link)
    requires ConnBooks(role, DEFAULT_WINDOW, l)
    ensures InStep(l) <==> l.lost == 0
  {
  }

  lemma {:induction false} InStepRun(role: Role, l: Link, run: seq<Move>)
    requires ConnBooks(role, DEFAULT_WINDOW, l) && StreamsBegun(l) && IsLinkRun(role, l, run)
    ensures AlwaysInStep(role, l, run) <==> LinkExec(role, l, run).lost == 0
    decreases |run|
  {
    hide ConnBooks, StreamsBegun, MoveOn, CanMove, InStep;
    BooksInStep(role, l);
    BooksRun(role, DEFAULT_WINDOW, l, run);
    if run != [] {
      MoveBooks(role, DEFAULT_WINDOW, l, run[0]);
      MoveBegun(role, l, run[0]);
      InStepRun(role, MoveOn(role, l, run[0]), run[1..]);
    }
  }

  /** Agreement.  Over every run of a legal peer, with frames under way in both directions, the
      two connection windows differ by exactly what is under way in every state, if and only if
      the variable begins with 65535 and no DATA byte arrived for a stream that is not open. */
  lemma AgreementExactly(role: Role, initial: nat, run: seq<Move>)
    requires IsLinkRun(role, Connected(initial), run)
    ensures AlwaysInStep(role, Connected(initial), run) <==>
      initial == DEFAULT_WINDOW && LinkExec(role, Connected(initial), run).lost == 0
  {
    if initial == DEFAULT_WINDOW {
      hide LinkExec, IsLinkRun;
      ConnectedBooks(role, initial);
      ConnectedStreams(role, initial);
      InStepRun(role, Connected(initial), run);
    }
  }

  // Stalling.

  predicate AtRest(l: Link) {
    l.data == [] && l.updates == []
  }

  /** Nothing is under way, and there is an open stream on which the peer may send nothing. */
  predicate Stalled(l: Link) {
    AtRest(l) && exists id | id in l.local.streams && id in l.peerStreams :: l.peer == 0 || l.peerStreams[id] == 0
  }

  /** What is left to the peer at rest, for any beginning that the first frame fits. */
  lemma PeerAtRest(role: Role, initial: nat, run: seq<Move>)
    requires initial < UINT32 && FirstFrameFits(role, initial) && IsLinkRun(role, Connected(initial), run)
    ensures var l := LinkExec(role, Connected(initial), run);
      AtRest(l) ==>
        && l.peer == l.local.conn.window - (initial - DEFAULT_WINDOW) - l.lost
        && (!l.local.closed ==> forall id | id in l.local.streams ::
              id in l.peerStreams &&
              l.peerStreams[id] == l.local.streams[id].window - (DEFAULT_WINDOW - Announced(role, initial)))
  {
    hide Steady, LinkExec;
    ConnectedBooks(role, initial);
    ConnectedStreams(role, initial);
    BooksRun(role, initial, Connected(initial), run);
    StreamsRun(role, Connected(initial), run);
  }

  /** Beginnings from which a legal peer always gets on. */
  predicate KeepsGoing(role: Role, initial: nat) {
    (if role.Server? then LEGAL else 1) <= initial < MAX / 4 + DEFAULT_WINDOW
  }

  lemma SteadyWindow(a: Account)
    requires Steady(a)
    ensures a.window >= (if a.received == 0 then a.initial else MAX / 4)
    ensures a.received == 0 ==> a.window == a.initial
  {
  }

  lemma GetsOn(role: Role, initial: nat, run: seq<Move>)
    requires KeepsGoing(role, initial) && IsLinkRun(role, Connected(initial), run)
    requires LinkExec(role, Connected(initial), run).lost == 0
    ensures !Stalled(LinkExec(role, Connected(initial), run)) || LinkExec(role, Connected(initial), run).local.closed
  {
    hide Steady, LinkExec, IsLinkRun;
    var l := LinkExec(role, Connected(initial), run);
    PeerAtRest(role, initial, run);
    ConnectedBooks(role, initial);
    ConnectedStreams(role, initial);
    BooksRun(role, initial, Connected(initial), run);
    StreamsRun(role, Connected(initial), run);
    SteadyWindow(l.local.conn);
    if AtRest(l) && !l.local.closed {
      assert l.peer > 0;
      forall id | id in l.local.streams ensures l.peerStreams[id] > 0 {
        SteadyWindow(l.local.streams[id]);
      }
    }
  }

  /** `n` bytes sent on stream 1 and charged, without an update for the connection. */
  predicate Drained(role: Role, initial: nat, l: Link, n: nat) {
    && !l.local.closed && l.lost == 0 && l.data == []
    && l.local.conn.initial == initial && l.local.conn.received == n && l.local.conn.announced == []
    && l.local.conn.window == Minus(initial, n) && l.peer == DEFAULT_WINDOW - n
    && l.local.streams.Keys == {1} == l.peerStreams.Keys
    && l.peerStreams[1] == Announced(role, initial) - n
    && l.local.streams[1].window == (if n == 0 then DEFAULT_WINDOW else MAX - (n - LEGAL))
    && l.updates == if n == 0 then [] else [(1, MAX - (DEFAULT_WINDOW - LEGAL))]
  }

  lemma StreamOpened(role: Role, initial: nat)
    ensures IsLinkRun(role, Connected(initial), [Opens(1)])
    ensures initial < UINT32 ==> Drained(role, initial, LinkExec(role, Connected(initial), [Opens(1)]), 0)
  {
    var l := Connected(initial);
    assert [Opens(1)][1..] == [];
    var t := MoveOn(role, l, Opens(1));
    assert LinkExec(role, t, []) == t;
  }

  lemma MinusMinus(window: nat, a: nat, b: nat)
    requires window < UINT32 && a + b <= DEFAULT_WINDOW
    ensures Minus(Minus(window, a), b) == Minus(window, a + b)
  {
    MinusFits(window, a);
    MinusFits(window, a + b);
    MinusFits(Minus(window, a), b);
  }

  /** One more frame, for which the connection is not answered. */
  lemma DrainRound(role: Role, initial: nat, run: seq<Move>, n: nat, length: nat) returns (longer: seq<Move>)
    requires initial < UINT32 && IsLinkRun(role, Connected(initial), run)
    requires Drained(role, initial, LinkExec(role, Connected(initial), run), n)
    requires 0 < length <= LEGAL && n + length <= DEFAULT_WINDOW && n + length <= Announced(role, initial)
    requires Minus(initial, n + length) >= MAX / 4 && (n == 0 ==> length == LEGAL) && (n > 0 ==> n >= LEGAL)
    ensures IsLinkRun(role, Connected(initial), longer)
    ensures Drained(role, initial, LinkExec(role, Connected(initial), longer), n + length)
  {
    hide IsLinkRun, LinkExec;
    var l := LinkExec(role, Connected(initial), run);
    LinkSnoc(role, Connected(initial), run, PeerSends(1, length));
    var m := MoveOn(role, l, PeerSends(1, length));
    LinkSnoc(role, Connected(initial), run + [PeerSends(1, length)], DataArrives);
    longer := run + [PeerSends(1, length)] + [DataArrives];
    MinusMinus(initial, n, length);
    MinusFits(l.local.streams[1].window, length);
    ChargedStreams(role, m, 1, length);
  }

  lemma FirstRound(role: Role, initial: nat) returns (run: seq<Move>)
    requires initial < UINT32 && LEGAL <= Announced(role, initial) && Minus(initial, LEGAL) >= MAX / 4
    ensures IsLinkRun(role, Connected(initial), run)
    ensures Drained(role, initial, LinkExec(role, Connected(initial), run), LEGAL)
  {
    StreamOpened(role, initial);
    hide IsLinkRun, LinkExec, Drained;
    run := DrainRound(role, initial, [Opens(1)], 0, LEGAL);
  }

  /** All of the peer's 65535 bytes are charged and none is answered. */
  lemma DrainsAll(role: Role, initial: nat) returns (run: seq<Move>)
    requires initial < UINT32 && DEFAULT_WINDOW <= Announced(role, initial)
    requires forall n | LEGAL <= n <= DEFAULT_WINDOW :: Minus(initial, n) >= MAX / 4
    ensures IsLinkRun(role, Connected(initial), run)
    ensures var l := LinkExec(role, Connected(initial), run); Stalled(l) && l.lost == 0 && !l.local.closed
  {
    hide IsLinkRun, LinkExec;
    run := FirstRound(role, initial);
    assert Drained(role, initial, LinkExec(role, Connected(initial), run), LEGAL);
    hide Drained, Minus;
    run := DrainRound(role, initial, run, LEGAL, LEGAL);
    run := DrainRound(role, initial, run, 2 * LEGAL, LEGAL);
    run := DrainRound(role, initial, run, 3 * LEGAL, LEGAL - 1);
    run := LastAnswer(role, initial, run);
  }

  lemma LastAnswer(role: Role, initial: nat, run: seq<Move>) returns (longer: seq<Move>)
    requires initial < UINT32 && IsLinkRun(role, Connected(initial), run)
    requires Drained(role, initial, LinkExec(role, Connected(initial), run), DEFAULT_WINDOW)
    ensures IsLinkRun(role, Connected(initial), longer)
    ensures var l := LinkExec(role, Connected(initial), longer); Stalled(l) && l.lost == 0 && !l.local.closed
  {
    hide IsLinkRun, LinkExec;
    LinkSnoc(role, Connected(initial), run, UpdateArrives);
    longer := run + [UpdateArrives];
    var l := LinkExec(role, Connected(initial), longer);
    assert 1 in l.local.streams && 1 in l.peerStreams && l.peer == 0;
  }

  lemma Stalls(role: Role, initial: nat) returns (run: seq<Move>)
    requires initial < UINT32 && !KeepsGoing(role, initial)
    ensures IsLinkRun(role, Connected(initial), run)
    ensures var l := LinkExec(role, Connected(initial), run); Stalled(l) && l.lost == 0 && !l.local.closed
  {
    if role.Client? && initial == 0 {
      StreamOpened(role, initial);
      run := [Opens(1)];
      var l := LinkExec(role, Connected(initial), run);
      assert 1 in l.local.streams && 1 in l.peerStreams && l.peerStreams[1] == 0;
    } else {
      forall n | LEGAL <= n <= DEFAULT_WINDOW ensures Minus(initial, n) >= MAX / 4 {
        MinusFits(initial, n);
      }
      run := DrainsAll(role, initial);
    }
  }

  /** As long as no DATA byte is lost and the connection is not ended, a legal peer is never
      stalled, in any state of any run, if and only if the variable begins below MAX/4 + 65535,
      and with at least 16384 on the server or 1 on the client. */
  lemma NeverStalledExactly(role: Role, initial: nat)
    requires initial < UINT32
    ensures (forall run | IsLinkRun(role, Connected(initial), run) ::
               var l := LinkExec(role, Connected(initial), run); l.lost == 0 && !l.local.closed ==> !Stalled(l))
            <==> KeepsGoing(role, initial)
  {
    hide IsLinkRun, LinkExec, Stalled;
    if KeepsGoing(role, initial) {
      forall run | IsLinkRun(role, Connected(initial), run)
        ensures var l := LinkExec(role, Connected(initial), run); l.lost == 0 && !l.local.closed ==> !Stalled(l)
      {
        if LinkExec(role, Connected(initial), run).lost == 0 {
          GetsOn(role, initial, run);
        }
      }
    } else {
      var run := Stalls(role, initial);
    }
  }

  /** The client keeps its variable when it connects again.  With default settings, a first
      connection on which one byte was received leaves MAX, and a legal peer of the second
      connection can be stalled. */
  lemma ReconnectStalls() returns (first: seq<Move>, second: seq<Move>)
    ensures IsLinkRun(Client, Connected(DEFAULT_WINDOW), first)
    ensures var left := LinkExec(Client, Connected(DEFAULT_WINDOW), first).local.conn.window;
      && left == MAX && IsLinkRun(Client, Connected(left), second)
      && var l := LinkExec(Client, Connected(left), second); Stalled(l) && l.lost == 0 && !l.local.closed
  {
    first := OneByte(Client, DEFAULT_WINDOW);
    second := Stalls(Client, MAX);
  }

  /** One byte on stream 1: below a quarter of the maximum, the connection is answered. */
  lemma OneByte(role: Role, initial: nat) returns (run: seq<Move>)
    requires 0 < initial < UINT32 && Announced(role, initial) > 0
    ensures IsLinkRun(role, Connected(initial), run)
    ensures var l := LinkExec(role, Connected(initial), run);
      && l.local.conn.window == (if initial - 1 < MAX / 4 then MAX else initial - 1)
      && l.peer == DEFAULT_WINDOW - 1 && l.peerStreams == map[1 := Announced(role, initial) - 1]
      && l.updates == (if initial - 1 < MAX / 4 then [(0, MAX - (initial - 1))] else []) + [(1, MAX - (DEFAULT_WINDOW - 1))]
  {
    StreamOpened(role, initial);
    var start := Connected(initial);
    var l := LinkExec(role, start, [Opens(1)]);
    hide IsLinkRun, LinkExec;
    LinkSnoc(role, start, [Opens(1)], PeerSends(1, 1));
    var m := MoveOn(role, l, PeerSends(1, 1));
    LinkSnoc(role, start, [Opens(1)] + [PeerSends(1, 1)], DataArrives);
    run := [Opens(1)] + [PeerSends(1, 1)] + [DataArrives];
    MinusFits(initial, 1);
    MinusFits(DEFAULT_WINDOW, 1);
    ChargedStreams(role, m, 1, 1);
  }

  // Overflow at the peer.

  /** No window at the peer is above the maximum, which it must treat as an error (section
      6.9.1 of RFC 7540). */
  predicate NoOverflow(l: Link) {
    l.peer <= MAX && forall id | id in l.peerStreams :: l.peerStreams[id] <= MAX
  }

  /** With what is still under way. */
  predicate StreamsBounded(l: Link) {
    forall id | id in l.peerStreams :: l.peerStreams[id] + For(l.updates, id) <= MAX
  }

  lemma MoveBounded(role: Role, l: Link, m: Move)
    requires StreamBooks(role, l) && StreamsBounded(l) && CanMove(l, m)
    requires Announced(role, l.local.conn.initial) <= DEFAULT_WINDOW
    ensures StreamsBounded(MoveOn(role, l, m))
  {
    hide Steady, For;
    MoveStreams(role, l, m);
    match m
    case Opens(id) => NothingFor(l.updates, id);
    case Closes(id) =>
    case PeerSends(id, length) =>
    case DataArrives =>
      var (id, length) := l.data[0];
      assert l.data[0].0 == id && l.data[0].1 == length;
      if Charges(l.local, id) {
        ChargedStreams(role, l, id, length);
        var t := MoveOn(role, l, DataArrives);
        ChargeInitial(l.local.conn, length);
        assert t.local.conn.initial == l.local.conn.initial;
        forall k | k in t.peerStreams ensures t.peerStreams[k] + For(t.updates, k) <= MAX {
          if k == id {
            SteadyMax(t.local.streams[id]);
          } else {
            UnderWayJoin(l.updates, Answers(l.local, id, length), k);
            AnswersFor(l.local, id, length, k);
          }
        }
      }
    case UpdateArrives =>
      forall k ensures For(l.updates, k) == (if l.updates[0].0 == k then l.updates[0].1 else 0) + For(l.updates[1..], k) {
        FirstUnderWay(l.updates, k);
      }
  }

  lemma SteadyMax(a: Account)
    requires Steady(a) && a.initial <= MAX
    ensures a.window <= MAX
  {
  }

  lemma InitialStays(role: Role, l: Link, m: Move)
    requires CanMove(l, m)
    ensures MoveOn(role, l, m).local.conn.initial == l.local.conn.initial
  {
  }

  lemma {:induction false} BoundedRun(role: Role, l: Link, run: seq<Move>)
    requires StreamBooks(role, l) && StreamsBounded(l) && IsLinkRun(role, l, run)
    requires Announced(role, l.local.conn.initial) <= DEFAULT_WINDOW
    ensures StreamsBounded(LinkExec(role, l, run))
    decreases |run|
  {
    hide StreamBooks, StreamsBounded, MoveOn, CanMove;
    if run != [] {
      MoveStreams(role, l, run[0]);
      MoveBounded(role, l, run[0]);
      InitialStays(role, l, run[0]);
      BoundedRun(role, MoveOn(role, l, run[0]), run[1..]);
    }
  }

  /** Beginnings from which no window at the peer overflows; the server's is never 0. */
  predicate StaysBelowMax(role: Role, initial: nat) {
    if role.Server? then initial >= DEFAULT_WINDOW else initial == DEFAULT_WINDOW || initial == 0
  }

  lemma {:induction false} SilentClient(l: Link, run: seq<Move>)
    requires IsLinkRun(Client, l, run) && l.local.conn.initial == 0 && l.peer == DEFAULT_WINDOW
    requires (forall id | id in l.peerStreams :: l.peerStreams[id] == 0) && Within(l.data, 0) && l.updates == []
    ensures NoOverflow(LinkExec(Client, l, run))
    decreases |run|
  {
    if run != [] {
      InitialStays(Client, l, run[0]);
      if run[0].DataArrives? {
        var (id, length) := l.data[0];
        assert l.data[0].1 == length == 0;
      }
      SilentClient(MoveOn(Client, l, run[0]), run[1..]);
    }
  }

  lemma BelowMax(role: Role, initial: nat, run: seq<Move>)
    requires initial < UINT32 && StaysBelowMax(role, initial) && IsLinkRun(role, Connected(initial), run)
    ensures NoOverflow(LinkExec(role, Connected(initial), run))
  {
    if initial == 0 {
      SilentClient(Connected(initial), run);
    } else {
      hide LinkExec, IsLinkRun;
      var l := LinkExec(role, Connected(initial), run);
      ConnectedBooks(role, initial);
      ConnectedStreams(role, initial);
      BooksRun(role, initial, Connected(initial), run);
      BoundedRun(role, Connected(initial), run);
      if l.local.conn.announced == [] {
        assert l.local.conn.window <= initial;
      }
    }
  }

  lemma Overflows(role: Role, initial: nat) returns (run: seq<Move>)
    requires 0 < initial < UINT32 && !StaysBelowMax(role, initial)
    ensures IsLinkRun(role, Connected(initial), run) && !NoOverflow(LinkExec(role, Connected(initial), run))
  {
    hide IsLinkRun, LinkExec;
    var start := Connected(initial);
    run := OneByte(role, initial);
    var l := LinkExec(role, start, run);
    LinkSnoc(role, start, run, UpdateArrives);
    var t := MoveOn(role, l, UpdateArrives);
    run := run + [UpdateArrives];
    if initial >= DEFAULT_WINDOW && initial - 1 < MAX / 4 {
      LinkSnoc(role, start, run, UpdateArrives);
      run := run + [UpdateArrives];
    }
    var u := LinkExec(role, start, run);
    assert initial >= DEFAULT_WINDOW ==> 1 in u.peerStreams && u.peerStreams[1] > MAX;
  }

  /** No window at a legal peer ever exceeds the maximum if and only if the variable begins with
      at least 65535 on the server, or exactly 65535, or 0 and nothing can be sent, on the
      client. */
  lemma NoOverflowExactly(role: Role, initial: nat)
    requires initial < UINT32 && (role.Server? ==> initial > 0)
    ensures (forall run | IsLinkRun(role, Connected(initial), run) ::
               NoOverflow(LinkExec(role, Connected(initial), run)))
            <==> StaysBelowMax(role, initial)
  {
    hide IsLinkRun, LinkExec, NoOverflow;
    if StaysBelowMax(role, initial) {
      forall run | IsLinkRun(role, Connected(initial), run)
        ensures NoOverflow(LinkExec(role, Connected(initial), run))
      {
        BelowMax(role, initial, run);
      }
    } else {
      var run := Overflows(role, initial);
    }
  }

  /** The window part of the DATA case of the frame parsers. */
  class Receiver {
    const role: Role
    var connWindow: nat
    var streamWindows: map<nat, nat>
    var updates: seq<(nat, nat)>       // WINDOW_UPDATE frames sent: stream id and increment
    ghost var state: State

    ghost predicate Valid()
      reads this
    {
      && !state.closed
      && connWindow == state.conn.window
      && streamWindows.Keys == state.streams.Keys
      && forall id | id in streamWindows :: streamWindows[id] == state.streams[id].window
    }

    constructor (role: Role, initial: nat)
      requires initial < UINT32
      ensures Valid() && state == Init(initial) && Inv(state) && updates == [] && this.role == role
    {
      this.role, connWindow, streamWindows, updates, state := role, initial, map[], [], Init(initial);
    }

    /** HEADERS of a stream: a new one begins with the default window. */
    method OnOpen(id: nat)
      requires Valid()
      modifies this`streamWindows, this`state
      ensures Valid() && state == Next(role, old(state), OpenStream(id))
      ensures streamWindows == if id in old(streamWindows) then old(streamWindows) else old(streamWindows)[id := 65535]
    {
      if id !in streamWindows {
        streamWindows := streamWindows[id := DEFAULT_WINDOW];
      }
      state := Next(role, state, OpenStream(id));
    }

    method OnClose(id: nat)
      requires Valid()
      modifies this`streamWindows, this`state
      ensures Valid() && state == Next(role, old(state), CloseStream(id))
      ensures streamWindows == old(streamWindows) - {id}
    {
      streamWindows := streamWindows - {id};
      state := Next(role, state, CloseStream(id));
    }

    /** Charge one window and announce what is needed. */
    method ChargeOne(id: nat, window: nat, length: nat) returns (w: nat)
      modifies this`updates
      ensures w == After(window, length)
      ensures updates == old(updates) + Tagged(id, Increment(window, length))
    {
      w := (window - length) % UINT32;
      if length > 0 && w < MAX / 4 {
        updates := updates + [(id, MAX - w)];
        w := MAX;
      }
    }

    /** Both windows of a DATA frame.  A frame of an unknown stream charges nothing; it ends the
        connection on the server and is skipped on the client. */
    method OnData(id: nat, length: nat) returns (found: bool)
      requires Valid()
      modifies this
      ensures found == (id in old(streamWindows))
      ensures state == Next(role, old(state), Data(id, length))
      ensures found || role.Client? ==> Valid()
      ensures Inv(old(state)) && Obeys(old(state), Data(id, length)) ==> Inv(state)
      ensures updates == if !found then old(updates)
        else old(updates) + Tagged(0, Increment(old(connWindow), length)) + Tagged(id, Increment(old(streamWindows)[id], length))
    {
      if Inv(state) && Obeys(state, Data(id, length)) {
        StepKeeps(role, state, Data(id, length));
      }
      hide Inv, Obeys;
      state := Next(role, state, Data(id, length));
      found := id in streamWindows;
      if found {
        connWindow := ChargeOne(0, connWindow, length);
        var w := ChargeOne(id, streamWindows[id], length);
        streamWindows := streamWindows[id := w];
      }
    }
  }

  /** The WINDOW_UPDATE frames for an increment on a stream. */
  function Tagged(id: nat, increment: seq<nat>): seq<(nat, nat)> {
    if increment == [] then [] else [(id, increment[0])]
  }
}
