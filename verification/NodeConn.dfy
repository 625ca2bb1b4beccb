/** The agent's reference-counted connection to the server. */
module NodeConn {
  import opened Types

  /** What Go's int32 holds after arithmetic that gives x. */
  const WORD := 0x1_0000_0000

  function Wrap(x: int): int {
    (x + 0x8000_0000) % WORD - 0x8000_0000
  }

  /** A 32-bit number that differs from x by a multiple of 2^32. */
  lemma WrapExactly(x: int)
    ensures -2_147_483_648 <= Wrap(x) < 2_147_483_648 && (x - Wrap(x)) % 4_294_967_296 == 0
  {
  }

  /** A connection with its reference count: whether `conn` is still set, the count, and how often Close has been
      called. */
  datatype Counted = Counted(open: bool, refcount: int, closes: nat)

  function AddedRef(c: Counted): Counted {
    c.(refcount := Wrap(c.refcount + 1))
  }

  function ReleasedRef(c: Counted): Counted {
    var n := Wrap(c.refcount - 1);
    if n == 0 && c.open then Counted(false, n, c.closes + 1) else c.(refcount := n)
  }

  class GrpcConn {
    var closes: nat

    constructor ()
      ensures closes == 0
    {
      closes := 0;
    }

    method Close()
      modifies this
      ensures closes == old(closes) + 1
    {
      closes := closes + 1;
    }
  }

  class NodeConn {
    var conn: GrpcConn?
    var refcount: int
    ghost const socket: GrpcConn

    ghost predicate Valid() reads this {
      conn == null || conn == socket
    }

    ghost function View(): Counted reads this, socket {
      Counted(conn != null, refcount, socket.closes)
    }

    constructor (conn: GrpcConn)
      ensures Valid() && this.conn == socket == conn && refcount == 1
    {
      this.conn, refcount, socket := conn, 1, conn;
    }

    method AddRef()
      requires Valid()
      modifies this
      ensures Valid() && View() == AddedRef(old(View())) && conn == old(conn)
    {
      refcount := Wrap(refcount + 1);
    }

    method Release()
      requires Valid()
      modifies this, socket
      ensures Valid() && View() == ReleasedRef(old(View()))
    {
      refcount := Wrap(refcount - 1);
      if refcount == 0 && conn != null {
        conn.Close();
        conn := null;
      }
    }
  }

  /** The client's current connection, shared by its callers. */
  class Client {
    var connections: NodeConn?

    /** None when a connection has to be opened and `dialed`, the outcome of opening one, is an error. */
    method GetOrOpenConn(dialed: Option<GrpcConn>) returns (r: Option<NodeConn>)
      requires connections != null ==> connections.Valid()
      modifies this, connections
      ensures r.None? <==> old(connections) == null && dialed.None?
      ensures r.None? ==> connections == null
      ensures r.Some? ==> connections == r.value && r.value.Valid()
      ensures r.Some? && old(connections) == null ==>
                fresh(r.value) && r.value.socket == dialed.value &&
                    r.value.View() == Counted(true, 2, dialed.value.closes)
      ensures r.Some? && old(connections) != null ==>
                connections == old(connections) && r.value.View() == AddedRef(old(connections.View()))
    {
      if connections == null {
        if dialed.None? {
          return None;
        }
        connections := new NodeConn(dialed.value);
      }
      connections.AddRef();
      r := Some(connections);
    }

    /** Gives up the current connection when it is the one named, or when none is named. */
    method Release(conn: NodeConn?)
      requires connections != null ==> connections.Valid()
      modifies this, connections, if connections == null then {} else {connections.socket}
      ensures var was := old(connections);
              if was != null && (conn == null || conn == was)
              then connections == null && was.View() == ReleasedRef(old(connections.View()))
              else connections == was && (was != null ==> was.View() == old(connections.View()))
    {
      if connections != null && (conn == null || conn == connections) {
        connections.Release();
        connections := null;
      }
    }
  }
}

/** Every interleaving of the client's callers. A step is what runs between two points where another caller may come in:
    the client's mutex guards `current`, each connection's own mutex guards its count. */
module ConnProtocol {
  import opened Types
  import opened Collections
  import opened NodeConn

  /** Where a call stands: outside the client's mutex; inside getOrOpenConn, before and after it adds its reference;
      inside release, before and after it gives up the client's reference. */
  datatype Pc = Out | Opening | Opened | Releasing | Released

  datatype Call = Call(holds: Option<nat>, pc: Pc)

  datatype World = World(conns: seq<Counted>, current: Option<nat>, mutex: Option<nat>, calls: map<nat, Call>)

  datatype Step =
    | Open(t: nat, dialed: bool)
    | AddRef(t: nat)
    | Unlock(t: nat)
    | Drop(t: nat, conn: Option<nat>)
    | DropRef(t: nat)
    | Clear(t: nat)
    | Release(t: nat)

  predicate Enabled(w: World, s: Step) {
    s.t in w.calls &&
    var call := w.calls[s.t];
    match s
    case Open(_, _) => w.mutex.None? && call == Call(None, Out)
    case AddRef(_) => call.pc == Opening && w.current.Some? && w.current.value < |w.conns|
    case Unlock(_) => call.pc == Opened
    case Drop(_, _) => w.mutex.None? && call.pc == Out
    case DropRef(_) => call.pc == Releasing && w.current.Some? && w.current.value < |w.conns|
    case Clear(_) => call.pc == Released
    case Release(_) => call.pc == Out && call.holds.Some? && call.holds.value < |w.conns|
  }

  function Apply(w: World, s: Step): World
    requires Enabled(w, s)
  {
    var t, call := s.t, w.calls[s.t];
    match s
    case Open(_, dialed) =>
      if w.current.Some? then
        w.(mutex := Some(t), calls := w.calls[t := call.(pc := Opening)])
      else if dialed then
        w.(conns := w.conns + [Counted(true, 1, 0)], current := Some(|w.conns|), mutex := Some(t),
           calls := w.calls[t := call.(pc := Opening)])
      else w
    case AddRef(_) =>
      var c := w.current.value;
      w.(conns := w.conns[c := AddedRef(w.conns[c])], calls := w.calls[t := Call(Some(c), Opened)])
    case Unlock(_) => w.(mutex := None, calls := w.calls[t := call.(pc := Out)])
    case Drop(_, conn) =>
      if w.current.Some? && (conn.None? || conn == w.current)
      then w.(mutex := Some(t), calls := w.calls[t := call.(pc := Releasing)])
      else w
    case DropRef(_) =>
      var c := w.current.value;
      w.(conns := w.conns[c := ReleasedRef(w.conns[c])], calls := w.calls[t := call.(pc := Released)])
    case Clear(_) => w.(current := None, mutex := None, calls := w.calls[t := call.(pc := Out)])
    case Release(_) =>
      var c := call.holds.value;
      w.(conns := w.conns[c := ReleasedRef(w.conns[c])], calls := w.calls[t := call.(holds := None)])
  }

  predicate Init(w: World) {
    w.conns == [] && w.current.None? && w.mutex.None? && forall t :: t in w.calls ==> w.calls[t] == Call(None, Out)
  }

  function Run(w: World, steps: seq<Step>): Option<World>
    decreases |steps|
  {
    if steps == [] then Some(w)
    else if Enabled(w, steps[0]) then Run(Apply(w, steps[0]), steps[1..])
    else None
  }

  /** The calls that hold connection c. */
  function Holders(calls: map<nat, Call>, c: nat): set<nat> {
    set t | t in calls && calls[t].holds == Some(c)
  }

  /** The client's own reference to c: until release has given it up. */
  predicate ClientHolds(w: World, c: nat) {
    w.current == Some(c) && !(w.mutex.Some? && w.mutex.value in w.calls && w.calls[w.mutex.value].pc == Released)
  }

  function Count(w: World, c: nat): nat {
    |Holders(w.calls, c)| + if ClientHolds(w, c) then 1 else 0
  }

  /** The mutex excludes, and what is referred to exists. */
  ghost predicate Shape(w: World) {
    && (forall t :: t in w.calls ==> (w.calls[t].pc != Out <==> w.mutex == Some(t)))
    && (w.mutex.Some? ==> w.mutex.value in w.calls && w.current.Some?)
    && (w.current.Some? ==> w.current.value < |w.conns|)
    && (forall t :: t in w.calls && w.calls[t].holds.Some? ==> w.calls[t].holds.value < |w.conns|)
    && (forall t :: t in w.calls && w.calls[t].pc == Opening ==> w.calls[t].holds.None?)
  }

  ghost predicate CountsAgree(w: World) {
    forall c :: 0 <= c < |w.conns| ==> w.conns[c].refcount == Wrap(Count(w, c))
  }

  ghost predicate ClosedAtZero(w: World) {
    forall c :: 0 <= c < |w.conns| ==>
      (w.conns[c].open <==> Count(w, c) > 0) && w.conns[c].closes == if w.conns[c].open then 0 else 1
  }

  lemma OneMember(a: set<nat>, t: nat)
    ensures |a| == |a - {t}| + if t in a then 1 else 0
  {
    assert a == if t in a then (a - {t}) + {t} else a - {t};
  }

  lemma HoldersChange(calls: map<nat, Call>, t: nat, call: Call, c: nat)
    requires t in calls
    ensures |Holders(calls[t := call], c)| + (if calls[t].holds == Some(c) then 1 else 0)
         == |Holders(calls, c)| + (if call.holds == Some(c) then 1 else 0)
  {
    var a, b := Holders(calls, c), Holders(calls[t := call], c);
    OneMember(a, t);
    OneMember(b, t);
    assert a - {t} == b - {t} by {
      assert forall x :: x in a - {t} <==> x in b - {t};
    }
  }

  /** How one step moves the true count of a connection. */
  function Moved(w: World, s: Step, c: nat): int
    requires Enabled(w, s)
  {
    match s
    case AddRef(_) => if w.current == Some(c) then 1 else 0
    case DropRef(_) => if w.current == Some(c) then -1 else 0
    case Release(t) => if w.calls[t].holds == Some(c) then -1 else 0
    case _ => 0
  }

  lemma StepKeepsShape(w: World, s: Step)
    requires Shape(w) && Enabled(w, s)
    ensures Shape(Apply(w, s))
  {
  }

  lemma CountMoves(w: World, s: Step, c: nat)
    requires Shape(w) && Enabled(w, s) && c < |w.conns|
    ensures Count(Apply(w, s), c) == Count(w, c) + Moved(w, s, c)
  {
    var w' := Apply(w, s);
    HoldersChange(w.calls, s.t, w'.calls[s.t], c);
    assert w'.calls == w.calls[s.t := w'.calls[s.t]];
  }

  /** A new connection is held by the client alone. */
  lemma NewCount(w: World, s: Step)
    requires Shape(w) && Enabled(w, s) && |Apply(w, s).conns| > |w.conns|
    ensures Count(Apply(w, s), |w.conns|) == 1
  {
    assert Holders(Apply(w, s).calls, |w.conns|) == {};
  }

  lemma WrapMoves(x: int, d: int)
    ensures Wrap(Wrap(x) + d) == Wrap(x + d)
  {
  }

  /** Whatever the number of callers, the stored count is the true count up to wrap-around. */
  lemma StepKeepsCounts(w: World, s: Step)
    requires Shape(w) && CountsAgree(w) && Enabled(w, s)
    ensures CountsAgree(Apply(w, s))
  {
    var w' := Apply(w, s);
    forall c | 0 <= c < |w'.conns| ensures w'.conns[c].refcount == Wrap(Count(w', c)) {
      if c < |w.conns| {
        CountMoves(w, s, c);
        WrapMoves(Count(w, c), Moved(w, s, c));
      } else {
        NewCount(w, s);
      }
    }
  }

  lemma CountIsBounded(w: World, c: nat)
    ensures Count(w, c) <= |w.calls| + 1
  {
    assert Holders(w.calls, c) <= w.calls.Keys;
    SubsetIsSmaller(Holders(w.calls, c), w.calls.Keys);
  }

  /** Giving up a reference closes the connection exactly when it was the last. */
  lemma ReleaseCloses(conn: Counted, n: nat)
    requires 1 <= n <= WORD && conn == Counted(true, Wrap(n), 0)
    ensures var r := ReleasedRef(conn); (r.open <==> n > 1) && r.closes == if r.open then 0 else 1
  {
    WrapMoves(n, -1);
  }

  ghost predicate ClosedRight(conn: Counted, n: nat) {
    (conn.open <==> n > 0) && conn.closes == if conn.open then 0 else 1
  }

  /** What a step does to a connection there was. */
  lemma ConnMoves(w: World, s: Step, c: nat)
    requires Shape(w) && Enabled(w, s) && c < |w.conns|
    ensures c < |Apply(w, s).conns|
    ensures var conn, moved := w.conns[c], Moved(w, s, c);
            Apply(w, s).conns[c] ==
                if moved == 1 then AddedRef(conn) else if moved == 0 then conn else ReleasedRef(conn)
    ensures Moved(w, s, c) == 1 ==> ClientHolds(w, c)
  {
  }

  lemma ClosesRight(w: World, s: Step, c: nat)
    requires Shape(w) && CountsAgree(w) && ClosedAtZero(w) && Enabled(w, s) && |w.calls| < WORD && c < |w.conns|
    ensures c < |Apply(w, s).conns| && ClosedRight(Apply(w, s).conns[c], Count(Apply(w, s), c))
  {
    CountMoves(w, s, c);
    ConnMoves(w, s, c);
    CountIsBounded(w, c);
    if Moved(w, s, c) == -1 {
      ReleaseCloses(w.conns[c], Count(w, c));
    }
  }

  lemma StepClosesAtZero(w: World, s: Step)
    requires Shape(w) && CountsAgree(w) && ClosedAtZero(w) && Enabled(w, s) && |w.calls| < WORD
    ensures ClosedAtZero(Apply(w, s))
  {
    var w' := Apply(w, s);
    forall c | 0 <= c < |w'.conns| ensures ClosedRight(w'.conns[c], Count(w', c)) {
      if c < |w.conns| {
        ClosesRight(w, s, c);
      } else {
        NewCount(w, s);
      }
    }
  }

  ghost predicate Inv(w: World) {
    Shape(w) && CountsAgree(w) && (|w.calls| < WORD ==> ClosedAtZero(w))
  }

  lemma StepKeepsInv(w: World, s: Step)
    requires Inv(w) && Enabled(w, s)
    ensures Inv(Apply(w, s)) && Apply(w, s).calls.Keys == w.calls.Keys
  {
    StepKeepsShape(w, s);
    StepKeepsCounts(w, s);
    assert Apply(w, s).calls.Keys == w.calls.Keys;
    assert |Apply(w, s).calls| == |Apply(w, s).calls.Keys| == |w.calls.Keys| == |w.calls|;
    if |w.calls| < WORD {
      StepClosesAtZero(w, s);
    }
  }

  lemma {:induction false} RunKeepsInv(w: World, steps: seq<Step>)
    requires Inv(w) && Run(w, steps).Some?
    ensures Inv(Run(w, steps).value) && Run(w, steps).value.calls.Keys == w.calls.Keys
    decreases |steps|
  {
    if steps != [] {
      StepKeepsInv(w, steps[0]);
      RunKeepsInv(Apply(w, steps[0]), steps[1..]);
    }
  }

  /** The safety of the connection after any run of the callers: its count is its holders, plus one while the client
      keeps it; Close is called once, exactly when that reaches zero; a caller that holds it finds it open. */
  ghost predicate Safe(w: World) {
    && (forall c :: 0 <= c < |w.conns| ==>
        && w.conns[c].refcount == Wrap(Count(w, c))
        && w.conns[c].closes == (if Count(w, c) == 0 then 1 else 0)
        && (w.conns[c].open <==> w.conns[c].closes == 0))
    && (forall t :: t in w.calls && w.calls[t].holds.Some? ==>
        w.calls[t].holds.value < |w.conns| && w.conns[w.calls[t].holds.value].open)
    && (w.mutex.None? && w.current.Some? ==> w.current.value < |w.conns| && w.conns[w.current.value].open)
  }

  lemma EveryRunIsSafe(w: World, steps: seq<Step>)
    requires Init(w) && |w.calls| < WORD && Run(w, steps).Some?
    ensures Safe(Run(w, steps).value)
  {
    RunKeepsInv(w, steps);
    var w' := Run(w, steps).value;
    assert |w'.calls| == |w'.calls.Keys| == |w.calls.Keys| == |w.calls|;
    forall t | t in w'.calls && w'.calls[t].holds.Some? ensures w'.conns[w'.calls[t].holds.value].open {
      assert t in Holders(w'.calls, w'.calls[t].holds.value);
    }
  }

  lemma {:induction false} RunConcat(w: World, a: seq<Step>, b: seq<Step>)
    requires Run(w, a).Some?
    ensures Run(w, a + b) == Run(Run(w, a).value, b)
    decreases |a|
  {
    if a == [] {
      assert a + b == b;
    } else {
      assert (a + b)[0] == a[0] && (a + b)[1..] == a[1..] + b;
      RunConcat(Apply(w, a[0]), a[1..], b);
    }
  }

  ghost predicate Reaches(w: World, w': World) {
    exists steps :: Run(w, steps) == Some(w')
  }

  lemma ReachesOn(w: World, mid: World, end: World)
    requires Reaches(w, mid) && Reaches(mid, end)
    ensures Reaches(w, end)
  {
    var a :| Run(w, a) == Some(mid);
    var b :| Run(mid, b) == Some(end);
    RunConcat(w, a, b);
  }

  function Callers(n: nat): (ids: set<nat>)
    ensures |ids| == n && forall t: nat :: t in ids <==> t < n
  {
    if n == 0 then {} else Callers(n - 1) + {n - 1}
  }

  function Holding(callers: nat, n: nat): map<nat, Call> {
    map t | t in Callers(callers) :: Call(if t < n then Some(0) else None, Out)
  }

  lemma OneMoreHolding(callers: nat, n: nat)
    requires n < callers
    ensures n in Holding(callers, n) && Holding(callers, n)[n] == Call(None, Out)
    ensures Holding(callers, n)[n := Call(Some(0), Out)] == Holding(callers, n + 1)
  {
  }

  /** The first n of `callers` calls hold the one connection, which is current; Crowd(callers, 0) has no connection
      yet. */
  function Crowd(callers: nat, n: nat): World {
    World(if n == 0 then [] else [Counted(true, Wrap(n + 1), 0)], if n == 0 then None
        else Some(0), None, Holding(callers, n))
  }

  /** A call opens or joins the connection and takes its reference. */
  function Joining(callers: nat, n: nat): World
    requires n < callers
  {
    World([Counted(true, Wrap(n + 1), 0)], Some(0), Some(n), Holding(callers, n)[n := Call(None, Opening)])
  }

  function Joined(callers: nat, n: nat): World
    requires n < callers
  {
    World([Counted(true, Wrap(n + 2), 0)], Some(0), Some(n), Holding(callers, n)[n := Call(Some(0), Opened)])
  }

  lemma CallerJoins(callers: nat, n: nat)
    requires n < callers
    ensures Reaches(Crowd(callers, n), Joining(callers, n))
  {
    OneMoreHolding(callers, n);
    OneStep(Crowd(callers, n), Open(n, true));
    assert Apply(Crowd(callers, n), Open(n, true)) == Joining(callers, n);
  }

  lemma CallerHolds(callers: nat, n: nat)
    requires n < callers
    ensures Reaches(Joining(callers, n), Joined(callers, n)) && Reaches(Joined(callers, n), Crowd(callers, n + 1))
  {
    OneMoreHolding(callers, n);
    WrapMoves(n + 1, 1);
    OneStep(Joining(callers, n), AddRef(n));
    assert Apply(Joining(callers, n), AddRef(n)) == Joined(callers, n);
    OneStep(Joined(callers, n), Unlock(n));
    assert Apply(Joined(callers, n), Unlock(n)) == Crowd(callers, n + 1);
  }

  lemma OneMoreCaller(callers: nat, n: nat)
    requires n < callers
    ensures Reaches(Crowd(callers, n), Crowd(callers, n + 1))
  {
    CallerJoins(callers, n);
    CallerHolds(callers, n);
    ReachesOn(Crowd(callers, n), Joining(callers, n), Joined(callers, n));
    ReachesOn(Crowd(callers, n), Joined(callers, n), Crowd(callers, n + 1));
  }

  lemma OneStep(w: World, s: Step)
    requires Enabled(w, s)
    ensures Reaches(w, Apply(w, s))
  {
    assert [s][1..] == [];
    assert Run(w, [s]) == Some(Apply(w, s));
  }

  lemma ReachesItself(w: World)
    ensures Reaches(w, w)
  {
    assert Run(w, []) == Some(w);
  }

  lemma {:induction false} CrowdGathers(start: World, callers: nat, n: nat)
    requires n <= callers && Reaches(start, Crowd(callers, 0))
    ensures Reaches(start, Crowd(callers, n))
  {
    if n > 0 {
      CrowdGathers(start, callers, n - 1);
      OneMoreCaller(callers, n - 1);
      ReachesOn(start, Crowd(callers, n - 1), Crowd(callers, n));
    }
  }

  ghost predicate AlwaysSafe(w: World) {
    forall w' :: Reaches(w, w') ==> Safe(w')
  }

  /** A 32-bit count is wide enough exactly as long as there are fewer callers than it can tell apart. */
  lemma SafeExactlyBelowWrap(callers: nat)
    ensures AlwaysSafe(Crowd(callers, 0)) <==> callers < WORD
  {
    var w := Crowd(callers, 0);
    if callers < WORD {
      assert |w.calls| == callers by {
        assert w.calls.Keys == Callers(callers);
      }
      forall w' | Reaches(w, w') ensures Safe(w') {
        var steps :| Run(w, steps) == Some(w');
        EveryRunIsSafe(w, steps);
      }
    } else {
      ReachesItself(w);
      CrowdGathers(w, callers, WORD);
      LastReleaseCloses(callers);
      ReachesOn(w, Crowd(callers, WORD), Apply(Crowd(callers, WORD), Release(0)));
    }
  }

  lemma LastReleaseCloses(callers: nat)
    requires callers >= WORD
    ensures var w := Crowd(callers, WORD);
            Enabled(w, Release(0)) && Reaches(w, Apply(w, Release(0))) && !Safe(Apply(w, Release(0)))
  {
    var w := Crowd(callers, WORD);
    var w' := Apply(w, Release(0));
    OneStep(w, Release(0));
    assert w'.conns == [Counted(false, 0, 1)];
    assert w'.calls[1].holds == Some(0);
  }
}
