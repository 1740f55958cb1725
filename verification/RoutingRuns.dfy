/** Runs of the server: every sequence of steps that its environment may take. */
module RoutingRuns {
  import opened Common
  import opened Bytes
  import opened Routing
  import opened RoutingData
  import opened RoutingInvariant
  import opened RoutingSteps
  import opened RoutingWrites
  import opened RoutingDetach
  import opened RoutingServers

  /**
   * The steps of the server. Each is taken whole, also the write of a connected provider, which
   * stores and routes under locks of its own node only, and the deliveries of an open.
   */
  datatype Event =
    | SetState(node: nat, side: Side, state: DataState)
    | OpenRequire(node: nat)
    | WriteProvide(node: nat, offset: nat, data: seq<byte>)
    | Detach(nodes: seq<nat>)
    | FinishProvide(node: nat)
    | FinishRequire(node: nat)

  /**
   * What the environment keeps to: one provider for a signature, writes of whole ports, a
   * require file opened once, a connection closed once and silent from then on.
   */
  predicate Admissible(s: Server, e: Event)
    reads s
  {
    match e
    case SetState(n, side, state) => n in s.nodes && !Started(StateOf(s.nodes[n], side)) && !Started(state)
    case OpenRequire(n) => n in s.nodes && s.nodes[n].requireState == WaitingForFileOpenRequest
    case WriteProvide(n, offset, data) =>
      && n in s.nodes && n !in s.gatheredProvide
      && (s.nodes[n].provideState.WaitingForFileData? ==> SignaturesFree(s.t, s.signatureMap, n))
      && (s.nodes[n].provideState.Connected? && offset + |data| <= |s.nodes[n].provideData| ==> WholePorts(Ports(s.t, n, Provide), offset, |data|))
    case Detach(ns) =>
      && (forall i, j | 0 <= i < j < |ns| :: ns[i] != ns[j])
      && (forall n | n in ns :: n in s.nodes && n !in s.gatheredProvide && n !in s.gatheredRequire)
    case FinishProvide(n) => n in s.gatheredProvide
    case FinishRequire(n) => n in s.gatheredRequire
  }

  /** The same, said of the world alone. */
  ghost predicate Allowed(w: World, e: Event) {
    match e
    case SetState(n, side, state) => n in w.nodes && !Started(StateOf(w.nodes[n], side)) && !Started(state)
    case OpenRequire(n) => n in w.nodes && w.nodes[n].requireState == WaitingForFileOpenRequest
    case WriteProvide(n, offset, data) =>
      && n in w.nodes && n !in w.gatheredProvide
      && (w.nodes[n].provideState.WaitingForFileData? ==> Free(w, n, Provide))
      && (w.nodes[n].provideState.Connected? && offset + |data| <= |w.nodes[n].provideData| ==> WholePorts(Ports(w.t, n, Provide), offset, |data|))
    case Detach(ns) => ConnectionNodes(w, ns)
    case FinishProvide(n) => n in w.gatheredProvide
    case FinishRequire(n) => n in w.gatheredRequire
  }

  lemma AdmissibleExact(s: Server, e: Event)
    requires s.Inv()
    ensures Admissible(s, e) <==> Allowed(s.Now(), e)
  {
    hide Keeps, MapExact, NoTables, SignaturesFree, Free, WholePorts, Ports;
    if e.WriteProvide? && e.node in s.nodes && s.nodes[e.node].provideState.WaitingForFileData? {
      if SignaturesFree(s.t, s.signatureMap, e.node) {
        SignaturesFreeUnique(s.Now(), s.signatureMap, e.node);
      }
      if Free(s.Now(), e.node, Provide) {
        UniqueSignaturesFree(s.Now(), s.signatureMap, e.node);
      }
    }
  }

  /** What each kind of step does to the server. */
  ghost predicate Does(w: World, e: Event, now: World, error: Error) {
    match e
    case SetState(n, side, state) => error == NoError && n in w.nodes && now == w.(nodes := InState(w.nodes, n, side, state))
    case OpenRequire(n) => error == NoError && SideConnected(w, now, n, Require)
    case WriteProvide(n, offset, data) => n in w.nodes && WriteOutcome(w, now, n, offset, data, error)
    case Detach(ns) => error == NoError && exists pairs :: NodesDetached(w, now, ns, pairs)
    case FinishProvide(n) => error == NoError && n in w.nodes && now == ProviderFinished(w, n)
    case FinishRequire(n) => error == NoError && RequesterGone(w, now, n)
  }

  /** What becomes of the side of a node that is connected: its ports are attached, and nothing but deliveries has changed besides. */
  ghost predicate SideAttached(w: World, now: World, n: nat, side: Side) {
    && (forall x :: x in now.attached <==> x in w.attached || (x.node == n && x.side == side && IsPort(w.t, x)))
    && now.nodes.Keys == w.nodes.Keys && now.gatheredProvide == w.gatheredProvide && now.gatheredRequire == w.gatheredRequire
    && (forall m :: m in w.nodes ==>
      && now.nodes[m].provideState == (if m == n && side.Provide? then Connected else w.nodes[m].provideState)
      && now.nodes[m].requireState == (if m == n && side.Require? then Connected else w.nodes[m].requireState)
      && now.nodes[m].provideData == w.nodes[m].provideData)
    && (forall p, r :: Couple(w.t, now.attached, p, r) ==> r in Receivers(now.nodes, p) && Held(w.t, now.nodes, r) == Held(w.t, now.nodes, p))
    && (forall r :: IsPort(w.t, r) && r.side.Require? && (forall p :: Couple(w.t, now.attached, p, r) ==> Couple(w.t, w.attached, p, r)) ==>
      Held(w.t, now.nodes, r) == Held(w.t, w.nodes, r))
  }

  /**
   * The same step in terms of single fields: states, data, attached ports and tables. What a
   * step does not name here it leaves alone.
   */
  ghost predicate Effect(w: World, e: Event, now: World, error: Error) {
    now.t == w.t &&
    match e
    case SetState(n, side, state) =>
      && error == NoError && n in w.nodes && now == w.(nodes := now.nodes) && now.nodes.Keys == w.nodes.Keys
      && (forall m :: m in w.nodes && m != n ==> now.nodes[m] == w.nodes[m])
      && now.nodes[n] == (if side.Provide? then w.nodes[n].(provideState := state) else w.nodes[n].(requireState := state))
    case OpenRequire(n) => error == NoError && SideAttached(w, now, n, Require)
    case WriteProvide(n, offset, data) =>
      n in w.nodes && Written(w, now, n, offset, data, error)
    case Detach(ns) =>
      && error == NoError && now.nodes.Keys == w.nodes.Keys
      && (forall x :: x in now.attached <==> x in w.attached && x.node !in ns)
      && (forall m :: m in w.nodes ==> Unstated(now.nodes[m]) == Unstated(w.nodes[m]))
      && (forall m :: m in w.nodes && m !in ns ==> now.nodes[m] == w.nodes[m])
    case FinishProvide(n) => error == NoError && ProviderLeft(w, now, n)
    case FinishRequire(n) => error == NoError && RequesterLeft(w, now, n)
  }

  /** The provider is disconnected and its first list empty. */
  ghost predicate ProviderLeft(w: World, now: World, n: nat) {
    && n in w.nodes && now == w.(nodes := now.nodes, gatheredProvide := now.gatheredProvide)
    && now.nodes.Keys == w.nodes.Keys && (forall m :: m in w.nodes && m != n ==> now.nodes[m] == w.nodes[m])
    && now.nodes[n] == w.nodes[n].(provideState := Disconnected, connectors := now.nodes[n].connectors)
    && (forall p :: Receivers(now.nodes, p) == if p == Port(n, p.side, 0) then [] else Receivers(w.nodes, p))
    && (forall m :: m in now.gatheredProvide <==> m in w.gatheredProvide && m != n)
  }

  /** The requester is disconnected and off every list it was pending for. */
  ghost predicate RequesterLeft(w: World, now: World, n: nat) {
    && n in w.nodes && now == w.(nodes := now.nodes, gatheredRequire := now.gatheredRequire) && now.nodes.Keys == w.nodes.Keys
    && (forall m :: m in w.nodes ==>
      now.nodes[m] == w.nodes[m].(requireState := if m == n then Disconnected else w.nodes[m].requireState, connectors := now.nodes[m].connectors))
    && (forall p, r {:trigger r in Receivers(now.nodes, p)} :: IsPort(w.t, p) && p.side.Provide? ==>
      (r in Receivers(now.nodes, p) <==> r in Receivers(w.nodes, p) && !(r.node == n && Pending(w, p, r))))
    && (forall m :: m in now.gatheredRequire <==> m in w.gatheredRequire && m != n)
  }

  /** A node with the states of its sides out of sight. */
  function Unstated(node: Node): Node {
    node.(provideState := Init, requireState := Init)
  }

  /** A provider's write in every state of its data. */
  ghost predicate Written(w: World, now: World, n: nat, offset: nat, data: seq<byte>, error: Error)
    requires n in w.nodes
  {
    var before := w.nodes[n];
    if before.provideState.Init? || before.provideState.WaitingFileInfo? then error == InternalError && now == w
    else if before.provideState.WaitingForFileOpenRequest? || before.provideState.Disconnected? then error == NoError && now == w
    else if offset + |data| > |before.provideData| then error == InvalidArgumentError && now == w
    else
      var bytes := before.provideData[..offset] + data + before.provideData[offset + |data|..];
      if before.provideState.WaitingForFileData? then
        error == NoError && SideAttached(w.(nodes := w.nodes[n := before.(provideData := bytes)]), now, n, Provide)
      else
        && error == NoError && now == w.(nodes := now.nodes) && now.nodes.Keys == w.nodes.Keys
        && now.nodes[n].provideData == bytes
        && (forall m :: m in w.nodes ==>
          now.nodes[m] == w.nodes[m].(provideData := if m == n then bytes else w.nodes[m].provideData, requireData := now.nodes[m].requireData))
  }

  lemma DoesEffect(w: World, e: Event, now: World, error: Error)
    requires Keeps(now) && Does(w, e, now, error)
    ensures Effect(w, e, now, error)
  {
    hide Keeps, SideAttached, Written, ProviderLeft, RequesterLeft, SideConnected, WriteOutcome, NodesDetached, RequesterGone, ProviderFinished, Receivers, Pending, IsPort;
    match e
    case SetState(n, side, state) =>
    case OpenRequire(n) => AttachedSide(w, now, n, Require);
    case WriteProvide(n, offset, data) => WrittenNode(w, now, n, offset, data, error);
    case Detach(ns) =>
      var pairs :| NodesDetached(w, now, ns, pairs);
      DetachedNodesOnly(w, now, ns, pairs);
    case FinishProvide(n) => ProviderOnly(w, now, n);
    case FinishRequire(n) => RequesterOnly(w, now, n);
  }

  lemma AttachedSide(w: World, now: World, n: nat, side: Side)
    requires Keeps(now) && SideConnected(w, now, n, side)
    ensures now.t == w.t && SideAttached(w, now, n, side)
  {
    hide Keeps, Receivers, Held, IsPort, Couple, FirstPorts, Rest;
    forall x ensures x in now.attached <==> x in w.attached || (x.node == n && x.side == side && IsPort(w.t, x)) {
      FirstPortsAre(w.t, n, side, x);
    }
    forall m | m in w.nodes
      ensures now.nodes[m].provideState == (if m == n && side.Provide? then Connected else w.nodes[m].provideState)
      ensures now.nodes[m].requireState == (if m == n && side.Require? then Connected else w.nodes[m].requireState)
      ensures now.nodes[m].provideData == w.nodes[m].provideData
    {
      RestParts(now.nodes[m], w.nodes[m], side);
    }
    forall p, r | Couple(w.t, now.attached, p, r) ensures r in Receivers(now.nodes, p) && Held(w.t, now.nodes, r) == Held(w.t, now.nodes, p) {
      CoherentAlways(now, p, r);
    }
    forall r | IsPort(w.t, r) && r.side.Require? && (forall p :: Couple(w.t, now.attached, p, r) ==> Couple(w.t, w.attached, p, r))
      ensures Held(w.t, now.nodes, r) == Held(w.t, w.nodes, r)
    {
      assert !Joining(w.t, w.attached, now.attached, r);
    }
  }

  lemma RestParts(a: Node, b: Node, side: Side)
    requires Rest(a, side) == Rest(b, side)
    ensures a.provideData == b.provideData
    ensures if side.Provide? then a.requireState == b.requireState else a.provideState == b.provideState
  {
    assert Rest(a, side).provideData == a.provideData && Rest(b, side).provideData == b.provideData;
    assert side.Provide? ==> Rest(a, side).requireState == a.requireState && Rest(b, side).requireState == b.requireState;
    assert side.Require? ==> Rest(a, side).provideState == a.provideState && Rest(b, side).provideState == b.provideState;
  }

  lemma WrittenNode(w: World, now: World, n: nat, offset: nat, data: seq<byte>, error: Error)
    requires Keeps(now) && n in w.nodes && WriteOutcome(w, now, n, offset, data, error)
    ensures now.t == w.t && Written(w, now, n, offset, data, error)
  {
    hide Keeps, SideConnected, SideAttached, DataRouted;
    var node := w.nodes[n];
    if offset + |data| <= |node.provideData| {
      if node.provideState.WaitingForFileData? {
        AttachedSide(w.(nodes := WithWritten(w.nodes, n, offset, data)), now, n, Provide);
      } else if node.provideState.Connected? {
        RoutedNodes(w, now, n, offset, data);
      }
    }
  }

  lemma RoutedNodes(w: World, now: World, n: nat, offset: nat, data: seq<byte>)
    requires n in w.nodes && offset + |data| <= |w.nodes[n].provideData| && DataRouted(w, now, n, offset, data)
    ensures now == w.(nodes := now.nodes) && now.nodes.Keys == w.nodes.Keys
    ensures var start := WithWritten(w.nodes, n, offset, data);
            forall m :: m in w.nodes ==> now.nodes[m] == start[m].(requireData := now.nodes[m].requireData)
  {
    hide OthersHold, Shape, Unfed;
    var start := WithWritten(w.nodes, n, offset, data);
    forall m | m in w.nodes
      ensures m in now.nodes && now.nodes[m] == start[m].(requireData := now.nodes[m].requireData)
    {
      UnfedOnly(now.nodes[m], start[m]);
    }
  }

  lemma UnfedOnly(a: Node, b: Node)
    requires Unfed(a) == Unfed(b)
    ensures a == b.(requireData := a.requireData)
  {
    assert a == Unfed(a).(requireData := a.requireData);
  }

  lemma DetachedNodesOnly(w: World, now: World, ns: seq<nat>, pairs: seq<Pair>)
    requires NodesDetached(w, now, ns, pairs)
    ensures now.t == w.t && now.nodes.Keys == w.nodes.Keys && (forall x :: x in now.attached <==> x in w.attached && x.node !in ns)
    ensures forall m :: m in w.nodes ==> Unstated(now.nodes[m]) == Unstated(w.nodes[m]) && (m !in ns ==> now.nodes[m] == w.nodes[m])
  {
    hide PairsExact, TableRecords, GatheredTable, DetachedState;
  }

  lemma ProviderOnly(w: World, now: World, n: nat)
    requires n in w.nodes && now == ProviderFinished(w, n)
    ensures now.t == w.t && ProviderLeft(w, now, n)
  {
    hide Receivers, ProviderFinished;
    forall p ensures Receivers(now.nodes, p) == if p == Port(n, p.side, 0) then [] else Receivers(w.nodes, p) {
      ProviderFinishedOutcome(w, n, p);
    }
    forall m ensures m in now.gatheredProvide <==> m in w.gatheredProvide && m != n {
      ProviderFinishedOutcome(w, n, Port(m, Provide, 0));
    }
    ProviderFinishedOutcome(w, n, Port(n, Provide, 0));
  }

  lemma UnlistedOnly(x: Node, y: Node)
    requires Unlisted(x) == Unlisted(y)
    ensures x == y.(connectors := x.connectors)
  {
    assert x == Unlisted(x).(connectors := x.connectors) && y == Unlisted(y).(connectors := y.connectors);
  }

  lemma RequesterNode(w: World, now: World, n: nat, m: nat)
    requires RequesterGone(w, now, n) && m in w.nodes
    ensures now.nodes[m] == w.nodes[m].(requireState := if m == n then Disconnected else w.nodes[m].requireState, connectors := now.nodes[m].connectors)
  {
    hide Receivers, Pending, IsPort, Unlisted;
    UnlistedOnly(now.nodes[m], RequesterFinished(w, n).nodes[m]);
  }

  lemma RequesterOnly(w: World, now: World, n: nat)
    requires RequesterGone(w, now, n)
    ensures now.t == w.t && RequesterLeft(w, now, n)
  {
    hide Receivers, Pending, IsPort, Unlisted;
    forall m | m in w.nodes
      ensures now.nodes[m] == w.nodes[m].(requireState := if m == n then Disconnected else w.nodes[m].requireState, connectors := now.nodes[m].connectors)
    {
      hide RequesterLeft, RequesterGone;
      RequesterNode(w, now, n, m);
    }
  }

  /** Every admissible step keeps the invariant and does what its kind of step does. */
  method Step(s: Server, e: Event) returns (error: Error)
    requires s.Inv() && Admissible(s, e)
    modifies s
    ensures s.Inv() && Does(old(s.Now()), e, s.Now(), error) && Effect(old(s.Now()), e, s.Now(), error)
  {
    hide Effect, Keeps, MapExact, NoTables, SignaturesFree, WholePorts, WriteOutcome, NodesDetached, RequesterGone, SideConnected;
    error := NoError;
    match e {
      case SetState(n, side, state) => s.SetDataState(n, side, state);
      case OpenRequire(n) => error := s.OpenRequireFile(n);
      case WriteProvide(n, offset, data) =>
        if s.nodes[n].provideState.WaitingForFileData? {
          SignaturesFreeUnique(s.Now(), s.signatureMap, n);
        }
        error := s.WriteProvidePortData(n, offset, data);
      case Detach(ns) => ghost var pairs := s.DetachNodes(ns);
      case FinishProvide(n) => s.FinishProvider(n);
      case FinishRequire(n) => s.FinishRequester(n);
    }
    DoesEffect(old(s.Now()), e, s.Now(), error);
  }

  /** Each connected provider's receivers are the connected require ports of its signature, each once, and hold its bytes. */
  ghost predicate RoutingExact(w: World) {
    forall p :: ConnectedPort(w, p, Provide, Sig(w.t, p)) ==>
      && NoDup(Receivers(w.nodes, p))
      && (forall r :: r in Receivers(w.nodes, p) <==> ConnectedPort(w, r, Require, Sig(w.t, p)))
      && (forall r :: r in Receivers(w.nodes, p) ==> Held(w.t, w.nodes, r) == Held(w.t, w.nodes, p))
  }

  lemma QuiescentExact(w: World)
    requires Keeps(w) && Quiescent(w)
    ensures RoutingExact(w)
  {
    hide Keeps, Receivers, Held, NoDup, Sig, ConnectedPort;
    forall p | ConnectedPort(w, p, Provide, Sig(w.t, p))
      ensures NoDup(Receivers(w.nodes, p))
      ensures forall r :: r in Receivers(w.nodes, p) <==> ConnectedPort(w, r, Require, Sig(w.t, p))
      ensures forall r :: r in Receivers(w.nodes, p) ==> Held(w.t, w.nodes, r) == Held(w.t, w.nodes, p)
    {
      QuiescentRouting(w, p);
    }
  }

  /** Attached pairs hold equal bytes in every state, also while a detach is under way. */
  lemma CoherentAlways(w: World, p: Port, r: Port)
    requires Keeps(w) && Couple(w.t, w.attached, p, r)
    ensures r in Receivers(w.nodes, p) && Held(w.t, w.nodes, r) == Held(w.t, w.nodes, p)
  {
    hide Receivers, Held, NoDup, Sig, IsPort, WellFormed, Shape, UniqueProvider, StatesFit, NotStartedUnused, GatheredFit, ReceiversValid;
  }

  /** What may be said of every world of a run: the pairs that are attached are served, and all is exact when no detach is under way. */
  ghost predicate Served(w: World) {
    && Keeps(w) && (Quiescent(w) ==> RoutingExact(w))
    && forall p, r :: Couple(w.t, w.attached, p, r) ==> r in Receivers(w.nodes, p) && Held(w.t, w.nodes, r) == Held(w.t, w.nodes, p)
  }

  lemma KeepsServes(w: World)
    requires Keeps(w)
    ensures Served(w)
  {
    hide Keeps, Receivers, Held, Couple, RoutingExact;
    if Quiescent(w) {
      QuiescentExact(w);
    }
    forall p, r | Couple(w.t, w.attached, p, r) ensures r in Receivers(w.nodes, p) && Held(w.t, w.nodes, r) == Held(w.t, w.nodes, p) {
      CoherentAlways(w, p, r);
    }
  }

  /** One step of a run: an event does what it does; one that cannot come about is passed over. */
  ghost predicate Follows(w: World, e: Event, now: World) {
    if Allowed(w, e) then exists error :: Does(w, e, now, error) && Effect(w, e, now, error) else now == w
  }

  /** A run of the server through the events. */
  ghost predicate IsRun(history: seq<World>, events: seq<Event>) {
    |history| == |events| + 1 && forall i :: 0 <= i < |events| ==> Follows(history[i], events[i], history[i + 1])
  }

  /**
   * Runs of the server: in every world of every run, whatever the order of whole steps, attached
   * pairs are connected and hold equal bytes, and whenever no detach is under way routing is exact.
   */
  method Run(s: Server, events: seq<Event>) returns (ghost history: seq<World>, errors: seq<Error>)
    requires s.Inv()
    modifies s
    ensures s.Inv() && IsRun(history, events) && history[0] == old(s.Now()) && history[|events|] == s.Now()
    ensures forall i :: 0 <= i < |history| ==> Served(history[i])
    ensures |errors| == |events|
    ensures forall i :: 0 <= i < |events| && errors[i] != NoError ==>
      events[i].WriteProvide? && (errors[i] == InternalError || errors[i] == InvalidArgumentError)
  {
    hide Keeps, MapExact, NoTables, Served, Admissible, Allowed, Does, Effect;
    KeepsServes(s.Now());
    history, errors := [s.Now()], [];
    for i := 0 to |events|
      invariant s.Inv() && |history| == i + 1 && history[0] == old(s.Now()) && history[i] == s.Now() && |errors| == i
      invariant forall k :: 0 <= k < i ==> Follows(history[k], events[k], history[k + 1])
      invariant forall k :: 0 <= k < |history| ==> Served(history[k])
      invariant forall k :: 0 <= k < i && errors[k] != NoError ==>
        events[k].WriteProvide? && (errors[k] == InternalError || errors[k] == InvalidArgumentError)
    {
      var error := NoError;
      AdmissibleExact(s, events[i]);
      if Admissible(s, events[i]) {
        error := Step(s, events[i]);
        DoesErrors(history[i], events[i], s.Now(), error);
      }
      KeepsServes(s.Now());
      ghost var before := history;
      history := history + [s.Now()];
      errors := errors + [error];
      assert Follows(before[i], events[i], s.Now());
    }
  }

  lemma DoesErrors(w: World, e: Event, now: World, error: Error)
    requires Does(w, e, now, error)
    ensures error == NoError || (e.WriteProvide? && (error == InternalError || error == InvalidArgumentError))
  {
    hide SideConnected, DataRouted, NodesDetached, RequesterGone;
  }
}
