/** The life of connections: every entry point that changes a peer's state, the manager's pending requests and the events
    the application sees, as one state machine. Module Connections proves the classes against it. */
module Lifecycle {
  import opened Packets
  import opened PeerTable

  const SHUTDOWN_DELAY := 300

  datatype Settings = Settings(disconnectTimeout: int, reconnectDelay: int, maxConnectAttempts: int)

  /** Which constructor made the peer. */
  datatype Origin = Dialed | Accepted | Rejected

  datatype Life = Life(origin: Origin, address: Address, state: ConnectionState, time: int, number: int, remoteId: int,
                       silence: int, shutdownTimer: int, connectTimer: int, attempts: int)

  datatype Request = Request(time: int, number: int, peerId: int, target: Address)

  datatype ShutdownResult = Unchanged | Success | WasConnected

  datatype DisconnectResult = NotOurs | Refused | Closed

  datatype RequestOutcome = Ignored | Lose | Reconnection | NewConnection

  datatype Reason =
    | ConnectionFailed | Timeout | Unreachable | RemoteClose | PeerCalled | ConnectionRejected
    | InvalidProtocol | Reconnect | PeerToPeer | PeerNotFound

  /** What update does besides counting time. */
  datatype Turn = Idle | SendShutdown | SendRequest | GiveUp(reason: Reason) | Serve

  /** Events name a peer by its place among all peers ever made. */
  datatype PeerEvent = Connect(peer: nat) | Disconnect(peer: nat, reason: Reason) | Requested(from: Address)

  // ---- One peer ---------------------------------------------------------------------------------

  predicate InUse(state: ConnectionState) {
    state == Connected || state == Outgoing
  }

  function Rank(state: ConnectionState): nat {
    match state
    case Outgoing => 0
    case Connected => 1
    case ShutdownRequested => 2
    case Disconnected => 3
  }

  function Dial(to: Address, now: int, number: int): Life {
    Life(Dialed, to, Outgoing, now, number, 0, 0, 0, 0, 0)
  }

  function Welcome(from: Address, request: Request): Life {
    Life(Accepted, from, Connected, request.time, request.number, request.peerId, 0, 0, 0, 0)
  }

  function TurnAway(from: Address, request: Request): Life {
    Life(Rejected, from, ShutdownRequested, request.time, request.number, 0, 0, 0, 0, 0)
  }

  function Shutdown(l: Life, force: bool): (Life, ShutdownResult) {
    if !InUse(l.state) then (l, Unchanged)
    else
      (if force then l.(state := Disconnected) else l.(silence := 0, state := ShutdownRequested),
       if l.state == Connected then WasConnected else Success)
  }

  function Closing(l: Life, size: int, time: int, number: int): DisconnectResult {
    if InUse(l.state) && size >= 9 && time == l.time && number == l.number
    then if l.state == Connected then Closed else Refused
    else NotOurs
  }

  function AcceptedBy(l: Life, time: int, number: int, peerId: int): (Life, bool) {
    if l.state != Outgoing || time != l.time then (l, false)
    else (l.(state := Connected, number := number, remoteId := peerId, silence := 0), true)
  }

  function Hear(l: Life, shutdownOk: bool, number: int): Life {
    if InUse(l.state) && !shutdownOk && number == l.number then l.(silence := 0) else l
  }

  // Some byte of the one is smaller than the same byte of the other.
  ghost predicate SomewhereSmaller(a: Address, b: Address) {
    exists i :: 0 <= i < ADDRESS_SIZE && a[i] < b[i]
  }

  ghost function Meet(l: Life, request: Request): RequestOutcome {
    match l.state
    case Outgoing =>
      if request.time < l.time || (request.time == l.time && SomewhereSmaller(l.address, request.target)) then Lose else Ignored
    case Connected => if request.time > l.time then Reconnection else Ignored
    case _ => if request.time >= l.time then NewConnection else Ignored
  }

  function Pass(l: Life, settings: Settings, delta: int): (Life, Turn) {
    var l := l.(silence := l.silence + delta);
    match l.state
    case Connected => (l, if l.silence > settings.disconnectTimeout then GiveUp(Timeout) else Serve)
    case ShutdownRequested =>
      if l.silence > settings.disconnectTimeout then (l.(state := Disconnected), Idle)
      else if l.shutdownTimer + delta >= SHUTDOWN_DELAY then (l.(shutdownTimer := 0), SendShutdown)
      else (l.(shutdownTimer := l.shutdownTimer + delta), Idle)
    case Outgoing =>
      if l.connectTimer + delta <= settings.reconnectDelay then (l.(connectTimer := l.connectTimer + delta), Idle)
      else
        (l.(connectTimer := 0, attempts := l.attempts + 1),
         if l.attempts + 1 > settings.maxConnectAttempts then GiveUp(ConnectionFailed) else SendRequest)
    case Disconnected => (l, Idle)
  }

  // ---- All peers of a manager -------------------------------------------------------------------

  /** `peers` is the manager's table, `lives` every peer ever made, in the table or not. */
  datatype ManagerState = ManagerState(peers: map<Address, nat>, lives: seq<Life>, requests: map<Address, Request>, events: seq<PeerEvent>)

  datatype ManagerAction =
    | Dialing(to: Address, now: int, leftover: int)
    | Solve(from: Address, result: RequestResult)
    | Close(address: Address)
    | NetworkFailed(address: Address)
    | GotRequest(from: Address, request: Request)
    | GotAccept(from: Address, time: int, number: int, peerId: int)
    | GotDisconnect(from: Address, size: int, time: int, number: int)
    | GotPeerNotFound(from: Address, final: bool)
    | GotInvalidProtocol(from: Address)
    | GotOther(from: Address, shutdownOk: bool, number: int)
    | Update(address: Address, elapsed: int)

  ghost predicate WellFormed(s: ManagerState) {
    forall a :: a in s.peers ==> s.peers[a] < |s.lives| && s.lives[s.peers[a]].address == a
  }

  function With(s: ManagerState, i: nat, l: Life): (t: ManagerState)
    requires i < |s.lives|
  {
    s.(lives := s.lives[i := l])
  }

  function Emit(s: ManagerState, e: PeerEvent): ManagerState {
    s.(events := s.events + [e])
  }

  function Remove(s: ManagerState, address: Address): ManagerState {
    s.(peers := s.peers - {address})
  }

  function Add(s: ManagerState, l: Life): ManagerState {
    s.(peers := s.peers[l.address := |s.lives|], lives := s.lives + [l])
  }

  /** disconnect_peer: shuts the peer at the address down, with an event unless it was down already. */
  function Drop(s: ManagerState, address: Address, reason: Reason, force: bool): ManagerState
    requires WellFormed(s)
  {
    if address !in s.peers then s
    else
      var i := s.peers[address];
      var (l, result) := Shutdown(s.lives[i], force);
      if result == Unchanged then s else Emit(With(s, i, l), Disconnect(i, reason))
  }

  function Newer(kept: Request, request: Request): Request {
    if request.time < kept.time || (request.time == kept.time && request.number == kept.number) then kept else request
  }

  /** Keeps the newer of two requests from one address, with an event only for the first. */
  function Ask(s: ManagerState, from: Address, request: Request): ManagerState {
    if from in s.requests then s.(requests := s.requests[from := Newer(s.requests[from], request)])
    else Emit(s.(requests := s.requests[from := request]), Requested(from))
  }

  function Renumbered(request: Request, l: Life): Request {
    request.(number := (l.number + 1) % 4)
  }

  ghost function OnRequest(s: ManagerState, from: Address, request: Request): ManagerState
    requires WellFormed(s)
  {
    if from !in s.peers then Ask(s, from, request)
    else
      var l := s.lives[s.peers[from]];
      match Meet(l, request)
      case Ignored => s
      case Reconnection => Ask(Remove(Drop(s, from, Reconnect, true), from), from, Renumbered(request, l))
      case NewConnection => Ask(Remove(s, from), from, Renumbered(request, l))
      case Lose => Ask(Remove(Drop(s, from, PeerToPeer, true), from), from, request)
  }

  function OnDial(s: ManagerState, to: Address, now: int, leftover: int): ManagerState
    requires WellFormed(s)
  {
    if to in s.requests then s
    else if to !in s.peers then Add(s, Dial(to, now, leftover))
    else
      var l := s.lives[s.peers[to]];
      if InUse(l.state) then s else Add(s, Dial(to, now, (l.number + 1) % 4))
  }

  function OnSolve(s: ManagerState, from: Address, result: RequestResult): ManagerState {
    if from !in s.requests then s
    else
      var request, rest := s.requests[from], s.(requests := s.requests - {from});
      if result == RejectForce || from in s.peers then rest
      else if result == Reject then Add(rest, TurnAway(from, request))
      else Emit(Add(rest, Welcome(from, request)), Connect(|s.lives|))
  }

  function OnAccept(s: ManagerState, from: Address, time: int, number: int, peerId: int): ManagerState
    requires WellFormed(s)
  {
    if from !in s.peers then s
    else
      var i := s.peers[from];
      var (l, taken) := AcceptedBy(s.lives[i], time, number, peerId);
      if taken then Emit(With(s, i, l), Connect(i)) else s
  }

  // Every update counts at least one millisecond.
  function Ticks(elapsed: int): nat {
    if elapsed <= 0 then 1 else elapsed
  }

  function OnUpdate(s: ManagerState, settings: Settings, address: Address, elapsed: int): ManagerState
    requires WellFormed(s)
  {
    if address !in s.peers then s
    else
      var i, delta := s.peers[address], Ticks(elapsed);
      if s.lives[i].state == Disconnected && s.lives[i].silence > settings.disconnectTimeout then Remove(s, address)
      else
        var (l, turn) := Pass(s.lives[i], settings, delta);
        if turn.GiveUp? then Drop(With(s, i, l), address, turn.reason, true) else With(s, i, l)
  }

  ghost function Apply(s: ManagerState, settings: Settings, a: ManagerAction): ManagerState
    requires WellFormed(s)
  {
    match a
    case Dialing(to, now, leftover) => OnDial(s, to, now, leftover)
    case Solve(from, result) => OnSolve(s, from, result)
    case Close(address) => Drop(s, address, PeerCalled, false)
    case NetworkFailed(address) => Drop(s, address, Unreachable, true)
    case GotRequest(from, request) => OnRequest(s, from, request)
    case GotAccept(from, time, number, peerId) => OnAccept(s, from, time, number, peerId)
    case GotDisconnect(from, size, time, number) =>
      if from !in s.peers then s
      else
        var result := Closing(s.lives[s.peers[from]], size, time, number);
        if result == NotOurs then s else Drop(s, from, if result == Closed then RemoteClose else ConnectionRejected, true)
    case GotPeerNotFound(from, final) =>
      if from in s.peers && s.lives[s.peers[from]].state == Connected && final then Drop(s, from, PeerNotFound, true) else s
    case GotInvalidProtocol(from) =>
      if from in s.peers && s.lives[s.peers[from]].state == Outgoing then Drop(s, from, InvalidProtocol, true) else s
    case GotOther(from, shutdownOk, number) =>
      if from in s.peers then With(s, s.peers[from], Hear(s.lives[s.peers[from]], shutdownOk, number)) else s
    case Update(address, elapsed) => OnUpdate(s, settings, address, elapsed)
  }

  // ---- What every run keeps ---------------------------------------------------------------------

  predicate About(e: PeerEvent, i: nat) {
    (e.Connect? || e.Disconnect?) && e.peer == i
  }

  /** The events about one peer, in order. */
  function Trace(events: seq<PeerEvent>, i: nat): seq<PeerEvent> {
    if events == [] then []
    else
      var last := events[|events| - 1];
      Trace(events[..|events| - 1], i) + if About(last, i) then [last] else []
  }

  /** A peer's events tell its state, and its state its events: none while it dials, one CONNECT while it is connected,
      and one DISCONNECT after that; a rejected peer has none at all. */
  predicate Told(l: Life, t: seq<PeerEvent>) {
    match l.origin
    case Rejected => t == [] && !InUse(l.state)
    case _ =>
      match l.state
      case Outgoing => l.origin == Dialed && t == []
      case Connected => |t| == 1 && t[0].Connect?
      case _ => (|t| == 2 && t[0].Connect? && t[1].Disconnect?) || (l.origin == Dialed && |t| == 1 && t[0].Disconnect?)
  }

  predicate InTable(s: ManagerState, i: nat)
    requires i < |s.lives|
  {
    s.lives[i].address in s.peers && s.peers[s.lives[i].address] == i
  }

  /** Whoever is not in the table is past its connection, so nothing in use is ever lost from the table. */
  ghost predicate Inv(s: ManagerState) {
    && WellFormed(s)
    && (forall i :: 0 <= i < |s.lives| ==> Told(s.lives[i], Trace(s.events, i)))
    && (forall i :: 0 <= i < |s.lives| && InUse(s.lives[i].state) ==> InTable(s, i))
    && (forall k :: 0 <= k < |s.events| && !s.events[k].Requested? ==> s.events[k].peer < |s.lives|)
  }

  /** What one step may do to the peers there are. */
  ghost predicate Onward(s: ManagerState, t: ManagerState) {
    && |s.lives| <= |t.lives|
    && (forall i :: 0 <= i < |s.lives| ==> Aged(s.lives[i], t.lives[i]))
    && s.events <= t.events
  }

  predicate Aged(l: Life, m: Life) {
    m.address == l.address && m.origin == l.origin && Rank(l.state) <= Rank(m.state)
  }

  lemma TraceNews(events: seq<PeerEvent>, news: seq<PeerEvent>, i: nat)
    requires |news| <= 1
    ensures Trace(events + news, i) == Trace(events, i) + if news != [] && About(news[0], i) then news else []
  {
    if news == [] {
      assert events + news == events;
      assert Trace(events, i) + [] == Trace(events, i);
    } else {
      assert (events + news)[..|events|] == events;
    }
  }

  lemma {:induction false} TraceOfNobody(events: seq<PeerEvent>, i: nat)
    requires forall k :: 0 <= k < |events| && !events[k].Requested? ==> events[k].peer < i
    ensures Trace(events, i) == []
    decreases |events|
  {
    if events != [] {
      TraceOfNobody(events[..|events| - 1], i);
    }
  }

  // A peer of the table changes, with an event about it or without.
  lemma {:induction false} ChangeKeepsInv(s: ManagerState, i: nat, l: Life, news: seq<PeerEvent>)
    requires Inv(s) && i < |s.lives| && Aged(s.lives[i], l)
    requires |news| <= 1 && (news != [] ==> About(news[0], i))
    requires Told(l, Trace(s.events, i) + news)
    ensures Inv(With(s, i, l).(events := s.events + news)) && Onward(s, With(s, i, l).(events := s.events + news))
  {
    var t := With(s, i, l).(events := s.events + news);
    forall j | 0 <= j < |t.lives| && InUse(t.lives[j].state)
      ensures InTable(t, j)
    {
      assert InUse(s.lives[j].state) && InTable(s, j);
    }
    forall j | 0 <= j < |t.lives|
      ensures Told(t.lives[j], Trace(t.events, j))
    {
      TraceNews(s.events, news, j);
      if j == i {
        assert Trace(t.events, i) == Trace(s.events, i) + news;
      } else {
        assert Trace(t.events, j) == Trace(s.events, j) && t.lives[j] == s.lives[j];
      }
    }
    forall k | 0 <= k < |t.events| && !t.events[k].Requested?
      ensures t.events[k].peer < |t.lives|
    {
      if k < |s.events| { assert t.events[k] == s.events[k]; } else { assert t.events[k] == news[0]; }
    }
  }

  // A change that calls for no event: the state stays, or a closing peer is closed.
  lemma QuietKeepsInv(s: ManagerState, i: nat, l: Life)
    requires Inv(s) && i < |s.lives| && Aged(s.lives[i], l)
    requires l.state == s.lives[i].state || !InUse(s.lives[i].state)
    ensures Inv(With(s, i, l)) && Onward(s, With(s, i, l))
  {
    assert Trace(s.events, i) + [] == Trace(s.events, i);
    assert Told(s.lives[i], Trace(s.events, i));
    ChangeKeepsInv(s, i, l, []);
    assert With(s, i, l) == With(s, i, l).(events := s.events + []);
  }

  lemma DownIsTold(l: Life, down: Life, t: seq<PeerEvent>, e: PeerEvent)
    requires Told(l, t) && InUse(l.state) && !InUse(down.state) && down.origin == l.origin && e.Disconnect?
    ensures Told(down, t + [e])
  {}

  lemma DropKeepsInv(s: ManagerState, address: Address, reason: Reason, force: bool)
    requires Inv(s)
    ensures var t := Drop(s, address, reason, force);
            && Inv(t) && Onward(s, t) && t.peers == s.peers && t.requests == s.requests
            && (address in s.peers ==> !InUse(t.lives[s.peers[address]].state))
  {
    if address in s.peers && InUse(s.lives[s.peers[address]].state) {
      var i := s.peers[address];
      var l := Shutdown(s.lives[i], force).0;
      var news := [Disconnect(i, reason)];
      DownIsTold(s.lives[i], l, Trace(s.events, i), news[0]);
      ChangeKeepsInv(s, i, l, news);
      assert Drop(s, address, reason, force) == With(s, i, l).(events := s.events + news);
    }
  }

  lemma RemoveKeepsInv(s: ManagerState, address: Address)
    requires Inv(s) && (address in s.peers ==> !InUse(s.lives[s.peers[address]].state))
    ensures Inv(Remove(s, address)) && Onward(s, Remove(s, address))
  {}

  lemma AskKeepsInv(s: ManagerState, from: Address, request: Request)
    requires Inv(s)
    ensures Inv(Ask(s, from, request)) && Onward(s, Ask(s, from, request))
  {
    forall i: nat
      ensures Trace(s.events + [Requested(from)], i) == Trace(s.events, i)
    {
      TraceNews(s.events, [Requested(from)], i);
    }
  }

  lemma AddKeepsInv(s: ManagerState, l: Life, news: seq<PeerEvent>)
    requires Inv(s) && (l.address in s.peers ==> !InUse(s.lives[s.peers[l.address]].state))
    requires news == [] || news == [Connect(|s.lives|)]
    requires Told(l, news)
    ensures var t := Add(s, l).(events := s.events + news); Inv(t) && Onward(s, t)
  {
    var t := Add(s, l).(events := s.events + news);
    forall j | 0 <= j < |t.lives| && InUse(t.lives[j].state)
      ensures InTable(t, j)
    {
      assert j < |s.lives| ==> t.lives[j] == s.lives[j] && InTable(s, j);
    }
    forall j | 0 <= j < |t.lives|
      ensures Told(t.lives[j], Trace(t.events, j))
    {
      TraceNews(s.events, news, j);
      if j == |s.lives| {
        TraceOfNobody(s.events, j);
        assert Trace(t.events, j) == news;
      } else {
        assert Trace(t.events, j) == Trace(s.events, j);
      }
    }
  }

  lemma ReplaceKeepsInv(s: ManagerState, from: Address, reason: Reason, request: Request)
    requires Inv(s)
    ensures var t := Ask(Remove(Drop(s, from, reason, true), from), from, request); Inv(t) && Onward(s, t)
  {
    var down := Drop(s, from, reason, true);
    DropKeepsInv(s, from, reason, true);
    RemoveKeepsInv(down, from);
    AskKeepsInv(Remove(down, from), from, request);
  }

  lemma RequestKeepsInv(s: ManagerState, from: Address, request: Request)
    requires Inv(s)
    ensures Inv(OnRequest(s, from, request)) && Onward(s, OnRequest(s, from, request))
  {
    if from !in s.peers {
      AskKeepsInv(s, from, request);
    } else {
      var l := s.lives[s.peers[from]];
      match Meet(l, request)
      case Ignored =>
      case Reconnection => ReplaceKeepsInv(s, from, Reconnect, Renumbered(request, l));
      case Lose => ReplaceKeepsInv(s, from, PeerToPeer, request);
      case NewConnection =>
        RemoveKeepsInv(s, from);
        AskKeepsInv(Remove(s, from), from, Renumbered(request, l));
    }
  }

  lemma UpdateKeepsInv(s: ManagerState, settings: Settings, address: Address, elapsed: int)
    requires Inv(s)
    ensures Inv(OnUpdate(s, settings, address, elapsed)) && Onward(s, OnUpdate(s, settings, address, elapsed))
  {
    if address in s.peers {
      var i, delta := s.peers[address], Ticks(elapsed);
      if s.lives[i].state == Disconnected && s.lives[i].silence > settings.disconnectTimeout {
        RemoveKeepsInv(s, address);
      } else {
        var (l, turn) := Pass(s.lives[i], settings, delta);
        QuietKeepsInv(s, i, l);
        if turn.GiveUp? {
          DropKeepsInv(With(s, i, l), address, turn.reason, true);
        }
      }
    }
  }

  lemma SolveKeepsInv(s: ManagerState, from: Address, result: RequestResult)
    requires Inv(s)
    ensures Inv(OnSolve(s, from, result)) && Onward(s, OnSolve(s, from, result))
  {
    if from in s.requests {
      var request, rest := s.requests[from], s.(requests := s.requests - {from});
      if result != RejectForce && from !in s.peers {
        AddKeepsInv(rest, TurnAway(from, request), []);
        assert rest.events + [] == rest.events;
        AddKeepsInv(rest, Welcome(from, request), [Connect(|s.lives|)]);
      }
    }
  }

  lemma DialKeepsInv(s: ManagerState, to: Address, now: int, leftover: int)
    requires Inv(s)
    ensures Inv(OnDial(s, to, now, leftover)) && Onward(s, OnDial(s, to, now, leftover))
  {
    assert s.events + [] == s.events;
    if to !in s.requests && to !in s.peers {
      AddKeepsInv(s, Dial(to, now, leftover), []);
    } else if to !in s.requests && !InUse(s.lives[s.peers[to]].state) {
      AddKeepsInv(s, Dial(to, now, (s.lives[s.peers[to]].number + 1) % 4), []);
    }
  }

  lemma AcceptKeepsInv(s: ManagerState, from: Address, time: int, number: int, peerId: int)
    requires Inv(s)
    ensures Inv(OnAccept(s, from, time, number, peerId)) && Onward(s, OnAccept(s, from, time, number, peerId))
  {
    if from in s.peers {
      var i := s.peers[from];
      var (l, taken) := AcceptedBy(s.lives[i], time, number, peerId);
      if taken {
        ChangeKeepsInv(s, i, l, [Connect(i)]);
      }
    }
  }

  lemma DisconnectKeepsInv(s: ManagerState, settings: Settings, a: ManagerAction)
    requires Inv(s) && a.GotDisconnect?
    ensures Inv(Apply(s, settings, a)) && Onward(s, Apply(s, settings, a))
  {
    if a.from in s.peers {
      var result := Closing(s.lives[s.peers[a.from]], a.size, a.time, a.number);
      DropKeepsInv(s, a.from, if result == Closed then RemoteClose else ConnectionRejected, true);
    }
  }

  lemma OtherKeepsInv(s: ManagerState, settings: Settings, a: ManagerAction)
    requires Inv(s) && a.GotOther?
    ensures Inv(Apply(s, settings, a)) && Onward(s, Apply(s, settings, a))
  {
    if a.from in s.peers {
      var i := s.peers[a.from];
      QuietKeepsInv(s, i, Hear(s.lives[i], a.shutdownOk, a.number));
    }
  }

  lemma ApplyKeepsInv(s: ManagerState, settings: Settings, a: ManagerAction)
    requires Inv(s)
    ensures Inv(Apply(s, settings, a)) && Onward(s, Apply(s, settings, a))
  {
    match a
    case Dialing(to, now, leftover) => DialKeepsInv(s, to, now, leftover);
    case Solve(from, result) => SolveKeepsInv(s, from, result);
    case Close(address) => DropKeepsInv(s, address, PeerCalled, false);
    case NetworkFailed(address) => DropKeepsInv(s, address, Unreachable, true);
    case GotRequest(from, request) => RequestKeepsInv(s, from, request);
    case GotAccept(from, time, number, peerId) => AcceptKeepsInv(s, from, time, number, peerId);
    case GotDisconnect(_, _, _, _) => DisconnectKeepsInv(s, settings, a);
    case GotPeerNotFound(from, _) => DropKeepsInv(s, from, PeerNotFound, true);
    case GotInvalidProtocol(from) => DropKeepsInv(s, from, InvalidProtocol, true);
    case GotOther(from, shutdownOk, number) => OtherKeepsInv(s, settings, a);
    case Update(address, elapsed) => UpdateKeepsInv(s, settings, address, elapsed);
  }

  ghost function Run(s: ManagerState, settings: Settings, actions: seq<ManagerAction>): (t: ManagerState)
    requires Inv(s)
    decreases |actions|
  {
    if actions == [] then s
    else
      ApplyKeepsInv(s, settings, actions[0]);
      Run(Apply(s, settings, actions[0]), settings, actions[1..])
  }

  function Start(): ManagerState {
    ManagerState(map[], [], map[], [])
  }

  lemma {:induction false} RunKeepsInv(s: ManagerState, settings: Settings, actions: seq<ManagerAction>)
    requires Inv(s)
    ensures Inv(Run(s, settings, actions)) && Onward(s, Run(s, settings, actions))
    decreases |actions|
  {
    if actions != [] {
      ApplyKeepsInv(s, settings, actions[0]);
      RunKeepsInv(Apply(s, settings, actions[0]), settings, actions[1..]);
    }
  }

  // ---- What the application sees ----------------------------------------------------------------

  lemma {:induction false} TraceHas(events: seq<PeerEvent>, i: nat, k: nat)
    requires k < |events| && About(events[k], i)
    ensures exists q :: 0 <= q < |Trace(events, i)| && Trace(events, i)[q] == events[k]
    decreases |events|
  {
    var front := events[..|events| - 1];
    if k < |front| {
      TraceHas(front, i, k);
      var q :| 0 <= q < |Trace(front, i)| && Trace(front, i)[q] == front[k];
      assert Trace(events, i)[q] == events[k];
    } else {
      assert Trace(events, i)[|Trace(front, i)|] == events[k];
    }
  }

  lemma {:induction false} TraceInOrder(events: seq<PeerEvent>, i: nat, j: nat, k: nat)
    requires j < k < |events| && About(events[j], i) && About(events[k], i)
    ensures exists p, q :: 0 <= p < q < |Trace(events, i)|
              && Trace(events, i)[p] == events[j] && Trace(events, i)[q] == events[k]
    decreases |events|
  {
    var front := events[..|events| - 1];
    if k < |front| {
      TraceInOrder(front, i, j, k);
      var p, q :| 0 <= p < q < |Trace(front, i)| && Trace(front, i)[p] == front[j] && Trace(front, i)[q] == front[k];
      assert Trace(events, i)[p] == events[j] && Trace(events, i)[q] == events[k];
    } else {
      TraceHas(front, i, j);
      var p :| 0 <= p < |Trace(front, i)| && Trace(front, i)[p] == front[j];
      assert Trace(events, i)[p] == events[j] && Trace(events, i)[|Trace(front, i)|] == events[k];
    }
  }

  /** In every run two events about one peer are a CONNECT and a later DISCONNECT: so there is at most one of each, and never
      a CONNECT after the DISCONNECT. The events of a peer that was not rejected say whether it is dialing, connected or past. */
  lemma OneConnectOneDisconnect(settings: Settings, actions: seq<ManagerAction>)
    ensures var t := Run(Start(), settings, actions);
            && (forall i: nat, j, k :: 0 <= j < k < |t.events| && About(t.events[j], i) && About(t.events[k], i) ==>
                  t.events[j].Connect? && t.events[k].Disconnect?)
            && (forall i :: 0 <= i < |t.lives| ==> Told(t.lives[i], Trace(t.events, i)))
  {
    RunKeepsInv(Start(), settings, actions);
    var t := Run(Start(), settings, actions);
    forall i: nat, j, k | 0 <= j < k < |t.events| && About(t.events[j], i) && About(t.events[k], i)
      ensures t.events[j].Connect? && t.events[k].Disconnect?
    {
      TraceInOrder(t.events, i, j, k);
      assert Told(t.lives[i], Trace(t.events, i));
    }
  }

  lemma {:induction false} RunConcat(s: ManagerState, settings: Settings, a: seq<ManagerAction>, b: seq<ManagerAction>)
    requires Inv(s)
    ensures Inv(Run(s, settings, a)) && Run(s, settings, a + b) == Run(Run(s, settings, a), settings, b)
    decreases |a|
  {
    RunKeepsInv(s, settings, a);
    if a == [] {
      assert a + b == b;
    } else {
      ApplyKeepsInv(s, settings, a[0]);
      RunConcat(Apply(s, settings, a[0]), settings, a[1..], b);
      assert (a + b)[1..] == a[1..] + b;
    }
  }

  /** Between any two moments of a run no peer moves back, and no event is taken back. */
  lemma NeverBackwards(settings: Settings, before: seq<ManagerAction>, after: seq<ManagerAction>)
    ensures Inv(Start())
    ensures Onward(Run(Start(), settings, before), Run(Start(), settings, before + after))
  {
    RunConcat(Start(), settings, before, after);
    RunKeepsInv(Run(Start(), settings, before), settings, after);
  }

  // ---- How a closing peer ends ------------------------------------------------------------------

  /** SHUTDOWN_OK changes nothing, in any state: a peer that asked for the shutdown no longer reads packets. */
  lemma ShutdownOkIgnored(s: ManagerState, settings: Settings, from: Address, number: int)
    requires WellFormed(s)
    ensures Apply(s, settings, GotOther(from, true, number)) == s
  {
    if from in s.peers {
      assert s.lives[s.peers[from] := s.lives[s.peers[from]]] == s.lives;
    }
  }

  function Elapsed(actions: seq<ManagerAction>, address: Address): int {
    if actions == [] then 0
    else (if actions[0].Update? && actions[0].address == address then Ticks(actions[0].elapsed) else 0)
         + Elapsed(actions[1..], address)
  }

  function Updates(actions: seq<ManagerAction>, address: Address): nat {
    if actions == [] then 0
    else (if actions[0].Update? && actions[0].address == address then 1 else 0) + Updates(actions[1..], address)
  }

  // Not in use, and not yet closed only while the timeout has not passed.
  predicate Ending(l: Life, settings: Settings) {
    !InUse(l.state) && (l.state == ShutdownRequested ==> l.silence <= settings.disconnectTimeout)
  }

  ghost predicate Still(s: ManagerState, t: ManagerState, i: nat)
    requires i < |s.lives|
  {
    i < |t.lives| && t.lives[i] == s.lives[i] && (InTable(t, i) ==> InTable(s, i))
  }

  lemma DropStill(s: ManagerState, address: Address, reason: Reason, force: bool, i: nat)
    requires WellFormed(s) && i < |s.lives| && !InUse(s.lives[i].state)
    ensures Still(s, Drop(s, address, reason, force), i) && Drop(s, address, reason, force).peers == s.peers
  {}

  lemma RequestStill(s: ManagerState, from: Address, request: Request, i: nat)
    requires WellFormed(s) && i < |s.lives| && !InUse(s.lives[i].state)
    ensures Still(s, OnRequest(s, from, request), i)
  {
    DropStill(s, from, Reconnect, true, i);
    DropStill(s, from, PeerToPeer, true, i);
  }

  // Nothing but its own update changes a peer that is not in use.
  lemma OthersStill(s: ManagerState, settings: Settings, a: ManagerAction, i: nat)
    requires WellFormed(s) && i < |s.lives| && !InUse(s.lives[i].state) && !a.Update?
    ensures Still(s, Apply(s, settings, a), i)
  {
    match a
    case Dialing(_, _, _) =>
    case Solve(_, _) =>
    case Close(address) => DropStill(s, address, PeerCalled, false, i);
    case NetworkFailed(address) => DropStill(s, address, Unreachable, true, i);
    case GotRequest(from, request) => RequestStill(s, from, request, i);
    case GotAccept(_, _, _, _) =>
    case GotDisconnect(from, _, _, _) =>
      DropStill(s, from, RemoteClose, true, i);
      DropStill(s, from, ConnectionRejected, true, i);
    case GotPeerNotFound(from, _) => DropStill(s, from, PeerNotFound, true, i);
    case GotInvalidProtocol(from) => DropStill(s, from, InvalidProtocol, true, i);
    case GotOther(_, _, _) =>
  }

  lemma UpdateEnds(s: ManagerState, settings: Settings, address: Address, elapsed: int, i: nat)
    requires WellFormed(s) && i < |s.lives| && Ending(s.lives[i], settings)
    ensures var t := OnUpdate(s, settings, address, elapsed);
            && i < |t.lives| && Ending(t.lives[i], settings) && t.lives[i].address == s.lives[i].address
            && (InTable(t, i) ==>
                  && InTable(s, i)
                  && t.lives[i].silence == s.lives[i].silence + if address == s.lives[i].address then Ticks(elapsed) else 0)
            && (t.lives[i].state != s.lives[i].state ==>
                  t.lives[i].state == Disconnected && s.lives[i].silence + Ticks(elapsed) > settings.disconnectTimeout)
  {
    if address in s.peers {
      var k, delta := s.peers[address], Ticks(elapsed);
      var (l, turn) := Pass(s.lives[k], settings, delta);
      if turn.GiveUp? {
        assert k != i;
        DropStill(With(s, k, l), address, turn.reason, true, i);
      }
    }
  }

  // A step on which a peer that is not in use either keeps everything or, in its own update, only grows older.
  lemma EndingStep(s: ManagerState, settings: Settings, a: ManagerAction, i: nat)
    requires Inv(s) && i < |s.lives| && Ending(s.lives[i], settings)
    ensures var t := Apply(s, settings, a);
            && i < |t.lives| && Ending(t.lives[i], settings) && t.lives[i].address == s.lives[i].address
            && (InTable(t, i) ==> InTable(s, i) && t.lives[i].silence == s.lives[i].silence + Elapsed([a], s.lives[i].address))
            && (t.lives[i].state != s.lives[i].state ==>
                  && a.Update? && t.lives[i].state == Disconnected
                  && s.lives[i].silence + Ticks(a.elapsed) > settings.disconnectTimeout)
  {
    assert Elapsed([a], s.lives[i].address) == if a.Update? && a.address == s.lives[i].address then Ticks(a.elapsed) else 0;
    if a.Update? {
      UpdateEnds(s, settings, a.address, a.elapsed, i);
    } else {
      OthersStill(s, settings, a, i);
    }
  }

  /** Whatever is received meanwhile, a peer that is shut down ends by the clock alone: while it is in the table its
      silence is the time its updates counted, when that passes the timeout it is DISCONNECTED, and once out it stays out. */
  lemma {:induction false} EndsByTheClock(s: ManagerState, settings: Settings, actions: seq<ManagerAction>, i: nat)
    requires Inv(s) && i < |s.lives| && Ending(s.lives[i], settings)
    ensures var t := Run(s, settings, actions);
            && i < |t.lives|
            && (InTable(t, i) ==>
                  && InTable(s, i)
                  && t.lives[i].silence == s.lives[i].silence + Elapsed(actions, s.lives[i].address)
                  && (t.lives[i].silence > settings.disconnectTimeout ==> t.lives[i].state == Disconnected))
    decreases |actions|
  {
    if actions != [] {
      EndingStep(s, settings, actions[0], i);
      ApplyKeepsInv(s, settings, actions[0]);
      EndsByTheClock(Apply(s, settings, actions[0]), settings, actions[1..], i);
    }
  }

  /** How many more updates a peer that is shut down can see before it leaves the table. */
  function Remaining(l: Life, settings: Settings): nat {
    if l.silence > settings.disconnectTimeout then 0 else settings.disconnectTimeout - l.silence + 1
  }

  lemma LeavingStep(s: ManagerState, settings: Settings, a: ManagerAction, i: nat)
    requires Inv(s) && i < |s.lives| && Ending(s.lives[i], settings)
    ensures var t := Apply(s, settings, a);
            && i < |t.lives|
            && (InTable(t, i) ==> Updates([a], s.lives[i].address) + Remaining(t.lives[i], settings) <= Remaining(s.lives[i], settings))
  {
    EndingStep(s, settings, a, i);
    assert Elapsed([a], s.lives[i].address) == if a.Update? && a.address == s.lives[i].address then Ticks(a.elapsed) else 0;
    assert Updates([a], s.lives[i].address) == if a.Update? && a.address == s.lives[i].address then 1 else 0;
  }

  /** A peer that is shut down leaves the table: whatever is received meanwhile, it is still there only as long as it has seen
      no more updates than remained to it, which are at most the timeout and one. */
  lemma {:induction false} LeavesTheTable(s: ManagerState, settings: Settings, actions: seq<ManagerAction>, i: nat)
    requires Inv(s) && i < |s.lives| && Ending(s.lives[i], settings)
    ensures var t := Run(s, settings, actions);
            && i < |t.lives|
            && (InTable(t, i) ==> Updates(actions, s.lives[i].address) <= Remaining(s.lives[i], settings))
    decreases |actions|
  {
    EndsByTheClock(s, settings, actions, i);
    if actions != [] {
      var t := Apply(s, settings, actions[0]);
      EndingStep(s, settings, actions[0], i);
      LeavingStep(s, settings, actions[0], i);
      ApplyKeepsInv(s, settings, actions[0]);
      LeavesTheTable(t, settings, actions[1..], i);
      EndsByTheClock(t, settings, actions[1..], i);
      assert Updates(actions, s.lives[i].address) == Updates([actions[0]], s.lives[i].address) + Updates(actions[1..], s.lives[i].address);
    }
  }

  // ---- How a peer in use ends -------------------------------------------------------------------

  // What may become of a peer on a step that is not an update.
  predicate KeptOrEnded(l: Life, m: Life, a: ManagerAction) {
    || m == l
    || !InUse(m.state)
    || (a.GotAccept? && l.state == Outgoing && m.state == Connected)
    || (a.GotOther? && a.from == l.address && m == l.(silence := 0))
  }

  lemma DropKeepsOrEnds(s: ManagerState, address: Address, reason: Reason, force: bool, i: nat)
    requires WellFormed(s) && i < |s.lives|
    ensures var t := Drop(s, address, reason, force);
            i < |t.lives| && (t.lives[i] == s.lives[i] || !InUse(t.lives[i].state))
  {}

  lemma OthersKeepOrEnd(s: ManagerState, settings: Settings, a: ManagerAction, i: nat)
    requires WellFormed(s) && i < |s.lives| && !a.Update?
    ensures var t := Apply(s, settings, a); i < |t.lives| && KeptOrEnded(s.lives[i], t.lives[i], a)
  {
    match a
    case Dialing(_, _, _) =>
    case Solve(_, _) =>
    case Close(address) => DropKeepsOrEnds(s, address, PeerCalled, false, i);
    case NetworkFailed(address) => DropKeepsOrEnds(s, address, Unreachable, true, i);
    case GotRequest(from, request) =>
      DropKeepsOrEnds(s, from, Reconnect, true, i);
      DropKeepsOrEnds(s, from, PeerToPeer, true, i);
    case GotAccept(_, _, _, _) =>
    case GotDisconnect(from, _, _, _) =>
      DropKeepsOrEnds(s, from, RemoteClose, true, i);
      DropKeepsOrEnds(s, from, ConnectionRejected, true, i);
    case GotPeerNotFound(from, _) => DropKeepsOrEnds(s, from, PeerNotFound, true, i);
    case GotInvalidProtocol(from) => DropKeepsOrEnds(s, from, InvalidProtocol, true, i);
    case GotOther(_, _, _) =>
  }

  // An update of a peer in use, which is in the table, or of another.
  lemma UpdatePasses(s: ManagerState, settings: Settings, address: Address, elapsed: int, i: nat)
    requires Inv(s) && i < |s.lives| && InUse(s.lives[i].state)
    ensures var t := OnUpdate(s, settings, address, elapsed);
            var (l, turn) := Pass(s.lives[i], settings, Ticks(elapsed));
            && i < |t.lives|
            && (address != s.lives[i].address ==> t.lives[i] == s.lives[i])
            && (address == s.lives[i].address && !turn.GiveUp? ==> t.lives[i] == l)
            && (address == s.lives[i].address && turn.GiveUp? ==> t.lives[i].state == Disconnected)
  {
    assert InTable(s, i);
  }

  lemma SilentStep(s: ManagerState, settings: Settings, a: ManagerAction, i: nat)
    requires Inv(s) && i < |s.lives| && s.lives[i].state == Connected && s.lives[i].silence <= settings.disconnectTimeout
    requires a.GotOther? ==> a.from != s.lives[i].address
    ensures var t := Apply(s, settings, a);
            && i < |t.lives|
            && (t.lives[i].state == Connected ==>
                  t.lives[i].silence == s.lives[i].silence + Elapsed([a], s.lives[i].address) <= settings.disconnectTimeout)
  {
    assert Elapsed([a], s.lives[i].address) == if a.Update? && a.address == s.lives[i].address then Ticks(a.elapsed) else 0;
    if a.Update? {
      UpdatePasses(s, settings, a.address, a.elapsed, i);
    } else {
      OthersKeepOrEnd(s, settings, a, i);
    }
  }

  /** A connected peer that hears nothing is still connected only while the time its updates counted is within the timeout. */
  lemma {:induction false} SilentPeerEnds(s: ManagerState, settings: Settings, actions: seq<ManagerAction>, i: nat)
    requires Inv(s) && i < |s.lives| && s.lives[i].state == Connected && s.lives[i].silence <= settings.disconnectTimeout
    requires forall k :: 0 <= k < |actions| && actions[k].GotOther? ==> actions[k].from != s.lives[i].address
    ensures var t := Run(s, settings, actions);
            && i < |t.lives|
            && (t.lives[i].state == Connected ==>
                  t.lives[i].silence == s.lives[i].silence + Elapsed(actions, s.lives[i].address) <= settings.disconnectTimeout)
    decreases |actions|
  {
    RunKeepsInv(s, settings, actions);
    if actions != [] {
      var a, t := actions[0], Apply(s, settings, actions[0]);
      ApplyKeepsInv(s, settings, a);
      RunKeepsInv(t, settings, actions[1..]);
      SilentStep(s, settings, a, i);
      if t.lives[i].state == Connected {
        SilentPeerEnds(t, settings, actions[1..], i);
      }
    }
  }

  // A dialing peer whose timer and attempts are within their bounds.
  predicate StillDialing(l: Life, settings: Settings) {
    && l.state == Outgoing
    && 0 <= l.attempts <= settings.maxConnectAttempts && 0 <= l.connectTimer <= settings.reconnectDelay
  }

  /** How many more updates a dialing peer can see. */
  function Budget(l: Life, settings: Settings): int {
    (settings.maxConnectAttempts - l.attempts) * (settings.reconnectDelay + 1) + settings.reconnectDelay - l.connectTimer
  }

  lemma PassSpendsBudget(l: Life, settings: Settings, delta: int)
    requires StillDialing(l, settings) && delta >= 1
    ensures var (m, turn) := Pass(l, settings, delta);
            turn.GiveUp? || (StillDialing(m, settings) && Budget(m, settings) < Budget(l, settings))
  {
    var d := settings.reconnectDelay + 1;
    assert (settings.maxConnectAttempts - (l.attempts + 1)) * d == (settings.maxConnectAttempts - l.attempts) * d - d;
  }

  lemma DialStep(s: ManagerState, settings: Settings, a: ManagerAction, i: nat)
    requires Inv(s) && i < |s.lives| && StillDialing(s.lives[i], settings)
    ensures var t := Apply(s, settings, a);
            && i < |t.lives|
            && (t.lives[i].state == Outgoing ==>
                  && StillDialing(t.lives[i], settings)
                  && Budget(t.lives[i], settings) <= Budget(s.lives[i], settings) - Updates([a], s.lives[i].address))
  {
    assert Updates([a], s.lives[i].address) == if a.Update? && a.address == s.lives[i].address then 1 else 0;
    if a.Update? {
      UpdatePasses(s, settings, a.address, a.elapsed, i);
      PassSpendsBudget(s.lives[i], settings, Ticks(a.elapsed));
    } else {
      OthersKeepOrEnd(s, settings, a, i);
    }
  }

  /** A dial always ends: by an answer, or by giving up when the attempts are used up. Whatever arrives, a peer is not
      still dialing after more updates than its budget, which is less than (maximum of attempts + 1) * (delay + 1). */
  lemma {:induction false} DialEnds(s: ManagerState, settings: Settings, actions: seq<ManagerAction>, i: nat)
    requires Inv(s) && i < |s.lives| && StillDialing(s.lives[i], settings)
    ensures var t := Run(s, settings, actions);
            && i < |t.lives|
            && (t.lives[i].state == Outgoing ==>
                  && StillDialing(t.lives[i], settings)
                  && 0 <= Budget(t.lives[i], settings) <= Budget(s.lives[i], settings) - Updates(actions, s.lives[i].address))
    decreases |actions|
  {
    RunKeepsInv(s, settings, actions);
    BudgetIsNatural(s.lives[i], settings);
    if actions != [] {
      var a, t := actions[0], Apply(s, settings, actions[0]);
      ApplyKeepsInv(s, settings, a);
      RunKeepsInv(t, settings, actions[1..]);
      DialStep(s, settings, a, i);
      if t.lives[i].state == Outgoing {
        DialEnds(t, settings, actions[1..], i);
      }
    }
  }

  lemma BudgetIsNatural(l: Life, settings: Settings)
    requires StillDialing(l, settings)
    ensures 0 <= Budget(l, settings)
  {}

  // ---- Two ends that dial each other ------------------------------------------------------------

  /** Both ends dialed: `here` and `there` are their addresses, and each meets the other's request. Exactly one should give
      way. When they dialed at the same moment, both do if and only if each address is somewhere smaller than the other: the
      comparison goes on after the first byte that differs. Neither does only if the addresses are the same. */
  lemma WhoGivesWay(here: Address, there: Address, mine: Life, theirs: Life)
    requires mine.state == Outgoing && mine.address == there && theirs.state == Outgoing && theirs.address == here
    ensures var i := Meet(mine, Request(theirs.time, theirs.number, 0, here)) == Lose;
            var you := Meet(theirs, Request(mine.time, mine.number, 0, there)) == Lose;
            && ((i && you) <==> mine.time == theirs.time && SomewhereSmaller(here, there) && SomewhereSmaller(there, here))
            && ((!i && !you) <==> mine.time == theirs.time && here == there)
  {
    if !SomewhereSmaller(here, there) && !SomewhereSmaller(there, here) {
      assert here == there;
    }
  }

  /** 10.0.0.1 port 9 and 10.0.0.2 port 5, dialing each other at the same moment, both give way. */
  lemma BothGiveWay(now: int, number: int)
    ensures var here: Address := [2, 0, 0, 9, 10, 0, 0, 1, 0, 0, 0, 0, 0, 0, 0, 0];
            var there: Address := [2, 0, 0, 5, 10, 0, 0, 2, 0, 0, 0, 0, 0, 0, 0, 0];
            && Meet(Dial(there, now, number), Request(now, number, 0, here)) == Lose
            && Meet(Dial(here, now, number), Request(now, number, 0, there)) == Lose
  {
    var here: Address := [2, 0, 0, 9, 10, 0, 0, 1, 0, 0, 0, 0, 0, 0, 0, 0];
    var there: Address := [2, 0, 0, 5, 10, 0, 0, 2, 0, 0, 0, 0, 0, 0, 0, 0];
    assert here[7] < there[7] && there[3] < here[3];
    assert SomewhereSmaller(here, there) && SomewhereSmaller(there, here);
  }
}
