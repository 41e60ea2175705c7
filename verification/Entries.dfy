/** What each call, packet and update does to the connections of a manager, told from the side of a peer: what ends it and why,
    what connects it, who is left alone, and when its timers run out. And two managers that dial, answer and close. */
module Entries {
  import opened Packets
  import opened PeerTable
  import opened Timers
  import opened Lifecycle

  // ---- Timers -----------------------------------------------------------------------------------

  /** What one update after another has the peer do. */
  function Turns(l: Life, settings: Settings, deltas: seq<int>): seq<Turn>
    decreases |deltas|
  {
    if deltas == [] then []
    else
      var (m, turn) := Pass(l, settings, deltas[0]);
      [turn] + Turns(m, settings, deltas[1..])
  }

  lemma {:induction false} TurnsLength(l: Life, settings: Settings, deltas: seq<int>)
    ensures |Turns(l, settings, deltas)| == |deltas|
    decreases |deltas|
  {
    if deltas != [] { TurnsLength(Pass(l, settings, deltas[0]).0, settings, deltas[1..]); }
  }

  // The first turn that is not `dull` is turn `k`, and is `turn`.
  predicate FirstTurn(turns: seq<Turn>, k: nat, turn: Turn, dull: Turn)
    requires k < |turns|
  {
    turns[k] == turn && forall j :: 0 <= j < k ==> turns[j] == dull
  }

  lemma FirstTurnNext(first: Turn, later: seq<Turn>, k: nat, turn: Turn, dull: Turn)
    requires k <= |later| && turn != dull
    ensures var all := [first] + later;
            FirstTurn(all, k, turn, dull) <==> if k == 0 then first == turn else first == dull && FirstTurn(later, k - 1, turn, dull)
  {
    var all := [first] + later;
    assert forall j :: 0 <= j < |later| ==> all[j + 1] == later[j];
    if k > 0 {
      assert forall j :: 0 < j < k ==> all[j] == later[j - 1];
      if FirstTurn(all, k, turn, dull) {
        assert forall j :: 0 <= j < k - 1 ==> later[j] == all[j + 1] == dull;
        assert all[0] == dull && later[k - 1] == all[k];
      }
    }
  }

  /** A connected peer times out at just the update that brings its silence past the timeout. */
  lemma {:induction false} TimesOut(l: Life, settings: Settings, deltas: seq<int>, k: nat)
    requires l.state == Connected && l.silence <= settings.disconnectTimeout && Positive(deltas) && k < |deltas|
    ensures |Turns(l, settings, deltas)| == |deltas|
    ensures FirstTurn(Turns(l, settings, deltas), k, GiveUp(Timeout), Serve)
            <==> Timers.Reaches(l.silence, deltas, k, settings.disconnectTimeout + 1)
    decreases |deltas|
  {
    var (m, turn) := Pass(l, settings, deltas[0]);
    TurnsLength(m, settings, deltas[1..]);
    ReachesNext(l.silence, deltas, k, settings.disconnectTimeout + 1);
    FirstTurnNext(turn, Turns(m, settings, deltas[1..]), k, GiveUp(Timeout), Serve);
    if k > 0 && turn == Serve { TimesOut(m, settings, deltas[1..], k - 1); }
  }

  /** A dialing peer asks again, or gives up after the last time, at just the update that brings the time since it last asked
      past the delay. */
  lemma {:induction false} AsksAgain(l: Life, settings: Settings, deltas: seq<int>, k: nat)
    requires l.state == Outgoing && l.connectTimer <= settings.reconnectDelay && Positive(deltas) && k < |deltas|
    ensures |Turns(l, settings, deltas)| == |deltas|
    ensures var turn := if l.attempts >= settings.maxConnectAttempts then GiveUp(ConnectionFailed) else SendRequest;
            FirstTurn(Turns(l, settings, deltas), k, turn, Idle)
            <==> Timers.Reaches(l.connectTimer, deltas, k, settings.reconnectDelay + 1)
    decreases |deltas|
  {
    var (m, first) := Pass(l, settings, deltas[0]);
    TurnsLength(m, settings, deltas[1..]);
    ReachesNext(l.connectTimer, deltas, k, settings.reconnectDelay + 1);
    FirstTurnNext(first, Turns(m, settings, deltas[1..]), k,
                  if l.attempts >= settings.maxConnectAttempts then GiveUp(ConnectionFailed) else SendRequest, Idle);
    if k > 0 && first == Idle { AsksAgain(m, settings, deltas[1..], k - 1); }
  }

  /** A closing peer repeats its DISCONNECT at just the update that brings the time since it last sent it to 300. */
  lemma {:induction false} RepeatsShutdown(l: Life, settings: Settings, deltas: seq<int>, k: nat)
    requires l.state == ShutdownRequested && l.shutdownTimer < 300 && Positive(deltas) && k < |deltas|
    requires l.silence + Sum(deltas) <= settings.disconnectTimeout
    ensures |Turns(l, settings, deltas)| == |deltas|
    ensures FirstTurn(Turns(l, settings, deltas), k, SendShutdown, Idle) <==> Timers.Reaches(l.shutdownTimer, deltas, k, 300)
    decreases |deltas|
  {
    var (m, turn) := Pass(l, settings, deltas[0]);
    SumPositive(deltas[1..]);
    TurnsLength(m, settings, deltas[1..]);
    ReachesNext(l.shutdownTimer, deltas, k, 300);
    FirstTurnNext(turn, Turns(m, settings, deltas[1..]), k, SendShutdown, Idle);
    if k > 0 && turn == Idle { RepeatsShutdown(m, settings, deltas[1..], k - 1); }
  }

  // ---- Who is left alone --------------------------------------------------------------------------

  function AddressOf(a: ManagerAction): Address {
    match a
    case Dialing(to, _, _) => to
    case Solve(from, _) => from
    case Close(address) => address
    case NetworkFailed(address) => address
    case GotRequest(from, _) => from
    case GotAccept(from, _, _, _) => from
    case GotDisconnect(from, _, _, _) => from
    case GotPeerNotFound(from, _) => from
    case GotInvalidProtocol(from) => from
    case GotOther(from, _, _) => from
    case Update(address, _) => address
  }

  // An event that is not about the address.
  predicate Away(e: PeerEvent, t: ManagerState, x: Address) {
    if e.Requested? then e.from != x else e.peer < |t.lives| && t.lives[e.peer].address != x
  }

  /** Nothing about the address has changed: none of its peers, not its place in the table or its pending request, and no event
      is about it. */
  ghost predicate Untouched(s: ManagerState, t: ManagerState, x: Address) {
    && |s.lives| <= |t.lives| && (forall j :: 0 <= j < |s.lives| ==> t.lives[j].address == s.lives[j].address)
    && (forall j :: 0 <= j < |s.lives| && s.lives[j].address == x ==> t.lives[j] == s.lives[j])
    && (x in t.peers <==> x in s.peers) && (x in s.peers ==> t.peers[x] == s.peers[x])
    && (x in t.requests <==> x in s.requests) && (x in s.requests ==> t.requests[x] == s.requests[x])
    && s.events <= t.events && (forall k :: |s.events| <= k < |t.events| ==> Away(t.events[k], t, x))
  }

  lemma UntouchedThen(s: ManagerState, t: ManagerState, u: ManagerState, x: Address)
    requires Untouched(s, t, x) && Untouched(t, u, x)
    ensures Untouched(s, u, x)
  {
    forall k | |s.events| <= k < |u.events|
      ensures Away(u.events[k], u, x)
    {
      if k < |t.events| { assert u.events[k] == t.events[k]; }
    }
  }

  lemma DropElsewhere(s: ManagerState, address: Address, reason: Reason, force: bool, x: Address)
    requires WellFormed(s) && address != x
    ensures WellFormed(Drop(s, address, reason, force)) && Untouched(s, Drop(s, address, reason, force), x)
  {}

  lemma AskElsewhere(s: ManagerState, from: Address, request: Request, x: Address)
    requires from != x
    ensures Untouched(s, Ask(s, from, request), x)
  {}

  // The peer makes room for a request, which is then asked about.
  lemma RemovedElsewhere(s: ManagerState, t: ManagerState, from: Address, request: Request, x: Address)
    requires Untouched(s, t, x) && from != x
    ensures Untouched(s, Ask(Remove(t, from), from, request), x)
  {
    var u := Remove(t, from);
    assert Untouched(t, u, x);
    AskElsewhere(u, from, request, x);
    UntouchedThen(s, t, u, x);
    UntouchedThen(s, u, Ask(u, from, request), x);
  }

  lemma RequestElsewhere(s: ManagerState, from: Address, request: Request, x: Address)
    requires WellFormed(s) && from != x
    ensures Untouched(s, OnRequest(s, from, request), x)
  {
    if from !in s.peers {
      AskElsewhere(s, from, request, x);
    } else {
      var l := s.lives[s.peers[from]];
      match Meet(l, request)
      case Ignored =>
      case Reconnection =>
        DropElsewhere(s, from, Reconnect, true, x);
        RemovedElsewhere(s, Drop(s, from, Reconnect, true), from, Renumbered(request, l), x);
      case NewConnection => RemovedElsewhere(s, s, from, Renumbered(request, l), x);
      case Lose =>
        DropElsewhere(s, from, PeerToPeer, true, x);
        RemovedElsewhere(s, Drop(s, from, PeerToPeer, true), from, request, x);
    }
  }

  lemma DialElsewhere(s: ManagerState, to: Address, now: int, leftover: int, x: Address)
    requires WellFormed(s) && to != x
    ensures Untouched(s, OnDial(s, to, now, leftover), x)
  {}

  lemma SolveElsewhere(s: ManagerState, from: Address, result: RequestResult, x: Address)
    requires from != x
    ensures Untouched(s, OnSolve(s, from, result), x)
  {}

  lemma AcceptElsewhere(s: ManagerState, from: Address, time: int, number: int, peerId: int, x: Address)
    requires WellFormed(s) && from != x
    ensures Untouched(s, OnAccept(s, from, time, number, peerId), x)
  {}

  lemma UpdateElsewhere(s: ManagerState, settings: Settings, address: Address, elapsed: int, x: Address)
    requires WellFormed(s) && address != x
    ensures Untouched(s, OnUpdate(s, settings, address, elapsed), x)
  {
    if address in s.peers {
      var i := s.peers[address];
      var (l, turn) := Pass(s.lives[i], settings, Ticks(elapsed));
      var t := With(s, i, l);
      assert WellFormed(t) && Untouched(s, t, x);
      if turn.GiveUp? {
        DropElsewhere(t, address, turn.reason, true, x);
        UntouchedThen(s, t, Drop(t, address, turn.reason, true), x);
      }
    }
  }

  predicate Got(a: ManagerAction) {
    a.GotRequest? || a.GotAccept? || a.GotDisconnect? || a.GotPeerNotFound? || a.GotInvalidProtocol? || a.GotOther?
  }

  lemma GotElsewhere(s: ManagerState, settings: Settings, a: ManagerAction, x: Address)
    requires WellFormed(s) && AddressOf(a) != x && Got(a)
    ensures Untouched(s, Apply(s, settings, a), x)
  {
    match a
    case GotRequest(from, request) => RequestElsewhere(s, from, request, x);
    case GotAccept(from, time, number, peerId) => AcceptElsewhere(s, from, time, number, peerId, x);
    case GotDisconnect(from, _, _, _) =>
      DropElsewhere(s, from, RemoteClose, true, x);
      DropElsewhere(s, from, ConnectionRejected, true, x);
    case GotPeerNotFound(from, _) => DropElsewhere(s, from, PeerNotFound, true, x);
    case GotInvalidProtocol(from) => DropElsewhere(s, from, InvalidProtocol, true, x);
    case GotOther(from, shutdownOk, number) => HearElsewhere(s, from, shutdownOk, number, x);
  }

  lemma HearElsewhere(s: ManagerState, from: Address, shutdownOk: bool, number: int, x: Address)
    requires WellFormed(s) && from != x
    ensures from in s.peers ==> Untouched(s, With(s, s.peers[from], Hear(s.lives[s.peers[from]], shutdownOk, number)), x)
    ensures Untouched(s, s, x)
  {}

  /** What happens at one address leaves every other one alone. */
  lemma OthersUntouched(s: ManagerState, settings: Settings, a: ManagerAction, x: Address)
    requires WellFormed(s) && AddressOf(a) != x
    ensures Untouched(s, Apply(s, settings, a), x)
  {
    match a
    case Dialing(to, now, leftover) => DialElsewhere(s, to, now, leftover, x);
    case Solve(from, result) => SolveElsewhere(s, from, result, x);
    case Close(address) => DropElsewhere(s, address, PeerCalled, false, x);
    case NetworkFailed(address) => DropElsewhere(s, address, Unreachable, true, x);
    case Update(address, elapsed) => UpdateElsewhere(s, settings, address, elapsed, x);
    case _ => GotElsewhere(s, settings, a, x);
  }

  // ---- What ends a connection, and what begins one ----------------------------------------------

  datatype End = End(state: ConnectionState, reason: Reason)

  // The request of a peer that connected anew, or that dialed too and goes first.
  ghost predicate Supersedes(l: Life, r: Request) {
    match l.state
    case Connected => r.time > l.time
    case Outgoing => r.time < l.time || (r.time == l.time && exists i :: 0 <= i < ADDRESS_SIZE && l.address[i] < r.target[i])
    case _ => r.time >= l.time
  }

  /** What ends a peer in use, the state it is left in and the reason that is given. */
  ghost function EndOf(l: Life, settings: Settings, a: ManagerAction): Option<End> {
    if AddressOf(a) != l.address then None
    else if a.Close? then Some(End(ShutdownRequested, PeerCalled))
    else if a.NetworkFailed? then Some(End(Disconnected, Unreachable))
    else if a.GotDisconnect? && a.size >= 9 && a.time == l.time && a.number == l.number then
      Some(End(Disconnected, if l.state == Connected then RemoteClose else ConnectionRejected))
    else if a.GotPeerNotFound? && a.final && l.state == Connected then Some(End(Disconnected, PeerNotFound))
    else if a.GotInvalidProtocol? && l.state == Outgoing then Some(End(Disconnected, InvalidProtocol))
    else if a.GotRequest? && Supersedes(l, a.request) then
      Some(End(Disconnected, if l.state == Connected then Reconnect else PeerToPeer))
    else if a.Update? && l.state == Connected && l.silence + Ticks(a.elapsed) > settings.disconnectTimeout then
      Some(End(Disconnected, Timeout))
    else if a.Update? && l.state == Outgoing && l.connectTimer + Ticks(a.elapsed) > settings.reconnectDelay
            && l.attempts >= settings.maxConnectAttempts then
      Some(End(Disconnected, ConnectionFailed))
    else None
  }

  predicate Accepts(l: Life, a: ManagerAction) {
    a.GotAccept? && a.from == l.address && l.state == Outgoing && a.time == l.time
  }

  lemma DropIsEnd(s: ManagerState, address: Address, reason: Reason, force: bool, i: nat)
    requires Inv(s) && i < |s.lives| && InUse(s.lives[i].state) && s.lives[i].address == address
    ensures var t := Drop(s, address, reason, force);
            && |t.lives| == |s.lives| && t.events == s.events + [Disconnect(i, reason)] && t.peers == s.peers
            && t.lives[i].state == (if force then Disconnected else ShutdownRequested)
            && t.lives[i] == s.lives[i].(state := t.lives[i].state, silence := if force then s.lives[i].silence else 0)
  {
    assert InTable(s, i);
  }

  // What the step did to peer `i`, which was in use: it ended it, or it did not.
  ghost predicate EndedOrNot(s: ManagerState, t: ManagerState, i: nat, e: Option<End>, accepted: bool)
    requires i < |s.lives|
  {
    && i < |t.lives|
    && match e
       case Some(e) => t.lives[i].state == e.state && s.events + [Disconnect(i, e.reason)] <= t.events
       case None =>
         && t.lives[i].state == (if accepted then Connected else s.lives[i].state)
         && (forall r :: Disconnect(i, r) in t.events ==> Disconnect(i, r) in s.events)
  }

  /** A peer in use goes out of use exactly by one of these, is left in the state that belongs to it, and one DISCONNECT with
      its reason is raised; nothing else that happens ends it. */
  lemma EndsExactly(s: ManagerState, settings: Settings, a: ManagerAction, i: nat)
    requires Inv(s) && i < |s.lives| && InUse(s.lives[i].state)
    ensures EndedOrNot(s, Apply(s, settings, a), i, EndOf(s.lives[i], settings, a), Accepts(s.lives[i], a))
  {
    if AddressOf(a) != s.lives[i].address {
      OthersEndNot(s, settings, a, i);
    } else {
      match a
      case GotRequest(_, request) => RequestEnds(s, settings, request, i);
      case GotDisconnect(_, size, time, number) => PacketEnds(s, settings, size, time, number, i);
      case Update(_, elapsed) => UpdateEnds(s, settings, elapsed, i);
      case _ => CallEnds(s, settings, a, i);
    }
  }

  lemma RequestEnds(s: ManagerState, settings: Settings, request: Request, i: nat)
    requires Inv(s) && i < |s.lives| && InUse(s.lives[i].state)
    ensures var a := GotRequest(s.lives[i].address, request);
            EndedOrNot(s, Apply(s, settings, a), i, EndOf(s.lives[i], settings, a), false)
  {
    assert InTable(s, i);
    DropIsEnd(s, s.lives[i].address, if s.lives[i].state == Connected then Reconnect else PeerToPeer, true, i);
  }

  lemma PacketEnds(s: ManagerState, settings: Settings, size: int, time: int, number: int, i: nat)
    requires Inv(s) && i < |s.lives| && InUse(s.lives[i].state)
    ensures var a := GotDisconnect(s.lives[i].address, size, time, number);
            EndedOrNot(s, Apply(s, settings, a), i, EndOf(s.lives[i], settings, a), false)
  {
    assert InTable(s, i);
    DropIsEnd(s, s.lives[i].address, if s.lives[i].state == Connected then RemoteClose else ConnectionRejected, true, i);
  }

  lemma UpdateEnds(s: ManagerState, settings: Settings, elapsed: int, i: nat)
    requires Inv(s) && i < |s.lives| && InUse(s.lives[i].state)
    ensures var a := Update(s.lives[i].address, elapsed);
            EndedOrNot(s, Apply(s, settings, a), i, EndOf(s.lives[i], settings, a), false)
  {
    assert InTable(s, i);
  }

  lemma CallEnds(s: ManagerState, settings: Settings, a: ManagerAction, i: nat)
    requires Inv(s) && i < |s.lives| && InUse(s.lives[i].state) && AddressOf(a) == s.lives[i].address
    requires !a.GotRequest? && !a.GotDisconnect? && !a.Update?
    ensures EndedOrNot(s, Apply(s, settings, a), i, EndOf(s.lives[i], settings, a), Accepts(s.lives[i], a))
  {
    assert InTable(s, i);
    if e :| EndOf(s.lives[i], settings, a) == Some(e) {
      DropIsEnd(s, s.lives[i].address, e.reason, e.state == Disconnected, i);
    }
  }

  lemma OthersEndNot(s: ManagerState, settings: Settings, a: ManagerAction, i: nat)
    requires Inv(s) && i < |s.lives| && InUse(s.lives[i].state) && AddressOf(a) != s.lives[i].address
    ensures EndedOrNot(s, Apply(s, settings, a), i, None, false)
  {
    OthersUntouched(s, settings, a, s.lives[i].address);
    var t := Apply(s, settings, a);
    forall r | Disconnect(i, r) in t.events
      ensures Disconnect(i, r) in s.events
    {
      var k :| 0 <= k < |t.events| && t.events[k] == Disconnect(i, r);
      if k < |s.events| { assert s.events[k] == t.events[k]; }
    }
  }

  // ---- Each entry point -------------------------------------------------------------------------

  /** A peer can be shut down while it is in use: then it is told whether it was connected. By force it is down at once; otherwise
      it starts to wait, with its silence counted anew. One that is closing or down stays as it is. */
  lemma ShutdownExactly(l: Life, force: bool)
    ensures var (m, result) := Lifecycle.Shutdown(l, force);
            && (result == Unchanged <==> l.state == ShutdownRequested || l.state == Disconnected)
            && (result == WasConnected <==> l.state == Connected) && (result == Success <==> l.state == Outgoing)
            && (result == Unchanged ==> m == l)
            && (result != Unchanged && force ==> m == l.(state := Disconnected))
            && (result != Unchanged && !force ==> m == l.(state := ShutdownRequested, silence := 0))
  {}

  /** What the application says to a request: accepting makes a connected peer and raises CONNECT, rejecting makes a peer that
      is closing and raises nothing, rejecting by force makes none; unless the address has a peer already. The request is
      gone. */
  lemma SolvedExactly(s: ManagerState, from: Address, result: RequestResult)
    ensures var t, i := OnSolve(s, from, result), |s.lives|;
            && t.requests == s.requests - {from}
            && if from !in s.requests || from in s.peers || result == RejectForce then
                 t.lives == s.lives && t.peers == s.peers && t.events == s.events
               else
                 var r := s.requests[from];
                 && |t.lives| == i + 1 && t.lives[..i] == s.lives && t.peers == s.peers[from := i]
                 && t.lives[i].address == from && t.lives[i].time == r.time && t.lives[i].number == r.number
                 && t.lives[i].silence == 0 && t.lives[i].shutdownTimer == 0
                 && t.lives[i].origin == (if result == Accept then Accepted else Rejected)
                 && (result == Accept ==>
                       && t.lives[i].state == Connected && t.lives[i].remoteId == r.peerId
                       && t.events == s.events + [Connect(i)])
                 && (result == Reject ==>
                       && t.lives[i].state == ShutdownRequested && t.lives[i].remoteId == 0
                       && t.events == s.events)
  {
    if from !in s.requests { assert s.requests - {from} == s.requests; }
  }

  /** A dial makes a new peer unless a request from there is pending or the peer there is in use; after an old peer it takes the
      next connection number. */
  lemma DialedExactly(s: ManagerState, to: Address, now: int, leftover: int)
    requires WellFormed(s)
    ensures var t, i := OnDial(s, to, now, leftover), |s.lives|;
            if to in s.requests || (to in s.peers && InUse(s.lives[s.peers[to]].state)) then t == s
            else
              && t.lives[..i] == s.lives && |t.lives| == i + 1 && t.peers == s.peers[to := i]
              && t.requests == s.requests && t.events == s.events
              && t.lives[i].state == Outgoing && t.lives[i].address == to && t.lives[i].time == now
              && t.lives[i].number == (if to in s.peers then (s.lives[s.peers[to]].number + 1) % 4 else leftover)
              && t.lives[i].silence == 0 && t.lives[i].connectTimer == 0 && t.lives[i].attempts == 0
              && t.lives[i].origin == Origin.Dialed && t.lives[i].remoteId == 0
  {}

  /** An acceptance connects the peer that dialed at that very time, gives it the number and the id that the far end chose, and
      raises one CONNECT; anyone else's changes nothing. */
  lemma AcceptedExactly(s: ManagerState, from: Address, time: int, number: int, peerId: int)
    requires WellFormed(s)
    ensures var t := OnAccept(s, from, time, number, peerId);
            if from in s.peers && s.lives[s.peers[from]].state == Outgoing && s.lives[s.peers[from]].time == time then
              var i := s.peers[from];
              && t.lives[i].state == Connected && t.lives[i].number == number && t.lives[i].remoteId == peerId
              && t.lives[i].silence == 0 && t.lives[i].time == time && t.events == s.events + [Connect(i)]
              && t == s.(lives := s.lives[i := t.lives[i]], events := t.events)
            else t == s
  {}

  // What a superseded peer in use is told of.
  function Ended(s: ManagerState, x: Address): seq<PeerEvent>
    requires WellFormed(s)
  {
    if x in s.peers && InUse(s.lives[s.peers[x]].state)
    then [Disconnect(s.peers[x], if s.lives[s.peers[x]].state == Connected then Reconnect else PeerToPeer)] else []
  }

  /** A request for a connection: whom it supersedes leaves the table, with a DISCONNECT if it was in use, and the application is
      asked, once; from one whom it does not supersede it is ignored. A peer that was connected or past it is asked about
      under the next connection number. */
  lemma RequestedExactly(s: ManagerState, from: Address, request: Request)
    requires Inv(s)
    ensures var t := OnRequest(s, from, request);
            if from in s.peers && !Supersedes(s.lives[s.peers[from]], request) then t == s
            else
              var asked := if from in s.peers && s.lives[s.peers[from]].state != Outgoing
                           then request.(number := (s.lives[s.peers[from]].number + 1) % 4) else request;
              && t.peers == s.peers - {from} && |t.lives| == |s.lives|
              && t.requests == s.requests[from := if from in s.requests then Newer(s.requests[from], asked) else asked]
              && t.events == s.events + Ended(s, from) + (if from in s.requests then [] else [Requested(from)])
  {
    if from !in s.peers {
      assert s.peers - {from} == s.peers && s.events + [] == s.events;
    } else if Supersedes(s.lives[s.peers[from]], request) {
      SupersededExactly(s, from, request);
    }
  }

  lemma SupersededExactly(s: ManagerState, from: Address, request: Request)
    requires Inv(s) && from in s.peers && Supersedes(s.lives[s.peers[from]], request)
    ensures var t, l := OnRequest(s, from, request), s.lives[s.peers[from]];
            var asked := if l.state != Outgoing then request.(number := (l.number + 1) % 4) else request;
            && t.peers == s.peers - {from} && |t.lives| == |s.lives|
            && t.requests == s.requests[from := if from in s.requests then Newer(s.requests[from], asked) else asked]
            && t.events == s.events + Ended(s, from) + (if from in s.requests then [] else [Requested(from)])
  {
    var i := s.peers[from];
    var l := s.lives[i];
    if InUse(l.state) {
      DropIsEnd(s, from, if l.state == Connected then Reconnect else PeerToPeer, true, i);
    } else {
      assert s.events + [] == s.events;
    }
  }

  /** Of several requests from one address the one kept is the latest; of two as late it is the one that came last, but for one
      with the number of the one kept. */
  lemma NewerIsLatest(kept: Request, request: Request)
    ensures var r := Newer(kept, request);
            && (r == kept || r == request) && r.time >= kept.time && r.time >= request.time
            && (kept.time == request.time ==> r.number == request.number && (kept.number == request.number ==> r == kept))
  {}

  /** A packet under the peer's own number, but for SHUTDOWN_OK, ends the silence of a peer in use, and does nothing else to its
      connection. */
  lemma HeardExactly(s: ManagerState, settings: Settings, from: Address, shutdownOk: bool, number: int)
    requires WellFormed(s)
    ensures var t := Apply(s, settings, GotOther(from, shutdownOk, number));
            if from in s.peers && InUse(s.lives[s.peers[from]].state) && !shutdownOk && number == s.lives[s.peers[from]].number then
              t == s.(lives := s.lives[s.peers[from] := s.lives[s.peers[from]].(silence := 0)])
            else t == s
  {
    if from in s.peers { assert s.lives[s.peers[from] := s.lives[s.peers[from]]] == s.lives; }
  }

  /** An update counts at least a millisecond, and what it makes of the peer is what its timers say. */
  lemma UpdatedExactly(s: ManagerState, settings: Settings, address: Address, elapsed: int)
    requires WellFormed(s) && address in s.peers
    ensures var t, i := OnUpdate(s, settings, address, elapsed), s.peers[address];
            var l, ticks := s.lives[i], if elapsed <= 1 then 1 else elapsed;
            if l.state == Disconnected && l.silence > settings.disconnectTimeout then t == s.(peers := s.peers - {address})
            else
              && t.peers == s.peers && t.requests == s.requests && |t.lives| == |s.lives|
              && t.lives[i].silence == l.silence + ticks
              && (!Pass(l, settings, ticks).1.GiveUp? ==> t == s.(lives := s.lives[i := Pass(l, settings, ticks).0]))
              && (Pass(l, settings, ticks).1.GiveUp? ==> t.lives[i].state == Disconnected)
  {}

  /** A peer leaves the table when it is past its time there, when a request supersedes it, or when its address is dialed anew. */
  lemma GoneExactly(s: ManagerState, settings: Settings, a: ManagerAction, x: Address)
    requires Inv(s) && x in s.peers
    ensures var t, l := Apply(s, settings, a), s.lives[s.peers[x]];
            !(x in t.peers && t.peers[x] == s.peers[x]) <==>
              && AddressOf(a) == x
              && match a
                 case Update(_, _) => l.state == Disconnected && l.silence > settings.disconnectTimeout
                 case GotRequest(_, request) => Supersedes(l, request)
                 case Dialing(_, _, _) => x !in s.requests && !InUse(l.state)
                 case _ => false
  {
    if AddressOf(a) != x {
      OthersUntouched(s, settings, a, x);
    } else {
      match a
      case GotRequest(_, request) => RequestedExactly(s, x, request);
      case Update(_, elapsed) => UpdatedExactly(s, settings, x, elapsed);
      case Dialing(_, now, leftover) => DialedExactly(s, x, now, leftover);
      case Solve(_, result) => SolvedExactly(s, x, result);
      case _ =>
    }
  }

  // ---- Two managers -----------------------------------------------------------------------------

  // What a peer's own packets say: its request, its acceptance and its DISCONNECT.
  function RequestBy(l: Life, localId: int): Request {
    Request(l.time, l.number, localId, l.address)
  }

  function AcceptanceBy(l: Life, from: Address, localId: int): ManagerAction {
    GotAccept(from, l.time, l.number, localId)
  }

  function DisconnectBy(l: Life, from: Address): ManagerAction {
    GotDisconnect(from, 9, l.time, l.number)
  }

  /** One manager dials, the other's application is asked: the states of both after the answer has come back. `x` is the address
      of the one that dials, `y` that of the other. */
  ghost function Dialed(a: ManagerState, settings: Settings, y: Address, now: int, leftover: int): ManagerState
    requires WellFormed(a)
  {
    Apply(a, settings, Dialing(y, now, leftover))
  }

  ghost function Answered(b: ManagerState, settings: Settings, x: Address, request: Request, result: RequestResult): ManagerState
    requires WellFormed(b) && x !in b.peers
  {
    OnSolve(Apply(b, settings, GotRequest(x, request)), x, result)
  }

  ghost predicate Strangers(a: ManagerState, b: ManagerState, x: Address, y: Address) {
    WellFormed(a) && WellFormed(b) && y !in a.peers && y !in a.requests && x !in b.peers && x !in b.requests
  }

  /** A dial that is accepted connects both ends, under one time and one connection number, each knowing the other's id; each
      application is told once. */
  lemma DialIsAccepted(a: ManagerState, b: ManagerState, settings: Settings, x: Address, y: Address, now: int, leftover: int,
      idHere: int, idThere: int)
    requires Strangers(a, b, x, y)
    ensures var (i, j) := (|a.lives|, |b.lives|);
            var a1 := Dialed(a, settings, y, now, leftover);
            && |a1.lives| == i + 1 && WellFormed(a1)
            && var b1 := Answered(b, settings, x, RequestBy(a1.lives[i], idHere), Accept);
            && |b1.lives| == j + 1
            && var a2 := Apply(a1, settings, AcceptanceBy(b1.lives[j], y, idThere));
            && |a2.lives| == i + 1
            && a2.lives[i].state == Connected && b1.lives[j].state == Connected
            && a2.lives[i].time == b1.lives[j].time == now && a2.lives[i].number == b1.lives[j].number == leftover
            && a2.lives[i].remoteId == idThere && b1.lives[j].remoteId == idHere
            && a2.events == a.events + [Connect(i)] && b1.events == b.events + [Requested(x), Connect(j)]
  {}

  /** One that is rejected ends at the far end's DISCONNECT, and its application is told why; the other end was never
      connected. */
  lemma DialIsRejected(a: ManagerState, b: ManagerState, settings: Settings, x: Address, y: Address, now: int, leftover: int,
      idHere: int)
    requires Strangers(a, b, x, y)
    ensures var (i, j) := (|a.lives|, |b.lives|);
            var a1 := Dialed(a, settings, y, now, leftover);
            && |a1.lives| == i + 1 && WellFormed(a1)
            && var b1 := Answered(b, settings, x, RequestBy(a1.lives[i], idHere), Reject);
            && |b1.lives| == j + 1
            && var a2 := Apply(a1, settings, DisconnectBy(b1.lives[j], y));
            && |a2.lives| == i + 1 && a2.lives[i].state == Disconnected && b1.lives[j].state == ShutdownRequested
            && a2.events == a.events + [Disconnect(i, ConnectionRejected)] && b1.events == b.events + [Requested(x)]
  {}

  /** Closing one end of a connection closes the other when its DISCONNECT gets there, each application being told its side. */
  lemma CloseClosesBoth(a: ManagerState, b: ManagerState, settings: Settings, x: Address, y: Address)
    requires WellFormed(a) && WellFormed(b) && y in a.peers && x in b.peers
    requires var l, m := a.lives[a.peers[y]], b.lives[b.peers[x]];
             l.state == m.state == Connected && l.time == m.time && l.number == m.number
    ensures var (i, j) := (a.peers[y], b.peers[x]);
            var a1 := Apply(a, settings, Close(y));
            && |a1.lives| == |a.lives|
            && var b1 := Apply(b, settings, DisconnectBy(a1.lives[i], x));
            && |b1.lives| == |b.lives| && a1.lives[i].state == ShutdownRequested && b1.lives[j].state == Disconnected
            && a1.events == a.events + [Disconnect(i, PeerCalled)] && b1.events == b.events + [Disconnect(j, RemoteClose)]
  {}
}
