/** Peers and their manager as the objects they are, each step proved against module Lifecycle. That the manager's list, map
    and array of peers agree is module PeerTable; here the map stands for all three. */
module Connections {
  import opened Packets
  import opened PeerTable
  import opened Lifecycle

  /** net_peer, as far as its connection goes. */
  class PeerConnection {
    const serial: nat // its place among all peers its manager ever made
    const origin: Origin
    const endpoint: Address
    var state: ConnectionState
    var connectTime: int
    var connectNumber: int
    var remoteId: int
    var timeSinceLastPacket: int
    var shutdownTimer: int
    var connectTimer: int
    var connectAttempts: int

    ghost function View(): Life
      reads this
    {
      Life(origin, endpoint, state, connectTime, connectNumber, remoteId,
           timeSinceLastPacket, shutdownTimer, connectTimer, connectAttempts)
    }

    // What all three constructors start with.
    constructor (serial: nat, life: Life)
      ensures this.serial == serial && View() == life
    {
      this.serial, origin, endpoint, state := serial, life.origin, life.address, life.state;
      connectTime, connectNumber := life.time, life.number;
      remoteId, timeSinceLastPacket, shutdownTimer, connectTimer, connectAttempts :=
        life.remoteId, life.silence, life.shutdownTimer, life.connectTimer, life.attempts;
    }

    method Shutdown(force: bool) returns (result: ShutdownResult)
      modifies this
      ensures (View(), result) == Lifecycle.Shutdown(old(View()), force)
    {
      if state == Disconnected || state == ShutdownRequested {
        return Unchanged;
      }
      result := if state == Connected then WasConnected else Success;
      if force {
        state := Disconnected;
        return;
      }
      timeSinceLastPacket := 0;
      state := ShutdownRequested;
    }

    /** `time` is read from the packet only when it has the nine bytes. */
    method ProcessDisconnect(size: int, time: int, number: int) returns (result: DisconnectResult)
      ensures result == Closing(View(), size, time, number)
    {
      var isConnected := state == Connected || state == Outgoing;
      if isConnected && size >= 9 && time == connectTime && number == connectNumber {
        return if state == Connected then Closed else Refused;
      }
      return NotOurs;
    }

    method ProcessConnectAccept(time: int, number: int, peerId: int) returns (taken: bool)
      modifies this
      ensures (View(), taken) == AcceptedBy(old(View()), time, number, peerId)
    {
      if state != Outgoing {
        return false;
      }
      if time != connectTime {
        return false;
      }
      connectNumber, remoteId, timeSinceLastPacket := number, peerId, 0;
      state := Connected;
      return true;
    }

    /** The guards of process_packet, before it looks at what the packet is. `heard` says that it got past them. */
    method ProcessPacket(shutdownOk: bool, number: int) returns (heard: bool)
      modifies this
      ensures View() == Hear(old(View()), shutdownOk, number)
      ensures heard <==> InUse(old(state)) && !shutdownOk && number == old(connectNumber)
    {
      var isConnected := state == Connected || state == Outgoing;
      if !isConnected {
        return false;
      }
      if shutdownOk {
        if state == ShutdownRequested {
          assert false;
        }
        return false;
      }
      if number != connectNumber {
        return false;
      }
      timeSinceLastPacket := 0;
      return true;
    }

    /** The comparison of addresses when both ends dialed at the same time, from the last byte to the first. */
    static method GivesWay(remote: Address, local: Address) returns (lose: bool)
      ensures lose <==> SomewhereSmaller(remote, local)
    {
      var i := ADDRESS_SIZE - 1;
      while i >= 0
        invariant -1 <= i < ADDRESS_SIZE
        invariant forall k :: i < k < ADDRESS_SIZE ==> remote[k] >= local[k]
        decreases i
      {
        if remote[i] < local[i] {
          return true;
        }
        i := i - 1;
      }
      return false;
    }

    method ProcessConnectRequest(request: Request) returns (outcome: RequestOutcome)
      ensures outcome == Meet(View(), request)
    {
      match state {
        case Outgoing =>
          if request.time < connectTime {
            return Lose;
          }
          if request.time == connectTime {
            var lose := GivesWay(endpoint, request.target);
            if lose {
              return Lose;
            }
          }
        case Connected =>
          if request.time > connectTime {
            return Reconnection;
          }
        case _ =>
          if request.time >= connectTime {
            return NewConnection;
          }
      }
      return Ignored;
    }

    method Update(settings: Settings, delta: int) returns (turn: Turn)
      modifies this
      ensures (View(), turn) == Pass(old(View()), settings, delta)
    {
      timeSinceLastPacket := timeSinceLastPacket + delta;
      match state {
        case Connected =>
          if timeSinceLastPacket > settings.disconnectTimeout {
            return GiveUp(Timeout);
          }
          return Serve;
        case ShutdownRequested =>
          if timeSinceLastPacket > settings.disconnectTimeout {
            state := Disconnected;
          } else {
            shutdownTimer := shutdownTimer + delta;
            if shutdownTimer >= SHUTDOWN_DELAY {
              shutdownTimer := 0;
              return SendShutdown;
            }
          }
          return Idle;
        case Outgoing =>
          connectTimer := connectTimer + delta;
          if connectTimer > settings.reconnectDelay {
            connectTimer := 0;
            connectAttempts := connectAttempts + 1;
            if connectAttempts > settings.maxConnectAttempts {
              return GiveUp(ConnectionFailed);
            }
            return SendRequest;
          }
          return Idle;
        case Disconnected => return Idle;
      }
    }
  }

  ghost function Serials(peers: map<Address, PeerConnection>): map<Address, nat> {
    map a | a in peers :: peers[a].serial
  }

  lemma SerialsAdd(peers: map<Address, PeerConnection>, a: Address, peer: PeerConnection)
    ensures Serials(peers[a := peer]) == Serials(peers)[a := peer.serial]
  {}

  lemma SerialsRemove(peers: map<Address, PeerConnection>, a: Address)
    ensures Serials(peers - {a}) == Serials(peers) - {a}
  {}

  lemma AddOverRemoved(s: ManagerState, life: Life)
    ensures Add(Remove(s, life.address), life) == Add(s, life)
  {
    assert (s.peers - {life.address})[life.address := |s.lives|] == s.peers[life.address := |s.lives|];
  }

  lemma DropIs(s: ManagerState, t: ManagerState, address: Address, reason: Reason, force: bool)
    requires WellFormed(s) && address in s.peers
    requires var i := s.peers[address];
             t == s.(lives := s.lives[i := Shutdown(s.lives[i], force).0],
                     events := if Shutdown(s.lives[i], force).1 == Unchanged then s.events else s.events + [Disconnect(i, reason)])
    ensures t == Drop(s, address, reason, force)
  {}

  /** net_manager, as far as connections go. */
  class ConnectionManager {
    const settings: Settings
    var peers: map<Address, PeerConnection>
    var requests: map<Address, Request>
    var events: seq<PeerEvent>
    var made: nat

    ghost var all: seq<PeerConnection> // every peer ever made
    ghost var lives: seq<Life>         // what each of them is now

    ghost function View(): ManagerState
      reads this
    {
      ManagerState(Serials(peers), lives, requests, events)
    }

    ghost predicate Tied()
      reads this, all
    {
      && made == |all| == |lives|
      && (forall i :: 0 <= i < |all| ==> all[i].View() == lives[i])
      && (forall i :: 0 <= i < |all| ==> all[i].serial == i)
      && (forall a :: a in peers ==> Entered(a))
    }

    ghost predicate Entered(a: Address)
      requires a in peers
      reads this
    {
      peers[a].serial < |all| && all[peers[a].serial] == peers[a] && peers[a].endpoint == a
    }

    lemma TiedIsWellFormed()
      requires Tied()
      ensures WellFormed(View())
    {
      var s := View();
      forall a | a in s.peers
        ensures s.peers[a] < |s.lives| && s.lives[s.peers[a]].address == a
      {
        assert Entered(a);
      }
    }

    /** The objects agree, and what every run keeps holds of them. */
    ghost predicate Valid()
      reads this, all
    {
      Tied() && Inv(View())
    }

    constructor (settings: Settings)
      ensures Valid() && View() == Start() && this.settings == settings
    {
      this.settings, peers, requests, events, made, all, lives := settings, map[], map[], [], 0, [], [];
    }

    // After `peer` has changed.
    ghost method Note(peer: PeerConnection)
      requires made == |all| == |lives| && peer.serial < |all| && all[peer.serial] == peer
      requires forall i :: 0 <= i < |all| ==> all[i].serial == i
      requires forall a :: a in peers ==> Entered(a)
      requires forall i :: 0 <= i < |all| && i != peer.serial ==> all[i].View() == lives[i]
      modifies this`lives
      ensures Tied() && lives == old(lives)[peer.serial := peer.View()]
    {
      lives := lives[peer.serial := peer.View()];
    }

    method ShutDownPeer(address: Address, force: bool) returns (serial: nat, result: ShutdownResult)
      requires Tied() && address in peers && Entered(address)
      modifies this`lives, all
      ensures Tied() && serial == peers[address].serial < |old(lives)|
      ensures lives == old(lives)[serial := Shutdown(old(lives)[serial], force).0]
      ensures result == Shutdown(old(lives)[serial], force).1
    {
      var peer := peers[address];
      serial := peer.serial;
      result := peer.Shutdown(force);
      Note(peer);
    }

    method DisconnectPeer(address: Address, reason: Reason, force: bool)
      requires Tied() && WellFormed(View())
      modifies this`events, this`lives, all
      ensures Tied() && View() == Drop(old(View()), address, reason, force)
    {
      if address !in peers {
        return;
      }
      assert Entered(address);
      var serial, result := ShutDownPeer(address, force);
      if result != Unchanged {
        events := events + [Disconnect(serial, reason)];
      }
      assert View().peers == old(View()).peers;
      DropIs(old(View()), View(), address, reason, force);
    }

    method RemovePeer(address: Address)
      requires Tied()
      modifies this`peers
      ensures Tied() && View() == Remove(old(View()), address)
    {
      SerialsRemove(peers, address);
      peers := peers - {address};
      assert forall a :: a in peers ==> old(Entered(a));
    }

    method AddPeer(life: Life) returns (peer: PeerConnection)
      requires Tied()
      modifies this`peers, this`made, this`all, this`lives
      ensures Tied() && fresh(peer) && all == old(all) + [peer] && peer.serial == |old(all)|
      ensures View() == Add(old(View()), life)
    {
      peer := new PeerConnection(made, life);
      SerialsAdd(peers, life.address, peer);
      peers := peers[life.address := peer];
      all, lives := all + [peer], lives + [life];
      made := made + 1;
      assert forall a :: a in peers && a != life.address ==> old(Entered(a));
    }

    /** The part of process_connect_request that keeps a request for the application: update_request, or a new one. */
    method KeepRequest(from: Address, request: Request)
      requires Tied()
      modifies this`requests, this`events
      ensures Tied() && View() == Ask(old(View()), from, request)
    {
      if from in requests {
        var kept := requests[from];
        if request.time < kept.time {
          requests := requests[from := kept];
          return;
        }
        if request.time == kept.time && request.number == kept.number {
          requests := requests[from := kept];
          return;
        }
        requests := requests[from := request];
        return;
      }
      requests := requests[from := request];
      events := events + [Requested(from)];
    }

    // Takes the old peer of an address out of the table, after a disconnect if it is still in use.
    method Supplant(from: Address, outcome: RequestOutcome)
      requires Tied() && WellFormed(View()) && outcome != Ignored
      modifies this`peers, this`events, this`lives, all
      ensures Tied()
      ensures View() == Remove(if outcome == NewConnection then old(View())
                               else Drop(old(View()), from, if outcome == Lose then PeerToPeer else Reconnect, true), from)
    {
      match outcome {
        case Reconnection => DisconnectPeer(from, Reconnect, true);
        case NewConnection =>
        case Lose => DisconnectPeer(from, PeerToPeer, true);
      }
      RemovePeer(from);
    }

    method ProcessConnectRequest(from: Address, request: Request)
      requires Tied() && WellFormed(View())
      modifies this`peers, this`requests, this`events, this`lives, all
      ensures Tied() && View() == OnRequest(old(View()), from, request)
    {
      if from !in peers {
        KeepRequest(from, request);
        return;
      }
      assert Entered(from);
      var peer := peers[from];
      var outcome := peer.ProcessConnectRequest(request);
      if outcome == Ignored {
        return;
      }
      var number := if outcome != Lose then (peer.connectNumber + 1) % 4 else request.number;
      Supplant(from, outcome);
      KeepRequest(from, request.(number := number));
    }

    method Redial(to: Address, now: int, number: int)
      requires Tied()
      modifies this`peers, this`made, this`all, this`lives
      ensures Tied() && View() == Add(old(View()), Dial(to, now, number))
    {
      AddOverRemoved(View(), Dial(to, now, number));
      RemovePeer(to);
      var _ := AddPeer(Dial(to, now, number));
    }

    method Connect(to: Address, now: int, leftover: int)
      requires Tied() && WellFormed(View())
      modifies this`peers, this`made, this`all, this`lives
      ensures Tied() && View() == OnDial(old(View()), to, now, leftover)
    {
      if to in requests {
        return;
      }
      var connectionNumber := leftover;
      if to in peers {
        assert Entered(to);
        var existing := peers[to];
        if existing.state == Connected || existing.state == Outgoing {
          return;
        }
        connectionNumber := (existing.connectNumber + 1) % 4;
      }
      Redial(to, now, connectionNumber);
    }

    /** `from` has a request the application has not solved, or nothing happens. */
    method OnConnectionSolved(from: Address, result: RequestResult)
      requires Tied() && WellFormed(View())
      modifies this
      ensures Tied() && View() == OnSolve(old(View()), from, result)
    {
      if from !in requests {
        return;
      }
      var request := requests[from];
      if result != RejectForce && from !in peers {
        var peer := AddPeer(if result == Reject then TurnAway(from, request) else Welcome(from, request));
        if result != Reject {
          events := events + [Lifecycle.Connect(peer.serial)];
        }
      }
      requests := requests - {from};
    }

    method ProcessConnectAccept(from: Address, time: int, number: int, peerId: int)
      requires Tied() && WellFormed(View())
      modifies this`events, this`lives, all
      ensures Tied() && View() == OnAccept(old(View()), from, time, number, peerId)
    {
      if from !in peers {
        return;
      }
      assert Entered(from);
      var peer := peers[from];
      var taken := peer.ProcessConnectAccept(time, number, peerId);
      Note(peer);
      if taken {
        events := events + [Lifecycle.Connect(peer.serial)];
      }
    }

    method ProcessDisconnect(from: Address, size: int, time: int, number: int)
      requires Tied() && WellFormed(View())
      modifies this`events, this`lives, all
      ensures Tied() && View() == Apply(old(View()), settings, GotDisconnect(from, size, time, number))
    {
      if from !in peers {
        return;
      }
      assert Entered(from);
      var result := peers[from].ProcessDisconnect(size, time, number);
      if result == NotOurs {
        return;
      }
      DisconnectPeer(from, if result == Closed then RemoteClose else ConnectionRejected, true);
    }

    /** Packets that only say how the connection should go: PEER_NOT_FOUND, INVALID_PROTOCOL. */
    method ProcessNotice(from: Address, awaited: ConnectionState, final: bool, reason: Reason)
      requires Tied() && WellFormed(View())
      modifies this`events, this`lives, all
      ensures Tied()
      ensures View() == if from in old(peers) && old(peers[from].state) == awaited && final
                        then Drop(old(View()), from, reason, true) else old(View())
    {
      if from in peers {
        assert Entered(from);
        if peers[from].state == awaited && final {
          DisconnectPeer(from, reason, true);
        }
      }
    }

    method ProcessOther(from: Address, shutdownOk: bool, number: int)
      requires Tied() && WellFormed(View())
      modifies this`lives, all
      ensures Tied() && View() == Apply(old(View()), settings, GotOther(from, shutdownOk, number))
    {
      if from in peers {
        assert Entered(from);
        var peer := peers[from];
        var _ := peer.ProcessPacket(shutdownOk, number);
        Note(peer);
      }
    }

    /** What update_logic does with one peer of its list. */
    method UpdatePeer(address: Address, elapsed: int)
      requires Tied() && WellFormed(View())
      modifies this`peers, this`events, this`lives, all
      ensures Tied() && View() == OnUpdate(old(View()), settings, address, elapsed)
    {
      if address !in peers {
        return;
      }
      assert Entered(address);
      var peer := peers[address];
      if peer.state == Disconnected && peer.timeSinceLastPacket > settings.disconnectTimeout {
        RemovePeer(address);
        return;
      }
      var turn := peer.Update(settings, if elapsed <= 0 then 1 else elapsed);
      Note(peer);
      if turn.GiveUp? {
        TiedIsWellFormed();
        DisconnectPeer(address, turn.reason, true);
      }
    }

    /** One step of the manager. */
    method Step(a: ManagerAction)
      requires Valid()
      modifies this, all
      ensures Valid() && View() == Apply(old(View()), settings, a) && Onward(old(View()), View())
    {
      ApplyKeepsInv(View(), settings, a);
      match a {
        case Dialing(to, now, leftover) => Connect(to, now, leftover);
        case Solve(from, result) => OnConnectionSolved(from, result);
        case Close(address) => DisconnectPeer(address, PeerCalled, false);
        case NetworkFailed(address) => DisconnectPeer(address, Unreachable, true);
        case GotRequest(from, request) => ProcessConnectRequest(from, request);
        case GotAccept(from, time, number, peerId) => ProcessConnectAccept(from, time, number, peerId);
        case GotDisconnect(from, size, time, number) => ProcessDisconnect(from, size, time, number);
        case GotPeerNotFound(from, final) => ProcessNotice(from, Connected, final, PeerNotFound);
        case GotInvalidProtocol(from) => ProcessNotice(from, Outgoing, true, InvalidProtocol);
        case GotOther(from, shutdownOk, number) => ProcessOther(from, shutdownOk, number);
        case Update(address, elapsed) => UpdatePeer(address, elapsed);
      }
    }
  }
}
