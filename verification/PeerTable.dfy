/** The manager's peers: a doubly linked list, a map by address, an array by id, and the ids that are free. */
module PeerTable {
  import opened Sequence
  import opened Packets

  datatype ConnectionState = Outgoing | Connected | ShutdownRequested | Disconnected

  datatype RequestResult = Accept | Reject | RejectForce

  class Peer {
    const id: int
    const address: Address
    const connectNumber: int
    var state: ConnectionState
    var next: Peer?
    var prev: Peer?

    constructor (id: int, address: Address, connectNumber: int, state: ConnectionState)
      ensures this.id == id && this.address == address && this.connectNumber == connectNumber && this.state == state
      ensures next == null && prev == null
    {
      this.id, this.address, this.connectNumber, this.state := id, address, connectNumber, state;
      next, prev := null, null;
    }
  }

  ghost predicate NoDuplicates<T>(s: seq<T>) {
    forall i, j :: 0 <= i < j < |s| ==> s[i] != s[j]
  }

  // The id that the next peer gets, and what is then left of the free ones and of those never handed out.
  ghost predicate TakesNext(id: int, free: seq<int>, counter: int, left: seq<int>, next: int) {
    if free != [] then id == free[0] && left == free[1..] && next == counter
    else id == counter && left == [] && next == counter + 1
  }

  // The list with one peer taken out, the others in their order.
  ghost predicate Without(list: seq<Peer>, before: seq<Peer>, p: Peer) {
    exists k :: 0 <= k < |before| && before[k] == p && list == before[..k] + before[k + 1..]
  }

  class PeerTable {
    var head: Peer?
    var peers: map<Address, Peer>
    var peersArray: seq<Peer?>
    var peerIds: seq<int>   // the free ids, first freed first
    var peerIdCounter: int

    var connectionRequests: set<Address> // addresses whose connection request is not solved yet

    ghost var list: seq<Peer> // what `head` and the `next` links lead through

    ghost predicate Linked()
      reads this, list
    {
      && NoDuplicates(list)
      && head == (if list == [] then null else list[0])
      && (forall i {:trigger list[i].next} :: 0 <= i < |list| ==> list[i].next == if i + 1 < |list| then list[i + 1] else null)
      && (forall i {:trigger list[i].prev} :: 0 <= i < |list| ==> list[i].prev == if i > 0 then list[i - 1] else null)
    }

    /** The list, the map and the array hold the same peers, each under its own address and id. */
    ghost predicate Agree()
      reads this
    {
      Agreed(list)
    }

    ghost predicate Agreed(list: seq<Peer>)
      reads this
    {
      && (forall a :: a in peers ==> peers[a] in list && peers[a].address == a)
      && (forall p :: p in list ==> p.address in peers && peers[p.address] == p)
      && (forall k :: 0 <= k < |peersArray| && peersArray[k] != null ==> peersArray[k] in list && peersArray[k].id == k)
      && (forall p :: p in list ==> 0 <= p.id < |peersArray| && peersArray[p.id] == p)
    }

    predicate Live(id: int)
      reads this
    {
      0 <= id < |peersArray| && peersArray[id] != null
    }

    /** Live ids, free ids and the ids `taken` but not yet given to a peer are disjoint, and are all ids handed out. */
    ghost predicate IdsConserved(taken: set<int>)
      reads this
    {
      && NoDuplicates(peerIds) && 0 <= peerIdCounter
      && (forall id :: Live(id) ==> id !in peerIds && id !in taken && id < peerIdCounter)
      && (forall id :: id in peerIds ==> id !in taken && 0 <= id < peerIdCounter)
      && (forall id :: id in taken ==> 0 <= id < peerIdCounter)
      && (forall id :: 0 <= id < peerIdCounter ==> Live(id) || id in peerIds || id in taken)
    }

    ghost predicate Valid()
      reads this, list
    {
      Linked() && Agree() && IdsConserved({}) && |peersArray| > 0
    }

    constructor ()
      ensures Valid() && list == [] && peerIdCounter == 0
    {
      head, peers, peersArray, peerIds, peerIdCounter, list := null, map[], seq(32, _ => null), [], 0, [];
      connectionRequests := {};
    }

    method GetNextPeerId() returns (id: int)
      requires Valid()
      modifies this`peerIds, this`peerIdCounter
      ensures Linked() && Agree() && IdsConserved({id}) && |peersArray| > 0
      ensures TakesNext(id, old(peerIds), old(peerIdCounter), peerIds, peerIdCounter)
      ensures !Live(id)
    {
      ghost var free := peerIds;
      if peerIds != [] {
        id := peerIds[0];
        peerIds := peerIds[1..];
        assert old(peerIds) == [id] + peerIds;
        assert forall k :: k in old(peerIds) <==> k == id || k in peerIds;
        assert id !in peerIds;
        assert forall k :: Live(k) <==> old(Live(k));
        assert id in free;
      } else {
        id := peerIdCounter;
        peerIdCounter := peerIdCounter + 1;
        assert forall k :: Live(k) <==> old(Live(k));
      }
    }

    /** Doubles the array until it has a place for `id`. */
    method Reserve(id: int)
      requires |peersArray| > 0 && id >= 0
      modifies this`peersArray
      ensures id < |peersArray| && old(peersArray) <= peersArray
      ensures forall k :: |old(peersArray)| <= k < |peersArray| ==> peersArray[k] == null
    {
      if id >= |peersArray| {
        var newSize := |peersArray| * 2;
        while id >= newSize
          invariant newSize >= |peersArray| > 0
          decreases id - newSize
        {
          newSize := newSize * 2;
        }
        peersArray := peersArray + seq(newSize - |peersArray|, _ => null);
      }
    }

    method LinkFirst(peer: Peer)
      requires Linked() && peer !in list && peer.next == null && peer.prev == null
      modifies this`head, this`list, peer`next, list`prev
      ensures Linked() && list == [peer] + old(list)
    {
      if head != null {
        peer.next := head;
        head.prev := peer;
      }
      head := peer;
      list := [peer] + list;
    }

    method StorePeer(peer: Peer)
      requires peer in list && IdsConserved({peer.id}) && |peersArray| > 0 && peer.address !in peers
      requires forall p :: p in list && p != peer ==> p.address in peers && peers[p.address] == p
      requires forall p :: p in list && p != peer ==> 0 <= p.id < |peersArray| && peersArray[p.id] == p
      requires forall a :: a in peers ==> peers[a] in list && peers[a].address == a
      requires forall k :: 0 <= k < |peersArray| && peersArray[k] != null ==> peersArray[k] in list && peersArray[k].id == k
      modifies this`peers, this`peersArray
      ensures Agree() && IdsConserved({}) && |peersArray| > 0
      ensures peers == old(peers)[peer.address := peer]
    {
      peers := peers[peer.address := peer];
      Reserve(peer.id);
      assert !Live(peer.id);
      peersArray := peersArray[peer.id := peer];
      assert forall id :: Live(id) <==> old(Live(id)) || id == peer.id;
    }

    /** add_peer: the peer becomes the head of the list and is entered in the map and the array. */
    method AddPeer(peer: Peer)
      requires Linked() && Agree() && IdsConserved({peer.id}) && |peersArray| > 0
      requires peer !in list && peer.next == null && peer.prev == null && peer.address !in peers
      modifies this`head, this`peers, this`peersArray, this`list, peer`next, list`prev
      ensures Valid() && list == [peer] + old(list)
      ensures peers == old(peers)[peer.address := peer]
    {
      LinkFirst(peer);
      assert forall p :: p in list <==> p == peer || p in old(list);
      assert forall id :: Live(id) <==> old(Live(id));
      StorePeer(peer);
    }

    method Unlink(peer: Peer, ghost k: int)
      requires Linked() && 0 <= k < |list| && list[k] == peer
      modifies this`head, this`list, list`next, list`prev
      ensures Linked() && list == old(list)[..k] + old(list)[k + 1..]
      ensures peer !in list && peer.prev == null
    {
      if head == peer {
        head := peer.next;
      }
      if peer.prev != null {
        peer.prev.next := peer.next;
      }
      if peer.next != null {
        peer.next.prev := peer.prev;
      }
      peer.prev := null;
      list := list[..k] + list[k + 1..];
    }

    // The peers left after `peer` is unlinked, whose map entry, array slot and id are still there.
    method DropPeer(peer: Peer, ghost before: seq<Peer>)
      requires Agreed(before) && IdsConserved({}) && |peersArray| > 0 && peer in before && peer !in list
      requires forall q :: q in list <==> q in before && q != peer
      modifies this`peers, this`peersArray, this`peerIds
      ensures Agree() && IdsConserved({}) && |peersArray| > 0
      ensures peers == old(peers) - {peer.address} && peerIds == old(peerIds) + [peer.id]
    {
      peers := peers - {peer.address};
      peersArray := peersArray[peer.id := null];
      peerIds := peerIds + [peer.id];
      assert old(Live(peer.id));
      AppendDistinct(old(peerIds), peer.id);
      assert forall id :: id in peerIds <==> id in old(peerIds) || id == peer.id;
      assert forall id :: Live(id) <==> old(Live(id)) && id != peer.id;
    }

    /** remove_peer_internal. The id goes to the end of the queue of free ids. */
    method RemovePeer(address: Address)
      requires Valid()
      modifies this`head, this`peers, this`peersArray, this`peerIds, this`list, list`next, list`prev
      ensures Valid()
      ensures address !in old(peers) ==> list == old(list) && peers == old(peers) && peerIds == old(peerIds)
      ensures address in old(peers) ==>
                var p := old(peers)[address];
                && (forall q :: q in list <==> q in old(list) && q != p) && Without(list, old(list), p)
                && peers == old(peers) - {address} && peerIds == old(peerIds) + [p.id]
    {
      if address !in peers {
        return;
      }
      var peer := peers[address];
      ghost var k :| 0 <= k < |list| && list[k] == peer;
      ghost var before := list;
      Unlink(peer, k);
      RemovedAt(before, k);
      assert Without(list, before, peer);
      DropPeer(peer, before);
    }

    predicate InUse(address: Address)
      reads this, peers.Values
    {
      address in peers && (peers[address].state == Connected || peers[address].state == Outgoing)
    }

    method NewPeer(address: Address, connectNumber: int, state: ConnectionState) returns (peer: Peer)
      requires Valid() && address !in peers
      modifies this`head, this`peers, this`peersArray, this`peerIds, this`peerIdCounter, this`list, list`prev
      ensures Valid() && fresh(peer) && list == [peer] + old(list) && peers == old(peers)[address := peer]
      ensures peer.address == address && peer.connectNumber == connectNumber && peer.state == state
      ensures TakesNext(peer.id, old(peerIds), old(peerIdCounter), peerIds, peerIdCounter)
    {
      var id := GetNextPeerId();
      peer := new Peer(id, address, connectNumber, state);
      AddPeer(peer);
    }

    // The end of connect for an address that had a peer: that one is removed, and a new one comes first in the list.
    method Replace(address: Address, connectNumber: int) returns (peer: Peer)
      requires Valid() && address in peers
      modifies this`head, this`peers, this`peersArray, this`peerIds, this`peerIdCounter, this`list, list`next, list`prev
      ensures Valid() && fresh(peer) && peer.state == Outgoing && peer.connectNumber == connectNumber
      ensures peers == old(peers)[address := peer]
      ensures list != [] && list[0] == peer && Without(list[1..], old(list), old(peers)[address])
      ensures TakesNext(peer.id, old(peerIds) + [old(peers)[address].id], old(peerIdCounter), peerIds, peerIdCounter)
    {
      RemovePeer(address);
      ghost var rest, free := list, peerIds;
      assert peers == old(peers) - {address} && free == old(peerIds) + [old(peers)[address].id];
      assert Without(rest, old(list), old(peers)[address]);
      assert forall i :: 0 <= i < |list| ==> list[i] in old(list);
      peer := NewPeer(address, connectNumber, Outgoing);
      assert list[1..] == rest;
      PutAgain(old(peers), address, peer);
    }

    /** connect. `leftover` stands for the connection number the implementation leaves unset for a new address. */
    method Connect(address: Address, running: bool, leftover: int) returns (peer: Peer?)
      requires Valid()
      modifies this, list`next, list`prev
      ensures Valid() && connectionRequests == old(connectionRequests)
      ensures peer == null <==> !running || address in old(connectionRequests)
      ensures peer == null ==> list == old(list) && peers == old(peers)
      ensures peer != null && old(InUse(address)) ==> peer == old(peers)[address] && list == old(list) && peers == old(peers)
      ensures peer != null && !old(InUse(address)) ==>
                && fresh(peer) && peer.state == Outgoing && peers == old(peers)[address := peer]
                && peer.connectNumber == (if address in old(peers) then (old(peers)[address].connectNumber + 1) % 4 else leftover)
                && list != [] && list[0] == peer
                && (address !in old(peers) ==> list[1..] == old(list))
                && (address in old(peers) ==> Without(list[1..], old(list), old(peers)[address]))
                && var freed := if address in old(peers) then [old(peers)[address].id] else [];
                   TakesNext(peer.id, old(peerIds) + freed, old(peerIdCounter), peerIds, peerIdCounter)
    {
      if !running || address in connectionRequests {
        return null;
      }
      var connectionNumber := leftover;
      if address in peers {
        var existing := peers[address];
        if existing.state == Connected || existing.state == Outgoing {
          return existing;
        }
        connectionNumber := (existing.connectNumber + 1) % 4;
        peer := Replace(address, connectionNumber);
        return;
      }
      assert peerIds + [] == peerIds;
      peer := NewPeer(address, connectionNumber, Outgoing);
    }

    /** on_connection_solved: a peer is created unless the request is rejected by force or the address has one. */
    method OnConnectionSolved(result: RequestResult, address: Address, connectNumber: int) returns (peer: Peer?)
      requires Valid()
      modifies this, list`next, list`prev
      ensures Valid() && connectionRequests == old(connectionRequests) - {address}
      ensures peer == null <==> result == RejectForce || address in old(peers)
      ensures peer == null ==> list == old(list) && peers == old(peers)
      ensures peer != null ==>
                && fresh(peer) && list == [peer] + old(list) && peers == old(peers)[address := peer]
                && peer.connectNumber == connectNumber
                && peer.state == (if result == Reject then ShutdownRequested else Connected)
                && TakesNext(peer.id, old(peerIds), old(peerIdCounter), peerIds, peerIdCounter)
    {
      peer := null;
      if result != RejectForce && address !in peers {
        peer := NewPeer(address, connectNumber, if result == Reject then ShutdownRequested else Connected);
      }
      connectionRequests := connectionRequests - {address};
    }

    /** No two live peers share an id or an address, and every id ever handed out is one peer's or free, never both:
        the peers and the free ids together are as many as the counter says. */
    lemma IdsCount()
      requires Valid()
      ensures forall p, q :: p in list && q in list && (p.id == q.id || p.address == q.address) ==> p == q
      ensures |list| + |peerIds| == peerIdCounter
    {
      var ps := list;
      var ids := seq(|ps|, i requires 0 <= i < |ps| => ps[i].id) + peerIds;
      forall i, j | 0 <= i < j < |ids|
        ensures ids[i] != ids[j]
      {
        if j < |list| {
          assert list[i] in list && list[j] in list;
        } else if i < |list| {
          assert list[i] in list && Live(ids[i]) && ids[j] == peerIds[j - |list|];
        }
      }
      forall id | 0 <= id < peerIdCounter
        ensures id in ids
      {
        if Live(id) {
          var k :| 0 <= k < |list| && list[k] == peersArray[id];
          assert ids[k] == id;
        }
      }
      forall i | 0 <= i < |ids|
        ensures 0 <= ids[i] < peerIdCounter
      {
        if i < |list| { assert list[i] in list && Live(ids[i]); } else { assert ids[i] in peerIds; }
      }
      PermutationCount(ids, peerIdCounter);
    }
  }

  lemma PutAgain(peers: map<Address, Peer>, address: Address, peer: Peer)
    ensures (peers - {address})[address := peer] == peers[address := peer]
  {}

  lemma RemovedAt(list: seq<Peer>, k: int)
    requires NoDuplicates(list) && 0 <= k < |list|
    ensures forall q :: q in list[..k] + list[k + 1..] <==> q in list && q != list[k]
  {}

  lemma AppendDistinct(s: seq<int>, x: int)
    requires NoDuplicates(s) && x !in s
    ensures NoDuplicates(s + [x])
  {}

  /** A sequence without repeats whose members are exactly 0 to n - 1 has n members. */
  lemma {:induction false} PermutationCount(s: seq<int>, n: int)
    requires NoDuplicates(s) && n >= 0
    requires forall i :: 0 <= i < |s| ==> 0 <= s[i] < n
    requires forall x :: 0 <= x < n ==> x in s
    ensures |s| == n
    decreases n
  {
    if n > 0 {
      assert n - 1 in s;
      var k :| 0 <= k < |s| && s[k] == n - 1;
      var t := s[..k] + s[k + 1..];
      forall x | 0 <= x < n - 1
        ensures x in t
      {
        assert x in s;
        var j :| 0 <= j < |s| && s[j] == x;
        assert t[if j < k then j else j - 1] == x;
      }
      PermutationCount(t, n - 1);
    } else if |s| > 0 {
      assert false;
    }
  }
}
