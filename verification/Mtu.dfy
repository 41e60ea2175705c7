/** MTU discovery: a peer probes ever larger packets, the other end echoes those that get through. */
module Mtu {
  import opened Packets
  import opened Header
  import opened Timers

  const POSSIBLE_MTU: seq<int> := [508, 1024, 1164, 1392, 1404, 1424, 1432]
  const LAST_INDEX := 6
  const MTU_CHECK_DELAY := 1000
  const MAX_MTU_CHECK_ATTEMPTS := 4

  lemma TableIncreases(i: int, j: int)
    requires 0 <= i < j <= LAST_INDEX
    ensures POSSIBLE_MTU[i] < POSSIBLE_MTU[j]
  {}

  /** An MTU_CHECK or MTU_OK packet: its header byte, its size and the two numbers written into it. */
  datatype MtuPacket = MtuPacket(header: byte, size: int, first: int, last: int)

  predicate IsCheck(p: MtuPacket) {
    Property(p.header) == MTU_CHECK
  }

  // The header of a new packet is 0 but for the property; the answer to a probe is the same packet with another property.
  const NEW_HEADER: byte := 0

  function AnswerTo(p: MtuPacket): MtuPacket {
    p.(header := WithProperty(p.header, MTU_OK))
  }

  datatype State = State(idx: int, attempts: int, timer: int, finished: bool)

  function Mtu(s: State): int
    requires 0 <= s.idx <= LAST_INDEX
  {
    POSSIBLE_MTU[s.idx]
  }

  predicate Good(p: MtuPacket) {
    p.size >= POSSIBLE_MTU[0] && p.first == p.size == p.last && p.size <= POSSIBLE_MTU[LAST_INDEX]
  }

  function Probe(idx: int): MtuPacket
    requires 0 <= idx <= LAST_INDEX
  {
    MtuPacket(WithProperty(NEW_HEADER, MTU_CHECK), POSSIBLE_MTU[idx], POSSIBLE_MTU[idx], POSSIBLE_MTU[idx])
  }

  // The state invariant; the lookup one past the index is always in the table when it is made.
  predicate InTable(s: State) {
    0 <= s.idx <= LAST_INDEX && (s.idx == LAST_INDEX ==> s.finished)
  }

  /** update_mtu_logic: the probe it sends, if any; `sent` says whether the socket took it. */
  function Tick(s: State, delta: int, sent: bool): (State, Option<MtuPacket>)
    requires InTable(s)
  {
    if s.finished then (s, None)
    else if s.timer + delta < MTU_CHECK_DELAY then (s.(timer := s.timer + delta), None)
    else if s.attempts + 1 >= MAX_MTU_CHECK_ATTEMPTS then (s.(timer := 0, attempts := s.attempts + 1, finished := true), None)
    else (s.(timer := 0, attempts := s.attempts + 1, finished := !sent), if sent then Some(Probe(s.idx + 1)) else None)
  }

  /** process_mtu_packet: the new state and the echo, if any. */
  function Process(s: State, p: MtuPacket): (State, Option<MtuPacket>)
    requires InTable(s)
  {
    if !Good(p) then (s, None)
    else if IsCheck(p) then (s.(attempts := 0), Some(AnswerTo(p)))
    else if p.size <= Mtu(s) || s.finished then (s, None)
    else if p.size != POSSIBLE_MTU[s.idx + 1] then (s, None)
    else (s.(idx := s.idx + 1, finished := s.idx + 1 == LAST_INDEX), None)
  }

  function Reset(s: State): State {
    s.(idx := 0)
  }

  class MtuDiscovery {
    var mtuIdx: int
    var mtu: int
    var checkAttempts: int
    var checkTimer: int
    var finishMtu: bool

    ghost function View(): State
      reads this
    {
      State(mtuIdx, checkAttempts, checkTimer, finishMtu)
    }

    /** The MTU in use is the table's, at an index within it. */
    ghost predicate Valid()
      reads this
    {
      InTable(View()) && mtu == Mtu(View())
    }

    constructor ()
      ensures Valid() && View() == State(0, 0, 0, false)
    {
      mtuIdx, mtu, checkAttempts, checkTimer, finishMtu := 0, POSSIBLE_MTU[0], 0, 0, false;
    }

    method SetMtu(idx: int)
      requires 0 <= idx <= LAST_INDEX
      modifies this`mtuIdx, this`mtu
      ensures mtuIdx == idx && mtu == POSSIBLE_MTU[idx]
    {
      mtuIdx := idx;
      mtu := POSSIBLE_MTU[idx];
    }

    method ResetMtu()
      requires Valid()
      modifies this
      ensures Valid() && View() == Reset(old(View()))
    {
      SetMtu(0);
    }

    method UpdateMtuLogic(deltaTime: int, sent: bool) returns (probe: Option<MtuPacket>)
      requires Valid()
      modifies this
      ensures Valid() && (View(), probe) == Tick(old(View()), deltaTime, sent)
    {
      if finishMtu {
        return None;
      }
      checkTimer := checkTimer + deltaTime;
      if checkTimer < MTU_CHECK_DELAY {
        return None;
      }
      checkTimer := 0;
      checkAttempts := checkAttempts + 1;
      if checkAttempts >= MAX_MTU_CHECK_ATTEMPTS {
        finishMtu := true;
        return None;
      }
      if mtuIdx >= |POSSIBLE_MTU| - 1 {
        assert false;
      }
      var newMtu := POSSIBLE_MTU[mtuIdx + 1];
      if !sent {
        finishMtu := true;
        return None;
      }
      probe := Some(MtuPacket(WithProperty(NEW_HEADER, MTU_CHECK), newMtu, newMtu, newMtu));
    }

    method ProcessMtuPacket(p: MtuPacket) returns (echo: Option<MtuPacket>)
      requires Valid()
      modifies this
      ensures Valid() && (View(), echo) == Process(old(View()), p)
    {
      if p.size < POSSIBLE_MTU[0] {
        return None;
      }
      if p.first != p.size || p.first != p.last || p.first > POSSIBLE_MTU[LAST_INDEX] {
        return None;
      }
      if Property(p.header) == MTU_CHECK {
        checkAttempts := 0;
        return Some(p.(header := WithProperty(p.header, MTU_OK)));
      }
      if p.first <= mtu || finishMtu {
        return None;
      }
      if p.first != POSSIBLE_MTU[mtuIdx + 1] {
        return None;
      }
      SetMtu(mtuIdx + 1);
      if mtuIdx == |POSSIBLE_MTU| - 1 {
        finishMtu := true;
      }
      return None;
    }
  }

  // ---- One end by itself ------------------------------------------------------------------------

  /** What one update after another sends, if the socket takes it. */
  function Sent(s: State, deltas: seq<int>): seq<Option<MtuPacket>>
    requires InTable(s)
    decreases |deltas|
  {
    if deltas == [] then []
    else
      var (t, probe) := Tick(s, deltas[0], true);
      [probe] + Sent(t, deltas[1..])
  }

  /** The timer adds up, however short the updates: the first probe, for the next size, goes out at just the update that
      brings the time since the last one to a second. */
  lemma {:induction false} FirstProbe(s: State, deltas: seq<int>, k: nat)
    requires InTable(s) && !s.finished && s.timer < 1000 && s.attempts < 3 && k < |deltas| && Positive(deltas)
    ensures |Sent(s, deltas)| == |deltas|
    ensures Sent(s, deltas)[k] == Some(Probe(s.idx + 1)) && (forall j :: 0 <= j < k ==> Sent(s, deltas)[j] == None)
            <==> Reaches(s.timer, deltas, k, 1000)
    decreases |deltas|
  {
    var (t, probe) := Tick(s, deltas[0], true);
    var all, later := Sent(s, deltas), Sent(t, deltas[1..]);
    SentLength(t, deltas[1..]);
    ReachesNext(s.timer, deltas, k, 1000);
    assert all[0] == probe && forall j :: 0 <= j < |later| ==> all[j + 1] == later[j];
    if k > 0 && probe == None {
      FirstProbe(t, deltas[1..], k - 1);
      assert forall j :: 0 < j < k ==> all[j] == later[j - 1];
    }
  }

  lemma {:induction false} SentLength(s: State, deltas: seq<int>)
    requires InTable(s)
    ensures |Sent(s, deltas)| == |deltas|
    decreases |deltas|
  {
    if deltas != [] { SentLength(Tick(s, deltas[0], true).0, deltas[1..]); }
  }

  /** The fourth probe that would go out with none of the far end's in between does not, and discovery is over; and so it is
      when the socket refuses a probe. A finished end sends nothing more. */
  lemma GivesUp(s: State, delta: int, sent: bool)
    requires InTable(s) && s.timer + delta >= 1000
    ensures var (t, probe) := Tick(s, delta, sent);
            && (probe.Some? <==> !s.finished && s.attempts < 3 && sent)
            && (t.finished <==> s.finished || s.attempts >= 3 || !sent)
            && t.idx == s.idx && (!s.finished ==> t.attempts == s.attempts + 1 && t.timer == 0)
  {}

  /** A probe is answered, and the count of attempts starts again, exactly if its size is the one written into it twice and is
      one that discovery can ask for; the answer is the probe but for its kind. */
  lemma AnswersExactly(s: State, p: MtuPacket)
    requires InTable(s) && Property(p.header) == MTU_CHECK
    ensures var (t, answer) := Process(s, p);
            if 508 <= p.size <= 1432 && p.first == p.size && p.last == p.size then
              && t == s.(attempts := 0)
              && answer.Some? && answer.value.(header := p.header) == p && Property(answer.value.header) == MTU_OK
              && ConnectionNumber(answer.value.header) == ConnectionNumber(p.header)
            else t == s && answer == None
  {}

  /** The MTU rises exactly when the next size, and no other, comes back sound to an end that is still looking. */
  lemma RisesExactly(s: State, p: MtuPacket)
    requires InTable(s) && Property(p.header) == MTU_OK
    ensures var (t, answer) := Process(s, p);
            && answer == None && t.attempts == s.attempts && t.timer == s.timer
            && if !s.finished && p.size == POSSIBLE_MTU[s.idx + 1] && p.first == p.size && p.last == p.size then
                 Mtu(t) == p.size && t.idx == s.idx + 1 && (t.finished <==> Mtu(t) == 1432)
               else t == s
  {
    if s.idx < LAST_INDEX { TableIncreases(s.idx, s.idx + 1); }
  }

  /** A change of network takes an end back to the first size, and does nothing else. */
  lemma ResetExactly(s: State)
    requires InTable(s)
    ensures var t := Reset(s);
            Mtu(t) == 508 && t.idx == 0 && t.attempts == s.attempts && t.timer == s.timer && t.finished == s.finished
  {}

  // ---- Both ends over a path --------------------------------------------------------------------

  /** Two peers of one connection, which both probe and answer. `path` is the largest packet that gets through in either
      direction, `number` the connection number; `toHere` and `toThere` are all MTU packets that ever got through. */
  datatype Pair = Pair(here: State, there: State, path: int, number: int, toHere: set<MtuPacket>, toThere: set<MtuPacket>)

  datatype MtuDeed =
    | Ticks(delta: int, sent: bool)  // its update
    | Hears(packet: MtuPacket)       // a packet reaches it
    | NetworkChanged                 // reset_mtu

  datatype MtuAction = Here(deed: MtuDeed) | There(deed: MtuDeed)

  function Through(path: int, p: Option<MtuPacket>): set<MtuPacket> {
    if p.Some? && p.value.size <= path then {p.value} else {}
  }

  function Act(l: Pair, a: MtuDeed): Pair
    requires InTable(l.here)
  {
    match a
    case Ticks(delta, sent) =>
      var (s, probe) := Tick(l.here, delta, sent);
      l.(here := s, toThere := l.toThere + Through(l.path, probe))
    case Hears(p) =>
      if p in l.toHere && ConnectionNumber(p.header) == l.number then
        var (s, echo) := Process(l.here, p);
        l.(here := s, toThere := l.toThere + Through(l.path, echo))
      else l
    case NetworkChanged => l.(here := Reset(l.here))
  }

  // The same, seen from the other end.
  function Swapped(l: Pair): Pair {
    Pair(l.there, l.here, l.path, l.number, l.toThere, l.toHere)
  }

  function Apply(l: Pair, a: MtuAction): Pair
    requires InTable(l.here) && InTable(l.there)
  {
    match a case Here(d) => Act(l, d) case There(d) => Swapped(Act(Swapped(l), d))
  }

  function Max(a: int, b: int): int {
    if a < b then b else a
  }

  ghost predicate Inv(l: Pair) {
    && InTable(l.here) && InTable(l.there)
    && Mtu(l.here) <= Max(POSSIBLE_MTU[0], l.path) && Mtu(l.there) <= Max(POSSIBLE_MTU[0], l.path)
    && (forall p :: p in l.toHere || p in l.toThere ==> p.size <= l.path && ConnectionNumber(p.header) == 0)
    && (l.number != 0 ==> l.here.idx == l.there.idx == 0)
  }

  function Run(l: Pair, actions: seq<MtuAction>): (t: Pair)
    requires Inv(l)
    decreases |actions|
  {
    if actions == [] then l
    else
      ApplyKeepsInv(l, actions[0]);
      Run(Apply(l, actions[0]), actions[1..])
  }

  function Start(path: int, number: int): Pair {
    Pair(State(0, 0, 0, false), State(0, 0, 0, false), path, number, {}, {})
  }

  /** One step of one end changes the index by at most one step up, and only for a packet of exactly that size that came
      through, or back to the start. */
  lemma StepByStep(l: Pair, a: MtuDeed)
    requires Inv(l)
    ensures var t := Act(l, a);
            && Inv(t) && t.there == l.there && t.path == l.path && t.number == l.number
            && (t.here.idx == l.here.idx || t.here.idx == l.here.idx + 1 || (a.NetworkChanged? && t.here.idx == 0))
            && (t.here.idx == l.here.idx + 1 ==> a.Hears? && Mtu(t.here) == a.packet.size <= l.path)
  {}

  lemma ApplyKeepsInv(l: Pair, a: MtuAction)
    requires Inv(l)
    ensures Inv(Apply(l, a)) && Apply(l, a).path == l.path && Apply(l, a).number == l.number
  {
    match a case Here(d) => StepByStep(l, d); case There(d) => StepByStep(Swapped(l), d);
  }

  /** In every run neither end's MTU exceeds what the path lets through, nor leaves the table. */
  lemma {:induction false} MtuSafe(l: Pair, actions: seq<MtuAction>)
    requires Inv(l)
    ensures Inv(Run(l, actions)) && Run(l, actions).path == l.path && Run(l, actions).number == l.number
    decreases |actions|
  {
    if actions != [] {
      ApplyKeepsInv(l, actions[0]);
      MtuSafe(Apply(l, actions[0]), actions[1..]);
    }
  }

  /** Discovery is not taken up again: an end that had finished when the network changed stays at the first size for ever,
      whatever both ends and the network do. */
  lemma {:induction false} ResetForGood(l: Pair, actions: seq<MtuAction>)
    requires Inv(l) && l.here.finished && l.here.idx == 0
    ensures Run(l, actions).here.finished && Run(l, actions).here.idx == 0
    decreases |actions|
  {
    if actions != [] {
      ApplyKeepsInv(l, actions[0]);
      ResetForGood(Apply(l, actions[0]), actions[1..]);
    }
  }

  // ---- An end that probes alone -----------------------------------------------------------------

  /** Attempts are not counted anew when a probe succeeds, only when the far end probes. So a peer whose far end never
      probes climbs at most three steps, however large the path. */
  ghost predicate Bounded(l: Pair) {
    && 0 <= l.here.attempts
    && (l.here.attempts >= MAX_MTU_CHECK_ATTEMPTS ==> l.here.finished)
    && l.here.idx <= l.here.attempts && l.here.idx < MAX_MTU_CHECK_ATTEMPTS
    && (forall p :: p in l.toThere || p in l.toHere ==> ReachedBy(p, l.here.attempts))
    && (forall p :: p in l.toHere ==> !IsCheck(p))
  }

  predicate ReachedBy(p: MtuPacket, attempts: int) {
    exists k | 0 <= k <= LAST_INDEX :: p.size == POSSIBLE_MTU[k] && k <= attempts && k < MAX_MTU_CHECK_ATTEMPTS
  }

  lemma BoundedHere(l: Pair, a: MtuDeed)
    requires Inv(l) && Bounded(l)
    ensures Bounded(Act(l, a))
  {
    var t := Act(l, a);
    forall p | p in t.toThere || p in t.toHere
      ensures ReachedBy(p, t.here.attempts)
    {
      if a.Ticks? && p !in l.toThere && p !in l.toHere {
        assert p.size == POSSIBLE_MTU[l.here.idx + 1];
      } else {
        assert ReachedBy(p, l.here.attempts);
      }
    }
    if a.Hears? && a.packet in l.toHere {
      assert ReachedBy(a.packet, l.here.attempts);
    }
  }

  lemma BoundedThere(l: Pair, a: MtuDeed)
    requires Inv(l) && Bounded(l) && !a.Ticks?
    ensures Bounded(Swapped(Act(Swapped(l), a)))
  {
    if a.Hears? && a.packet in l.toThere {
      assert ReachedBy(a.packet, l.here.attempts);
    }
  }

  lemma {:induction false} ThreeStepsAlone(l: Pair, actions: seq<MtuAction>)
    requires Inv(l) && Bounded(l)
    requires forall i :: 0 <= i < |actions| ==> !(actions[i].There? && actions[i].deed.Ticks?)
    ensures Bounded(Run(l, actions)) && InTable(Run(l, actions).here) && Mtu(Run(l, actions).here) <= POSSIBLE_MTU[3]
    decreases |actions|
  {
    if actions != [] {
      ApplyKeepsInv(l, actions[0]);
      if actions[0].Here? {
        BoundedHere(l, actions[0].deed);
      } else {
        BoundedThere(l, actions[0].deed);
      }
      ThreeStepsAlone(Apply(l, actions[0]), actions[1..]);
    }
  }

  lemma StartBounded(path: int, number: int)
    ensures Inv(Start(path, number)) && Bounded(Start(path, number))
  {}

  // ---- What discovery can reach -----------------------------------------------------------------

  lemma {:induction false} RunConcat(l: Pair, a: seq<MtuAction>, b: seq<MtuAction>)
    requires Inv(l)
    ensures Inv(Run(l, a)) && Run(l, a + b) == Run(Run(l, a), b)
    decreases |a|
  {
    MtuSafe(l, a);
    if a == [] {
      assert a + b == b;
    } else {
      ApplyKeepsInv(l, a[0]);
      RunConcat(Apply(l, a[0]), a[1..], b);
      assert (a + b)[1..] == a[1..] + b;
    }
  }

  // Both ends have climbed to `j`, and each may still probe.
  ghost predicate BothAt(l: Pair, j: int) {
    && Inv(l) && l.here.idx == l.there.idx == j && l.here.timer == l.there.timer == 0
    && 0 <= l.here.attempts <= 1 && 0 <= l.there.attempts <= 1
    && (j < LAST_INDEX ==> !l.here.finished && !l.there.finished)
  }

  function Answer(idx: int): MtuPacket
    requires 0 <= idx <= LAST_INDEX
  {
    AnswerTo(Probe(idx))
  }

  // This end probes, the far end answers, and the answer comes back.
  function Climbed(l: Pair): Pair
    requires InTable(l.here) && InTable(l.there) && l.here.idx < LAST_INDEX
  {
    var l1 := Apply(l, Here(Ticks(MTU_CHECK_DELAY, true)));
    var l2 := Apply(l1, There(Hears(Probe(l.here.idx + 1))));
    Apply(l2, Here(Hears(Answer(l.here.idx + 1))))
  }

  lemma ProbeGoesOut(l: Pair)
    requires InTable(l.here) && InTable(l.there) && !l.here.finished && l.here.timer == 0 && 0 <= l.here.attempts <= 2
    requires POSSIBLE_MTU[l.here.idx + 1] <= l.path
    ensures Apply(l, Here(Ticks(MTU_CHECK_DELAY, true))) ==
            l.(here := l.here.(attempts := l.here.attempts + 1), toThere := l.toThere + {Probe(l.here.idx + 1)})
  {}

  lemma AnswerComesBack(l: Pair, idx: int)
    requires InTable(l.here) && InTable(l.there) && l.number == 0
    requires 0 <= idx <= LAST_INDEX && POSSIBLE_MTU[idx] <= l.path && Probe(idx) in l.toThere
    ensures Apply(l, There(Hears(Probe(idx)))) == l.(there := l.there.(attempts := 0), toHere := l.toHere + {Answer(idx)})
  {
    if idx > 0 { TableIncreases(0, idx); }
    if idx < LAST_INDEX { TableIncreases(idx, LAST_INDEX); }
    assert Good(Probe(idx));
  }

  lemma AnswerLifts(l: Pair)
    requires InTable(l.here) && InTable(l.there) && l.number == 0 && !l.here.finished
    requires Answer(l.here.idx + 1) in l.toHere
    ensures Apply(l, Here(Hears(Answer(l.here.idx + 1)))) ==
            l.(here := l.here.(idx := l.here.idx + 1, finished := l.here.idx + 1 == LAST_INDEX))
  {
    TableIncreases(0, l.here.idx + 1);
    TableIncreases(l.here.idx, l.here.idx + 1);
    if l.here.idx + 1 < LAST_INDEX { TableIncreases(l.here.idx + 1, LAST_INDEX); }
    assert Good(Answer(l.here.idx + 1));
  }

  // After it this end is one step up, and the far end's attempts count anew.
  lemma ClimbHere(l: Pair)
    requires InTable(l.here) && InTable(l.there) && l.number == 0
    requires !l.here.finished && l.here.timer == 0 && 0 <= l.here.attempts <= 2 && POSSIBLE_MTU[l.here.idx + 1] <= l.path
    ensures var t := Climbed(l);
            && t.path == l.path && t.number == l.number && t.there == l.there.(attempts := 0)
            && t.here == State(l.here.idx + 1, l.here.attempts + 1, 0, l.here.idx + 1 == LAST_INDEX)
  {
    var idx := l.here.idx + 1;
    var l1 := Apply(l, Here(Ticks(MTU_CHECK_DELAY, true)));
    var l2 := Apply(l1, There(Hears(Probe(idx))));
    ProbeGoesOut(l);
    AnswerComesBack(l1, idx);
    AnswerLifts(l2);
  }

  lemma ThreeKeepInv(l: Pair, a: MtuAction, b: MtuAction, c: MtuAction)
    requires Inv(l)
    ensures Inv(Apply(l, a)) && Inv(Apply(Apply(l, a), b)) && Inv(Apply(Apply(Apply(l, a), b), c))
  {
    ApplyKeepsInv(l, a);
    ApplyKeepsInv(Apply(l, a), b);
    ApplyKeepsInv(Apply(Apply(l, a), b), c);
  }

  function HereClimbs(idx: int): seq<MtuAction>
    requires 0 <= idx <= LAST_INDEX
  {
    [Here(Ticks(MTU_CHECK_DELAY, true)), There(Hears(Probe(idx))), Here(Hears(Answer(idx)))]
  }

  lemma RunThree(l: Pair, a: MtuAction, b: MtuAction, c: MtuAction)
    requires Inv(l)
    ensures Inv(Apply(l, a)) && Inv(Apply(Apply(l, a), b)) && Run(l, [a, b, c]) == Apply(Apply(Apply(l, a), b), c)
  {
    ThreeKeepInv(l, a, b, c);
    assert [a, b, c][1..] == [b, c] && [b, c][1..] == [c] && [c][1..] == [];
    assert Run(l, [a, b, c]) == Run(Apply(l, a), [b, c]) == Run(Apply(Apply(l, a), b), [c])
           == Run(Apply(Apply(Apply(l, a), b), c), []);
  }

  lemma SameSeenFromThere(l: Pair, a: MtuAction)
    requires InTable(l.here) && InTable(l.there)
    ensures Swapped(Apply(l, a)) == Apply(Swapped(l), if a.Here? then There(a.deed) else Here(a.deed))
    ensures Swapped(Swapped(l)) == l
  {}

  lemma {:induction false} HereClimbsRun(l: Pair)
    requires Inv(l) && l.here.idx < LAST_INDEX
    ensures Run(l, HereClimbs(l.here.idx + 1)) == Climbed(l)
  {
    var idx := l.here.idx + 1;
    RunThree(l, Here(Ticks(MTU_CHECK_DELAY, true)), There(Hears(Probe(idx))), Here(Hears(Answer(idx))));
  }

  function Mirrored(actions: seq<MtuAction>): seq<MtuAction> {
    if actions == [] then []
    else [if actions[0].Here? then There(actions[0].deed) else Here(actions[0].deed)] + Mirrored(actions[1..])
  }

  /** The two ends are alike: what one does in a run, the other does in the mirrored one. */
  lemma {:induction false} RunMirrored(l: Pair, actions: seq<MtuAction>)
    requires Inv(l)
    ensures Inv(Swapped(l)) && Run(Swapped(l), Mirrored(actions)) == Swapped(Run(l, actions))
    decreases |actions|
  {
    if actions != [] {
      ApplyKeepsInv(l, actions[0]);
      SameSeenFromThere(l, actions[0]);
      RunMirrored(Apply(l, actions[0]), actions[1..]);
      assert Mirrored(actions)[1..] == Mirrored(actions[1..]);
    }
  }

  lemma HereRises(l: Pair)
    requires Inv(l) && l.number == 0
    requires !l.here.finished && l.here.timer == 0 && 0 <= l.here.attempts <= 2 && POSSIBLE_MTU[l.here.idx + 1] <= l.path
    ensures var t := Run(l, HereClimbs(l.here.idx + 1));
            && Inv(t) && t.path == l.path && t.number == l.number && t.there == l.there.(attempts := 0)
            && t.here == State(l.here.idx + 1, l.here.attempts + 1, 0, l.here.idx + 1 == LAST_INDEX)
  {
    HereClimbsRun(l);
    ClimbHere(l);
    MtuSafe(l, HereClimbs(l.here.idx + 1));
  }

  lemma ThereRises(l: Pair)
    requires Inv(l) && l.number == 0
    requires !l.there.finished && l.there.timer == 0 && 0 <= l.there.attempts <= 2 && POSSIBLE_MTU[l.there.idx + 1] <= l.path
    ensures var t := Run(l, Mirrored(HereClimbs(l.there.idx + 1)));
            && Inv(t) && t.path == l.path && t.number == l.number && t.here == l.here.(attempts := 0)
            && t.there == State(l.there.idx + 1, l.there.attempts + 1, 0, l.there.idx + 1 == LAST_INDEX)
  {
    HereRises(Swapped(l));
    RunMirrored(Swapped(l), HereClimbs(l.there.idx + 1));
    assert Swapped(Swapped(l)) == l;
    MtuSafe(l, Mirrored(HereClimbs(l.there.idx + 1)));
  }

  // Both ends climb, one after the other.
  lemma RoundClimbs(l: Pair, j: int)
    requires 0 <= j < LAST_INDEX && BothAt(l, j) && l.number == 0 && POSSIBLE_MTU[j + 1] <= l.path
    ensures var t := Run(l, HereClimbs(j + 1) + Mirrored(HereClimbs(j + 1)));
            BothAt(t, j + 1) && t.path == l.path && t.number == l.number
  {
    HereRises(l);
    ThereRises(Run(l, HereClimbs(j + 1)));
    RunConcat(l, HereClimbs(j + 1), Mirrored(HereClimbs(j + 1)));
  }

  lemma {:induction false} CanClimb(path: int, k: int) returns (actions: seq<MtuAction>)
    requires 0 <= k <= LAST_INDEX && POSSIBLE_MTU[k] <= path
    ensures Inv(Start(path, 0))
    ensures var l := Run(Start(path, 0), actions); BothAt(l, k) && l.path == path && l.number == 0
    decreases k
  {
    StartBounded(path, 0);
    if k == 0 {
      actions := [];
    } else {
      TableIncreases(k - 1, k);
      var before := CanClimb(path, k - 1);
      RoundClimbs(Run(Start(path, 0), before), k - 1);
      RunConcat(Start(path, 0), before, (HereClimbs(k) + Mirrored(HereClimbs(k))));
      actions := before + (HereClimbs(k) + Mirrored(HereClimbs(k)));
    }
  }

  /** Two peers that both follow this discovery reach an entry of the table if and only if it is the first, or the path lets it
      through and the connection number is 0: the headers of probes and answers never get it. */
  lemma ReachableMtu(path: int, number: int, k: int)
    requires 0 <= k <= LAST_INDEX
    ensures Inv(Start(path, number))
    ensures (exists actions :: Run(Start(path, number), actions).here.idx == k)
            <==> k == 0 || (number == 0 && POSSIBLE_MTU[k] <= path)
  {
    StartBounded(path, number);
    if k == 0 {
      assert Run(Start(path, number), []).here.idx == k;
    } else if number == 0 && POSSIBLE_MTU[k] <= path {
      var actions := CanClimb(path, k);
      assert Run(Start(path, number), actions).here.idx == k;
    } else if actions :| Run(Start(path, number), actions).here.idx == k {
      MtuSafe(Start(path, number), actions);
      TableIncreases(0, k);
    }
  }

  // No update of the far end, so no probe of its own.
  predicate FarIsSilent(actions: seq<MtuAction>) {
    forall i :: 0 <= i < |actions| ==> !(actions[i].There? && actions[i].deed.Ticks?)
  }

  lemma {:induction false} CanClimbAlone(path: int, k: int) returns (actions: seq<MtuAction>)
    requires 0 <= k < MAX_MTU_CHECK_ATTEMPTS && POSSIBLE_MTU[k] <= path
    ensures FarIsSilent(actions) && Inv(Start(path, 0))
    ensures var l := Run(Start(path, 0), actions);
            Inv(l) && l.here == State(k, k, 0, false) && l.path == path && l.number == 0
    decreases k
  {
    StartBounded(path, 0);
    if k == 0 {
      actions := [];
    } else {
      TableIncreases(k - 1, k);
      var before := CanClimbAlone(path, k - 1);
      HereRises(Run(Start(path, 0), before));
      RunConcat(Start(path, 0), before, HereClimbs(k));
      actions := before + HereClimbs(k);
    }
  }

  /** An end whose far end only answers reaches an entry of the table if and only if it is the first, or one of the next three,
      the path lets it through and the connection number is 0. */
  lemma ReachableAlone(path: int, number: int, k: int)
    requires 0 <= k <= LAST_INDEX
    ensures Inv(Start(path, number))
    ensures (exists actions :: FarIsSilent(actions) && Run(Start(path, number), actions).here.idx == k)
            <==> k == 0 || (number == 0 && k <= 3 && POSSIBLE_MTU[k] <= path)
  {
    StartBounded(path, number);
    if k == 0 {
      assert FarIsSilent([]) && Run(Start(path, number), []).here.idx == k;
    } else if number == 0 && k <= 3 && POSSIBLE_MTU[k] <= path {
      var actions := CanClimbAlone(path, k);
      assert FarIsSilent(actions) && Run(Start(path, number), actions).here.idx == k;
    } else if actions :| FarIsSilent(actions) && Run(Start(path, number), actions).here.idx == k {
      MtuSafe(Start(path, number), actions);
      ThreeStepsAlone(Start(path, number), actions);
      TableIncreases(0, k);
    }
  }

  // ---- Two real ends ----------------------------------------------------------------------------

  /** Two discoveries and the packets between them; every step is one of the pair above. */
  class MtuLink {
    const here: MtuDiscovery
    const there: MtuDiscovery
    const path: int
    const number: int
    var toHere: set<MtuPacket>
    var toThere: set<MtuPacket>

    ghost function View(): Pair
      reads this, here, there
    {
      Pair(here.View(), there.View(), path, number, toHere, toThere)
    }

    ghost predicate Valid()
      reads this, here, there
    {
      here != there && here.Valid() && there.Valid() && Inv(View())
    }

    constructor (path: int, number: int)
      ensures Valid() && View() == Start(path, number)
    {
      here := new MtuDiscovery();
      there := new MtuDiscovery();
      this.path, this.number, toHere, toThere := path, number, {}, {};
    }

    static method Deliver(path: int, p: Option<MtuPacket>) returns (arriving: set<MtuPacket>)
      ensures arriving == Through(path, p)
    {
      arriving := if p.Some? && p.value.size <= path then {p.value} else {};
    }

    // What the end `e`, for which `arrived` has come through, does and sends.
    static method Do(e: MtuDiscovery, d: MtuDeed, arrived: set<MtuPacket>, number: int) returns (sent: Option<MtuPacket>)
      requires e.Valid()
      modifies e
      ensures e.Valid()
      ensures (e.View(), sent) == match d
                                  case Ticks(delta, taken) => Tick(old(e.View()), delta, taken)
                                  case Hears(p) =>
                                    if p in arrived && ConnectionNumber(p.header) == number then Process(old(e.View()), p)
                                    else (old(e.View()), None)
                                  case NetworkChanged => (Reset(old(e.View())), None)
    {
      sent := None;
      match d {
        case Ticks(delta, taken) => sent := e.UpdateMtuLogic(delta, taken);
        case Hears(p) =>
          if p in arrived && ConnectionNumber(p.header) == number {
            sent := e.ProcessMtuPacket(p);
          }
        case NetworkChanged => e.ResetMtu();
      }
    }

    method Step(a: MtuAction)
      requires Valid()
      modifies this, here, there
      ensures Valid() && View() == Apply(old(View()), a)
    {
      ApplyKeepsInv(View(), a);
      if a.Here? {
        var sent := Do(here, a.deed, toHere, number);
        var arriving := Deliver(path, sent);
        toThere := toThere + arriving;
      } else {
        var sent := Do(there, a.deed, toThere, number);
        var arriving := Deliver(path, sent);
        toHere := toHere + arriving;
      }
    }
  }
}
