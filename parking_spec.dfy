/** Value-level model of the parking lot of questions/ParkingLotQuestion.java.

    The classes of module Parking keep their state in objects; every method there is
    proved equal to one of the state transformers below (ParkStep, ExitStep, ...),
    and the lemmas of this module say what those transformers do, quirks included. */
module ParkingSpec {

  datatype Option<T> = None | Some(value: T)

  /** The vehicle is an opaque tag: the source's vehicle classes only print their type. */
  datatype VehicleType = Car | MotorCycle

  datatype ParkingSpot = ParkingSpot(vehicle: VehicleType, spotNumber: int)

  /** The value every new Level starts its `capacity` counter with. */
  const LevelCapacity: int := 5

  /** `maxLevels`: the parking lot never creates more levels than this. */
  const MaxLevels: int := 3

  /** An observer is an opaque identity; what it does with an update (print) is not modelled. */
  type ObserverId = int

  /** One call `observer.update(available)`. */
  datatype Update = Update(observer: ObserverId, available: int)

  /** The fields of one Level at one moment. */
  datatype LevelState = LevelState(spots: seq<ParkingSpot>, capacity: int) {

    predicate HasSpace() {
      capacity > 0
    }

    /** `addSpot(v)`: the new spot is numbered with the current list length. */
    function WithSpot(v: VehicleType): LevelState {
      LevelState(spots + [ParkingSpot(v, |spots|)], capacity - 1)
    }

    /** `removeSpot(n)`: drops every spot numbered `n` and raises the counter,
        whether or not a spot matched. */
    function WithoutSpot(n: int): LevelState {
      LevelState(Without(spots, n), capacity + 1)
    }
  }

  const NewLevel: LevelState := LevelState([], LevelCapacity)

  /** `removeSpot` of a number no spot carries keeps the spots and still frees a
      place, so a level that was empty reports one place more than it was built with. */
  lemma UnmatchedRemovalOverfills(l: LevelState, n: int)
    requires forall p :: p in l.spots ==> p.spotNumber != n
    ensures l.WithoutSpot(n).spots == l.spots
    ensures l.WithoutSpot(n).capacity == l.capacity + 1
    ensures l == NewLevel ==> l.WithoutSpot(n).capacity == LevelCapacity + 1
  {
  }

  /** The spots left by `removeIf(s -> s.spotNumber == n)`, in their original order. */
  function Without(spots: seq<ParkingSpot>, n: int): (r: seq<ParkingSpot>)
    ensures forall p :: multiset(r)[p] == if p.spotNumber == n then 0 else multiset(spots)[p]
    ensures forall p :: p in r <==> p in spots && p.spotNumber != n
    ensures |r| <= |spots|
    ensures (forall p :: p in spots ==> p.spotNumber != n) ==> r == spots
  {
    if spots == [] then []
    else
      assert spots == [spots[0]] + spots[1..];
      if spots[0].spotNumber == n then Without(spots[1..], n)
      else [spots[0]] + Without(spots[1..], n)
  }

  /** When the spot numbers of a list are distinct and the one at `k` is `n`, removing
      `n` shortens the list by exactly one. */
  lemma {:induction false} WithoutOneNumber(spots: seq<ParkingSpot>, n: int, k: nat)
    requires forall i, j :: 0 <= i < j < |spots| ==> spots[i].spotNumber != spots[j].spotNumber
    requires k < |spots| && spots[k].spotNumber == n
    ensures |Without(spots, n)| == |spots| - 1
  {
    if spots[0].spotNumber != n {
      assert spots[1..][k - 1].spotNumber == n;
      WithoutOneNumber(spots[1..], n, k - 1);
    } else {
      assert forall p :: p in spots[1..] ==> p.spotNumber != n;
    }
  }

  /** Spot numbers repeat. On a level whose spots are numbered 0, 1, ..., k-1 in
      order, as `addSpot` alone numbers them, removing any number but the last and
      then adding a spot gives the new spot the number of a spot still on the level. */
  lemma SpotNumberRepeatsAfterRemoval(l: LevelState, n: int, v: VehicleType)
    requires forall j :: 0 <= j < |l.spots| ==> l.spots[j].spotNumber == j
    requires 0 <= n < |l.spots| - 1
    ensures var kept := l.WithoutSpot(n).spots;
      var last := l.spots[|l.spots| - 1];
      && last in kept
      && l.WithoutSpot(n).WithSpot(v).spots[|kept|] == ParkingSpot(v, last.spotNumber)
  {
    WithoutOneNumber(l.spots, n, n);
  }

  /** `FirstAvailableStrategy.assignLevel`, as the index of the level it returns. */
  function FirstAvailable(levels: seq<LevelState>): (r: Option<nat>)
    ensures r.Some? ==> r.value < |levels| && levels[r.value].HasSpace()
    ensures r.Some? ==> forall j :: 0 <= j < r.value ==> !levels[j].HasSpace()
    ensures r.None? <==> forall j :: 0 <= j < |levels| ==> !levels[j].HasSpace()
  {
    if levels == [] then None
    else if levels[0].HasSpace() then Some(0)
    else match FirstAvailable(levels[1..])
      case None => None
      case Some(i) => Some(i + 1)
  }

  /** `createLevelIfNeeded`: the (possibly grown) level list and the index of the level
      returned, None standing for null. */
  function LevelIfNeeded(levels: seq<LevelState>): (r: (seq<LevelState>, Option<nat>))
    ensures r.1.Some? ==> r.1.value == |r.0| - 1
    ensures r.1.None? <==> (levels == [] || !levels[|levels| - 1].HasSpace()) && |levels| == MaxLevels
    ensures r.1.None? ==> r.0 == levels
    ensures r.0 == levels || r.0 == levels + [NewLevel]
    ensures |r.0| > |levels| <==> (levels == [] || !levels[|levels| - 1].HasSpace()) && |levels| != MaxLevels
  {
    if levels == [] || !levels[|levels| - 1].HasSpace() then
      if |levels| == MaxLevels then (levels, None)
      else (levels + [NewLevel], Some(|levels|))
    else (levels, Some(|levels| - 1))
  }

  /** Lines 122-123 of `park`: ask the strategy, and only if it finds nothing, fall back
      to `createLevelIfNeeded`. */
  function Assign(levels: seq<LevelState>): (r: (seq<LevelState>, Option<nat>))
    ensures r.1.Some? ==> r.1.value < |r.0| && r.0[r.1.value].HasSpace()
  {
    match FirstAvailable(levels)
    case Some(i) => (levels, Some(i))
    case None => LevelIfNeeded(levels)
  }

  /** The free count `notifyAllObservers` sums over the levels, in list order. */
  function TotalAvailable(levels: seq<LevelState>): int {
    if levels == [] then 0
    else TotalAvailable(levels[..|levels| - 1]) + levels[|levels| - 1].capacity
  }

  /** The `update` calls of one notification: every observer, in registration order. */
  function Broadcast(observers: seq<ObserverId>, available: int): seq<Update> {
    if observers == [] then []
    else Broadcast(observers[..|observers| - 1], available) + [Update(observers[|observers| - 1], available)]
  }

  /** The fields of the ParkingLot object at one moment. */
  datatype LotState = LotState(
    levels: seq<LevelState>,
    tickets: map<int, ParkingSpot>,
    nextTicket: int,
    observers: seq<ObserverId>,
    updates: seq<Update>)

  /** A freshly constructed parking lot. */
  const Initial: LotState := LotState([], map[], 1, [], [])

  /** What every reachable state satisfies. */
  predicate Inv(s: LotState) {
    && |s.levels| <= MaxLevels
    && (forall i :: 0 <= i < |s.levels| ==> s.levels[i].capacity >= 0)
    && s.nextTicket >= 1
    && (forall t :: t in s.tickets ==> 1 <= t < s.nextTicket)
  }

  /** `notifyAllObservers`. */
  function Notified(s: LotState): LotState {
    s.(updates := s.updates + Broadcast(s.observers, TotalAvailable(s.levels)))
  }

  /** `park(v)`: the new state and the returned ticket (-1 when the lot is full). */
  function ParkStep(s: LotState, v: VehicleType): (LotState, int) {
    var a := Assign(s.levels);
    var levels := a.0;
    match a.1
    case None => (s, -1)
    case Some(i) =>
      var spot := ParkingSpot(v, |levels[i].spots|);
      (Notified(s.(levels := levels[i := levels[i].WithSpot(v)],
                   tickets := s.tickets[s.nextTicket := spot],
                   nextTicket := s.nextTicket + 1)),
       s.nextTicket)
  }

  /** Line 138 of `exit`: `removeSpot(n)` on every level. */
  function RemoveEverywhere(levels: seq<LevelState>, n: int): seq<LevelState> {
    seq(|levels|, i requires 0 <= i < |levels| => levels[i].WithoutSpot(n))
  }

  /** `exit(ticketId)`. */
  function ExitStep(s: LotState, ticketId: int): LotState {
    if ticketId !in s.tickets then s
    else
      var n := s.tickets[ticketId].spotNumber;
      Notified(s.(levels := RemoveEverywhere(s.levels, n), tickets := s.tickets - {ticketId}))
  }

  /** `ParkCommand` and `ExitCommand`, without their printing. */
  datatype Command = ParkCommand(vehicle: VehicleType) | ExitCommand(ticket: int)

  function Execute(s: LotState, c: Command): LotState {
    match c
    case ParkCommand(v) => ParkStep(s, v).0
    case ExitCommand(t) => ExitStep(s, t)
  }

  /** The state after running the commands in order. */
  function Run(s: LotState, cmds: seq<Command>): LotState
    decreases |cmds|
  {
    if cmds == [] then s else Run(Execute(s, cmds[0]), cmds[1..])
  }

  /** The tickets handed out by the successful parks of a run, in order. */
  function Issued(s: LotState, cmds: seq<Command>): seq<int>
    decreases |cmds|
  {
    if cmds == [] then []
    else
      var out := match cmds[0]
        case ParkCommand(v) => (var t := ParkStep(s, v).1; if t == -1 then [] else [t])
        case ExitCommand(_) => [];
      out + Issued(Execute(s, cmds[0]), cmds[1..])
  }

  // ---------------------------------------------------------------------------
  // Sums and broadcasts

  lemma {:induction false} TotalAvailableUpdate(levels: seq<LevelState>, i: nat, l: LevelState)
    requires i < |levels|
    ensures TotalAvailable(levels[i := l]) == TotalAvailable(levels) - levels[i].capacity + l.capacity
  {
    var n := |levels| - 1;
    if i < n {
      assert levels[i := l][..n] == levels[..n][i := l];
      TotalAvailableUpdate(levels[..n], i, l);
    } else {
      assert levels[i := l][..n] == levels[..n];
    }
  }

  lemma TotalAvailableAppend(levels: seq<LevelState>, l: LevelState)
    ensures TotalAvailable(levels + [l]) == TotalAvailable(levels) + l.capacity
  {
    assert (levels + [l])[..|levels|] == levels;
  }

  /** `exit` raises the total free count by the number of levels, not by one. */
  lemma {:induction false} TotalAvailableRemoveEverywhere(levels: seq<LevelState>, n: int)
    ensures TotalAvailable(RemoveEverywhere(levels, n)) == TotalAvailable(levels) + |levels|
  {
    if levels != [] {
      var k := |levels| - 1;
      assert RemoveEverywhere(levels, n)[..k] == RemoveEverywhere(levels[..k], n);
      TotalAvailableRemoveEverywhere(levels[..k], n);
    }
  }

  /** A notification calls `update` once per observer, in registration order, with the
      current total, and leaves every earlier call in place. */
  lemma {:induction false} NotifiedReachesEveryObserver(s: LotState)
    ensures Notified(s).levels == s.levels && Notified(s).tickets == s.tickets
    ensures Notified(s).nextTicket == s.nextTicket && Notified(s).observers == s.observers
    ensures |Notified(s).updates| == |s.updates| + |s.observers|
    ensures Notified(s).updates[..|s.updates|] == s.updates
    ensures forall k :: 0 <= k < |s.observers| ==>
              Notified(s).updates[|s.updates| + k] == Update(s.observers[k], TotalAvailable(s.levels))
  {
    BroadcastInOrder(s.observers, TotalAvailable(s.levels));
  }

  lemma {:induction false} BroadcastInOrder(observers: seq<ObserverId>, available: int)
    ensures |Broadcast(observers, available)| == |observers|
    ensures forall k :: 0 <= k < |observers| ==> Broadcast(observers, available)[k] == Update(observers[k], available)
  {
    if observers != [] {
      BroadcastInOrder(observers[..|observers| - 1], available);
    }
  }

  // ---------------------------------------------------------------------------
  // park

  /** `park` returns -1 exactly when every level is full and `maxLevels` levels exist,
      and then nothing changes: no level, no ticket, no counter, no notification. */
  lemma ParkRejectedOnlyWhenFull(s: LotState, v: VehicleType)
    requires Inv(s)
    ensures ParkStep(s, v).1 == -1 <==>
              |s.levels| == MaxLevels && forall i :: 0 <= i < |s.levels| ==> !s.levels[i].HasSpace()
    ensures ParkStep(s, v).1 == -1 ==> ParkStep(s, v).0 == s
  {
  }

  /** A successful `park`, assembled from its parts: the chosen level gains the spot,
      the ticket table the ticket, `nextTicket` grows by one and the observers are
      notified of the new total. */
  lemma ParkStepFromParts(s: LotState, v: VehicleType, taken: LotState)
    requires Assign(s.levels).1.Some?
    requires var (grown, i) := (Assign(s.levels).0, Assign(s.levels).1.value);
      taken == s.(levels := grown[i := grown[i].WithSpot(v)],
                  tickets := s.tickets[s.nextTicket := ParkingSpot(v, |grown[i].spots|)])
    ensures ParkStep(s, v) == (Notified(taken).(nextTicket := s.nextTicket + 1), s.nextTicket)
  {
  }

  /** A successful `park` returns the old `nextTicket`, which was not yet a key of the
      ticket table, adds exactly that key, and increments `nextTicket` by one. */
  lemma ParkIssuesNextTicket(s: LotState, v: VehicleType)
    requires Inv(s)
    requires ParkStep(s, v).1 != -1
    ensures var (s', t) := ParkStep(s, v);
      && t == s.nextTicket
      && t !in s.tickets
      && s'.nextTicket == t + 1
      && s'.tickets.Keys == s.tickets.Keys + {t}
      && (forall k :: k in s.tickets ==> s'.tickets[k] == s.tickets[k])
      && s'.observers == s.observers
  {
    var a := Assign(s.levels);
    NotifiedReachesEveryObserver(ParkStep(s, v).0.(updates := s.updates));
  }

  /** A successful `park` changes exactly one level: the first with space or, when none
      has space, a new level appended after the full ones. That level loses one unit of
      `capacity` and gains one spot numbered with its old spot count, and the ticket
      table stores a spot equal to it. */
  lemma ParkOccupiesOneLevel(s: LotState, v: VehicleType)
    requires Inv(s)
    requires ParkStep(s, v).1 != -1
    ensures var (s', t) := ParkStep(s, v);
      var i := match FirstAvailable(s.levels) case Some(k) => k case None => |s.levels|;
      var before := if i < |s.levels| then s.levels[i] else NewLevel;
      && i < |s'.levels|
      && |s'.levels| == (if i < |s.levels| then |s.levels| else |s.levels| + 1)
      && (i == |s.levels| ==> forall j :: 0 <= j < |s.levels| ==> !s.levels[j].HasSpace())
      && before.HasSpace()
      && s'.levels[i].capacity == before.capacity - 1
      && s'.levels[i].spots == before.spots + [ParkingSpot(v, |before.spots|)]
      && s'.tickets[t] == ParkingSpot(v, |before.spots|)
      && (forall j :: 0 <= j < |s.levels| && j != i ==> s'.levels[j] == s.levels[j])
  {
    var a := Assign(s.levels);
    if FirstAvailable(s.levels).None? {
      assert s.levels == [] || !s.levels[|s.levels| - 1].HasSpace();
    }
  }

  /** After a successful `park` every observer is told, in registration order, the new
      total free count: one less than before, plus a whole new level's capacity when a
      level was created. */
  lemma ParkNotifiesObservers(s: LotState, v: VehicleType)
    requires Inv(s)
    requires ParkStep(s, v).1 != -1
    ensures var s' := ParkStep(s, v).0;
      && TotalAvailable(s'.levels) ==
           TotalAvailable(s.levels) - 1 + (if |s'.levels| > |s.levels| then LevelCapacity else 0)
      && |s'.updates| == |s.updates| + |s.observers|
      && s'.updates[..|s.updates|] == s.updates
      && forall k :: 0 <= k < |s.observers| ==>
           s'.updates[|s.updates| + k] == Update(s.observers[k], TotalAvailable(s'.levels))
  {
    var a := Assign(s.levels);
    var levels := a.0;
    var i := a.1.value;
    var pre := s.(levels := levels[i := levels[i].WithSpot(v)],
                  tickets := s.tickets[s.nextTicket := ParkingSpot(v, |levels[i].spots|)],
                  nextTicket := s.nextTicket + 1);
    NotifiedReachesEveryObserver(pre);
    TotalAvailableUpdate(levels, i, levels[i].WithSpot(v));
    if levels != s.levels {
      TotalAvailableAppend(s.levels, NewLevel);
    }
  }

  // ---------------------------------------------------------------------------
  // exit

  /** `exit` with a ticket that is not in the table changes nothing and notifies nobody;
      in particular a second `exit` of the same ticket is a no-op. */
  lemma ExitUnknownTicketIsNoOp(s: LotState, t: int)
    requires t !in s.tickets
    ensures ExitStep(s, t) == s
    ensures ExitStep(ExitStep(s, t), t) == s
  {
  }

  lemma ExitTwiceIsExitOnce(s: LotState, t: int)
    ensures ExitStep(ExitStep(s, t), t) == ExitStep(s, t)
  {
    if t in s.tickets {
      NotifiedReachesEveryObserver(s.(levels := RemoveEverywhere(s.levels, s.tickets[t].spotNumber),
                                      tickets := s.tickets - {t}));
    }
  }

  /** `exit` with a known ticket removes that ticket, removes every spot carrying the
      stored number from EVERY level, raises EVERY level's `capacity` by one whether or
      not a spot matched, and tells each observer the new total, which grew by the
      number of levels. */
  lemma ExitFreesNumberOnEveryLevel(s: LotState, t: int)
    requires t in s.tickets
    ensures var s' := ExitStep(s, t); var n := s.tickets[t].spotNumber;
      && s'.tickets == s.tickets - {t}
      && s'.nextTicket == s.nextTicket
      && |s'.levels| == |s.levels|
      && (forall i :: 0 <= i < |s.levels| ==> s'.levels[i].capacity == s.levels[i].capacity + 1)
      && (forall i, p :: 0 <= i < |s.levels| ==>
            multiset(s'.levels[i].spots)[p] == if p.spotNumber == n then 0 else multiset(s.levels[i].spots)[p])
      && (forall i, p :: 0 <= i < |s.levels| ==>
            (p in s'.levels[i].spots <==> p in s.levels[i].spots && p.spotNumber != n))
      && s'.observers == s.observers
      && TotalAvailable(s'.levels) == TotalAvailable(s.levels) + |s.levels|
      && |s'.updates| == |s.updates| + |s.observers|
      && s'.updates[..|s.updates|] == s.updates
      && forall k :: 0 <= k < |s.observers| ==>
           s'.updates[|s.updates| + k] == Update(s.observers[k], TotalAvailable(s'.levels))
  {
    var n := s.tickets[t].spotNumber;
    NotifiedReachesEveryObserver(s.(levels := RemoveEverywhere(s.levels, n), tickets := s.tickets - {t}));
    TotalAvailableRemoveEverywhere(s.levels, n);
  }

  // ---------------------------------------------------------------------------
  // Invariant and runs

  lemma InitialSatisfiesInv()
    ensures Inv(Initial)
  {
  }

  /** `park` keeps at most `maxLevels` levels, no negative counter, and every ticket
      below `nextTicket`. */
  lemma ParkKeepsInv(s: LotState, v: VehicleType)
    requires Inv(s)
    ensures Inv(ParkStep(s, v).0)
  {
    var a := Assign(s.levels);
    if a.1.Some? {
      var s' := ParkStep(s, v).0;
      ParkOccupiesOneLevel(s, v);
      ParkIssuesNextTicket(s, v);
      if FirstAvailable(s.levels).None? {
        assert s.levels == [] || !s.levels[|s.levels| - 1].HasSpace();
      }
    }
  }

  lemma ExitKeepsInv(s: LotState, t: int)
    requires Inv(s)
    ensures Inv(ExitStep(s, t))
  {
    if t in s.tickets {
      ExitFreesNumberOnEveryLevel(s, t);
    }
  }

  lemma {:induction false} RunKeepsInv(s: LotState, cmds: seq<Command>)
    requires Inv(s)
    ensures Inv(Run(s, cmds))
    decreases |cmds|
  {
    if cmds != [] {
      match cmds[0] {
        case ParkCommand(v) => ParkKeepsInv(s, v);
        case ExitCommand(t) => ExitKeepsInv(s, t);
      }
      RunKeepsInv(Execute(s, cmds[0]), cmds[1..]);
    }
  }

  /** The tickets a run hands out are `nextTicket`, `nextTicket + 1`, ... in order, so
      from a fresh lot they are 1, 2, 3, ...: strictly increasing and never reused. */
  lemma {:induction false} IssuedTicketsAreConsecutive(s: LotState, cmds: seq<Command>)
    requires Inv(s)
    ensures forall k :: 0 <= k < |Issued(s, cmds)| ==> Issued(s, cmds)[k] == s.nextTicket + k
    ensures Run(s, cmds).nextTicket == s.nextTicket + |Issued(s, cmds)|
    decreases |cmds|
  {
    if cmds != [] {
      var s1 := Execute(s, cmds[0]);
      match cmds[0] {
        case ParkCommand(v) =>
          ParkKeepsInv(s, v);
          if ParkStep(s, v).1 != -1 {
            ParkIssuesNextTicket(s, v);
          } else {
            ParkRejectedOnlyWhenFull(s, v);
          }
        case ExitCommand(t) =>
          ExitKeepsInv(s, t);
          if t in s.tickets {
            ExitFreesNumberOnEveryLevel(s, t);
          }
      }
      IssuedTicketsAreConsecutive(s1, cmds[1..]);
    }
  }

  /** Spot numbers come from the list length, so they repeat after a removal, and `exit`
      removes every spot with the stored number. Park twice, exit ticket 1, park again,
      exit ticket 2: ticket 3 is still outstanding but no level holds a spot for it, and
      the level's counter says 4 free places while it holds no car. */
  lemma ReusedSpotNumberStrandsTicket(cmds: seq<Command>)
    requires cmds == [ParkCommand(Car), ParkCommand(Car), ExitCommand(1), ParkCommand(Car), ExitCommand(2)]
    ensures var s := Run(Initial, cmds);
      && s.tickets.Keys == {3}
      && s.tickets[3] == ParkingSpot(Car, 1)
      && s.levels == [LevelState([], 4)]
  {
    var states := ScenarioStates();
    ScenarioSteps(cmds, states);
    RunFrom(Initial, cmds, states);
  }

  /** The states the scenario above goes through. */
  function ScenarioStates(): seq<LotState> {
    [Initial,
     LotState([LevelState([ParkingSpot(Car, 0)], 4)], map[1 := ParkingSpot(Car, 0)], 2, [], []),
     LotState([LevelState([ParkingSpot(Car, 0), ParkingSpot(Car, 1)], 3)],
              map[1 := ParkingSpot(Car, 0), 2 := ParkingSpot(Car, 1)], 3, [], []),
     LotState([LevelState([ParkingSpot(Car, 1)], 4)], map[2 := ParkingSpot(Car, 1)], 3, [], []),
     LotState([LevelState([ParkingSpot(Car, 1), ParkingSpot(Car, 1)], 3)],
              map[2 := ParkingSpot(Car, 1), 3 := ParkingSpot(Car, 1)], 4, [], []),
     LotState([LevelState([], 4)], map[3 := ParkingSpot(Car, 1)], 4, [], [])]
  }

  /** Each command of the scenario takes its state to the next one. */
  lemma ScenarioSteps(cmds: seq<Command>, states: seq<LotState>)
    requires cmds == [ParkCommand(Car), ParkCommand(Car), ExitCommand(1), ParkCommand(Car), ExitCommand(2)]
    requires states == ScenarioStates()
    ensures |states| == |cmds| + 1
    ensures forall k :: 0 <= k < |cmds| ==> Execute(states[k], cmds[k]) == states[k + 1]
  {
    ScenarioParks(states);
    ScenarioExits(states);
  }

  lemma ScenarioParks(states: seq<LotState>)
    requires states == ScenarioStates()
    ensures ParkStep(states[0], Car).0 == states[1]
    ensures ParkStep(states[1], Car).0 == states[2]
    ensures ParkStep(states[3], Car).0 == states[4]
  {
    ScenarioFirstPark(states[1]);
    assert states[1].levels[0].WithSpot(Car) == states[2].levels[0];
    ScenarioParkOnFirstLevel(states[1], states[2]);
    assert states[3].levels[0].WithSpot(Car) == states[4].levels[0];
    ScenarioParkOnFirstLevel(states[3], states[4]);
  }

  lemma ScenarioExits(states: seq<LotState>)
    requires states == ScenarioStates()
    ensures ExitStep(states[2], 1) == states[3]
    ensures ExitStep(states[4], 2) == states[5]
  {
    ScenarioExit(states[2], 1, states[3]);
    ScenarioExit(states[4], 2, states[5]);
  }

  /** A run is the chain of its single steps. */
  lemma {:induction false} RunFrom(s: LotState, cmds: seq<Command>, states: seq<LotState>)
    requires |states| == |cmds| + 1 && states[0] == s
    requires forall k :: 0 <= k < |cmds| ==> Execute(states[k], cmds[k]) == states[k + 1]
    ensures Run(s, cmds) == states[|cmds|]
    decreases |cmds|
  {
    if cmds != [] {
      RunFrom(states[1], cmds[1..], states[1..]);
    }
  }

  /** The first car opens level 0 and gets spot 0 and ticket 1. */
  lemma ScenarioFirstPark(s1: LotState)
    requires s1 == LotState([LevelState([ParkingSpot(Car, 0)], 4)], map[1 := ParkingSpot(Car, 0)], 2, [], [])
    ensures ParkStep(Initial, Car).0 == s1
  {
    var none: seq<LevelState> := [];
    assert none + [NewLevel] == [NewLevel];
    assert FirstAvailable(none) == None;
    assert LevelIfNeeded(none) == ([NewLevel], Some(0));
    assert Assign(Initial.levels) == ([NewLevel], Some(0));
    assert NewLevel.WithSpot(Car) == s1.levels[0];
    ParkStepFromParts(Initial, Car, s1.(nextTicket := 1));
  }

  /** With no observers, a park on a single level that has space adds the spot there. */
  lemma ScenarioParkOnFirstLevel(s: LotState, s': LotState)
    requires |s.levels| == 1 && s.levels[0].HasSpace() && s.observers == [] && s.updates == []
    requires s' == s.(levels := [s.levels[0].WithSpot(Car)],
                      tickets := s.tickets[s.nextTicket := ParkingSpot(Car, |s.levels[0].spots|)],
                      nextTicket := s.nextTicket + 1)
    ensures ParkStep(s, Car).0 == s'
  {
    assert Assign(s.levels) == (s.levels, Some(0));
    ParkStepFromParts(s, Car, s'.(nextTicket := s.nextTicket));
  }

  /** With no observers, an exit of a ticket on a single level. */
  lemma ScenarioExit(s: LotState, t: int, s': LotState)
    requires |s.levels| == 1 && s.observers == [] && s.updates == [] && t in s.tickets
    requires s' == s.(levels := [s.levels[0].WithoutSpot(s.tickets[t].spotNumber)],
                      tickets := s.tickets - {t})
    ensures ExitStep(s, t) == s'
  {
  }
}
