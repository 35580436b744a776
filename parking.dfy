/** The objects of questions/ParkingLotQuestion.java: Level, the first-available strategy
    and ParkingLot. Each method is proved to change its object exactly as the matching
    transformer of ParkingSpec says; what those transformers do is proved there. */
module Parking {
  import opened ParkingSpec

  class Level {
    var spots: seq<ParkingSpot>
    var capacity: int

    function State(): LevelState
      reads this
    {
      LevelState(spots, capacity)
    }

    constructor()
      ensures State() == NewLevel
    {
      spots := [];
      capacity := LevelCapacity;
    }

    method AddSpot(v: VehicleType) returns (spotNumber: int)
      modifies this
      ensures spotNumber == |old(spots)|
      ensures State() == old(State()).WithSpot(v)
    {
      spotNumber := |spots|;
      spots := spots + [ParkingSpot(v, spotNumber)];
      capacity := capacity - 1;
    }

    method RemoveSpot(spotNumber: int)
      modifies this
      ensures State() == old(State()).WithoutSpot(spotNumber)
    {
      spots := Without(spots, spotNumber);
      capacity := capacity + 1;
    }

    predicate HasSpace()
      reads this
      ensures HasSpace() <==> GetAvailable() > 0
    {
      State().HasSpace()
    }

    function GetAvailable(): int
      reads this
    {
      capacity
    }
  }

  predicate DistinctLevels(levels: seq<Level>) {
    forall i, j :: 0 <= i < j < |levels| ==> levels[i] != levels[j]
  }

  /** `FirstAvailableStrategy.assignLevel`: the first level in list order that has space,
      or null when there is none. `states` are the states of `levels`. */
  method AssignLevel(levels: seq<Level>, ghost states: seq<LevelState>) returns (chosen: Level?)
    requires |states| == |levels|
    requires forall j :: 0 <= j < |levels| ==> levels[j].State() == states[j]
    ensures FirstAvailable(states).None? <==> chosen == null
    ensures FirstAvailable(states).Some? ==> chosen == levels[FirstAvailable(states).value]
  {
    for i := 0 to |levels|
      invariant forall j :: 0 <= j < i ==> !states[j].HasSpace()
    {
      if levels[i].HasSpace() {
        return levels[i];
      }
    }
    return null;
  }

  class ParkingLot {
    var levels: seq<Level>
    var observers: seq<ObserverId>
    var tickets: map<int, ParkingSpot>
    var nextTicket: int
    const maxLevels: int := MaxLevels
    /** Every `update(available)` call made on an observer so far, in order. */
    var updates: seq<Update>
    /** The states of `levels`, kept in step with them. */
    ghost var levelStates: seq<LevelState>

    ghost function State(): LotState
      reads this
    {
      LotState(levelStates, tickets, nextTicket, observers, updates)
    }

    /** `levelStates` is the state of the distinct objects in `levels`. */
    ghost predicate InStep()
      reads this`levels, this`levelStates, levels
    {
      && |levelStates| == |levels|
      && DistinctLevels(levels)
      && forall i :: 0 <= i < |levels| ==> levels[i].State() == levelStates[i]
    }

    ghost predicate Valid()
      reads this, levels
    {
      InStep() && Inv(State())
    }

    constructor()
      ensures Valid() && State() == Initial
    {
      levels := [];
      levelStates := [];
      observers := [];
      tickets := map[];
      nextTicket := 1;
      updates := [];
    }

    method AddObserver(obs: ObserverId)
      requires Valid()
      modifies this
      ensures Valid() && levels == old(levels)
      ensures State() == old(State()).(observers := old(observers) + [obs])
    {
      observers := observers + [obs];
    }

    /** Sums `getAvailable()` over the levels, then calls `update(total)` on every
        observer in registration order. */
    method NotifyAllObservers()
      requires InStep()
      modifies this`updates
      ensures State() == Notified(old(State()))
    {
      var total := 0;
      for i := 0 to |levels|
        invariant total == TotalAvailable(levelStates[..i])
      {
        assert levelStates[..i + 1][..i] == levelStates[..i];
        total := total + levels[i].GetAvailable();
      }
      assert levelStates[..|levels|] == levelStates;
      for k := 0 to |observers|
        invariant updates == old(updates) + Broadcast(observers[..k], total)
      {
        assert observers[..k + 1][..k] == observers[..k];
        updates := updates + [Update(observers[k], total)];
      }
      assert observers[..|observers|] == observers;
    }

    /** Appends a new level when there is none or the last one is full, unless
        `maxLevels` levels exist; returns the last level, or null at the ceiling. */
    method CreateLevelIfNeeded() returns (level: Level?)
      requires InStep()
      modifies this`levels, this`levelStates
      ensures InStep()
      ensures var r := LevelIfNeeded(old(levelStates));
        && levelStates == r.0
        && (r.1.None? <==> level == null)
        && (r.1.Some? ==> level == levels[r.1.value])
      ensures levels == old(levels) || (levels == old(levels) + [level] && fresh(level))
    {
      if levels == [] || !levels[|levels| - 1].HasSpace() {
        if |levels| == maxLevels {
          return null;
        }
        var l := new Level();
        levels := levels + [l];
        levelStates := levelStates + [NewLevel];
      }
      return levels[|levels| - 1];
    }

    method Park(v: VehicleType) returns (ticket: int)
      requires Valid()
      modifies this, levels
      ensures Valid()
      ensures (State(), ticket) == ParkStep(old(State()), v)
      ensures levels == old(levels) || (levels == old(levels) + [levels[|levels| - 1]] && fresh(levels[|levels| - 1]))
    {
      ghost var s := State();
      var chosen := ChooseLevel();
      if chosen == null {
        return -1;
      }
      ticket := ParkOn(chosen, s, v);
    }

    /** Lines 128-132 of `park`, once a level has been chosen in state `s`. */
    method ParkOn(chosen: Level, ghost s: LotState, v: VehicleType) returns (ticket: int)
      requires InStep() && Inv(s)
      requires Assign(s.levels).1.Some? && State() == s.(levels := Assign(s.levels).0)
      requires chosen == levels[Assign(s.levels).1.value]
      modifies this`levelStates, this`tickets, this`updates, this`nextTicket, chosen
      ensures InStep() && Inv(State())
      ensures (State(), ticket) == ParkStep(s, v)
    {
      TakeSpot(chosen, Assign(s.levels).1.value, v);
      ghost var taken := State();
      ticket := NotifyAndIssue();
      ParkStepFromParts(s, v, taken);
      ParkKeepsInv(s, v);
    }

    /** Lines 131-132 of `park`: notify the observers, then return `nextTicket` and
        increment it. */
    method NotifyAndIssue() returns (ticket: int)
      requires InStep()
      modifies this`updates, this`nextTicket
      ensures ticket == old(nextTicket)
      ensures State() == Notified(old(State())).(nextTicket := old(nextTicket) + 1)
    {
      NotifyAllObservers();
      ticket := nextTicket;
      nextTicket := nextTicket + 1;
    }

    /** Lines 128-130 of `park`: `addSpot` on the chosen level, and the ticket table
        maps `nextTicket` to the new spot. */
    method TakeSpot(chosen: Level, ghost i: nat, v: VehicleType)
      requires InStep() && i < |levels| && levels[i] == chosen
      modifies this`levelStates, this`tickets, chosen
      ensures InStep()
      ensures State() == old(State()).(levels := old(levelStates)[i := old(levelStates)[i].WithSpot(v)],
                                       tickets := old(tickets)[nextTicket := ParkingSpot(v, |old(levelStates)[i].spots|)])
    {
      var spot := chosen.AddSpot(v);
      levelStates := levelStates[i := chosen.State()];
      tickets := tickets[nextTicket := ParkingSpot(v, spot)];
    }

    /** Lines 122-123 of `park`: the strategy's level or, failing that, the one
        `createLevelIfNeeded` returns. */
    method ChooseLevel() returns (chosen: Level?)
      requires InStep()
      modifies this`levels, this`levelStates
      ensures InStep()
      ensures State() == old(State()).(levels := Assign(old(levelStates)).0)
      ensures var a := Assign(old(levelStates));
        && levelStates == a.0
        && (a.1.None? <==> chosen == null)
        && (a.1.Some? ==> chosen == levels[a.1.value])
      ensures levels == old(levels) || (levels == old(levels) + [chosen] && fresh(chosen))
    {
      chosen := AssignLevel(levels, levelStates);
      if chosen == null {
        chosen := CreateLevelIfNeeded();
      }
    }

    method Exit(ticketId: int)
      requires Valid()
      modifies this, levels
      ensures Valid() && levels == old(levels)
      ensures State() == ExitStep(old(State()), ticketId)
    {
      if ticketId !in tickets {
        return;
      }
      var ps := tickets[ticketId];
      RemoveSpotOnEveryLevel(ps.spotNumber);
      tickets := tickets - {ticketId};
      NotifyAllObservers();
      ExitKeepsInv(old(State()), ticketId);
    }

    /** Line 138 of `exit`: `removeSpot(n)` on every level, in list order. */
    method RemoveSpotOnEveryLevel(n: int)
      requires InStep()
      modifies this`levelStates, levels
      ensures InStep() && levelStates == RemoveEverywhere(old(levelStates), n)
    {
      for i := 0 to |levels|
        invariant |levelStates| == |levels|
        invariant forall j :: 0 <= j < |levels| ==> levels[j].State() == levelStates[j]
        invariant forall j :: 0 <= j < i ==> levelStates[j] == old(levelStates[j]).WithoutSpot(n)
        invariant forall j :: i <= j < |levels| ==> levelStates[j] == old(levelStates[j])
      {
        levels[i].RemoveSpot(n);
        levelStates := levelStates[i := levels[i].State()];
      }
    }
  }
}
