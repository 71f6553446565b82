/** The per-aircraft state machine: eleven states built in a fixed order,
    the state names mapped to their positions, and the transition step that
    exits the current state, enters the next and keeps entering while an
    entry names another state. */
module StateMachines {
  import opened Wrappers
  import opened RouteBase
  import opened Airports
  import opened Aircrafts
  import opened States
  import opened Departure

  /** The state names in the order the machine builds its states: the
      position of a name is its state id. */
  const StateNames: seq<string> :=
    ["Initial", "TouchDown", "MaintainSpeed", "Stop", "IdleState", "RequestRunway",
     "RequestPushBack", "PushBack", "TakeOff", "Hold", "Leaving"]

  /** A state id. */
  type StateId = id: nat | id < 11

  /** The names are distinct, so each has one id. */
  lemma NamesDistinct()
    ensures forall i, j :: 0 <= i < j < |StateNames| ==> StateNames[i] != StateNames[j]
  {
  }

  /** The name-to-id lookup: the position of a known name; an unknown name
      reads as 0, the value the map's `operator[]` inserts for it. */
  function StateIdOf(name: string): (id: StateId)
    ensures name in StateNames ==> StateNames[id] == name
    ensures name !in StateNames ==> id == 0
  {
    if name == "Initial" then 0
    else if name == "TouchDown" then 1
    else if name == "MaintainSpeed" then 2
    else if name == "Stop" then 3
    else if name == "IdleState" then 4
    else if name == "RequestRunway" then 5
    else if name == "RequestPushBack" then 6
    else if name == "PushBack" then 7
    else if name == "TakeOff" then 8
    else if name == "Hold" then 9
    else if name == "Leaving" then 10
    else 0
  }

  /** Looking up the name of an id gives the id back. */
  lemma StateIdOfName(id: StateId)
    ensures StateIdOf(StateNames[id]) == id
  {
  }

  /** The names the update of each state can return. */
  function UpdateOutcomes(id: StateId): set<string>
  {
    match id
    case 0 => {"Initial", "TouchDown"}
    case 1 => {"TouchDown"}
    case 2 => {"MaintainSpeed", "TakeOff", "IdleState", "Stop", "Hold"}
    case 3 => {"Stop", "IdleState"}
    case 4 => {"RequestRunway", "MaintainSpeed", "TakeOff", "IdleState"}
    case 5 => {"RequestRunway", "RequestPushBack"}
    case 6 => {"RequestPushBack", "PushBack"}
    case 7 => {"PushBack", "MaintainSpeed"}
    case 8 => {"TakeOff", "Leaving"}
    case 9 => {"IdleState", "MaintainSpeed", "TakeOff", "Hold"}
    case 10 => {"Leaving"}
  }

  /** The names the entry of each state can return: touch-down always goes
      on to taxiing, taxiing with nothing left to travel goes on to take-off
      or idling, and every other entry names its own state. */
  function EntryOutcomes(id: StateId): set<string>
  {
    if id == 1 then {"MaintainSpeed"}
    else if id == 2 then {"MaintainSpeed", "TakeOff", "IdleState"}
    else {StateNames[id]}
  }

  /** Every name a state returns is a state name, so the lookup never
      meets an unknown name. */
  lemma OutcomesKnown(id: StateId, name: string)
    requires name in UpdateOutcomes(id) || name in EntryOutcomes(id)
    ensures name in StateNames && StateNames[StateIdOf(name)] == name
  {
  }

  /** How many more entries a transition into a state can chain. */
  function Rank(id: StateId): (n: nat)
    ensures n <= 2
  {
    if id == 1 then 2 else if id == 2 then 1 else 0
  }

  /** An entry that names another state names one of lower rank, so the
      chain of entries of a transition ends, after at most three entries. */
  lemma EntriesDescend(id: StateId, name: string)
    requires name in EntryOutcomes(id) && StateIdOf(name) != id
    ensures Rank(StateIdOf(name)) < Rank(id)
  {
  }

  /** The states a transition into `id` can come to rest in. */
  function SettlesIn(id: StateId): set<StateId>
  {
    if id == 1 || id == 2 then {2, 4, 8} else {id}
  }

  /** Leaving is final: its update stays and its entry stays. */
  lemma LeavingFinal()
    ensures UpdateOutcomes(10) == {"Leaving"} && EntryOutcomes(10) == {"Leaving"}
    ensures SettlesIn(10) == {10}
  {
  }

  /** Along the transitions the states allow, an arriving aircraft goes
      from its countdown to the gate, waits, pushes back, taxis and takes
      off: each name in the sequence is an update outcome of the state
      before it. */
  lemma Lifecycle()
    ensures var path := ["Initial", "TouchDown", "MaintainSpeed", "Stop", "IdleState",
                         "RequestRunway", "RequestPushBack", "PushBack", "MaintainSpeed",
                         "Hold", "TakeOff", "Leaving"];
            forall k :: 0 <= k < |path| - 1 ==>
              path[k + 1] in UpdateOutcomes(StateIdOf(path[k])) + EntryOutcomes(StateIdOf(path[k]))
  {
  }

  /** `StateMachine`: the aircraft, its states and the current state id.
      The states that keep data of their own are objects; the others are
      the methods of the state modules. */
  class StateMachine {
    const aircraft: Aircraft
    const initial: InitialState
    const maintainSpeed: MaintainSpeedState
    const idle: IdleState
    const pushBack: PushBackState
    var current: StateId

    /** The airport is consistent and built, and the aircraft and the
        taxiing state refer to its elements. */
    ghost predicate Valid(airport: Airport)
      reads aircraft`route, aircraft`gate, airport`routes, airport`routeIds, airport`runways,
            airport`taxiways, airport`arcways, airport`gates, airport`segments, airport`matrix,
            airport`idToName, maintainSpeed`currentRoute, maintainSpeed`nextRoute
    {
      World(aircraft, airport) && maintainSpeed.Within(|airport.routes|)
    }

    /** The machine of a new aircraft: the states are built, the current
        state is Initial, and entering it requests a gate. */
    constructor (aircraft: Aircraft)
      modifies aircraft`requestOfGateSent
      ensures this.aircraft == aircraft && current == 0 && aircraft.requestOfGateSent
      ensures initial.timer == 0.0 && idle.timer == 0.0 && pushBack.pushBackSpeed == 0.0
      ensures maintainSpeed.currentRoute.None? && maintainSpeed.nextRoute.None?
      ensures fresh(initial) && fresh(maintainSpeed) && fresh(idle) && fresh(pushBack)
    {
      this.aircraft := aircraft;
      initial := new InitialState();
      maintainSpeed := new MaintainSpeedState();
      idle := new IdleState();
      pushBack := new PushBackState();
      current := 0;
      new;
      var _ := initial.Entry(aircraft);
    }

    /** `Exit` of the current state. */
    method ExitState(airport: Airport) returns (defined: bool)
      requires Valid(airport)
      modifies aircraft, airport`routes, airport`nameToId, idle`timer
      ensures Valid(airport)
    {
      defined := true;
      if current == 3 {
        StopExit(aircraft);
      } else if current == 4 {
        idle.Exit();
      } else if current == 7 {
        defined := pushBack.Exit(aircraft, airport);
      }
    }

    /** `Entry` of the current state. */
    method EntryState(airport: Airport) returns (next: string, defined: bool)
      requires Valid(airport)
      modifies aircraft, airport`routes, airport`nameToId, maintainSpeed, pushBack`pushBackSpeed
      ensures Valid(airport)
      ensures next in EntryOutcomes(current)
    {
      defined := true;
      match current
      case 0 => next := initial.Entry(aircraft);
      case 1 => next, defined := EntryLanding(airport);
      case 2 => next, defined := EntryLanding(airport);
      case 3 => next := "Stop";
      case 4 => next := idle.Entry(aircraft);
      case 5 => next := RequestRunwayEntry(aircraft);
      case 6 => next := RequestPushBackEntry(aircraft);
      case 7 => next, defined := pushBack.Entry(aircraft, airport);
      case 8 => next, defined := TakeOffEntry(aircraft, airport);
      case 9 => next := HoldEntry(aircraft);
      case 10 => next := LeavingEntry(aircraft);
    }

    /** `Entry` of TouchDown or MaintainSpeed. */
    method EntryLanding(airport: Airport) returns (next: string, defined: bool)
      requires Valid(airport) && (current == 1 || current == 2)
      modifies aircraft, airport`routes, airport`nameToId, maintainSpeed
      ensures Valid(airport)
      ensures next in EntryOutcomes(current)
    {
      if current == 1 {
        next, defined := TouchDownEntry(aircraft, airport);
      } else {
        next, defined := maintainSpeed.Entry(aircraft, airport);
      }
    }

    /** `Update` of the current state; the positions of the other aircraft
        are read from `traffic`. */
    method UpdateState(airport: Airport, dt: real, traffic: map<AircraftId, Neighbour>)
      returns (next: string, defined: bool)
      requires dt > 0.0 && Valid(airport) && TrafficKnown(airport.routes, aircraft.id, traffic)
      modifies aircraft, airport`routes, initial`timer, maintainSpeed, idle`timer
      ensures Valid(airport)
      ensures next in UpdateOutcomes(current)
    {
      defined := true;
      match current
      case 0 => next := initial.Update(dt);
      case 1 => next := "TouchDown";
      case 2 =>
        ghost var target, leading, close, holdType;
        next, defined, target, leading, close, holdType :=
          maintainSpeed.Update(aircraft, airport, dt, traffic);
      case 3 => next, defined := UpdateRolling(airport, dt);
      case 4 => next := idle.Update(aircraft, dt);
      case 5 => next := RequestRunwayUpdate(aircraft);
      case 6 => next := RequestPushBackUpdate(aircraft);
      case 7 => next, defined := UpdateRolling(airport, dt);
      case 8 => next, defined := UpdateRolling(airport, dt);
      case 9 => next, defined := UpdateRolling(airport, dt);
      case 10 => next := "Leaving";
    }

    /** `Update` of Stop, PushBack, TakeOff or Hold, the states that move
        the aircraft at a set acceleration. */
    method UpdateRolling(airport: Airport, dt: real) returns (next: string, defined: bool)
      requires dt > 0.0 && Valid(airport) && current in {3, 7, 8, 9}
      modifies aircraft, airport`routes
      ensures Valid(airport)
      ensures next in UpdateOutcomes(current)
    {
      if current == 3 {
        next, defined := StopUpdate(aircraft, airport, dt);
      } else if current == 7 {
        next, defined := pushBack.Update(aircraft, airport, dt);
      } else if current == 8 {
        next, defined := TakeOffUpdate(aircraft, airport, dt);
      } else {
        next, defined := HoldUpdate(aircraft, airport, dt);
      }
    }

    /** `StateMachine::TransitToState`: the current state is exited, the
        named one becomes current and is entered, and while an entry names
        another state the machine moves on to it. */
    method TransitToState(airport: Airport, name: string) returns (defined: bool)
      requires Valid(airport) && name in StateNames
      modifies this`current, aircraft, airport`routes, airport`nameToId, idle`timer,
               maintainSpeed, pushBack`pushBackSpeed
      ensures Valid(airport)
      ensures defined ==> current in SettlesIn(StateIdOf(name))
      decreases Rank(StateIdOf(name))
    {
      defined := ExitState(airport);
      if !defined {
        return;
      }
      current := StateIdOf(name);
      var next;
      next, defined := EntryState(airport);
      if !defined {
        return;
      }
      OutcomesKnown(current, next);
      if StateIdOf(next) != current {
        EntriesDescend(current, next);
        defined := TransitToState(airport, next);
      }
    }

    /** `StateMachine::Update`: the current state is updated, and when it
        names another state the machine transits to it. */
    method Update(airport: Airport, dt: real, traffic: map<AircraftId, Neighbour>)
      returns (defined: bool)
      requires dt > 0.0 && Valid(airport) && TrafficKnown(airport.routes, aircraft.id, traffic)
      modifies this`current, aircraft, airport`routes, airport`nameToId, initial`timer,
               idle`timer, maintainSpeed, pushBack`pushBackSpeed
      ensures Valid(airport)
      ensures defined ==> current == old(current)
                          || exists name :: name in UpdateOutcomes(old(current))
                                            && current in SettlesIn(StateIdOf(name))
    {
      ghost var from := current;
      var next;
      next, defined := UpdateState(airport, dt, traffic);
      if !defined {
        return;
      }
      OutcomesKnown(current, next);
      if StateIdOf(next) != current {
        defined := TransitToState(airport, next);
      }
      assert defined && current != from ==>
               next in UpdateOutcomes(from) && current in SettlesIn(StateIdOf(next));
    }
  }
}
