/** The coordination store the MySQL data access object keeps for a state
    machine run: which run phase is current, which actions are active and
    what payload they carry, named states, key/value properties and the
    inbox of messages. Every flag is the text "1" (true) or "0" (false).

    Each SQL statement the object sends is modelled by a function on table
    values (module level), and the object itself by the class Mysql, whose
    fields are the tables and whose methods run those functions in place. */
module MysqlStore {
  import opened JavaLang
  import opened Tables

  const TRUE := "1"
  const FALSE := "0"

  /** The run_phase value of an action that runs in every phase. */
  const ALL := "ALL"

  /** The option group of run phases: exactly one of them is current. */
  const RunPhases: seq<string> := ["EMERGENCY_SHUTDOWN", "NORMAL_SHUTDOWN", "RUNNING", "STARTING", "STOPPED"]

  datatype ActionRow = ActionRow(action: string, runPhase: string, active: string, payload: string)

  datatype PhaseRow = PhaseRow(phaseName: string, state: string)

  datatype StateRow = StateRow(stateName: string, state: string)

  datatype PropertyRow = PropertyRow(property: string, value: string)

  /** The eight fields insertMessage copies from its JSON object. */
  datatype Message = Message(
    sender: string,
    senderId: string,
    recipient: string,
    action: string,
    sent: string,
    direction: string,
    processed: string,
    payload: string)

  /** A row of the messages table: the message under its generated key. */
  datatype MessageRow = MessageRow(id: int, message: Message)

  // ================= Run phase =================

  /** queryRunPhase: the name of the first phase row whose state is "1", or
      "" when there is none. */
  function CurrentRunPhase(phases: seq<PhaseRow>): (p: string)
    ensures (exists i :: 0 <= i < |phases| && phases[i].state == TRUE && phases[i].phaseName == p) ||
            (p == "" && forall i :: 0 <= i < |phases| ==> phases[i].state != TRUE)
  {
    var current := Select(phases, (row: PhaseRow) => row.state == TRUE);
    if |current| > 0 then
      assert current[0] in current;
      current[0].phaseName
    else ""
  }

  /** The first UPDATE of updateRunPhase: every run phase is cleared. */
  function RunPhasesCleared(phases: seq<PhaseRow>): (r: seq<PhaseRow>)
    ensures |r| == |phases|
    ensures forall i :: 0 <= i < |phases| ==>
              r[i].phaseName == phases[i].phaseName &&
              r[i].state == (if phases[i].phaseName in RunPhases then FALSE else phases[i].state)
  {
    Update(phases, (row: PhaseRow) => row.phaseName in RunPhases, (row: PhaseRow) => row.(state := FALSE))
  }

  /** The second UPDATE of updateRunPhase: the rows named p are set. */
  function PhaseSet(phases: seq<PhaseRow>, p: string): (r: seq<PhaseRow>)
    ensures |r| == |phases|
    ensures forall i :: 0 <= i < |phases| ==>
              r[i].phaseName == phases[i].phaseName &&
              r[i].state == (if phases[i].phaseName == p then TRUE else phases[i].state)
  {
    Update(phases, (row: PhaseRow) => row.phaseName == p, (row: PhaseRow) => row.(state := TRUE))
  }

  /** The phases table once updateRunPhase(p) has run both its statements. */
  function PhasesAfterUpdate(phases: seq<PhaseRow>, p: string): (r: seq<PhaseRow>)
    ensures |r| == |phases|
    ensures forall i :: 0 <= i < |phases| ==> r[i].phaseName == phases[i].phaseName
  {
    PhaseSet(RunPhasesCleared(phases), p)
  }

  /** A phases table in which no row outside the option group is set. */
  predicate OnlyRunPhasesSet(phases: seq<PhaseRow>)
  {
    forall i :: 0 <= i < |phases| && phases[i].phaseName !in RunPhases ==> phases[i].state != TRUE
  }

  /** Setting a run phase that has a row makes it the only set row, and the
      current run phase the store reports. */
  lemma RunPhaseRoundTrip(phases: seq<PhaseRow>, p: string)
    requires OnlyRunPhasesSet(phases)
    requires exists i :: 0 <= i < |phases| && phases[i].phaseName == p
    ensures forall i :: 0 <= i < |phases| ==>
              (PhasesAfterUpdate(phases, p)[i].state == TRUE <==> phases[i].phaseName == p)
    ensures CurrentRunPhase(PhasesAfterUpdate(phases, p)) == p
  {
    var r := PhasesAfterUpdate(phases, p);
    forall j | 0 <= j < |phases|
      ensures r[j].state == TRUE <==> phases[j].phaseName == p
    {
      PhaseAfterUpdateAt(phases, p, j);
    }
    var i :| 0 <= i < |phases| && phases[i].phaseName == p;
    SoleSetPhase(r, p, i);
  }

  /** updateRunPhase(p) clears every other run phase of the option group,
      and keeps the rows outside the group unset. */
  lemma RunPhaseClearsOthers(phases: seq<PhaseRow>, p: string)
    requires p in RunPhases && OnlyRunPhasesSet(phases)
    ensures forall i :: 0 <= i < |phases| && phases[i].phaseName in RunPhases && phases[i].phaseName != p ==>
              PhasesAfterUpdate(phases, p)[i].state == FALSE
    ensures OnlyRunPhasesSet(PhasesAfterUpdate(phases, p))
  {
    var r := PhasesAfterUpdate(phases, p);
    forall j | 0 <= j < |phases|
      ensures r[j].phaseName == phases[j].phaseName
      ensures r[j].state == TRUE ==> phases[j].phaseName == p
      ensures phases[j].phaseName in RunPhases && phases[j].phaseName != p ==> r[j].state == FALSE
    {
      PhaseAfterUpdateAt(phases, p, j);
    }
  }

  /** One row of the phases table after updateRunPhase(p): set exactly when
      it is named p, cleared when it is another run phase. */
  lemma PhaseAfterUpdateAt(phases: seq<PhaseRow>, p: string, j: int)
    requires 0 <= j < |phases| && (phases[j].phaseName !in RunPhases ==> phases[j].state != TRUE)
    ensures |PhasesAfterUpdate(phases, p)| == |phases|
    ensures PhasesAfterUpdate(phases, p)[j].phaseName == phases[j].phaseName
    ensures PhasesAfterUpdate(phases, p)[j].state == TRUE <==> phases[j].phaseName == p
    ensures phases[j].phaseName in RunPhases && phases[j].phaseName != p ==> PhasesAfterUpdate(phases, p)[j].state == FALSE
  {
    var c := RunPhasesCleared(phases);
    assert c[j].phaseName == phases[j].phaseName;
  }

  /** When some row is set and every set row is named p, p is current. */
  lemma SoleSetPhase(phases: seq<PhaseRow>, p: string, i: int)
    requires 0 <= i < |phases| && phases[i].state == TRUE
    requires forall j :: 0 <= j < |phases| && phases[j].state == TRUE ==> phases[j].phaseName == p
    ensures CurrentRunPhase(phases) == p
  {
  }

  /** The last valid run phase set wins, whatever was set before it. */
  lemma RunPhaseHistoryIndependent(phases: seq<PhaseRow>, q: string, p: string)
    requires q in RunPhases
    ensures PhasesAfterUpdate(PhasesAfterUpdate(phases, q), p) == PhasesAfterUpdate(phases, p)
  {
    var a, b := PhasesAfterUpdate(PhasesAfterUpdate(phases, q), p), PhasesAfterUpdate(phases, p);
    assert forall i :: 0 <= i < |phases| ==> a[i] == b[i];
  }

  // ================= Action =================

  /** The rows the SELECT of active(a) returns while runPhase is current. */
  predicate RunsIn(row: ActionRow, a: string, runPhase: string)
  {
    row.action == a && (row.runPhase == runPhase || row.runPhase == ALL) && row.active == TRUE
  }

  /** active(a) under a given current run phase: some row of the action is
      set and belongs to that phase or to every phase. */
  function ActiveIn(actions: seq<ActionRow>, runPhase: string, a: string): (b: bool)
    ensures b <==> exists i :: 0 <= i < |actions| && RunsIn(actions[i], a, runPhase)
  {
    var results := Select(actions, (row: ActionRow) => RunsIn(row, a, runPhase));
    if |results| > 0 then
      assert results[0] in results;
      true
    else false
  }

  /** UPDATE actions SET active = flag WHERE action = a. */
  function WithActive(actions: seq<ActionRow>, a: string, flag: string): (r: seq<ActionRow>)
    ensures |r| == |actions|
    ensures forall i :: 0 <= i < |actions| ==>
              r[i] == if actions[i].action == a then actions[i].(active := flag) else actions[i]
  {
    Update(actions, (row: ActionRow) => row.action == a, (row: ActionRow) => row.(active := flag))
  }

  /** UPDATE actions SET payload = payload WHERE action = a. */
  function WithPayload(actions: seq<ActionRow>, a: string, payload: string): (r: seq<ActionRow>)
    ensures |r| == |actions|
    ensures forall i :: 0 <= i < |actions| ==>
              r[i] == if actions[i].action == a then actions[i].(payload := payload) else actions[i]
  {
    Update(actions, (row: ActionRow) => row.action == a, (row: ActionRow) => row.(payload := payload))
  }

  /** Activating an action with a row in the current phase (or in ALL) makes
      it active. */
  lemma ActivateMakesActive(actions: seq<ActionRow>, runPhase: string, a: string)
    requires exists i :: 0 <= i < |actions| && actions[i].action == a &&
                         (actions[i].runPhase == runPhase || actions[i].runPhase == ALL)
    ensures ActiveIn(WithActive(actions, a, TRUE), runPhase, a)
  {
    var i :| 0 <= i < |actions| && actions[i].action == a &&
             (actions[i].runPhase == runPhase || actions[i].runPhase == ALL);
    assert RunsIn(WithActive(actions, a, TRUE)[i], a, runPhase);
  }

  /** A deactivated action is not active, in any run phase. */
  lemma DeactivateMakesInactive(actions: seq<ActionRow>, runPhase: string, a: string)
    ensures !ActiveIn(WithActive(actions, a, FALSE), runPhase, a)
  {
    var r := WithActive(actions, a, FALSE);
    forall i | 0 <= i < |r| ensures !RunsIn(r[i], a, runPhase) {
      assert actions[i].action == a ==> r[i].active == FALSE;
    }
  }

  /** Activating or deactivating one action leaves every other action's
      answer to active() as it was. */
  lemma FlagLeavesOthers(actions: seq<ActionRow>, runPhase: string, a: string, flag: string, b: string)
    requires b != a
    ensures ActiveIn(WithActive(actions, a, flag), runPhase, b) == ActiveIn(actions, runPhase, b)
  {
    var r := WithActive(actions, a, flag);
    assert forall i :: 0 <= i < |r| ==> (RunsIn(r[i], b, runPhase) <==> RunsIn(actions[i], b, runPhase));
  }

  /** The last activate or deactivate of an action decides its flag:
      activating twice and then deactivating leaves it deactivated. */
  lemma FlagLastWriteWins(actions: seq<ActionRow>, a: string, f: string, g: string)
    ensures WithActive(WithActive(actions, a, f), a, g) == WithActive(actions, a, g)
  {
    var x, y := WithActive(WithActive(actions, a, f), a, g), WithActive(actions, a, g);
    assert forall i :: 0 <= i < |actions| ==> x[i] == y[i];
  }

  /** The last payload written for an action is the one it keeps. */
  lemma PayloadLastWriteWins(actions: seq<ActionRow>, a: string, v: string, w: string)
    ensures WithPayload(WithPayload(actions, a, v), a, w) == WithPayload(actions, a, w)
  {
    var x, y := WithPayload(WithPayload(actions, a, v), a, w), WithPayload(actions, a, w);
    assert forall i :: 0 <= i < |actions| ==> x[i] == y[i];
  }

  /** Writing or clearing a payload changes no action's activity. */
  lemma PayloadKeepsActivity(actions: seq<ActionRow>, runPhase: string, a: string, v: string, b: string)
    ensures ActiveIn(WithPayload(actions, a, v), runPhase, b) == ActiveIn(actions, runPhase, b)
  {
    var r := WithPayload(actions, a, v);
    assert forall i :: 0 <= i < |r| ==> (RunsIn(r[i], b, runPhase) <==> RunsIn(actions[i], b, runPhase));
  }

  // ================= Hooks =================

  /** A row the barrier waits for: its action name contains the marker
      (LIKE '%marker%') and it is active. */
  predicate Pending(row: ActionRow, marker: string)
  {
    Contains(row.action, marker) && row.active == TRUE
  }

  /** afterActionsComplete / beforeActionsComplete: no active action whose
      name contains the marker. */
  function ActionsComplete(actions: seq<ActionRow>, marker: string): (b: bool)
    ensures b <==> forall i :: 0 <= i < |actions| ==> !Pending(actions[i], marker)
  {
    |Select(actions, (row: ActionRow) => Pending(row, marker))| == 0
  }

  /** Activating an action whose name contains the marker holds the barrier. */
  lemma ActivateHoldsBarrier(actions: seq<ActionRow>, a: string, marker: string)
    requires Contains(a, marker) && exists i :: 0 <= i < |actions| && actions[i].action == a
    ensures !ActionsComplete(WithActive(actions, a, TRUE), marker)
  {
    var i :| 0 <= i < |actions| && actions[i].action == a;
    assert Pending(WithActive(actions, a, TRUE)[i], marker);
  }

  /** Deactivating the last pending action releases the barrier. */
  lemma DeactivateReleasesBarrier(actions: seq<ActionRow>, a: string, marker: string)
    requires forall i :: 0 <= i < |actions| && Pending(actions[i], marker) ==> actions[i].action == a
    ensures ActionsComplete(WithActive(actions, a, FALSE), marker)
  {
    var r := WithActive(actions, a, FALSE);
    forall i | 0 <= i < |r| ensures !Pending(r[i], marker) {
      assert actions[i].action == a ==> r[i].active == FALSE;
    }
  }

  // ================= Property =================

  /** queryProperty: the value of the first row with that property name, or
      "" when there is none. */
  function PropertyValue(properties: seq<PropertyRow>, name: string): (v: string)
    ensures (exists i :: 0 <= i < |properties| && properties[i].property == name && properties[i].value == v) ||
            (v == "" && forall i :: 0 <= i < |properties| ==> properties[i].property != name)
  {
    var results := Select(properties, (row: PropertyRow) => row.property == name);
    if |results| > 0 then
      assert results[0] in results;
      results[0].value
    else ""
  }

  /** When several rows carry the name, queryProperty reads the first. */
  lemma PropertyValueFirst(properties: seq<PropertyRow>, name: string, k: int)
    requires 0 <= k < |properties| && properties[k].property == name
    requires forall j :: 0 <= j < k ==> properties[j].property != name
    ensures PropertyValue(properties, name) == properties[k].value
  {
    SelectFirst(properties, (row: PropertyRow) => row.property == name, k);
  }

  /** UPDATE properties SET value = v WHERE property = name. */
  function WithValue(properties: seq<PropertyRow>, name: string, v: string): (r: seq<PropertyRow>)
    ensures |r| == |properties|
    ensures forall i :: 0 <= i < |properties| ==>
              r[i] == if properties[i].property == name then properties[i].(value := v) else properties[i]
  {
    Update(properties, (row: PropertyRow) => row.property == name, (row: PropertyRow) => row.(value := v))
  }

  /** A new property reads back as inserted. */
  lemma InsertThenQuery(properties: seq<PropertyRow>, name: string, v: string)
    requires forall i :: 0 <= i < |properties| ==> properties[i].property != name
    ensures PropertyValue(properties + [PropertyRow(name, v)], name) == v
  {
    var r := properties + [PropertyRow(name, v)];
    PropertyValueFirst(r, name, |properties|);
  }

  /** Inserting a second row for a property that already has one does not
      change what queryProperty reads: the older row comes first. */
  lemma InsertDoesNotShadow(properties: seq<PropertyRow>, name: string, v: string, k: int)
    requires 0 <= k < |properties| && properties[k].property == name
    requires forall j :: 0 <= j < k ==> properties[j].property != name
    ensures PropertyValue(properties + [PropertyRow(name, v)], name) == properties[k].value
  {
    PropertyValueFirst(properties + [PropertyRow(name, v)], name, k);
  }

  /** An updated property reads back as updated, provided it has a row;
      without one the update does nothing and the query reads "". */
  lemma UpdateThenQuery(properties: seq<PropertyRow>, name: string, v: string)
    ensures (exists i :: 0 <= i < |properties| && properties[i].property == name) ==>
              PropertyValue(WithValue(properties, name, v), name) == v
    ensures (forall i :: 0 <= i < |properties| ==> properties[i].property != name) ==>
              PropertyValue(WithValue(properties, name, v), name) == ""
  {
    var r := WithValue(properties, name, v);
    assert forall i :: 0 <= i < |r| && r[i].property == name ==> r[i].value == v;
  }

  /** Updating one property leaves every other property's value as it was. */
  lemma UpdateLeavesOthers(properties: seq<PropertyRow>, name: string, v: string, other: string)
    requires other != name
    ensures PropertyValue(WithValue(properties, name, v), other) == PropertyValue(properties, other)
  {
    var r := WithValue(properties, name, v);
    if exists i :: 0 <= i < |properties| && properties[i].property == other {
      FirstMatch(properties, other);
      var k :| 0 <= k < |properties| && properties[k].property == other &&
               forall j :: 0 <= j < k ==> properties[j].property != other;
      PropertyValueFirst(properties, other, k);
      PropertyValueFirst(r, other, k);
    } else {
      assert forall i :: 0 <= i < |r| ==> r[i].property != other;
    }
  }

  /** A property name that has a row has a first one. */
  lemma FirstMatch(properties: seq<PropertyRow>, name: string)
    requires exists i :: 0 <= i < |properties| && properties[i].property == name
    ensures exists k :: 0 <= k < |properties| && properties[k].property == name &&
                        forall j :: 0 <= j < k ==> properties[j].property != name
  {
    var i :| 0 <= i < |properties| && properties[i].property == name;
    var k := i;
    while k > 0 && exists j :: 0 <= j < k && properties[j].property == name
      invariant 0 <= k <= i && properties[k].property == name
      decreases k
    {
      var j :| 0 <= j < k && properties[j].property == name;
      k := j;
    }
  }

  // ================= State =================

  /** UPDATE states SET state = flag WHERE state_name = name. */
  function WithState(states: seq<StateRow>, name: string, flag: string): (r: seq<StateRow>)
    ensures |r| == |states|
    ensures forall i :: 0 <= i < |states| ==>
              r[i] == if states[i].stateName == name then states[i].(state := flag) else states[i]
  {
    Update(states, (row: StateRow) => row.stateName == name, (row: StateRow) => row.(state := flag))
  }

  /** The last setState or unsetState of a name decides its flag. */
  lemma StateLastWriteWins(states: seq<StateRow>, name: string, f: string, g: string)
    ensures WithState(WithState(states, name, f), name, g) == WithState(states, name, g)
  {
    var x, y := WithState(WithState(states, name, f), name, g), WithState(states, name, g);
    assert forall i :: 0 <= i < |states| ==> x[i] == y[i];
  }

  // ================= Message =================

  /** getUnprocessedMessages: the rows whose processed field is "0", in table order. */
  function Unprocessed(messages: seq<MessageRow>): (r: seq<MessageRow>)
    ensures forall m :: m in r <==> m in messages && m.message.processed == FALSE
    ensures forall m :: multiset(r)[m] == if m.message.processed == FALSE then multiset(messages)[m] else 0
  {
    SelectCounts(messages, (row: MessageRow) => row.message.processed == FALSE);
    Select(messages, (row: MessageRow) => row.message.processed == FALSE)
  }

  /** markMessageProcessed(id): UPDATE messages SET processed = "1" WHERE id = id. */
  function MarkedProcessed(messages: seq<MessageRow>, id: int): (r: seq<MessageRow>)
    ensures |r| == |messages|
    ensures forall i :: 0 <= i < |messages| ==>
              r[i] == if messages[i].id == id then messages[i].(message := messages[i].message.(processed := TRUE))
                      else messages[i]
  {
    Update(messages, (row: MessageRow) => row.id == id,
           (row: MessageRow) => row.(message := row.message.(processed := TRUE)))
  }

  /** Message keys are generated in increasing order, and below the next one. */
  predicate KeysIncreasing(messages: seq<MessageRow>, nextId: int)
  {
    (forall i, j :: 0 <= i < j < |messages| ==> messages[i].id < messages[j].id) &&
    (forall i :: 0 <= i < |messages| ==> messages[i].id < nextId)
  }

  /** Marking the same message twice changes nothing the second time. */
  lemma MarkIdempotent(messages: seq<MessageRow>, id: int)
    ensures MarkedProcessed(MarkedProcessed(messages, id), id) == MarkedProcessed(messages, id)
  {
    var x, y := MarkedProcessed(MarkedProcessed(messages, id), id), MarkedProcessed(messages, id);
    assert forall i :: 0 <= i < |messages| ==> x[i] == y[i];
  }

  /** With keys that are unique, marking one message leaves every other
      message row as it was. */
  lemma MarkTouchesOnlyThatMessage(messages: seq<MessageRow>, nextId: int, k: int)
    requires KeysIncreasing(messages, nextId) && 0 <= k < |messages|
    ensures forall i :: 0 <= i < |messages| && i != k ==> MarkedProcessed(messages, messages[k].id)[i] == messages[i]
    ensures MarkedProcessed(messages, messages[k].id)[k].message.processed == TRUE
  {
    forall i | 0 <= i < |messages| && i != k
      ensures MarkedProcessed(messages, messages[k].id)[i] == messages[i]
    {
      assert messages[i].id != messages[k].id;
    }
  }

  /** A new message is listed after every earlier one when it is
      unprocessed, and not at all otherwise. */
  lemma UnprocessedAppend(messages: seq<MessageRow>, row: MessageRow)
    ensures Unprocessed(messages + [row]) ==
              Unprocessed(messages) + (if row.message.processed == FALSE then [row] else [])
  {
    SelectAppend(messages, row, (m: MessageRow) => m.message.processed == FALSE);
  }

  /** A message inserted with processed "0" is listed as unprocessed. */
  lemma InsertedIsListed(messages: seq<MessageRow>, row: MessageRow)
    requires row.message.processed == FALSE
    ensures row in Unprocessed(messages + [row])
  {
    assert row in messages + [row];
  }

  /** Marking a message processed removes exactly that message from the
      unprocessed list: no row with its key is listed, and every other
      unprocessed row still is. */
  lemma MarkRemovesFromUnprocessed(messages: seq<MessageRow>, id: int)
    ensures forall m :: m in Unprocessed(MarkedProcessed(messages, id)) ==> m.id != id
    ensures forall m :: m in Unprocessed(messages) && m.id != id ==> m in Unprocessed(MarkedProcessed(messages, id))
  {
    var r := MarkedProcessed(messages, id);
    assert forall i :: 0 <= i < |r| && r[i].message.processed == FALSE ==> r[i].id != id;
    forall m | m in Unprocessed(messages) && m.id != id ensures m in Unprocessed(r) {
      var i :| 0 <= i < |messages| && messages[i] == m;
      assert r[i] == m;
    }
  }

  // ================= Setup =================

  /** Properties.getProperty concatenated into a text: a missing key reads "null". */
  function PropertyText(config: map<string, string>, key: string): string
  {
    if key in config then config[key] else "null"
  }

  /** The database name the constructor chooses. The dbMode property is
      upper-cased: OVERWRITE reuses dbName (storing a missing one back into
      the properties is a NullPointerException), UNIQUE appends the epoch,
      a missing dbMode is a NullPointerException and any other mode is
      refused. */
  function DbName(config: map<string, string>): (r: Result<string>)
    ensures r.Throw? ==> r.exception in {NullPointer, UnrecognisedDbMode}
    ensures "dbMode" !in config ==> r == Throw(NullPointer)
    ensures "dbMode" in config && ToUpperCase(config["dbMode"]) == "OVERWRITE" ==>
              r == if "dbName" in config then Ok(config["dbName"]) else Throw(NullPointer)
    ensures "dbMode" in config && ToUpperCase(config["dbMode"]) == "UNIQUE" ==>
              r == Ok(PropertyText(config, "dbName") + PropertyText(config, "epoch"))
    ensures "dbMode" in config && ToUpperCase(config["dbMode"]) !in {"OVERWRITE", "UNIQUE"} ==>
              r == Throw(UnrecognisedDbMode)
  {
    if "dbMode" !in config then Throw(NullPointer)
    else
      var mode := ToUpperCase(config["dbMode"]);
      if mode == "OVERWRITE" then
        if "dbName" in config then Ok(config["dbName"]) else Throw(NullPointer)
      else if mode == "UNIQUE" then
        Ok(PropertyText(config, "dbName") + PropertyText(config, "epoch"))
      else Throw(UnrecognisedDbMode)
  }

  /** jdbc:mysql://host:port/name, each missing property read as "null". */
  function ConnectionUrl(config: map<string, string>, dbName: string): (url: string)
    ensures |url| > |dbName| && url[|url| - |dbName|..] == dbName
  {
    "jdbc:mysql://" + PropertyText(config, "dbHost") + ":" + PropertyText(config, "dbPort") + "/" + dbName
  }

  /** The dbMode property is read without regard to letter case. */
  lemma DbModeCaseInsensitive(config: map<string, string>, mode: string)
    ensures DbName(config["dbMode" := mode]) == DbName(config["dbMode" := ToUpperCase(mode)])
  {
    ToUpperCaseIdempotent(mode);
  }

  /** In UNIQUE mode two runs with different epochs get different databases. */
  lemma UniqueModeSeparatesRuns(config: map<string, string>, e1: string, e2: string)
    requires "dbMode" in config && ToUpperCase(config["dbMode"]) == "UNIQUE"
    requires e1 != e2
    ensures DbName(config["epoch" := e1]).Ok? && DbName(config["epoch" := e2]).Ok?
    ensures DbName(config["epoch" := e1]) != DbName(config["epoch" := e2])
  {
    var n := PropertyText(config, "dbName");
    assert DbName(config["epoch" := e1]) == Ok(n + e1);
    assert DbName(config["epoch" := e2]) == Ok(n + e2);
    assert (n + e1)[|n|..] == e1;
    assert (n + e2)[|n|..] == e2;
  }

  /** In OVERWRITE mode every run reuses the configured name, whatever the epoch. */
  lemma OverwriteModeReusesName(config: map<string, string>, e: string)
    requires "dbMode" in config && ToUpperCase(config["dbMode"]) == "OVERWRITE" && "dbName" in config
    ensures DbName(config["epoch" := e]) == DbName(config) == Ok(config["dbName"])
  {
    assert config["epoch" := e]["dbMode"] == config["dbMode"];
  }

  /** The data access object: the configuration, the connection URL and the
      five tables of the run's database. */
  class Mysql {
    var config: map<string, string>
    var connectionUrl: string
    var actions: seq<ActionRow>
    var phases: seq<PhaseRow>
    var states: seq<StateRow>
    var properties: seq<PropertyRow>
    var messages: seq<MessageRow>
    /** The key the messages table generates for the next insert. */
    var nextMessageId: int

    ghost predicate Valid()
      reads this
    {
      KeysIncreasing(messages, nextMessageId)
    }

    /** A freshly dropped and re-created database: every table empty. */
    constructor Opened(config: map<string, string>, connectionUrl: string)
      ensures Valid()
      ensures this.config == config && this.connectionUrl == connectionUrl
      ensures actions == [] && phases == [] && states == [] && properties == [] && messages == []
      ensures nextMessageId == 1
    {
      this.config := config;
      this.connectionUrl := connectionUrl;
      actions, phases, states, properties, messages := [], [], [], [], [];
      nextMessageId := 1;
    }

    /** new Mysql(propertyCache): choose the database name, store it back
        into the properties and point the connection URL at it. */
    static method Open(config: map<string, string>) returns (r: Result<Mysql>)
      ensures r.Ok? <==> DbName(config).Ok?
      ensures r.Throw? ==> r.exception == DbName(config).exception
      ensures r.Ok? ==>
                fresh(r.value) && r.value.Valid() &&
                r.value.config == config["dbName" := DbName(config).value] &&
                r.value.connectionUrl == ConnectionUrl(config, DbName(config).value) &&
                r.value.actions == [] && r.value.phases == [] && r.value.states == [] &&
                r.value.properties == [] && r.value.messages == [] && r.value.nextMessageId == 1
    {
      var name := DbName(config);
      if name.Throw? {
        return Throw(name.exception);
      }
      var store := new Mysql.Opened(config["dbName" := name.value], ConnectionUrl(config, name.value));
      r := Ok(store);
    }

    /** updateRunPhase: clear the option group and set p, or throw
        InvalidRunPhaseException for a name outside it. */
    method UpdateRunPhase(p: string) returns (outcome: Outcome)
      modifies this`phases
      ensures p in RunPhases ==> outcome == Pass && phases == PhasesAfterUpdate(old(phases), p)
      ensures p !in RunPhases ==> outcome == Fail(InvalidRunPhase(p)) && phases == old(phases)
    {
      if p in RunPhases {
        phases := RunPhasesCleared(phases);
        phases := PhaseSet(phases, p);
        outcome := Pass;
      } else {
        outcome := Fail(InvalidRunPhase(p));
      }
    }

    method QueryRunPhase() returns (phase: string)
      ensures phase == CurrentRunPhase(phases)
    {
      phase := CurrentRunPhase(phases);
    }

    /** active: look up the current run phase, then the action's rows. */
    method Active(a: string) returns (b: bool)
      ensures b <==> exists i :: 0 <= i < |actions| && RunsIn(actions[i], a, CurrentRunPhase(phases))
    {
      var runPhase := QueryRunPhase();
      b := ActiveIn(actions, runPhase, a);
    }

    method Activate(a: string)
      modifies this`actions
      ensures actions == WithActive(old(actions), a, TRUE)
    {
      actions := WithActive(actions, a, TRUE);
    }

    method Deactivate(a: string)
      modifies this`actions
      ensures actions == WithActive(old(actions), a, FALSE)
    {
      actions := WithActive(actions, a, FALSE);
    }

    method ClearPayload(a: string)
      modifies this`actions
      ensures actions == WithPayload(old(actions), a, "")
    {
      actions := WithPayload(actions, a, "");
    }

    method UpdatePayload(a: string, payload: string)
      modifies this`actions
      ensures actions == WithPayload(old(actions), a, payload)
    {
      actions := WithPayload(actions, a, payload);
    }

    method AfterActionsComplete() returns (b: bool)
      ensures b <==> forall i :: 0 <= i < |actions| ==> !Pending(actions[i], "After")
    {
      b := ActionsComplete(actions, "After");
    }

    method BeforeActionsComplete() returns (b: bool)
      ensures b <==> forall i :: 0 <= i < |actions| ==> !Pending(actions[i], "Before")
    {
      b := ActionsComplete(actions, "Before");
    }

    method InsertProperty(name: string, v: string)
      modifies this`properties
      ensures properties == old(properties) + [PropertyRow(name, v)]
    {
      properties := properties + [PropertyRow(name, v)];
    }

    method UpdateProperty(name: string, v: string)
      modifies this`properties
      ensures properties == WithValue(old(properties), name, v)
    {
      properties := WithValue(properties, name, v);
    }

    method QueryProperty(name: string) returns (v: string)
      ensures v == PropertyValue(properties, name)
      ensures (exists i :: 0 <= i < |properties| && properties[i].property == name && properties[i].value == v) ||
              (v == "" && forall i :: 0 <= i < |properties| ==> properties[i].property != name)
    {
      v := PropertyValue(properties, name);
    }

    method SetState(name: string)
      modifies this`states
      ensures states == WithState(old(states), name, TRUE)
    {
      states := WithState(states, name, TRUE);
    }

    method UnsetState(name: string)
      modifies this`states
      ensures states == WithState(old(states), name, FALSE)
    {
      states := WithState(states, name, FALSE);
    }

    /** insertMessage: the message is stored as given (its processed field
        included) under the next generated key. */
    method InsertMessage(m: Message)
      requires Valid()
      modifies this`messages, this`nextMessageId
      ensures Valid()
      ensures messages == old(messages) + [MessageRow(old(nextMessageId), m)]
      ensures nextMessageId == old(nextMessageId) + 1
    {
      messages := messages + [MessageRow(nextMessageId, m)];
      nextMessageId := nextMessageId + 1;
    }

    method GetUnprocessedMessages() returns (rows: seq<MessageRow>)
      ensures forall m :: m in rows <==> m in messages && m.message.processed == FALSE
      ensures forall m :: multiset(rows)[m] == if m.message.processed == FALSE then multiset(messages)[m] else 0
      ensures rows == Unprocessed(messages)
    {
      rows := Unprocessed(messages);
    }

    method MarkMessageProcessed(id: int)
      requires Valid()
      modifies this`messages
      ensures Valid()
      ensures messages == MarkedProcessed(old(messages), id)
    {
      messages := MarkedProcessed(messages, id);
    }
  }
}
