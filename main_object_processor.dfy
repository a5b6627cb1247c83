/**
 * The main object processor: one tick walks the pending object status
 * events in order, skips those whose storage object type the system storage
 * does not know, and dispatches the rest to indexing, sharing or unsharing.
 * A lifecycle runner repeats ticks in the background; only its start and
 * stop guards are modelled.
 *
 * Calls into the workspace, the object parser and the indexing storage are
 * recorded as actions in a trace instead of being performed.
 */
module MainObjectProcessing {
  import opened Wrappers
  import opened Decimal
  import opened SearchTypes
  import opened StoredStatusEvents

  // ---------------------------------------------------------------------------
  // Events and object identities

  /** The identity of one version of a stored object. */
  datatype GUID = GUID(storageCode: string, accessGroupId: int, accessGroupObjectId: string, version: int)

  /** A pending event about one object version, as the event queue hands it out. */
  datatype ObjectStatusEvent = ObjectStatusEvent(
    storageCode: string,
    accessGroupId: int,
    accessGroupObjectId: string,
    version: int,
    targetAccessGroupId: int,
    storageObjectType: string,
    eventType: StatusEventType)

  function ToGUID(ev: ObjectStatusEvent): GUID
  {
    GUID(ev.storageCode, ev.accessGroupId, ev.accessGroupObjectId, ev.version)
  }

  /** The workspace reference `accessGroupId/objectId/version` the object is loaded by. */
  function ObjectRef(guid: GUID): string
  {
    IntToString(guid.accessGroupId) + "/" + guid.accessGroupObjectId + "/" + IntToString(guid.version)
  }

  datatype ObjectReference = ObjectReference(accessGroupId: int, objectId: string, version: int)

  /** The pieces of `s` between occurrences of `sep`. */
  function SplitOn(s: string, sep: char): (parts: seq<string>)
    ensures |parts| > 0
    decreases |s|
  {
    if s == [] then [""]
    else
      var rest := SplitOn(s[1..], sep);
      if s[0] == sep then [""] + rest else [[s[0]] + rest[0]] + rest[1..]
  }

  /** Reads a workspace reference back into its three parts. */
  function ParseObjectRef(ref: string): Option<ObjectReference>
  {
    var parts := SplitOn(ref, '/');
    if |parts| != 3 then None
    else match (ParseLong(parts[0]), ParseLong(parts[2]))
      case (Some(accessGroupId), Some(version)) => Some(ObjectReference(accessGroupId, parts[1], version))
      case _ => None
  }

  lemma {:induction false} SplitOnNoSeparator(a: string, sep: char)
    requires sep !in a
    ensures SplitOn(a, sep) == [a]
    decreases |a|
  {
    if a != [] {
      SplitOnNoSeparator(a[1..], sep);
      assert [a[0]] + a[1..] == a;
    }
  }

  lemma {:induction false} SplitOnFirstSeparator(a: string, sep: char, b: string)
    requires sep !in a
    ensures SplitOn(a + [sep] + b, sep) == [a] + SplitOn(b, sep)
    decreases |a|
  {
    var s := a + [sep] + b;
    if a == [] {
      assert s == [sep] + b && s[1..] == b;
    } else {
      assert s[0] == a[0] && s[1..] == a[1..] + [sep] + b;
      SplitOnFirstSeparator(a[1..], sep, b);
      assert [a[0]] + a[1..] == a;
    }
  }

  /**
   * The reference built for an object names it exactly: reading it back gives
   * the access group, object id and version, provided the object id holds no
   * '/'.
   */
  lemma ObjectRefRoundTrip(guid: GUID)
    requires InLongRange(guid.accessGroupId) && InLongRange(guid.version)
    requires '/' !in guid.accessGroupObjectId
    ensures ParseObjectRef(ObjectRef(guid)) ==
      Some(ObjectReference(guid.accessGroupId, guid.accessGroupObjectId, guid.version))
  {
    var ag := IntToString(guid.accessGroupId);
    var ver := IntToString(guid.version);
    var obj := guid.accessGroupObjectId;
    assert ObjectRef(guid) == ag + ['/'] + (obj + ['/'] + ver);
    SplitOnFirstSeparator(ag, '/', obj + ['/'] + ver);
    SplitOnFirstSeparator(obj, '/', ver);
    SplitOnNoSeparator(ver, '/');
    ParseLongInvertsIntToString(guid.accessGroupId);
    ParseLongInvertsIntToString(guid.version);
  }

  /** Two object versions share a reference only if they agree on access group, object id and version. */
  lemma ObjectRefDistinguishesVersions(g1: GUID, g2: GUID)
    requires InLongRange(g1.accessGroupId) && InLongRange(g1.version) && '/' !in g1.accessGroupObjectId
    requires InLongRange(g2.accessGroupId) && InLongRange(g2.version) && '/' !in g2.accessGroupObjectId
    ensures ObjectRef(g1) == ObjectRef(g2) <==>
      g1.accessGroupId == g2.accessGroupId && g1.accessGroupObjectId == g2.accessGroupObjectId &&
      g1.version == g2.version
  {
    ObjectRefRoundTrip(g1);
    ObjectRefRoundTrip(g2);
  }

  // ---------------------------------------------------------------------------
  // Workspace permissions

  /** A workspace named either by its numeric id or by its name. */
  datatype WorkspaceIdentity = ById(id: int) | ByName(name: string)

  datatype SetPermissionsParams = SetPermissionsParams(
    workspace: WorkspaceIdentity, users: seq<string>, newPermission: string)

  /**
   * A string `Long.parseLong` accepts names the workspace by id; any other by
   * name: the id is chosen exactly when the text is a signed decimal whose
   * value fits in 64 bits.
   */
  function ChooseWorkspaceIdentity(wsNameOrId: string): (w: WorkspaceIdentity)
    ensures w.ById? <==> WellFormedLong(wsNameOrId) && InLongRange(SignedValue(wsNameOrId))
    ensures w.ById? ==> w.id == SignedValue(wsNameOrId)
    ensures w.ByName? ==> w.name == wsNameOrId
  {
    match ParseLong(wsNameOrId)
    case Some(id) => ById(id)
    case None => ByName(wsNameOrId)
  }

  /** The decimal text of any 64-bit id selects that id. */
  lemma DecimalSelectsId(id: int)
    requires InLongRange(id)
    ensures ChooseWorkspaceIdentity(IntToString(id)) == ById(id)
  {
    ParseLongInvertsIntToString(id);
  }

  /**
   * A string that is empty, starts with anything but a sign or a digit, or
   * holds a non-digit later on selects a name, and so does a digit string too
   * large for 64 bits; an id, when selected, is always a 64-bit value.
   */
  lemma IdOrName(wsNameOrId: string)
    ensures ChooseWorkspaceIdentity(wsNameOrId).ById? ==> InLongRange(ChooseWorkspaceIdentity(wsNameOrId).id)
    ensures (|wsNameOrId| == 0
             || (!IsDigit(wsNameOrId[0]) && wsNameOrId[0] != '-' && wsNameOrId[0] != '+')
             || exists i | 1 <= i < |wsNameOrId| :: !IsDigit(wsNameOrId[i]))
      ==> ChooseWorkspaceIdentity(wsNameOrId) == ByName(wsNameOrId)
    ensures |wsNameOrId| > 0 && AllDigits(wsNameOrId) && DigitsValue(wsNameOrId) > MaxLong
      ==> ChooseWorkspaceIdentity(wsNameOrId) == ByName(wsNameOrId)
  {
  }

  /** The decimal text of a number outside the 64-bit range names a workspace, not an id. */
  lemma OverflowSelectsName(n: int)
    requires !InLongRange(n)
    ensures ChooseWorkspaceIdentity(IntToString(n)) == ByName(IntToString(n))
  {
    var s := IntToString(n);
    if n < 0 {
      assert s[1..] == NatToString(-n);
    }
    assert SignedValue(s) == n;
  }

  // ---------------------------------------------------------------------------
  // What the processor asks of the outside world

  datatype Action =
    | LoadObject(objRef: string)
    | ProcessSubObjects(objRef: string, rule: TypeRule)
    | ShareObjects(guids: set<GUID>, accessGroupId: int)
    | UnshareObjects(guids: set<GUID>, accessGroupId: int)
    | SetPermissions(asUser: string, params: SetPermissionsParams)

  /**
   * The system storage's rules for a storage object type; None is the null
   * it returns for a type it does not know.
   */
  function RulesFor(systemStorage: map<string, seq<TypeRule>>, storageObjectType: string): Option<seq<TypeRule>>
  {
    if storageObjectType in systemStorage then Some(systemStorage[storageObjectType]) else None
  }

  /** A storage object type is supported when its rule lookup is not null, even if it lists no rule. */
  predicate IsStorageTypeSupported(systemStorage: map<string, seq<TypeRule>>, storageObjectType: string)
    ensures IsStorageTypeSupported(systemStorage, storageObjectType) <==> storageObjectType in systemStorage
  {
    RulesFor(systemStorage, storageObjectType).Some?
  }

  /** One sub-object processing per rule, in the order of the rules. */
  function ProcessAll(objRef: string, rules: seq<TypeRule>): seq<Action>
  {
    seq(|rules|, i requires 0 <= i < |rules| => ProcessSubObjects(objRef, rules[i]))
  }

  /**
   * Indexing an object: load it by reference, then process it once per rule;
   * without rules (a null list) the object is still loaded and then the
   * rule loop fails.
   */
  function IndexActions(guid: GUID, rules: Option<seq<TypeRule>>): (actions: seq<Action>)
    ensures |actions| == 1 + (if rules.Some? then |rules.value| else 0)
    ensures actions[0] == LoadObject(ObjectRef(guid))
    ensures rules.Some? ==>
      forall i | 0 <= i < |rules.value| :: actions[i + 1] == ProcessSubObjects(ObjectRef(guid), rules.value[i])
  {
    var load := LoadObject(ObjectRef(guid));
    if rules.None? then [load]
    else
      var processing := ProcessAll(ObjectRef(guid), rules.value);
      assert forall i | 0 <= i < |processing| :: ([load] + processing)[i + 1] == processing[i];
      [load] + processing
  }

  /**
   * The switch on the event type for an event of a supported storage type:
   * the actions of the case taken, or None for a type with no case.
   */
  function Dispatch(rules: seq<TypeRule>, ev: ObjectStatusEvent): (r: Option<seq<Action>>)
    ensures r.None? <==> ev.eventType !in {CREATED, NEW_VERSION, DELETED, SHARED, UNSHARED}
    ensures r.Some? ==> r.value != []
  {
    var guid := ToGUID(ev);
    match ev.eventType
    case CREATED => Some(IndexActions(guid, Some(rules)))
    case NEW_VERSION => Some(IndexActions(guid, Some(rules)))
    case DELETED => Some([UnshareObjects({guid}, ev.accessGroupId)])
    case SHARED => Some([ShareObjects({guid}, ev.targetAccessGroupId)])
    case UNSHARED => Some([UnshareObjects({guid}, ev.targetAccessGroupId)])
    case _ => None
  }

  /** Whether the tick gets past this event: it is skipped or its type has a case. */
  predicate Handled(systemStorage: map<string, seq<TypeRule>>, ev: ObjectStatusEvent)
  {
    !IsStorageTypeSupported(systemStorage, ev.storageObjectType) ||
    Dispatch(systemStorage[ev.storageObjectType], ev).Some?
  }

  /** The actions the tick takes for an event it gets past: none for a skipped one. */
  function EventActions(systemStorage: map<string, seq<TypeRule>>, ev: ObjectStatusEvent): seq<Action>
  {
    if !IsStorageTypeSupported(systemStorage, ev.storageObjectType) then []
    else match Dispatch(systemStorage[ev.storageObjectType], ev)
      case Some(actions) => actions
      case None => []
  }

  /** The actions for a run of events, event after event. */
  function AllActions(systemStorage: map<string, seq<TypeRule>>, events: seq<ObjectStatusEvent>): seq<Action>
    decreases |events|
  {
    if events == [] then [] else EventActions(systemStorage, events[0]) + AllActions(systemStorage, events[1..])
  }

  // ---------------------------------------------------------------------------
  // The event iterator

  /** `markAsVisitied(success)` for the event at `index`. */
  datatype Ack = Ack(index: nat, success: bool)

  /** A forward-only view of the pending events that records acknowledgements. */
  class ObjectStatusEventIterator {
    const events: seq<ObjectStatusEvent>
    var position: nat
    var acks: seq<Ack>

    ghost predicate Valid()
      reads this
    {
      && position <= |events|
      && forall a | a in acks :: a.index < position
    }

    constructor (events: seq<ObjectStatusEvent>)
      ensures Valid()
      ensures this.events == events && position == 0 && acks == []
    {
      this.events := events;
      position := 0;
      acks := [];
    }

    predicate HasNext()
      reads this
    {
      position < |events|
    }

    method Next() returns (ev: ObjectStatusEvent)
      requires Valid() && HasNext()
      modifies this
      ensures Valid()
      ensures ev == events[old(position)]
      ensures position == old(position) + 1 && acks == old(acks)
    {
      ev := events[position];
      position := position + 1;
    }

    /** Acknowledges the event `Next` returned last. */
    method MarkAsVisited(success: bool)
      requires Valid() && position > 0
      modifies this
      ensures Valid()
      ensures position == old(position) && acks == old(acks) + [Ack(position - 1, success)]
    {
      acks := acks + [Ack(position - 1, success)];
    }
  }

  // ---------------------------------------------------------------------------
  // One tick, as a function of the events

  datatype TickError = ReconstructionFailed(message: string) | UnsupportedEventType(eventType: StatusEventType)

  datatype TickOutcome = Completed | Failed(error: TickError)

  /** What a tick from `position` on does: acknowledgements, actions, how far it reads and how it ends. */
  datatype TickRun = TickRun(acks: seq<Ack>, actions: seq<Action>, consumed: nat, outcome: TickOutcome)

  function TickFrom(systemStorage: map<string, seq<TypeRule>>, events: seq<ObjectStatusEvent>, position: nat): (run: TickRun)
    requires position <= |events|
    ensures position <= run.consumed <= |events|
    ensures run.outcome.Completed? ==> run.consumed == |events|
    ensures run.outcome.Failed? ==> position < run.consumed
    decreases |events| - position
  {
    if position == |events| then TickRun([], [], position, Completed)
    else
      var ev := events[position];
      if !IsStorageTypeSupported(systemStorage, ev.storageObjectType) then
        var rest := TickFrom(systemStorage, events, position + 1);
        rest.(acks := [Ack(position, false)] + rest.acks)
      else match Dispatch(systemStorage[ev.storageObjectType], ev)
        case None => TickRun([], [], position + 1, Failed(UnsupportedEventType(ev.eventType)))
        case Some(actions) =>
          var rest := TickFrom(systemStorage, events, position + 1);
          rest.(actions := actions + rest.actions)
  }

  /** Where the events the tick got past end: all it read, less the one it failed on. */
  function HandledEnd(run: TickRun): nat
  {
    if run.outcome.Completed? || run.consumed == 0 then run.consumed else run.consumed - 1
  }

  /**
   * A tick reads events in order from where it starts. It completes exactly
   * when it gets past every remaining event, having read them all; otherwise
   * it stops right after the first supported event whose type has no case,
   * failing with that type.
   */
  lemma {:induction false} TickStopsAtFirstUnhandled(
    systemStorage: map<string, seq<TypeRule>>, events: seq<ObjectStatusEvent>, position: nat)
    requires position <= |events|
    ensures var run := TickFrom(systemStorage, events, position);
      && position <= run.consumed <= |events|
      && (run.outcome == Completed <==> forall j | position <= j < |events| :: Handled(systemStorage, events[j]))
      && (run.outcome == Completed ==> run.consumed == |events|)
      && (run.outcome.Failed? ==>
            && position < run.consumed
            && HandledEnd(run) == run.consumed - 1
            && !Handled(systemStorage, events[run.consumed - 1])
            && run.outcome == Failed(UnsupportedEventType(events[run.consumed - 1].eventType)))
      && (forall j | position <= j < HandledEnd(run) :: Handled(systemStorage, events[j]))
    decreases |events| - position
  {
    if position < |events| {
      var ev := events[position];
      var run := TickFrom(systemStorage, events, position);
      if Handled(systemStorage, ev) {
        var rest := TickFrom(systemStorage, events, position + 1);
        TickStopsAtFirstUnhandled(systemStorage, events, position + 1);
        assert run.consumed == rest.consumed && run.outcome == rest.outcome;
        assert HandledEnd(run) == HandledEnd(rest);
      } else {
        assert run == TickRun([], [], position + 1, Failed(UnsupportedEventType(ev.eventType)));
      }
    }
  }

  /** Every acknowledgement a tick makes is a `false` for an event it read and skipped. */
  lemma {:induction false} TickAcksOnlySkipped(
    systemStorage: map<string, seq<TypeRule>>, events: seq<ObjectStatusEvent>, position: nat)
    requires position <= |events|
    ensures var run := TickFrom(systemStorage, events, position);
      forall a | a in run.acks ::
        && !a.success
        && position <= a.index < run.consumed <= |events|
        && !IsStorageTypeSupported(systemStorage, events[a.index].storageObjectType)
    decreases |events| - position
  {
    TickStopsAtFirstUnhandled(systemStorage, events, position);
    if position < |events| && Handled(systemStorage, events[position]) {
      TickAcksOnlySkipped(systemStorage, events, position + 1);
      TickStopsAtFirstUnhandled(systemStorage, events, position + 1);
    }
  }

  /** Every event a tick reads and skips is acknowledged with `false`. */
  lemma {:induction false} TickAcksEverySkipped(
    systemStorage: map<string, seq<TypeRule>>, events: seq<ObjectStatusEvent>, position: nat, j: nat)
    requires position <= j < |events|
    requires j < TickFrom(systemStorage, events, position).consumed
    requires !IsStorageTypeSupported(systemStorage, events[j].storageObjectType)
    ensures Ack(j, false) in TickFrom(systemStorage, events, position).acks
    decreases |events| - position
  {
    if j > position {
      TickAcksEverySkipped(systemStorage, events, position + 1, j);
    }
  }

  /** A tick acknowledges events in the order it reads them, each at most once. */
  lemma {:induction false} TickAcksAscend(
    systemStorage: map<string, seq<TypeRule>>, events: seq<ObjectStatusEvent>, position: nat)
    requires position <= |events|
    ensures Ascending(TickFrom(systemStorage, events, position).acks)
    decreases |events| - position
  {
    if position < |events| && Handled(systemStorage, events[position]) {
      TickAcksAscend(systemStorage, events, position + 1);
      if !IsStorageTypeSupported(systemStorage, events[position].storageObjectType) {
        TickAcksOnlySkipped(systemStorage, events, position + 1);
        PrependKeepsAscending(Ack(position, false), TickFrom(systemStorage, events, position + 1).acks);
      }
    }
  }

  /** Acknowledged indexes strictly increase, so no event is acknowledged twice. */
  predicate Ascending(acks: seq<Ack>)
  {
    forall p, q | 0 <= p < q < |acks| :: acks[p].index < acks[q].index
  }

  lemma PrependKeepsAscending(a: Ack, rest: seq<Ack>)
    requires Ascending(rest)
    requires forall b | b in rest :: a.index < b.index
    ensures Ascending([a] + rest)
  {
    var acks := [a] + rest;
    forall p, q | 0 <= p < q < |acks| ensures acks[p].index < acks[q].index {
      assert acks[q] == rest[q - 1];
      if p > 0 {
        assert acks[p] == rest[p - 1];
      } else {
        assert rest[q - 1] in rest;
      }
    }
  }

  /**
   * A tick's actions are, in order, those of each event it got past; a
   * skipped event contributes none.
   */
  lemma {:induction false} TickActionsFollowEvents(
    systemStorage: map<string, seq<TypeRule>>, events: seq<ObjectStatusEvent>, position: nat)
    requires position <= |events|
    ensures var run := TickFrom(systemStorage, events, position);
      position <= HandledEnd(run) <= |events| &&
      run.actions == AllActions(systemStorage, events[position..HandledEnd(run)])
    decreases |events| - position
  {
    var run := TickFrom(systemStorage, events, position);
    if position < |events| {
      var ev := events[position];
      if Handled(systemStorage, ev) {
        TickActionsFollowEvents(systemStorage, events, position + 1);
        var rest := TickFrom(systemStorage, events, position + 1);
        assert run.consumed == rest.consumed && run.outcome == rest.outcome;
        assert HandledEnd(run) == HandledEnd(rest);
        var handled := events[position..HandledEnd(run)];
        assert handled[0] == ev && handled[1..] == events[position + 1..HandledEnd(rest)];
        assert run.actions == EventActions(systemStorage, ev) + rest.actions;
      } else {
        assert HandledEnd(run) == position;
      }
    }
  }

  /** The skipped events' storage types are the ones no rule lookup answers. */
  lemma SkippedEventsDispatchNothing(systemStorage: map<string, seq<TypeRule>>, ev: ObjectStatusEvent)
    requires !IsStorageTypeSupported(systemStorage, ev.storageObjectType)
    ensures Handled(systemStorage, ev) && EventActions(systemStorage, ev) == []
  {
  }

  /** Indexing loads the object under its reference, then processes it once per rule, in rule order. */
  /** The switch on event types, event by event. */
  lemma DispatchByEventType(rules: seq<TypeRule>, ev: ObjectStatusEvent)
    ensures ev.eventType in {CREATED, NEW_VERSION} ==> Dispatch(rules, ev) == Some(IndexActions(ToGUID(ev), Some(rules)))
    ensures ev.eventType == DELETED ==> Dispatch(rules, ev) == Some([UnshareObjects({ToGUID(ev)}, ev.accessGroupId)])
    ensures ev.eventType == SHARED ==> Dispatch(rules, ev) == Some([ShareObjects({ToGUID(ev)}, ev.targetAccessGroupId)])
    ensures ev.eventType == UNSHARED ==> Dispatch(rules, ev) == Some([UnshareObjects({ToGUID(ev)}, ev.targetAccessGroupId)])
    ensures Dispatch(rules, ev).None? <==> ev.eventType !in {CREATED, NEW_VERSION, DELETED, SHARED, UNSHARED}
  {
  }

  /** One CREATED event of a storage type nobody knows: it is acknowledged as not processed and nothing is indexed. */
  lemma UnknownStorageTypeScenario(systemStorage: map<string, seq<TypeRule>>, ev: ObjectStatusEvent)
    requires ev.eventType == CREATED && ev.storageObjectType !in systemStorage
    ensures TickFrom(systemStorage, [ev], 0) == TickRun([Ack(0, false)], [], 1, Completed)
  {
  }

  /** An unsupported event type stops the tick: later events are neither read nor acknowledged. */
  lemma UnsupportedTypeScenario(rules: seq<TypeRule>, ev: ObjectStatusEvent, later: ObjectStatusEvent)
    requires ev.eventType == DELETE_ALL_VERSIONS
    requires later.storageObjectType == "unknown" != ev.storageObjectType
    ensures TickFrom(map[ev.storageObjectType := rules], [ev, later], 0) ==
      TickRun([], [], 1, Failed(UnsupportedEventType(DELETE_ALL_VERSIONS)))
  {
  }

  // ---------------------------------------------------------------------------
  // The lifecycle runner's guards

  /** Whether the runner field is unset, holds a running thread, or one already interrupted. */
  datatype RunnerState = NoRunner | Running | Interrupted

  datatype LifecycleError = AlreadyStarted | StoppedTwice | StopTimedOut

  /** Polls, 100 ms apart, that a stop waits for the runner to exit. */
  const StopPolls: nat := 600

  /** Starting: only with no runner set, which then runs. */
  function Start(state: RunnerState): (r: Result<RunnerState, LifecycleError>)
    ensures r.Success? <==> state == NoRunner
    ensures r.Success? ==> r.value == Running
    ensures r.Failure? ==> r.error == AlreadyStarted
  {
    if state == NoRunner then Success(Running) else Failure(AlreadyStarted)
  }

  /**
   * Stopping, where `exitPoll` is the poll at which the runner is first seen
   * to have exited (None: not within any poll). The result is the outcome and
   * the runner state afterwards.
   */
  function Stop(state: RunnerState, exitPoll: Option<nat>): (r: (Result<bool, LifecycleError>, RunnerState))
    ensures r.1 != Running
    ensures r.0 == Success(true) <==> state == Running && exitPoll.Some? && exitPoll.value < StopPolls
    ensures r.0 == Success(false) <==> state == NoRunner
    ensures r.0.Success? ==> r.1 == NoRunner
    ensures r.0.Failure? ==> r.1 == Interrupted
  {
    match state
    case NoRunner => (Success(false), NoRunner)
    case Interrupted => (Failure(StoppedTwice), Interrupted)
    case Running =>
      if exitPoll.Some? && exitPoll.value < StopPolls then (Success(true), NoRunner)
      else (Failure(StopTimedOut), Interrupted)
  }

  /**
   * The guards: a second start fails while a runner is set; a stop with no
   * runner reports false; a runner can be interrupted only once, so a stop
   * that timed out leaves it set, and both a new start and a second stop
   * then fail.
   */
  lemma LifecycleGuards(state: RunnerState, exitPoll: Option<nat>)
    ensures Start(state).Failure? <==> state != NoRunner
    ensures Start(state).Failure? ==> Start(state).error == AlreadyStarted
    ensures state == NoRunner ==> Stop(state, exitPoll) == (Success(false), NoRunner)
    ensures Stop(state, exitPoll).1 != Running
    ensures Stop(state, exitPoll).0 == Failure(StopTimedOut) ==>
      && Start(Stop(state, exitPoll).1) == Failure(AlreadyStarted)
      && Stop(Stop(state, exitPoll).1, exitPoll).0 == Failure(StoppedTwice)
  {
  }

  /** Started, then stopped while the runner exits in time: back to no runner, ready to start again. */
  lemma StartStopCycle(k: nat)
    requires k < StopPolls
    ensures Start(NoRunner) == Success(Running)
    ensures Stop(Running, Some(k)) == (Success(true), NoRunner)
    ensures Stop(Running, Some(StopPolls)) == (Failure(StopTimedOut), Interrupted)
  {
  }

  // ---------------------------------------------------------------------------
  // The processor

  class MainObjectProcessor {
    /** The storage object types the system storage knows, with their parsing rules. */
    const systemStorage: map<string, seq<TypeRule>>
    /** The user the indexer's token belongs to. */
    const indexerUserName: string
    /** Every call made on the workspace, the object parser and the indexing storage, in order. */
    var trace: seq<Action>
    var mainRunner: RunnerState

    constructor (systemStorage: map<string, seq<TypeRule>>, indexerUserName: string, startLifecycleRunner: bool)
      ensures this.systemStorage == systemStorage && this.indexerUserName == indexerUserName
      ensures trace == []
      ensures mainRunner == if startLifecycleRunner then Running else NoRunner
    {
      this.systemStorage := systemStorage;
      this.indexerUserName := indexerUserName;
      trace := [];
      mainRunner := if startLifecycleRunner then Running else NoRunner;
    }

    method StartLifecycleRunner() returns (failure: Option<LifecycleError>)
      modifies this`mainRunner
      ensures Start(old(mainRunner)).Success? ==> failure == None && mainRunner == Start(old(mainRunner)).value
      ensures Start(old(mainRunner)).Failure? ==>
        failure == Some(Start(old(mainRunner)).error) && mainRunner == old(mainRunner)
    {
      if mainRunner != NoRunner {
        return Some(AlreadyStarted);
      }
      mainRunner := Running;
      return None;
    }

    /** Interrupts the runner, then polls up to `StopPolls` times for it to exit. */
    method StopLifecycleRunner(exitPoll: Option<nat>) returns (r: Result<bool, LifecycleError>)
      modifies this`mainRunner
      ensures (r, mainRunner) == Stop(old(mainRunner), exitPoll)
    {
      if mainRunner == NoRunner {
        return Success(false);
      }
      if mainRunner == Interrupted {
        return Failure(StoppedTwice);
      }
      mainRunner := Interrupted;
      for i := 0 to StopPolls
        invariant mainRunner == Interrupted
        invariant forall j | 0 <= j < i :: exitPoll != Some(j)
      {
        if exitPoll == Some(i) {
          // the runner's own exit clears the field
          mainRunner := NoRunner;
          return Success(true);
        }
      }
      return Failure(StopTimedOut);
    }

    method Share(guid: GUID, accessGroupId: int)
      modifies this`trace
      ensures trace == old(trace) + [ShareObjects({guid}, accessGroupId)]
    {
      trace := trace + [ShareObjects({guid}, accessGroupId)];
    }

    method Unshare(guid: GUID, accessGroupId: int)
      modifies this`trace
      ensures trace == old(trace) + [UnshareObjects({guid}, accessGroupId)]
    {
      trace := trace + [UnshareObjects({guid}, accessGroupId)];
    }

    /**
     * Loads the object and runs every parsing rule of its storage type over
     * it; `ok` is false when the type has no rules (a null list), which the
     * Java code meets as a NullPointerException after the load.
     */
    method IndexObject(guid: GUID, storageObjectType: string) returns (ok: bool)
      modifies this`trace
      ensures ok <==> IsStorageTypeSupported(systemStorage, storageObjectType)
      ensures trace == old(trace) + IndexActions(guid, RulesFor(systemStorage, storageObjectType))
    {
      var objRef := ObjectRef(guid);
      trace := trace + [LoadObject(objRef)];
      var parsingRules := RulesFor(systemStorage, storageObjectType);
      if parsingRules.None? {
        assert IndexActions(guid, parsingRules) == [LoadObject(objRef)];
        return false;
      }
      var rules := parsingRules.value;
      ProcessRules(objRef, rules);
      assert IndexActions(guid, parsingRules) == [LoadObject(objRef)] + ProcessAll(objRef, rules);
      return true;
    }

    /** The rule loop of indexing: one sub-object processing per rule, in rule order. */
    method ProcessRules(objRef: string, rules: seq<TypeRule>)
      modifies this`trace
      ensures trace == old(trace) + ProcessAll(objRef, rules)
    {
      for i := 0 to |rules|
        invariant trace == old(trace) + ProcessAll(objRef, rules[..i])
      {
        ProcessAllStep(objRef, rules, i);
        trace := trace + [ProcessSubObjects(objRef, rules[i])];
      }
      assert rules[..|rules|] == rules;
    }

    /** Gives the indexer's user write access to the workspace named by id or by name. */
    method AddWorkspaceToIndex(wsNameOrId: string, user: string)
      modifies this`trace
      ensures trace == old(trace) +
        [SetPermissions(user, SetPermissionsParams(ChooseWorkspaceIdentity(wsNameOrId), [indexerUserName], "w"))]
    {
      trace := trace + [SetPermissions(user, SetPermissionsParams(ChooseWorkspaceIdentity(wsNameOrId), [indexerUserName], "w"))];
    }

    /**
     * The switch on the event type of an event of a supported storage type;
     * false for a type with no case, which the Java code throws on.
     */
    method DispatchEvent(ev: ObjectStatusEvent) returns (dispatched: bool)
      requires IsStorageTypeSupported(systemStorage, ev.storageObjectType)
      modifies this`trace
      ensures dispatched <==> Dispatch(systemStorage[ev.storageObjectType], ev).Some?
      ensures dispatched ==> trace == old(trace) + Dispatch(systemStorage[ev.storageObjectType], ev).value
      ensures !dispatched ==> trace == old(trace)
    {
      var guid := ToGUID(ev);
      match ev.eventType {
        case CREATED =>
          var ok := IndexObject(guid, ev.storageObjectType);
        case NEW_VERSION =>
          var ok := IndexObject(guid, ev.storageObjectType);
        case DELETED =>
          Unshare(guid, ev.accessGroupId);
        case SHARED =>
          Share(guid, ev.targetAccessGroupId);
        case UNSHARED =>
          Unshare(guid, ev.targetAccessGroupId);
        case _ =>
          return false;
      }
      return true;
    }

    /**
     * One tick: after the workspace scans (which fail with `scanError` when
     * it is present), walk the iterator to its end, skipping and
     * acknowledging events of unsupported storage types and dispatching the
     * others; an event type with no case ends the tick with an error.
     */
    method PerformOneTick(scanError: Option<string>, iter: ObjectStatusEventIterator) returns (outcome: TickOutcome)
      requires iter.Valid()
      modifies this`trace, iter
      ensures iter.Valid()
      ensures scanError.Some? ==>
        && outcome == Failed(ReconstructionFailed(scanError.value))
        && trace == old(trace) && iter.position == old(iter.position) && iter.acks == old(iter.acks)
      ensures scanError.None? ==>
        && outcome == TickFrom(systemStorage, iter.events, old(iter.position)).outcome
        && iter.position == TickFrom(systemStorage, iter.events, old(iter.position)).consumed
        && iter.acks == old(iter.acks) + TickFrom(systemStorage, iter.events, old(iter.position)).acks
        && trace == old(trace) + TickFrom(systemStorage, iter.events, old(iter.position)).actions
    {
      if scanError.Some? {
        return Failed(ReconstructionFailed(scanError.value));
      }
      ghost var start := iter.position;
      while iter.HasNext()
        invariant iter.Valid() && start <= iter.position
        invariant Resume(TickFrom(systemStorage, iter.events, start), old(iter.acks), old(trace)) ==
          Resume(TickFrom(systemStorage, iter.events, iter.position), iter.acks, trace)
        decreases |iter.events| - iter.position
      {
        var failure := HandleNext(iter);
        if failure.Some? {
          return Failed(failure.value);
        }
      }
      TickEndStep(systemStorage, iter.events, iter.acks, trace);
      return Completed;
    }

    /**
     * The body of the tick's loop: reads one event and acknowledges it when
     * its storage type is unsupported, dispatches it otherwise; `failure` is
     * the error when its event type has no case. The tick from the event on,
     * after what was acknowledged and done before, is the tick from the next
     * event after what is acknowledged and done now.
     */
    method HandleNext(iter: ObjectStatusEventIterator) returns (failure: Option<TickError>)
      requires iter.Valid() && iter.HasNext()
      modifies this`trace, iter
      ensures iter.Valid() && iter.position == old(iter.position) + 1
      ensures Resume(TickFrom(systemStorage, iter.events, old(iter.position)), old(iter.acks), old(trace)) ==
        if failure.None? then Resume(TickFrom(systemStorage, iter.events, iter.position), iter.acks, trace)
        else TickRun(iter.acks, trace, iter.position, Failed(failure.value))
    {
      ghost var before := iter.position;
      var ev := iter.Next();
      if !IsStorageTypeSupported(systemStorage, ev.storageObjectType) {
        TickSkipStep(systemStorage, iter.events, before, iter.acks, trace);
        iter.MarkAsVisited(false);
        return None;
      }
      var dispatched := DispatchEvent(ev);
      if !dispatched {
        TickAbortStep(systemStorage, iter.events, before, iter.acks, trace);
        return Some(UnsupportedEventType(ev.eventType));
      }
      TickDispatchStep(systemStorage, iter.events, before, iter.acks, old(trace));
      return None;
    }
  }

  /** A run that continues after `acked` and `done`. */
  ghost function Resume(run: TickRun, acked: seq<Ack>, done: seq<Action>): TickRun
  {
    run.(acks := acked + run.acks, actions := done + run.actions)
  }

  /** The tick after a skipped event: the skip's acknowledgement moves from the rest of the run to what is done. */
  lemma TickSkipStep(
    systemStorage: map<string, seq<TypeRule>>, events: seq<ObjectStatusEvent>, position: nat,
    acked: seq<Ack>, done: seq<Action>)
    requires position < |events|
    requires !IsStorageTypeSupported(systemStorage, events[position].storageObjectType)
    ensures Resume(TickFrom(systemStorage, events, position), acked, done) ==
      Resume(TickFrom(systemStorage, events, position + 1), acked + [Ack(position, false)], done)
  {
    var rest := TickFrom(systemStorage, events, position + 1);
    assert acked + ([Ack(position, false)] + rest.acks) == (acked + [Ack(position, false)]) + rest.acks;
  }

  /** The tick after a dispatched event: its actions move from the rest of the run to what is done. */
  lemma TickDispatchStep(
    systemStorage: map<string, seq<TypeRule>>, events: seq<ObjectStatusEvent>, position: nat,
    acked: seq<Ack>, done: seq<Action>)
    requires position < |events|
    requires IsStorageTypeSupported(systemStorage, events[position].storageObjectType)
    requires Dispatch(systemStorage[events[position].storageObjectType], events[position]).Some?
    ensures Resume(TickFrom(systemStorage, events, position), acked, done) ==
      Resume(TickFrom(systemStorage, events, position + 1), acked,
             done + Dispatch(systemStorage[events[position].storageObjectType], events[position]).value)
  {
    var rest := TickFrom(systemStorage, events, position + 1);
    var actions := Dispatch(systemStorage[events[position].storageObjectType], events[position]).value;
    assert done + (actions + rest.actions) == (done + actions) + rest.actions;
  }

  /** The tick at an event whose type has no case: it stops there. */
  lemma TickAbortStep(
    systemStorage: map<string, seq<TypeRule>>, events: seq<ObjectStatusEvent>, position: nat,
    acked: seq<Ack>, done: seq<Action>)
    requires position < |events|
    requires IsStorageTypeSupported(systemStorage, events[position].storageObjectType)
    requires Dispatch(systemStorage[events[position].storageObjectType], events[position]).None?
    ensures Resume(TickFrom(systemStorage, events, position), acked, done) ==
      TickRun(acked, done, position + 1, Failed(UnsupportedEventType(events[position].eventType)))
  {
    assert acked + [] == acked && done + [] == done;
  }

  /** The tick at the end of the events. */
  lemma TickEndStep(
    systemStorage: map<string, seq<TypeRule>>, events: seq<ObjectStatusEvent>, acked: seq<Ack>, done: seq<Action>)
    ensures Resume(TickFrom(systemStorage, events, |events|), acked, done) == TickRun(acked, done, |events|, Completed)
  {
    assert acked + [] == acked && done + [] == done;
  }

  lemma ProcessAllStep(objRef: string, rules: seq<TypeRule>, i: nat)
    requires i < |rules|
    ensures ProcessAll(objRef, rules[..i + 1]) == ProcessAll(objRef, rules[..i]) + [ProcessSubObjects(objRef, rules[i])]
  {
    var a := ProcessAll(objRef, rules[..i + 1]);
    var b := ProcessAll(objRef, rules[..i]) + [ProcessSubObjects(objRef, rules[i])];
    assert |a| == |b|;
    forall k | 0 <= k < |a| ensures a[k] == b[k] {
      if k < i {
        assert rules[..i + 1][k] == rules[..i][k];
      }
    }
  }
}
