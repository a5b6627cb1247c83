/**
 * Status events as the event store keeps them: the event itself, the id the
 * store gave it, its processing state and, optionally, who last updated it.
 */
module StoredStatusEvents {
  import opened Wrappers

  /** The kinds of change a storage system reports. */
  datatype StatusEventType =
    | CREATED
    | NEW_VERSION
    | DELETED
    | SHARED
    | UNSHARED
    | DELETE_ALL_VERSIONS
    | RENAME_ALL_VERSIONS

  /** Where an event stands in processing. */
  datatype StatusEventProcessingState = UNPROC | PROC | UNINDX | FAIL

  /**
   * A status event as its builder makes it: a storage code, the time it was
   * seen (milliseconds since the epoch) and its type are required; the rest
   * depends on the type.
   */
  datatype StatusEvent = StatusEvent(
    storageCode: string,
    timestampMillis: int,
    eventType: StatusEventType,
    accessGroupId: Option<int>,
    objectId: Option<string>,
    version: Option<int>,
    newName: Option<string>,
    isPublic: Option<bool>)

  /** The builder with only the required fields set. */
  function MinimalEvent(storageCode: string, timestampMillis: int, eventType: StatusEventType): StatusEvent
  {
    StatusEvent(storageCode, timestampMillis, eventType, None, None, None, None, None)
  }

  datatype StatusEventID = StatusEventID(id: string)

  /** The Java NullPointerException thrown for a missing argument, with the argument's name as message. */
  datatype NullArgument = NullPointer(message: string)

  datatype StoredStatusEvent = StoredStatusEvent(
    event: StatusEvent,
    id: StatusEventID,
    state: StatusEventProcessingState,
    updater: Option<string>)

  /** Characters that Java's `String.trim` removes: every code point up to the space. */
  predicate IsTrimmed(c: char)
  {
    c <= ' '
  }

  function TrimStart(s: string): (t: string)
    ensures |t| <= |s|
    ensures t == s[|s| - |t|..]
    ensures t != [] ==> !IsTrimmed(t[0])
    decreases |s|
  {
    if s != [] && IsTrimmed(s[0]) then TrimStart(s[1..]) else s
  }

  function TrimEnd(s: string): (t: string)
    ensures |t| <= |s|
    ensures t == s[..|t|]
    ensures t != [] ==> !IsTrimmed(t[|t| - 1])
    decreases |s|
  {
    if s != [] && IsTrimmed(s[|s| - 1]) then TrimEnd(s[..|s| - 1]) else s
  }

  /**
   * `String.trim`: what is left of `s` once every leading and trailing
   * character up to U+0020 is removed, so neither end of a non-empty result
   * is such a character.
   */
  function Trim(s: string): (t: string)
    ensures |t| <= |s|
    ensures t != [] ==> !IsTrimmed(t[0]) && !IsTrimmed(t[|t| - 1])
  {
    TrimEnd(TrimStart(s))
  }

  /** A string that is empty once trimmed: the updater the store treats as absent. */
  predicate IsBlank(s: string)
  {
    Trim(s) == ""
  }

  /** The invariant of a stored event: an updater, when present, is not blank. */
  predicate ValidStoredEvent(e: StoredStatusEvent)
  {
    e.updater.Some? ==> !IsBlank(e.updater.value)
  }

  /**
   * The constructor: a missing event, id or state is rejected, checked in
   * that order, with an error naming the argument; a missing or blank
   * updater is stored as absent, any other updater as given.
   */
  function NewStoredStatusEvent(
    event: Option<StatusEvent>,
    id: Option<StatusEventID>,
    state: Option<StatusEventProcessingState>,
    updater: Option<string>): (r: Result<StoredStatusEvent, NullArgument>)
    ensures r.Success? <==> event.Some? && id.Some? && state.Some?
    ensures event.None? ==> r == Failure(NullPointer("event"))
    ensures event.Some? && id.None? ==> r == Failure(NullPointer("id"))
    ensures event.Some? && id.Some? && state.None? ==> r == Failure(NullPointer("state"))
    ensures r.Success? ==> ValidStoredEvent(r.value)
  {
    if event.None? then Failure(NullPointer("event"))
    else if id.None? then Failure(NullPointer("id"))
    else if state.None? then Failure(NullPointer("state"))
    else
      var kept := if updater.Some? && !IsBlank(updater.value) then updater else None;
      Success(StoredStatusEvent(event.value, id.value, state.value, kept))
  }

  // ---------------------------------------------------------------------------
  // Properties

  /** Blank means made of nothing but characters trim removes. */
  lemma BlankIffAllTrimmed(s: string)
    ensures IsBlank(s) <==> forall i | 0 <= i < |s| :: IsTrimmed(s[i])
  {
    TrimStartSkipsPrefix(s);
    if forall i | 0 <= i < |s| :: IsTrimmed(s[i]) {
      TrimStartOfAllTrimmed(s);
    } else {
      var i :| 0 <= i < |s| && !IsTrimmed(s[i]);
      TrimStartStopsAt(s, i);
      TrimEndKeepsFirst(TrimStart(s));
    }
  }

  /** Trimming the end never removes a first character trim would keep. */
  lemma {:induction false} TrimEndKeepsFirst(t: string)
    requires |t| > 0 && !IsTrimmed(t[0])
    ensures TrimEnd(t) != ""
    decreases |t|
  {
    if |t| > 1 && IsTrimmed(t[|t| - 1]) {
      assert t[..|t| - 1][0] == t[0];
      TrimEndKeepsFirst(t[..|t| - 1]);
    }
  }

  lemma {:induction false} TrimStartSkipsPrefix(s: string)
    ensures forall i | 0 <= i < |s| - |TrimStart(s)| :: IsTrimmed(s[i])
    decreases |s|
  {
    if s != [] && IsTrimmed(s[0]) {
      TrimStartSkipsPrefix(s[1..]);
      forall i | 0 < i < |s| - |TrimStart(s)| ensures IsTrimmed(s[i]) {
        assert s[i] == s[1..][i - 1];
      }
    }
  }

  lemma {:induction false} TrimStartOfAllTrimmed(s: string)
    requires forall i | 0 <= i < |s| :: IsTrimmed(s[i])
    ensures TrimStart(s) == ""
    decreases |s|
  {
    if s != [] {
      TrimStartOfAllTrimmed(s[1..]);
    }
  }

  /** Trimming the start stops at or before the first character it may not remove, and keeps it. */
  lemma {:induction false} TrimStartStopsAt(s: string, i: nat)
    requires i < |s| && !IsTrimmed(s[i])
    ensures |TrimStart(s)| > 0 && !IsTrimmed(TrimStart(s)[0])
    decreases |s|
  {
    if IsTrimmed(s[0]) {
      assert i > 0;
      assert s[1..][i - 1] == s[i];
      TrimStartStopsAt(s[1..], i - 1);
    }
  }

  lemma {:induction false} TrimEndSkipsSuffix(s: string)
    ensures forall i | |TrimEnd(s)| <= i < |s| :: IsTrimmed(s[i])
    decreases |s|
  {
    if s != [] && IsTrimmed(s[|s| - 1]) {
      TrimEndSkipsSuffix(s[..|s| - 1]);
    }
  }

  /**
   * Trimming keeps one contiguous run of `s`: every character before it and
   * every character after it is one trim removes.
   */
  lemma {:induction false} TrimKeepsMiddle(s: string)
    ensures var start := |s| - |TrimStart(s)|;
      && start + |Trim(s)| <= |s|
      && Trim(s) == s[start..start + |Trim(s)|]
      && (forall i | 0 <= i < start :: IsTrimmed(s[i]))
      && (forall i | start + |Trim(s)| <= i < |s| :: IsTrimmed(s[i]))
  {
    var u := TrimStart(s);
    var t := TrimEnd(u);
    var start := |s| - |u|;
    assert Trim(s) == t;
    assert u == s[start..];
    assert t == u[..|t|];
    assert t == s[start..start + |t|];
    TrimStartSkipsPrefix(s);
    TrimEndSkipsSuffix(u);
    forall i | start + |t| <= i < |s| ensures IsTrimmed(s[i]) {
      assert s[i] == u[i - start];
    }
  }

  /** A stored event is a successful construction exactly when it keeps the invariant. */
  lemma ConstructionRoundTrip(e: StoredStatusEvent)
    ensures ValidStoredEvent(e) <==>
      NewStoredStatusEvent(Some(e.event), Some(e.id), Some(e.state), e.updater) == Success(e)
  {
  }

  /** The getters return the event, id and state passed in; the updater keeps exactly the non-blank text. */
  lemma ConstructorKeepsArguments(
    event: StatusEvent, id: StatusEventID, state: StatusEventProcessingState, updater: Option<string>)
    ensures var r := NewStoredStatusEvent(Some(event), Some(id), Some(state), updater);
      && r.Success?
      && r.value.event == event && r.value.id == id && r.value.state == state
      && (r.value.updater.Some? <==>
            updater.Some? && exists i | 0 <= i < |updater.value| :: !IsTrimmed(updater.value[i]))
      && (r.value.updater.Some? ==> r.value.updater == updater)
  {
    if updater.Some? {
      BlankIffAllTrimmed(updater.value);
    }
  }

  // ---------------------------------------------------------------------------
  // The constructor's documented cases

  lemma NoUpdater()
    ensures var event := MinimalEvent("foo", 10000, DELETE_ALL_VERSIONS);
      var r1 := NewStoredStatusEvent(Some(event), Some(StatusEventID("foo")), Some(UNPROC), None);
      var r2 := NewStoredStatusEvent(Some(event), Some(StatusEventID("foo")), Some(UNPROC), Some("   \t   \n   "));
      && r1 == r2 == Success(StoredStatusEvent(event, StatusEventID("foo"), UNPROC, None))
  {
    var event := MinimalEvent("foo", 10000, DELETE_ALL_VERSIONS);
    WhitespaceIsBlank();
    NullAndBlankUpdaterAgree(event, StatusEventID("foo"), UNPROC, "   \t   \n   ");
  }

  /** A blank updater is stored exactly as a null one. */
  lemma NullAndBlankUpdaterAgree(event: StatusEvent, id: StatusEventID, state: StatusEventProcessingState, updater: string)
    requires IsBlank(updater)
    ensures NewStoredStatusEvent(Some(event), Some(id), Some(state), Some(updater)) ==
      NewStoredStatusEvent(Some(event), Some(id), Some(state), None)
    ensures NewStoredStatusEvent(Some(event), Some(id), Some(state), None) ==
      Success(StoredStatusEvent(event, id, state, None))
  {
  }

  lemma WhitespaceIsBlank()
    ensures IsBlank("   \t   \n   ")
  {
    var s := "   \t   \n   ";
    assert forall i | 0 <= i < |s| :: IsTrimmed(s[i]);
    BlankIffAllTrimmed(s);
  }

  lemma WithUpdater()
    ensures var event := MinimalEvent("foo", 10000, DELETE_ALL_VERSIONS);
      NewStoredStatusEvent(Some(event), Some(StatusEventID("foo")), Some(UNPROC), Some("foo")) ==
        Success(StoredStatusEvent(event, StatusEventID("foo"), UNPROC, Some("foo")))
  {
    BlankIffAllTrimmed("foo");
    assert !IsTrimmed("foo"[0]);
  }

  lemma MissingArgumentsFail()
    ensures var event := MinimalEvent("foo", 10000, DELETE_ALL_VERSIONS);
      var id := StatusEventID("foo");
      && NewStoredStatusEvent(None, Some(id), Some(UNINDX), None) == Failure(NullPointer("event"))
      && NewStoredStatusEvent(Some(event), None, Some(UNINDX), None) == Failure(NullPointer("id"))
      && NewStoredStatusEvent(Some(event), Some(id), None, None) == Failure(NullPointer("state"))
  {
  }
}
