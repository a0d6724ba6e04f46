/**
 * Calendar snapshots (calendar_sync.py, classes Calendar, ParentCalendar and
 * ChildCalendar): the ordered event list loaded from the provider, the
 * fingerprint index built from it, and the child-side create and delete calls.
 */
module Calendars {
  import opened Wrappers
  import opened Sequences
  import opened EventIdentity
  import opened CalendarProvider

  // ---------------------------------------------------------------- the index

  /** The fingerprints carried by `events`; events made by hand carry none. */
  ghost function FingerprintSet(events: seq<Event>): set<string> {
    set i | 0 <= i < |events| && events[i].HashedValue().Some? :: events[i].HashedValue().value
  }

  /** The index `_create_hash_map` builds, as a function of the event list: the last event wins. */
  function IndexOf(events: seq<Event>): map<string, Event>
    decreases |events|
  {
    if events == [] then map[]
    else
      var e := events[|events| - 1];
      var m := IndexOf(events[..|events| - 1]);
      match e.HashedValue()
      case Some(h) => m[h := e]
      case None => m
  }

  lemma FingerprintSetSnoc(events: seq<Event>, e: Event)
    ensures FingerprintSet(events + [e])
            == FingerprintSet(events) + (if e.HashedValue().Some? then {e.HashedValue().value} else {})
  {
    var s := events + [e];
    forall h | h in FingerprintSet(events) ensures h in FingerprintSet(s) {
      var i :| 0 <= i < |events| && events[i].HashedValue() == Some(h);
      assert s[i] == events[i];
    }
    if e.HashedValue().Some? {
      assert s[|events|] == e;
    }
    forall h | h in FingerprintSet(s) ensures h in FingerprintSet(events) || e.HashedValue() == Some(h) {
      var i :| 0 <= i < |s| && s[i].HashedValue() == Some(h);
      if i < |events| {
        assert s[i] == events[i];
      }
    }
  }

  /** The index's keys are exactly the fingerprints of the events. */
  lemma {:induction false} IndexKeys(events: seq<Event>)
    ensures IndexOf(events).Keys == FingerprintSet(events)
    decreases |events|
  {
    if events != [] {
      var init := events[..|events| - 1];
      IndexKeys(init);
      FingerprintSetSnoc(init, events[|events| - 1]);
      assert init + [events[|events| - 1]] == events;
    }
  }

  /** Each key maps to an event of the list that carries that key, so hand-made events are never indexed. */
  lemma {:induction false} IndexValues(events: seq<Event>)
    ensures forall h :: h in IndexOf(events) ==>
              IndexOf(events)[h] in events && IndexOf(events)[h].HashedValue() == Some(h)
    decreases |events|
  {
    if events != [] {
      var init := events[..|events| - 1];
      IndexValues(init);
      forall h | h in IndexOf(init) ensures IndexOf(init)[h] in events {
        var i :| 0 <= i < |init| && init[i] == IndexOf(init)[h];
        assert events[i] == init[i];
      }
    }
  }

  /** An event that no later event shares a fingerprint with is the one the index keeps. */
  lemma {:induction false} IndexLastWins(events: seq<Event>, i: int)
    requires 0 <= i < |events| && events[i].HashedValue().Some?
    requires forall j :: i < j < |events| ==> events[j].HashedValue() != events[i].HashedValue()
    ensures events[i].HashedValue().value in IndexOf(events)
    ensures IndexOf(events)[events[i].HashedValue().value] == events[i]
    decreases |events|
  {
    var init := events[..|events| - 1];
    if i < |events| - 1 {
      forall j | i < j < |init| ensures init[j].HashedValue() != init[i].HashedValue() {
        assert init[j] == events[j];
      }
      IndexLastWins(init, i);
      assert init[i] == events[i];
    }
  }

  /** Indexing a longer list overrides every key the shorter list's index had. */
  lemma IndexOverridesPrefix(a: seq<Event>, b: seq<Event>)
    ensures IndexOf(a) + IndexOf(a + b) == IndexOf(a + b)
  {
    IndexKeys(a);
    IndexKeys(a + b);
    forall h | h in FingerprintSet(a) ensures h in FingerprintSet(a + b) {
      var i :| 0 <= i < |a| && a[i].HashedValue() == Some(h);
      assert (a + b)[i] == a[i];
    }
  }

  /** `_create_hash_map`: insert every fingerprinted event of `events`, in order, into `index`. */
  method BuildIndex(index: map<string, Event>, events: seq<Event>) returns (m: map<string, Event>)
    ensures m == index + IndexOf(events)
  {
    m := index;
    for i := 0 to |events|
      invariant m == index + IndexOf(events[..i])
    {
      var e := events[i];
      assert events[..i + 1][..i] == events[..i];
      match e.HashedValue() {
        case Some(h) =>
          m := m[h := e];
        case None =>
      }
    }
    assert events[..|events|] == events;
  }

  // ---------------------------------------------------------------- loading

  /** The records wrapped as parent events, in provider order. */
  function ParentEventsOf(hasher: EventData -> HexDigest, records: seq<EventData>): (r: seq<ParentEvent>)
    ensures |r| == |records|
    ensures forall i :: 0 <= i < |r| ==> r[i] == MakeParentEvent(hasher, records[i])
    decreases |records|
  {
    if records == [] then []
    else ParentEventsOf(hasher, records[..|records| - 1]) + [MakeParentEvent(hasher, records[|records| - 1])]
  }

  /** The records wrapped as child events, in provider order. */
  function ChildEventsOf(records: seq<EventData>): (r: seq<Event>)
    ensures |r| == |records|
    ensures forall i :: 0 <= i < |r| ==> r[i] == MakeChildEvent(records[i])
    decreases |records|
  {
    if records == [] then []
    else ChildEventsOf(records[..|records| - 1]) + [MakeChildEvent(records[|records| - 1])]
  }

  // ---------------------------------------------------------------- ignore prefix

  /** The event's title starts with a non-empty ignore string. */
  predicate IsIgnored(e: Event, ignore: Option<string>) {
    IsTruthy(ignore) && ignore.value <= e.data.summary
  }

  /** `ParentCalendar.remove_events_to_ignore` on a list of events. */
  function RemoveIgnored(events: seq<ParentEvent>, ignore: Option<string>): seq<ParentEvent> {
    if IsTruthy(ignore) then Filter(events, (e: ParentEvent) => !IsIgnored(e, ignore)) else events
  }

  /**
   * With a non-empty ignore string exactly the events whose title starts with
   * it are dropped, and the others keep their order; None or "" changes nothing.
   */
  lemma RemoveIgnoredExact(events: seq<ParentEvent>, ignore: Option<string>)
    ensures !IsTruthy(ignore) ==> RemoveIgnored(events, ignore) == events
    ensures IsSubsequence(RemoveIgnored(events, ignore), events)
    ensures forall e :: multiset(RemoveIgnored(events, ignore))[e]
                        == if IsIgnored(e, ignore) then 0 else multiset(events)[e]
  {
    if IsTruthy(ignore) {
      FilterExact(events, (e: ParentEvent) => !IsIgnored(e, ignore));
    } else {
      IsSubsequenceReflexive(events);
    }
  }

  lemma {:induction false} IsSubsequenceReflexive<T>(s: seq<T>)
    ensures IsSubsequence(s, s)
    decreases |s|
  {
    if s != [] {
      IsSubsequenceReflexive(s[1..]);
    }
  }

  /** Filtering again after appending only filters what was appended. */
  lemma RemoveIgnoredAppend(a: seq<ParentEvent>, b: seq<ParentEvent>, ignore: Option<string>)
    requires forall i :: 0 <= i < |a| ==> !IsIgnored(a[i], ignore)
    ensures RemoveIgnored(a + b, ignore) == a + RemoveIgnored(b, ignore)
    ensures forall i :: 0 <= i < |RemoveIgnored(b, ignore)| ==> !IsIgnored(RemoveIgnored(b, ignore)[i], ignore)
  {
    if IsTruthy(ignore) {
      var keep := (e: ParentEvent) => !IsIgnored(e, ignore);
      FilterConcat(a, b, keep);
      FilterKeepsAll(a, keep);
      var r := Filter(b, keep);
      forall i | 0 <= i < |r| ensures !IsIgnored(r[i], ignore) {
        FilterMembership(b, keep, r[i]);
      }
    }
  }

  // ---------------------------------------------------------------- parent calendars

  class ParentCalendar {
    const entityId: string
    const ignoreString: Option<string>
    var events: seq<ParentEvent>
    var hashMap: map<string, Event>

    /** The index reflects the list, and the ignore filter has been applied to the list. */
    ghost predicate Valid()
      reads this
    {
      hashMap == IndexOf(events)
      && forall i :: 0 <= i < |events| ==> !IsIgnored(events[i], ignoreString)
    }

    constructor(entityId: string, ignoreString: Option<string>)
      ensures Valid()
      ensures this.entityId == entityId && this.ignoreString == ignoreString
      ensures events == [] && hashMap == map[]
    {
      this.entityId := entityId;
      this.ignoreString := ignoreString;
      events := [];
      hashMap := map[];
    }

    /** `hash_set`. */
    function HashSet(): set<string>
      reads this
    {
      hashMap.Keys
    }

    /** `async_setup`: load only when the entity resolves. */
    method Setup(provider: Provider, hasher: EventData -> HexDigest)
      requires Valid()
      modifies this
      ensures Valid()
      ensures entityId in provider.entities ==>
                events == old(events) + RemoveIgnored(ParentEventsOf(hasher, provider.entities[entityId]), ignoreString)
      ensures entityId !in provider.entities ==> events == old(events) && hashMap == old(hashMap)
    {
      if entityId in provider.entities {
        var before := events;
        LoadEvents(provider, hasher);
        RemoveIgnoredAppend(before, ParentEventsOf(hasher, provider.entities[entityId]), ignoreString);
        IndexOverridesPrefix(before, RemoveIgnored(ParentEventsOf(hasher, provider.entities[entityId]), ignoreString));
      }
    }

    /** `async_load_events`: append the fetched events, drop the ignored ones, index the list. */
    method LoadEvents(provider: Provider, hasher: EventData -> HexDigest)
      modifies this
      ensures events == RemoveIgnored(
                          old(events) + (if entityId in provider.entities
                                         then ParentEventsOf(hasher, provider.entities[entityId]) else []),
                          ignoreString)
      ensures hashMap == old(hashMap) + IndexOf(events)
    {
      if entityId in provider.entities {
        var records := provider.entities[entityId];
        ghost var before := events;
        for i := 0 to |records|
          invariant events == before + ParentEventsOf(hasher, records[..i])
          invariant hashMap == old(hashMap)
        {
          assert records[..i + 1][..i] == records[..i];
          events := events + [MakeParentEvent(hasher, records[i])];
        }
        assert records[..|records|] == records;
      } else {
        assert events == events + [];
      }
      RemoveEventsToIgnore();
      CreateHashMap();
    }

    /** `remove_events_to_ignore`. */
    method RemoveEventsToIgnore()
      modifies this`events
      ensures events == RemoveIgnored(old(events), ignoreString)
    {
      if IsTruthy(ignoreString) {
        events := Filter(events, (e: ParentEvent) => !IsIgnored(e, ignoreString));
      }
    }

    /** `_create_hash_map`. */
    method CreateHashMap()
      modifies this`hashMap
      ensures hashMap == old(hashMap) + IndexOf(events)
    {
      var m := BuildIndex(hashMap, events);
      hashMap := m;
    }
  }

  // ---------------------------------------------------------------- child calendars

  /** The value given to `async_delete_event_from_ha`. */
  datatype HashArg = Hashes(values: set<string>) | Hash(value: string) | NotAHash

  datatype CalendarError = TypeError

  /** The delete calls for the given fingerprints, in order. */
  function DeleteOps(entityId: string, index: map<string, Event>, hs: seq<string>): (ops: seq<ProviderOp>)
    requires forall h :: h in hs ==> h in index
    ensures |ops| == |hs|
    ensures forall k :: 0 <= k < |hs| ==> ops[k] == DeleteCall(entityId, index[hs[k]].data.uid)
    decreases |hs|
  {
    if hs == [] then []
    else DeleteOps(entityId, index, hs[..|hs| - 1]) + [DeleteCall(entityId, index[hs[|hs| - 1]].data.uid)]
  }

  /** Python's iteration over a set: every element once, in an order the model leaves open. */
  method EnumerateSet(s: set<string>) returns (xs: seq<string>)
    ensures Distinct(xs)
    ensures forall x :: x in xs <==> x in s
  {
    xs := [];
    var rest := s;
    while rest != {}
      invariant rest <= s
      invariant Distinct(xs)
      invariant forall x :: x in xs <==> x in s && x !in rest
      decreases rest
    {
      var x :| x in rest;
      xs := xs + [x];
      rest := rest - {x};
    }
  }

  class ChildCalendar {
    const entityId: string
    const keywords: seq<string>
    var events: seq<Event>
    var hashMap: map<string, Event>

    /** The index is the one built from the list: the in-run updates keep them in step. */
    ghost predicate Valid()
      reads this
    {
      hashMap == IndexOf(events)
    }

    constructor(entityId: string, keywords: seq<string>)
      ensures Valid()
      ensures this.entityId == entityId && this.keywords == keywords
      ensures events == [] && hashMap == map[]
    {
      this.entityId := entityId;
      this.keywords := keywords;
      events := [];
      hashMap := map[];
    }

    /** `hash_set`. */
    function HashSet(): set<string>
      reads this
    {
      hashMap.Keys
    }

    /** `async_setup`: load only when the entity resolves. */
    method Setup(provider: Provider)
      requires Valid()
      modifies this
      ensures Valid()
      ensures events == old(events) + (if entityId in provider.entities
                                       then ChildEventsOf(provider.entities[entityId]) else [])
    {
      if entityId in provider.entities {
        ghost var before := events;
        LoadEvents(provider);
        IndexOverridesPrefix(before, ChildEventsOf(provider.entities[entityId]));
      } else {
        assert events == events + [];
      }
    }

    /** `async_load_events` for a child calendar (no ignore filter). */
    method LoadEvents(provider: Provider)
      modifies this
      ensures events == old(events) + (if entityId in provider.entities
                                       then ChildEventsOf(provider.entities[entityId]) else [])
      ensures hashMap == old(hashMap) + IndexOf(events)
    {
      if entityId in provider.entities {
        var records := provider.entities[entityId];
        ghost var before := events;
        for i := 0 to |records|
          invariant events == before + ChildEventsOf(records[..i])
          invariant hashMap == old(hashMap)
        {
          assert records[..i + 1][..i] == records[..i];
          events := events + [MakeChildEvent(records[i])];
        }
        assert records[..|records|] == records;
      } else {
        assert events == events + [];
      }
      CreateHashMap();
    }

    /** `_create_hash_map`. */
    method CreateHashMap()
      modifies this`hashMap
      ensures hashMap == old(hashMap) + IndexOf(events)
    {
      var m := BuildIndex(hashMap, events);
      hashMap := m;
    }

    /** `get_event_with_hash`: the indexed event carrying `h`, if the child holds one. */
    function GetEventWithHash(h: string): (r: Option<Event>)
      reads this
      requires Valid()
      ensures r.Some? <==> h in FingerprintSet(events)
      ensures r.Some? ==> r.value in events && r.value.HashedValue() == Some(h)
    {
      IndexKeys(events);
      IndexValues(events);
      if h in hashMap then Some(hashMap[h]) else None
    }

    /** `is_event_in_calendar_with_hash`. */
    function IsEventInCalendarWithHash(h: string): (b: bool)
      reads this
      requires Valid()
      ensures b <==> h in FingerprintSet(events)
    {
      GetEventWithHash(h).Some?
    }

    /** `overlapping_hashes`: every occurrence of a given fingerprint this calendar holds, in the given order. */
    function OverlappingHashes(hs: seq<string>): (r: seq<string>)
      reads this
      ensures IsSubsequence(r, hs)
      ensures forall h :: h in r <==> h in hs && h in hashMap
      ensures forall h :: multiset(r)[h] == if h in hashMap then multiset(hs)[h] else 0
    {
      var m := hashMap;
      var keep := (h: string) => h in m;
      FilterExact(hs, keep);
      forall h ensures h in Filter(hs, keep) <==> h in hs && h in m {
        FilterMembership(hs, keep, h);
      }
      Filter(hs, keep)
    }

    /** `_async_delete_event_from_ha`: delete the indexed event carrying `h`. */
    method DeleteByHash(provider: Provider, h: string)
      requires h in hashMap
      modifies provider
      ensures provider.log == old(provider.log) + [DeleteCall(entityId, hashMap[h].data.uid)]
    {
      var event := hashMap[h];
      provider.DeleteEvent(entityId, event.data.uid);
    }

    /**
     * `async_delete_event_from_ha`: for a set, one delete per member the
     * calendar holds (in set iteration order, returned as `deleted`); for a
     * string, one delete if it is held; anything else is a TypeError. The
     * local list and index are left as they are.
     */
    method DeleteEventFromHa(provider: Provider, values: HashArg) returns (outcome: Outcome<CalendarError>, deleted: seq<string>)
      modifies provider
      ensures outcome == if values.NotAHash? then Fail(TypeError) else Pass
      ensures forall h :: h in deleted ==> h in hashMap
      ensures values.Hashes? ==> Distinct(deleted) && forall h :: h in deleted <==> h in values.values && h in hashMap
      ensures values.Hash? ==> deleted == if values.value in hashMap then [values.value] else []
      ensures values.NotAHash? ==> deleted == []
      ensures provider.log == old(provider.log) + DeleteOps(entityId, hashMap, deleted)
    {
      match values {
        case Hashes(s) =>
          var order := EnumerateSet(s);
          var toRemove := OverlappingHashes(order);
          SubsequenceDistinct(toRemove, order);
          for k := 0 to |toRemove|
            invariant provider.log == old(provider.log) + DeleteOps(entityId, hashMap, toRemove[..k])
          {
            assert toRemove[..k + 1][..k] == toRemove[..k];
            DeleteByHash(provider, toRemove[k]);
          }
          assert toRemove[..|toRemove|] == toRemove;
          outcome, deleted := Pass, toRemove;
        case Hash(h) =>
          if h in hashMap {
            DeleteByHash(provider, h);
            deleted := [h];
          } else {
            deleted := [];
          }
          outcome := Pass;
        case NotAHash =>
          outcome, deleted := Fail(TypeError), [];
      }
    }

    /** `_async_add_event_to_ha`: the provider's create call for the mirrored payload. */
    method AddEventToHa(provider: Provider, pe: ParentEvent)
      modifies provider
      ensures provider.log == old(provider.log) + [CreateCall(CreateEventPayload(pe, entityId))]
    {
      var payload := CreateEventPayload(pe, entityId);
      provider.CreateEvent(payload);
    }

    /**
     * `async_add_event`: create the event at the provider, then append the
     * local copy to the list and insert it into the index at once.
     */
    method AddEvent(provider: Provider, pe: ParentEvent)
      requires Valid()
      modifies this, provider
      ensures Valid()
      ensures provider.log == old(provider.log) + [CreateCall(CreateEventPayload(pe, entityId))]
      ensures events == old(events) + [CreateChildEvent(pe)]
      ensures hashMap == old(hashMap)[CreateChildEvent(pe).HashedValue().value := CreateChildEvent(pe)]
    {
      AddEventToHa(provider, pe);
      var childEvent := CreateChildEvent(pe);
      hashMap := hashMap[childEvent.HashedValue().value := childEvent];
      events := events + [childEvent];
      assert events[..|events| - 1] == old(events);
    }
  }
}
