/**
 * `SyncWorker` and `sync_family_calendar`: build the parent and child
 * calendars from the configuration, remove the child events whose fingerprint
 * no parent holds any more, then mirror the selected parent events into each
 * child.
 */
module Sync {
  import opened Wrappers
  import opened Sequences
  import opened EventIdentity
  import opened Keywords
  import opened CalendarProvider
  import opened Calendars
  import opened Mirroring

  /** The sync window's length when the options do not give one. */
  const DEFAULT_DAYS_TO_SYNC: int := 7

  /** The `options` entry; `None` stands for an absent or empty dictionary. */
  datatype Options = Options(daysToSync: Option<int>, ignoreEventIfTitleStartsWith: Option<string>)

  /** One `child` entry; `copyAllFrom` is the entity id inside `copy_all_from`, if given. */
  datatype ChildConfig = ChildConfig(entityId: string, keywords: seq<string>, copyAllFrom: Option<string>)

  /** The integration's configuration: the parents' entity ids, the child entries and the options. */
  datatype Config = Config(parent: seq<string>, child: seq<ChildConfig>, options: Option<Options>)

  /** The `cal_type` argument of `_set_of_hashes_by_cal_type`. */
  datatype CalType = ParentCals | ChildCals

  /**
   * The copy-all map `async_setup` builds: each child entry with
   * `copy_all_from` sets its child's source, so a later entry wins.
   */
  function CopyAllMap(cs: seq<ChildConfig>): map<string, string>
    decreases |cs|
  {
    if cs == [] then map[]
    else
      var c := cs[|cs| - 1];
      var m := CopyAllMap(cs[..|cs| - 1]);
      if c.copyAllFrom.Some? then m[c.entityId := c.copyAllFrom.value] else m
  }

  /** A child has a copy-all source exactly when one of its entries names one. */
  lemma {:induction false} CopyAllMapKeys(cs: seq<ChildConfig>)
    ensures forall k :: k in CopyAllMap(cs) <==> exists i :: 0 <= i < |cs| && cs[i].entityId == k && cs[i].copyAllFrom.Some?
    decreases |cs|
  {
    if cs != [] {
      var init := cs[..|cs| - 1];
      CopyAllMapKeys(init);
      assert forall i :: 0 <= i < |init| ==> init[i] == cs[i];
    }
  }

  /** The source recorded for a child is the one its last entry with `copy_all_from` names. */
  lemma {:induction false} CopyAllMapLastWins(cs: seq<ChildConfig>, i: int)
    requires 0 <= i < |cs| && cs[i].copyAllFrom.Some?
    requires forall i' :: i < i' < |cs| && cs[i'].entityId == cs[i].entityId ==> cs[i'].copyAllFrom.None?
    ensures cs[i].entityId in CopyAllMap(cs) && CopyAllMap(cs)[cs[i].entityId] == cs[i].copyAllFrom.value
    decreases |cs|
  {
    var init := cs[..|cs| - 1];
    if i < |cs| - 1 {
      assert forall i' :: 0 <= i' < |init| ==> init[i'] == cs[i'];
      CopyAllMapLastWins(init, i);
    }
  }

  lemma MergeIntoEmpty(m: map<string, string>)
    ensures map[] + m == m
  {
  }

  lemma CopyAllMapStep(m0: map<string, string>, cs: seq<ChildConfig>, i: int)
    requires 0 <= i < |cs|
    ensures m0 + CopyAllMap(cs[..i + 1])
            == if cs[i].copyAllFrom.Some? then (m0 + CopyAllMap(cs[..i]))[cs[i].entityId := cs[i].copyAllFrom.value]
               else m0 + CopyAllMap(cs[..i])
  {
    assert cs[..i + 1][..i] == cs[..i];
  }

  /** `dict.get` on the copy-all map. */
  function CopyAllSource(m: map<string, string>, childId: string): Option<string> {
    if childId in m then Some(m[childId]) else None
  }

  /** `_sync_date_range`'s length: the option when given, the default otherwise. */
  function DaysToSync(options: Option<Options>): int {
    if options.Some? then options.value.daysToSync.GetOr(DEFAULT_DAYS_TO_SYNC) else DEFAULT_DAYS_TO_SYNC
  }

  /** `_ignore_event_if_title_starts_with`. */
  function IgnorePrefix(options: Option<Options>): Option<string> {
    if options.Some? then options.value.ignoreEventIfTitleStartsWith else None
  }

  /** The events a parent calendar holds after `async_setup`. */
  function LoadedParentEvents(provider: Provider, hasher: EventData -> HexDigest, entityId: string,
                              ignore: Option<string>): seq<ParentEvent>
  {
    if entityId in provider.entities then RemoveIgnored(ParentEventsOf(hasher, provider.entities[entityId]), ignore)
    else []
  }

  /** The events a child calendar holds after `async_setup`. */
  function LoadedChildEvents(provider: Provider, entityId: string): seq<Event> {
    if entityId in provider.entities then ChildEventsOf(provider.entities[entityId]) else []
  }

  /** The parent calendars as the addition phase reads them. */
  function Views(ps: seq<ParentCalendar>): (vs: seq<ParentView>)
    reads ps
    ensures |vs| == |ps|
    ensures forall j :: 0 <= j < |ps| ==> vs[j] == ParentView(ps[j].entityId, ps[j].events)
    decreases |ps|
  {
    if ps == [] then [] else Views(ps[..|ps| - 1]) + [ParentView(ps[|ps| - 1].entityId, ps[|ps| - 1].events)]
  }

  /** The events each child calendar holds, in order. */
  function EventsOf(cs: seq<ChildCalendar>): (r: seq<seq<Event>>)
    reads cs
    ensures |r| == |cs|
    ensures forall k :: 0 <= k < |cs| ==> r[k] == cs[k].events
    decreases |cs|
  {
    if cs == [] then [] else EventsOf(cs[..|cs| - 1]) + [cs[|cs| - 1].events]
  }

  /**
   * The child loop has handled the first `|done|` children of `cs`: those
   * hold, and have mirrored, what `SyncChild` describes, and the rest still
   * hold what they loaded. Every child keeps its invariant.
   */
  ghost predicate AddedUpTo(cs: seq<ChildCalendar>, starts: seq<seq<Event>>, copyAll: map<string, string>,
                            views: seq<ParentView>, done: seq<seq<ParentEvent>>)
    reads cs
  {
    |starts| == |cs| && |done| <= |cs|
    && (forall k :: 0 <= k < |cs| ==> cs[k].Valid())
    && (forall k :: |done| <= k < |cs| ==> cs[k].events == starts[k])
    && (forall k :: 0 <= k < |done| ==>
          Synced(cs[k].events, done[k], starts[k], cs[k].keywords, CopyAllSource(copyAll, cs[k].entityId), views))
  }

  /** Every fingerprint of `d` is a key of the index. */
  ghost predicate Within(d: seq<string>, index: map<string, Event>) {
    forall h :: h in d ==> h in index
  }

  /** `d` lists, once each, exactly the fingerprints of `hs` that the index holds. */
  ghost predicate DeletedFrom(d: seq<string>, hs: set<string>, index: map<string, Event>) {
    Distinct(d) && Within(d, index) && (forall h :: h in d ==> h in hs) && (forall h :: h in hs && h in index ==> h in d)
  }

  /** A child calendar as the removal phase reads it. */
  datatype ChildIndex = ChildIndex(entityId: string, hashMap: map<string, Event>)

  /** `deleted[k]` is what child `k` of `cs` deleted for the fingerprints `hs`, for every child. */
  ghost predicate RemovedFrom(deleted: seq<seq<string>>, hs: set<string>, cs: seq<ChildIndex>) {
    |deleted| == |cs| && forall k :: 0 <= k < |cs| ==> DeletedFrom(deleted[k], hs, cs[k].hashMap)
  }

  /**
   * The removal phase never touches a live or hand-made event: every
   * fingerprint a child deletes is one no parent holds, and the event deleted
   * for it is one of the child's events, carrying that fingerprint.
   */
  lemma RemovalSparesLive(events: seq<Event>, d: seq<string>, childHashes: set<string>, parentHashes: set<string>)
    requires DeletedFrom(d, childHashes - parentHashes, IndexOf(events))
    ensures forall h :: h in d ==>
              h !in parentHashes && h in FingerprintSet(events)
              && IndexOf(events)[h] in events && IndexOf(events)[h].HashedValue() == Some(h)
  {
    IndexKeys(events);
    IndexValues(events);
  }

  function Indexes(cs: seq<ChildCalendar>): (r: seq<ChildIndex>)
    reads cs
    ensures |r| == |cs|
    ensures forall k :: 0 <= k < |cs| ==> r[k] == ChildIndex(cs[k].entityId, cs[k].hashMap)
    decreases |cs|
  {
    if cs == [] then [] else Indexes(cs[..|cs| - 1]) + [ChildIndex(cs[|cs| - 1].entityId, cs[|cs| - 1].hashMap)]
  }

  /** The delete calls of the removal phase for the fingerprints `hs`, for the first `|deleted|` children. */
  function RemovalLog(cs: seq<ChildIndex>, hs: set<string>, deleted: seq<seq<string>>): seq<ProviderOp>
    requires |deleted| <= |cs|
    requires forall k :: 0 <= k < |deleted| ==> DeletedFrom(deleted[k], hs, cs[k].hashMap)
    decreases |deleted|
  {
    if deleted == [] then []
    else
      var n := |deleted| - 1;
      assert DeletedFrom(deleted[n], hs, cs[n].hashMap);
      RemovalLog(cs, hs, deleted[..n]) + DeleteOps(cs[n].entityId, cs[n].hashMap, deleted[n])
  }

  lemma RemovalLogStep(cs: seq<ChildIndex>, hs: set<string>, ds: seq<seq<string>>, d: seq<string>)
    requires |ds| < |cs|
    requires forall k :: 0 <= k < |ds| ==> DeletedFrom(ds[k], hs, cs[k].hashMap)
    requires DeletedFrom(d, hs, cs[|ds|].hashMap)
    ensures forall k :: 0 <= k < |ds + [d]| ==> DeletedFrom((ds + [d])[k], hs, cs[k].hashMap)
    ensures RemovalLog(cs, hs, ds + [d]) == RemovalLog(cs, hs, ds) + DeleteOps(cs[|ds|].entityId, cs[|ds|].hashMap, d)
  {
    assert (ds + [d])[..|ds|] == ds;
  }

  /** The create calls of the addition phase for the first `|mirrored|` children, child by child. */
  function CreationLog(cs: seq<ChildCalendar>, mirrored: seq<seq<ParentEvent>>): seq<ProviderOp>
    requires |mirrored| <= |cs|
    decreases |mirrored|
  {
    if mirrored == [] then []
    else
      var n := |mirrored| - 1;
      CreationLog(cs, mirrored[..n]) + CreateOps(cs[n].entityId, mirrored[n])
  }

  lemma CreationLogStep(cs: seq<ChildCalendar>, ms: seq<seq<ParentEvent>>, m: seq<ParentEvent>)
    requires |ms| < |cs|
    ensures CreationLog(cs, ms + [m]) == CreationLog(cs, ms) + CreateOps(cs[|ms|].entityId, m)
  {
    assert (ms + [m])[..|ms|] == ms;
  }

  /** Two snapshots of the same parent calendars agree. */
  lemma ViewsAgree(ps: seq<ParentCalendar>, vs: seq<ParentView>)
    requires |vs| == |ps| && forall j :: 0 <= j < |ps| ==> vs[j] == ParentView(ps[j].entityId, ps[j].events)
    ensures Views(ps) == vs
  {
  }

  /** A child holds, and has mirrored, what `SyncChild` describes. */
  ghost predicate Synced(events: seq<Event>, m: seq<ParentEvent>, start: seq<Event>, keywords: seq<string>,
                         source: Option<string>, views: seq<ParentView>)
  {
    var r := SyncChild(CreateChildEvent, start, keywords, KeywordTest(keywords), source, views);
    events == r.events && m == r.mirrored
  }

  /** Calendars `n0` onwards of `ps` are the loaded parent calendars of `entries`, in order. */
  ghost predicate ParentsLoaded(ps: seq<ParentCalendar>, n0: int, entries: seq<string>, provider: Provider,
                                hasher: EventData -> HexDigest, ignore: Option<string>)
    reads ps
  {
    0 <= n0 && |ps| == n0 + |entries|
    && forall j :: n0 <= j < |ps| ==>
         ps[j].entityId == entries[j - n0] && ps[j].ignoreString == ignore
         && ps[j].events == LoadedParentEvents(provider, hasher, entries[j - n0], ignore)
  }

  /** Calendars `m0` onwards of `cs` are the loaded child calendars of `entries`, in order. */
  ghost predicate ChildrenLoaded(cs: seq<ChildCalendar>, m0: int, entries: seq<ChildConfig>, provider: Provider)
    reads cs
  {
    0 <= m0 && |cs| == m0 + |entries|
    && forall k :: m0 <= k < |cs| ==>
         cs[k].entityId == entries[k - m0].entityId && cs[k].keywords == entries[k - m0].keywords
         && cs[k].events == LoadedChildEvents(provider, entries[k - m0].entityId)
  }

  lemma ParentsLoadedSnoc(ps: seq<ParentCalendar>, n0: int, entries: seq<string>, provider: Provider,
                          hasher: EventData -> HexDigest, ignore: Option<string>, p: ParentCalendar, entityId: string)
    requires ParentsLoaded(ps, n0, entries, provider, hasher, ignore)
    requires p.entityId == entityId && p.ignoreString == ignore
    requires p.events == LoadedParentEvents(provider, hasher, entityId, ignore)
    ensures ParentsLoaded(ps + [p], n0, entries + [entityId], provider, hasher, ignore)
  {
    var qs, es := ps + [p], entries + [entityId];
    forall j | n0 <= j < |qs|
      ensures qs[j].entityId == es[j - n0] && qs[j].ignoreString == ignore
              && qs[j].events == LoadedParentEvents(provider, hasher, es[j - n0], ignore)
    {
      if j < |ps| {
        assert qs[j] == ps[j] && es[j - n0] == entries[j - n0];
      }
    }
  }

  lemma ChildrenLoadedSnoc(cs: seq<ChildCalendar>, m0: int, entries: seq<ChildConfig>, provider: Provider,
                           cal: ChildCalendar, c: ChildConfig)
    requires ChildrenLoaded(cs, m0, entries, provider)
    requires cal.entityId == c.entityId && cal.keywords == c.keywords
    requires cal.events == LoadedChildEvents(provider, c.entityId)
    ensures ChildrenLoaded(cs + [cal], m0, entries + [c], provider)
  {
    var ds, es := cs + [cal], entries + [c];
    forall k | m0 <= k < |ds|
      ensures ds[k].entityId == es[k - m0].entityId && ds[k].keywords == es[k - m0].keywords
              && ds[k].events == LoadedChildEvents(provider, es[k - m0].entityId)
    {
      if k < |cs| {
        assert ds[k] == cs[k] && es[k - m0] == entries[k - m0];
      }
    }
  }

  /** A `ParentCalendar` constructed and set up, as the parent loop of `async_setup` does for one entry. */
  method LoadParent(provider: Provider, hasher: EventData -> HexDigest, entityId: string, ignore: Option<string>)
    returns (calendar: ParentCalendar)
    ensures fresh(calendar) && calendar.Valid()
    ensures calendar.entityId == entityId && calendar.ignoreString == ignore
    ensures calendar.events == LoadedParentEvents(provider, hasher, entityId, ignore)
  {
    calendar := new ParentCalendar(entityId, ignore);
    EmptyConcat(LoadedParentEvents(provider, hasher, entityId, ignore));
    calendar.Setup(provider, hasher);
  }

  /** A `ChildCalendar` constructed and set up, as the child loop of `async_setup` does for one entry. */
  method LoadChild(provider: Provider, c: ChildConfig) returns (calendar: ChildCalendar)
    ensures fresh(calendar) && calendar.Valid()
    ensures calendar.entityId == c.entityId && calendar.keywords == c.keywords
    ensures calendar.events == LoadedChildEvents(provider, c.entityId)
  {
    calendar := new ChildCalendar(c.entityId, c.keywords);
    EmptyConcat(LoadedChildEvents(provider, c.entityId));
    calendar.Setup(provider);
  }

  class SyncWorker {
    const config: Config
    const daysToSync: int
    const ignorePrefix: Option<string>
    var copyAllMap: map<string, string>
    var parents: seq<ParentCalendar>
    var children: seq<ChildCalendar>

    /** Every calendar keeps its own invariant, and no child calendar is listed twice. */
    ghost predicate Valid()
      reads this`parents, this`children, parents, children
    {
      ParentsValid() && ChildrenValid()
    }

    ghost predicate ParentsValid()
      reads this`parents, parents
    {
      forall j :: 0 <= j < |parents| ==> parents[j].Valid()
    }

    ghost predicate ChildrenValid()
      reads this`children, children
    {
      (forall k :: 0 <= k < |children| ==> children[k].Valid()) && Distinct(children)
    }

    /** Every fingerprint some parent calendar holds. */
    ghost function ParentHashes(): set<string>
      reads this`parents, parents
    {
      set j, h | 0 <= j < |parents| && h in parents[j].hashMap :: h
    }

    /** Every fingerprint some child calendar holds. */
    ghost function ChildHashes(): set<string>
      reads this`children, children
    {
      set k, h | 0 <= k < |children| && h in children[k].hashMap :: h
    }

    /** `SyncWorker.__init__`: read the options; no calendars yet. */
    constructor(config: Config)
      ensures Valid()
      ensures this.config == config
      ensures daysToSync == DaysToSync(config.options) && ignorePrefix == IgnorePrefix(config.options)
      ensures copyAllMap == map[] && parents == [] && children == []
    {
      this.config := config;
      daysToSync := DaysToSync(config.options);
      ignorePrefix := IgnorePrefix(config.options);
      copyAllMap := map[];
      parents := [];
      children := [];
    }

    /** One pass of the parent loop of `async_setup`: load and append the parent calendar. */
    method SetupParent(provider: Provider, hasher: EventData -> HexDigest, n0: int, ghost entries: seq<string>, entityId: string)
      returns (calendar: ParentCalendar)
      requires ParentsValid() && ParentsLoaded(parents, n0, entries, provider, hasher, ignorePrefix)
      modifies this`parents
      ensures ParentsValid() && ParentsLoaded(parents, n0, entries + [entityId], provider, hasher, ignorePrefix)
      ensures fresh(calendar)
      ensures parents == old(parents) + [calendar]
    {
      calendar := LoadParent(provider, hasher, entityId, ignorePrefix);
      ParentsLoadedSnoc(parents, n0, entries, provider, hasher, ignorePrefix, calendar, entityId);
      parents := parents + [calendar];
    }

    /** The parent loop of `async_setup`: one loaded parent calendar per parent entry, in order. */
    method SetupParents(provider: Provider, hasher: EventData -> HexDigest)
      requires ParentsValid()
      modifies this`parents
      ensures ParentsValid()
      ensures ParentsLoaded(parents, |old(parents)|, config.parent, provider, hasher, ignorePrefix)
      ensures forall j :: 0 <= j < |old(parents)| ==> parents[j] == old(parents)[j]
      ensures forall j :: |old(parents)| <= j < |parents| ==> fresh(parents[j])
    {
      var n0 := |parents|;
      for i := 0 to |config.parent|
        invariant |parents| == n0 + i
        invariant forall j :: 0 <= j < n0 ==> parents[j] == old(parents)[j]
        invariant ParentsValid() && ParentsLoaded(parents, n0, config.parent[..i], provider, hasher, ignorePrefix)
        invariant forall j :: n0 <= j < |parents| ==> fresh(parents[j])
      {
        TakeSnoc(config.parent, i);
        var calendar := SetupParent(provider, hasher, n0, config.parent[..i], config.parent[i]);
      }
      TakeAll(config.parent);
    }

    /**
     * One pass of the child loop of `async_setup`: record the entry's
     * `copy_all_from`, then load and append the child calendar.
     */
    method SetupChild(provider: Provider, m0: int, ghost entries: seq<ChildConfig>, c: ChildConfig)
      returns (calendar: ChildCalendar)
      requires ChildrenValid() && ChildrenLoaded(children, m0, entries, provider)
      modifies this`children, this`copyAllMap
      ensures ChildrenValid() && ChildrenLoaded(children, m0, entries + [c], provider)
      ensures fresh(calendar)
      ensures children == old(children) + [calendar]
      ensures copyAllMap == if c.copyAllFrom.Some? then old(copyAllMap)[c.entityId := c.copyAllFrom.value] else old(copyAllMap)
    {
      if c.copyAllFrom.Some? {
        copyAllMap := copyAllMap[c.entityId := c.copyAllFrom.value];
      }
      calendar := LoadChild(provider, c);
      ChildrenLoadedSnoc(children, m0, entries, provider, calendar, c);
      DistinctSnoc(children, calendar);
      children := children + [calendar];
    }

    /** The child loop of `async_setup`: one loaded child calendar per child entry, in order. */
    method SetupChildren(provider: Provider)
      requires ChildrenValid()
      modifies this`children, this`copyAllMap
      ensures ChildrenValid()
      ensures ChildrenLoaded(children, |old(children)|, config.child, provider)
      ensures forall k :: 0 <= k < |old(children)| ==> children[k] == old(children)[k]
      ensures forall k :: |old(children)| <= k < |children| ==> fresh(children[k])
      ensures copyAllMap == old(copyAllMap) + CopyAllMap(config.child)
    {
      var m0 := |children|;
      for i := 0 to |config.child|
        invariant |children| == m0 + i
        invariant forall k :: 0 <= k < m0 ==> children[k] == old(children)[k]
        invariant ChildrenValid() && ChildrenLoaded(children, m0, config.child[..i], provider)
        invariant forall k :: m0 <= k < |children| ==> fresh(children[k])
        invariant copyAllMap == old(copyAllMap) + CopyAllMap(config.child[..i])
      {
        CopyAllMapStep(old(copyAllMap), config.child, i);
        TakeSnoc(config.child, i);
        var calendar := SetupChild(provider, m0, config.child[..i], config.child[i]);
      }
      TakeAll(config.child);
    }

    /**
     * `async_setup`: the parent calendars, then the child calendars and the
     * copy-all map. `misconfigured` is the condition under which an error is
     * logged.
     */
    method Setup(provider: Provider, hasher: EventData -> HexDigest) returns (misconfigured: bool)
      requires Valid()
      modifies this`parents, this`children, this`copyAllMap
      ensures Valid()
      ensures ParentsLoaded(parents, |old(parents)|, config.parent, provider, hasher, ignorePrefix)
      ensures forall j :: 0 <= j < |old(parents)| ==> parents[j] == old(parents)[j]
      ensures forall j :: |old(parents)| <= j < |parents| ==> fresh(parents[j])
      ensures ChildrenLoaded(children, |old(children)|, config.child, provider)
      ensures forall k :: 0 <= k < |old(children)| ==> children[k] == old(children)[k]
      ensures forall k :: |old(children)| <= k < |children| ==> fresh(children[k])
      ensures copyAllMap == old(copyAllMap) + CopyAllMap(config.child)
      ensures misconfigured <==> |parents| == 0 || |children| == 0
    {
      SetupParents(provider, hasher);
      SetupChildren(provider);
      misconfigured := |parents| == 0 || |children| == 0;
    }

    /** `_set_of_hashes_by_cal_type`: the union of the `hash_set`s of the calendars of that type. */
    method SetOfHashesByCalType(calType: CalType) returns (result: set<string>)
      ensures calType == ParentCals ==>
                forall h :: h in result <==> exists j :: 0 <= j < |parents| && h in parents[j].HashSet()
      ensures calType == ChildCals ==>
                forall h :: h in result <==> exists k :: 0 <= k < |children| && h in children[k].HashSet()
      ensures result == if calType == ParentCals then ParentHashes() else ChildHashes()
    {
      result := {};
      match calType {
        case ParentCals =>
          for j := 0 to |parents|
            invariant forall h :: h in result <==> exists j' :: 0 <= j' < j && h in parents[j'].HashSet()
          {
            result := result + parents[j].HashSet();
          }
        case ChildCals =>
          for k := 0 to |children|
            invariant forall h :: h in result <==> exists k' :: 0 <= k' < k && h in children[k'].HashSet()
          {
            result := result + children[k].HashSet();
          }
      }
    }

    /**
     * `_async_remove_events_from_child_cals`: each child deletes, in set
     * iteration order, the given fingerprints it holds. Only the provider
     * changes.
     */
    method RemoveEventsFromChildCals(provider: Provider, eventHashes: set<string>) returns (deleted: seq<seq<string>>)
      modifies provider
      ensures RemovedFrom(deleted, eventHashes, old(Indexes(children)))
      ensures provider.log == old(provider.log) + RemovalLog(old(Indexes(children)), eventHashes, deleted)
    {
      ghost var idx := Indexes(children);
      deleted := [];
      for k := 0 to |children|
        invariant |deleted| == k
        invariant forall k' :: 0 <= k' < k ==> DeletedFrom(deleted[k'], eventHashes, idx[k'].hashMap)
        invariant provider.log == old(provider.log) + RemovalLog(idx, eventHashes, deleted)
      {
        var outcome, d := children[k].DeleteEventFromHa(provider, Hashes(eventHashes));
        assert DeletedFrom(d, eventHashes, idx[k].hashMap);
        RemovalLogStep(idx, eventHashes, deleted, d);
        AppendAssoc(old(provider.log), RemovalLog(idx, eventHashes, deleted), DeleteOps(idx[k].entityId, idx[k].hashMap, d));
        deleted := deleted + [d];
      }
    }

    /**
     * One pass of the loop in `_async_sync_parent_to_child`: a selected event
     * whose fingerprint the child lacks is added to the child at once.
     */
    method MirrorEvent(provider: Provider, childCal: ChildCalendar, parentEvent: ParentEvent, shouldAddAllEvents: bool)
      requires childCal.Valid()
      modifies childCal, provider
      ensures childCal.Valid()
      ensures if Selected(KeywordTest(childCal.keywords), shouldAddAllEvents, parentEvent)
                 && parentEvent.fingerprint !in IndexOf(old(childCal.events))
              then childCal.events == old(childCal.events) + [CreateChildEvent(parentEvent)]
                   && provider.log == old(provider.log) + [CreateCall(CreateEventPayload(parentEvent, childCal.entityId))]
              else childCal.events == old(childCal.events) && provider.log == old(provider.log)
    {
      if KeywordMatch(childCal.keywords, parentEvent.data.summary) || shouldAddAllEvents {
        IndexKeys(childCal.events);
        var present := childCal.IsEventInCalendarWithHash(parentEvent.fingerprint);
        if !present {
          childCal.AddEvent(provider, parentEvent);
        }
      }
    }

    /**
     * `_async_sync_parent_to_child`: the child's list becomes the one
     * `MirrorParent` describes, and one create call is issued per mirrored
     * event, in order.
     */
    method SyncParentToChild(provider: Provider, parentCal: ParentCalendar, childCal: ChildCalendar)
      requires childCal.Valid()
      modifies childCal, provider
      ensures childCal.Valid()
      ensures var r := MirrorParent(CreateChildEvent, old(childCal.events), KeywordTest(childCal.keywords),
                                    CopyAllSource(copyAllMap, childCal.entityId) == Some(parentCal.entityId),
                                    parentCal.events);
              childCal.events == r.events && provider.log == old(provider.log) + CreateOps(childCal.entityId, r.mirrored)
    {
      var shouldAddAllEvents := CopyAllSource(copyAllMap, childCal.entityId) == Some(parentCal.entityId);
      var pevents := parentCal.events;
      ghost var start := childCal.events;
      ghost var log0 := provider.log;
      ghost var isMatch := KeywordTest(childCal.keywords);
      ghost var id := childCal.entityId;
      for i := 0 to |pevents|
        invariant childCal.Valid()
        invariant childCal.events == MirrorParent(CreateChildEvent, start, isMatch, shouldAddAllEvents, pevents[..i]).events
        invariant provider.log == log0 + CreateOps(id, MirrorParent(CreateChildEvent, start, isMatch, shouldAddAllEvents, pevents[..i]).mirrored)
      {
        ghost var r := MirrorParent(CreateChildEvent, start, isMatch, shouldAddAllEvents, pevents[..i]);
        TakeSnoc(pevents, i);
        MirrorParentSnoc(CreateChildEvent, start, isMatch, shouldAddAllEvents, pevents[..i], pevents[i]);
        CreateOpsSnoc(id, r.mirrored, pevents[i]);
        AppendAssoc(log0, CreateOps(id, r.mirrored), [CreateCall(CreateEventPayload(pevents[i], id))]);
        MirrorEvent(provider, childCal, pevents[i], shouldAddAllEvents);
      }
      TakeAll(pevents);
    }

    /**
     * The body of the child loop of `async_sync_calendars`: every parent that
     * is the child's copy-all source, or every parent when the child has
     * keywords, is mirrored into the child, in order.
     */
    method SyncChildCalendar(provider: Provider, childCal: ChildCalendar) returns (ghost mirrored: seq<ParentEvent>)
      requires childCal.Valid()
      modifies childCal, provider
      ensures childCal.Valid()
      ensures Views(parents) == old(Views(parents))
      ensures Synced(childCal.events, mirrored, old(childCal.events), childCal.keywords,
                     CopyAllSource(copyAllMap, childCal.entityId), Views(parents))
      ensures provider.log == old(provider.log) + CreateOps(childCal.entityId, mirrored)
    {
      var parentEntityId := CopyAllSource(copyAllMap, childCal.entityId);
      ghost var start := childCal.events;
      ghost var log0 := provider.log;
      ghost var views := Views(parents);
      ghost var keywords := childCal.keywords;
      ghost var isMatch := KeywordTest(keywords);
      ghost var id := childCal.entityId;
      for j := 0 to |parents|
        invariant |views| == |parents|
        invariant forall k :: 0 <= k < |parents| ==> views[k] == ParentView(parents[k].entityId, parents[k].events)
        invariant childCal.Valid()
        invariant childCal.events == SyncChild(CreateChildEvent, start, keywords, isMatch, parentEntityId, views[..j]).events
        invariant provider.log
                  == log0 + CreateOps(id, SyncChild(CreateChildEvent, start, keywords, isMatch, parentEntityId, views[..j]).mirrored)
      {
        var parentCal := parents[j];
        ghost var p := views[j];
        assert p == ParentView(parentCal.entityId, parentCal.events);
        TakeSnoc(views, j);
        ghost var prev := SyncChild(CreateChildEvent, start, keywords, isMatch, parentEntityId, views[..j]);
        SyncChildSnoc(CreateChildEvent, start, keywords, isMatch, parentEntityId, views[..j], p);
        if parentEntityId == Some(parentCal.entityId) || childCal.keywords != [] {
          ghost var r := MirrorParent(CreateChildEvent, prev.events, isMatch, parentEntityId == Some(p.entityId), p.events);
          SyncParentToChild(provider, parentCal, childCal);
          CreateOpsAppend(id, prev.mirrored, r.mirrored);
          AppendAssoc(log0, CreateOps(id, prev.mirrored), CreateOps(id, r.mirrored));
        }
      }
      TakeAll(views);
      ViewsAgree(parents, views);
      mirrored := SyncChild(CreateChildEvent, start, keywords, isMatch, parentEntityId, views).mirrored;
    }

    /**
     * The comparison and removal phase of `async_sync_calendars`: the
     * fingerprints some child holds and no parent holds are deleted from every
     * child that holds them. Only the provider changes; the local lists are
     * left as they are.
     */
    method RemoveStaleEvents(provider: Provider) returns (needRemoved: set<string>, deleted: seq<seq<string>>)
      modifies provider
      ensures unchanged(this, children, parents)
      ensures needRemoved == old(ChildHashes() - ParentHashes())
      ensures RemovedFrom(deleted, needRemoved, old(Indexes(children)))
      ensures provider.log == old(provider.log) + RemovalLog(old(Indexes(children)), needRemoved, deleted)
    {
      var parentset := SetOfHashesByCalType(ParentCals);
      var childset := SetOfHashesByCalType(ChildCals);
      needRemoved := childset - parentset;
      deleted := RemoveEventsFromChildCals(provider, needRemoved);
    }

    /**
     * The addition phase of `async_sync_calendars`: each child, in
     * configuration order, receives what `SyncChild` describes for its events
     * and the parents. `mirrored` names the events each child received.
     */
    method AddMissingEvents(provider: Provider) returns (ghost mirrored: seq<seq<ParentEvent>>)
      requires ChildrenValid()
      modifies provider, children
      ensures ChildrenValid()
      ensures |mirrored| == |children|
      ensures forall k :: 0 <= k < |children| ==>
                Synced(children[k].events, mirrored[k], old(EventsOf(children))[k], children[k].keywords,
                       CopyAllSource(old(copyAllMap), children[k].entityId), old(Views(parents)))
      ensures provider.log == old(provider.log) + CreationLog(children, mirrored)
    {
      ghost var views := Views(parents);
      ghost var starts := EventsOf(children);
      ghost var log0 := provider.log;
      mirrored := [];
      for k := 0 to |children|
        invariant Views(parents) == views
        invariant AddedUpTo(children, starts, copyAllMap, views, mirrored)
        invariant |mirrored| == k
        invariant provider.log == log0 + CreationLog(children, mirrored)
      {
        ghost var m := SyncChildAt(provider, k, starts, views, mirrored);
        CreationLogStep(children, mirrored, m);
        AppendAssoc(log0, CreationLog(children, mirrored), CreateOps(children[k].entityId, m));
        mirrored := mirrored + [m];
      }
    }

    /**
     * One pass of the child loop of `async_sync_calendars`: child `k` is
     * brought up to date with every parent.
     */
    method SyncChildAt(provider: Provider, k: int, ghost starts: seq<seq<Event>>, ghost views: seq<ParentView>,
                       ghost done: seq<seq<ParentEvent>>)
      returns (ghost mirrored: seq<ParentEvent>)
      requires Distinct(children) && 0 <= k == |done| < |children|
      requires AddedUpTo(children, starts, copyAllMap, views, done) && Views(parents) == views
      modifies provider, children[k]
      ensures Views(parents) == views
      ensures AddedUpTo(children, starts, copyAllMap, views, done + [mirrored])
      ensures provider.log == old(provider.log) + CreateOps(children[k].entityId, mirrored)
    {
      var childCal := children[k];
      assert forall k' :: 0 <= k' < |children| && k' != k ==> children[k'] != childCal;
      mirrored := SyncChildCalendar(provider, childCal);
      assert Synced(childCal.events, mirrored, starts[k], childCal.keywords, CopyAllSource(copyAllMap, childCal.entityId), views);
    }

    /**
     * `async_sync_calendars`: the removal phase, then the addition phase.
     * `deleted` and `needRemoved` refer to the calendars as they were before
     * the run.
     */
    method SyncCalendars(provider: Provider) returns (needRemoved: set<string>, deleted: seq<seq<string>>,
                                                      ghost mirrored: seq<seq<ParentEvent>>)
      requires Valid()
      modifies provider, children
      ensures parents == old(parents) && children == old(children) && copyAllMap == old(copyAllMap)
      ensures ChildrenValid()
      ensures needRemoved == old(ChildHashes() - ParentHashes())
      ensures RemovedFrom(deleted, needRemoved, old(Indexes(children)))
      ensures |mirrored| == |children|
      ensures forall k :: 0 <= k < |children| ==>
                Synced(children[k].events, mirrored[k], old(EventsOf(children))[k], children[k].keywords,
                       CopyAllSource(old(copyAllMap), children[k].entityId), old(Views(parents)))
      ensures provider.log == old(provider.log) + RemovalLog(old(Indexes(children)), needRemoved, deleted) + CreationLog(children, mirrored)
    {
      needRemoved, deleted := RemoveStaleEvents(provider);
      mirrored := AddMissingEvents(provider);
    }
  }

  /**
   * The first two steps of `sync_family_calendar`: the worker is built and
   * set up.
   */
  method NewWorker(provider: Provider, hasher: EventData -> HexDigest, config: Config)
    returns (worker: SyncWorker, misconfigured: bool)
    ensures fresh(worker) && worker.config == config && worker.Valid()
    ensures misconfigured <==> config.parent == [] || config.child == []
    ensures worker.copyAllMap == CopyAllMap(config.child)
    ensures Loaded(worker, provider, hasher, config)
    ensures forall k :: 0 <= k < |worker.children| ==> fresh(worker.children[k])
  {
    worker := new SyncWorker(config);
    misconfigured := worker.Setup(provider, hasher);
    MergeIntoEmpty(CopyAllMap(config.child));
  }

  /** The worker holds one calendar per configured entry, loaded from the provider. */
  ghost predicate Loaded(worker: SyncWorker, provider: Provider, hasher: EventData -> HexDigest, config: Config)
    reads worker, worker.parents, worker.children
  {
    ParentsLoaded(worker.parents, 0, config.parent, provider, hasher, IgnorePrefix(config.options))
    && ChildrenLoaded(worker.children, 0, config.child, provider)
  }

  /** The loaded parents and child event lists, as values. */
  lemma LoadedSnapshot(worker: SyncWorker, provider: Provider, hasher: EventData -> HexDigest, config: Config)
    returns (views: seq<ParentView>, starts: seq<seq<Event>>)
    requires Loaded(worker, provider, hasher, config)
    ensures views == Views(worker.parents) && starts == EventsOf(worker.children)
    ensures |views| == |config.parent| && |starts| == |config.child|
    ensures forall j :: 0 <= j < |config.parent| ==>
              views[j] == ParentView(config.parent[j], LoadedParentEvents(provider, hasher, config.parent[j], IgnorePrefix(config.options)))
    ensures forall k :: 0 <= k < |config.child| ==>
              starts[k] == LoadedChildEvents(provider, config.child[k].entityId)
              && worker.children[k].entityId == config.child[k].entityId
              && worker.children[k].keywords == config.child[k].keywords
  {
    views := Views(worker.parents);
    starts := EventsOf(worker.children);
  }

  /**
   * `sync_family_calendar`: build the worker, set it up, run one
   * reconciliation. `views` are the parent calendars as loaded; each child
   * ends with what `SyncChild` describes for the events it loaded and those
   * parents.
   */
  method SyncFamilyCalendar(provider: Provider, hasher: EventData -> HexDigest, config: Config)
    returns (worker: SyncWorker, misconfigured: bool, ghost views: seq<ParentView>)
    modifies provider
    ensures fresh(worker) && worker.config == config
    ensures misconfigured <==> config.parent == [] || config.child == []
    ensures |worker.parents| == |views| == |config.parent| && |worker.children| == |config.child|
    ensures forall j :: 0 <= j < |config.parent| ==>
              views[j] == ParentView(config.parent[j], LoadedParentEvents(provider, hasher, config.parent[j], IgnorePrefix(config.options)))
    ensures forall k :: 0 <= k < |config.child| ==>
              worker.children[k].events
              == SyncChild(CreateChildEvent, LoadedChildEvents(provider, config.child[k].entityId), config.child[k].keywords,
                           KeywordTest(config.child[k].keywords), CopyAllSource(CopyAllMap(config.child), config.child[k].entityId),
                           views).events
  {
    worker, misconfigured := NewWorker(provider, hasher, config);
    ghost var starts;
    views, starts := LoadedSnapshot(worker, provider, hasher, config);
    var needRemoved, deleted, mirrored := worker.SyncCalendars(provider);
  }
}
