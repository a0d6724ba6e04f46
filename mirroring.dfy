/**
 * The addition phase of a reconciliation run as functions of the child's event
 * list: which parent events a child mirrors (`SyncWorker._async_sync_parent_to_child`
 * and the child/parent loop of `SyncWorker.async_sync_calendars`), and what is
 * proved about that choice.
 *
 * The functions take the copy a mirrored event gets as a parameter `copy`; the
 * engine uses `CreateChildEvent`. The lemmas hold for any copy that is keyed by
 * the parent's fingerprint (`KeyedCopies`), and `TokenFreeCopiesAreKeyed` shows
 * that `CreateChildEvent` is one whenever no parent description already
 * carries a token.
 */
module Mirroring {
  import opened Wrappers
  import opened Sequences
  import opened EventIdentity
  import opened Keywords
  import opened CalendarProvider
  import opened Calendars

  /** The child's event list after a pass, and the parent events mirrored in it, in order. */
  datatype Mirrored = Mirrored(events: seq<Event>, mirrored: seq<ParentEvent>)

  /** A parent calendar as the addition phase reads it. */
  datatype ParentView = ParentView(entityId: string, events: seq<ParentEvent>)

  /** The child's keyword test on titles, `ChildCalendar.is_a_keyword_match`. */
  function KeywordTest(keywords: seq<string>): string -> bool {
    title => KeywordMatch(keywords, title)
  }

  /** The event's title passes the child's keyword test, or the pair is copy-all. */
  predicate Selected(isMatch: string -> bool, copyAll: bool, pe: ParentEvent) {
    isMatch(pe.data.summary) || copyAll
  }

  /** A parent is scanned for a child if it is the child's copy-all source or the child has keywords. */
  predicate Eligible(keywords: seq<string>, source: Option<string>, p: ParentView) {
    source == Some(p.entityId) || keywords != []
  }

  /**
   * `_async_sync_parent_to_child`: each selected parent event whose fingerprint
   * the child's index lacks at that moment is mirrored, and its copy is
   * appended at once.
   */
  function MirrorParent(copy: ParentEvent -> Event, events: seq<Event>, isMatch: string -> bool, copyAll: bool,
                        pevents: seq<ParentEvent>): Mirrored
    decreases |pevents|
  {
    if pevents == [] then Mirrored(events, [])
    else
      var prev := MirrorParent(copy, events, isMatch, copyAll, pevents[..|pevents| - 1]);
      var pe := pevents[|pevents| - 1];
      if Selected(isMatch, copyAll, pe) && pe.fingerprint !in IndexOf(prev.events)
      then Mirrored(prev.events + [copy(pe)], prev.mirrored + [pe])
      else prev
  }

  /** The inner loop of `async_sync_calendars` for one child: every eligible parent, in order. */
  function SyncChild(copy: ParentEvent -> Event, events: seq<Event>, keywords: seq<string>, isMatch: string -> bool,
                     source: Option<string>,
                     parents: seq<ParentView>): Mirrored
    decreases |parents|
  {
    if parents == [] then Mirrored(events, [])
    else
      var prev := SyncChild(copy, events, keywords, isMatch, source, parents[..|parents| - 1]);
      var p := parents[|parents| - 1];
      if Eligible(keywords, source, p) then
        var r := MirrorParent(copy, prev.events, isMatch, source == Some(p.entityId), p.events);
        Mirrored(r.events, prev.mirrored + r.mirrored)
      else prev
  }

  /** The local copies of the mirrored events, in order. */
  function Copies(copy: ParentEvent -> Event, m: seq<ParentEvent>): (r: seq<Event>)
    ensures |r| == |m|
    ensures forall k :: 0 <= k < |m| ==> r[k] == copy(m[k])
    decreases |m|
  {
    if m == [] then [] else Copies(copy, m[..|m| - 1]) + [copy(m[|m| - 1])]
  }

  /** The provider's create calls for the mirrored events, in order. */
  function CreateOps(childId: string, m: seq<ParentEvent>): (r: seq<ProviderOp>)
    ensures |r| == |m|
    decreases |m|
  {
    if m == [] then [] else CreateOps(childId, m[..|m| - 1]) + [CreateCall(CreateEventPayload(m[|m| - 1], childId))]
  }

  /** The fingerprints of the mirrored events, in order. */
  function Fingerprints(m: seq<ParentEvent>): (r: seq<string>)
    ensures |r| == |m|
    ensures forall k :: 0 <= k < |m| ==> r[k] == m[k].fingerprint
    decreases |m|
  {
    if m == [] then [] else Fingerprints(m[..|m| - 1]) + [m[|m| - 1].fingerprint]
  }

  /** Every event's copy is indexed under the event's own fingerprint. */
  predicate KeyedCopies(copy: ParentEvent -> Event, pevents: seq<ParentEvent>) {
    forall i :: 0 <= i < |pevents| ==> copy(pevents[i]).HashedValue() == Some(pevents[i].fingerprint)
  }

  predicate AllKeyedCopies(copy: ParentEvent -> Event, parents: seq<ParentView>) {
    forall j :: 0 <= j < |parents| ==> KeyedCopies(copy, parents[j].events)
  }

  /** No parent event of the list carries a token in its own description. */
  ghost predicate TokenFree(pevents: seq<ParentEvent>) {
    forall i :: 0 <= i < |pevents| ==> !CarriesToken(pevents[i].data.description)
  }

  ghost predicate AllTokenFree(parents: seq<ParentView>) {
    forall j :: 0 <= j < |parents| ==> TokenFree(parents[j].events)
  }

  /** Mirrored copies are keyed by the parent's fingerprint when no parent description carries a token. */
  lemma TokenFreeCopiesAreKeyed(parents: seq<ParentView>)
    requires AllTokenFree(parents)
    ensures AllKeyedCopies(CreateChildEvent, parents)
  {
    forall j, i | 0 <= j < |parents| && 0 <= i < |parents[j].events|
      ensures CreateChildEvent(parents[j].events[i]).HashedValue() == Some(parents[j].events[i].fingerprint)
    {
      assert TokenFree(parents[j].events);
    }
  }

  // ---------------------------------------------------------------- small facts

  lemma FingerprintSetGrows(a: seq<Event>, b: seq<Event>)
    ensures FingerprintSet(a) <= FingerprintSet(a + b)
  {
    forall h | h in FingerprintSet(a) ensures h in FingerprintSet(a + b) {
      var i :| 0 <= i < |a| && a[i].HashedValue() == Some(h);
      assert (a + b)[i] == a[i];
    }
  }

  lemma CopiesAppend(copy: ParentEvent -> Event, a: seq<ParentEvent>, b: seq<ParentEvent>)
    ensures Copies(copy, a + b) == Copies(copy, a) + Copies(copy, b)
  {
  }

  lemma {:induction false} CreateOpsAppend(childId: string, a: seq<ParentEvent>, b: seq<ParentEvent>)
    ensures CreateOps(childId, a + b) == CreateOps(childId, a) + CreateOps(childId, b)
    decreases |b|
  {
    if b != [] {
      var b' := b[..|b| - 1];
      assert (a + b)[..|a + b| - 1] == a + b';
      CreateOpsAppend(childId, a, b');
    } else {
      assert a + b == a;
    }
  }

  lemma FingerprintsAppend(a: seq<ParentEvent>, b: seq<ParentEvent>)
    ensures Fingerprints(a + b) == Fingerprints(a) + Fingerprints(b)
  {
  }

  lemma FingerprintsSnoc(m: seq<ParentEvent>, pe: ParentEvent)
    ensures Fingerprints(m + [pe]) == Fingerprints(m) + [pe.fingerprint]
  {
    assert (m + [pe])[..|m|] == m;
  }

  lemma CreateOpsSnoc(childId: string, m: seq<ParentEvent>, pe: ParentEvent)
    ensures CreateOps(childId, m + [pe]) == CreateOps(childId, m) + [CreateCall(CreateEventPayload(pe, childId))]
  {
    assert (m + [pe])[..|m|] == m;
  }

  /** One step of `MirrorParent`: the next parent event, mirrored or passed over. */
  lemma MirrorParentSnoc(copy: ParentEvent -> Event, events: seq<Event>, isMatch: string -> bool, copyAll: bool,
                         pevents: seq<ParentEvent>, pe: ParentEvent)
    ensures var prev := MirrorParent(copy, events, isMatch, copyAll, pevents);
            MirrorParent(copy, events, isMatch, copyAll, pevents + [pe])
            == if Selected(isMatch, copyAll, pe) && pe.fingerprint !in IndexOf(prev.events)
               then Mirrored(prev.events + [copy(pe)], prev.mirrored + [pe])
               else prev
  {
    assert (pevents + [pe])[..|pevents|] == pevents;
  }

  // ---------------------------------------------------------------- one parent

  /** What one parent contributes to the list: the copies of the mirrored events, appended. */
  lemma {:induction false} MirrorParentAppends(copy: ParentEvent -> Event, events: seq<Event>, isMatch: string -> bool,
                                               copyAll: bool, pevents: seq<ParentEvent>)
    ensures MirrorParent(copy, events, isMatch, copyAll, pevents).events
            == events + Copies(copy, MirrorParent(copy, events, isMatch, copyAll, pevents).mirrored)
    decreases |pevents|
  {
    if pevents != [] {
      var init := pevents[..|pevents| - 1];
      var pe := pevents[|pevents| - 1];
      var prev := MirrorParent(copy, events, isMatch, copyAll, init);
      MirrorParentAppends(copy, events, isMatch, copyAll, init);
      if Selected(isMatch, copyAll, pe) && pe.fingerprint !in IndexOf(prev.events) {
        var m := prev.mirrored + [pe];
        assert m[..|m| - 1] == prev.mirrored;
      }
    }
  }

  /** Each mirrored event is a selected event of the parent whose fingerprint the child did not hold. */
  lemma {:induction false} MirrorParentPicks(copy: ParentEvent -> Event, events: seq<Event>, isMatch: string -> bool,
                                             copyAll: bool, pevents: seq<ParentEvent>)
    ensures forall pe :: pe in MirrorParent(copy, events, isMatch, copyAll, pevents).mirrored ==>
              pe in pevents && Selected(isMatch, copyAll, pe) && pe.fingerprint !in FingerprintSet(events)
    decreases |pevents|
  {
    if pevents != [] {
      var init := pevents[..|pevents| - 1];
      var pe := pevents[|pevents| - 1];
      var prev := MirrorParent(copy, events, isMatch, copyAll, init);
      MirrorParentPicks(copy, events, isMatch, copyAll, init);
      forall x | x in init ensures x in pevents { }
      if Selected(isMatch, copyAll, pe) && pe.fingerprint !in IndexOf(prev.events) {
        MirrorParentAppends(copy, events, isMatch, copyAll, init);
        IndexKeys(prev.events);
        FingerprintSetGrows(events, Copies(copy, prev.mirrored));
      }
    }
  }

  /**
   * What one parent contributes: the list grows by the copies of the mirrored
   * events, each mirrored event is a selected event of the parent, and none
   * had a fingerprint the child already held.
   */
  lemma MirrorParentShape(copy: ParentEvent -> Event, events: seq<Event>, isMatch: string -> bool,
                          copyAll: bool, pevents: seq<ParentEvent>)
    ensures MirrorParent(copy, events, isMatch, copyAll, pevents).events
            == events + Copies(copy, MirrorParent(copy, events, isMatch, copyAll, pevents).mirrored)
    ensures forall pe :: pe in MirrorParent(copy, events, isMatch, copyAll, pevents).mirrored ==>
              pe in pevents && Selected(isMatch, copyAll, pe) && pe.fingerprint !in FingerprintSet(events)
  {
    MirrorParentAppends(copy, events, isMatch, copyAll, pevents);
    MirrorParentPicks(copy, events, isMatch, copyAll, pevents);
  }

  /**
   * With keyed copies: the held fingerprints grow by exactly the mirrored
   * ones, no fingerprint is mirrored twice, and every selected event ends up
   * held.
   */
  lemma {:induction false} MirrorParentNoDuplicates(copy: ParentEvent -> Event, events: seq<Event>, isMatch: string -> bool,
                                                    copyAll: bool, pevents: seq<ParentEvent>)
    requires KeyedCopies(copy, pevents)
    ensures forall h :: h in FingerprintSet(MirrorParent(copy, events, isMatch, copyAll, pevents).events) <==>
              h in FingerprintSet(events) || h in Fingerprints(MirrorParent(copy, events, isMatch, copyAll, pevents).mirrored)
    ensures Distinct(Fingerprints(MirrorParent(copy, events, isMatch, copyAll, pevents).mirrored))
    ensures forall i :: 0 <= i < |pevents| && Selected(isMatch, copyAll, pevents[i]) ==>
              pevents[i].fingerprint in FingerprintSet(MirrorParent(copy, events, isMatch, copyAll, pevents).events)
    decreases |pevents|
  {
    if pevents != [] {
      var init := pevents[..|pevents| - 1];
      var pe := pevents[|pevents| - 1];
      forall i | 0 <= i < |init| ensures init[i] == pevents[i] { }
      var prev := MirrorParent(copy, events, isMatch, copyAll, init);
      MirrorParentNoDuplicates(copy, events, isMatch, copyAll, init);
      IndexKeys(prev.events);
      if Selected(isMatch, copyAll, pe) && pe.fingerprint !in IndexOf(prev.events) {
        assert copy(pe).HashedValue() == Some(pe.fingerprint);
        FingerprintSetSnoc(prev.events, copy(pe));
        FingerprintsSnoc(prev.mirrored, pe);
        DistinctSnoc(Fingerprints(prev.mirrored), pe.fingerprint);
      }
    }
  }

  /** A parent all of whose selected events are already held mirrors nothing. */
  lemma {:induction false} MirrorParentNothingNew(copy: ParentEvent -> Event, events: seq<Event>, isMatch: string -> bool,
                                                  copyAll: bool, pevents: seq<ParentEvent>)
    requires forall i :: 0 <= i < |pevents| && Selected(isMatch, copyAll, pevents[i]) ==>
               pevents[i].fingerprint in FingerprintSet(events)
    ensures MirrorParent(copy, events, isMatch, copyAll, pevents) == Mirrored(events, [])
    decreases |pevents|
  {
    if pevents != [] {
      var init := pevents[..|pevents| - 1];
      forall i | 0 <= i < |init| ensures init[i] == pevents[i] { }
      MirrorParentNothingNew(copy, events, isMatch, copyAll, init);
      IndexKeys(events);
    }
  }

  // ---------------------------------------------------------------- one child

  /** One step of `SyncChild`: the last parent, scanned or skipped. */
  lemma SyncChildStep(copy: ParentEvent -> Event, events: seq<Event>, keywords: seq<string>, isMatch: string -> bool,
                      source: Option<string>, parents: seq<ParentView>)
    requires parents != []
    ensures var prev := SyncChild(copy, events, keywords, isMatch, source, parents[..|parents| - 1]);
            var p := parents[|parents| - 1];
            var r := MirrorParent(copy, prev.events, isMatch, source == Some(p.entityId), p.events);
            SyncChild(copy, events, keywords, isMatch, source, parents)
            == if Eligible(keywords, source, p) then Mirrored(r.events, prev.mirrored + r.mirrored) else prev
  {
  }

  /** `SyncChild` with one more parent, written out. */
  lemma SyncChildSnoc(copy: ParentEvent -> Event, events: seq<Event>, keywords: seq<string>, isMatch: string -> bool,
                      source: Option<string>, parents: seq<ParentView>, p: ParentView)
    ensures var prev := SyncChild(copy, events, keywords, isMatch, source, parents);
            var r := MirrorParent(copy, prev.events, isMatch, source == Some(p.entityId), p.events);
            SyncChild(copy, events, keywords, isMatch, source, parents + [p])
            == if Eligible(keywords, source, p) then Mirrored(r.events, prev.mirrored + r.mirrored) else prev
  {
    assert (parents + [p])[..|parents|] == parents;
  }

  /** What one child receives in a run: its list grows by the copies of the mirrored events. */
  lemma {:induction false} SyncChildShape(copy: ParentEvent -> Event, events: seq<Event>, keywords: seq<string>, isMatch: string -> bool,
                                          source: Option<string>, parents: seq<ParentView>)
    ensures SyncChild(copy, events, keywords, isMatch, source, parents).events
            == events + Copies(copy, SyncChild(copy, events, keywords, isMatch, source, parents).mirrored)
    decreases |parents|
  {
    if parents != [] {
      var init := parents[..|parents| - 1];
      var p := parents[|parents| - 1];
      var prev := SyncChild(copy, events, keywords, isMatch, source, init);
      SyncChildShape(copy, events, keywords, isMatch, source, init);
      SyncChildStep(copy, events, keywords, isMatch, source, parents);
      if Eligible(keywords, source, p) {
        var r := MirrorParent(copy, prev.events, isMatch, source == Some(p.entityId), p.events);
        MirrorParentShape(copy, prev.events, isMatch, source == Some(p.entityId), p.events);
        CopiesAppend(copy, prev.mirrored, r.mirrored);
        var a, b := Copies(copy, prev.mirrored), Copies(copy, r.mirrored);
        AppendAssoc(events, a, b);
      }
    }
  }

  /**
   * Where a child's mirrored events come from: each one is an event of an
   * eligible parent, selected for that pair, with a fingerprint the child did
   * not hold before the run.
   */
  lemma {:induction false} SyncChildOrigins(copy: ParentEvent -> Event, events: seq<Event>, keywords: seq<string>, isMatch: string -> bool,
                                            source: Option<string>, parents: seq<ParentView>)
    ensures forall pe :: pe in SyncChild(copy, events, keywords, isMatch, source, parents).mirrored ==>
              pe.fingerprint !in FingerprintSet(events)
              && exists j :: 0 <= j < |parents| && Eligible(keywords, source, parents[j])
                             && pe in parents[j].events && Selected(isMatch, source == Some(parents[j].entityId), pe)
    decreases |parents|
  {
    if parents != [] {
      var init := parents[..|parents| - 1];
      var p := parents[|parents| - 1];
      var prev := SyncChild(copy, events, keywords, isMatch, source, init);
      SyncChildOrigins(copy, events, keywords, isMatch, source, init);
      SyncChildShape(copy, events, keywords, isMatch, source, init);
      SyncChildStep(copy, events, keywords, isMatch, source, parents);
      forall j | 0 <= j < |init| ensures init[j] == parents[j] { }
      if Eligible(keywords, source, p) {
        var copyAll := source == Some(p.entityId);
        var r := MirrorParent(copy, prev.events, isMatch, copyAll, p.events);
        MirrorParentShape(copy, prev.events, isMatch, copyAll, p.events);
        FingerprintSetGrows(events, Copies(copy, prev.mirrored));
        forall pe | pe in prev.mirrored + r.mirrored
          ensures pe.fingerprint !in FingerprintSet(events)
          ensures exists j :: 0 <= j < |parents| && Eligible(keywords, source, parents[j])
                              && pe in parents[j].events && Selected(isMatch, source == Some(parents[j].entityId), pe)
        {
          if pe !in prev.mirrored {
            assert parents[|parents| - 1] == p;
          }
        }
      }
    }
  }

  /** With keyed copies, the fingerprints a child holds after a run are the ones it held before and the mirrored ones. */
  lemma {:induction false} SyncChildHeld(copy: ParentEvent -> Event, events: seq<Event>, keywords: seq<string>, isMatch: string -> bool,
                                         source: Option<string>, parents: seq<ParentView>)
    requires AllKeyedCopies(copy, parents)
    ensures forall h :: h in FingerprintSet(SyncChild(copy, events, keywords, isMatch, source, parents).events) <==>
              h in FingerprintSet(events) || h in Fingerprints(SyncChild(copy, events, keywords, isMatch, source, parents).mirrored)
    decreases |parents|
  {
    if parents != [] {
      var init := parents[..|parents| - 1];
      var p := parents[|parents| - 1];
      forall j | 0 <= j < |init| ensures init[j] == parents[j] { }
      var prev := SyncChild(copy, events, keywords, isMatch, source, init);
      SyncChildHeld(copy, events, keywords, isMatch, source, init);
      SyncChildStep(copy, events, keywords, isMatch, source, parents);
      if Eligible(keywords, source, p) {
        var r := MirrorParent(copy, prev.events, isMatch, source == Some(p.entityId), p.events);
        MirrorParentNoDuplicates(copy, prev.events, isMatch, source == Some(p.entityId), p.events);
        FingerprintsAppend(prev.mirrored, r.mirrored);
      }
    }
  }

  /**
   * No-duplicate guarantee with keyed copies: within one run a child never
   * receives the same fingerprint twice, even when an event is both
   * keyword-matched and copy-all, or listed by two parents.
   */
  lemma {:induction false} SyncChildDistinct(copy: ParentEvent -> Event, events: seq<Event>, keywords: seq<string>, isMatch: string -> bool,
                                             source: Option<string>, parents: seq<ParentView>)
    requires AllKeyedCopies(copy, parents)
    ensures Distinct(Fingerprints(SyncChild(copy, events, keywords, isMatch, source, parents).mirrored))
    decreases |parents|
  {
    if parents != [] {
      var init := parents[..|parents| - 1];
      var p := parents[|parents| - 1];
      forall j | 0 <= j < |init| ensures init[j] == parents[j] { }
      var prev := SyncChild(copy, events, keywords, isMatch, source, init);
      SyncChildDistinct(copy, events, keywords, isMatch, source, init);
      SyncChildStep(copy, events, keywords, isMatch, source, parents);
      if Eligible(keywords, source, p) {
        var copyAll := source == Some(p.entityId);
        var r := MirrorParent(copy, prev.events, isMatch, copyAll, p.events);
        SyncChildHeld(copy, events, keywords, isMatch, source, init);
        MirrorParentNoDuplicates(copy, prev.events, isMatch, copyAll, p.events);
        MirrorParentShape(copy, prev.events, isMatch, copyAll, p.events);
        FingerprintsAppend(prev.mirrored, r.mirrored);
        var fa, fb := Fingerprints(prev.mirrored), Fingerprints(r.mirrored);
        forall x | x in fb ensures x !in fa {
          var b :| 0 <= b < |fb| && fb[b] == x;
          assert r.mirrored[b] in r.mirrored;
        }
        DistinctConcat(fa, fb);
      }
    }
  }

  /** With keyed copies, every selected event of every eligible parent is held by the child after a run. */
  lemma {:induction false} SyncChildComplete(copy: ParentEvent -> Event, events: seq<Event>, keywords: seq<string>, isMatch: string -> bool,
                                             source: Option<string>, parents: seq<ParentView>)
    requires AllKeyedCopies(copy, parents)
    ensures forall j, i :: 0 <= j < |parents| && Eligible(keywords, source, parents[j])
                           && 0 <= i < |parents[j].events|
                           && Selected(isMatch, source == Some(parents[j].entityId), parents[j].events[i]) ==>
              parents[j].events[i].fingerprint in FingerprintSet(SyncChild(copy, events, keywords, isMatch, source, parents).events)
    decreases |parents|
  {
    if parents != [] {
      var init := parents[..|parents| - 1];
      var p := parents[|parents| - 1];
      forall j | 0 <= j < |init| ensures init[j] == parents[j] { }
      var prev := SyncChild(copy, events, keywords, isMatch, source, init);
      SyncChildComplete(copy, events, keywords, isMatch, source, init);
      SyncChildStep(copy, events, keywords, isMatch, source, parents);
      if Eligible(keywords, source, p) {
        MirrorParentNoDuplicates(copy, prev.events, isMatch, source == Some(p.entityId), p.events);
      }
    }
  }

  /** A child that already holds every selected event of every eligible parent receives nothing. */
  lemma {:induction false} SyncChildNothingNew(copy: ParentEvent -> Event, events: seq<Event>, keywords: seq<string>, isMatch: string -> bool,
                                               source: Option<string>, parents: seq<ParentView>)
    requires forall j, i :: 0 <= j < |parents| && Eligible(keywords, source, parents[j])
                            && 0 <= i < |parents[j].events|
                            && Selected(isMatch, source == Some(parents[j].entityId), parents[j].events[i]) ==>
               parents[j].events[i].fingerprint in FingerprintSet(events)
    ensures SyncChild(copy, events, keywords, isMatch, source, parents) == Mirrored(events, [])
    decreases |parents|
  {
    if parents != [] {
      var init := parents[..|parents| - 1];
      var p := parents[|parents| - 1];
      forall j | 0 <= j < |init| ensures init[j] == parents[j] { }
      SyncChildNothingNew(copy, events, keywords, isMatch, source, init);
      if Eligible(keywords, source, p) {
        MirrorParentNothingNew(copy, events, isMatch, source == Some(p.entityId), p.events);
      }
    }
  }

  /** A child without keywords whose copy-all source is none of the parents receives nothing. */
  lemma {:induction false} SyncChildUnselected(copy: ParentEvent -> Event, events: seq<Event>, keywords: seq<string>, isMatch: string -> bool,
                                               source: Option<string>, parents: seq<ParentView>)
    requires keywords == []
    requires forall j :: 0 <= j < |parents| ==> source != Some(parents[j].entityId)
    ensures SyncChild(copy, events, keywords, isMatch, source, parents) == Mirrored(events, [])
    decreases |parents|
  {
    if parents != [] {
      var init := parents[..|parents| - 1];
      forall j | 0 <= j < |init| ensures init[j] == parents[j] { }
      SyncChildUnselected(copy, events, keywords, isMatch, source, init);
    }
  }

  // ---------------------------------------------------------------- the engine's copies

  /**
   * The engine's addition phase for one child, for token-free parent
   * descriptions: no fingerprint is mirrored twice, the held fingerprints
   * grow by exactly the mirrored ones, and a second pass mirrors nothing.
   */
  lemma Idempotent(events: seq<Event>, keywords: seq<string>, source: Option<string>, parents: seq<ParentView>)
    requires AllTokenFree(parents)
    ensures var first := SyncChild(CreateChildEvent, events, keywords, KeywordTest(keywords), source, parents);
            Distinct(Fingerprints(first.mirrored))
            && (forall h :: h in FingerprintSet(first.events) <==> h in FingerprintSet(events) || h in Fingerprints(first.mirrored))
            && SyncChild(CreateChildEvent, first.events, keywords, KeywordTest(keywords), source, parents) == Mirrored(first.events, [])
  {
    TokenFreeCopiesAreKeyed(parents);
    SyncChildHeld(CreateChildEvent, events, keywords, KeywordTest(keywords), source, parents);
    SyncChildDistinct(CreateChildEvent, events, keywords, KeywordTest(keywords), source, parents);
    SyncChildComplete(CreateChildEvent, events, keywords, KeywordTest(keywords), source, parents);
    SyncChildNothingNew(CreateChildEvent, SyncChild(CreateChildEvent, events, keywords, KeywordTest(keywords), source, parents).events,
                        keywords, KeywordTest(keywords), source, parents);
  }

  /**
   * Copy-all override: with token-free descriptions, every event of the
   * copy-all source ends up held by the child, whatever its keywords.
   */
  lemma CopyAllMirrorsEverything(events: seq<Event>, keywords: seq<string>, source: Option<string>,
                                 parents: seq<ParentView>, j: int, i: int)
    requires AllTokenFree(parents)
    requires 0 <= j < |parents| && source == Some(parents[j].entityId) && 0 <= i < |parents[j].events|
    ensures parents[j].events[i].fingerprint in FingerprintSet(SyncChild(CreateChildEvent, events, keywords, KeywordTest(keywords), source, parents).events)
  {
    TokenFreeCopiesAreKeyed(parents);
    SyncChildComplete(CreateChildEvent, events, keywords, KeywordTest(keywords), source, parents);
  }

  // ---------------------------------------------------------------- a parent description with a token

  /** The description of the example below carries the token `abcdefgh`. */
  lemma TokenExample()
    ensures CarriesToken(Some("see [abcdefgh]"))
    ensures ExtractFingerprint(Some("see [abcdefgh]")) == Some("abcdefgh")
  {
    var d := "see [abcdefgh]";
    assert TokenAt(d, 4);
    forall j | 0 <= j < 4 ensures !TokenAt(d, j) {
      assert d[j] != '[';
    }
    ExtractAt(d, 4);
    assert d[5..13] == "abcdefgh";
  }

  /**
   * When the parent's own description already carries a token, the copy is
   * indexed under that token rather than the parent's fingerprint, so a
   * second pass mirrors the same event again.
   */
  lemma TokenInDescriptionMirrorsAgain()
    ensures var pe: ParentEvent := Parent(EventData(Date(0), Date(0), "Match", Some("see [abcdefgh]"), None, None, None, None), "01234567");
            var first := MirrorParent(CreateChildEvent, [], KeywordTest([]), true, [pe]);
            first.mirrored == [pe] && MirrorParent(CreateChildEvent, first.events, KeywordTest([]), true, [pe]).mirrored == [pe]
  {
    var pe: ParentEvent := Parent(EventData(Date(0), Date(0), "Match", Some("see [abcdefgh]"), None, None, None, None), "01234567");
    TokenExample();
    var ce := CreateChildEvent(pe);
    assert ce.HashedValue() == Some("abcdefgh");
    assert [pe][..0] == [];
    assert MirrorParent(CreateChildEvent, [], KeywordTest([]), true, []) == Mirrored([], []);
    assert Selected(KeywordTest([]), true, pe);
    var first := MirrorParent(CreateChildEvent, [], KeywordTest([]), true, [pe]);
    assert first.events == [] + [ce] == [ce];
    assert first.mirrored == [] + [pe] == [pe];
    assert IndexOf([ce]) == map["abcdefgh" := ce] by {
      assert [ce][..0] == [];
    }
    assert MirrorParent(CreateChildEvent, [ce], KeywordTest([]), true, []) == Mirrored([ce], []);
  }
}
