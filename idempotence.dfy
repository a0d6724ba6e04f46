/**
 * Idempotence of a reconciliation run: what a second run would delete and
 * create, given the events the provider keeps after the first run's delete
 * and create calls.
 */
module Idempotence {
  import opened Wrappers
  import opened Sequences
  import opened EventIdentity
  import opened Calendars
  import opened Mirroring
  import opened Sync

  /** No token is carried by two events of the list. */
  ghost predicate UniqueTokens(events: seq<Event>) {
    forall i, j :: 0 <= i < j < |events| && events[i].HashedValue().Some? ==> events[j].HashedValue() != events[i].HashedValue()
  }

  /**
   * The child's events once the provider has removed what the delete calls
   * for `d` name: for each fingerprint, the event the index keeps for it.
   */
  ghost function Surviving(events: seq<Event>, d: seq<string>): seq<Event>
    requires Within(d, IndexOf(events))
  {
    var gone := Gone(events, d);
    Filter(events, e => e !in gone)
  }

  /** The events the delete calls for `d` name. */
  ghost function Gone(events: seq<Event>, d: seq<string>): (r: set<Event>)
    requires Within(d, IndexOf(events))
    ensures forall h :: h in d ==> IndexOf(events)[h] in r
    ensures forall x :: x in r ==> x.HashedValue().Some? && x.HashedValue().value in d
  {
    IndexValues(events);
    set h | h in d :: IndexOf(events)[h]
  }

  /**
   * A second removal phase finds nothing to delete: when the child carries
   * each token at most once, every event left after the first removal, and
   * every event added since whose fingerprint a parent holds, carries a
   * fingerprint some parent holds.
   */
  lemma SurvivorsAreLive(events: seq<Event>, d: seq<string>, childHashes: set<string>, parentHashes: set<string>,
                         added: seq<Event>)
    requires DeletedFrom(d, childHashes - parentHashes, IndexOf(events))
    requires FingerprintSet(events) <= childHashes && UniqueTokens(events)
    requires FingerprintSet(added) <= parentHashes
    ensures FingerprintSet(Surviving(events, d) + added) <= parentHashes
  {
    var gone := Gone(events, d);
    var keep := (e: Event) => e !in gone;
    var s := Filter(events, keep);
    IndexKeys(events);
    forall h | h in FingerprintSet(s + added) ensures h in parentHashes {
      var i :| 0 <= i < |s + added| && (s + added)[i].HashedValue() == Some(h);
      if i < |s| {
        var e := s[i];
        assert (s + added)[i] == e;
        FilterMembership(events, keep, e);
        var a :| 0 <= a < |events| && events[a] == e;
        IndexLastWins(events, a);
        assert h in FingerprintSet(events);
      } else {
        assert added[i - |s|] == (s + added)[i];
      }
    }
  }

  /**
   * Idempotence of removal: for token-free parents and a child that carries
   * each token at most once, the child's events after one full run (the
   * survivors of removal plus the copies of what was mirrored) carry only
   * fingerprints the parents hold, so a second run deletes nothing.
   */
  lemma SecondRunRemovesNothing(events: seq<Event>, d: seq<string>, childHashes: set<string>, parentHashes: set<string>,
                                keywords: seq<string>, source: Option<string>, parents: seq<ParentView>)
    requires AllTokenFree(parents)
    requires forall j, i :: 0 <= j < |parents| && 0 <= i < |parents[j].events| ==> parents[j].events[i].fingerprint in parentHashes
    requires DeletedFrom(d, childHashes - parentHashes, IndexOf(events))
    requires FingerprintSet(events) <= childHashes && UniqueTokens(events)
    ensures var first := SyncChild(CreateChildEvent, events, keywords, KeywordTest(keywords), source, parents);
            FingerprintSet(Surviving(events, d) + Copies(CreateChildEvent, first.mirrored)) <= parentHashes
  {
    var m := SyncChild(CreateChildEvent, events, keywords, KeywordTest(keywords), source, parents).mirrored;
    var added := Copies(CreateChildEvent, m);
    TokenFreeCopiesAreKeyed(parents);
    SyncChildOrigins(CreateChildEvent, events, keywords, KeywordTest(keywords), source, parents);
    forall h | h in FingerprintSet(added) ensures h in parentHashes {
      var k :| 0 <= k < |added| && added[k].HashedValue() == Some(h);
      assert m[k] in m;
      var j :| 0 <= j < |parents| && m[k] in parents[j].events;
      var i :| 0 <= i < |parents[j].events| && parents[j].events[i] == m[k];
      assert KeyedCopies(CreateChildEvent, parents[j].events);
    }
    SurvivorsAreLive(events, d, childHashes, parentHashes, added);
  }

  /**
   * Without `UniqueTokens` a second run deletes again: of two child events
   * carrying the same stale token only the indexed (later) one is deleted,
   * and the earlier one still carries the token.
   */
  lemma DuplicateTokenSurvives()
    ensures var a := Child(EventData(Date(0), Date(0), "", None, None, Some("a"), None, None), Some("deadbeef"));
            var b := Child(EventData(Date(0), Date(0), "", None, None, Some("b"), None, None), Some("deadbeef"));
            DeletedFrom(["deadbeef"], FingerprintSet([a, b]) - {}, IndexOf([a, b]))
            && "deadbeef" in FingerprintSet(Surviving([a, b], ["deadbeef"]))
  {
    var a := Child(EventData(Date(0), Date(0), "", None, None, Some("a"), None, None), Some("deadbeef"));
    var b := Child(EventData(Date(0), Date(0), "", None, None, Some("b"), None, None), Some("deadbeef"));
    assert a != b by {
      assert a.data.uid != b.data.uid;
    }
    assert [a][..0] == [];
    assert IndexOf([a]) == map["deadbeef" := a];
    assert [a, b][..1] == [a];
    assert IndexOf([a, b]) == map["deadbeef" := b];
    assert FingerprintSet([a, b]) == {"deadbeef"} by {
      assert [a, b][0] == a;
    }
    var gone := Gone([a, b], ["deadbeef"]);
    assert gone == {b} by {
      assert "deadbeef" in ["deadbeef"];
      forall x | x in gone ensures x == b {
        var h :| h in ["deadbeef"] && x == IndexOf([a, b])[h];
        assert h == "deadbeef";
      }
    }
    var keep := (e: Event) => e !in gone;
    assert [b][1..] == [];
    assert Filter([b], keep) == [];
    assert [a, b][1..] == [b];
    assert Filter([a, b], keep) == [a];
    assert [a][0] == a;
  }

  /** A fingerprint some parent holds, carried before removal, is still carried after it. */
  lemma LiveStaysHeld(events: seq<Event>, d: seq<string>, childHashes: set<string>, parentHashes: set<string>,
                      added: seq<Event>, f: string)
    requires DeletedFrom(d, childHashes - parentHashes, IndexOf(events))
    requires f in parentHashes && f in FingerprintSet(events + added)
    ensures f in FingerprintSet(Surviving(events, d) + added)
  {
    var gone := Gone(events, d);
    var keep := (e: Event) => e !in gone;
    var surv := Filter(events, keep);
    var k :| 0 <= k < |events + added| && (events + added)[k].HashedValue() == Some(f);
    if k < |events| {
      var e := events[k];
      assert (events + added)[k] == e;
      assert e !in gone;
      FilterMembership(events, keep, e);
      var b :| 0 <= b < |surv| && surv[b] == e;
      assert (surv + added)[b] == e;
    } else {
      assert (events + added)[k] == added[k - |events|];
      assert (surv + added)[|surv| + (k - |events|)] == added[k - |events|];
    }
  }

  /**
   * Idempotence of addition: on the list a second run would load (the
   * survivors of removal plus the copies of what was mirrored), a second
   * addition phase mirrors nothing, for token-free parents.
   */
  lemma SecondRunCreatesNothing(events: seq<Event>, d: seq<string>, childHashes: set<string>, parentHashes: set<string>,
                                keywords: seq<string>, source: Option<string>, parents: seq<ParentView>)
    requires AllTokenFree(parents)
    requires forall j, i :: 0 <= j < |parents| && 0 <= i < |parents[j].events| ==> parents[j].events[i].fingerprint in parentHashes
    requires DeletedFrom(d, childHashes - parentHashes, IndexOf(events))
    ensures var first := SyncChild(CreateChildEvent, events, keywords, KeywordTest(keywords), source, parents);
            var next := Surviving(events, d) + Copies(CreateChildEvent, first.mirrored);
            SyncChild(CreateChildEvent, next, keywords, KeywordTest(keywords), source, parents) == Mirrored(next, [])
  {
    var isMatch := KeywordTest(keywords);
    var first := SyncChild(CreateChildEvent, events, keywords, isMatch, source, parents);
    var added := Copies(CreateChildEvent, first.mirrored);
    var next := Surviving(events, d) + added;
    TokenFreeCopiesAreKeyed(parents);
    SyncChildShape(CreateChildEvent, events, keywords, isMatch, source, parents);
    SyncChildComplete(CreateChildEvent, events, keywords, isMatch, source, parents);
    forall j, i | 0 <= j < |parents| && Eligible(keywords, source, parents[j]) && 0 <= i < |parents[j].events|
                  && Selected(isMatch, source == Some(parents[j].entityId), parents[j].events[i])
      ensures parents[j].events[i].fingerprint in FingerprintSet(next)
    {
      LiveStaysHeld(events, d, childHashes, parentHashes, added, parents[j].events[i].fingerprint);
    }
    SyncChildNothingNew(CreateChildEvent, next, keywords, isMatch, source, parents);
  }
}
