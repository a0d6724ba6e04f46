# Family calendar sync: a verified model of the reconciliation engine

This project models the engine of the Home Assistant integration
`family_calendar_sync`. One reconciliation run does the following:

1. It loads every configured parent and child calendar from the calendar provider.
2. It computes the fingerprints that some child holds and no parent holds any more.
3. It deletes each such fingerprint from every child that holds it.
4. It mirrors into each child the parent events the child selects, either by keyword or through its copy-all source, when the child does not already hold them.

A parent event's fingerprint is the first eight hex characters of a digest of its record. The mirrored copy carries that fingerprint as a bracketed token `[xxxxxxxx]` in its description. That token is how a later run recognises the copy.

The model is in Dafny, one module per layer of the engine:

| file | module | what it holds |
|---|---|---|
| `wrappers.dfy` | `Wrappers` | `Option`, `Outcome` |
| `sequences.dfy` | `Sequences` | filtering, subsequences, distinctness |
| `event_identity.dfy` | `EventIdentity` | records, parent fingerprints, token extraction, the two embedding formats, the create payload, the local child copy |
| `keywords.dfy` | `Keywords` | the whole-word, case-insensitive keyword search |
| `provider.dfy` | `CalendarProvider` | the provider: the records each entity returns, and a log of the create and delete calls |
| `calendars.dfy` | `Calendars` | `ParentCalendar` and `ChildCalendar` as classes with an event list and an index, loading, the ignore filter, add and delete |
| `mirroring.dfy` | `Mirroring` | the addition phase as functions of a child's event list (`MirrorParent`, `SyncChild`) and the properties proved about them |
| `sync_worker.dfy` | `Sync` | `SyncWorker` as a class: setup, the removal phase, the addition phase, `sync_family_calendar` |
| `idempotence.dfy` | `Idempotence` | what a second run would delete and create, given the events the provider keeps after the first run |

The calendars and the worker are classes whose methods update their fields in place, as the source does. The imperative parts have the same shapes as the source:

- Loading is a loop that appends wrapped records.
- The index is built by a loop over the list.
- Setup has the parent loop and the child loop.
- The removal phase loops over the children.
- The addition phase has the child, parent and event loops.

Each loop body that needs its own frame is a small method: `SetupParent`, `SetupChild`, `MirrorEvent` and `SyncChildAt`. The construction and loading of one calendar is `LoadParent` or `LoadChild`, which touch no calendar that already exists. Each loop is proved against a function of the inputs or of the old state:

- `ChildCalendar.events` against `ChildEventsOf`;
- the index against `IndexOf`;
- a child after the addition phase against `SyncChild`;
- the provider log against `RemovalLog` and `CreationLog`.

The properties are lemmas about those functions. `async_sync_calendars` is split into its two phases, `RemoveStaleEvents` and `AddMissingEvents`.

Choices where the code is easy to misread. The model follows the code in each case:

- **Two embedding formats.** The description sent to the provider appends `" \n[" + h + "]"`; the local child copy appends `" [" + h + "]"`. With no description, both are `"[" + h + "]"`. Both round trips are proved.
- **The description setter has no effect.** The setter `create_child_event` uses writes a field no getter reads. So the local copy's description is the one `get_data_for_child_event` builds.
- **Location.** The payload carries the location whenever it is not `None`. The local copy keeps it only when it is a non-empty string.
- **Deletion leaves local state unchanged.** The local list and index are not changed by deletion; only delete calls are issued. So after the removal phase the children still list the deleted events. The addition phase then sees them as held.
- **One deletion per fingerprint.** A stale fingerprint is deleted through the event the index keeps for it, which is the last event carrying it. A child holding two events with the same stale token loses one per run (`Idempotence.DuplicateTokenSurvives`), so the no-deletions half of idempotence assumes each child carries each token at most once.
- **A token already in a parent description.** If a parent's own description already carries a bracketed token, that earlier token wins when the copy is read back. The copy is then indexed under the wrong fingerprint, and a second pass mirrors the event again (`TokenInDescriptionMirrorsAgain`). The round-trip, no-duplicate and idempotence lemmas therefore assume token-free parent descriptions (`AllTokenFree`). Without that assumption, the model states what the engine does.
- **`DEFAULT_DAYS_TO_SYNC` and `HASH_LENGTH`.** The integration's constants file is not part of this model. `HASH_LENGTH` is 8, agreeing with the `{8}` of the token pattern. `DEFAULT_DAYS_TO_SYNC` is 7, the default the configuration schema gives `days_to_sync` (`custom_components/family_calendar_sync/__init__.py:19`).

## Model

| member | source | states |
|---|---|---|
| EventIdentity.ParentFingerprint | custom_components/family_calendar_sync/calendar_sync.py:215-219 | the fingerprint is HASH_LENGTH lowercase hex characters, a prefix of the record's digest |
| EventIdentity.ExtractFingerprint | custom_components/family_calendar_sync/calendar_sync.py:192-198 | no fingerprint exactly when the description is absent or has no `[` + 8 token characters + `]`; otherwise the 8 inner characters of the leftmost such token |
| EventIdentity.ExtractFromAppended | custom_components/family_calendar_sync/calendar_sync.py:196-197 | after appending `sep + "[" + h + "]"` the extracted fingerprint is the description's own first token if it has one, else `h` |
| EventIdentity.ChildDescriptionRoundTrip | custom_components/family_calendar_sync/calendar_sync.py:227-233 | the local copy's description gives back the parent's fingerprint, unless the original description already carried a token, which then wins |
| EventIdentity.HashedDescriptionRoundTrip | custom_components/family_calendar_sync/calendar_sync.py:61-73 | the same round trip for the description sent to the provider |
| EventIdentity.CreateEventPayload | custom_components/family_calendar_sync/calendar_sync.py:75-91 | all-day events carry start/end dates and no date-times, other events the reverse; summary is the title; location present iff not None; the description reads back as the parent's fingerprint when token-free |
| EventIdentity.DataForChildEvent | custom_components/family_calendar_sync/calendar_sync.py:221-238 | start, end and title copied; location kept iff a non-empty string; no uid, rrule or recurrence id; the description always present and reading back as the parent's fingerprint when token-free |
| EventIdentity.CreateChildEvent | custom_components/family_calendar_sync/calendar_sync.py:204-213 | the local copy is a child event on that data whose fingerprint is always present: the parent's, or the earlier token its description carried |
| Keywords.KeywordMatch | custom_components/family_calendar_sync/calendar_sync.py:409-413 | false with no keywords; otherwise true iff some keyword occurs case-insensitively as a whole word of the title |
| Keywords.SoccerPracticeMatches | custom_components/family_calendar_sync/calendar_sync.py:398-400 | `soccer` selects "Soccer Practice" |
| Keywords.SoccerishDoesNotMatch | custom_components/family_calendar_sync/calendar_sync.py:398-400 | `soccer` does not select "soccerish" |
| Keywords.BasketballDoesNotMatch | custom_components/family_calendar_sync/calendar_sync.py:398-400 | `soccer` does not select "Basketball" |
| CalendarProvider.Provider.CreateEvent | custom_components/family_calendar_sync/calendar_sync.py:440-445 | one create call is appended to the log |
| CalendarProvider.Provider.DeleteEvent | custom_components/family_calendar_sync/calendar_sync.py:418 | one delete call is appended to the log |
| Calendars.IndexKeys | custom_components/family_calendar_sync/calendar_sync.py:330-335 | the index's keys are exactly the fingerprints of the events |
| Calendars.IndexValues | custom_components/family_calendar_sync/calendar_sync.py:330-335 | each key maps to an event of the list that carries that key, so hand-made events are never indexed |
| Calendars.IndexLastWins | custom_components/family_calendar_sync/calendar_sync.py:330-335 | a key maps to the last event in list order that carries it |
| Calendars.IndexOverridesPrefix | custom_components/family_calendar_sync/calendar_sync.py:323-327 | indexing the longer list after appending overrides every key of the earlier index |
| Calendars.BuildIndex | custom_components/family_calendar_sync/calendar_sync.py:330-335 | the loop inserts every fingerprinted event in order: the result is the old index overridden by `IndexOf(events)` |
| Calendars.ParentEventsOf | custom_components/family_calendar_sync/calendar_sync.py:317-323 | one parent event per record, in provider order |
| Calendars.ChildEventsOf | custom_components/family_calendar_sync/calendar_sync.py:317-323 | one child event per record, in provider order |
| Calendars.RemoveIgnoredExact | custom_components/family_calendar_sync/calendar_sync.py:370-377 | `None` or "" changes nothing; otherwise exactly the events whose title starts with the string are dropped (by multiset count), and the rest keep their order (subsequence) |
| Calendars.RemoveIgnoredAppend | custom_components/family_calendar_sync/calendar_sync.py:325-326 | filtering after an append only filters the appended part, and leaves no ignored event |
| Calendars.ParentCalendar.constructor | custom_components/family_calendar_sync/calendar_sync.py:349-363 | an empty parent calendar with its entity id and ignore string |
| Calendars.ParentCalendar.Setup | custom_components/family_calendar_sync/calendar_sync.py:262-267 | a resolved entity appends its filtered records and keeps the index in step; an unresolved one changes nothing |
| Calendars.ParentCalendar.LoadEvents | custom_components/family_calendar_sync/calendar_sync.py:307-328 | the list becomes the filtered old list plus the records, and the index is updated from it |
| Calendars.ParentCalendar.RemoveEventsToIgnore | custom_components/family_calendar_sync/calendar_sync.py:370-377 | the list becomes `RemoveIgnored` of the old list |
| Calendars.ParentCalendar.CreateHashMap | custom_components/family_calendar_sync/calendar_sync.py:330-335 | the index is the old one overridden by the list's index |
| Calendars.DeleteOps | custom_components/family_calendar_sync/calendar_sync.py:415-418 | one delete call per fingerprint, with the uid of the indexed event |
| Calendars.EnumerateSet | custom_components/family_calendar_sync/calendar_sync.py:424 | every member of the set once, in an order the model leaves open |
| Calendars.ChildCalendar.constructor | custom_components/family_calendar_sync/calendar_sync.py:383-402 | an empty child calendar with its entity id and keywords |
| Calendars.ChildCalendar.Setup | custom_components/family_calendar_sync/calendar_sync.py:262-267 | a resolved entity appends its wrapped records, and the index stays the list's index |
| Calendars.ChildCalendar.LoadEvents | custom_components/family_calendar_sync/calendar_sync.py:307-328 | the list grows by the wrapped records, and the index is updated from it |
| Calendars.ChildCalendar.CreateHashMap | custom_components/family_calendar_sync/calendar_sync.py:330-335 | the index is the old one overridden by the list's index |
| Calendars.ChildCalendar.GetEventWithHash | custom_components/family_calendar_sync/calendar_sync.py:337-339 | an event is found iff the list carries the fingerprint, and the one found is such an event of the list |
| Calendars.ChildCalendar.IsEventInCalendarWithHash | custom_components/family_calendar_sync/calendar_sync.py:341-343 | true iff the list carries the fingerprint |
| Calendars.ChildCalendar.OverlappingHashes | custom_components/family_calendar_sync/calendar_sync.py:463-469 | every occurrence of a given fingerprint that the index holds, in the given order, with its multiplicity; the others dropped |
| Calendars.ChildCalendar.DeleteByHash | custom_components/family_calendar_sync/calendar_sync.py:415-418 | one delete call with the uid of the indexed event |
| Calendars.ChildCalendar.DeleteEventFromHa | custom_components/family_calendar_sync/calendar_sync.py:420-430 | a set deletes each held member once; a string deletes it iff held; anything else is a TypeError with no calls; the log grows by exactly those delete calls |
| Calendars.ChildCalendar.AddEventToHa | custom_components/family_calendar_sync/calendar_sync.py:432-446 | one create call with the payload and the child's entity id |
| Calendars.ChildCalendar.AddEvent | custom_components/family_calendar_sync/calendar_sync.py:448-453 | the create call, then the local copy appended to the list and inserted into the index; the index stays the list's index |
| Mirroring.TokenFreeCopiesAreKeyed | custom_components/family_calendar_sync/calendar_sync.py:204-213 | with token-free descriptions every local copy is indexed under its parent's fingerprint |
| Mirroring.MirrorParentAppends | custom_components/family_calendar_sync/calendar_sync.py:574-583 | one parent's pass appends exactly the copies of the mirrored events |
| Mirroring.MirrorParentPicks | custom_components/family_calendar_sync/calendar_sync.py:574-583 | each mirrored event is a selected event of that parent whose fingerprint the child did not hold |
| Mirroring.MirrorParentNoDuplicates | custom_components/family_calendar_sync/calendar_sync.py:580-583 | with keyed copies: held fingerprints grow by exactly the mirrored ones, none is mirrored twice, and every selected event ends up held |
| Mirroring.MirrorParentNothingNew | custom_components/family_calendar_sync/calendar_sync.py:580-583 | a parent whose selected events are all held mirrors nothing |
| Mirroring.SyncChildShape | custom_components/family_calendar_sync/calendar_sync.py:596-605 | a child's list grows by exactly the copies of the events it mirrored |
| Mirroring.SyncChildOrigins | custom_components/family_calendar_sync/calendar_sync.py:596-605 | each mirrored event belongs to an eligible parent, is selected for that pair, and was not held before the run |
| Mirroring.SyncChildHeld | custom_components/family_calendar_sync/calendar_sync.py:596-605 | with keyed copies: the fingerprints held after the run are those held before plus the mirrored ones |
| Mirroring.SyncChildDistinct | custom_components/family_calendar_sync/calendar_sync.py:448-453 | with keyed copies no fingerprint is mirrored twice into a child in one run, across parents and selection paths |
| Mirroring.SyncChildComplete | custom_components/family_calendar_sync/calendar_sync.py:596-605 | with keyed copies every selected event of every eligible parent is held after the run |
| Mirroring.SyncChildNothingNew | custom_components/family_calendar_sync/calendar_sync.py:596-605 | a child that already holds every selected event receives nothing |
| Mirroring.SyncChildUnselected | custom_components/family_calendar_sync/calendar_sync.py:604 | a child with no keywords and no matching copy-all source receives nothing |
| Mirroring.Idempotent | custom_components/family_calendar_sync/calendar_sync.py:596-605 | with token-free descriptions: no duplicate mirrors, held = before + mirrored, and a second pass over the list the first pass produced mirrors nothing |
| Mirroring.CopyAllMirrorsEverything | custom_components/family_calendar_sync/calendar_sync.py:571-578 | with token-free descriptions every event of the copy-all source is held afterwards, whatever the keywords |
| Mirroring.TokenExample | custom_components/family_calendar_sync/calendar_sync.py:196-197 | `"see [abcdefgh]"` carries the token `abcdefgh` |
| Mirroring.TokenInDescriptionMirrorsAgain | custom_components/family_calendar_sync/calendar_sync.py:227-230 | a parent whose description already carries a token is mirrored again by a second pass |
| Sync.CopyAllMapKeys | custom_components/family_calendar_sync/calendar_sync.py:535-538 | a child has a copy-all source iff one of its entries names one |
| Sync.CopyAllMapLastWins | custom_components/family_calendar_sync/calendar_sync.py:535-538 | the recorded source is the one named by the child's last entry with `copy_all_from` |
| Sync.RemovalSparesLive | custom_components/family_calendar_sync/calendar_sync.py:588-593 | every fingerprint a child deletes is held by no parent, and the event deleted for it is one of the child's own events carrying it, never a hand-made one |
| Idempotence.SurvivorsAreLive | custom_components/family_calendar_sync/calendar_sync.py:415-418 | for a child carrying each token at most once, the events left once the indexed event of every deleted fingerprint is gone, plus any events keyed by parent fingerprints, carry only fingerprints some parent holds |
| Idempotence.SecondRunRemovesNothing | custom_components/family_calendar_sync/calendar_sync.py:585-605 | with token-free parents and a child carrying each token at most once, the child after one full run (removal survivors plus the copies mirrored) holds only parent fingerprints, so a second run's stale set for it is empty |
| Idempotence.LiveStaysHeld | custom_components/family_calendar_sync/calendar_sync.py:415-418 | a fingerprint some parent holds that the child (or the added events) carried before removal is still carried after it |
| Idempotence.SecondRunCreatesNothing | custom_components/family_calendar_sync/calendar_sync.py:585-605 | with token-free parents, on the list a second run would load (removal survivors plus the copies mirrored) the addition phase mirrors nothing |
| Idempotence.DuplicateTokenSurvives | custom_components/family_calendar_sync/calendar_sync.py:415-418 | a concrete child with two events carrying the same stale token keeps one of them after removal, so the at-most-once condition above is needed |
| Sync.SyncWorker.constructor | custom_components/family_calendar_sync/calendar_sync.py:475-496 | days to sync and the ignore prefix read from the options, with their defaults; no calendars and an empty copy-all map |
| Sync.LoadParent | custom_components/family_calendar_sync/calendar_sync.py:524-530 | a fresh, valid parent calendar for the entry, holding exactly the filtered records its entity returns |
| Sync.LoadChild | custom_components/family_calendar_sync/calendar_sync.py:539-547 | a fresh, valid child calendar with the entry's entity and keywords, holding exactly the wrapped records its entity returns |
| Sync.SyncWorker.SetupParent | custom_components/family_calendar_sync/calendar_sync.py:523-531 | one new parent calendar, loaded, appended |
| Sync.SyncWorker.SetupParents | custom_components/family_calendar_sync/calendar_sync.py:521-531 | one new loaded parent calendar per parent entry, in order, after the existing ones |
| Sync.SyncWorker.SetupChild | custom_components/family_calendar_sync/calendar_sync.py:535-548 | the entry's copy-all source is recorded, then one new loaded child calendar is appended; children stay valid and distinct |
| Sync.SyncWorker.SetupChildren | custom_components/family_calendar_sync/calendar_sync.py:533-548 | one new loaded child calendar per child entry, in order; the copy-all map grows by `CopyAllMap` of the entries |
| Sync.SyncWorker.Setup | custom_components/family_calendar_sync/calendar_sync.py:518-555 | both loops, and `misconfigured` iff there are no parent or no child calendars |
| Sync.SyncWorker.SetOfHashesByCalType | custom_components/family_calendar_sync/calendar_sync.py:557-561 | the union of the hash sets of all calendars of the type |
| Sync.SyncWorker.RemoveEventsFromChildCals | custom_components/family_calendar_sync/calendar_sync.py:563-566 | each child deletes, once each, exactly the given fingerprints it holds; the log grows by those deletes, child by child |
| Sync.SyncWorker.MirrorEvent | custom_components/family_calendar_sync/calendar_sync.py:575-583 | a selected event whose fingerprint the child lacks is created and appended; otherwise nothing changes |
| Sync.SyncWorker.SyncParentToChild | custom_components/family_calendar_sync/calendar_sync.py:568-583 | the child's list becomes `MirrorParent`'s, and the log grows by one create call per mirrored event |
| Sync.SyncWorker.SyncChildCalendar | custom_components/family_calendar_sync/calendar_sync.py:598-605 | the child ends as `SyncChild` describes for its list and all parents; the parents are unchanged; one create call per mirrored event |
| Sync.SyncWorker.RemoveStaleEvents | custom_components/family_calendar_sync/calendar_sync.py:587-593 | `needRemoved` is the child fingerprints minus the parent fingerprints, computed before any change; each child deletes exactly the ones it holds; no calendar changes |
| Sync.SyncWorker.AddMissingEvents | custom_components/family_calendar_sync/calendar_sync.py:596-605 | each child, in order, ends as `SyncChild` describes for its starting list and the parents; the log grows by the children's create calls in order |
| Sync.SyncWorker.SyncChildAt | custom_components/family_calendar_sync/calendar_sync.py:596-605 | child `k` is brought up to date, and the other children are untouched |
| Sync.SyncWorker.SyncCalendars | custom_components/family_calendar_sync/calendar_sync.py:585-605 | the removal phase on the snapshot before the run, then the addition phase; the log is all the deletes followed by all the creates |
| Sync.NewWorker | custom_components/family_calendar_sync/calendar_sync.py:610-611 | a fresh worker holding one loaded calendar per configured entry, with the copy-all map of the entries |
| Sync.LoadedSnapshot | custom_components/family_calendar_sync/calendar_sync.py:518-548 | the loaded parents and child lists as values, entry by entry |
| Sync.SyncFamilyCalendar | custom_components/family_calendar_sync/calendar_sync.py:608-612 | `misconfigured` iff a list of the configuration is empty; each child ends with `SyncChild` of its loaded records, its keywords, its copy-all source and the loaded parents |

## Left out

- The provider is a value: each resolving entity's records for the sync window, plus a log of calls. Asynchronous calls, the Home Assistant service bus and entity lookup are not modelled. Provider errors are left out too: every call is taken to return, in order.
- Mirroring.Idempotent: states on the list the first pass produced, not on a second run against the provider, because create and delete calls are recorded in the log and do not change the records the provider returns. A second run is stated on the list the provider would hold (the survivors of removal plus the local copies of what was created, standing in for the records the provider would store): `Idempotence.SecondRunCreatesNothing` and `Idempotence.SecondRunRemovesNothing`; the latter needs each child to carry each token at most once, because deletion removes only the event the index keeps for a fingerprint (`Idempotence.DuplicateTokenSurvives`).
- The digest (`sha256` of the record's `repr`) is a parameter `hasher` that returns 64 lowercase hex characters. Determinism is given by its being a function. Collision resistance is not modelled.
- The sync window is not applied: `SyncDateRange`, the clock and local-time conversion are left out. The worker reads `days_to_sync` but the provider is asked for nothing.
- Logging is left out. The error logged for a misconfiguration is returned as `misconfigured`. The error for an unresolved entity is the "unresolved" branch of `Setup`. The error after `async_add_event` cannot happen, because the index has just been given that key.
- Regular expressions are modelled as string predicates. Token characters follow Python's case-insensitive Unicode matching of `[a-z0-9]`. Keywords are matched as literal text, with ASCII word characters and ASCII case folding; regex metacharacters inside keywords are not modelled.
- Configuration shape: `copy_all_from` is the entity id it holds, so an empty dictionary there, or one without `entity_id`, is not modelled. `options` that are absent or empty are `None`. The `TypeError` for a record that is not a dictionary cannot arise with typed records.
- Titles are always strings, so the failure of the ignore filter on an event without a title is not modelled.
- `Sync.SyncWorker.SyncCalendars`: states `ChildrenValid()` afterwards, not the parents' invariant. The parent calendars are outside its `modifies` clause and so unchanged.
- `Sync.SyncFamilyCalendar`: states the children's final event lists and the loaded parents, not the provider log; `Sync.SyncWorker.SyncCalendars` states the log.
- `Calendars.ChildCalendar.DeleteEventFromHa`: the order in which a set is iterated is left open. The order of the delete calls is returned, not fixed.
- The properties `config`, `calendars`, `num_of_parent_calendars` and `num_of_child_calendars` are the worker's fields and sequence lengths.
- `__init__.py` (configuration schema and service registration) is not part of this model.
