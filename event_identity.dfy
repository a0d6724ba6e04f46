/**
 * Event identity: how a parent event is fingerprinted, how the fingerprint is
 * embedded in the mirrored copy's description, and how a child event's
 * fingerprint is recovered from its description (calendar_sync.py, classes
 * Event, ChildEvent and ParentEvent).
 */
module EventIdentity {
  import opened Wrappers

  /** HASH_LENGTH of the integration's constants: characters of the digest kept as fingerprint. */
  const HASH_LENGTH: nat := 8
  /** The width hard-coded as `{8}` in HASH_REGEX. */
  const TOKEN_WIDTH: nat := 8
  /** Length of a SHA-256 hex digest. */
  const DIGEST_LENGTH: nat := 64

  predicate IsLowerHexChar(c: char) {
    '0' <= c <= '9' || 'a' <= c <= 'f'
  }

  predicate IsLowerHex(s: string) {
    forall k :: 0 <= k < |s| ==> IsLowerHexChar(s[k])
  }

  /** What `sha256(...).hexdigest()` returns. */
  type HexDigest = s: string | |s| == DIGEST_LENGTH && IsLowerHex(s) witness seq(DIGEST_LENGTH, _ => '0')

  /** A parent fingerprint: HASH_LENGTH lowercase hex characters. */
  predicate IsFingerprint(h: string) {
    |h| == HASH_LENGTH && IsLowerHex(h)
  }

  /** A start or end value: a date (all-day event) or a date-time. */
  datatype Moment = Date(day: int) | DateTime(day: int, second: int)

  /**
   * The raw record of one event, as `asdict` of the provider's event: an absent
   * key or a `None` value is `None` here.
   */
  datatype EventData = EventData(
    start: Moment,
    end: Moment,
    summary: string,
    description: Option<string>,
    location: Option<string>,
    uid: Option<string>,
    rrule: Option<string>,
    recurrenceId: Option<string>)

  /**
   * An event as wrapped by a calendar: a parent event carries the fingerprint
   * computed from its data, a child event the token found in its description
   * (None for an event made by hand).
   */
  datatype Event = Parent(data: EventData, fingerprint: string) | Child(data: EventData, token: Option<string>)
  {
    /** `Event.hashed_value`. */
    function HashedValue(): Option<string> {
      match this
      case Parent(_, h) => Some(h)
      case Child(_, t) => t
    }
  }

  type ParentEvent = e: Event | e.Parent? && IsFingerprint(e.fingerprint)
    witness Parent(EventData(Date(0), Date(0), "", None, None, None, None, None), "00000000")

  /** `Event.is_all_day`: the start is not a datetime. */
  predicate IsAllDay(d: EventData) {
    d.start.Date?
  }

  // ---------------------------------------------------------------- parents

  /** `ParentEvent._set_hashed_value`: the first HASH_LENGTH characters of the record's digest. */
  function ParentFingerprint(hasher: EventData -> HexDigest, data: EventData): (h: string)
    ensures IsFingerprint(h)
    ensures |h| == HASH_LENGTH && h <= hasher(data)
  {
    hasher(data)[..HASH_LENGTH]
  }

  /** `ParentEvent(data)`. */
  function MakeParentEvent(hasher: EventData -> HexDigest, data: EventData): (e: ParentEvent)
  {
    Parent(data, ParentFingerprint(hasher, data))
  }

  // ---------------------------------------------------------------- tokens

  /**
   * The character class `[a-z0-9]` under IGNORECASE: Python's Unicode matching
   * adds the upper-case letters and the four letters that case-fold into a-z.
   */
  predicate IsTokenChar(c: char) {
    'a' <= c <= 'z' || 'A' <= c <= 'Z' || '0' <= c <= '9'
    || c == '\U{0130}' || c == '\U{0131}' || c == '\U{017F}' || c == '\U{212A}'
  }

  /** HASH_REGEX matches at position `i` of `s`. */
  predicate TokenAt(s: string, i: int) {
    0 <= i && i + TOKEN_WIDTH + 2 <= |s|
    && s[i] == '[' && s[i + TOKEN_WIDTH + 1] == ']'
    && forall k :: i + 1 <= k <= i + TOKEN_WIDTH ==> IsTokenChar(s[k])
  }

  ghost predicate HasToken(s: string) {
    exists i :: TokenAt(s, i)
  }

  /** `i` is where `HASH_REGEX.search(s)` finds its (leftmost) match. */
  ghost predicate FirstTokenAt(s: string, i: int) {
    TokenAt(s, i) && forall j :: 0 <= j < i ==> !TokenAt(s, j)
  }

  /** The leftmost match at or after `from`, as `re.search` scans. */
  function FirstTokenFrom(s: string, from: nat): (r: Option<nat>)
    ensures r.Some? ==> from <= r.value && TokenAt(s, r.value)
    ensures r.Some? ==> forall j :: from <= j < r.value ==> !TokenAt(s, j)
    ensures r.None? ==> forall j :: from <= j ==> !TokenAt(s, j)
    decreases |s| - from
  {
    if from + TOKEN_WIDTH + 2 > |s| then None
    else if TokenAt(s, from) then Some(from)
    else FirstTokenFrom(s, from + 1)
  }

  /**
   * `ChildEvent._set_hashed_value`: the 8 inner characters of the first
   * bracketed token of the description; None when the description is absent,
   * empty or carries no token.
   */
  function ExtractFingerprint(description: Option<string>): (r: Option<string>)
    ensures r.None? <==> description.None? || !HasToken(description.value)
    ensures r.Some? ==> exists i :: FirstTokenAt(description.value, i)
                                    && r.value == description.value[i + 1..i + 1 + TOKEN_WIDTH]
  {
    match description
    case None => None
    case Some(d) =>
      if d == "" then None
      else
        match FirstTokenFrom(d, 0)
        case None => None
        case Some(i) =>
          assert FirstTokenAt(d, i);
          Some(d[i + 1..i + 1 + TOKEN_WIDTH])
  }

  /** There is exactly one leftmost match, so a first token determines the extracted fingerprint. */
  lemma ExtractAt(s: string, i: int)
    requires FirstTokenAt(s, i)
    ensures ExtractFingerprint(Some(s)) == Some(s[i + 1..i + 1 + TOKEN_WIDTH])
  {
    var r := FirstTokenFrom(s, 0);
    assert r.Some?;
    assert !(r.value < i) && !(i < r.value);
  }

  /** `ChildEvent(data)`. */
  function MakeChildEvent(data: EventData): (e: Event)
  {
    Child(data, ExtractFingerprint(data.description))
  }

  // ---------------------------------------------------------------- embedding

  /** Python truthiness of an optional string. */
  predicate IsTruthy(s: Option<string>) {
    s.Some? && s.value != ""
  }

  /** `Event.add_hash_to_description`: the description sent to the provider. */
  function HashedDescription(description: Option<string>, h: string): string {
    if IsTruthy(description) then description.value + " \n[" + h + "]" else "[" + h + "]"
  }

  /** The description `ParentEvent.get_data_for_child_event` gives the local child copy. */
  function ChildDescription(description: Option<string>, h: string): string {
    if IsTruthy(description) then description.value + " [" + h + "]" else "[" + h + "]"
  }

  /** The description already carries a token, which then wins over an appended one. */
  ghost predicate CarriesToken(description: Option<string>) {
    description.Some? && HasToken(description.value)
  }

  /** Appending text that starts with a space cannot create or destroy a match that starts inside `d`. */
  lemma TokenAtBeforeSuffix(d: string, t: string, j: int)
    requires 0 <= j < |d| && t != [] && t[0] == ' '
    ensures TokenAt(d + t, j) <==> TokenAt(d, j)
  {
    var s := d + t;
    if j + TOKEN_WIDTH + 2 <= |d| {
      forall k | j <= k <= j + TOKEN_WIDTH + 1 ensures s[k] == d[k] { }
    } else {
      assert s[|d|] == ' ';
      assert !IsTokenChar(' ');
      if |d| <= j + TOKEN_WIDTH {
        assert j + 1 <= |d|;
      }
    }
  }

  /** Appending a text that starts with a space keeps every match that starts inside `d`. */
  lemma TokensBeforeSuffix(d: string, t: string)
    requires t != [] && t[0] == ' '
    ensures forall j :: 0 <= j < |d| ==> (TokenAt(d + t, j) <==> TokenAt(d, j))
  {
    forall j | 0 <= j < |d| ensures TokenAt(d + t, j) <==> TokenAt(d, j) {
      TokenAtBeforeSuffix(d, t, j);
    }
  }

  /** A description that already carries a token keeps extracting it after the append. */
  lemma ExtractFromAppendedKeeps(d: string, t: string)
    requires t != [] && t[0] == ' ' && HasToken(d)
    ensures ExtractFingerprint(Some(d + t)) == ExtractFingerprint(Some(d))
  {
    var s := d + t;
    TokensBeforeSuffix(d, t);
    var i :| TokenAt(d, i);
    var r := FirstTokenFrom(d, 0);
    var f := r.value;
    assert FirstTokenAt(s, f);
    ExtractAt(s, f);
    ExtractAt(d, f);
    assert s[f + 1..f + 1 + TOKEN_WIDTH] == d[f + 1..f + 1 + TOKEN_WIDTH];
  }

  /** A description without a token extracts the appended fingerprint. */
  lemma ExtractFromAppendedNew(d: string, sep: string, h: string)
    requires sep == " " || sep == " \n"
    requires |h| == TOKEN_WIDTH && forall k :: 0 <= k < |h| ==> IsTokenChar(h[k])
    requires !HasToken(d)
    ensures ExtractFingerprint(Some(d + (sep + "[" + h + "]"))) == Some(h)
  {
    var t := sep + "[" + h + "]";
    var s := d + t;
    TokensBeforeSuffix(d, t);
    var p := |d| + |sep|;
    assert s[p] == '[';
    forall k | p + 1 <= k <= p + TOKEN_WIDTH ensures IsTokenChar(s[k]) {
      assert s[k] == h[k - p - 1];
    }
    assert TokenAt(s, p);
    forall j | 0 <= j < p ensures !TokenAt(s, j) {
      if j >= |d| {
        assert s[j] != '[';
      }
    }
    ExtractAt(s, p);
    assert s[p + 1..p + 1 + TOKEN_WIDTH] == h;
  }

  /**
   * Extraction from `d + sep + "[" + h + "]"`, where `sep` is one of the two
   * separators: the first token of `d` if it has one, else `h`.
   */
  lemma ExtractFromAppended(d: string, sep: string, h: string)
    requires sep == " " || sep == " \n"
    requires |h| == TOKEN_WIDTH && forall k :: 0 <= k < |h| ==> IsTokenChar(h[k])
    ensures ExtractFingerprint(Some(d + sep + "[" + h + "]"))
            == if HasToken(d) then ExtractFingerprint(Some(d)) else Some(h)
  {
    var t := sep + "[" + h + "]";
    assert d + sep + "[" + h + "]" == d + t;
    if HasToken(d) {
      ExtractFromAppendedKeeps(d, t);
    } else {
      ExtractFromAppendedNew(d, sep, h);
    }
  }

  lemma ExtractFromBare(h: string)
    requires |h| == TOKEN_WIDTH && forall k :: 0 <= k < |h| ==> IsTokenChar(h[k])
    ensures ExtractFingerprint(Some("[" + h + "]")) == Some(h)
  {
    var s := "[" + h + "]";
    forall k | 1 <= k <= TOKEN_WIDTH ensures IsTokenChar(s[k]) {
      assert s[k] == h[k - 1];
    }
    assert FirstTokenAt(s, 0);
    ExtractAt(s, 0);
    assert s[1..1 + TOKEN_WIDTH] == h;
  }

  lemma FingerprintIsTokenText(h: string)
    requires IsFingerprint(h)
    ensures |h| == TOKEN_WIDTH && forall k :: 0 <= k < |h| ==> IsTokenChar(h[k])
  {
    forall k | 0 <= k < |h| ensures IsTokenChar(h[k]) {
      assert IsLowerHexChar(h[k]);
    }
  }

  /** An absent or empty description carries no token. */
  lemma UntruthyCarriesNoToken(description: Option<string>)
    requires !IsTruthy(description)
    ensures !CarriesToken(description)
  {
    if description.Some? {
      assert !TokenAt(description.value, 0);
    }
  }

  /**
   * Round trip of the local child copy's description: a fingerprint embedded in
   * a description that carries no token is extracted exactly; otherwise the
   * description's own (earlier) token wins.
   */
  lemma {:induction false} ChildDescriptionRoundTrip(description: Option<string>, h: string)
    requires IsFingerprint(h)
    ensures ExtractFingerprint(Some(ChildDescription(description, h)))
            == if CarriesToken(description) then ExtractFingerprint(description) else Some(h)
  {
    FingerprintIsTokenText(h);
    if IsTruthy(description) {
      var d := description.value;
      ExtractFromAppended(d, " ", h);
      assert ChildDescription(description, h) == d + " " + "[" + h + "]";
    } else {
      ExtractFromBare(h);
      UntruthyCarriesNoToken(description);
    }
  }

  /** The same round trip for the description sent to the provider. */
  lemma {:induction false} HashedDescriptionRoundTrip(description: Option<string>, h: string)
    requires IsFingerprint(h)
    ensures ExtractFingerprint(Some(HashedDescription(description, h)))
            == if CarriesToken(description) then ExtractFingerprint(description) else Some(h)
  {
    FingerprintIsTokenText(h);
    if IsTruthy(description) {
      var d := description.value;
      ExtractFromAppended(d, " \n", h);
      assert HashedDescription(description, h) == d + " \n" + "[" + h + "]";
    } else {
      ExtractFromBare(h);
      UntruthyCarriesNoToken(description);
    }
  }

  // ---------------------------------------------------------------- payloads

  /**
   * The keyword arguments of the provider's `create_event` service call; an
   * absent key is `None`.
   */
  datatype CreatePayload = CreatePayload(
    entityId: string,
    startDate: Option<Moment>,
    endDate: Option<Moment>,
    startDateTime: Option<Moment>,
    endDateTime: Option<Moment>,
    summary: string,
    description: string,
    location: Option<string>)

  /**
   * `Event.get_data_for_event_creation` with the `entity_id` that
   * `ChildCalendar._async_add_event_to_ha` adds.
   */
  function CreateEventPayload(pe: ParentEvent, entityId: string): (p: CreatePayload)
    ensures p.entityId == entityId && p.summary == pe.data.summary
    ensures IsAllDay(pe.data) ==>
              p.startDate == Some(pe.data.start) && p.endDate == Some(pe.data.end)
              && p.startDateTime.None? && p.endDateTime.None?
    ensures !IsAllDay(pe.data) ==>
              p.startDateTime == Some(pe.data.start) && p.endDateTime == Some(pe.data.end)
              && p.startDate.None? && p.endDate.None?
    ensures p.location.Some? <==> pe.data.location.Some?
    ensures p.location.Some? ==> p.location == pe.data.location
    ensures ExtractFingerprint(Some(p.description))
            == if CarriesToken(pe.data.description) then ExtractFingerprint(pe.data.description)
               else Some(pe.fingerprint)
  {
    HashedDescriptionRoundTrip(pe.data.description, pe.fingerprint);
    var d := pe.data;
    CreatePayload(
      entityId,
      if IsAllDay(d) then Some(d.start) else None,
      if IsAllDay(d) then Some(d.end) else None,
      if IsAllDay(d) then None else Some(d.start),
      if IsAllDay(d) then None else Some(d.end),
      d.summary,
      HashedDescription(d.description, pe.fingerprint),
      if d.location.Some? then d.location else None)
  }

  /**
   * `ParentEvent.get_data_for_child_event`: start, end and title copied, the
   * location kept only when it is a non-empty string, and no uid, rrule or
   * recurrence id.
   */
  function DataForChildEvent(pe: ParentEvent): (d: EventData)
    ensures d.start == pe.data.start && d.end == pe.data.end && d.summary == pe.data.summary
    ensures d.location.Some? <==> IsTruthy(pe.data.location)
    ensures d.location.Some? ==> d.location == pe.data.location
    ensures d.uid.None? && d.rrule.None? && d.recurrenceId.None?
    ensures d.description.Some?
    ensures ExtractFingerprint(d.description)
            == if CarriesToken(pe.data.description) then ExtractFingerprint(pe.data.description)
               else Some(pe.fingerprint)
  {
    ChildDescriptionRoundTrip(pe.data.description, pe.fingerprint);
    EventData(
      pe.data.start, pe.data.end, pe.data.summary,
      Some(ChildDescription(pe.data.description, pe.fingerprint)),
      if IsTruthy(pe.data.location) then pe.data.location else None,
      None, None, None)
  }

  /**
   * `ParentEvent.create_child_event`: the local copy of a mirrored event. Its
   * fingerprint is always present, and is the parent's unless the parent's
   * description already carried a token. (The `description` setter used there
   * writes a field no getter reads, so it has no effect.)
   */
  function CreateChildEvent(pe: ParentEvent): (ce: Event)
    ensures ce.Child? && ce.data == DataForChildEvent(pe)
    ensures ce.HashedValue().Some?
    ensures !CarriesToken(pe.data.description) ==> ce.HashedValue() == Some(pe.fingerprint)
    ensures CarriesToken(pe.data.description) ==> ce.HashedValue() == ExtractFingerprint(pe.data.description)
  {
    MakeChildEvent(DataForChildEvent(pe))
  }
}
