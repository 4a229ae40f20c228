/**
 From a webhook body to an event and from an event to its fingerprint. SHA-256 is
 taken to be injective, so the canonical text stands for its hash.
 */
module EventFingerprint {
  import opened Prelude
  import opened Sorting
  import opened JsonText
  import opened CanonicalJson
  import opened Digits

  const MAX_SAFE_INTEGER := 9_007_199_254_740_991

  function AsciiUnit(c: char): CodeUnit {
    if c < 128 as char then c as int else 0
  }

  /** The code units of an ASCII literal. */
  function Ascii(s: string): (t: Text)
    ensures |t| == |s| && forall i | 0 <= i < |s| :: t[i] == AsciiUnit(s[i])
  {
    seq(|s|, i requires 0 <= i < |s| => AsciiUnit(s[i]))
  }

  datatype Field = EventId | EventType | StreamId | OccurredAt | ChainId | TransactionHash | Sequence | Data

  function Key(f: Field): Text {
    match f
    case EventId => Ascii("eventId")
    case EventType => Ascii("eventType")
    case StreamId => Ascii("streamId")
    case OccurredAt => Ascii("occurredAt")
    case ChainId => Ascii("chainId")
    case TransactionHash => Ascii("transactionHash")
    case Sequence => Ascii("sequence")
    case Data => Ascii("data")
  }

  lemma KeysDistinct(f: Field, g: Field)
    requires Key(f) == Key(g)
    ensures f == g
  {
    assert |Key(f)| == |Key(g)|;
    assert Key(f)[0] == Key(g)[0] && Key(f)[1] == Key(g)[1];
  }

  datatype IndexerEvent = IndexerEvent(
    eventId: Text,
    eventType: Text,
    streamId: Text,
    occurredAt: Text,
    chainId: Option<Text>,
    transactionHash: Option<Text>,
    sequence: Option<NumberToken>,
    data: Option<seq<Property>>)

  /** `candidate[key]`; both an absent and an undefined property read as None. */
  function Lookup(ps: seq<Property>, key: Text): (r: Option<Json>)
    ensures r.Some? ==> exists p :: p in ps && p.key == key && p.value == r
  {
    if ps == [] then None
    else if ps[0].key == key then ps[0].value
    else Lookup(ps[1..], key)
  }

  function NonEmptyString(v: Option<Json>): Option<Text> {
    if v.Some? && v.value.String? && v.value.text != [] then Some(v.value.text) else None
  }

  function AnyString(v: Option<Json>): Option<Text> {
    if v.Some? && v.value.String? then Some(v.value.text) else None
  }

  predicate AreDigits(t: Text) {
    forall i | 0 <= i < |t| :: 0x30 <= t[i] <= 0x39
  }

  /** Digits as characters. */
  function DigitsOf(t: Text): (s: string)
    requires AreDigits(t)
    ensures AllDigits(s)
  {
    seq(|t|, i requires 0 <= i < |t| => t[i] as char)
  }

  predicate IsSafePositiveInteger(t: NumberToken) {
    AreDigits(t) && 1 <= StringToNat(DigitsOf(t)) <= MAX_SAFE_INTEGER
  }

  function ParseSequence(v: Option<Json>): Option<NumberToken> {
    if v.Some? && v.value.Number? && IsSafePositiveInteger(v.value.token) then Some(v.value.token) else None
  }

  function AnyRecord(v: Option<Json>): Option<seq<Property>> {
    if v.Some? && v.value.Object? then Some(v.value.properties) else None
  }

  function Reader(ps: seq<Property>): Field -> Option<Json> {
    (f: Field) => Lookup(ps, Key(f))
  }

  function ParseFields(read: Field -> Option<Json>): Option<IndexerEvent> {
    match (NonEmptyString(read(EventId)), NonEmptyString(read(EventType)),
           NonEmptyString(read(StreamId)), NonEmptyString(read(OccurredAt)))
    case (Some(id), Some(kind), Some(stream), Some(at)) =>
      Some(IndexerEvent(id, kind, stream, at,
                        AnyString(read(ChainId)),
                        AnyString(read(TransactionHash)),
                        ParseSequence(read(Sequence)),
                        AnyRecord(read(Data))))
    case _ => None
  }

  function ParsePayload(v: Json): Option<IndexerEvent> {
    if v.Object? then ParseFields(Reader(v.properties)) else None
  }

  function FieldOf(e: IndexerEvent, f: Field): Option<Json> {
    match f
    case EventId => Some(String(e.eventId))
    case EventType => Some(String(e.eventType))
    case StreamId => Some(String(e.streamId))
    case OccurredAt => Some(String(e.occurredAt))
    case ChainId => if e.chainId.Some? then Some(String(e.chainId.value)) else None
    case TransactionHash => if e.transactionHash.Some? then Some(String(e.transactionHash.value)) else None
    case Sequence => if e.sequence.Some? then Some(Number(e.sequence.value)) else None
    case Data => if e.data.Some? then Some(Object(e.data.value)) else None
  }

  const FIELDS: seq<Field> :=
    [EventId, EventType, StreamId, OccurredAt, ChainId, TransactionHash, Sequence, Data]

  function EventProperties(e: IndexerEvent): (ps: seq<Property>)
    ensures |ps| == |FIELDS|
    ensures forall i | 0 <= i < |ps| :: ps[i] == Property(Key(FIELDS[i]), FieldOf(e, FIELDS[i]))
  {
    seq(|FIELDS|, i requires 0 <= i < |FIELDS| => Property(Key(FIELDS[i]), FieldOf(e, FIELDS[i])))
  }

  function FingerprintEvent(e: IndexerEvent, leq: KeyOrder): Text {
    Canonicalize(Object(EventProperties(e)), leq)
  }

  ghost predicate WellFormedEvent(e: IndexerEvent) {
    e.data.Some? ==> WellFormed(Object(e.data.value))
  }

  /** Equal in every field, with `data` compared as a map. */
  ghost predicate SameEvent(e: IndexerEvent, f: IndexerEvent) {
    && e.(data := None) == f.(data := None)
    && (e.data.Some? <==> f.data.Some?)
    && (e.data.Some? ==> Meaning(Object(e.data.value), true) == Meaning(Object(f.data.value), true))
  }

  lemma EventWellFormed(e: IndexerEvent)
    requires WellFormedEvent(e)
    ensures WellFormed(Object(EventProperties(e)))
  {
    var ps := EventProperties(e);
    forall i, j | 0 <= i < j < |ps| ensures ps[i].key != ps[j].key {
      if ps[i].key == ps[j].key {
        KeysDistinct(FIELDS[i], FIELDS[j]);
      }
    }
  }

  /** The event has no property under a key other than the field's own. */
  lemma OnlyProperty(e: IndexerEvent, f: Field, p: Property)
    requires p in EventProperties(e) && p.key == Key(f)
    ensures p.value == FieldOf(e, f)
  {
    var ps := EventProperties(e);
    var j :| 0 <= j < |ps| && ps[j] == p;
    KeysDistinct(f, FIELDS[j]);
  }

  lemma OwnProperty(e: IndexerEvent, f: Field)
    ensures Property(Key(f), FieldOf(e, f)) in EventProperties(e)
  {
    FieldListed(f);
    var i :| 0 <= i < |FIELDS| && FIELDS[i] == f;
    assert EventProperties(e)[i] == Property(Key(f), FieldOf(e, f));
  }

  /** What the event's member map holds under each of the eight keys. */
  lemma EventMeaningAt(e: IndexerEvent, f: Field)
    requires WellFormedEvent(e)
    ensures Key(f) in Meaning(Object(EventProperties(e)), true).members <==> FieldOf(e, f).Some?
    ensures FieldOf(e, f).Some? ==>
              Meaning(Object(EventProperties(e)), true).members[Key(f)] == Meaning(FieldOf(e, f).value, true)
  {
    EventWellFormed(e);
    var v := Object(EventProperties(e));
    MemberMeaningsAt(v.properties, v, true);
    OwnProperty(e, f);
    if Key(f) in Meaning(v, true).members {
      assert KeyIn(Key(f), v.properties);
      var p :| p in v.properties && p.value.Some? && p.key == Key(f);
      OnlyProperty(e, f, p);
    }
  }

  lemma FieldListed(f: Field)
    ensures exists i :: 0 <= i < |FIELDS| && FIELDS[i] == f
  {
    match f
    case EventId => assert FIELDS[0] == f;
    case EventType => assert FIELDS[1] == f;
    case StreamId => assert FIELDS[2] == f;
    case OccurredAt => assert FIELDS[3] == f;
    case ChainId => assert FIELDS[4] == f;
    case TransactionHash => assert FIELDS[5] == f;
    case Sequence => assert FIELDS[6] == f;
    case Data => assert FIELDS[7] == f;
  }

  ghost predicate SameField(e: IndexerEvent, g: IndexerEvent, f: Field) {
    && (FieldOf(e, f).Some? <==> FieldOf(g, f).Some?)
    && (FieldOf(e, f).Some? ==> Meaning(FieldOf(e, f).value, true) == Meaning(FieldOf(g, f).value, true))
  }

  lemma SameEventSameField(e: IndexerEvent, g: IndexerEvent, f: Field)
    requires SameEvent(e, g)
    ensures SameField(e, g, f)
  {
  }

  lemma SameFieldsSameEvent(e: IndexerEvent, g: IndexerEvent)
    requires forall f :: SameField(e, g, f)
    ensures SameEvent(e, g)
  {
    assert SameField(e, g, EventId);
    assert SameField(e, g, EventType);
    assert SameField(e, g, StreamId);
    assert SameField(e, g, OccurredAt);
    assert SameField(e, g, ChainId);
    assert SameField(e, g, TransactionHash);
    assert SameField(e, g, Sequence);
    assert SameField(e, g, Data);
  }

  /** Two events share a fingerprint exactly when they are the same business payload. */
  lemma FingerprintIdentity(e: IndexerEvent, g: IndexerEvent, leq: KeyOrder)
    requires TotalPreorder(leq) && Tieless(leq)
    requires WellFormedEvent(e) && WellFormedEvent(g)
    ensures FingerprintEvent(e, leq) == FingerprintEvent(g, leq) <==> SameEvent(e, g)
  {
    EventWellFormed(e);
    EventWellFormed(g);
    var v, w := Object(EventProperties(e)), Object(EventProperties(g));
    CanonicalIdentity(v, w, leq);
    if Meaning(v, true) == Meaning(w, true) {
      forall f ensures SameField(e, g, f) {
        EventMeaningAt(e, f);
        EventMeaningAt(g, f);
      }
      SameFieldsSameEvent(e, g);
    }
    if SameEvent(e, g) {
      forall f ensures SameField(e, g, f) {
        SameEventSameField(e, g, f);
      }
      MemberMapsEqual(e, g);
    }
  }

  lemma MemberMapsEqual(e: IndexerEvent, g: IndexerEvent)
    requires WellFormedEvent(e) && WellFormedEvent(g)
    requires forall f :: SameField(e, g, f)
    ensures Meaning(Object(EventProperties(e)), true) == Meaning(Object(EventProperties(g)), true)
  {
    MembersIncluded(e, g);
    assert forall f :: SameField(e, g, f) ==> SameField(g, e, f);
    MembersIncluded(g, e);
    var m := Meaning(Object(EventProperties(e)), true).members;
    var n := Meaning(Object(EventProperties(g)), true).members;
    assert m == n;
  }

  lemma MembersIncluded(e: IndexerEvent, g: IndexerEvent)
    requires WellFormedEvent(e) && WellFormedEvent(g)
    requires forall f :: SameField(e, g, f)
    ensures forall k | k in Meaning(Object(EventProperties(e)), true).members ::
              && k in Meaning(Object(EventProperties(g)), true).members
              && Meaning(Object(EventProperties(g)), true).members[k]
                 == Meaning(Object(EventProperties(e)), true).members[k]
  {
    EventWellFormed(e);
    var v := Object(EventProperties(e));
    forall k | k in Meaning(v, true).members
      ensures k in Meaning(Object(EventProperties(g)), true).members
      ensures Meaning(Object(EventProperties(g)), true).members[k] == Meaning(v, true).members[k]
    {
      MemberMeaningsAt(v.properties, v, true);
      assert KeyIn(k, v.properties);
      var p :| p in v.properties && p.value.Some? && p.key == k;
      var j :| 0 <= j < |FIELDS| && v.properties[j] == p;
      var f := FIELDS[j];
      assert SameField(e, g, f);
      EventMeaningAt(e, f);
      EventMeaningAt(g, f);
    }
  }
}
