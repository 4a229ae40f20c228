/** Which webhook bodies are events, what their fields are, and exactly when two bodies share a fingerprint. */
module EventBodies {
  import opened Prelude
  import opened Sorting
  import opened JsonText
  import opened CanonicalJson
  import opened EventFingerprint
  import opened Digits

  /** The member a body has under a key, with overflowed numbers read as null as in its text. */
  ghost function MemberUnder(v: Json, key: Text): Option<Value> {
    if v.Object? && key in Meaning(v, true).members then Some(Meaning(v, true).members[key]) else None
  }

  ghost function TextUnder(v: Json, key: Text): Option<Text> {
    var m := MemberUnder(v, key);
    if m.Some? && m.value.VString? then Some(m.value.text) else None
  }

  /** A positive integer that a JavaScript number holds exactly. */
  ghost function SequenceUnder(v: Json, key: Text): Option<Text> {
    var m := MemberUnder(v, key);
    if && m.Some? && m.value.VNumber? && AreDigits(m.value.token)
       && 1 <= StringToNat(DigitsOf(m.value.token)) <= 9_007_199_254_740_991
    then Some(m.value.token) else None
  }

  ghost function ObjectUnder(v: Json, key: Text): Option<map<Text, Value>> {
    var m := MemberUnder(v, key);
    if m.Some? && m.value.VObject? then Some(m.value.members) else None
  }

  ghost predicate NonEmpty(t: Option<Text>) {
    t.Some? && t.value != []
  }

  lemma {:induction false} LookupMeaning(ps: seq<Property>, owner: Json, key: Text, asText: bool)
    requires owner.Object? && (forall p | p in ps :: p in owner.properties) && DistinctKeys(ps)
    ensures Lookup(ps, key).Some? <==> key in MemberMeanings(ps, owner, asText)
    ensures Lookup(ps, key).Some? ==>
              MemberMeanings(ps, owner, asText)[key] == Meaning(Lookup(ps, key).value, asText)
  {
    MemberMeaningsAt(ps, owner, asText);
    if ps == [] {
    } else {
      assert ps[0] in ps;
      HeadKeyFresh(ps);
      if ps[0].key == key {
        if key in MemberMeanings(ps, owner, asText) {
          assert KeyIn(key, ps);
          var p :| p in ps && p.value.Some? && p.key == key;
          assert p == ps[0];
        }
      } else {
        LookupMeaning(ps[1..], owner, key, asText);
      }
    }
  }

  lemma LookupIsMember(v: Json, key: Text)
    requires v.Object? && WellFormed(v)
    ensures var r := Lookup(v.properties, key);
            MemberUnder(v, key) == if r.Some? then Some(Meaning(r.value, true)) else None
  {
    LookupMeaning(v.properties, v, key, true);
  }

  lemma TextRead(v: Json, key: Text)
    requires v.Object? && WellFormed(v)
    ensures var r, t := Lookup(v.properties, key), TextUnder(v, key);
            AnyString(r) == t && NonEmptyString(r) == if NonEmpty(t) then t else None
  {
    LookupIsMember(v, key);
  }

  lemma SequenceRead(v: Json, key: Text)
    requires v.Object? && WellFormed(v)
    ensures var r := ParseSequence(Lookup(v.properties, key));
            (r.Some? <==> SequenceUnder(v, key).Some?) && (r.Some? ==> r.value == SequenceUnder(v, key).value)
  {
    LookupIsMember(v, key);
  }

  lemma ObjectRead(v: Json, key: Text)
    requires v.Object? && WellFormed(v)
    ensures var r := AnyRecord(Lookup(v.properties, key));
            && (r.Some? <==> ObjectUnder(v, key).Some?)
            && (r.Some? ==>
                  WellFormed(Object(r.value)) && Meaning(Object(r.value), true) == VObject(ObjectUnder(v, key).value))
  {
    LookupIsMember(v, key);
  }

  /** The eight things a body can hold for an event. */
  datatype Holding = Holding(
    eventId: Option<Text>,
    eventType: Option<Text>,
    streamId: Option<Text>,
    occurredAt: Option<Text>,
    chainId: Option<Text>,
    transactionHash: Option<Text>,
    sequence: Option<Text>,
    data: Option<map<Text, Value>>)

  /** What a body holds under each field's own name, as far as the value there has the field's type. */
  ghost function HeldBy(v: Json): Holding {
    Holding(TextUnder(v, Ascii("eventId")),
            TextUnder(v, Ascii("eventType")),
            TextUnder(v, Ascii("streamId")),
            TextUnder(v, Ascii("occurredAt")),
            TextUnder(v, Ascii("chainId")),
            TextUnder(v, Ascii("transactionHash")),
            SequenceUnder(v, Ascii("sequence")),
            ObjectUnder(v, Ascii("data")))
  }

  /** The event has what is held, field by field. */
  ghost predicate Reads(h: Holding, e: IndexerEvent) {
    && h.eventId == Some(e.eventId) && h.eventType == Some(e.eventType)
    && h.streamId == Some(e.streamId) && h.occurredAt == Some(e.occurredAt)
    && h.chainId == e.chainId && h.transactionHash == e.transactionHash
    && (h.sequence.Some? <==> e.sequence.Some?) && (h.sequence.Some? ==> h.sequence.value == e.sequence.value)
    && (h.data.Some? <==> e.data.Some?)
    && (h.data.Some? ==> Meaning(Object(e.data.value), true) == VObject(h.data.value))
  }

  /** The field readers, applied to what the body has under the field's key. */
  ghost predicate FieldsHeld(read: Field -> Option<Json>, h: Holding) {
    && NonEmptyString(read(EventId)) == (if NonEmpty(h.eventId) then h.eventId else None)
    && NonEmptyString(read(EventType)) == (if NonEmpty(h.eventType) then h.eventType else None)
    && NonEmptyString(read(StreamId)) == (if NonEmpty(h.streamId) then h.streamId else None)
    && NonEmptyString(read(OccurredAt)) == (if NonEmpty(h.occurredAt) then h.occurredAt else None)
    && AnyString(read(ChainId)) == h.chainId && AnyString(read(TransactionHash)) == h.transactionHash
    && var q, r := ParseSequence(read(Sequence)), AnyRecord(read(Data));
       && (q.Some? <==> h.sequence.Some?) && (q.Some? ==> q.value == h.sequence.value)
       && (r.Some? <==> h.data.Some?)
       && (r.Some? ==> WellFormed(Object(r.value)) && Meaning(Object(r.value), true) == VObject(h.data.value))
  }

  lemma FieldsRead(read: Field -> Option<Json>, h: Holding)
    requires FieldsHeld(read, h)
    ensures ParseFields(read).Some? <==>
            NonEmpty(h.eventId) && NonEmpty(h.eventType) && NonEmpty(h.streamId) && NonEmpty(h.occurredAt)
    ensures ParseFields(read).Some? ==> Reads(h, ParseFields(read).value) && WellFormedEvent(ParseFields(read).value)
  {
  }

  ghost function HeldUnder(v: Json, key: Field -> Text): Holding {
    Holding(TextUnder(v, key(EventId)),
            TextUnder(v, key(EventType)),
            TextUnder(v, key(StreamId)),
            TextUnder(v, key(OccurredAt)),
            TextUnder(v, key(ChainId)),
            TextUnder(v, key(TransactionHash)),
            SequenceUnder(v, key(Sequence)),
            ObjectUnder(v, key(Data)))
  }

  lemma FieldKeys(v: Json)
    ensures HeldUnder(v, Key) == HeldBy(v)
  {
  }

  lemma BodyFields(v: Json, read: Field -> Option<Json>, key: Field -> Text)
    requires v.Object? && WellFormed(v) && forall f :: read(f) == Lookup(v.properties, key(f))
    ensures FieldsHeld(read, HeldUnder(v, key))
  {
    TextRead(v, key(EventId));
    TextRead(v, key(EventType));
    TextRead(v, key(StreamId));
    TextRead(v, key(OccurredAt));
    TextRead(v, key(ChainId));
    TextRead(v, key(TransactionHash));
    SequenceRead(v, key(Sequence));
    ObjectRead(v, key(Data));
  }

  /**
   A body is an event exactly when it is an object with four non-empty strings, and then every field is what the body
   holds under that field's own name, if it is of the field's type.
   */
  lemma BodyReads(v: Json)
    requires WellFormed(v)
    ensures var h := HeldBy(v);
            && (ParsePayload(v).Some? <==>
                NonEmpty(h.eventId) && NonEmpty(h.eventType) && NonEmpty(h.streamId) && NonEmpty(h.occurredAt))
            && (ParsePayload(v).Some? ==> Reads(h, ParsePayload(v).value) && WellFormedEvent(ParsePayload(v).value))
  {
    if v.Object? {
      BodyFields(v, Reader(v.properties), Key);
      FieldKeys(v);
      FieldsRead(Reader(v.properties), HeldBy(v));
    }
  }

  lemma ReadsSame(h: Holding, e: IndexerEvent, i: Holding, g: IndexerEvent)
    requires Reads(h, e) && Reads(i, g)
    ensures SameEvent(e, g) <==> h == i
  {
  }

  /** Two events' bodies have one fingerprint exactly when they hold the same under each of the eight names. */
  lemma BodyIdentity(v: Json, w: Json, leq: KeyOrder)
    requires TotalPreorder(leq) && Tieless(leq) && WellFormed(v) && WellFormed(w)
    requires ParsePayload(v).Some? && ParsePayload(w).Some?
    ensures FingerprintEvent(ParsePayload(v).value, leq) == FingerprintEvent(ParsePayload(w).value, leq)
            <==> HeldBy(v) == HeldBy(w)
  {
    BodyReads(v);
    BodyReads(w);
    FingerprintIdentity(ParsePayload(v).value, ParsePayload(w).value, leq);
    ReadsSame(HeldBy(v), ParsePayload(v).value, HeldBy(w), ParsePayload(w).value);
  }

  lemma SameMeaningSameHolding(v: Json, w: Json, key: Field -> Text)
    requires Meaning(v, true) == Meaning(w, true)
    ensures HeldUnder(v, key) == HeldUnder(w, key)
  {
    assert forall k :: MemberUnder(v, k) == MemberUnder(w, k);
  }

  lemma SameMeaningSameBody(v: Json, w: Json)
    requires Meaning(v, true) == Meaning(w, true)
    ensures HeldBy(v) == HeldBy(w)
  {
    SameMeaningSameHolding(v, w, Key);
    FieldKeys(v);
    FieldKeys(w);
  }

  /** Bodies that differ only in property order, at any depth, parse to events with one fingerprint. */
  lemma EquivalentBodiesReplay(v: Json, w: Json, leq: KeyOrder)
    requires TotalPreorder(leq) && Tieless(leq)
    requires WellFormed(v) && WellFormed(w)
    requires Meaning(v, false) == Meaning(w, false)
    ensures ParsePayload(v).Some? <==> ParsePayload(w).Some?
    ensures ParsePayload(v).Some? ==>
              FingerprintEvent(ParsePayload(v).value, leq) == FingerprintEvent(ParsePayload(w).value, leq)
  {
    SameMeaningAsText(v, w);
    BodyReads(v);
    BodyReads(w);
    SameMeaningSameBody(v, w);
    if ParsePayload(v).Some? {
      BodyIdentity(v, w, leq);
    }
  }
}
