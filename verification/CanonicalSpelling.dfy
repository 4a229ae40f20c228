/** How the canonical text is spelled, on small values written out in ASCII. */
module CanonicalSpelling {
  import opened Prelude
  import opened Sorting
  import opened JsonText
  import opened CanonicalJson
  import opened EventFingerprint

  lemma Literals(leq: KeyOrder)
    ensures Canonicalize(Null, leq) == Ascii("null")
    ensures Canonicalize(Boolean(true), leq) == Ascii("true")
    ensures Canonicalize(Boolean(false), leq) == Ascii("false")
    ensures Canonicalize(Number(Ascii("7")), leq) == Ascii("7")
  {
  }

  /** Quotes and backslashes are escaped, and control characters too. */
  lemma ShortEscapes(leq: KeyOrder)
    ensures Canonicalize(String([0x22, 0x5c]), leq) == Ascii("\"\\\"\\\\\"")
    ensures Canonicalize(String([0x0a]), leq) == Ascii("\"\\n\"")
  {
  }

  /** Where there is no short form the escape is in lower-case hexadecimal. */
  lemma LongEscapes(leq: KeyOrder)
    ensures Canonicalize(String([0x1f]), leq) == Ascii("\"\\u001f\"")
  {
  }

  lemma Brackets(leq: KeyOrder)
    ensures Canonicalize(Array([Null, Boolean(true)]), leq) == Ascii("[null,true]")
  {
    Literals(leq);
    assert [Null, Boolean(true)][1..] == [Boolean(true)];
    assert JoinItems([Boolean(true)], leq) == TRUE_TEXT;
  }

  lemma OnlyDefined(p: Property, q: Property, leq: KeyOrder)
    requires p.value.Some? && q.value.None?
    ensures Entries([p, q], leq) == [p]
  {
    assert [p, q][1..] == [q] && [q][1..] == [] && [p][1..] == [];
    assert Filter(IsDefined(), [q]) == [];
    assert Filter(IsDefined(), [p, q]) == [p];
  }

  lemma OneMember(key: Text, value: Json, es: seq<Property>, owner: Json, leq: KeyOrder)
    requires es == [Property(key, Some(value))] && MembersOf(es, owner)
    ensures JoinMembers(es, owner, leq) == Quote(key) + [COLON] + Canonicalize(value, leq)
  {
  }

  /** An undefined property leaves no trace. */
  lemma Braces(leq: KeyOrder)
    ensures Canonicalize(Object([Property([0x61], Some(Null)), Property([0x62], None)]), leq) == Ascii("{\"a\":null}")
  {
    var p, q := Property([0x61], Some(Null)), Property([0x62], None);
    var v := Object([p, q]);
    OnlyDefined(p, q, leq);
    OneMember([0x61], Null, [p], v, leq);
    Literals(leq);
    assert Quote([0x61]) == Ascii("\"a\"");
    assert Canonicalize(v, leq) == [OPEN_BRACE] + (Quote([0x61]) + [COLON] + NULL_TEXT) + [CLOSE_BRACE];
  }
}
