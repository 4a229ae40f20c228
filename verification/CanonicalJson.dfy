/**
 The canonical JSON printer that gives an indexer event its identity, a decoder
 that undoes it, and the exact sense in which the printed text identifies a value.
 */
module CanonicalJson {
  import opened Prelude
  import opened Sorting
  import opened JsonText

  const COMMA: CodeUnit := 0x2c
  const COLON: CodeUnit := 0x3a
  const OPEN_BRACKET: CodeUnit := 0x5b
  const CLOSE_BRACKET: CodeUnit := 0x5d
  const OPEN_BRACE: CodeUnit := 0x7b
  const CLOSE_BRACE: CodeUnit := 0x7d
  const NULL_TEXT: Text := [0x6e, 0x75, 0x6c, 0x6c]
  const TRUE_TEXT: Text := [0x74, 0x72, 0x75, 0x65]
  const FALSE_TEXT: Text := [0x66, 0x61, 0x6c, 0x73, 0x65]

  predicate IsNumberUnit(c: CodeUnit) {
    0x30 <= c <= 0x39 || c in [0x2b, 0x2d, 0x2e, 0x45, 0x65]
  }

  predicate IsNumberToken(t: Text) {
    && t != []
    && (0x30 <= t[0] <= 0x39 || t[0] == 0x2d)
    && forall c | c in t :: IsNumberUnit(c)
  }

  /** A finite number, represented by the text JavaScript prints for it. */
  type NumberToken = t: Text | IsNumberToken(t) witness [0x30]

  /**
   A value `JSON.parse` can return. `Infinite` is what a literal such as 1e999
   overflows to. A property without a value is `undefined`.
   */
  datatype Json =
    | Null
    | Boolean(b: bool)
    | Number(token: NumberToken)
    | Infinite(negative: bool)
    | String(text: Text)
    | Array(items: seq<Json>)
    | Object(properties: seq<Property>)

  datatype Property = Property(key: Text, value: Option<Json>)

  /** JavaScript object keys are unique at every level. */
  ghost predicate WellFormed(v: Json) {
    match v
    case Array(items) => forall i | i in items :: WellFormed(i)
    case Object(ps) => DistinctKeys(ps) && forall p | p in ps && p.value.Some? :: WellFormed(p.value.value)
    case _ => true
  }

  ghost predicate DistinctKeys(ps: seq<Property>) {
    forall i, j | 0 <= i < j < |ps| :: ps[i].key != ps[j].key
  }

  ghost predicate Finite(v: Json) {
    match v
    case Infinite(_) => false
    case Array(items) => forall i | i in items :: Finite(i)
    case Object(ps) => forall p | p in ps && p.value.Some? :: Finite(p.value.value)
    case _ => true
  }

  // ---------------------------------------------------------------------------
  // The printer
  // ---------------------------------------------------------------------------

  /** `localeCompare(left, right) <= 0`. */
  type KeyOrder = (Text, Text) -> bool

  function ByKey(leq: KeyOrder): (Property, Property) -> bool {
    (p: Property, q: Property) => leq(p.key, q.key)
  }

  function IsDefined(): Property -> bool {
    (p: Property) => p.value.Some?
  }

  /** The defined properties of an object in key order. */
  function Entries(ps: seq<Property>, leq: KeyOrder): (es: seq<Property>)
    ensures forall p | p in es :: p in ps && p.value.Some?
  {
    FilterMembers(IsDefined(), ps);
    StableSort(Filter(IsDefined(), ps), ByKey(leq))
  }

  function Canonicalize(v: Json, leq: KeyOrder): Text
    decreases v
  {
    match v
    case Null => NULL_TEXT
    case Boolean(b) => if b then TRUE_TEXT else FALSE_TEXT
    case Number(t) => t
    case Infinite(_) => NULL_TEXT
    case String(s) => Quote(s)
    case Array(items) => [OPEN_BRACKET] + JoinItems(items, leq) + [CLOSE_BRACKET]
    case Object(ps) => [OPEN_BRACE] + JoinMembers(Entries(ps, leq), v, leq) + [CLOSE_BRACE]
  }

  function JoinItems(items: seq<Json>, leq: KeyOrder): Text
    decreases items
  {
    if items == [] then []
    else if |items| == 1 then Canonicalize(items[0], leq)
    else Canonicalize(items[0], leq) + [COMMA] + JoinItems(items[1..], leq)
  }

  ghost predicate MembersOf(es: seq<Property>, owner: Json) {
    owner.Object? && forall p | p in es :: p in owner.properties && p.value.Some?
  }

  function JoinMembers(es: seq<Property>, owner: Json, leq: KeyOrder): Text
    requires MembersOf(es, owner)
    decreases owner, |es|
  {
    if es == [] then []
    else
      assert es[0] in es;
      var member := Quote(es[0].key) + [COLON] + Canonicalize(es[0].value.value, leq);
      if |es| == 1 then member else member + [COMMA] + JoinMembers(es[1..], owner, leq)
  }

  // ---------------------------------------------------------------------------
  // What a value means: objects are key-to-value maps
  // ---------------------------------------------------------------------------

  datatype Value =
    | VNull
    | VBoolean(b: bool)
    | VNumber(token: NumberToken)
    | VInfinite(negative: bool)
    | VString(text: Text)
    | VArray(items: seq<Value>)
    | VObject(members: map<Text, Value>)

  /** With `asText`, infinities read as null, which is all JSON text can say about them. */
  function Meaning(v: Json, asText: bool): Value
    decreases v
  {
    match v
    case Null => VNull
    case Boolean(b) => VBoolean(b)
    case Number(t) => VNumber(t)
    case Infinite(n) => if asText then VNull else VInfinite(n)
    case String(s) => VString(s)
    case Array(items) => VArray(ItemMeanings(items, asText))
    case Object(ps) => VObject(MemberMeanings(ps, v, asText))
  }

  function ItemMeanings(items: seq<Json>, asText: bool): (r: seq<Value>)
    ensures |r| == |items|
    decreases items
  {
    if items == [] then [] else [Meaning(items[0], asText)] + ItemMeanings(items[1..], asText)
  }

  function MemberMeanings(ps: seq<Property>, owner: Json, asText: bool): map<Text, Value>
    requires owner.Object? && forall p | p in ps :: p in owner.properties
    decreases owner, |ps|
  {
    if ps == [] then map[]
    else
      assert ps[0] in ps;
      var rest := MemberMeanings(ps[1..], owner, asText);
      if ps[0].value.None? then rest else map[ps[0].key := Meaning(ps[0].value.value, asText)] + rest
  }

  // ---------------------------------------------------------------------------
  // The decoder: a recursive-descent reader of JSON text without blanks
  // ---------------------------------------------------------------------------

  function NumberSpan(s: Text): (n: nat)
    ensures n <= |s|
    ensures forall i | 0 <= i < n :: IsNumberUnit(s[i])
  {
    if s != [] && IsNumberUnit(s[0]) then 1 + NumberSpan(s[1..]) else 0
  }

  predicate StartsWith(s: Text, head: Text) {
    |head| <= |s| && forall i | 0 <= i < |head| :: s[i] == head[i]
  }

  /** Literals and numbers. */
  function ParseScalar(s: Text): (r: Parsed<Value, CodeUnit>)
    ensures r.Parsed? ==> |r.rest| < |s|
  {
    if StartsWith(s, NULL_TEXT) then Parsed(VNull, s[4..])
    else if StartsWith(s, TRUE_TEXT) then Parsed(VBoolean(true), s[4..])
    else if StartsWith(s, FALSE_TEXT) then Parsed(VBoolean(false), s[5..])
    else
      var n := NumberSpan(s);
      if IsNumberToken(s[..n]) then Parsed(VNumber(s[..n]), s[n..]) else NoParse
  }

  function ParseValue(s: Text): (r: Parsed<Value, CodeUnit>)
    ensures r.Parsed? ==> |r.rest| < |s|
    decreases |s|, 1
  {
    if s == [] then NoParse
    else if s[0] == QUOTE then
      match ReadString(s[1..])
      case Parsed(text, rest) => Parsed(VString(text), rest)
      case NoParse => NoParse
    else if s[0] == OPEN_BRACKET then
      if |s| > 1 && s[1] == CLOSE_BRACKET then Parsed(VArray([]), s[2..])
      else
        match ParseItems(s[1..])
        case Parsed(items, rest) => Parsed(VArray(items), rest)
        case NoParse => NoParse
    else if s[0] == OPEN_BRACE then
      if |s| > 1 && s[1] == CLOSE_BRACE then Parsed(VObject(map[]), s[2..])
      else
        match ParseMembers(s[1..])
        case Parsed(members, rest) => Parsed(VObject(members), rest)
        case NoParse => NoParse
    else ParseScalar(s)
  }

  function ParseItems(s: Text): (r: Parsed<seq<Value>, CodeUnit>)
    ensures r.Parsed? ==> |r.rest| < |s|
    decreases |s|, 2
  {
    match ParseValue(s)
    case NoParse => NoParse
    case Parsed(v, rest) =>
      if rest != [] && rest[0] == CLOSE_BRACKET then Parsed([v], rest[1..])
      else if rest != [] && rest[0] == COMMA then
        match ParseItems(rest[1..])
        case Parsed(more, after) => Parsed([v] + more, after)
        case NoParse => NoParse
      else NoParse
  }

  function ParseMember(s: Text): (r: Parsed<(Text, Value), CodeUnit>)
    ensures r.Parsed? ==> |r.rest| < |s|
    decreases |s|, 2
  {
    if s == [] || s[0] != QUOTE then NoParse
    else
      match ReadString(s[1..])
      case NoParse => NoParse
      case Parsed(key, rest) =>
        if rest == [] || rest[0] != COLON then NoParse
        else
          match ParseValue(rest[1..])
          case NoParse => NoParse
          case Parsed(v, after) => Parsed((key, v), after)
  }

  function ParseMembers(s: Text): (r: Parsed<map<Text, Value>, CodeUnit>)
    ensures r.Parsed? ==> |r.rest| < |s|
    decreases |s|, 3
  {
    match ParseMember(s)
    case NoParse => NoParse
    case Parsed((key, v), rest) =>
      if rest != [] && rest[0] == CLOSE_BRACE then Parsed(map[key := v], rest[1..])
      else if rest != [] && rest[0] == COMMA then
        match ParseMembers(rest[1..])
        case Parsed(more, after) => Parsed(map[key := v] + more, after)
        case NoParse => NoParse
      else NoParse
  }

  // ---------------------------------------------------------------------------
  // The decoder undoes the printer
  // ---------------------------------------------------------------------------

  /** What may follow a value inside a document. */
  predicate Delimited(t: Text) {
    t == [] || t[0] == COMMA || t[0] == CLOSE_BRACKET || t[0] == CLOSE_BRACE
  }

  lemma {:induction false} SpanOfToken(token: Text, t: Text)
    requires Delimited(t) && forall c | c in token :: IsNumberUnit(c)
    ensures NumberSpan(token + t) == |token|
  {
    if token == [] {
      assert token + t == t;
    } else {
      assert (token + t)[1..] == token[1..] + t;
      SpanOfToken(token[1..], t);
    }
  }

  lemma NumberRoundTrip(token: NumberToken, t: Text)
    requires Delimited(t)
    ensures ParseValue(token + t) == Parsed(VNumber(token), t)
  {
    SpanOfToken(token, t);
    var s := token + t;
    assert s[..|token|] == token && s[|token|..] == t;
    assert s[0] == token[0];
    ReadNumber(s, token, t);
  }

  lemma ReadNumber(s: Text, token: NumberToken, t: Text)
    requires NumberSpan(s) == |token| && s[..|token|] == token && s[|token|..] == t
    requires 0x30 <= s[0] <= 0x39 || s[0] == 0x2d
    ensures ParseScalar(s) == Parsed(VNumber(token), t)
  {
    OtherHead(s, NULL_TEXT);
    OtherHead(s, TRUE_TEXT);
    OtherHead(s, FALSE_TEXT);
  }

  lemma OtherHead(s: Text, head: Text)
    requires s != [] && head != [] && s[0] != head[0]
    ensures !StartsWith(s, head)
  {
  }

  lemma QuotedRoundTrip(s: Text, t: Text)
    ensures Quote(s) + t != [] && (Quote(s) + t)[0] == QUOTE
    ensures ReadString((Quote(s) + t)[1..]) == Parsed(s, t)
  {
    assert (Quote(s) + t)[1..] == Escape(s) + ([QUOTE] + t);
    StringRoundTrip(s, t);
  }

  lemma CanonicalStart(v: Json, leq: KeyOrder)
    ensures Canonicalize(v, leq) != []
    ensures Canonicalize(v, leq)[0] != CLOSE_BRACKET
  {
  }

  lemma ItemsStart(items: seq<Json>, leq: KeyOrder)
    ensures JoinItems(items, leq) == [] <==> items == []
    ensures items != [] ==> JoinItems(items, leq)[0] != CLOSE_BRACKET
  {
    if items == [] {
    } else {
      CanonicalStart(items[0], leq);
    }
  }

  lemma BracketsRoundTrip(body: Text, items: seq<Value>, t: Text)
    requires body == [] ==> items == []
    requires body != [] ==> body[0] != CLOSE_BRACKET
    requires body != [] ==> ParseItems(body + ([CLOSE_BRACKET] + t)) == Parsed(items, t)
    ensures ParseValue([OPEN_BRACKET] + body + [CLOSE_BRACKET] + t) == Parsed(VArray(items), t)
  {
    AssociativeFour([OPEN_BRACKET], body, [CLOSE_BRACKET], t);
    if body == [] {
      assert ([OPEN_BRACKET, CLOSE_BRACKET] + t)[2..] == t;
      assert [OPEN_BRACKET] + body + [CLOSE_BRACKET] + t == [OPEN_BRACKET, CLOSE_BRACKET] + t;
    } else {
      ReadArray(body + ([CLOSE_BRACKET] + t), items, t);
    }
  }

  lemma ReadArray(s: Text, items: seq<Value>, t: Text)
    requires s != [] && s[0] != CLOSE_BRACKET && ParseItems(s) == Parsed(items, t)
    ensures ParseValue([OPEN_BRACKET] + s) == Parsed(VArray(items), t)
  {
    assert ([OPEN_BRACKET] + s)[1..] == s;
  }

  lemma ReadObject(s: Text, members: map<Text, Value>, t: Text)
    requires s != [] && s[0] != CLOSE_BRACE && ParseMembers(s) == Parsed(members, t)
    ensures ParseValue([OPEN_BRACE] + s) == Parsed(VObject(members), t)
  {
    assert ([OPEN_BRACE] + s)[1..] == s;
  }

  lemma BracesRoundTrip(body: Text, members: map<Text, Value>, t: Text)
    requires body == [] ==> members == map[]
    requires body != [] ==> body[0] != CLOSE_BRACE
    requires body != [] ==> ParseMembers(body + ([CLOSE_BRACE] + t)) == Parsed(members, t)
    ensures ParseValue([OPEN_BRACE] + body + [CLOSE_BRACE] + t) == Parsed(VObject(members), t)
  {
    AssociativeFour([OPEN_BRACE], body, [CLOSE_BRACE], t);
    if body == [] {
      assert ([OPEN_BRACE, CLOSE_BRACE] + t)[2..] == t;
      assert [OPEN_BRACE] + body + [CLOSE_BRACE] + t == [OPEN_BRACE, CLOSE_BRACE] + t;
    } else {
      ReadObject(body + ([CLOSE_BRACE] + t), members, t);
    }
  }

  lemma MembersStart(es: seq<Property>, owner: Json, leq: KeyOrder)
    requires MembersOf(es, owner)
    ensures JoinMembers(es, owner, leq) == [] <==> es == []
    ensures es != [] ==> JoinMembers(es, owner, leq)[0] == QUOTE
  {
    if es == [] {
    } else {
      assert es[0] in es;
      assert Quote(es[0].key)[0] == QUOTE;
    }
  }

  lemma MemberRoundTrip(key: Text, text: Text, v: Value, t: Text)
    requires ParseValue(text + t) == Parsed(v, t)
    ensures ParseMember(Quote(key) + [COLON] + text + t) == Parsed((key, v), t)
  {
    var rest := [COLON] + (text + t);
    QuotedRoundTrip(key, rest);
    ReadMember(Quote(key) + rest, key, text + t, v, t);
    AssociativeFour(Quote(key), [COLON], text, t);
  }

  lemma ReadMember(s: Text, key: Text, rest: Text, v: Value, t: Text)
    requires s != [] && s[0] == QUOTE && ReadString(s[1..]) == Parsed(key, [COLON] + rest)
    requires ParseValue(rest) == Parsed(v, t)
    ensures ParseMember(s) == Parsed((key, v), t)
  {
    assert ([COLON] + rest)[1..] == rest;
  }

  /** Decoding the canonical text of a value gives back its meaning and consumes exactly that text. */
  lemma {:induction false} RoundTrip(v: Json, leq: KeyOrder, t: Text)
    requires WellFormed(v) && Delimited(t)
    ensures ParseValue(Canonicalize(v, leq) + t) == Parsed(Meaning(v, true), t)
    decreases v
  {
    match v
    case Null => LiteralRoundTrip(t);
    case Boolean(_) => LiteralRoundTrip(t);
    case Infinite(_) => LiteralRoundTrip(t);
    case Number(token) => NumberRoundTrip(token, t);
    case String(s) => QuotedRoundTrip(s, t);
    case Array(items) =>
      if items != [] {
        ItemsRoundTrip(items, leq, t);
      }
      ItemsStart(items, leq);
      BracketsRoundTrip(JoinItems(items, leq), ItemMeanings(items, true), t);
    case Object(ps) =>
      var es := Entries(ps, leq);
      if es != [] {
        MembersRoundTrip(es, v, leq, t);
      }
      MembersStart(es, v, leq);
      BracesRoundTrip(JoinMembers(es, v, leq), MemberMeanings(es, v, true), t);
      EntriesMeaning(v, leq, true);
  }

  lemma LiteralRoundTrip(t: Text)
    ensures ParseValue(NULL_TEXT + t) == Parsed(VNull, t)
    ensures ParseValue(TRUE_TEXT + t) == Parsed(VBoolean(true), t)
    ensures ParseValue(FALSE_TEXT + t) == Parsed(VBoolean(false), t)
  {
    assert (NULL_TEXT + t)[..4] == NULL_TEXT && (NULL_TEXT + t)[4..] == t;
    assert (TRUE_TEXT + t)[..4] == TRUE_TEXT && (TRUE_TEXT + t)[4..] == t;
    assert (FALSE_TEXT + t)[..5] == FALSE_TEXT && (FALSE_TEXT + t)[5..] == t;
    assert (TRUE_TEXT + t)[0] == 0x74 && (FALSE_TEXT + t)[0] == 0x66;
  }

  lemma {:induction false} ItemsRoundTrip(items: seq<Json>, leq: KeyOrder, t: Text)
    requires items != [] && forall i | i in items :: WellFormed(i)
    ensures ParseItems(JoinItems(items, leq) + ([CLOSE_BRACKET] + t)) == Parsed(ItemMeanings(items, true), t)
    decreases items
  {
    var end := [CLOSE_BRACKET] + t;
    assert items[0] in items;
    var item := Canonicalize(items[0], leq);
    if |items| == 1 {
      RoundTrip(items[0], leq, end);
      LastItem(item, Meaning(items[0], true), t);
      assert ItemMeanings(items, true) == [Meaning(items[0], true)];
    } else {
      var more := JoinItems(items[1..], leq);
      RoundTrip(items[0], leq, [COMMA] + (more + end));
      ItemsRoundTrip(items[1..], leq, t);
      NextItem(item, Meaning(items[0], true), more + end, ItemMeanings(items[1..], true), t);
      AssociativeFour(item, [COMMA], more, end);
    }
  }

  lemma LastItem(item: Text, v: Value, t: Text)
    requires ParseValue(item + ([CLOSE_BRACKET] + t)) == Parsed(v, [CLOSE_BRACKET] + t)
    ensures ParseItems(item + ([CLOSE_BRACKET] + t)) == Parsed([v], t)
  {
    assert ([CLOSE_BRACKET] + t)[1..] == t;
  }

  lemma NextItem(item: Text, v: Value, more: Text, items: seq<Value>, t: Text)
    requires ParseValue(item + ([COMMA] + more)) == Parsed(v, [COMMA] + more)
    requires ParseItems(more) == Parsed(items, t)
    ensures ParseItems(item + ([COMMA] + more)) == Parsed([v] + items, t)
  {
    assert ([COMMA] + more)[1..] == more;
  }

  lemma LastMember(member: Text, key: Text, v: Value, t: Text)
    requires ParseMember(member + ([CLOSE_BRACE] + t)) == Parsed((key, v), [CLOSE_BRACE] + t)
    ensures ParseMembers(member + ([CLOSE_BRACE] + t)) == Parsed(map[key := v], t)
  {
    assert ([CLOSE_BRACE] + t)[1..] == t;
  }

  lemma NextMember(member: Text, key: Text, v: Value, more: Text, members: map<Text, Value>, t: Text)
    requires ParseMember(member + ([COMMA] + more)) == Parsed((key, v), [COMMA] + more)
    requires ParseMembers(more) == Parsed(members, t)
    ensures ParseMembers(member + ([COMMA] + more)) == Parsed(map[key := v] + members, t)
  {
    assert ([COMMA] + more)[1..] == more;
  }

  lemma JoinStep(es: seq<Property>, owner: Json, leq: KeyOrder, end: Text)
    requires |es| > 1 && MembersOf(es, owner)
    ensures es[0] in es
    ensures JoinMembers(es, owner, leq) + end ==
            Quote(es[0].key) + [COLON] + Canonicalize(es[0].value.value, leq)
            + ([COMMA] + (JoinMembers(es[1..], owner, leq) + end))
  {
    assert es[0] in es;
    var member := Quote(es[0].key) + [COLON] + Canonicalize(es[0].value.value, leq);
    var more := JoinMembers(es[1..], owner, leq);
    AssociativeFour(member, [COMMA], more, end);
  }

  lemma {:induction false} MemberThen(p: Property, owner: Json, leq: KeyOrder, t: Text)
    requires owner.Object? && WellFormed(owner) && p in owner.properties && p.value.Some?
    requires Delimited(t)
    ensures ParseMember(Quote(p.key) + [COLON] + Canonicalize(p.value.value, leq) + t) ==
            Parsed((p.key, Meaning(p.value.value, true)), t)
    decreases owner, 0
  {
    RoundTrip(p.value.value, leq, t);
    MemberRoundTrip(p.key, Canonicalize(p.value.value, leq), Meaning(p.value.value, true), t);
  }

  lemma {:induction false} MembersRoundTrip(es: seq<Property>, owner: Json, leq: KeyOrder, t: Text)
    requires es != [] && MembersOf(es, owner) && WellFormed(owner)
    ensures ParseMembers(JoinMembers(es, owner, leq) + ([CLOSE_BRACE] + t)) ==
            Parsed(MemberMeanings(es, owner, true), t)
    decreases owner, |es|
  {
    var end := [CLOSE_BRACE] + t;
    assert es[0] in es;
    var key, v := es[0].key, Meaning(es[0].value.value, true);
    var member := Quote(key) + [COLON] + Canonicalize(es[0].value.value, leq);
    if |es| == 1 {
      MemberThen(es[0], owner, leq, end);
      LastMember(member, key, v, t);
      assert MemberMeanings(es, owner, true) == map[key := v];
    } else {
      MembersRoundTrip(es[1..], owner, leq, t);
      var more := JoinMembers(es[1..], owner, leq) + end;
      MemberThen(es[0], owner, leq, [COMMA] + more);
      NextMember(member, key, v, more, MemberMeanings(es[1..], owner, true), t);
      JoinStep(es, owner, leq, end);
    }
  }

  // ---------------------------------------------------------------------------
  // Sorting and dropping undefined properties keep the meaning of an object
  // ---------------------------------------------------------------------------

  ghost predicate KeyIn(key: Text, ps: seq<Property>) {
    exists p :: p in ps && p.value.Some? && p.key == key
  }

  lemma HeadKeyFresh(ps: seq<Property>)
    requires ps != [] && DistinctKeys(ps)
    ensures forall p | p in ps[1..] :: p.key != ps[0].key
  {
    forall p | p in ps[1..] ensures p.key != ps[0].key {
      var i :| 0 <= i < |ps[1..]| && ps[1..][i] == p;
      assert ps[i + 1] == p;
    }
  }

  /** A member map binds exactly the defined keys, each to the meaning of its value. */
  lemma {:induction false} MemberMeaningsAt(ps: seq<Property>, owner: Json, asText: bool)
    requires owner.Object? && (forall p | p in ps :: p in owner.properties)
    requires DistinctKeys(ps)
    ensures forall p | p in ps && p.value.Some? ::
              && p.key in MemberMeanings(ps, owner, asText)
              && MemberMeanings(ps, owner, asText)[p.key] == Meaning(p.value.value, asText)
    ensures forall k | k in MemberMeanings(ps, owner, asText) :: KeyIn(k, ps)
    decreases |ps|
  {
    if ps == [] {
    } else {
      assert ps[0] in ps;
      MemberMeaningsAt(ps[1..], owner, asText);
      var rest := MemberMeanings(ps[1..], owner, asText);
      forall k | k in MemberMeanings(ps, owner, asText) ensures KeyIn(k, ps) {
        if k in rest {
          var p :| p in ps[1..] && p.value.Some? && p.key == k;
          assert p in ps;
        }
      }
      HeadKeyFresh(ps);
    }
  }

  /** The map depends only on which properties there are. */
  lemma SameMembersSameMap(ps: seq<Property>, qs: seq<Property>, owner: Json, asText: bool)
    requires owner.Object? && (forall p | p in ps :: p in owner.properties)
    requires forall p | p in qs :: p in owner.properties
    requires DistinctKeys(ps) && DistinctKeys(qs)
    requires forall p: Property | p.value.Some? :: p in ps <==> p in qs
    ensures MemberMeanings(ps, owner, asText) == MemberMeanings(qs, owner, asText)
  {
    MemberMeaningsAt(ps, owner, asText);
    MemberMeaningsAt(qs, owner, asText);
    var m, n := MemberMeanings(ps, owner, asText), MemberMeanings(qs, owner, asText);
    forall k | k in m ensures k in n && n[k] == m[k] {
      assert KeyIn(k, ps);
      var p :| p in ps && p.value.Some? && p.key == k;
      assert p in qs;
    }
    forall k | k in n ensures k in m {
      assert KeyIn(k, qs);
      var p :| p in qs && p.value.Some? && p.key == k;
      assert p in ps;
    }
  }

  lemma {:induction false} FilterKeepsKeysDistinct(ps: seq<Property>)
    requires DistinctKeys(ps)
    ensures DistinctKeys(Filter(IsDefined(), ps))
  {
    if ps == [] {
    } else {
      FilterKeepsKeysDistinct(ps[1..]);
      FilterMembers(IsDefined(), ps[1..]);
      var f := Filter(IsDefined(), ps[1..]);
      forall j | 0 <= j < |f| ensures f[j].key != ps[0].key {
        assert f[j] in f && f[j] in ps[1..];
      }
    }
  }

  lemma {:induction false} InsertKeepsKeysDistinct(p: Property, ps: seq<Property>, leq: KeyOrder)
    requires DistinctKeys(ps) && forall q | q in ps :: q.key != p.key
    ensures DistinctKeys(Insert(p, ps, ByKey(leq)))
  {
    if ps == [] || leq(p.key, ps[0].key) {
    } else {
      InsertKeepsKeysDistinct(p, ps[1..], leq);
      var r := Insert(p, ps[1..], ByKey(leq));
      forall j | 0 <= j < |r| ensures r[j].key != ps[0].key {
        assert r[j] in r;
      }
    }
  }

  lemma {:induction false} SortKeepsKeysDistinct(ps: seq<Property>, leq: KeyOrder)
    requires DistinctKeys(ps)
    ensures DistinctKeys(StableSort(ps, ByKey(leq)))
  {
    if ps == [] {
    } else {
      SortKeepsKeysDistinct(ps[1..], leq);
      InsertKeepsKeysDistinct(ps[0], StableSort(ps[1..], ByKey(leq)), leq);
    }
  }

  lemma EntriesMeaning(v: Json, leq: KeyOrder, asText: bool)
    requires v.Object? && DistinctKeys(v.properties)
    ensures DistinctKeys(Entries(v.properties, leq))
    ensures MemberMeanings(Entries(v.properties, leq), v, asText) == MemberMeanings(v.properties, v, asText)
  {
    FilterMembers(IsDefined(), v.properties);
    FilterKeepsKeysDistinct(v.properties);
    SortKeepsKeysDistinct(Filter(IsDefined(), v.properties), leq);
    SameMembersSameMap(Entries(v.properties, leq), v.properties, v, asText);
  }

  // ---------------------------------------------------------------------------
  // Same meaning, same text
  // ---------------------------------------------------------------------------

  /** No two distinct keys compare as equal. */
  ghost predicate Tieless(leq: KeyOrder) {
    forall a, b :: leq(a, b) && leq(b, a) ==> a == b
  }

  ghost predicate SortedKeys(es: seq<Property>, leq: KeyOrder) {
    Sorted(es, ByKey(leq))
  }

  lemma {:induction false} SameMeaningSameText(a: Json, b: Json, leq: KeyOrder)
    requires TotalPreorder(leq) && Tieless(leq)
    requires WellFormed(a) && WellFormed(b)
    requires Meaning(a, true) == Meaning(b, true)
    ensures Canonicalize(a, leq) == Canonicalize(b, leq)
    decreases a
  {
    match a
    case Array(items) =>
      SameItemsSameText(items, b.items, leq);
    case Object(ps) =>
      EntriesMeaning(a, leq, true);
      EntriesMeaning(b, leq, true);
      SortSorts(Filter(IsDefined(), ps), ByKey(leq));
      SortSorts(Filter(IsDefined(), b.properties), ByKey(leq));
      SameMembersSameText(Entries(ps, leq), a, Entries(b.properties, leq), b, leq);
    case _ =>
  }

  lemma {:induction false} SameItemsSameText(xs: seq<Json>, ys: seq<Json>, leq: KeyOrder)
    requires TotalPreorder(leq) && Tieless(leq)
    requires (forall i | i in xs :: WellFormed(i)) && (forall i | i in ys :: WellFormed(i))
    requires ItemMeanings(xs, true) == ItemMeanings(ys, true)
    ensures JoinItems(xs, leq) == JoinItems(ys, leq)
    decreases xs
  {
    assert |xs| == |ItemMeanings(xs, true)| == |ItemMeanings(ys, true)| == |ys|;
    if xs == [] {
    } else {
      assert xs[0] in xs && ys[0] in ys;
      assert ItemMeanings(xs, true)[0] == ItemMeanings(ys, true)[0];
      assert ItemMeanings(xs[1..], true) == ItemMeanings(xs, true)[1..];
      assert ItemMeanings(ys[1..], true) == ItemMeanings(ys, true)[1..];
      SameMeaningSameText(xs[0], ys[0], leq);
      SameItemsSameText(xs[1..], ys[1..], leq);
    }
  }

  lemma {:induction false} SameMembersSameText(
    es: seq<Property>, a: Json, fs: seq<Property>, b: Json, leq: KeyOrder)
    requires TotalPreorder(leq) && Tieless(leq)
    requires MembersOf(es, a) && MembersOf(fs, b) && WellFormed(a) && WellFormed(b)
    requires DistinctKeys(es) && DistinctKeys(fs) && SortedKeys(es, leq) && SortedKeys(fs, leq)
    requires MemberMeanings(es, a, true) == MemberMeanings(fs, b, true)
    ensures JoinMembers(es, a, leq) == JoinMembers(fs, b, leq)
    decreases a, |es|
  {
    MembersVanishTogether(es, a, fs, b);
    if es == [] {
    } else {
      HeadKeysAgree(es, a, fs, b, leq);
      assert es[0] in es && fs[0] in fs;
      SameMeaningSameText(es[0].value.value, fs[0].value.value, leq);
      TailsAgree(es, a, fs, b);
      SameMembersSameText(es[1..], a, fs[1..], b, leq);
      SameJoin(es, a, fs, b, leq);
    }
  }

  lemma TailsAgree(es: seq<Property>, a: Json, fs: seq<Property>, b: Json)
    requires es != [] && fs != [] && es[0].key == fs[0].key
    requires MembersOf(es, a) && MembersOf(fs, b) && DistinctKeys(es) && DistinctKeys(fs)
    requires MemberMeanings(es, a, true) == MemberMeanings(fs, b, true)
    ensures MemberMeanings(es[1..], a, true) == MemberMeanings(fs[1..], b, true)
    ensures es[1..] == [] <==> fs[1..] == []
  {
    TailMeaning(es, a);
    TailMeaning(fs, b);
    MembersVanishTogether(es[1..], a, fs[1..], b);
  }

  lemma SameJoin(es: seq<Property>, a: Json, fs: seq<Property>, b: Json, leq: KeyOrder)
    requires es != [] && fs != [] && MembersOf(es, a) && MembersOf(fs, b)
    requires es[0] in es && fs[0] in fs && es[0].key == fs[0].key
    requires Canonicalize(es[0].value.value, leq) == Canonicalize(fs[0].value.value, leq)
    requires es[1..] == [] <==> fs[1..] == []
    requires JoinMembers(es[1..], a, leq) == JoinMembers(fs[1..], b, leq)
    ensures JoinMembers(es, a, leq) == JoinMembers(fs, b, leq)
  {
    assert |es| == 1 <==> |fs| == 1;
  }

  lemma MembersVanishTogether(es: seq<Property>, a: Json, fs: seq<Property>, b: Json)
    requires MembersOf(es, a) && MembersOf(fs, b)
    requires DistinctKeys(es) && DistinctKeys(fs)
    requires MemberMeanings(es, a, true) == MemberMeanings(fs, b, true)
    ensures es == [] <==> fs == []
  {
    MemberMeaningsAt(es, a, true);
    MemberMeaningsAt(fs, b, true);
    if es != [] { assert es[0] in es; }
    if fs != [] { assert fs[0] in fs; }
  }

  /** Two key-sorted member lists with the same map start with the same key. */
  lemma HeadKeysAgree(es: seq<Property>, a: Json, fs: seq<Property>, b: Json, leq: KeyOrder)
    requires TotalPreorder(leq) && Tieless(leq)
    requires es != [] && MembersOf(es, a) && MembersOf(fs, b)
    requires DistinctKeys(es) && DistinctKeys(fs) && SortedKeys(es, leq) && SortedKeys(fs, leq)
    requires MemberMeanings(es, a, true) == MemberMeanings(fs, b, true)
    ensures fs != [] && es[0].key == fs[0].key
    ensures Meaning(es[0].value.value, true) == Meaning(fs[0].value.value, true)
  {
    MemberMeaningsAt(es, a, true);
    MemberMeaningsAt(fs, b, true);
    assert es[0] in es;
    assert KeyIn(es[0].key, fs);
    var q :| q in fs && q.key == es[0].key;
    assert fs[0] in fs;
    assert KeyIn(fs[0].key, es);
    var p :| p in es && p.key == fs[0].key;
    assert leq(fs[0].key, q.key) by {
      var i :| 0 <= i < |fs| && fs[i] == q;
      if i > 0 { assert ByKey(leq)(fs[0], fs[i]); } else { assert leq(q.key, q.key); }
    }
    assert leq(es[0].key, p.key) by {
      var i :| 0 <= i < |es| && es[i] == p;
      if i > 0 { assert ByKey(leq)(es[0], es[i]); } else { assert leq(p.key, p.key); }
    }
  }

  lemma TailMeaning(es: seq<Property>, a: Json)
    requires es != [] && MembersOf(es, a) && DistinctKeys(es)
    ensures MemberMeanings(es[1..], a, true) == MemberMeanings(es, a, true) - {es[0].key}
  {
    assert es[0] in es;
    MemberMeaningsAt(es[1..], a, true);
    HeadKeyFresh(es);
  }

  // ---------------------------------------------------------------------------
  // Main results
  // ---------------------------------------------------------------------------

  /** Whatever the key order, values printed alike mean the same: the text loses nothing but infinities. */
  lemma SameTextSameMeaning(a: Json, b: Json, leq: KeyOrder)
    requires WellFormed(a) && WellFormed(b)
    requires Canonicalize(a, leq) == Canonicalize(b, leq)
    ensures Meaning(a, true) == Meaning(b, true)
  {
    RoundTrip(a, leq, []);
    RoundTrip(b, leq, []);
  }

  /** The canonical text is an exact identity for a value read with objects as maps. */
  lemma CanonicalIdentity(a: Json, b: Json, leq: KeyOrder)
    requires TotalPreorder(leq) && Tieless(leq)
    requires WellFormed(a) && WellFormed(b)
    ensures Canonicalize(a, leq) == Canonicalize(b, leq) <==> Meaning(a, true) == Meaning(b, true)
  {
    if Canonicalize(a, leq) == Canonicalize(b, leq) {
      SameTextSameMeaning(a, b, leq);
    }
    if Meaning(a, true) == Meaning(b, true) {
      SameMeaningSameText(a, b, leq);
    }
  }

  lemma {:induction false} FiniteMeaning(v: Json)
    requires Finite(v)
    ensures Meaning(v, true) == Meaning(v, false)
    decreases v
  {
    match v
    case Array(items) => FiniteItems(items);
    case Object(ps) => FiniteMembers(ps, v);
    case _ =>
  }

  lemma {:induction false} FiniteItems(items: seq<Json>)
    requires forall i | i in items :: Finite(i)
    ensures ItemMeanings(items, true) == ItemMeanings(items, false)
    decreases items
  {
    if items == [] {
    } else {
      FiniteMeaning(items[0]);
      FiniteItems(items[1..]);
    }
  }

  lemma {:induction false} FiniteMembers(ps: seq<Property>, owner: Json)
    requires owner.Object? && Finite(owner) && forall p | p in ps :: p in owner.properties
    ensures MemberMeanings(ps, owner, true) == MemberMeanings(ps, owner, false)
    decreases owner, |ps|
  {
    if ps == [] {
    } else {
      assert ps[0] in ps;
      if ps[0].value.Some? {
        FiniteMeaning(ps[0].value.value);
      }
      FiniteMembers(ps[1..], owner);
    }
  }

  /** Without overflowed numbers nothing at all is lost. */
  lemma FiniteIdentity(a: Json, b: Json, leq: KeyOrder)
    requires TotalPreorder(leq) && Tieless(leq)
    requires WellFormed(a) && WellFormed(b) && Finite(a) && Finite(b)
    ensures Canonicalize(a, leq) == Canonicalize(b, leq) <==> Meaning(a, false) == Meaning(b, false)
  {
    CanonicalIdentity(a, b, leq);
    FiniteMeaning(a);
    FiniteMeaning(b);
  }

  /** Values that mean the same still do once infinities read as null. */
  lemma {:induction false} SameMeaningAsText(a: Json, b: Json)
    requires WellFormed(a) && WellFormed(b) && Meaning(a, false) == Meaning(b, false)
    ensures Meaning(a, true) == Meaning(b, true)
    decreases a, 2
  {
    match a
    case Array(items) => SameItemsAsText(items, b.items);
    case Object(_) => SameMembersAsText(a, b);
    case _ =>
  }

  lemma {:induction false} SameItemsAsText(xs: seq<Json>, ys: seq<Json>)
    requires (forall i | i in xs :: WellFormed(i)) && (forall i | i in ys :: WellFormed(i))
    requires ItemMeanings(xs, false) == ItemMeanings(ys, false)
    ensures ItemMeanings(xs, true) == ItemMeanings(ys, true)
    decreases xs
  {
    assert |xs| == |ItemMeanings(xs, false)| == |ItemMeanings(ys, false)| == |ys|;
    if xs == [] {
    } else {
      assert ItemMeanings(xs, false)[0] == ItemMeanings(ys, false)[0];
      assert ItemMeanings(xs[1..], false) == ItemMeanings(xs, false)[1..];
      assert ItemMeanings(ys[1..], false) == ItemMeanings(ys, false)[1..];
      SameMeaningAsText(xs[0], ys[0]);
      SameItemsAsText(xs[1..], ys[1..]);
    }
  }

  lemma SameKeysAsText(v: Json)
    requires v.Object? && WellFormed(v)
    ensures MemberMeanings(v.properties, v, true).Keys == MemberMeanings(v.properties, v, false).Keys
  {
    MemberMeaningsAt(v.properties, v, true);
    MemberMeaningsAt(v.properties, v, false);
  }

  lemma {:induction false} SameMembersAsText(a: Json, b: Json)
    requires a.Object? && b.Object? && WellFormed(a) && WellFormed(b)
    requires Meaning(a, false) == Meaning(b, false)
    ensures Meaning(a, true) == Meaning(b, true)
    decreases a, 1
  {
    SameKeysAsText(a);
    SameKeysAsText(b);
    var m, n := MemberMeanings(a.properties, a, true), MemberMeanings(b.properties, b, true);
    forall k | k in m ensures k in n && n[k] == m[k] {
      SameMemberAsText(a, b, k);
    }
  }

  /** One key at a time. */
  lemma {:induction false} SameMemberAsText(a: Json, b: Json, k: Text)
    requires a.Object? && b.Object? && WellFormed(a) && WellFormed(b)
    requires Meaning(a, false) == Meaning(b, false)
    requires k in MemberMeanings(a.properties, a, false)
    ensures k in MemberMeanings(a.properties, a, true) && k in MemberMeanings(b.properties, b, true)
    ensures MemberMeanings(a.properties, a, true)[k] == MemberMeanings(b.properties, b, true)[k]
    decreases a, 0
  {
    var ps, qs := a.properties, b.properties;
    MemberMeaningsAt(ps, a, false);
    MemberMeaningsAt(qs, b, false);
    assert KeyIn(k, ps) && KeyIn(k, qs);
    var p :| p in ps && p.value.Some? && p.key == k;
    var q :| q in qs && q.value.Some? && q.key == k;
    MemberMeaningsAt(ps, a, true);
    MemberMeaningsAt(qs, b, true);
    SameMeaningAsText(p.value.value, q.value.value);
  }

  /** A number literal that overflows prints as null, so these three values share one identity. */
  lemma OverflowCollision(leq: KeyOrder)
    ensures Canonicalize(Infinite(false), leq) == Canonicalize(Infinite(true), leq) == Canonicalize(Null, leq)
    ensures Meaning(Infinite(false), false) != Meaning(Null, false)
    ensures Meaning(Infinite(true), false) != Meaning(Infinite(false), false)
  {
  }

  /** Property order never matters. */
  ghost predicate OrderInsensitive(leq: KeyOrder) {
    forall a, b | WellFormed(a) && WellFormed(b) && Meaning(a, true) == Meaning(b, true) ::
      Canonicalize(a, leq) == Canonicalize(b, leq)
  }

  ghost function TwoNulls(a: Text, b: Text): Json {
    Object([Property(a, Some(Null)), Property(b, Some(Null))])
  }

  lemma TwoNullsMeaning(a: Text, b: Text)
    requires a != b
    ensures WellFormed(TwoNulls(a, b))
    ensures Meaning(TwoNulls(a, b), true) == VObject(map[a := VNull, b := VNull])
  {
    var v := TwoNulls(a, b);
    var ps := v.properties;
    assert ps[1..] == [Property(b, Some(Null))] && ps[1..][1..] == [];
    assert MemberMeanings(ps[1..][1..], v, true) == map[];
    assert MemberMeanings(ps[1..], v, true) == map[b := VNull] + map[];
    assert MemberMeanings(ps, v, true) == map[a := VNull] + map[b := VNull];
  }

  /** Tied keys keep the order they were written in. */
  lemma TiedKeysKeepOrder(a: Text, b: Text, leq: KeyOrder)
    requires leq(a, b)
    ensures Entries(TwoNulls(a, b).properties, leq) == TwoNulls(a, b).properties
  {
    var ps := TwoNulls(a, b).properties;
    assert ps[1..] == [ps[1]] && ps[1..][1..] == [];
    assert Filter(IsDefined(), ps[1..]) == [ps[1]];
    assert Filter(IsDefined(), ps) == ps;
    assert StableSort(ps[1..][1..], ByKey(leq)) == [];
    assert StableSort(ps[1..], ByKey(leq)) == [ps[1]];
    assert ByKey(leq)(ps[0], ps[1]);
  }

  ghost function SecondNull(b: Text): Text {
    [COLON] + NULL_TEXT + [COMMA] + (Quote(b) + [COLON] + NULL_TEXT) + [CLOSE_BRACE]
  }

  lemma TwoNullsText(a: Text, b: Text, leq: KeyOrder)
    requires leq(a, b)
    ensures Canonicalize(TwoNulls(a, b), leq)[1..] == Quote(a) + SecondNull(b)
  {
    TiedKeysKeepOrder(a, b, leq);
    var body := JoinMembers(TwoNulls(a, b).properties, TwoNulls(a, b), leq);
    assert ([OPEN_BRACE] + body + [CLOSE_BRACE])[1..] == body + [CLOSE_BRACE];
    TwoNullsMembers(a, b, leq);
    Associative(Quote(a), [COLON], NULL_TEXT);
    var second := Quote(b) + [COLON] + NULL_TEXT;
    AssociativeFour(Quote(a), [COLON] + NULL_TEXT, [COMMA], second);
    Associative([COLON] + NULL_TEXT, [COMMA], second);
    Associative(Quote(a), [COLON] + NULL_TEXT + [COMMA] + second, [CLOSE_BRACE]);
    assert SecondNull(b) == [COLON] + NULL_TEXT + [COMMA] + (Quote(b) + [COLON] + NULL_TEXT) + [CLOSE_BRACE];
  }

  lemma TwoNullsMembers(a: Text, b: Text, leq: KeyOrder)
    ensures JoinMembers(TwoNulls(a, b).properties, TwoNulls(a, b), leq) ==
            Quote(a) + [COLON] + NULL_TEXT + [COMMA] + (Quote(b) + [COLON] + NULL_TEXT)
  {
    var v := TwoNulls(a, b);
    assert v.properties[1..] == [v.properties[1]];
    assert JoinMembers(v.properties[1..], v, leq) == Quote(b) + [COLON] + NULL_TEXT;
  }

  /** The text does not depend on property order exactly when the comparator never ties two distinct keys. */
  lemma OrderInsensitiveIffTieless(leq: KeyOrder)
    requires TotalPreorder(leq)
    ensures OrderInsensitive(leq) <==> Tieless(leq)
  {
    if Tieless(leq) {
      forall a, b | WellFormed(a) && WellFormed(b) && Meaning(a, true) == Meaning(b, true)
        ensures Canonicalize(a, leq) == Canonicalize(b, leq)
      {
        SameMeaningSameText(a, b, leq);
      }
    } else {
      var a, b :| leq(a, b) && leq(b, a) && a != b;
      TwoNullsMeaning(a, b);
      TwoNullsMeaning(b, a);
      assert map[a := VNull, b := VNull] == map[b := VNull, a := VNull];
      TiedTextsDiffer(a, b, leq);
    }
  }

  lemma TiedTextsDiffer(a: Text, b: Text, leq: KeyOrder)
    requires leq(a, b) && leq(b, a) && a != b
    ensures Canonicalize(TwoNulls(a, b), leq) != Canonicalize(TwoNulls(b, a), leq)
  {
    TwoNullsText(a, b, leq);
    TwoNullsText(b, a, leq);
    QuotedRoundTrip(a, SecondNull(b));
    QuotedRoundTrip(b, SecondNull(a));
  }
}
