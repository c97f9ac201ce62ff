/**
 The CloudEvents envelope: an event as a flat JSON object and back, following section 3 (Envelope)
 of the CloudEvents JSON Event Format v1.0 as the library implements it.

 JSON texts are modelled by the values they denote; a time is printed by an injective function that
 stands for RFC 3339.
 */
module Envelope {
  import opened Basics

  // ---- Go values and JSON values ----

  /** A Go value of type any, as far as it can come from or go to JSON. */
  datatype Value =
    | GNil
    | GBool(b: bool)
    | GInt(n: int)
    | GInt64(n: int)
    | GFloat(x: real)
    | GStr(s: string)
    | GList(elems: seq<Value>)
    | GMap(fields: map<string, Value>)

  /** Integer and fractional number texts are kept apart; decoding turns both into float64. */
  datatype Json =
    | JNull
    | JBool(b: bool)
    | JInt(n: int)
    | JReal(x: real)
    | JStr(s: string)
    | JArr(elems: seq<Json>)
    | JObj(fields: map<string, Json>)

  // ---- float64 ----

  const TWO_TO_THE_53: int := 0x20_0000_0000_0000

  /** The distance between neighbouring float64 values around n. */
  function Spacing(n: nat): (u: nat)
    ensures 0 < u
  {
    if n < TWO_TO_THE_53 then 1 else 2 * Spacing(n / 2)
  }

  /** The float64 nearest to n, ties to the even mantissa. */
  function NearestDouble(n: nat): nat {
    Rounded(Spacing(n), n / Spacing(n), n % Spacing(n))
  }

  function Rounded(u: nat, q: nat, r: nat): nat {
    if 2 * r < u || (2 * r == u && q % 2 == 0) then q * u else (q + 1) * u
  }

  function Double(n: int): int {
    if 0 <= n then NearestDouble(n) else 0 - NearestDouble(-n)
  }

  /** An integer survives the conversion if and only if the spacing of float64 around it divides it. */
  lemma DoubleExactIff(n: nat)
    ensures NearestDouble(n) == n <==> n % Spacing(n) == 0
  {
    var u := Spacing(n);
    var q, r := DivMod(n, u);
    RoundedIsExactIff(n, u, q, r);
  }

  lemma DivMod(n: nat, u: nat) returns (q: nat, r: nat)
    requires 0 < u
    ensures q == n / u && r == n % u && r < u && n == q * u + r
  {
    q, r := n / u, n % u;
  }

  lemma RoundedIsExactIff(n: nat, u: nat, q: nat, r: nat)
    requires n == q * u + r && r < u
    ensures Rounded(u, q, r) == n <==> r == 0
  {
    assert (q + 1) * u == q * u + u;
  }

  /** NearestDouble(n) is a multiple of the spacing, the k-th, that is nearest to n, and of two such the even one. */
  lemma DoubleIsNearest(n: nat) returns (k: nat)
    ensures NearestDouble(n) == k * Spacing(n)
    ensures 0 - Spacing(n) <= 2 * (n - k * Spacing(n)) <= Spacing(n)
    ensures 2 * (n - k * Spacing(n)) == Spacing(n) || 2 * (n - k * Spacing(n)) == 0 - Spacing(n) ==> k % 2 == 0
  {
    var u := Spacing(n);
    var q, r := DivMod(n, u);
    k := RoundedToNearest(n, u, q, r);
  }

  lemma RoundedToNearest(n: nat, u: nat, q: nat, r: nat) returns (k: nat)
    requires n == q * u + r && r < u
    ensures Rounded(u, q, r) == k * u
    ensures 0 - u <= 2 * (n - k * u) <= u
    ensures 2 * (n - k * u) == u || 2 * (n - k * u) == 0 - u ==> k % 2 == 0
  {
    OneMore(q, u);
    k := if 2 * r < u || (2 * r == u && q % 2 == 0) then q else q + 1;
  }

  lemma DoubleExactUpTo53Bits(n: int)
    requires -0x20_0000_0000_0000 <= n <= 0x20_0000_0000_0000
    ensures Double(n) == n
  {
    var m: nat := if 0 <= n then n else -n;
    if m == TWO_TO_THE_53 {
      assert Spacing(m / 2) == 1;
      assert Spacing(m) == 2;
    }
    DoubleExactIff(m);
  }

  /** 2^53 + 1 is the first integer that does not. */
  lemma DoubleNotExactAfter()
    ensures Double(0x20_0000_0000_0001) == 0x20_0000_0000_0000
  {
    var n := TWO_TO_THE_53 + 1;
    assert n / 2 < TWO_TO_THE_53;
    assert Spacing(n / 2) == 1;
    assert Spacing(n) == 2;
  }

  /** Beyond 2^53 a float64 has 53 significant bits. */
  lemma {:induction false} SpacingBounds(n: nat)
    requires TWO_TO_THE_53 <= n
    ensures TWO_TO_THE_53 / 2 * Spacing(n) <= n
    ensures if n < 2 * TWO_TO_THE_53 then Spacing(n) == 2 else 4 <= Spacing(n)
  {
    if n / 2 < TWO_TO_THE_53 {
      assert Spacing(n / 2) == 1;
    } else {
      SpacingBounds(n / 2);
    }
  }

  lemma Product(a: nat, b: nat, u: nat)
    requires a <= b
    ensures a * u <= b * u
  {
    assert b * u == a * u + (b - a) * u;
  }

  lemma EnoughUnits(h: nat, u: nat, q: nat, r: nat)
    requires h * u <= q * u + r && r < u
    ensures h * u <= q * u
  {
    if q < h {
      Product(q + 1, h, u);
      OneMore(q, u);
      assert false;
    }
    Product(h, q, u);
  }

  lemma OneMore(q: nat, u: nat)
    ensures (q + 1) * u == q * u + u
  {
  }

  lemma RoundedAtLeast(u: nat, q: nat, r: nat)
    ensures q * u <= Rounded(u, q, r)
  {
    OneMore(q, u);
  }

  lemma NearestStaysLarge(m: nat)
    requires TWO_TO_THE_53 <= m
    ensures TWO_TO_THE_53 <= NearestDouble(m)
    ensures TWO_TO_THE_53 + 2 <= m ==> TWO_TO_THE_53 + 2 <= NearestDouble(m)
  {
    var u := Spacing(m);
    var q, r := DivMod(m, u);
    SpacingBounds(m);
    RoundedAtLeast(u, q, r);
    if 2 * TWO_TO_THE_53 <= m {
      EnoughUnits(TWO_TO_THE_53 / 2, u, q, r);
      Product(4, u, TWO_TO_THE_53 / 2);
    }
  }

  /** Rounding does not take an integer below 2^53, nor one above 2^53 + 1 below 2^53 + 2. */
  lemma DoubleStaysLarge(n: int)
    ensures TWO_TO_THE_53 <= n ==> TWO_TO_THE_53 <= Double(n)
    ensures TWO_TO_THE_53 + 2 <= n ==> TWO_TO_THE_53 + 2 <= Double(n)
    ensures n <= -TWO_TO_THE_53 ==> Double(n) <= -TWO_TO_THE_53
  {
    if TWO_TO_THE_53 <= n {
      NearestStaysLarge(n);
    } else if n <= -TWO_TO_THE_53 {
      NearestStaysLarge(-n);
    }
  }

  // ---- values to JSON and back ----

  function ToJson(v: Value): Json {
    match v
    case GNil => JNull
    case GBool(b) => JBool(b)
    case GInt(n) => JInt(n)
    case GInt64(n) => JInt(n)
    case GFloat(x) => JReal(x)
    case GStr(s) => JStr(s)
    case GList(elems) => JArr(seq(|elems|, i requires 0 <= i < |elems| => ToJson(elems[i])))
    case GMap(fields) => JObj(map k | k in fields :: ToJson(fields[k]))
  }

  function FromJson(j: Json): Value {
    match j
    case JNull => GNil
    case JBool(b) => GBool(b)
    case JInt(n) => GFloat(Double(n) as real)
    case JReal(x) => GFloat(x)
    case JStr(s) => GStr(s)
    case JArr(elems) => GList(seq(|elems|, i requires 0 <= i < |elems| => FromJson(elems[i])))
    case JObj(fields) => GMap(map k | k in fields :: FromJson(fields[k]))
  }

  /** What becomes of a value: every number is a float64 afterwards. */
  function Normalize(v: Value): Value {
    match v
    case GInt(n) => GFloat(Double(n) as real)
    case GInt64(n) => GFloat(Double(n) as real)
    case GList(elems) => GList(seq(|elems|, i requires 0 <= i < |elems| => Normalize(elems[i])))
    case GMap(fields) => GMap(map k | k in fields :: Normalize(fields[k]))
    case _ => v
  }

  lemma {:induction false} JsonRoundTrip(v: Value)
    ensures FromJson(ToJson(v)) == Normalize(v)
  {
    match v
    case GList(elems) =>
      forall i | 0 <= i < |elems|
        ensures FromJson(ToJson(elems[i])) == Normalize(elems[i])
      {
        JsonRoundTrip(elems[i]);
      }
    case GMap(fields) =>
      forall k | k in fields
        ensures FromJson(ToJson(fields[k])) == Normalize(fields[k])
      {
        JsonRoundTrip(fields[k]);
      }
    case _ =>
  }

  /** What has been decoded once does not change any more. */
  lemma {:induction false} DecodedIsNormal(j: Json)
    ensures Normalize(FromJson(j)) == FromJson(j)
  {
    match j
    case JArr(elems) =>
      forall i | 0 <= i < |elems|
        ensures Normalize(FromJson(elems[i])) == FromJson(elems[i])
      {
        DecodedIsNormal(elems[i]);
      }
    case JObj(fields) =>
      forall k | k in fields
        ensures Normalize(FromJson(fields[k])) == FromJson(fields[k])
      {
        DecodedIsNormal(fields[k]);
      }
    case _ =>
  }

  // ---- times ----

  // An instant is a natural number; 0 is Go's zero time.

  /** Stands for Format(RFC3339Nano). */
  function TimeText(t: nat): string {
    Decimal(t) + "Z"
  }

  /** Stands for time.Parse: the instant a text prints, if it prints one. */
  function ParseTime(s: string): Option<nat> {
    if |s| > 1 && s[|s| - 1] == 'Z' && (forall i :: 0 <= i < |s| - 1 ==> '0' <= s[i] <= '9')
    then Some(DecimalValue(s[..|s| - 1]))
    else None
  }

  lemma TimeTextParses(t: nat)
    ensures ParseTime(TimeText(t)) == Some(t)
  {
    DecimalValueInverts(t);
    var s := TimeText(t);
    assert s[..|s| - 1] == Decimal(t);
    assert forall i :: 0 <= i < |s| - 1 ==> s[i] == Decimal(t)[i];
  }

  // ---- names ----

  /**
   The name of a JSON member, an extension or a metadata entry. The names the library itself uses
   have a constructor each; Other stands for every other text.
   */
  datatype Name =
    | SpecVersion | Type | Source | Id | Time | DataContentType | DataSchema | Subject | Data | DataBase64
    | PfAttempt | PfMaxAttempts | PfDelayMs | PfDeadLetter | PfOriginalTopic | PfErrorMessage
    | PfTraceId | PfParentId | PfCorrelationId
    | CeSpecVersion | CeType | CeSource | CeId | CeTime | CeDataContentType | CeSubject | CeDataSchema
    | EventMessageSchema | EventSource
    | Other(text: string)

  /** The ten attribute names of the envelope. */
  const ATTRIBUTES: set<Name> :=
    { SpecVersion, Type, Source, Id, Time, DataContentType, DataSchema, Subject, Data, DataBase64 }

  predicate Known(k: Name) {
    k in ATTRIBUTES
  }

  // ---- events ----

  const SPEC_VERSION := "1.0"

  type Extensions = map<Name, Value>

  /** extensions is None for a nil map, data GNil for no data. */
  datatype Event = Event(
    specVersion: string,
    eventType: string,
    source: string,
    id: string,
    time: nat,
    dataContentType: Option<string>,
    dataSchema: Option<string>,
    subject: Option<string>,
    data: Value,
    dataBase64: Option<string>,
    extensions: Option<Extensions>)

  const ZERO_EVENT := Event("", "", "", "", 0, None, None, None, GNil, None, None)

  function ExtensionsOf(e: Event): Extensions {
    if e.extensions.Some? then e.extensions.value else map[]
  }

  predicate Validate(e: Event) {
    e.specVersion == SPEC_VERSION && e.eventType != "" && e.source != "" && e.id != ""
  }

  /** No extension has the name of an attribute. */
  predicate AvoidsKnown(e: Event) {
    forall k :: k in ExtensionsOf(e) ==> !Known(k)
  }

  function NormalizeAll(ext: Extensions): Extensions {
    map k | k in ext :: Normalize(ext[k])
  }

  /** The event with every number a float64 and a nil extension map empty. */
  function NormalizeEvent(e: Event): Event {
    e.(data := Normalize(e.data), extensions := Some(NormalizeAll(ExtensionsOf(e))))
  }

  // ---- encoding ----

  function StringJson(v: Option<string>): Option<Json> {
    if v.Some? then Some(JStr(v.value)) else None
  }

  /** What MarshalJSON writes for an attribute, if it writes it. */
  function AttributeAt(e: Event, k: Name): Option<Json> {
    match k
    case SpecVersion => Some(JStr(e.specVersion))
    case Type => Some(JStr(e.eventType))
    case Source => Some(JStr(e.source))
    case Id => Some(JStr(e.id))
    case Time => if e.time != 0 then Some(JStr(TimeText(e.time))) else None
    case DataContentType => StringJson(e.dataContentType)
    case DataSchema => StringJson(e.dataSchema)
    case Subject => StringJson(e.subject)
    case Data => if e.data != GNil then Some(ToJson(e.data)) else None
    case DataBase64 => StringJson(e.dataBase64)
    case _ => None
  }

  function AttributesOf(e: Event): map<Name, Json> {
    map k | k in ATTRIBUTES && AttributeAt(e, k).Some? :: AttributeAt(e, k).value
  }

  function ToJsonAll(ext: Extensions): map<Name, Json> {
    map k | k in ext :: ToJson(ext[k])
  }

  /** The flat JSON object; extensions are written last, over attributes of the same name. */
  function Encode(e: Event): map<Name, Json> {
    AttributesOf(e) + ToJsonAll(ExtensionsOf(e))
  }

  lemma OneLess(todo: Extensions, k: Name)
    requires k in todo
    ensures ToJsonAll(todo - {k}) == ToJsonAll(todo) - {k} && ToJsonAll(todo)[k] == ToJson(todo[k])
  {
  }

  lemma AddOne<T>(m: map<Name, T>, n: map<Name, T>, k: Name)
    requires k in n
    ensures m[k := n[k]] + (n - {k}) == m + n
  {
  }

  lemma FewerLeft<T>(todo: map<Name, T>, k: Name)
    requires k in todo
    ensures |todo - {k}| < |todo|
  {
    assert (todo - {k}).Keys == todo.Keys - {k};
    assert |todo.Keys| == |todo| && |(todo - {k}).Keys| == |todo - {k}|;
  }

  lemma NothingMore(m: map<Name, Json>)
    ensures m + ToJsonAll(map[]) == m
  {
  }

  /** MarshalJSON, which copies the extensions one by one. */
  method MarshalEvent(e: Event) returns (m: map<Name, Json>)
    ensures m == Encode(e)
  {
    m := AttributesOf(e);
    ghost var all := Encode(e);
    var todo := ExtensionsOf(e);
    while todo != map[]
      invariant m + ToJsonAll(todo) == all
      decreases |todo|
    {
      var k :| k in todo;
      OneLess(todo, k);
      AddOne(m, ToJsonAll(todo), k);
      FewerLeft(todo, k);
      m := m[k := ToJson(todo[k])];
      todo := todo - {k};
    }
    NothingMore(m);
  }

  // ---- decoding ----

  datatype Decoded<T> = Ok(value: T) | Bad(attr: Name) {
    predicate IsFailure() {
      Bad?
    }

    function PropagateFailure<U>(): Decoded<U>
      requires Bad?
    {
      Bad(attr)
    }

    function Extract(): T
      requires Ok?
    {
      value
    }
  }

  /** json.Unmarshal into a string: null leaves it empty. */
  function AsString(j: Json, attr: Name): Decoded<string> {
    match j
    case JStr(s) => Ok(s)
    case JNull => Ok("")
    case _ => Bad(attr)
  }

  function StringAttr(m: map<Name, Json>, attr: Name): Decoded<string> {
    if attr in m then AsString(m[attr], attr) else Ok("")
  }

  function PointerAttr(m: map<Name, Json>, attr: Name): Decoded<Option<string>> {
    if attr in m then
      var s :- AsString(m[attr], attr);
      Ok(Some(s))
    else Ok(None)
  }

  function TimeAttr(m: map<Name, Json>): Decoded<nat> {
    if Time in m then
      var s :- AsString(m[Time], Time);
      var t := ParseTime(s);
      if t.Some? then Ok(t.value) else Bad(Time)
    else Ok(0)
  }

  function DecodedExtensions(m: map<Name, Json>): Extensions {
    map k | k in m && !Known(k) :: FromJson(m[k])
  }

  /** UnmarshalJSON into a zero event. */
  function Decode(m: map<Name, Json>): Decoded<Event> {
    var specVersion :- StringAttr(m, SpecVersion);
    var eventType :- StringAttr(m, Type);
    var source :- StringAttr(m, Source);
    var id :- StringAttr(m, Id);
    var time :- TimeAttr(m);
    var dataContentType :- PointerAttr(m, DataContentType);
    var dataSchema :- PointerAttr(m, DataSchema);
    var subject :- PointerAttr(m, Subject);
    var data := if Data in m then FromJson(m[Data]) else GNil;
    var dataBase64 :- PointerAttr(m, DataBase64);
    Ok(Event(specVersion, eventType, source, id, time, dataContentType, dataSchema, subject, data, dataBase64,
             Some(DecodedExtensions(m))))
  }

  // ---- member by member ----

  lemma EncodedAt(e: Event, k: Name)
    ensures k in Encode(e) <==> k in ExtensionsOf(e) || AttributeAt(e, k).Some?
    ensures k in Encode(e) ==>
              Encode(e)[k] == if k in ExtensionsOf(e) then ToJson(ExtensionsOf(e)[k]) else AttributeAt(e, k).value
  {
  }

  /** The member k of the object is j, or missing if there is none. */
  predicate MemberIs(m: map<Name, Json>, k: Name, j: Option<Json>) {
    if j.Some? then k in m && m[k] == j.value else k !in m
  }

  predicate TextMember(m: map<Name, Json>, k: Name, s: Option<string>) {
    MemberIs(m, k, if s.Some? then Some(JStr(s.value)) else None)
  }

  lemma MemberWritten(e: Event, k: Name)
    requires Known(k) && k !in ExtensionsOf(e)
    ensures MemberIs(Encode(e), k, AttributeAt(e, k))
  {
    EncodedAt(e, k);
  }

  /** Under which name each attribute is written. */
  lemma RequiredWritten(e: Event)
    requires AvoidsKnown(e)
    ensures TextMember(Encode(e), SpecVersion, Some(e.specVersion)) && TextMember(Encode(e), Type, Some(e.eventType))
    ensures TextMember(Encode(e), Source, Some(e.source)) && TextMember(Encode(e), Id, Some(e.id))
  {
    MemberWritten(e, SpecVersion);
    MemberWritten(e, Type);
    MemberWritten(e, Source);
    MemberWritten(e, Id);
  }

  lemma OptionalWritten(e: Event)
    requires AvoidsKnown(e)
    ensures TextMember(Encode(e), Time, if e.time != 0 then Some(TimeText(e.time)) else None)
    ensures TextMember(Encode(e), DataContentType, e.dataContentType) && TextMember(Encode(e), DataSchema, e.dataSchema)
    ensures TextMember(Encode(e), Subject, e.subject) && TextMember(Encode(e), DataBase64, e.dataBase64)
    ensures MemberIs(Encode(e), Data, if e.data != GNil then Some(ToJson(e.data)) else None)
  {
    MemberWritten(e, Time);
    MemberWritten(e, DataContentType);
    MemberWritten(e, DataSchema);
    MemberWritten(e, Subject);
    MemberWritten(e, DataBase64);
    MemberWritten(e, Data);
  }

  /** What a member that is to be a text is taken for: null is the empty one. */
  predicate ReadAs(m: map<Name, Json>, k: Name, s: Option<string>) {
    if k !in m then s.None? else s == Some(if m[k].JStr? then m[k].s else "")
  }

  /** From which member each attribute is read; what is not there is left as it is in a zero event. */
  lemma AttributesRead(m: map<Name, Json>)
    requires Decode(m).Ok?
    ensures var e := Decode(m).value;
            && ReadAs(m, DataContentType, e.dataContentType) && ReadAs(m, DataSchema, e.dataSchema)
            && ReadAs(m, Subject, e.subject) && ReadAs(m, DataBase64, e.dataBase64)
            && (if SpecVersion in m then ReadAs(m, SpecVersion, Some(e.specVersion)) else e.specVersion == "")
            && (if Type in m then ReadAs(m, Type, Some(e.eventType)) else e.eventType == "")
            && (if Source in m then ReadAs(m, Source, Some(e.source)) else e.source == "")
            && (if Id in m then ReadAs(m, Id, Some(e.id)) else e.id == "")
            && (if Time in m then m[Time].JStr? && ParseTime(m[Time].s) == Some(e.time) else e.time == 0)
            && e.data == (if Data in m then FromJson(m[Data]) else GNil)
  {
  }

  /** Every other member is an extension. */
  lemma ExtensionsRead(m: map<Name, Json>, k: Name)
    requires Decode(m).Ok?
    ensures var ext := ExtensionsOf(Decode(m).value);
            && (k in ext <==> k in m && k !in {SpecVersion, Type, Source, Id, Time, DataContentType, DataSchema, Subject, Data, DataBase64})
            && (k in ext ==> ext[k] == FromJson(m[k]))
  {
  }

  /** The member k, if there is one, is a text or null. */
  predicate TextOrNull(m: map<Name, Json>, k: Name) {
    k in m ==> m[k].JStr? || m[k].JNull?
  }

  /** An object is an event if and only if every attribute but the data is a text or null, and a time is a time. */
  lemma DecodesIff(m: map<Name, Json>)
    ensures Decode(m).Ok? <==>
              && TextOrNull(m, SpecVersion) && TextOrNull(m, Type) && TextOrNull(m, Source) && TextOrNull(m, Id)
              && TextOrNull(m, DataContentType) && TextOrNull(m, DataSchema) && TextOrNull(m, Subject)
              && TextOrNull(m, DataBase64)
              && (Time in m ==> m[Time].JStr? && ParseTime(m[Time].s).Some?)
  {
  }

  // ---- the round trip ----

  lemma EncodedExtensions(e: Event)
    requires AvoidsKnown(e)
    ensures DecodedExtensions(Encode(e)) == NormalizeAll(ExtensionsOf(e))
  {
    var ext := ExtensionsOf(e);
    forall k: Name
      ensures k in Encode(e) && !Known(k) <==> k in ext
      ensures k in ext ==> FromJson(Encode(e)[k]) == Normalize(ext[k])
    {
      EncodedAt(e, k);
      if k in ext {
        JsonRoundTrip(ext[k]);
      }
    }
  }

  /** m has exactly what MarshalJSON writes for attribute k. */
  predicate WrittenAt(e: Event, m: map<Name, Json>, k: Name) {
    (k in m <==> AttributeAt(e, k).Some?) && (k in m ==> m[k] == AttributeAt(e, k).value)
  }

  lemma EncodedKnown(e: Event, k: Name)
    requires AvoidsKnown(e) && Known(k)
    ensures WrittenAt(e, Encode(e), k)
  {
    EncodedAt(e, k);
  }

  lemma DecodedPointer(e: Event, m: map<Name, Json>, k: Name, v: Option<string>)
    requires WrittenAt(e, m, k) && AttributeAt(e, k) == StringJson(v)
    ensures PointerAttr(m, k) == Ok(v)
  {
  }

  lemma DecodedTime(e: Event, m: map<Name, Json>)
    requires WrittenAt(e, m, Time)
    ensures TimeAttr(m) == Ok(e.time)
  {
    TimeTextParses(e.time);
  }

  lemma DecodedData(e: Event, m: map<Name, Json>)
    requires WrittenAt(e, m, Data)
    ensures (if Data in m then FromJson(m[Data]) else GNil) == Normalize(e.data)
  {
    JsonRoundTrip(e.data);
  }

  lemma DecodedAttributes(e: Event, m: map<Name, Json>)
    requires WrittenAt(e, m, SpecVersion) && WrittenAt(e, m, Type) && WrittenAt(e, m, Source) && WrittenAt(e, m, Id)
    requires WrittenAt(e, m, Time) && WrittenAt(e, m, Data) && WrittenAt(e, m, DataContentType)
    requires WrittenAt(e, m, DataSchema) && WrittenAt(e, m, Subject) && WrittenAt(e, m, DataBase64)
    ensures Decode(m) == Ok(e.(data := Normalize(e.data), extensions := Some(DecodedExtensions(m))))
  {
    DecodedTime(e, m);
    DecodedData(e, m);
    DecodedPointer(e, m, DataContentType, e.dataContentType);
    DecodedPointer(e, m, DataSchema, e.dataSchema);
    DecodedPointer(e, m, Subject, e.subject);
    DecodedPointer(e, m, DataBase64, e.dataBase64);
    assert StringAttr(m, SpecVersion) == Ok(e.specVersion);
    assert StringAttr(m, Type) == Ok(e.eventType);
    assert StringAttr(m, Source) == Ok(e.source);
    assert StringAttr(m, Id) == Ok(e.id);
  }

  lemma RoundTripHolds(e: Event)
    requires AvoidsKnown(e)
    ensures Decode(Encode(e)) == Ok(NormalizeEvent(e))
  {
    var m := Encode(e);
    forall k: Name | Known(k)
      ensures WrittenAt(e, m, k)
    {
      EncodedKnown(e, k);
    }
    DecodedAttributes(e, m);
    EncodedExtensions(e);
  }

  lemma RoundTripFails(e: Event, k: Name)
    requires k in ExtensionsOf(e) && Known(k)
    ensures Decode(Encode(e)) != Ok(NormalizeEvent(e))
  {
    var d := Decode(Encode(e));
    if d.Ok? {
      assert d.value.extensions == Some(DecodedExtensions(Encode(e)));
      assert k !in DecodedExtensions(Encode(e)) && k in NormalizeAll(ExtensionsOf(e));
    }
  }

  /** An event survives encoding and decoding, up to normalization, if and only if no extension has an attribute's name. */
  lemma EnvelopeRoundTripIff(e: Event)
    ensures Decode(Encode(e)) == Ok(NormalizeEvent(e)) <==> AvoidsKnown(e)
  {
    if AvoidsKnown(e) {
      RoundTripHolds(e);
    } else {
      var k :| k in ExtensionsOf(e) && Known(k);
      RoundTripFails(e, k);
    }
  }

  /** Whatever was decoded avoids the attributes' names and is normal already. */
  lemma DecodedIsStable(m: map<Name, Json>)
    requires Decode(m).Ok?
    ensures AvoidsKnown(Decode(m).value) && NormalizeEvent(Decode(m).value) == Decode(m).value
  {
    var e := Decode(m).value;
    forall k | k in DecodedExtensions(m)
      ensures Normalize(DecodedExtensions(m)[k]) == DecodedExtensions(m)[k]
    {
      DecodedIsNormal(m[k]);
    }
    if Data in m {
      DecodedIsNormal(m[Data]);
    }
    assert NormalizeAll(DecodedExtensions(m)) == DecodedExtensions(m);
  }

  /** From the first hop on, an event no longer changes on its way. */
  lemma SecondHopChangesNothing(m: map<Name, Json>)
    requires Decode(m).Ok?
    ensures Decode(Encode(Decode(m).value)) == Decode(m)
  {
    DecodedIsStable(m);
    EnvelopeRoundTripIff(Decode(m).value);
  }
}
