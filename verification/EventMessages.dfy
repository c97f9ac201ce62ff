/** Events as messages of the underlying transport, and back; messages that are no CloudEvents become synthetic events. */
module EventMessages {
  import opened Basics
  import opened Envelope

  type Metadata = map<Name, string>

  /** A payload, with the JSON object it parses to if it does. */
  datatype Payload = Document(members: map<Name, Json>, text: string) | Unparsable(text: string)

  datatype Message = Message(uuid: string, payload: Payload, metadata: Metadata)

  function SignedDecimal(n: int): string {
    if 0 <= n then Decimal(n) else "-" + Decimal(-n)
  }

  /** How an extension is written into metadata; show stands for fmt's %v on the remaining kinds of value. */
  function ValueText(v: Value, show: Value -> string): string {
    match v
    case GStr(s) => s
    case GInt(n) => SignedDecimal(n)
    case GInt64(n) => SignedDecimal(n)
    case GBool(b) => if b then "true" else "false"
    case _ => show(v)
  }

  /** The metadata entry an attribute is mapped to, if it is. */
  function CoreText(e: Event, k: Name): Option<string> {
    match k
    case CeSpecVersion => Some(e.specVersion)
    case CeType => Some(e.eventType)
    case CeSource => Some(e.source)
    case CeId => Some(e.id)
    case CeTime => if e.time != 0 then Some(TimeText(e.time)) else None
    case CeDataContentType => e.dataContentType
    case CeSubject => e.subject
    case CeDataSchema => e.dataSchema
    case _ => None
  }

  const CE_NAMES: set<Name> :=
    { CeSpecVersion, CeType, CeSource, CeId, CeTime, CeDataContentType, CeSubject, CeDataSchema }

  function CoreMetadata(e: Event): Metadata {
    map k | k in CE_NAMES && CoreText(e, k).Some? :: CoreText(e, k).value
  }

  function ExtensionMetadata(ext: Extensions, show: Value -> string): Metadata {
    map k | k in ext && ext[k] != GNil :: ValueText(ext[k], show)
  }

  /** toWatermillMessage; text is the payload's JSON text. */
  function ToMessage(e: Event, text: string, show: Value -> string): Option<Message> {
    if Validate(e)
    then Some(Message(e.id, Document(Encode(e), text), CoreMetadata(e) + ExtensionMetadata(ExtensionsOf(e), show)))
    else None
  }

  predicate CloudEventsName(k: Name) {
    k in CE_NAMES
  }

  function Get(m: Metadata, k: Name): string {
    if k in m then m[k] else ""
  }

  function FirstText(a: string, b: string, c: string): string {
    if a != "" then a else if b != "" then b else c
  }

  /** The event made up for a message that is no valid CloudEvent. */
  function Synthetic(msg: Message): Event {
    var m := msg.metadata;
    var time := if Get(m, CeTime) != "" then ParseTime(Get(m, CeTime)) else None;
    ZERO_EVENT.(
      specVersion := SPEC_VERSION,
      id := msg.uuid,
      eventType := FirstText(Get(m, CeType), Get(m, EventMessageSchema), "unknown"),
      source := FirstText(Get(m, CeSource), Get(m, EventSource), "unknown"),
      time := if time.Some? then time.value else 0,
      data := GStr(msg.payload.text),
      extensions := Some(map k | k in m && !CloudEventsName(k) :: GStr(m[k])))
  }

  /** tryFromWatermillMessage. */
  function FromMessage(msg: Message): Event {
    var decoded := if msg.payload.Document? then Decode(msg.payload.members) else Bad(Id);
    if decoded.Ok? && Validate(decoded.value) then decoded.value else Synthetic(msg)
  }

  /** A valid event whose extensions avoid the attributes' names arrives as it was sent, up to normalization. */
  lemma MessageRoundTrip(e: Event, text: string, show: Value -> string)
    requires Validate(e) && AvoidsKnown(e)
    ensures var msg := ToMessage(e, text, show);
            msg.Some? && msg.value.uuid == e.id && FromMessage(msg.value) == NormalizeEvent(e)
  {
    RoundTripHolds(e);
  }

  /** An event that was decoded, rather than made up, arrives unchanged from then on. */
  lemma ReceivedIsStable(msg: Message, text: string, show: Value -> string)
    requires msg.payload.Document? && Decode(msg.payload.members).Ok? && Validate(Decode(msg.payload.members).value)
    ensures var e := FromMessage(msg);
            Validate(e) && AvoidsKnown(e) && NormalizeEvent(e) == e && FromMessage(ToMessage(e, text, show).value) == e
  {
    DecodedIsStable(msg.payload.members);
    MessageRoundTrip(FromMessage(msg), text, show);
  }

  /** The entry under a name, if there is one. */
  function EntryAt(m: Metadata, k: Name): Option<string> {
    if k in m then Some(m[k]) else None
  }

  lemma MetadataAt(e: Event, text: string, show: Value -> string, k: Name)
    requires Validate(e) && k in CE_NAMES && k !in ExtensionsOf(e)
    ensures EntryAt(ToMessage(e, text, show).value.metadata, k) == CoreText(e, k)
  {
  }

  lemma RequiredEntries(e: Event, m: Metadata)
    requires EntryAt(m, CeSpecVersion) == CoreText(e, CeSpecVersion) && EntryAt(m, CeId) == CoreText(e, CeId)
    requires EntryAt(m, CeType) == CoreText(e, CeType) && EntryAt(m, CeSource) == CoreText(e, CeSource)
    ensures EntryAt(m, CeSpecVersion) == Some(e.specVersion) && EntryAt(m, CeId) == Some(e.id)
    ensures EntryAt(m, CeType) == Some(e.eventType) && EntryAt(m, CeSource) == Some(e.source)
  {
  }

  lemma OptionalEntries(e: Event, m: Metadata)
    requires EntryAt(m, CeTime) == CoreText(e, CeTime) && EntryAt(m, CeDataContentType) == CoreText(e, CeDataContentType)
    requires EntryAt(m, CeSubject) == CoreText(e, CeSubject) && EntryAt(m, CeDataSchema) == CoreText(e, CeDataSchema)
    ensures EntryAt(m, CeTime) == if e.time != 0 then Some(TimeText(e.time)) else None
    ensures EntryAt(m, CeDataContentType) == e.dataContentType
    ensures EntryAt(m, CeSubject) == e.subject && EntryAt(m, CeDataSchema) == e.dataSchema
  {
  }

  predicate AvoidsCore(e: Event) {
    forall k :: k in ExtensionsOf(e) ==>
      k !in {CeSpecVersion, CeType, CeSource, CeId, CeTime, CeDataContentType, CeSubject, CeDataSchema}
  }

  /** The message has the event's id, and its metadata an entry for each core attribute the event has. */
  lemma CoreMetadataSurvives(e: Event, text: string, show: Value -> string)
    requires Validate(e) && AvoidsCore(e)
    ensures ToMessage(e, text, show).value.uuid == e.id
    ensures var m := ToMessage(e, text, show).value.metadata;
            && EntryAt(m, CeSpecVersion) == Some(e.specVersion) && EntryAt(m, CeId) == Some(e.id)
            && EntryAt(m, CeType) == Some(e.eventType) && EntryAt(m, CeSource) == Some(e.source)
            && EntryAt(m, CeTime) == (if e.time != 0 then Some(TimeText(e.time)) else None)
            && EntryAt(m, CeDataContentType) == e.dataContentType
            && EntryAt(m, CeSubject) == e.subject && EntryAt(m, CeDataSchema) == e.dataSchema
  {
    forall k | k in CE_NAMES
      ensures EntryAt(ToMessage(e, text, show).value.metadata, k) == CoreText(e, k)
    {
      MetadataAt(e, text, show, k);
    }
    RequiredEntries(e, ToMessage(e, text, show).value.metadata);
    OptionalEntries(e, ToMessage(e, text, show).value.metadata);
  }

  lemma TextsOf(v: Value, show: Value -> string)
    ensures var text := ValueText(v, show);
            && (v.GStr? ==> text == v.s)
            && ((v.GInt? || v.GInt64?) ==> text == if 0 <= v.n then Decimal(v.n) else "-" + Decimal(-v.n))
            && (v.GBool? ==> text == if v.b then "true" else "false")
            && (v.GFloat? || v.GList? || v.GMap? ==> text == show(v))
  {
  }

  lemma ExtensionAt(e: Event, text: string, show: Value -> string, k: Name)
    requires Validate(e)
    ensures var ext, m := ExtensionsOf(e), ToMessage(e, text, show).value.metadata;
            && (k !in CE_NAMES ==> (k in m <==> k in ext && ext[k] != GNil))
            && (k in ext && ext[k] != GNil ==> k in m && m[k] == ValueText(ext[k], show))
  {
  }

  /**
   Every extension that is not nil is an entry, over a core attribute of the same name; texts stay as they
   are, integers are written in decimals and flags as words. There are no other entries.
   */
  lemma ExtensionsSurvive(e: Event, text: string, show: Value -> string, k: Name)
    requires Validate(e)
    ensures var ext, m := ExtensionsOf(e), ToMessage(e, text, show).value.metadata;
            && (k !in CE_NAMES ==> (k in m <==> k in ext && ext[k] != GNil))
            && (k in ext && ext[k] != GNil ==>
                  && k in m
                  && (ext[k].GStr? ==> m[k] == ext[k].s)
                  && ((ext[k].GInt? || ext[k].GInt64?) ==>
                        m[k] == if 0 <= ext[k].n then Decimal(ext[k].n) else "-" + Decimal(-ext[k].n))
                  && (ext[k].GBool? ==> m[k] == if ext[k].b then "true" else "false")
                  && (ext[k].GFloat? || ext[k].GList? || ext[k].GMap? ==> m[k] == show(ext[k])))
  {
    ExtensionAt(e, text, show, k);
    if k in ExtensionsOf(e) {
      TextsOf(ExtensionsOf(e)[k], show);
    }
  }

  /** The first of two entries that is a text, or "unknown". */
  predicate TakenFrom(attr: string, m: Metadata, first: Name, second: Name) {
    if first in m && m[first] != "" then attr == m[first]
    else if second in m && m[second] != "" then attr == m[second]
    else attr == "unknown"
  }

  /**
   A message that is no valid CloudEvent becomes an event with the message's id and payload, whose type,
   source and time are taken from the metadata.
   */
  lemma MadeUp(msg: Message)
    requires msg.payload.Document? && Decode(msg.payload.members).Ok? ==> !Validate(Decode(msg.payload.members).value)
    ensures var e, m := FromMessage(msg), msg.metadata;
            && e.specVersion == "1.0" && e.id == msg.uuid && e.data == GStr(msg.payload.text)
            && TakenFrom(e.eventType, m, CeType, EventMessageSchema)
            && TakenFrom(e.source, m, CeSource, EventSource)
            && e.time == (if CeTime in m && ParseTime(m[CeTime]).Some? then ParseTime(m[CeTime]).value else 0)
            && e.dataContentType.None? && e.dataSchema.None? && e.subject.None? && e.dataBase64.None?
            && e.extensions.Some?
  {
  }

  /** Its extensions are the entries under other names than those of core attributes, as texts. */
  lemma MadeUpExtensions(msg: Message, k: Name)
    requires msg.payload.Document? && Decode(msg.payload.members).Ok? ==> !Validate(Decode(msg.payload.members).value)
    ensures var ext, m := ExtensionsOf(FromMessage(msg)), msg.metadata;
            && (k in ext <==>
                  k in m && k !in {CeSpecVersion, CeType, CeSource, CeId, CeTime, CeDataContentType, CeSubject, CeDataSchema})
            && (k in ext ==> ext[k] == GStr(m[k]))
  {
  }

  /** If the payload of an event's message is damaged, its id, type, source and time are recovered from the metadata. */
  lemma DamagedPayloadRecovers(e: Event, text: string, show: Value -> string, damaged: string)
    requires Validate(e) && AvoidsCore(e)
    ensures var r := FromMessage(ToMessage(e, text, show).value.(payload := Unparsable(damaged)));
            && Validate(r) && r.id == e.id && r.eventType == e.eventType && r.source == e.source && r.time == e.time
            && r.data == GStr(damaged)
  {
    TimeTextParses(e.time);
    CoreMetadataSurvives(e, text, show);
    MadeUp(ToMessage(e, text, show).value.(payload := Unparsable(damaged)));
  }
}
