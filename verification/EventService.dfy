/**
 The event service as the code runs it. An event is passed by value, but its extension map is shared:
 whoever holds a copy of the event sees what is written into the map, unless the map was nil when the
 copy was made. Each delivery is proved to do what Lifecycle.Deliver says, up to what the handler itself
 writes into the map.
 */
module EventService {
  import opened Basics
  import opened ErrorChains
  import opened Envelope
  import opened EventMessages
  import opened Lifecycle

  /** A Go map from extension names to values. */
  class ExtensionMap {
    var entries: Extensions

    constructor (entries: Extensions)
      ensures this.entries == entries
    {
      this.entries := entries;
    }
  }

  /** A copy of an event: its own attributes, and a map it may share with other copies, or nil. */
  datatype Copy = Copy(attrs: Event, ext: ExtensionMap?)

  /** What the copy amounts to at the moment. */
  function EventOf(c: Copy): Event
    reads c.ext
  {
    c.attrs.(extensions := if c.ext == null then None else Some(c.ext.entries))
  }

  function MapOf(c: Copy): set<object> {
    if c.ext == null then {} else {c.ext}
  }

  /** Writing through a pointer to the copy, which is r afterwards: the map is made if it is nil, and changed in place if it is not. */
  method SetExtension(c: Copy, k: Name, v: Value) returns (r: Copy)
    modifies MapOf(c)
    ensures EventOf(r) == WithExtension(old(EventOf(c)), k, v)
    ensures r.ext != null && (if c.ext == null then fresh(r.ext) else r.ext == c.ext)
  {
    r := c;
    if r.ext == null {
      var m := new ExtensionMap(map[]);
      r := r.(ext := m);
    }
    r.ext.entries := r.ext.entries[k := v];
  }

  /** IncrementAttempt. */
  method CountAttempt(c: Copy) returns (r: Copy)
    modifies MapOf(c)
    ensures EventOf(r) == IncrementAttempt(old(EventOf(c)))
    ensures r.ext != null && (if c.ext == null then fresh(r.ext) else r.ext == c.ext)
  {
    var current := GetAttempt(EventOf(c));
    r := SetExtension(c, PfAttempt, GInt(WrapInt64(current + 1)));
  }

  /** PrepareForDLQ. */
  method PrepareForDLQ(c: Copy, topic: string, message: string) returns (r: Copy)
    modifies MapOf(c)
    ensures EventOf(r) == Buried(old(EventOf(c)), topic, message)
    ensures r.ext != null && (if c.ext == null then fresh(r.ext) else r.ext == c.ext)
  {
    r := SetExtension(c, PfDeadLetter, GBool(true));
    r := SetExtension(r, PfOriginalTopic, GStr(topic));
    r := SetExtension(r, PfErrorMessage, GStr(message));
  }

  /**
   The wrapper a registration puts around the handler: it sets the maximum on its own copy of the
   event. The caller sees it if and only if the map was there before.
   */
  method SetMaximum(c: Copy, maxAttempts: int)
    modifies MapOf(c)
    ensures EventOf(c) == if c.ext == null then old(EventOf(c))
                          else WithExtension(old(EventOf(c)), PfMaxAttempts, GInt(maxAttempts))
  {
    var _ := SetExtension(c, PfMaxAttempts, GInt(maxAttempts));
  }

  /** Clone: equal now, with a map of its own. What the entries hold is not copied. */
  method Clone(c: Copy) returns (r: Copy)
    ensures EventOf(r) == EventOf(c)
    ensures r.ext == null <==> c.ext == null
    ensures r.ext != null ==> fresh(r.ext)
  {
    r := c;
    if c.ext != null {
      var m := new ExtensionMap(map[]);
      var todo := c.ext.entries.Keys;
      while todo != {}
        invariant todo <= c.ext.entries.Keys && m.entries.Keys == c.ext.entries.Keys - todo
        invariant forall k :: k in m.entries ==> m.entries[k] == c.ext.entries[k]
        invariant EventOf(c) == old(EventOf(c)) && fresh(m)
        decreases |todo|
      {
        var k :| k in todo;
        m.entries := m.entries[k := c.ext.entries[k]];
        todo := todo - {k};
      }
      assert m.entries == c.ext.entries;
      r := r.(ext := m);
    }
  }

  /** Writing an entry of a clone leaves the original alone. */
  method WriteToClone(c: Copy, k: Name, v: Value) returns (r: Copy)
    ensures EventOf(c) == old(EventOf(c))
    ensures EventOf(r) == WithExtension(EventOf(c), k, v)
  {
    r := Clone(c);
    r := SetExtension(r, k, v);
  }

  /** tryFromWatermillMessage: decoding makes a map, even for an event without extensions. */
  method Receive(msg: Message) returns (c: Copy)
    ensures fresh(c.ext) && EventOf(c) == FromMessage(msg)
    ensures (msg.payload.Document? && Decode(msg.payload.members).Ok? ==> !Validate(Decode(msg.payload.members).value)) ==>
              && c.attrs.id == msg.uuid && c.attrs.data == GStr(msg.payload.text)
              && TakenFrom(c.attrs.eventType, msg.metadata, CeType, EventMessageSchema)
              && TakenFrom(c.attrs.source, msg.metadata, CeSource, EventSource)
              && forall k :: k in c.ext.entries <==>
                   k in msg.metadata
                   && k !in {CeSpecVersion, CeType, CeSource, CeId, CeTime, CeDataContentType, CeSubject, CeDataSchema}
  {
    var e := FromMessage(msg);
    var m := new ExtensionMap(ExtensionsOf(e));
    c := Copy(e, m);
  }

  /** GetExtensionString: what is no string is printed. */
  function GetText(e: Event, k: Name, show: Value -> string): string {
    if k in ExtensionsOf(e) && ExtensionsOf(e)[k] != GNil then ValueText(ExtensionsOf(e)[k], show) else ""
  }

  /** One tracing entry is copied, as text, if the source has it; otherwise the destination keeps its own. */
  function Traced(dst: Event, k: Name, text: string): Event {
    if text != "" then WithExtension(dst, k, GStr(text)) else dst
  }

  /** The entries the three steps copy are texts of the source's, where it has any; everything else stays as it was. */
  lemma TracingCopied(s: Event, d: Event, k: Name, show: Value -> string)
    ensures var first := Traced(d, PfTraceId, GetText(s, PfTraceId, show));
            var second := Traced(first, PfParentId, GetText(s, PfParentId, show));
            var r := Traced(second, PfCorrelationId, GetText(s, PfCorrelationId, show));
            && r == d.(extensions := r.extensions)
            && (if (k.PfTraceId? || k.PfParentId? || k.PfCorrelationId?)
                   && k in ExtensionsOf(s) && ExtensionsOf(s)[k] != GNil && ValueText(ExtensionsOf(s)[k], show) != ""
                then k in ExtensionsOf(r) && ExtensionsOf(r)[k] == GStr(ValueText(ExtensionsOf(s)[k], show))
                else (k in ExtensionsOf(r) <==> k in ExtensionsOf(d))
                     && (k in ExtensionsOf(d) ==> ExtensionsOf(r)[k] == ExtensionsOf(d)[k]))
  {
  }

  predicate SharesMap(a: Copy, b: Copy) {
    a.ext != null && a.ext == b.ext
  }

  /** CopyTracingContext. A source that shares its map with the destination has its own entries made text. */
  method CopyTracingContext(src: Copy, dst: Copy, show: Value -> string) returns (r: Copy)
    modifies MapOf(dst)
    ensures var s, d := old(EventOf(src)), old(EventOf(dst));
            var first := Traced(d, PfTraceId, GetText(s, PfTraceId, show));
            var second := Traced(first, PfParentId, GetText(s, PfParentId, show));
            EventOf(r) == Traced(second, PfCorrelationId, GetText(s, PfCorrelationId, show))
    ensures !SharesMap(src, dst) ==> EventOf(src) == old(EventOf(src))
  {
    r := CopyText(src, dst, PfTraceId, show);
    r := CopyText(src, r, PfParentId, show);
    r := CopyText(src, r, PfCorrelationId, show);
  }

  method CopyText(src: Copy, dst: Copy, k: Name, show: Value -> string) returns (r: Copy)
    modifies MapOf(dst)
    ensures EventOf(r) == Traced(old(EventOf(dst)), k, old(GetText(EventOf(src), k, show)))
    ensures !SharesMap(src, dst) ==> EventOf(src) == old(EventOf(src))
    ensures forall j :: j != k ==> GetText(EventOf(src), j, show) == old(GetText(EventOf(src), j, show))
    ensures r.ext == dst.ext || fresh(r.ext)
  {
    r := dst;
    var text := GetText(EventOf(src), k, show);
    if text != "" {
      r := SetExtension(dst, k, GStr(text));
    }
  }

  /** A message handed to the publisher. */
  datatype Sent = Sent(topic: string, message: Message)

  function SentAs(p: Publication, text: string, show: Value -> string): Sent
    requires Validate(p.event)
  {
    Sent(p.topic, ToMessage(p.event, text, show).value)
  }

  function AllSent(ps: seq<Publication>, text: string, show: Value -> string): seq<Sent>
    requires forall i :: 0 <= i < |ps| ==> Validate(ps[i].event)
  {
    seq(|ps|, i requires 0 <= i < |ps| => SentAs(ps[i], text, show))
  }

  lemma AnswersAreValid(c: Consumer, seen: Event, err: Option<Err>, message: string, works: bool)
    ensures var ps := Answer(c, seen, err, message, works).published;
            forall i :: 0 <= i < |ps| ==> Validate(ps[i].event)
  {
  }

  class Service {
    // What the publisher has accepted so far.
    var sent: seq<Sent>

    constructor ()
      ensures sent == []
    {
      sent := [];
    }

    /** PublishEvent; works is what the publisher answers. */
    method PublishEvent(c: Copy, works: bool, text: string, show: Value -> string) returns (ok: bool)
      modifies `sent
      ensures ok <==> Lifecycle.PublishEvent(EventOf(c), works) != []
      ensures ok <==> works && c.attrs.specVersion == "1.0" && c.attrs.eventType != "" && c.attrs.source != "" && c.attrs.id != ""
      ensures sent == old(sent) + AllSent(Lifecycle.PublishEvent(EventOf(c), works), text, show)
    {
      var e := EventOf(c);
      var msg := ToMessage(e, text, show);
      ok := msg.Some? && works;
      if ok {
        sent := sent + [Sent(e.eventType, msg.value)];
      }
      assert sent == old(sent) + AllSent(Lifecycle.PublishEvent(e, works), text, show);
    }

    /**
     wrapCloudEventsHandler: acked says whether it returns nil. The handler has a copy of the event
     that shares the map; rewrite is what it makes of the entries.
     */
    method HandleMessage(c: Consumer, msg: Message, rewrite: Extensions -> Extensions, err: Option<Err>, message: string,
                         works: bool, text: string, show: Value -> string)
      returns (acked: bool)
      modifies `sent
      ensures var seen := Seen(c, FromMessage(msg));
              var left := seen.(extensions := Some(rewrite(ExtensionsOf(seen))));
              var o := Answer(c, left, err, message, works);
              && acked == o.acked
              && (forall i :: 0 <= i < |o.published| ==> Validate(o.published[i].event))
              && sent == old(sent) + AllSent(o.published, text, show)
              && (rewrite(ExtensionsOf(seen)) == ExtensionsOf(seen) ==> o == Deliver(c, FromMessage(msg), err, message, works))
      ensures !acked ==> sent == old(sent)
    {
      var evt := Receive(msg);
      evt := CountAttempt(evt);
      if c.maxAttempts.Some? {
        SetMaximum(evt, c.maxAttempts.value);
      }
      assert EventOf(evt) == Seen(c, FromMessage(msg));
      evt.ext.entries := rewrite(evt.ext.entries);
      acked := HandleResult(c, evt, err, message, works, text, show);
    }

    /** handleCloudEventsResult and sendToCloudEventsDLQ, on the copy the handler was given. */
    method HandleResult(c: Consumer, evt: Copy, err: Option<Err>, message: string, works: bool, text: string,
                        show: Value -> string)
      returns (acked: bool)
      requires evt.ext != null
      modifies `sent, evt.ext
      ensures var o := Answer(c, old(EventOf(evt)), err, message, works);
              && acked == o.acked
              && (forall i :: 0 <= i < |o.published| ==> Validate(o.published[i].event))
              && sent == old(sent) + AllSent(o.published, text, show)
      ensures var seen := old(EventOf(evt));
              !acked <==>
                && IsRetryable(err) && GetAttempt(seen) < GetMaxAttempts(seen)
                && !(ClassifyError(err).0 == ResultRetryAfter && c.supportsDelay && works && Validate(seen))
      ensures !acked ==> sent == old(sent)
    {
      ghost var e := EventOf(evt);
      AnswersAreValid(c, e, err, message, works);
      UnacknowledgedIff(c, e, err, message, works);
      var (result, delay) := ClassifyError(err);
      var exceeded := ExceedsMaxAttempts(EventOf(evt));
      match result {
        case ResultAck =>
          acked := true;
        case ResultSkip =>
          acked := true;
        case ResultRetry =>
          acked := exceeded;
          if exceeded {
            Bury(c, evt, message, works, text, show);
          }
        case ResultRetryAfter =>
          if exceeded {
            Bury(c, evt, message, works, text, show);
            acked := true;
          } else if c.supportsDelay {
            var again := SetExtension(evt, PfDelayMs, GInt64(TruncatedDiv(delay, NANOS_PER_MILLI)));
            acked := this.PublishEvent(again, works, text, show);
          } else {
            acked := false;
          }
        case ResultDeadLetter =>
          Bury(c, evt, message, works, text, show);
          acked := true;
      }
    }

    /** sendToCloudEventsDLQ: a failing publisher is logged and forgotten. */
    method Bury(c: Consumer, evt: Copy, message: string, works: bool, text: string, show: Value -> string)
      requires evt.ext != null
      modifies `sent, evt.ext
      ensures var p := Lifecycle.PublishEvent(Buried(old(EventOf(evt)), c.topic, message), works);
              sent == old(sent) + AllSent(p, text, show)
    {
      var dead := PrepareForDLQ(evt, c.topic, message);
      var _ := this.PublishEvent(dead, works, text, show);
    }
  }
}
