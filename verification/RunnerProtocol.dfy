/**
 The message envelopes of the runner uplink. The JSON text is left aside: a
 message is the value `json.loads` gives, seen through the keys the code reads.
 */
module RunnerProtocol {
  import opened PyText

  datatype Json =
    | JNull
    | JBool(b: bool)
    | JNum(n: real)
    | JStr(s: string)
    | JArr(items: seq<Json>)
    | JObj(fields: map<string, Json>)

  /** An object with these keys; None is a missing key. */
  datatype Envelope = Envelope(v: Option<Json>, id: Option<Json>, kind: Option<Json>, payload: Option<Json>)

  datatype Raw = NotJson | NotAnObject | Object(envelope: Envelope)

  datatype Kind = Hello | StateKind | Rpc | Reply | EventKind

  /** A decoded message. */
  datatype Message = Message(id: Json, kind: Kind, payload: map<string, Json>)

  predicate Truthy(j: Json) {
    match j
    case JNull => false
    case JBool(b) => b
    case JNum(n) => n != 0.0
    case JStr(s) => s != ""
    case JArr(items) => items != []
    case JObj(fields) => fields != map[]
  }

  /** The values that count as missing. */
  lemma FalsyValues(j: Json)
    ensures !Truthy(j) <==> j in [JNull, JBool(false), JNum(0.0), JStr(""), JArr([]), JObj(map[])]
  {
  }

  function KindText(k: Kind): string {
    match k
    case Hello => "hello"
    case StateKind => "state"
    case Rpc => "rpc"
    case Reply => "reply"
    case EventKind => "event"
  }

  function KindOf(j: Json): Option<Kind> {
    if j == JStr("hello") then Some(Hello)
    else if j == JStr("state") then Some(StateKind)
    else if j == JStr("rpc") then Some(Rpc)
    else if j == JStr("reply") then Some(Reply)
    else if j == JStr("event") then Some(EventKind)
    else None
  }

  /** Python's `x == 1`. */
  predicate EqualsVersion(j: Json) {
    j == JNum(1.0) || j == JBool(true)
  }

  /** `encode_message`; a falsy id is replaced by a generated one. */
  function EncodeMessage(kind: Kind, payload: map<string, Json>, id: Json, newId: string): Envelope {
    Envelope(Some(JNum(1.0)), Some(if Truthy(id) then id else JStr(newId)), Some(JStr(KindText(kind))),
             Some(JObj(payload)))
  }

  /** `decode_message`; None is a raised error. */
  function DecodeMessage(raw: Raw): Option<Message> {
    if !raw.Object? then None
    else
      var e := raw.envelope;
      if e.v.None? || !EqualsVersion(e.v.value) then None
      else if e.kind.None? || KindOf(e.kind.value).None? then None
      else if e.id.None? || !Truthy(e.id.value) then None
      else if e.payload.None? || e.payload.value.JNull? then
        Some(Message(e.id.value, KindOf(e.kind.value).value, map[]))
      else if e.payload.value.JObj? then
        Some(Message(e.id.value, KindOf(e.kind.value).value, e.payload.value.fields))
      else None
  }

  /** What became of one request; Raised is an exception of the handler or of serialising its result. */
  datatype Outcome = UnknownMethod(name: string) | Returned(result: Json) | Raised(text: string)

  function ReplyPayload(outcome: Outcome): map<string, Json> {
    match outcome
    case Returned(result) =>
      map["ok" := JBool(true), "result" := if result.JNull? then JObj(map[]) else result]
    case UnknownMethod(name) => map["ok" := JBool(false), "error" := JStr("unknown method: " + name)]
    case Raised(text) => map["ok" := JBool(false), "error" := JStr(if text == "" then "rpc failed" else text)]
  }

  /** The single reply `_handle_rpc` sends. */
  function EncodeReply(id: Json, outcome: Outcome, newId: string): Envelope {
    EncodeMessage(Reply, ReplyPayload(outcome), id, newId)
  }

  lemma KindRoundTrip(k: Kind)
    ensures KindOf(JStr(KindText(k))) == Some(k)
  {
    assert |"hello"| == 5 && |"state"| == 5 && "hello"[0] != "state"[0] && "reply"[0] != "event"[0];
    assert "hello"[0] != "reply"[0] && "hello"[0] != "event"[0] && "state"[0] != "reply"[0] && "state"[0] != "event"[0];
  }

  /** Decoding an encoded message gives it back; the id survives exactly when it is truthy. */
  lemma MessageRoundTrip(kind: Kind, payload: map<string, Json>, id: Json, newId: string)
    requires Truthy(id) || newId != ""
    ensures var m := DecodeMessage(Object(EncodeMessage(kind, payload, id, newId)));
            && m == Some(Message(if Truthy(id) then id else JStr(newId), kind, payload))
            && (m.value.id == id <==> Truthy(id) || id == JStr(newId))
  {
    KindRoundTrip(kind);
    hide KindOf, KindText;
  }

  lemma DecodedIdIsTruthy(raw: Raw)
    ensures DecodeMessage(raw).Some? ==> Truthy(DecodeMessage(raw).value.id)
  {
  }

  /** A reply to a decoded request carries its id: `encode_message` generates none for a truthy id. */
  lemma ReplyKeepsId(id: Json, outcome: Outcome, newId: string)
    requires Truthy(id)
    ensures DecodeMessage(Object(EncodeReply(id, outcome, newId))) == Some(Message(id, Reply, ReplyPayload(outcome)))
  {
    MessageRoundTrip(Reply, ReplyPayload(outcome), id, newId);
    hide EncodeMessage, ReplyPayload, KindOf;
  }

  /** The texts of the five message types. */
  predicate IsKindText(j: Json, k: Kind) {
    match k
    case Hello => j == JStr("hello")
    case StateKind => j == JStr("state")
    case Rpc => j == JStr("rpc")
    case Reply => j == JStr("reply")
    case EventKind => j == JStr("event")
  }

  /** What is accepted, and what is read from it. */
  lemma DecodesIff(raw: Raw)
    ensures DecodeMessage(raw).Some? <==>
            && raw.Object?
            && raw.envelope.v.Some? && (raw.envelope.v.value == JNum(1.0) || raw.envelope.v.value == JBool(true))
            && raw.envelope.kind.Some? && (exists k :: IsKindText(raw.envelope.kind.value, k))
            && raw.envelope.id.Some? && Truthy(raw.envelope.id.value)
            && (raw.envelope.payload.Some? ==> raw.envelope.payload.value.JNull? || raw.envelope.payload.value.JObj?)
    ensures DecodeMessage(raw).Some? ==>
              var m := DecodeMessage(raw).value;
              && m.id == raw.envelope.id.value && IsKindText(raw.envelope.kind.value, m.kind)
              && m.payload == match raw.envelope.payload { case Some(JObj(fields)) => fields case _ => map[] }
  {
    if raw.Object? && raw.envelope.kind.Some? {
      KindOfIff(raw.envelope.kind.value);
    }
    hide KindOf;
  }

  lemma KindOfIff(j: Json)
    ensures KindOf(j).Some? ==> IsKindText(j, KindOf(j).value)
    ensures KindOf(j).None? ==> forall k :: !IsKindText(j, k)
  {
  }

  /** The fields of an encoded message as the peer finds them. */
  lemma EncodedFields(kind: Kind, payload: map<string, Json>, id: Json, newId: string)
    ensures var e := EncodeMessage(kind, payload, id, newId);
            && e.v == Some(JNum(1.0)) && e.kind.Some? && IsKindText(e.kind.value, kind)
            && e.id == Some(if Truthy(id) then id else JStr(newId)) && e.payload == Some(JObj(payload))
  {
  }

  /** What a reply tells the caller about its request. */
  predicate Says(payload: map<string, Json>, o: Outcome) {
    && payload.Keys == (if o.Returned? then {"ok", "result"} else {"ok", "error"})
    && payload["ok"] == JBool(o.Returned?)
    && (o.Returned? ==> payload["result"] == if o.result == JNull then JObj(map[]) else o.result)
    && (!o.Returned? ==> payload["error"].JStr? && payload["error"].s != "")
    && (o.UnknownMethod? ==> payload["error"].s == "unknown method: " + o.name)
    && (o.Raised? && o.text != "" ==> payload["error"].s == o.text)
    && (o == Raised("") ==> payload["error"].s == "rpc failed")
  }

  /** A reply, as the peer decodes it, has the request's id and says what became of the request. */
  lemma ReplySaysOutcome(id: Json, o: Outcome, newId: string)
    requires Truthy(id)
    ensures var m := DecodeMessage(Object(EncodeReply(id, o, newId)));
            m.Some? && m.value.id == id && m.value.kind.Reply? && Says(m.value.payload, o)
  {
    hide EncodeMessage, DecodeMessage;
    ReplyKeepsId(id, o, newId);
  }
}
