/**
 * The responses that the join handshake waits for (core/service/signaling_models.h:74-126, 156-217
 * and 305-331): their types, and what their messages must hold for the tasks that use them
 * (core/service/room_client.cpp:266-285, 380-418 and 498-510).
 */
module Responses {
  import opened Basics
  import opened JsonModel
  import opened JsonLaws
  import opened JsonMessages
  import opened JsonMeaning
  import opened Dispatch

  datatype Request = Capabilities | SendTransport | RecvTransport | JoinRoom

  /** What an API callback is given: an error code, or a response with its optional `ok`; `usable`
      says that every optional is set that the task of the request dereferences. */
  datatype Answer = Failed(code: int) | Response(ok: Option<bool>, usable: bool)

  // ---------------------------------------------------------------- types

  const OPTIONAL_INT := Optional(Pod(TInt))

  const FINGERPRINT := Field("algorithm", OPTIONAL_STRING, Field("value", OPTIONAL_STRING, End))

  const DTLS_PARAMETERS :=
    Field("fingerprints", Optional(StructVector(FINGERPRINT)), Field("role", OPTIONAL_STRING, End))

  const ICE_CANDIDATE :=
    Field("type", OPTIONAL_STRING, Field("protocol", OPTIONAL_STRING, Field("foundation", OPTIONAL_STRING,
    Field("ip", OPTIONAL_STRING, Field("port", OPTIONAL_INT, Field("priority", OPTIONAL_INT, End))))))

  const ICE_PARAMETERS := Three("iceLite", OPTIONAL_BOOL, "password", OPTIONAL_STRING, "usernameFragment", OPTIONAL_STRING)

  const SCTP_SIZES :=
    Field("port", OPTIONAL_INT, Field("maxMessageSize", OPTIONAL_INT, Field("sctpBufferedAmount", OPTIONAL_INT,
    Field("sendBufferSize", OPTIONAL_INT, End))))

  function SctpFields(sizes: Fields): Fields {
    Field("MIS", OPTIONAL_INT, Field("OS", OPTIONAL_INT, Field("isDataChannel", OPTIONAL_BOOL, sizes)))
  }

  const SCTP_PARAMETERS := SctpFields(SCTP_SIZES)

  function TransportFields(dtls: Type, candidates: Type, ice: Type, sctp: Type): Fields {
    Field("id", OPTIONAL_STRING, Field("dtlsParameters", Optional(dtls), Field("iceCandidates", Optional(candidates),
    Field("iceParameters", Optional(ice), Field("sctpParameters", Optional(sctp), End)))))
  }

  const TRANSPORT_DATA :=
    TransportFields(Struct(DTLS_PARAMETERS), StructVector(ICE_CANDIDATE), Struct(ICE_PARAMETERS), Struct(SCTP_PARAMETERS))

  const RTCP_FEEDBACK := Field("type", OPTIONAL_STRING, Field("parameter", OPTIONAL_STRING, End))

  const CODEC_PARAMETERS :=
    Field("apt", OPTIONAL_INT, Field("level-asymmetry-allowed", OPTIONAL_INT, Field("packetization-mode", OPTIONAL_INT,
    Field("profile-level-id", OPTIONAL_STRING, Field("x-google-start-bitrate", OPTIONAL_INT, End)))))

  const CODEC :=
    Field("kind", OPTIONAL_STRING, Field("mimeType", OPTIONAL_STRING, Field("clockRate", OPTIONAL_INT,
    Field("channels", OPTIONAL_INT, Field("rtcpFeedback", Optional(StructVector(RTCP_FEEDBACK)),
    Field("parameters", Optional(Struct(CODEC_PARAMETERS)), Field("preferredPayloadType", OPTIONAL_INT, End)))))))

  const HEADER_EXTENSION :=
    Field("kind", OPTIONAL_STRING, Field("uri", OPTIONAL_STRING, Field("preferredId", OPTIONAL_INT,
    Field("preferredEncrypt", OPTIONAL_BOOL, Field("direction", OPTIONAL_STRING, End)))))

  const CAPABILITIES_DATA :=
    Field("codecs", Optional(StructVector(CODEC)), Field("headerExtensions", Optional(StructVector(HEADER_EXTENSION)), End))

  const DEVICE := Three("flag", OPTIONAL_STRING, "name", OPTIONAL_STRING, "version", OPTIONAL_STRING)

  const PEER := Three("id", OPTIONAL_STRING, "displayName", OPTIONAL_STRING, "device", Optional(Struct(DEVICE)))

  const JOIN_DATA := Field("peers", Optional(StructVector(PEER)), End)

  /** The four fields of a response type; the first is `request` where the source has it so. */
  function Answering(first: string, data: Fields): Fields { Field(first, OPTIONAL_BOOL, AnsweringTail(data)) }

  function AnsweringTail(data: Fields): Fields {
    Field("id", OPTIONAL_ID, Field("ok", OPTIONAL_BOOL, Field("data", Optional(Struct(data)), End)))
  }

  predicate IsTransport(q: Request) { q.SendTransport? || q.RecvTransport? }

  function DataType(q: Request): Fields {
    match q
    case Capabilities => CAPABILITIES_DATA
    case SendTransport => TRANSPORT_DATA
    case RecvTransport => TRANSPORT_DATA
    case JoinRoom => JOIN_DATA
  }

  function FirstName(q: Request): string { if IsTransport(q) then "request" else "response" }

  function ResponseType(q: Request): Fields { Answering(FirstName(q), DataType(q)) }

  // ---------------------------------------------------------------- what a callback is given

  /** A new response object: `ok` and `data` are empty; the other two may have default values. */
  predicate Blank(q: Request, ts: seq<Val>) {
    |ts| == 4 && TypedFields(ResponseType(q), ts) && ts[2] == VNone && ts[3] == VNone
  }

  function Flagged(v: Val): Option<bool> { if v.VSome? && v.value.VBool? then Some(v.value.b) else None }

  /** createTransportImpl dereferences four optionals of the data, the other tasks only the data. */
  predicate Usable(q: Request, data: Val) {
    && data.VSome?
    && (IsTransport(q) ==> data.value.VStruct? && |data.value.fields| == 5 && forall i :: 1 <= i < 5 ==> data.value.fields[i].VSome?)
  }

  function AnswerOf(q: Request, vs: seq<Val>): Answer
    requires |vs| == 4
  {
    Response(Flagged(vs[2]), Usable(q, vs[3]))
  }

  /** The answer that a message gives its request; no callback runs if the message cannot be read. */
  function AnswerIn(q: Request, ms: seq<(string, Json)>, ts: seq<Val>): Option<Answer>
    requires Blank(q, ts)
  {
    var r := ReadFields(ResponseType(q), JObject(ms), ts);
    if r.Ok? && |r.value| == 4 then Some(AnswerOf(q, r.value)) else None
  }

  // ---------------------------------------------------------------- what the message must hold

  /** A member that is there and not null. */
  predicate Present(ms: seq<(string, Json)>, name: string) {
    var m := Find(ms, name);
    m.Some? && !m.value.JNull?
  }

  function OkIn(ms: seq<(string, Json)>): Option<bool> {
    var m := Find(ms, "ok");
    if m.Some? && m.value.JBool? then Some(m.value.b) else None
  }

  predicate FourThere(data: Json) {
    && data.JObject?
    && Present(data.members, "dtlsParameters") && Present(data.members, "iceCandidates")
    && Present(data.members, "iceParameters") && Present(data.members, "sctpParameters")
  }

  predicate UsableIn(q: Request, ms: seq<(string, Json)>) {
    Present(ms, "data") && (IsTransport(q) ==> FourThere(Find(ms, "data").value))
  }

  /** Reading fields one by one. */
  lemma ReadFirst(name: string, ty: Type, rest: Fields, j: Json, ts: seq<Val>, vs: seq<Val>)
    requires TypedFields(Field(name, ty, rest), ts) && ReadFields(Field(name, ty, rest), j, ts) == Ok(vs)
    ensures ts != [] && vs != [] && Typed(ty, ts[0]) && TypedFields(rest, ts[1..])
    ensures ReadMember(ty, j, name, ts[0]) == Ok(vs[0]) && ReadFields(rest, j, ts[1..]) == Ok(vs[1..])
  {
  }

  /** An empty optional is set by reading exactly when the member is there and not null. */
  lemma OptionalRead(ty: Type, ms: seq<(string, Json)>, name: string, v: Val)
    requires ReadMember(Optional(ty), JObject(ms), name, VNone) == Ok(v)
    ensures v.VSome? <==> Present(ms, name)
    ensures v.VSome? ==> ReadMember(ty, JObject(ms), name, Fresh(ty)) == Ok(v.value)
  {
  }

  lemma FlagRead(ms: seq<(string, Json)>, v: Val)
    requires ReadMember(OPTIONAL_BOOL, JObject(ms), "ok", VNone) == Ok(v)
    ensures Flagged(v) == OkIn(ms)
  {
  }

  lemma AnsweringRead(first: string, data: Fields, j: Json, ts: seq<Val>, vs: seq<Val>)
    requires |ts| == 4 && TypedFields(Answering(first, data), ts) && ReadFields(Answering(first, data), j, ts) == Ok(vs)
    ensures |vs| == 4 && Typed(OPTIONAL_BOOL, ts[2]) && Typed(Optional(Struct(data)), ts[3])
    ensures ReadMember(OPTIONAL_BOOL, j, "ok", ts[2]) == Ok(vs[2])
    ensures ReadMember(Optional(Struct(data)), j, "data", ts[3]) == Ok(vs[3])
  {
    var d := Field("data", Optional(Struct(data)), End);
    var c := Field("ok", OPTIONAL_BOOL, d);
    var b := Field("id", OPTIONAL_ID, c);
    ReadFirst(first, OPTIONAL_BOOL, b, j, ts, vs);
    ReadFirst("id", OPTIONAL_ID, c, j, ts[1..], vs[1..]);
    ReadFirst("ok", OPTIONAL_BOOL, d, j, ts[1..][1..], vs[1..][1..]);
    ReadFirst("data", Optional(Struct(data)), End, j, ts[1..][1..][1..], vs[1..][1..][1..]);
    Thirds(ts);
    Thirds(vs);
  }

  lemma Thirds(vs: seq<Val>)
    requires |vs| >= 4
    ensures vs[1..][1..][0] == vs[2] && vs[1..][1..][1..][0] == vs[3]
  {
  }

  /** The four optionals of the transport data, read from a tree into a new object. */
  lemma TransportRead(dtls: Type, candidates: Type, ice: Type, sctp: Type, fs: Fields, j: Json, vs: seq<Val>)
    requires fs == TransportFields(dtls, candidates, ice, sctp) && ReadFields(fs, j, FreshFields(fs)) == Ok(vs)
    ensures |vs| == 5 && ((forall i :: 1 <= i < 5 ==> vs[i].VSome?) <==> FourThere(j))
  {
    var e := Field("sctpParameters", Optional(sctp), End);
    var d := Field("iceParameters", Optional(ice), e);
    var c := Field("iceCandidates", Optional(candidates), d);
    var b := Field("dtlsParameters", Optional(dtls), c);
    var x0, v0 := ReadEmpty("id", Pod(TString), b, fs, j, vs);
    var x1, v1 := ReadEmpty("dtlsParameters", dtls, c, b, j, v0);
    var x2, v2 := ReadEmpty("iceCandidates", candidates, d, c, j, v1);
    var x3, v3 := ReadEmpty("iceParameters", ice, e, d, j, v2);
    var x4, v4 := ReadEmpty("sctpParameters", sctp, End, e, j, v3);
    assert v4 == [];
    FiveOf(x0, x1, x2, x3, x4, vs);
  }

  lemma FiveOf(x0: Val, x1: Val, x2: Val, x3: Val, x4: Val, vs: seq<Val>)
    requires vs == [x0] + ([x1] + ([x2] + ([x3] + ([x4] + []))))
    ensures |vs| == 5 && vs[1] == x1 && vs[2] == x2 && vs[3] == x3 && vs[4] == x4
  {
  }

  /** One optional field of a new object. */
  lemma ReadEmpty(name: string, ty: Type, rest: Fields, fs: Fields, j: Json, vs: seq<Val>) returns (x: Val, more: seq<Val>)
    requires fs == Field(name, Optional(ty), rest) && ReadFields(fs, j, FreshFields(fs)) == Ok(vs)
    ensures vs == [x] + more
    ensures ReadFields(rest, j, FreshFields(rest)) == Ok(more)
    ensures j.JObject? && (x.VSome? <==> Present(j.members, name))
  {
    var ts := FreshFields(fs);
    assert Fresh(Optional(ty)) == VNone;
    assert ts == [VNone] + FreshFields(rest);
    ReadFirst(name, Optional(ty), rest, j, ts, vs);
    x, more := FirstRest(vs);
    OptionalRead(ty, j.members, name, x);
  }

  /** Data that was read: the tree it was read from. */
  lemma DataRead(data: Fields, ms: seq<(string, Json)>, v: Val)
    requires ReadMember(Struct(data), JObject(ms), "data", Fresh(Struct(data))) == Ok(v)
    ensures v.VStruct? && Find(ms, "data").Some?
    ensures ReadFields(data, Find(ms, "data").value, FreshFields(data)) == Ok(v.fields)
  {
    assert Fresh(Struct(data)) == VStruct(FreshFields(data));
  }

  /** A message gives an answer exactly when the response type accepts it; otherwise, for instance when
      an ICE candidate has a port that is no number, no callback runs. */
  lemma AnswerIff(q: Request, ms: seq<(string, Json)>, ts: seq<Val>)
    requires Blank(q, ts)
    ensures AnswerIn(q, ms, ts).Some? <==> FitsFields(ResponseType(q), JObject(ms))
  {
    var r := ReadFields(ResponseType(q), JObject(ms), ts);
    ReadsIff(ResponseType(q), JObject(ms), ts);
    if r.Ok? { AnsweringRead(FirstName(q), DataType(q), JObject(ms), ts, r.value); }
  }

  /** The answer that a message gives depends on `ok` and, for a transport, on four members of its
      `data`; the members decide it exactly. */
  lemma AnswerMeans(q: Request, ms: seq<(string, Json)>, ts: seq<Val>)
    requires Blank(q, ts) && AnswerIn(q, ms, ts).Some?
    ensures AnswerIn(q, ms, ts) == Some(Response(OkIn(ms), UsableIn(q, ms)))
  {
    var r := ReadFields(ResponseType(q), JObject(ms), ts);
    AnsweringRead(FirstName(q), DataType(q), JObject(ms), ts, r.value);
    FlagRead(ms, r.value[2]);
    DataMeans(q, ms, r.value[3]);
  }

  lemma DataMeans(q: Request, ms: seq<(string, Json)>, v: Val)
    requires ReadMember(Optional(Struct(DataType(q))), JObject(ms), "data", VNone) == Ok(v)
    ensures Usable(q, v) == UsableIn(q, ms)
  {
    OptionalRead(Struct(DataType(q)), ms, "data", v);
    if v.VSome? {
      DataRead(DataType(q), ms, v.value);
      if IsTransport(q) {
        TransportRead(Struct(DTLS_PARAMETERS), StructVector(ICE_CANDIDATE), Struct(ICE_PARAMETERS), Struct(SCTP_PARAMETERS),
                      TRANSPORT_DATA, Find(ms, "data").value, v.value.fields);
      }
    }
  }

  // ---------------------------------------------------------------- responses that a server sends

  lemma ParametersAreWellFormed()
    ensures WellFormedFields(FINGERPRINT) && WellFormedFields(DTLS_PARAMETERS) && WellFormedFields(ICE_PARAMETERS)
  {
    assert WellFormedFields(FINGERPRINT);
  }

  lemma CandidateIsWellFormed()
    ensures WellFormedFields(ICE_CANDIDATE)
  {
  }

  lemma SctpIsWellFormed()
    ensures WellFormedFields(SCTP_PARAMETERS)
  {
  }

  lemma FieldIsWellFormed(name: string, ty: Type, rest: Fields, names: set<string>)
    requires WellFormed(ty) && WellFormedFields(rest) && Names(rest) == names && name !in names
    ensures WellFormedFields(Field(name, ty, rest)) && Names(Field(name, ty, rest)) == {name} + names
  {
  }

  lemma TransportFieldsAreWellFormed(dtls: Type, candidates: Type, ice: Type, sctp: Type)
    requires WellFormed(Optional(dtls)) && WellFormed(Optional(candidates)) && WellFormed(Optional(ice)) && WellFormed(Optional(sctp))
    ensures WellFormedFields(TransportFields(dtls, candidates, ice, sctp))
  {
    var e := Field("sctpParameters", Optional(sctp), End);
    var d := Field("iceParameters", Optional(ice), e);
    var c := Field("iceCandidates", Optional(candidates), d);
    var b := Field("dtlsParameters", Optional(dtls), c);
    FieldIsWellFormed("sctpParameters", Optional(sctp), End, {});
    FieldIsWellFormed("iceParameters", Optional(ice), e, {"sctpParameters"});
    FieldIsWellFormed("iceCandidates", Optional(candidates), d, {"iceParameters", "sctpParameters"});
    FieldIsWellFormed("dtlsParameters", Optional(dtls), c, {"iceCandidates", "iceParameters", "sctpParameters"});
    FieldIsWellFormed("id", OPTIONAL_STRING, b, {"dtlsParameters", "iceCandidates", "iceParameters", "sctpParameters"});
  }

  lemma TransportIsWellFormed()
    ensures WellFormedFields(TRANSPORT_DATA)
  {
    ParametersAreWellFormed();
    CandidateIsWellFormed();
    SctpIsWellFormed();
    TransportFieldsAreWellFormed(
      Struct(DTLS_PARAMETERS), StructVector(ICE_CANDIDATE), Struct(ICE_PARAMETERS), Struct(SCTP_PARAMETERS));
  }

  lemma CodecIsWellFormed()
    ensures WellFormedFields(CODEC)
  {
    assert WellFormedFields(RTCP_FEEDBACK);
    assert WellFormedFields(CODEC_PARAMETERS);
  }

  lemma ExtensionIsWellFormed()
    ensures WellFormedFields(HEADER_EXTENSION)
  {
  }

  lemma CapabilitiesAreWellFormed()
    ensures WellFormedFields(CAPABILITIES_DATA)
  {
    CodecIsWellFormed();
    ExtensionIsWellFormed();
    var b := Field("headerExtensions", Optional(StructVector(HEADER_EXTENSION)), End);
    FieldIsWellFormed("headerExtensions", Optional(StructVector(HEADER_EXTENSION)), End, {});
    FieldIsWellFormed("codecs", Optional(StructVector(CODEC)), b, {"headerExtensions"});
  }

  lemma JoinIsWellFormed()
    ensures WellFormedFields(JOIN_DATA)
  {
    assert WellFormedFields(DEVICE);
    assert WellFormedFields(PEER);
  }

  lemma TailIsWellFormed(data: Fields) returns (tail: Fields)
    requires WellFormedFields(data)
    ensures tail == AnsweringTail(data) && WellFormedFields(tail) && Names(tail) == {"id", "ok", "data"}
  {
    var d := Field("data", Optional(Struct(data)), End);
    var c := Field("ok", OPTIONAL_BOOL, d);
    FieldIsWellFormed("data", Optional(Struct(data)), End, {});
    FieldIsWellFormed("ok", OPTIONAL_BOOL, d, {"data"});
    FieldIsWellFormed("id", OPTIONAL_ID, c, {"ok", "data"});
    tail := AnsweringTail(data);
  }

  lemma AnsweringIsWellFormed(first: string, data: Fields)
    requires first !in {"id", "ok", "data"} && WellFormedFields(data)
    ensures WellFormedFields(Answering(first, data))
  {
    var tail := TailIsWellFormed(data);
    FieldIsWellFormed(first, OPTIONAL_BOOL, tail, {"id", "ok", "data"});
  }

  lemma TypesAreWellFormed(q: Request)
    ensures WellFormedFields(DataType(q)) && WellFormedFields(ResponseType(q))
  {
    match q {
      case Capabilities => CapabilitiesAreWellFormed();
      case SendTransport => TransportIsWellFormed();
      case RecvTransport => TransportIsWellFormed();
      case JoinRoom => JoinIsWellFormed();
    }
    AnsweringIsWellFormed(FirstName(q), DataType(q));
  }

  lemma HoldsFirst(name: string, ty: Type, rest: Fields, vs: seq<Val>, ms: seq<(string, Json)>)
    requires TypedFields(Field(name, ty, rest), vs) && Holds(Field(name, ty, rest), vs, ms)
    ensures vs != [] && Typed(ty, vs[0]) && Find(ms, name) == Written(ty, vs[0])
    ensures TypedFields(rest, vs[1..]) && Holds(rest, vs[1..], ms)
  {
  }

  /** A message that holds a response value shows its `ok` and `data`. */
  lemma AnsweringHolds(first: string, data: Fields, vs: seq<Val>, ms: seq<(string, Json)>)
    requires TypedFields(Answering(first, data), vs) && Holds(Answering(first, data), vs, ms)
    ensures |vs| == 4 && Typed(OPTIONAL_ID, vs[1]) && Typed(OPTIONAL_BOOL, vs[2]) && Typed(Optional(Struct(data)), vs[3])
    ensures Find(ms, "id") == Written(OPTIONAL_ID, vs[1]) && Find(ms, "ok") == Written(OPTIONAL_BOOL, vs[2]) && Find(ms, "data") == Written(Optional(Struct(data)), vs[3])
  {
    var d := Field("data", Optional(Struct(data)), End);
    var c := Field("ok", OPTIONAL_BOOL, d);
    var b := Field("id", OPTIONAL_ID, c);
    HoldsFirst(first, OPTIONAL_BOOL, b, vs, ms);
    HoldsFirst("id", OPTIONAL_ID, c, vs[1..], ms);
    HoldsFirst("ok", OPTIONAL_BOOL, d, vs[1..][1..], ms);
    HoldsFirst("data", Optional(Struct(data)), End, vs[1..][1..][1..], ms);
    Thirds(vs);
  }

  lemma FlagHeld(ms: seq<(string, Json)>, v: Val)
    requires Typed(OPTIONAL_BOOL, v) && Find(ms, "ok") == Written(OPTIONAL_BOOL, v)
    ensures OkIn(ms) == Flagged(v)
  {
    if v.VSome? { assert Typed(Pod(TBool), v.value); }
  }

  /** A field that holds an optional is there exactly when the optional is set. */
  lemma OptionalHeld(name: string, ty: Type, rest: Fields, fs: Fields, vs: seq<Val>, ms: seq<(string, Json)>)
    returns (x: Val, more: seq<Val>)
    requires fs == Field(name, Optional(ty), rest) && !ty.Optional? && WellFormed(ty)
    requires TypedFields(fs, vs) && Holds(fs, vs, ms)
    ensures vs == [x] + more && TypedFields(rest, more) && Holds(rest, more, ms)
    ensures x.VSome? <==> Present(ms, name)
  {
    HoldsFirst(name, Optional(ty), rest, vs, ms);
    x, more := FirstRest(vs);
    if x.VSome? { WrittenIsNoNull(ty, x.value); }
  }

  lemma TransportHolds(dtls: Type, candidates: Type, ice: Type, sctp: Type, fs: Fields, vs: seq<Val>, ms: seq<(string, Json)>)
    requires fs == TransportFields(dtls, candidates, ice, sctp) && TypedFields(fs, vs) && Holds(fs, vs, ms)
    requires forall t :: t in [dtls, candidates, ice, sctp] ==> !t.Optional? && WellFormed(t)
    ensures |vs| == 5 && ((forall i :: 1 <= i < 5 ==> vs[i].VSome?) <==> FourThere(JObject(ms)))
  {
    var ts := [dtls, candidates, ice, sctp];
    assert ts[0] == dtls && ts[1] == candidates && ts[2] == ice && ts[3] == sctp;
    var e := Field("sctpParameters", Optional(sctp), End);
    var d := Field("iceParameters", Optional(ice), e);
    var c := Field("iceCandidates", Optional(candidates), d);
    var b := Field("dtlsParameters", Optional(dtls), c);
    var x0, v0 := OptionalHeld("id", Pod(TString), b, fs, vs, ms);
    var x1, v1 := OptionalHeld("dtlsParameters", dtls, c, b, v0, ms);
    var x2, v2 := OptionalHeld("iceCandidates", candidates, d, c, v1, ms);
    var x3, v3 := OptionalHeld("iceParameters", ice, e, d, v2, ms);
    var x4, v4 := OptionalHeld("sctpParameters", sctp, End, e, v3, ms);
    assert v4 == [];
    FiveOf(x0, x1, x2, x3, x4, vs);
  }

  lemma DataHeld(q: Request, ms: seq<(string, Json)>, v: Val)
    requires Typed(Optional(Struct(DataType(q))), v) && Find(ms, "data") == Written(Optional(Struct(DataType(q))), v)
    ensures UsableIn(q, ms) == Usable(q, v)
  {
    if v.VSome? {
      var fs, vs := DataType(q), v.value.fields;
      assert Typed(Struct(fs), v.value);
      TypesAreWellFormed(q);
      WriteHolds(fs, vs);
      assert Find(ms, "data") == Some(JObject(WriteFields(fs, vs)));
      if IsTransport(q) { TransportHeld(vs, WriteFields(fs, vs)); }
    }
  }

  lemma TransportHeld(vs: seq<Val>, ms: seq<(string, Json)>)
    requires TypedFields(TRANSPORT_DATA, vs) && Holds(TRANSPORT_DATA, vs, ms)
    ensures |vs| == 5 && ((forall i :: 1 <= i < 5 ==> vs[i].VSome?) <==> FourThere(JObject(ms)))
  {
    TransportIsWellFormed();
    TransportHolds(Struct(DTLS_PARAMETERS), StructVector(ICE_CANDIDATE), Struct(ICE_PARAMETERS), Struct(SCTP_PARAMETERS),
                   TRANSPORT_DATA, vs, ms);
  }

  /** Every message that holds a response value, in any member order and with any other members, is
      read, and gives the answer of the value. */
  lemma HeldAnswer(q: Request, vs: seq<Val>, ms: seq<(string, Json)>, ts: seq<Val>)
    requires TypedFields(ResponseType(q), vs) && Holds(ResponseType(q), vs, ms) && Blank(q, ts)
    ensures |vs| == 4 && AnswerIn(q, ms, ts) == Some(AnswerOf(q, vs))
  {
    TypesAreWellFormed(q);
    AnsweringHolds(FirstName(q), DataType(q), vs, ms);
    FlagHeld(ms, vs[2]);
    DataHeld(q, ms, vs[3]);
    FieldsBack(ResponseType(q), vs, ts, ms);
    var r := ReadFields(ResponseType(q), JObject(ms), ts);
    AnsweringRead(FirstName(q), DataType(q), JObject(ms), ts, r.value);
    AnswerMeans(q, ms, ts);
  }

  // ---------------------------------------------------------------- a refusal for every request

  function Word(s: string): Val { VSome(VString(s)) }

  function Number(i: int): Val { VSome(VInt(i)) }

  lemma SampleDtls() returns (v: Val)
    ensures v.VSome? && Typed(Optional(Struct(DTLS_PARAMETERS)), v)
  {
    var hash := [Word("sha-256"), Word("00:01")];
    assert TypedFields(FINGERPRINT, hash);
    var hashes := [VStruct(hash)];
    assert forall i :: 0 <= i < |hashes| ==> hashes[i] == VStruct(hash);
    assert Typed(StructVector(FINGERPRINT), VVector(hashes)) && Typed(Pod(TString), VString("auto"));
    var vs := [VSome(VVector(hashes)), Word("auto")];
    assert vs[2..] == [] && vs[0..] == vs;
    MoreTyped("role", OPTIONAL_STRING, End, vs, 1);
    MoreTyped("fingerprints", Optional(StructVector(FINGERPRINT)), Field("role", OPTIONAL_STRING, End), vs, 0);
    v := VSome(VStruct(vs));
    assert Typed(Struct(DTLS_PARAMETERS), v.value);
  }

  lemma NativesAreTyped()
    ensures forall b :: Typed(OPTIONAL_BOOL, VSome(VBool(b)))
    ensures forall s :: Typed(OPTIONAL_STRING, Word(s))
    ensures forall i :: 0 <= i < 0x8000_0000 ==> Typed(OPTIONAL_INT, Number(i))
  {
    assert forall b :: Typed(Pod(TBool), VBool(b));
    assert forall s :: Typed(Pod(TString), VString(s));
    assert forall i :: 0 <= i < 0x8000_0000 ==> Typed(Pod(TInt), VInt(i));
  }

  lemma SampleIce() returns (v: Val)
    ensures v.VSome? && Typed(Optional(Struct(ICE_PARAMETERS)), v)
  {
    var vs := [VSome(VBool(true)), Word("password"), Word("fragment")];
    NativesAreTyped();
    var c := Field("usernameFragment", OPTIONAL_STRING, End);
    assert vs[3..] == [] && vs[0..] == vs;
    MoreTyped("usernameFragment", OPTIONAL_STRING, End, vs, 2);
    MoreTyped("password", OPTIONAL_STRING, c, vs, 1);
    MoreTyped("iceLite", OPTIONAL_BOOL, Field("password", OPTIONAL_STRING, c), vs, 0);
    v := VSome(VStruct(vs));
    assert Typed(Struct(ICE_PARAMETERS), v.value);
  }

  /** The four numbers at the end of the SCTP parameters. */
  lemma SizesAreTyped(vs: seq<Val>)
    requires |vs| == 7 && forall i :: 3 <= i < 7 ==> Typed(OPTIONAL_INT, vs[i])
    ensures TypedFields(SCTP_SIZES, vs[3..])
  {
    var g := Field("sendBufferSize", OPTIONAL_INT, End);
    var f := Field("sctpBufferedAmount", OPTIONAL_INT, g);
    var e := Field("maxMessageSize", OPTIONAL_INT, f);
    assert vs[7..] == [];
    MoreTyped("sendBufferSize", OPTIONAL_INT, End, vs, 6);
    MoreTyped("sctpBufferedAmount", OPTIONAL_INT, g, vs, 5);
    MoreTyped("maxMessageSize", OPTIONAL_INT, f, vs, 4);
    MoreTyped("port", OPTIONAL_INT, e, vs, 3);
  }

  lemma SctpIsTyped(sizes: Fields, vs: seq<Val>)
    requires |vs| >= 3 && Typed(OPTIONAL_INT, vs[0]) && Typed(OPTIONAL_INT, vs[1]) && Typed(OPTIONAL_BOOL, vs[2])
    requires TypedFields(sizes, vs[3..])
    ensures TypedFields(SctpFields(sizes), vs)
  {
    var c := Field("isDataChannel", OPTIONAL_BOOL, sizes);
    MoreTyped("isDataChannel", OPTIONAL_BOOL, sizes, vs, 2);
    MoreTyped("OS", OPTIONAL_INT, c, vs, 1);
    MoreTyped("MIS", OPTIONAL_INT, Field("OS", OPTIONAL_INT, c), vs, 0);
    assert vs[0..] == vs;
  }

  lemma SampleSctp() returns (v: Val)
    ensures v.VSome? && Typed(Optional(Struct(SCTP_PARAMETERS)), v)
  {
    var vs := [Number(1024), Number(1024), VSome(VBool(true)), Number(5000), Number(262144), Number(0), Number(262144)];
    NativesAreTyped();
    SizesAreTyped(vs);
    SctpIsTyped(SCTP_SIZES, vs);
    v := VSome(VStruct(vs));
    assert Typed(Struct(SCTP_PARAMETERS), v.value);
  }

  lemma SampleTransport() returns (vs: seq<Val>)
    ensures TypedFields(TRANSPORT_DATA, vs) && |vs| == 5 && forall i :: 1 <= i < 5 ==> vs[i].VSome?
  {
    var dtls := SampleDtls();
    var ice := SampleIce();
    var sctp := SampleSctp();
    vs := [Word("transport"), dtls, VSome(VVector([])), ice, sctp];
    assert Typed(StructVector(ICE_CANDIDATE), VVector([])) && Typed(Pod(TString), VString("transport"));
    TransportIsTyped(
      Struct(DTLS_PARAMETERS), StructVector(ICE_CANDIDATE), Struct(ICE_PARAMETERS), Struct(SCTP_PARAMETERS), vs);
  }

  /** Data as a server sends it, for a transport with all parameters. */
  lemma SampleData(q: Request) returns (vs: seq<Val>)
    ensures TypedFields(DataType(q), vs) && Usable(q, VSome(VStruct(vs)))
  {
    match q
    case Capabilities => vs := [VNone, VNone];
    case SendTransport => vs := SampleTransport();
    case RecvTransport => vs := SampleTransport();
    case JoinRoom => vs := [VNone];
  }

  lemma TransportIsTyped(dtls: Type, candidates: Type, ice: Type, sctp: Type, vs: seq<Val>)
    requires |vs| == 5 && Typed(OPTIONAL_STRING, vs[0]) && Typed(Optional(dtls), vs[1]) && Typed(Optional(candidates), vs[2])
    requires Typed(Optional(ice), vs[3]) && Typed(Optional(sctp), vs[4])
    ensures TypedFields(TransportFields(dtls, candidates, ice, sctp), vs)
  {
    var e := Field("sctpParameters", Optional(sctp), End);
    var d := Field("iceParameters", Optional(ice), e);
    var c := Field("iceCandidates", Optional(candidates), d);
    var b := Field("dtlsParameters", Optional(dtls), c);
    assert vs[5..] == [];
    MoreTyped("sctpParameters", Optional(sctp), End, vs, 4);
    MoreTyped("iceParameters", Optional(ice), e, vs, 3);
    MoreTyped("iceCandidates", Optional(candidates), d, vs, 2);
    MoreTyped("dtlsParameters", Optional(dtls), c, vs, 1);
    MoreTyped("id", OPTIONAL_STRING, b, vs, 0);
    assert vs[0..] == vs;
  }

  lemma MoreTyped(name: string, ty: Type, rest: Fields, vs: seq<Val>, i: nat)
    requires i < |vs| && Typed(ty, vs[i]) && TypedFields(rest, vs[i + 1..])
    ensures TypedFields(Field(name, ty, rest), vs[i..])
  {
    assert vs[i..][0] == vs[i] && vs[i..][1..] == vs[i + 1..];
  }

  /** A response without its first field that says that it is not ok. */
  lemma RefusalTail(data: Fields, vs: seq<Val>, id: int) returns (tail: seq<Val>)
    requires TypedFields(data, vs) && 0 <= id < 0x8000_0000
    ensures tail == [VSome(VInt(id)), VSome(VBool(false)), VSome(VStruct(vs))] && TypedFields(AnsweringTail(data), tail)
  {
    tail := [VSome(VInt(id)), VSome(VBool(false)), VSome(VStruct(vs))];
    var d := Field("data", Optional(Struct(data)), End);
    assert tail[3..] == [];
    assert Typed(Struct(data), VStruct(vs)) && Typed(Pod(TInt64), VInt(id)) && Typed(Pod(TBool), VBool(false));
    MoreTyped("data", Optional(Struct(data)), End, tail, 2);
    MoreTyped("ok", OPTIONAL_BOOL, d, tail, 1);
    MoreTyped("id", OPTIONAL_ID, Field("ok", OPTIONAL_BOOL, d), tail, 0);
    assert tail[0..] == tail;
  }

  const SAYS_RESPONSE: seq<(string, Json)> := [("response", JBool(true))]

  /** Any members with `response: true` in front. */
  lemma SaidFirst(tail: Fields, vs: seq<Val>) returns (ms: seq<(string, Json)>)
    requires WellFormedFields(tail) && Names(tail) == {"id", "ok", "data"} && TypedFields(tail, vs)
    ensures Holds(tail, vs, ms)
    ensures Find(ms, "response") == Some(JBool(true)) && Find(ms, "request").None? && Find(ms, "notification").None?
  {
    var own := WriteFields(tail, vs);
    ms := SAYS_RESPONSE + own;
    WriteHoldsAfter(tail, vs, SAYS_RESPONSE);
    WritesOnlyNames(tail, vs, "request");
    WritesOnlyNames(tail, vs, "notification");
    FindConcat(SAYS_RESPONSE, own, "request");
    FindConcat(SAYS_RESPONSE, own, "notification");
    FindConcat(SAYS_RESPONSE, own, "response");
  }

  lemma FirstHolds(first: string, tail: Fields, x: Val, rest: seq<Val>, ms: seq<(string, Json)>)
    requires TypedFields(tail, rest) && Typed(OPTIONAL_BOOL, x)
    requires Find(ms, first) == Written(OPTIONAL_BOOL, x) && Holds(tail, rest, ms)
    ensures TypedFields(Field(first, OPTIONAL_BOOL, tail), [x] + rest)
    ensures Holds(Field(first, OPTIONAL_BOOL, tail), [x] + rest, ms)
  {
    var vs := [x] + rest;
    assert vs[0] == x && vs[1..] == rest;
  }

  /** The message of a refusal, whatever its data. */
  lemma RefusalHolds(first: string, data: Fields, vs: seq<Val>, id: int) returns (all: seq<Val>, ms: seq<(string, Json)>)
    requires first == "request" || first == "response"
    requires WellFormedFields(data) && TypedFields(data, vs) && 0 <= id < 0x8000_0000
    ensures |all| == 4 && all[2] == VSome(VBool(false)) && all[3] == VSome(VStruct(vs)) && all[1] == VSome(VInt(id))
    ensures TypedFields(Answering(first, data), all) && Holds(Answering(first, data), all, ms)
    ensures Find(ms, "response") == Some(JBool(true)) && Find(ms, "request").None? && Find(ms, "notification").None?
  {
    var tail := TailIsWellFormed(data);
    var rest := RefusalTail(data, vs, id);
    ms := SaidFirst(tail, rest);
    var x := if first == "request" then VNone else VSome(VBool(true));
    FlagsWritten(x);
    FirstHolds(first, tail, x, rest, ms);
    all := [x] + rest;
  }

  lemma FlagsWritten(x: Val)
    requires x == VNone || (x.VSome? && x.value.VBool?)
    ensures Typed(OPTIONAL_BOOL, x) && Written(OPTIONAL_BOOL, x) == if x.VNone? then None else Some(JBool(x.value.b))
  {
    if x.VSome? { assert Typed(Pod(TBool), x.value); }
  }

  lemma IdWritten(id: int)
    requires 0 <= id < 0x8000_0000
    ensures Typed(OPTIONAL_ID, VSome(VInt(id))) && Written(OPTIONAL_ID, VSome(VInt(id))) == Some(JInt(id))
  {
    assert Typed(Pod(TInt64), VInt(id));
  }

  /** For every request there is a message that is a reply to it, says that it is not ok, and yet
      gives an answer with which the handshake goes on. */
  lemma RefusalExists(q: Request, id: int, ts: seq<Val>) returns (ms: seq<(string, Json)>)
    requires Blank(q, ts) && 0 <= id < 0x8000_0000
    ensures OnMessage(JObject(ms)) == Reply(id) && Find(ms, "ok") == Some(JBool(false)) && UsableIn(q, ms)
    ensures AnswerIn(q, ms, ts) == Some(Response(Some(false), true))
  {
    var data := SampleData(q);
    TypesAreWellFormed(q);
    var vs;
    vs, ms := RefusalHolds(FirstName(q), DataType(q), data, id);
    HeldAnswer(q, vs, ms, ts);
    AnswerMeans(q, ms, ts);
    AnsweringHolds(FirstName(q), DataType(q), vs, ms);
    RefusalIsReply(ms, vs, id);
  }

  lemma RefusalIsReply(ms: seq<(string, Json)>, vs: seq<Val>, id: int)
    requires |vs| == 4 && vs[1] == VSome(VInt(id)) && vs[2] == VSome(VBool(false)) && 0 <= id < 0x8000_0000
    requires Typed(OPTIONAL_ID, vs[1]) && Typed(OPTIONAL_BOOL, vs[2])
    requires Find(ms, "id") == Written(OPTIONAL_ID, vs[1]) && Find(ms, "ok") == Written(OPTIONAL_BOOL, vs[2])
    requires Find(ms, "response") == Some(JBool(true)) && Find(ms, "request").None? && Find(ms, "notification").None?
    ensures OnMessage(JObject(ms)) == Reply(id) && Find(ms, "ok") == Some(JBool(false))
  {
    IdWritten(id);
    FlagsWritten(vs[2]);
    ReplyIff(ms, id);
  }
}
