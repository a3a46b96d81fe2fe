/**
 * SignalingClient::onMessage and handleResponse (core/service/signaling_client.cpp:125-140 and
 * 183-206): a message is classified by reading small header types from it, and a reply goes to
 * the pending request of its id. Ties the object mapping to the request table.
 */
module Dispatch {
  import opened Basics
  import opened JsonModel
  import opened JsonLaws
  import opened JsonMessages
  import Signaling
  import SignalingLaws

  const OPTIONAL_BOOL := Optional(Pod(TBool))
  const OPTIONAL_ID := Optional(Pod(TInt64))
  const OPTIONAL_STRING := Optional(Pod(TString))

  function Three(a: string, s: Type, b: string, t: Type, c: string, u: Type): Fields {
    Field(a, s, Field(b, t, Field(c, u, End)))
  }

  const MESSAGE_TYPE := Three("request", OPTIONAL_BOOL, "response", OPTIONAL_BOOL, "notification", OPTIONAL_BOOL)
  const REQUEST_HEADER := Three("request", OPTIONAL_BOOL, "id", OPTIONAL_ID, "method", OPTIONAL_STRING)
  const RESPONSE_HEADER := Three("response", OPTIONAL_BOOL, "id", OPTIONAL_ID, "ok", OPTIONAL_BOOL)
  const NOTIFICATION_HEADER := Field("notification", OPTIONAL_BOOL, Field("method", OPTIONAL_STRING, End))

  datatype Verdict = Dropped | Notification(name: string) | Reply(id: int) | Request(name: string)

  /** `value_or(false)` on an optional flag. */
  function Flag(v: Val): bool { v == VSome(VBool(true)) }

  /** `value_or("")` on an optional string. */
  function Text(v: Val): string { if v.VSome? && v.value.VString? then v.value.s else "" }

  /** `value_or(-1)` on an optional id. */
  function Id(v: Val): int { if v.VSome? && v.value.VInt? then v.value.i else -1 }

  /** `fromJsonString` into a new object. */
  function Parse(fs: Fields, j: Json): (r: Result<seq<Val>>)
    ensures r.Ok? ==> TypedFields(fs, r.value)
  {
    StructClean(fs, j);
    ReadFields(fs, j, FreshFields(fs))
  }

  function HandleNotification(j: Json): Verdict {
    var h := Parse(NOTIFICATION_HEADER, j);
    if h.Ok? then Notification(Text(h.value[1])) else Dropped
  }

  function HandleResponse(j: Json): Verdict {
    var h := Parse(RESPONSE_HEADER, j);
    if h.Ok? && Id(h.value[1]) != -1 then Reply(Id(h.value[1])) else Dropped
  }

  function HandleRequest(j: Json): Verdict {
    var h := Parse(REQUEST_HEADER, j);
    if h.Ok? then Request(Text(h.value[2])) else Dropped
  }

  function OnMessage(j: Json): Verdict {
    var t := Parse(MESSAGE_TYPE, j);
    if t.Err? then Dropped
    else if Flag(t.value[2]) then HandleNotification(j)
    else if Flag(t.value[1]) then HandleResponse(j)
    else if Flag(t.value[0]) then HandleRequest(j)
    else Dropped
  }

  // ---------------------------------------------------------------- what is a reply

  /** A field that an optional of that native type accepts: absent, null or of the type. */
  predicate Readable(n: Native, ms: seq<(string, Json)>, name: string) {
    var m := Find(ms, name);
    m.None? || m.value.JNull? || ReadNative(n, m.value).Ok?
  }

  predicate True(ms: seq<(string, Json)>, name: string) { Find(ms, name) == Some(JBool(true)) }

  function ReadOptional(n: Native, ms: seq<(string, Json)>, name: string): Val
    requires Readable(n, ms, name)
  {
    var m := Find(ms, name);
    if m.None? || m.value.JNull? then VNone else VSome(ReadNative(n, m.value).value)
  }

  lemma OptionalMember(n: Native, ms: seq<(string, Json)>, name: string)
    ensures var r := ReadMember(Optional(Pod(n)), JObject(ms), name, VNone);
            if Readable(n, ms, name) then r == Ok(ReadOptional(n, ms, name)) else r.Err?
  {
  }

  lemma ParseField(name: string, n: Native, rest: Fields, ms: seq<(string, Json)>)
    ensures var x, y := Parse(Field(name, Optional(Pod(n)), rest), JObject(ms)), Parse(rest, JObject(ms));
            if Readable(n, ms, name) && y.Ok? then x == Ok([ReadOptional(n, ms, name)] + y.value) else x.Err?
  {
    OptionalMember(n, ms, name);
    var empty := FreshFields(Field(name, Optional(Pod(n)), rest));
    assert Fresh(Optional(Pod(n))) == VNone;
    assert empty == [VNone] + FreshFields(rest);
  }

  lemma ParseThree(a: string, p: Native, b: string, q: Native, c: string, r: Native, ms: seq<(string, Json)>)
    ensures var x := Parse(Three(a, Optional(Pod(p)), b, Optional(Pod(q)), c, Optional(Pod(r))), JObject(ms));
            if Readable(p, ms, a) && Readable(q, ms, b) && Readable(r, ms, c)
            then x == Ok([ReadOptional(p, ms, a), ReadOptional(q, ms, b), ReadOptional(r, ms, c)])
            else x.Err?
  {
    var last := Field(c, Optional(Pod(r)), End);
    assert Parse(End, JObject(ms)) == Ok([]);
    ParseField(c, r, End, ms);
    ParseField(b, q, last, ms);
    ParseField(a, p, Field(b, Optional(Pod(q)), last), ms);
    if Readable(p, ms, a) && Readable(q, ms, b) && Readable(r, ms, c) {
      var x, y, z := ReadOptional(p, ms, a), ReadOptional(q, ms, b), ReadOptional(r, ms, c);
      assert [x] + ([y] + ([z] + [])) == [x, y, z];
    }
  }

  /** What makes a message a response rather than a notification, a request or nothing. */
  predicate SaysResponse(ms: seq<(string, Json)>) {
    && Readable(TBool, ms, "request") && Readable(TBool, ms, "notification")
    && !True(ms, "notification") && True(ms, "response")
  }

  lemma ResponseIff(ms: seq<(string, Json)>)
    ensures if SaysResponse(ms) then OnMessage(JObject(ms)) == HandleResponse(JObject(ms))
            else !OnMessage(JObject(ms)).Reply?
  {
    ParseThree("request", TBool, "response", TBool, "notification", TBool, ms);
  }

  lemma IdIff(ms: seq<(string, Json)>, k: int)
    requires True(ms, "response")
    ensures HandleResponse(JObject(ms)) == Reply(k) <==>
            Readable(TBool, ms, "ok") && Find(ms, "id") == Some(JInt(k)) && Readable(TInt64, ms, "id") && k != -1
  {
    ParseThree("response", TBool, "id", TInt64, "ok", TBool, ms);
  }

  /** A message is taken as a reply to `k` exactly when it says so and every field that the two
      headers look at can be read, whatever other members it has. */
  lemma ReplyIff(ms: seq<(string, Json)>, k: int)
    ensures OnMessage(JObject(ms)) == Reply(k) <==>
            && Readable(TBool, ms, "request") && Readable(TBool, ms, "notification") && Readable(TBool, ms, "ok")
            && !True(ms, "notification") && True(ms, "response")
            && Find(ms, "id") == Some(JInt(k)) && Readable(TInt64, ms, "id") && k != -1
  {
    ResponseIff(ms);
    if SaysResponse(ms) { IdIff(ms, k); }
  }

  /** The name in a message: its method up to the first NUL, "" if there is none. */
  function MethodIn(ms: seq<(string, Json)>): string {
    var m := Find(ms, "method");
    if m.Some? && m.value.JString? then CString(m.value.s) else ""
  }

  lemma MethodRead(ms: seq<(string, Json)>)
    requires Readable(TString, ms, "method")
    ensures Text(ReadOptional(TString, ms, "method")) == MethodIn(ms)
  {
  }

  /** The three flags that classify a message can be read. */
  predicate FlagsReadable(ms: seq<(string, Json)>) {
    Readable(TBool, ms, "request") && Readable(TBool, ms, "response") && Readable(TBool, ms, "notification")
  }

  lemma FlagsMean(ms: seq<(string, Json)>)
    ensures var j := JObject(ms);
            OnMessage(j) ==
            if !FlagsReadable(ms) then Dropped
            else if True(ms, "notification") then HandleNotification(j)
            else if True(ms, "response") then HandleResponse(j)
            else if True(ms, "request") then HandleRequest(j)
            else Dropped
  {
    ReadFlags(ms, Parse(MESSAGE_TYPE, JObject(ms)));
  }

  lemma ReadFlags(ms: seq<(string, Json)>, t: Result<seq<Val>>)
    requires t == Parse(MESSAGE_TYPE, JObject(ms))
    ensures t.Ok? <==> FlagsReadable(ms)
    ensures t.Ok? ==> |t.value| == 3 && Flag(t.value[0]) == True(ms, "request") && Flag(t.value[1]) == True(ms, "response")
                      && Flag(t.value[2]) == True(ms, "notification")
  {
    ParseThree("request", TBool, "response", TBool, "notification", TBool, ms);
    if t.Ok? {
      FlagIs(ms, "request");
      FlagIs(ms, "response");
      FlagIs(ms, "notification");
    }
  }

  lemma FlagIs(ms: seq<(string, Json)>, name: string)
    requires Readable(TBool, ms, name)
    ensures Flag(ReadOptional(TBool, ms, name)) == True(ms, name)
  {
  }

  lemma NotificationHeader(ms: seq<(string, Json)>)
    ensures HandleNotification(JObject(ms)) ==
            if Readable(TBool, ms, "notification") && Readable(TString, ms, "method") then Notification(MethodIn(ms)) else Dropped
  {
    var last := Field("method", OPTIONAL_STRING, End);
    assert Parse(End, JObject(ms)) == Ok([]);
    ParseField("method", TString, End, ms);
    ParseField("notification", TBool, last, ms);
    if Readable(TBool, ms, "notification") && Readable(TString, ms, "method") { MethodRead(ms); }
  }

  lemma RequestHeader(ms: seq<(string, Json)>)
    ensures HandleRequest(JObject(ms)) ==
            if Readable(TBool, ms, "request") && Readable(TInt64, ms, "id") && Readable(TString, ms, "method")
            then Request(MethodIn(ms)) else Dropped
  {
    ParseThree("request", TBool, "id", TInt64, "method", TString, ms);
    if Readable(TBool, ms, "request") && Readable(TInt64, ms, "id") && Readable(TString, ms, "method") { MethodRead(ms); }
  }

  /** A message is taken as a notification of that name exactly when it says so, its flags and its
      method can be read, and the name is its method. */
  lemma NotificationIff(ms: seq<(string, Json)>, name: string)
    ensures OnMessage(JObject(ms)) == Notification(name) <==>
            FlagsReadable(ms) && True(ms, "notification") && Readable(TString, ms, "method") && name == MethodIn(ms)
  {
    FlagsMean(ms);
    NotificationHeader(ms);
    RequestHeader(ms);
  }

  /** A message is taken as a request of that name exactly when it says so and neither that it is a
      notification nor a response, its flags, id and method can be read, and the name is its method. */
  lemma RequestIff(ms: seq<(string, Json)>, name: string)
    ensures OnMessage(JObject(ms)) == Request(name) <==>
            && FlagsReadable(ms) && True(ms, "request") && !True(ms, "notification") && !True(ms, "response")
            && Readable(TInt64, ms, "id") && Readable(TString, ms, "method") && name == MethodIn(ms)
  {
    FlagsMean(ms);
    NotificationHeader(ms);
    RequestHeader(ms);
  }

  /** A tree that is no object is dropped. */
  lemma OnlyObjects(j: Json)
    requires !j.JObject?
    ensures OnMessage(j) == Dropped
  {
  }

  // ---------------------------------------------------------------- replies and requests

  /** A message that says it is a response and holds a value of any type with fields `id` and `ok`, in
      any member order and with any other members, is taken as a reply to its id. The type itself
      reads the value from it into any object, with or without default values, and need not have a
      field `response`. */
  lemma ResponseIsReply(full: Fields, vs: seq<Val>, ms: seq<(string, Json)>, ts: seq<Val>, k: int)
    requires WellFormedFields(full) && TypedFields(full, ts)
    requires TypedFields(full, vs) && Holds(full, vs, ms) && SaysResponse(ms)
    requires Has(full, "id", OPTIONAL_ID) && Has(full, "ok", OPTIONAL_BOOL)
    requires Pick(full, vs, "id", OPTIONAL_ID) == VSome(VInt(k)) && k != -1
    ensures OnMessage(JObject(ms)) == Reply(k)
    ensures ReadFields(full, JObject(ms), ts) == Ok(ImageFields(full, vs, ts))
    ensures NulFreeFields(full, vs) && CoversFields(full, vs, ts) ==> ReadFields(full, JObject(ms), ts) == Ok(vs)
  {
    FieldShows(full, vs, ms, "id", TInt64);
    FieldShows(full, vs, ms, "ok", TBool);
    ReplyIff(ms, k);
    FieldsBack(full, vs, ts, ms);
    FieldsSame(full, vs, ts);
  }

  /** A message of a type with a field `response` that is true says it is a response, unless it has
      members called request or notification. */
  lemma TypeSaysResponse(full: Fields, vs: seq<Val>, ms: seq<(string, Json)>)
    requires TypedFields(full, vs) && Holds(full, vs, ms) && Has(full, "response", OPTIONAL_BOOL)
    requires Pick(full, vs, "response", OPTIONAL_BOOL) == VSome(VBool(true))
    requires Find(ms, "request").None? && Find(ms, "notification").None?
    ensures SaysResponse(ms)
  {
    FieldShows(full, vs, ms, "response", TBool);
  }

  /** What a message shows of an optional native field that its type has. */
  lemma FieldShows(full: Fields, vs: seq<Val>, ms: seq<(string, Json)>, name: string, n: Native)
    requires TypedFields(full, vs) && Holds(full, vs, ms) && Has(full, name, Optional(Pod(n)))
    ensures var v := Pick(full, vs, name, Optional(Pod(n)));
            && Readable(n, ms, name)
            && (v.VSome? ==> TypedNative(n, v.value) && Find(ms, name) == Some(WriteNative(n, v.value)))
  {
    var v := Pick(full, vs, name, Optional(Pod(n)));
    PickHolds(full, vs, ms, name, Optional(Pod(n)));
    if v.VSome? {
      assert Typed(Pod(n), v.value);
      assert Written(Pod(n), v.value) == Some(WriteNative(n, v.value));
      NativeBack(n, v.value);
    }
  }

  /** What an incoming message does to the request table. */
  function Deliver(c: Signaling.Client, j: Json): Signaling.Client {
    var v := OnMessage(j);
    if v.Reply? then Signaling.Do(c, Signaling.Take(v.id)) else c
  }

  /** In every reachable state and for every request, a message newly takes the request if and only
      if it is pending and the message is a reply whose id is its key; running the callback then
      resolves it, and nothing else changes for it. */
  lemma ReplyFindsItsRequest(steps: seq<Signaling.Step>, r: nat, j: Json)
    ensures var c := Signaling.Run(steps);
            var d := Deliver(c, j);
            && (r in d.taken && r !in c.taken <==>
                  Signaling.IsPending(c, r) && OnMessage(j) == Reply(Signaling.Key(c, r)))
            && (Signaling.IsPending(d, r) <==>
                  Signaling.IsPending(c, r) && OnMessage(j) != Reply(Signaling.Key(c, r)))
            && (r in d.sending <==> r in c.sending) && d.log == c.log
            && (r in d.taken && r !in c.taken ==>
                  Signaling.Do(d, Signaling.Resolve(r)).log == c.log + [Signaling.Resolved(r, Signaling.Key(c, r))])
  {
    var v := OnMessage(j);
    if v.Reply? {
      ReplyIdIsNot(j);
      SignalingLaws.TakesIff(steps, r, v.id);
    }
  }

  /** Over every schedule, a message with the id of a pending request takes that request and resolves
      it, if the id fits 31 bits. */
  lemma MessageResolvesById(before: seq<Signaling.Step>, id: int, more: seq<Signaling.Step>, j: Json)
    requires 0 <= id < 0x8000_0000 && OnMessage(j) == Reply(id)
    ensures var r := |Signaling.Run(before).ids|;
            var c := Signaling.Run(before + [Signaling.Transmit(id)] + more);
            Signaling.IsPending(c, r) ==>
              r in Deliver(c, j).taken && !Signaling.IsPending(Deliver(c, j), r) &&
              Signaling.Do(Deliver(c, j), Signaling.Resolve(r)).log == c.log + [Signaling.Resolved(r, id)]
  {
    SignalingLaws.ReplyResolvesById(before, id, more);
  }

  lemma ReplyIdIsNot(j: Json)
    ensures OnMessage(j) != Reply(-1)
  {
  }
}
