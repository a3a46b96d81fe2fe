/**
 * The calls that wait for the server: `_onConnect`, `_onProduce` and `_onProduceData`
 * (core/service/room_client.cpp:654-831). Each sends a request and blocks on a promise that only the
 * API callback of the request sets.
 */
module Promises {
  import opened Basics
  import opened Signaling
  import opened SignalingLaws
  import opened JsonModel
  import opened JsonLaws
  import opened JsonMeaning
  import opened Responses
  import Dispatch

  datatype Waiter = Connect | Produce | ProduceData

  /** What a response holds: its `ok`, and its `data` with the optional id in it. */
  datatype Content = Content(ok: Option<bool>, data: Option<Option<string>>)

  /** What the callback does: it sets the promise to a text, "" for a connect, or dereferences data
      that is not there. */
  datatype Outcome = Value(text: string) | Undefined

  /** The callback: it is run with an error code, or with what the response holds. */
  function Settle(w: Waiter, response: Option<Content>): Outcome {
    if response.None? || response.value.ok.None? || w.Connect? then Value("")
    else
      var data := response.value.data;
      if data.None? then Undefined else Value(if data.value.Some? then data.value.value else "")
  }

  /** What one event of the request table makes the callback do: nothing if the reply is empty or
      cannot be read. */
  function Sets(w: Waiter, e: Event, reply: Option<Content>): seq<Outcome> {
    if e.Rejected? then [Settle(w, None)] else if reply.Some? then [Settle(w, reply)] else []
  }

  /** All that happens to the promise of request `r`; `reply(i)` is what event `i` brought. */
  function Promise(log: seq<Event>, reply: nat -> Option<Content>, w: Waiter, r: nat): seq<Outcome> {
    if log == [] then []
    else
      var n := |log| - 1;
      Promise(log[..n], reply, w, r) + if log[n].request == r then Sets(w, log[n], reply(n)) else []
  }

  function Readable(reply: nat -> Option<Content>): nat -> bool { (i: nat) => reply(i).Some? }

  lemma PromiseStep(log: seq<Event>, reply: nat -> Option<Content>, w: Waiter, r: nat, init: seq<Event>, e: Event, n: nat)
    requires log == init + [e] && n == |init|
    ensures Promise(log, reply, w, r) == Promise(init, reply, w, r) + if e.request == r then Sets(w, e, reply(n)) else []
    ensures Count(log, r) == Count(init, r) + One(e.request == r)
  {
    assert log[..n] == init;
  }

  /** The promise is set as often as the API callback runs. */
  lemma {:induction false} SetPerCall(log: seq<Event>, reply: nat -> Option<Content>, w: Waiter, r: nat)
    ensures |Promise(log, reply, w, r)| == CallsFor(ApiCalls(log, Readable(reply)), r)
  {
    if log != [] {
      var n := |log| - 1;
      var init, e := InitLast(log);
      SetPerCall(init, reply, w, r);
      CallsStep(log, Readable(reply), r, init, e, n);
      PromiseStep(log, reply, w, r, init, e, n);
    }
  }

  /** Over every schedule the promise of a waiting call is set at most once. */
  lemma PromiseOnce(steps: seq<Step>, reply: nat -> Option<Content>, w: Waiter, r: nat)
    ensures |Promise(Run(steps).log, reply, w, r)| <= 1
  {
    SetPerCall(Run(steps).log, reply, w, r);
    CallbackOnce(steps, Readable(reply), r);
  }

  /** An event that completes the wait for `r`. */
  predicate Completes(log: seq<Event>, reply: nat -> Option<Content>, r: nat, i: nat) {
    i < |log| && log[i].request == r && (log[i].Rejected? || reply(i).Some?)
  }

  /** The only event about `r` decides what happens to the promise. */
  lemma {:induction false} PromiseAt(log: seq<Event>, reply: nat -> Option<Content>, w: Waiter, r: nat, i: nat)
    requires Count(log, r) == 1 && i < |log| && log[i].request == r
    ensures Promise(log, reply, w, r) == Sets(w, log[i], reply(i))
  {
    var n := |log| - 1;
    var init, e := InitLast(log);
    PromiseStep(log, reply, w, r, init, e, n);
    if i < n {
      CountAt(init, i);
      PromiseAt(init, reply, w, r, i);
    } else {
      NoPromise(init, reply, w, r);
    }
  }

  lemma {:induction false} NoPromise(log: seq<Event>, reply: nat -> Option<Content>, w: Waiter, r: nat)
    requires Count(log, r) == 0
    ensures Promise(log, reply, w, r) == []
  {
    if log != [] {
      var n := |log| - 1;
      var init, e := InitLast(log);
      PromiseStep(log, reply, w, r, init, e, n);
      NoPromise(init, reply, w, r);
    }
  }

  lemma {:induction false} FindEvent(log: seq<Event>, r: nat) returns (i: nat)
    requires Count(log, r) > 0
    ensures i < |log| && log[i].request == r
  {
    var n := |log| - 1;
    if log[n].request == r { i := n; } else { i := FindEvent(log[..n], r); }
  }

  lemma OneEvent(steps: seq<Step>, r: nat)
    ensures Count(Run(steps).log, r) <= 1
  {
    RunKeeps(steps);
    assert Places(Run(steps), r) == One(r < |Run(steps).ids|);
  }

  /** Over every schedule, a waiting call returns if and only if its request was rejected or got a
      reply that can be read. */
  lemma WaitEndsIff(steps: seq<Step>, reply: nat -> Option<Content>, w: Waiter, r: nat)
    ensures Promise(Run(steps).log, reply, w, r) != [] <==> exists i: nat :: Completes(Run(steps).log, reply, r, i)
  {
    var log := Run(steps).log;
    if i: nat :| Completes(log, reply, r, i) {
      WaitEndsWith(steps, reply, w, r, i);
    } else if Count(log, r) == 0 {
      NoPromise(log, reply, w, r);
    } else {
      OneEvent(steps, r);
      var k := FindEvent(log, r);
      PromiseAt(log, reply, w, r, k);
      assert !Completes(log, reply, r, k);
    }
  }

  /** And then it returns what that event gives: "" for a connect, a rejection or a response without
      `ok`; otherwise the id in the data, "" if the data has none; without data an empty optional is
      dereferenced. */
  lemma WaitEndsWith(steps: seq<Step>, reply: nat -> Option<Content>, w: Waiter, r: nat, i: nat)
    requires Completes(Run(steps).log, reply, r, i)
    ensures var e := Run(steps).log[i];
            var p := Promise(Run(steps).log, reply, w, r);
            && (e.Rejected? || reply(i).value.ok.None? || w.Connect? ==> p == [Value("")])
            && (e.Resolved? && reply(i).value.ok.Some? && !w.Connect? ==>
                  match reply(i).value.data
                  case None => p == [Undefined]
                  case Some(None) => p == [Value("")]
                  case Some(Some(id)) => p == [Value(id)])
  {
    var log := Run(steps).log;
    CountAt(log, i);
    OneEvent(steps, r);
    PromiseAt(log, reply, w, r, i);
  }

  // ---------------------------------------------------------------- the replies as messages

  const PRODUCE_DATA := Field("id", Dispatch.OPTIONAL_STRING, End)

  /** The response types: BasicResponse, and ProduceResponse and ProduceDataResponse, which are alike. */
  function TypeOf(w: Waiter): Fields {
    if w.Connect? then Dispatch.RESPONSE_HEADER else Answering("response", PRODUCE_DATA)
  }

  function StringOf(v: Val): Option<string> { if v.VSome? && v.value.VString? then Some(v.value.s) else None }

  function ContentOf(w: Waiter, vs: seq<Val>): Content
    requires |vs| >= 3
  {
    Content(Flagged(vs[2]),
            if w.Connect? || |vs| < 4 || vs[3].VNone? then None
            else Some(if vs[3].VSome? && vs[3].value.VStruct? && vs[3].value.fields != [] then StringOf(vs[3].value.fields[0]) else None))
  }

  /** What a message holds for the waiting call, if its response type can read it. */
  function ContentIn(w: Waiter, ms: seq<(string, Json)>): Option<Content> {
    var v := Dispatch.Parse(TypeOf(w), JObject(ms));
    if v.Ok? && |v.value| >= 3 then Some(ContentOf(w, v.value)) else None
  }

  /** The id in the data of a message: there if it is a string, cut at its first NUL. */
  function IdIn(ms: seq<(string, Json)>): Option<string> {
    var d := Find(ms, "data");
    if d.Some? && d.value.JObject? && Find(d.value.members, "id").Some? && Find(d.value.members, "id").value.JString?
    then Some(CString(Find(d.value.members, "id").value.s)) else None
  }

  lemma IdRead(j: Json, vs: seq<Val>)
    requires ReadFields(PRODUCE_DATA, j, FreshFields(PRODUCE_DATA)) == Ok(vs)
    ensures |vs| == 1 && j.JObject?
    ensures StringOf(vs[0]) == var m := Find(j.members, "id"); if m.Some? && m.value.JString? then Some(CString(m.value.s)) else None
  {
    var x, more := ReadEmpty("id", Pod(TString), End, PRODUCE_DATA, j, vs);
    assert more == [];
    var ts := FreshFields(PRODUCE_DATA);
    assert ts == [VNone];
    ReadFirst("id", Dispatch.OPTIONAL_STRING, End, j, ts, vs);
  }

  lemma ProduceContent(ms: seq<(string, Json)>, w: Waiter)
    requires !w.Connect? && ContentIn(w, ms).Some?
    ensures ContentIn(w, ms) == Some(Content(OkIn(ms), if Present(ms, "data") then Some(IdIn(ms)) else None))
  {
    var fs := Answering("response", PRODUCE_DATA);
    var ts := FreshFields(fs);
    var vs := Dispatch.Parse(fs, JObject(ms)).value;
    BlankFields("response", PRODUCE_DATA);
    AnsweringRead("response", PRODUCE_DATA, JObject(ms), ts, vs);
    FlagRead(ms, vs[2]);
    OptionalRead(Struct(PRODUCE_DATA), ms, "data", vs[3]);
    if vs[3].VSome? {
      DataRead(PRODUCE_DATA, ms, vs[3].value);
      IdRead(Find(ms, "data").value, vs[3].value.fields);
    }
  }

  lemma BlankFields(first: string, data: Fields)
    ensures FreshFields(Answering(first, data)) == [VNone, VNone, VNone, VNone]
  {
    var d := Field("data", Optional(Struct(data)), End);
    var c := Field("ok", Dispatch.OPTIONAL_BOOL, d);
    var b := Field("id", Dispatch.OPTIONAL_ID, c);
    assert FreshFields(d) == [VNone];
    assert FreshFields(c) == [VNone] + FreshFields(d);
    assert FreshFields(b) == [VNone] + FreshFields(c);
    assert FreshFields(Field(first, Dispatch.OPTIONAL_BOOL, b)) == [VNone] + FreshFields(b);
  }

  /** A reply can be read exactly when its response type accepts it. */
  lemma ContentIff(w: Waiter, ms: seq<(string, Json)>)
    ensures ContentIn(w, ms).Some? <==> FitsFields(TypeOf(w), JObject(ms))
  {
    ReadsIff(TypeOf(w), JObject(ms), FreshFields(TypeOf(w)));
  }

  /** Over every schedule, `_onProduce` and `_onProduceData` return the `id` member of the `data` of
      the reply that completes them, if it has an `ok`; "" if there is no such member or no `ok`; and
      they dereference an empty optional if it has an `ok` and no `data`. */
  lemma ReturnsTheId(
    steps: seq<Step>, message: nat -> seq<(string, Json)>, reply: nat -> Option<Content>, w: Waiter, r: nat, i: nat)
    requires !w.Connect? && forall k :: reply(k) == ContentIn(w, message(k))
    requires Completes(Run(steps).log, reply, r, i) && Run(steps).log[i].Resolved?
    ensures var ms := message(i);
            Promise(Run(steps).log, reply, w, r) ==
            [if OkIn(ms).None? then Value("")
             else if !Present(ms, "data") then Undefined
             else Value(if IdIn(ms).Some? then IdIn(ms).value else "")]
  {
    assert reply(i) == ContentIn(w, message(i));
    ProduceContent(message(i), w);
    WaitEndsWith(steps, reply, w, r, i);
  }

  // ---------------------------------------------------------------- waiting for good

  /** Nothing that follows can end the wait: the request was displaced or cleared, or its reply could
      not be read. */
  ghost predicate Stranded(c: Client, reply: nat -> Option<Content>, r: nat) {
    || r in c.displaced || r in c.cleared
    || exists i: nat :: Unread(c.log, reply, r, i)
  }

  predicate Unread(log: seq<Event>, reply: nat -> Option<Content>, r: nat, i: nat) {
    i < |log| && log[i].request == r && log[i].Resolved? && reply(i).None?
  }

  lemma DoGrows(c: Client, s: Step)
    requires Enabled(c, s)
    ensures c.log <= Do(c, s).log && c.displaced <= Do(c, s).displaced && c.cleared <= Do(c, s).cleared
  {
  }

  lemma {:induction false} StrandedStays(steps: seq<Step>, more: seq<Step>, reply: nat -> Option<Content>, r: nat)
    requires Stranded(Run(steps), reply, r)
    ensures Stranded(Run(steps + more), reply, r)
  {
    if more == [] {
      assert steps + more == steps;
    } else {
      var init, s := InitLast(more);
      StrandedStays(steps, init, reply, r);
      var c := Run(steps + init);
      assert (steps + more)[..|steps + more| - 1] == steps + init && (steps + more)[|steps + more| - 1] == s;
      if Enabled(c, s) {
        DoGrows(c, s);
        if i: nat :| Unread(c.log, reply, r, i) { assert Unread(Do(c, s).log, reply, r, i); }
      }
    }
  }

  /** The call blocks for good once its request is displaced or cleared or its reply cannot be read:
      over every schedule that follows, its promise is not set. */
  lemma StrandedBlocks(steps: seq<Step>, more: seq<Step>, reply: nat -> Option<Content>, w: Waiter, r: nat)
    requires Stranded(Run(steps), reply, r)
    ensures Promise(Run(steps + more).log, reply, w, r) == []
  {
    StrandedStays(steps, more, reply, r);
    var c := Run(steps + more);
    if i: nat :| Unread(c.log, reply, r, i) {
      CountAt(c.log, i);
      OneEvent(steps + more, r);
      PromiseAt(c.log, reply, w, r, i);
    } else {
      DisplacedIsSilent(steps + more, r);
      NoPromise(c.log, reply, w, r);
    }
  }
}
