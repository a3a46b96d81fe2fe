/**
 * The request table of SignalingClient (core/service/signaling_client.cpp) with WebsocketRequest
 * (core/websocket/websocket_request.h), as a step system. A request is transmitted before it is
 * registered, and a reply removes it from the table before its callback runs, so other steps can
 * come in between. Request objects are numbered in the order in which they are made.
 */
module Signaling {

  /** `int32_t id()` of a request whose transaction id is the 64-bit `id`. */
  function Int32(id: int): int {
    var low := id % 0x1_0000_0000;
    if low < 0x8000_0000 then low else low - 0x1_0000_0000
  }

  /** A callback of a request object was invoked. */
  datatype Event =
    | Resolved(request: nat, replyId: int)
    | Rejected(request: nat, code: int)

  /** `ids`: the transaction ids of all request objects. `sending`: transmitted, not registered.
      `pending`: `_requestMap`. `taken`: removed for a reply, callback not yet run. `displaced` and
      `cleared`: dropped from the table by an equal key or by clearRequests. */
  datatype Client = Client(
    ids: seq<int>, sending: set<nat>, pending: map<int, nat>, taken: map<nat, int>,
    log: seq<Event>, displaced: set<nat>, cleared: set<nat>)

  const FRESH := Client([], {}, map[], map[], [], {}, {})

  datatype Step =
    | Transmit(id: int)          // send: the transport has the text
    | Register(request: nat)     // send: the table has the request
    | Take(replyId: int)         // handleResponse: look up and erase
    | Resolve(request: nat)      // handleResponse: run the resolve callback
    | Close(order: seq<nat>)     // onClosed, with the order in which the table is walked
    | Clear                      // clearRequests
    | Timeout(request: nat)      // the timer of a request fires

  function Key(c: Client, r: nat): int
    requires r < |c.ids|
  {
    Int32(c.ids[r])
  }

  predicate IsPending(c: Client, r: nat) {
    r < |c.ids| && Key(c, r) in c.pending && c.pending[Key(c, r)] == r
  }

  /** The requests in the table. */
  function InTable(c: Client): set<nat> { set k | k in c.pending :: c.pending[k] }

  /** `order` lists the values of the table, each once. */
  predicate Walks(c: Client, order: seq<nat>) {
    && (forall i, j :: 0 <= i < j < |order| ==> order[i] != order[j])
    && (forall i :: 0 <= i < |order| ==> order[i] in InTable(c))
    && (forall k :: k in c.pending ==> c.pending[k] in order)
  }

  predicate Enabled(c: Client, s: Step) {
    match s
    case Transmit(_) => true
    case Register(r) => r in c.sending && r < |c.ids|
    case Take(_) => true
    case Resolve(r) => r in c.taken
    case Close(order) => Walks(c, order)
    case Clear => true
    case Timeout(_) => true
  }

  function Rejections(order: seq<nat>): seq<Event> {
    if order == [] then [] else Rejections(order[..|order| - 1]) + [Rejected(order[|order| - 1], 2)]
  }

  function Do(c: Client, s: Step): Client
    requires Enabled(c, s)
  {
    match s
    case Transmit(id) => c.(ids := c.ids + [id], sending := c.sending + {|c.ids|})
    case Register(r) =>
      var key := Key(c, r);
      c.(sending := c.sending - {r}, pending := c.pending[key := r],
         displaced := if key in c.pending then c.displaced + {c.pending[key]} else c.displaced)
    case Take(id) =>
      if id != -1 && id in c.pending then
        c.(pending := c.pending - {id}, taken := c.taken[c.pending[id] := id])
      else c
    case Resolve(r) => c.(taken := c.taken - {r}, log := c.log + [Resolved(r, c.taken[r])])
    case Close(order) => c.(pending := map[], log := c.log + Rejections(order))
    case Clear => c.(pending := map[], cleared := c.cleared + InTable(c))
    case Timeout(_) => c
  }

  /** Any schedule of steps; a step that is not enabled does not happen. */
  function Run(steps: seq<Step>): Client {
    if steps == [] then FRESH
    else
      var c, s := Run(steps[..|steps| - 1]), steps[|steps| - 1];
      if Enabled(c, s) then Do(c, s) else c
  }

  // ---------------------------------------------------------------- where a request is

  function Count(log: seq<Event>, r: nat): nat {
    if log == [] then 0
    else Count(log[..|log| - 1], r) + (if log[|log| - 1].request == r then 1 else 0)
  }

  lemma {:induction false} CountConcat(a: seq<Event>, b: seq<Event>, r: nat)
    ensures Count(a + b, r) == Count(a, r) + Count(b, r)
  {
    if b == [] {
      assert a + b == a;
    } else {
      assert (a + b)[..|a + b| - 1] == a + b[..|b| - 1];
      CountConcat(a, b[..|b| - 1], r);
    }
  }

  lemma {:induction false} CountRejections(order: seq<nat>, r: nat)
    requires forall i, j :: 0 <= i < j < |order| ==> order[i] != order[j]
    ensures Count(Rejections(order), r) == if r in order then 1 else 0
  {
    if order != [] {
      var k := |order| - 1;
      CountRejections(order[..k], r);
      assert Rejections(order)[..|Rejections(order)| - 1] == Rejections(order[..k]);
      assert order == order[..k] + [order[k]];
    }
  }

  function One(b: bool): nat { if b then 1 else 0 }

  /** In how many places request `r` is: the six fates, with callbacks counted one by one. */
  function Places(c: Client, r: nat): nat {
    One(r in c.sending) + One(IsPending(c, r)) + One(r in c.taken) + Count(c.log, r)
    + One(r in c.displaced) + One(r in c.cleared)
  }

  /** Another request has the same key. */
  predicate HasTwin(ids: seq<int>, r: nat) {
    r < |ids| && exists t: nat :: t < |ids| && t != r && Int32(ids[t]) == Int32(ids[r])
  }

  /** A callback ran for a request that exists: with the reply id that is its key, or with code 2. */
  predicate Justified(c: Client, e: Event) {
    && e.request < |c.ids|
    && (e.Resolved? ==> e.replyId == Key(c, e.request) && e.replyId != -1)
    && (e.Rejected? ==> e.code == 2)
  }

  predicate Tidy(c: Client) {
    && (forall k :: k in c.pending ==> c.pending[k] < |c.ids| && Key(c, c.pending[k]) == k)
    && (forall r :: r in c.taken ==> r < |c.ids| && c.taken[r] == Key(c, r) && c.taken[r] != -1)
    && (forall r :: r in c.sending ==> r < |c.ids|)
    && (forall r :: r in c.cleared ==> r < |c.ids|)
    && (forall r :: r in c.displaced ==> HasTwin(c.ids, r))
    && (forall i :: 0 <= i < |c.log| ==> Justified(c, c.log[i]))
  }

  ghost predicate Inv(c: Client) {
    Tidy(c) && forall r: nat :: Places(c, r) == One(r < |c.ids|)
  }
}
