/**
 * SignalingClient as an object (core/service/signaling_client.cpp:62-117 and 125-210): the table
 * and the callbacks are fields that the event methods update in place. Every method is one step,
 * or two, of the step system in Signaling.
 */
module SignalingObject {
  import opened Basics
  import opened Signaling
  import opened SignalingLaws

  /** The walk over the table of `c` so far: the requests in `order` are done, `keys` are left. */
  ghost predicate Walked(c: Client, order: seq<nat>, keys: set<int>) {
    && keys <= c.pending.Keys
    && (forall i, j :: 0 <= i < j < |order| ==> order[i] != order[j])
    && (forall i :: 0 <= i < |order| ==> order[i] in InTable(c) && order[i] < |c.ids| && Key(c, order[i]) !in keys)
    && (forall k :: k in c.pending && k !in keys ==> c.pending[k] in order)
  }

  lemma WalkStep(c: Client, order: seq<nat>, keys: set<int>, k: int)
    requires Tidy(c) && Walked(c, order, keys) && k in keys
    ensures Walked(c, order + [c.pending[k]], keys - {k})
    ensures Rejections(order + [c.pending[k]]) == Rejections(order) + [Rejected(c.pending[k], 2)]
  {
    var r := c.pending[k];
    assert (order + [r])[..|order|] == order;
    assert r in InTable(c) && Key(c, r) == k;
    forall i | 0 <= i < |order| ensures order[i] != r { assert Key(c, order[i]) !in keys; }
  }

  /** The walk visits the keys in some order. */
  method AnyOf(keys: set<int>) returns (k: int)
    requires exists i :: i in keys
    ensures k in keys
  {
    k :| k in keys;
  }

  lemma WalkDone(c: Client, order: seq<nat>, keys: set<int>)
    requires Walked(c, order, keys) && forall k :: k !in keys
    ensures Walks(c, order)
  {
  }

  /** `for (it : _requestMap) it.second->close()`: each close runs the reject callback with code 2. */
  method CloseEach(table: map<int, nat>, ghost c: Client) returns (events: seq<Event>, ghost order: seq<nat>)
    requires Tidy(c) && table == c.pending
    ensures Walks(c, order) && events == Rejections(order)
  {
    events, order := [], [];
    var keys := table.Keys;
    while exists k :: k in keys
      invariant Walked(c, order, keys)
      invariant events == Rejections(order)
      decreases keys
    {
      var k := AnyOf(keys);
      WalkStep(c, order, keys, k);
      events := events + [Rejected(table[k], 2)];
      order := order + [table[k]];
      keys := keys - {k};
    }
    WalkDone(c, order, keys);
  }

  class SignalingClient {
    var ids: seq<int>
    var requestMap: map<int, nat>
    var log: seq<Event>
    ghost var sending: set<nat>
    ghost var taken: map<nat, int>
    ghost var displaced: set<nat>
    ghost var cleared: set<nat>

    ghost function State(): Client
      reads this
    {
      Client(ids, sending, requestMap, taken, log, displaced, cleared)
    }

    ghost predicate Valid()
      reads this
    {
      Inv(State())
    }

    constructor ()
      ensures Valid() && State() == FRESH
    {
      ids, requestMap, log := [], map[], [];
      sending, taken, displaced, cleared := {}, map[], {}, {};
      new;
      RunKeeps([]);
    }

    /** The first half of `send`: an empty text makes no request. */
    method TransmitText(text: string, transaction: int) returns (request: Option<nat>)
      requires Valid()
      modifies this
      ensures Valid()
      ensures text == "" ==> request == None && State() == old(State())
      ensures text != "" ==> request == Some(old(|ids|)) && State() == Do(old(State()), Transmit(transaction))
      ensures text != "" ==> ids == old(ids) + [transaction] && requestMap == old(requestMap) && log == old(log)
    {
      request := None;
      if text != "" {
        request := Some(|ids|);
        sending := sending + {|ids|};
        ids := ids + [transaction];
        StepKeeps(old(State()), Transmit(transaction));
      }
    }

    /** The second half, under the lock: `_requestMap[request->id()] = request`. */
    method RegisterRequest(request: nat)
      requires Valid() && Enabled(State(), Register(request))
      modifies this
      ensures Valid() && State() == Do(old(State()), Register(request))
    {
      var key := Int32(ids[request]);
      displaced := if key in requestMap then displaced + {requestMap[key]} else displaced;
      sending := sending - {request};
      requestMap := requestMap[key := request];
      StepKeeps(old(State()), Register(request));
    }

    /** The locked part of `handleResponse`. */
    method TakeRequest(id: int) returns (request: Option<nat>)
      requires Valid()
      modifies this
      ensures Valid() && State() == Do(old(State()), Take(id))
      ensures request == if id != -1 && id in old(requestMap) then Some(old(requestMap)[id]) else None
    {
      request := None;
      if id != -1 {
        if id in requestMap {
          request := Some(requestMap[id]);
          taken := taken[requestMap[id] := id];
          requestMap := requestMap - {id};
        }
      }
      StepKeeps(old(State()), Take(id));
    }

    /** `request->resolve(json)`, outside the lock. */
    method ResolveRequest(request: nat, id: int)
      requires Valid() && request in taken && taken[request] == id
      modifies this
      ensures Valid() && State() == Do(old(State()), Resolve(request))
    {
      log := log + [Resolved(request, id)];
      taken := taken - {request};
      StepKeeps(old(State()), Resolve(request));
    }

    /** `onClosed`: closes every request of the table, in the order in which the table is walked. */
    method OnClosed() returns (ghost order: seq<nat>)
      requires Valid()
      modifies this
      ensures Valid() && Walks(old(State()), order)
      ensures State() == Do(old(State()), Close(order))
    {
      ghost var c := State();
      var events;
      events, order := CloseEach(requestMap, c);
      log := log + events;
      requestMap := map[];
      StepKeeps(c, Close(order));
    }

    /** `clearRequests` */
    method ClearRequests()
      requires Valid()
      modifies this
      ensures Valid() && State() == Do(old(State()), Clear)
      ensures requestMap == map[] && log == old(log) && forall r :: IsPending(old(State()), r) ==> r in cleared
    {
      forall r: nat ensures IsPending(State(), r) ==> r in InTable(State()) { ValuesArePending(State(), r); }
      cleared := cleared + InTable(State());
      requestMap := map[];
      StepKeeps(old(State()), Clear);
    }
  }
}
