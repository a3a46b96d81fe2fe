/**
 * Safety of the request table over every schedule: each request is in exactly one place, its
 * callbacks run at most once, and only for a reply to its own key or a closed connection.
 */
module SignalingLaws {
  import opened Basics
  import opened Signaling

  // ---------------------------------------------------------------- every step keeps the invariant

  lemma TransmitKeeps(c: Client, id: int)
    requires Inv(c)
    ensures Inv(Do(c, Transmit(id)))
  {
    var d := Do(c, Transmit(id));
    var n := |c.ids|;
    assert forall r: nat :: r < n ==> d.ids[r] == c.ids[r];
    assert Places(c, n) == 0;
    forall r: nat ensures Places(d, r) == One(r < |d.ids|) {
      assert Places(c, r) == One(r < n);
      assert IsPending(d, r) == IsPending(c, r) by { if r == n { assert !IsPending(d, n); } }
    }
    assert Tidy(d) by {
      forall r | r in d.displaced ensures HasTwin(d.ids, r) {
        assert HasTwin(c.ids, r);
        var t: nat :| t < n && t != r && Int32(c.ids[t]) == Int32(c.ids[r]);
        assert Int32(d.ids[t]) == Int32(d.ids[r]);
      }
      forall i | 0 <= i < |d.log| ensures Justified(d, d.log[i]) { assert Justified(c, c.log[i]); }
    }
  }

  lemma RegisterKeeps(c: Client, r: nat)
    requires Inv(c) && Enabled(c, Register(r))
    ensures Inv(Do(c, Register(r)))
  {
    var d, key := Do(c, Register(r)), Key(c, r);
    assert Places(c, r) == 1;
    assert !IsPending(c, r);
    if key in c.pending {
      assert Places(c, c.pending[key]) == 1;
      assert IsPending(c, c.pending[key]);
      assert Int32(c.ids[r]) == Int32(c.ids[c.pending[key]]);
    }
    forall q: nat ensures Places(d, q) == One(q < |d.ids|) {
      assert Places(c, q) == One(q < |c.ids|);
    }
    forall i | 0 <= i < |d.log| ensures Justified(d, d.log[i]) { assert Justified(c, c.log[i]); }
  }

  lemma TakeKeeps(c: Client, id: int)
    requires Inv(c)
    ensures Inv(Do(c, Take(id)))
  {
    if id != -1 && id in c.pending {
      var d, r := Do(c, Take(id)), c.pending[id];
      assert IsPending(c, r) && Places(c, r) == 1;
      forall q: nat ensures Places(d, q) == One(q < |d.ids|) {
        assert Places(c, q) == One(q < |c.ids|);
      }
      forall i | 0 <= i < |d.log| ensures Justified(d, d.log[i]) { assert Justified(c, c.log[i]); }
    }
  }

  lemma ResolveKeeps(c: Client, r: nat)
    requires Inv(c) && r in c.taken
    ensures Inv(Do(c, Resolve(r)))
  {
    var d := Do(c, Resolve(r));
    var e := Resolved(r, c.taken[r]);
    assert d.log[..|d.log| - 1] == c.log;
    forall q: nat ensures Places(d, q) == One(q < |d.ids|) {
      assert Places(c, q) == One(q < |c.ids|);
    }
    forall i | 0 <= i < |d.log| ensures Justified(d, d.log[i]) {
      if i < |c.log| { assert Justified(c, c.log[i]); } else { assert d.log[i] == e; }
    }
  }

  lemma ValuesArePending(c: Client, r: nat)
    requires Tidy(c)
    ensures r in InTable(c) <==> IsPending(c, r)
  {
    if r in InTable(c) {
      var k :| k in c.pending && c.pending[k] == r;
    }
    if IsPending(c, r) {
      assert c.pending[Key(c, r)] in InTable(c);
    }
  }

  lemma WalkIsPending(c: Client, order: seq<nat>, r: nat)
    requires Tidy(c) && Walks(c, order)
    ensures r in order <==> IsPending(c, r)
  {
    ValuesArePending(c, r);
    if r in order {
      var i :| 0 <= i < |order| && order[i] == r;
      assert order[i] in InTable(c);
    }
  }

  lemma {:induction false} RejectionsAre(order: seq<nat>)
    ensures |Rejections(order)| == |order|
    ensures forall i :: 0 <= i < |order| ==> Rejections(order)[i] == Rejected(order[i], 2)
  {
    if order != [] { RejectionsAre(order[..|order| - 1]); }
  }

  lemma CloseKeeps(c: Client, order: seq<nat>)
    requires Inv(c) && Walks(c, order)
    ensures Inv(Do(c, Close(order)))
  {
    var d := Do(c, Close(order));
    forall q: nat ensures Places(d, q) == One(q < |d.ids|) {
      assert Places(c, q) == One(q < |c.ids|);
      CountConcat(c.log, Rejections(order), q);
      CountRejections(order, q);
      WalkIsPending(c, order, q);
    }
    RejectionsAre(order);
    forall i | 0 <= i < |d.log| ensures Justified(d, d.log[i]) {
      if i < |c.log| {
        assert Justified(c, c.log[i]);
      } else {
        var r := order[i - |c.log|];
        WalkIsPending(c, order, r);
      }
    }
  }

  lemma ClearKeeps(c: Client)
    requires Inv(c)
    ensures Inv(Do(c, Clear))
  {
    var d := Do(c, Clear);
    forall q: nat ensures Places(d, q) == One(q < |d.ids|) {
      assert Places(c, q) == One(q < |c.ids|);
      ValuesArePending(c, q);
    }
    forall r | r in d.cleared ensures r < |d.ids| { ValuesArePending(c, r); }
    forall i | 0 <= i < |d.log| ensures Justified(d, d.log[i]) { assert Justified(c, c.log[i]); }
  }

  lemma StepKeeps(c: Client, s: Step)
    requires Inv(c) && Enabled(c, s)
    ensures Inv(Do(c, s))
  {
    match s
    case Transmit(id) => TransmitKeeps(c, id);
    case Register(r) => RegisterKeeps(c, r);
    case Take(id) => TakeKeeps(c, id);
    case Resolve(r) => ResolveKeeps(c, r);
    case Close(order) => CloseKeeps(c, order);
    case Clear => ClearKeeps(c);
    case Timeout(_) =>
  }

  lemma {:induction false} RunKeeps(steps: seq<Step>)
    ensures Inv(Run(steps))
  {
    if steps == [] {
      assert forall r: nat :: Count([], r) == 0;
    } else {
      RunKeeps(steps[..|steps| - 1]);
      var c, s := Run(steps[..|steps| - 1]), steps[|steps| - 1];
      if Enabled(c, s) { StepKeeps(c, s); }
    }
  }

  // ---------------------------------------------------------------- what it gives

  /** Conservation: over every schedule every request that was sent is in exactly one place. */
  lemma Conservation(steps: seq<Step>, r: nat)
    ensures Places(Run(steps), r) == One(r < |Run(steps).ids|)
  {
    RunKeeps(steps);
  }

  /** At most one callback of a request ever runs, and then the request is nowhere else; a reply
      resolves only the request whose key is its id, and a rejection has code 2. */
  lemma AtMostOnce(steps: seq<Step>, i: nat, j: nat)
    requires i < |Run(steps).log| && j < |Run(steps).log|
    ensures var c := Run(steps);
            var e := c.log[i];
            && (e.request == c.log[j].request ==> i == j)
            && e.request !in c.sending && !IsPending(c, e.request) && e.request !in c.taken
            && Justified(c, e)
  {
    var c := Run(steps);
    RunKeeps(steps);
    assert Justified(c, c.log[i]);
    assert Places(c, c.log[i].request) == 1;
    CountAt(c.log, i);
    if i != j && c.log[i].request == c.log[j].request {
      CountTwice(c.log, if i < j then i else j, if i < j then j else i);
    }
  }

  lemma {:induction false} CountAt(log: seq<Event>, i: nat)
    requires i < |log|
    ensures Count(log, log[i].request) >= 1
  {
    if i < |log| - 1 { CountAt(log[..|log| - 1], i); }
  }

  lemma {:induction false} CountTwice(log: seq<Event>, i: nat, j: nat)
    requires i < j < |log| && log[i].request == log[j].request
    ensures Count(log, log[i].request) >= 2
  {
    if j < |log| - 1 { CountTwice(log[..|log| - 1], i, j); } else { CountAt(log[..|log| - 1], i); }
  }

  /** After onClosed nothing is pending, and all that was pending has been rejected. */
  lemma CloseRejectsAll(c: Client, order: seq<nat>, r: nat)
    requires Inv(c) && Walks(c, order)
    ensures !IsPending(Do(c, Close(order)), r)
    ensures IsPending(c, r) ==> Rejected(r, 2) in Do(c, Close(order)).log
  {
    WalkIsPending(c, order, r);
    RejectionsAre(order);
    if IsPending(c, r) {
      var i :| 0 <= i < |order| && order[i] == r;
      assert Do(c, Close(order)).log[|c.log| + i] == Rejected(r, 2);
    }
  }

  /** In every reachable state a reply newly takes a request if and only if the request is pending
      under the id of the reply. */
  lemma TakesIff(steps: seq<Step>, r: nat, id: int)
    ensures var c := Run(steps);
            var d := Do(c, Take(id));
            && (r in d.taken && r !in c.taken <==> IsPending(c, r) && id == Key(c, r) && id != -1)
            && (IsPending(d, r) <==> IsPending(c, r) && !(id == Key(c, r) && id != -1))
            && d.ids == c.ids && d.sending == c.sending && d.log == c.log
            && (r in d.taken && r !in c.taken ==> d.taken[r] == Key(c, r))
  {
    var c := Run(steps);
    RunKeeps(steps);
    assert Places(c, r) == One(r < |c.ids|);
  }

  /** A request is displaced only if another one has the same key: with pairwise distinct keys no
      request is ever displaced. */
  lemma DistinctKeysNeverDisplace(steps: seq<Step>)
    ensures forall r :: r in Run(steps).displaced ==> HasTwin(Run(steps).ids, r)
    ensures (forall r: nat :: !HasTwin(Run(steps).ids, r)) ==> Run(steps).displaced == {}
  {
    RunKeeps(steps);
  }

  /** Keys of 32-bit transaction ids are the ids; 64-bit ids collide exactly modulo 2^32. */
  lemma KeysCollide(a: int, b: int)
    ensures Int32(a) == Int32(b) <==> a % 0x1_0000_0000 == b % 0x1_0000_0000
    ensures -0x8000_0000 <= a < 0x8000_0000 <==> Int32(a) == a
  {
  }

  /** A registered request displaces the pending one of the same key, whose callbacks never run. */
  lemma DisplacedIsSilent(steps: seq<Step>, r: nat)
    requires r in Run(steps).displaced || r in Run(steps).cleared
    ensures Count(Run(steps).log, r) == 0
  {
    RunKeeps(steps);
    assert Places(Run(steps), r) == One(r < |Run(steps).ids|);
  }

  /** Whatever happened before and whatever reply comes, a request that is transmitted and not yet
      registered stays so: the reply is lost on it, and registering leaves it pending. If no other
      request has its key pending, its own reply changes nothing at all. */
  lemma EarlyReplyIsLost(steps: seq<Step>, r: nat, replyId: int)
    requires r in Run(steps).sending
    ensures var c := Run(steps);
            var d := Do(c, Take(replyId));
            && r < |c.ids| && r in d.sending && r !in d.taken && Count(d.log, r) == 0
            && Enabled(d, Register(r)) && IsPending(Do(d, Register(r)), r)
            && (Key(c, r) !in c.pending ==> Do(c, Take(Key(c, r))) == c)
  {
    var c := Run(steps);
    RunKeeps(steps);
    TakeKeeps(c, replyId);
    var d := Do(c, Take(replyId));
    assert Places(d, r) == One(r < |d.ids|);
  }

  /** A request that stays transmitted and unregistered stays so through any schedule that does not
      register it, so all replies until then are lost on it. */
  lemma {:induction false} LostUntilRegistered(steps: seq<Step>, more: seq<Step>, r: nat)
    requires r in Run(steps).sending && Register(r) !in more
    ensures r in Run(steps + more).sending && Count(Run(steps + more).log, r) == 0
  {
    if more == [] {
      assert steps + more == steps;
    } else {
      var n := |more| - 1;
      assert (steps + more)[..|steps| + n] == steps + more[..n];
      LostUntilRegistered(steps, more[..n], r);
    }
    RunKeeps(steps + more);
    assert Places(Run(steps + more), r) == One(r < |Run(steps + more).ids|);
  }

  // ---------------------------------------------------------------- a request by its id

  lemma RunMore(steps: seq<Step>, s: Step)
    ensures Run(steps + [s]) == if Enabled(Run(steps), s) then Do(Run(steps), s) else Run(steps)
  {
    assert (steps + [s])[..|steps|] == steps;
  }

  lemma {:induction false} IdsGrow(steps: seq<Step>, more: seq<Step>)
    ensures Run(steps).ids <= Run(steps + more).ids
  {
    if more == [] {
      assert steps + more == steps;
    } else {
      var init, s := InitLast(more);
      IdsGrow(steps, init);
      assert steps + more == (steps + init) + [s];
      RunMore(steps + init, s);
    }
  }

  /** Over every schedule, the request that sending `id` makes keeps that id, cut to 32 bits, as its
      key, whatever follows. */
  lemma SentUnderItsId(before: seq<Step>, id: int, more: seq<Step>)
    ensures var r := |Run(before).ids|;
            var c := Run(before + [Transmit(id)] + more);
            r < |c.ids| && c.ids[r] == id && Key(c, r) == Int32(id)
  {
    RunMore(before, Transmit(id));
    IdsGrow(before + [Transmit(id)], more);
  }

  /** The way of a request with a non-negative 32-bit id: over every schedule, if it is pending, the
      reply with its id takes it, and running its callback logs that this reply resolved it. */
  lemma ReplyResolvesById(before: seq<Step>, id: int, more: seq<Step>)
    requires 0 <= id < 0x8000_0000
    ensures var r := |Run(before).ids|;
            var c := Run(before + [Transmit(id)] + more);
            IsPending(c, r) ==>
              var d := Do(c, Take(id));
              r in d.taken && !IsPending(d, r) && Do(d, Resolve(r)).log == c.log + [Resolved(r, id)]
  {
    SentUnderItsId(before, id, more);
    TakesIff(before + [Transmit(id)] + more, |Run(before).ids|, id);
    KeysCollide(id, id);
    var c := Run(before + [Transmit(id)] + more);
    if IsPending(c, |Run(before).ids|) {
      RunKeeps(before + [Transmit(id)] + more);
      assert Places(c, |Run(before).ids|) == One(|Run(before).ids| < |c.ids|);
    }
  }

  /** Registering a transmitted request makes it pending under its id. */
  lemma RegisteredIsPending(before: seq<Step>, id: int, more: seq<Step>)
    ensures var r := |Run(before).ids|;
            var c := Run(before + [Transmit(id)] + more);
            r in c.sending ==>
              Enabled(c, Register(r)) && IsPending(Do(c, Register(r)), r) && Do(c, Register(r)).pending == c.pending[Int32(id) := r]
  {
    SentUnderItsId(before, id, more);
  }

  /** After clearRequests nothing is pending, all that was is cleared, and no callback has run. */
  lemma ClearForgets(c: Client, r: nat)
    requires Inv(c)
    ensures var d := Do(c, Clear);
            !IsPending(d, r) && (IsPending(c, r) ==> r in d.cleared) && d.log == c.log && d.taken == c.taken && d.sending == c.sending
  {
    ValuesArePending(c, r);
  }

  predicate IsTimeout(s: Step) { s.Timeout? }

  /** The schedule without its timeouts. */
  function Untimed(steps: seq<Step>): seq<Step> {
    if steps == [] then []
    else Untimed(steps[..|steps| - 1]) + if IsTimeout(steps[|steps| - 1]) then [] else [steps[|steps| - 1]]
  }

  /** Timeouts reject nothing: over every schedule the run is the one without them. */
  lemma {:induction false} TimeoutsDoNothing(steps: seq<Step>)
    ensures Run(steps) == Run(Untimed(steps))
  {
    if steps != [] {
      var init, s := InitLast(steps);
      TimeoutsDoNothing(init);
      RunMore(init, s);
      if IsTimeout(s) {
        assert Untimed(init) + [] == Untimed(init);
      } else {
        RunMore(Untimed(init), s);
      }
    }
  }

  // ---------------------------------------------------------------- MediasoupApi::send

  /** How the API caller's callback is invoked. */
  datatype ApiCall = ApiCall(request: nat, code: int, hasResponse: bool)

  /** The two closures of MediasoupApi::send: a reply that is empty or does not parse is dropped. */
  function Notify(e: Event, readable: bool): seq<ApiCall> {
    match e
    case Resolved(r, _) => if readable then [ApiCall(r, 0, true)] else []
    case Rejected(r, code) => [ApiCall(r, code, false)]
  }

  /** The invocations of API callbacks; `readable(i)` says whether event `i` brought a good reply. */
  function ApiCalls(log: seq<Event>, readable: nat -> bool): seq<ApiCall> {
    if log == [] then []
    else ApiCalls(log[..|log| - 1], readable) + Notify(log[|log| - 1], readable(|log| - 1))
  }

  function CallsFor(calls: seq<ApiCall>, r: nat): nat {
    if calls == [] then 0
    else CallsFor(calls[..|calls| - 1], r) + One(calls[|calls| - 1].request == r)
  }

  lemma CallsForMore(calls: seq<ApiCall>, more: seq<ApiCall>, r: nat)
    requires |more| <= 1
    ensures CallsFor(calls + more, r) == CallsFor(calls, r) + One(more != [] && more[0].request == r)
  {
    if more == [] {
      assert calls + more == calls;
    } else {
      assert (calls + more)[..|calls|] == calls;
    }
  }

  /** What the last event adds. */
  lemma CallsStep(log: seq<Event>, readable: nat -> bool, r: nat, init: seq<Event>, e: Event, n: nat)
    requires log == init + [e] && n == |init|
    ensures CallsFor(ApiCalls(log, readable), r) ==
            CallsFor(ApiCalls(init, readable), r) + One(e.request == r && (e.Rejected? || readable(n)))
    ensures Count(log, r) == Count(init, r) + One(e.request == r)
  {
    assert log[..n] == init;
    CallsForMore(ApiCalls(init, readable), Notify(e, readable(n)), r);
  }

  lemma {:induction false} CallsBounded(log: seq<Event>, readable: nat -> bool, r: nat)
    ensures CallsFor(ApiCalls(log, readable), r) <= Count(log, r)
  {
    if log != [] {
      var n := |log| - 1;
      CallsBounded(log[..n], readable, r);
      Snoc(log);
      CallsStep(log, readable, r, log[..n], log[n], n);
    }
  }

  /** If one event is about `r`, its callback fires for a rejection or a reply that can be read. */
  lemma {:induction false} CallsExactly(log: seq<Event>, readable: nat -> bool, r: nat, i: nat)
    requires Count(log, r) == 1 && i < |log| && log[i].request == r
    ensures CallsFor(ApiCalls(log, readable), r) == One(log[i].Rejected? || readable(i))
  {
    var n := |log| - 1;
    var init := log[..n];
    Snoc(log);
    CallsStep(log, readable, r, init, log[n], n);
    if i < n {
      CountAt(init, i);
      CallsExactly(init, readable, r, i);
    } else {
      CallsBounded(init, readable, r);
    }
  }

  /** The calls for `r` among the API calls. */
  function CallsOf(calls: seq<ApiCall>, r: nat): seq<ApiCall> {
    if calls == [] then []
    else CallsOf(calls[..|calls| - 1], r) + if calls[|calls| - 1].request == r then [calls[|calls| - 1]] else []
  }

  lemma CallsOfMore(calls: seq<ApiCall>, more: seq<ApiCall>, r: nat)
    requires |more| <= 1
    ensures CallsOf(calls + more, r) == CallsOf(calls, r) + if more != [] && more[0].request == r then more else []
  {
    if more == [] {
      assert calls + more == calls;
    } else {
      assert (calls + more)[..|calls|] == calls;
      assert more == [more[0]];
    }
  }

  lemma {:induction false} NoCallsOf(log: seq<Event>, readable: nat -> bool, r: nat)
    requires Count(log, r) == 0
    ensures CallsOf(ApiCalls(log, readable), r) == []
  {
    if log != [] {
      var n := |log| - 1;
      var init, e := InitLast(log);
      CallsStep(log, readable, r, init, e, n);
      NoCallsOf(init, readable, r);
      CallsOfMore(ApiCalls(init, readable), Notify(e, readable(n)), r);
    }
  }

  /** What the API caller of `r` is told when one event is about it: code 0 and a response for a reply
      that can be read, the code of the rejection and no response for a rejection. */
  lemma {:induction false} ToldExactly(log: seq<Event>, readable: nat -> bool, r: nat, i: nat)
    requires Count(log, r) == 1 && i < |log| && log[i].request == r
    ensures CallsOf(ApiCalls(log, readable), r) ==
            if log[i].Rejected? then [ApiCall(r, log[i].code, false)] else if readable(i) then [ApiCall(r, 0, true)] else []
  {
    var n := |log| - 1;
    var init, e := InitLast(log);
    CallsStep(log, readable, r, init, e, n);
    CallsOfMore(ApiCalls(init, readable), Notify(e, readable(n)), r);
    if i < n {
      CountAt(init, i);
      ToldExactly(init, readable, r, i);
    } else {
      NoCallsOf(init, readable, r);
    }
  }

  lemma {:induction false} CallsHaveCodes(log: seq<Event>, readable: nat -> bool, i: nat)
    requires forall k :: 0 <= k < |log| && log[k].Rejected? ==> log[k].code == 2
    requires i < |ApiCalls(log, readable)|
    ensures var call := ApiCalls(log, readable)[i];
            (call.code == 0 <==> call.hasResponse) && (call.code == 0 || call.code == 2)
  {
    if log != [] {
      var init := log[..|log| - 1];
      if i < |ApiCalls(init, readable)| { CallsHaveCodes(init, readable, i); }
    }
  }

  /** Over every schedule, a request whose callback ran has told its API caller exactly once, unless
      the reply was empty or did not parse: code 0 with a response, or code 2 without one. */
  lemma CallbackTold(steps: seq<Step>, readable: nat -> bool, i: nat)
    requires i < |Run(steps).log|
    ensures var log := Run(steps).log;
            var r := log[i].request;
            && CallsFor(ApiCalls(log, readable), r) == One(log[i].Rejected? || readable(i))
            && CallsOf(ApiCalls(log, readable), r) ==
               if log[i].Rejected? then [ApiCall(r, 2, false)] else if readable(i) then [ApiCall(r, 0, true)] else []
  {
    var c := Run(steps);
    RunKeeps(steps);
    var r := c.log[i].request;
    assert Places(c, r) == One(r < |c.ids|);
    CountAt(c.log, i);
    assert Justified(c, c.log[i]);
    CallsExactly(c.log, readable, r, i);
    ToldExactly(c.log, readable, r, i);
  }

  /** Callback layering: over every schedule and whatever the replies hold, the callback of an API
      caller fires at most once, and with code 0 exactly when it is given a response. */
  lemma CallbackOnce(steps: seq<Step>, readable: nat -> bool, r: nat)
    ensures var calls := ApiCalls(Run(steps).log, readable);
            && CallsFor(calls, r) <= 1
            && forall i :: 0 <= i < |calls| ==> (calls[i].code == 0 <==> calls[i].hasResponse)
  {
    var c := Run(steps);
    RunKeeps(steps);
    assert Places(c, r) == One(r < |c.ids|);
    CallsBounded(c.log, readable, r);
    forall k | 0 <= k < |c.log| && c.log[k].Rejected? ensures c.log[k].code == 2 {
      assert Justified(c, c.log[k]);
    }
    forall i | 0 <= i < |ApiCalls(c.log, readable)|
      ensures ApiCalls(c.log, readable)[i].code == 0 <==> ApiCalls(c.log, readable)[i].hasResponse
    {
      CallsHaveCodes(c.log, readable, i);
    }
  }
}
