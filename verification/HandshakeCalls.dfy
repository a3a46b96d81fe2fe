/**
 * The handshake driven by the API callbacks of a signaling run (core/service/mediasoup_api.h:175-212
 * with core/service/room_client.cpp:229-513). Here a callback is handled whenever it comes; that each
 * comes at most once is a theorem about the request table and not an assumption.
 */
module HandshakeCalls {
  import opened Handshake
  import Signaling
  import SignalingLaws

  /** As `Do`, but without asking whether the request was answered before. */
  function DoAny(r: Room, s: Step): Room {
    if s.Callback? && !r.undefined && s.request < |r.issued|
    then OnCallback(r.(answered := r.answered + {s.request}), r.issued[s.request], s.answer)
    else Do(r, s)
  }

  function RunAny(steps: seq<Step>): Room {
    if steps == [] then NEW_ROOM else DoAny(RunAny(steps[..|steps| - 1]), steps[|steps| - 1])
  }

  /** No request is called back twice. */
  predicate OncePerRequest(steps: seq<Step>) {
    forall j, k :: 0 <= j < k < |steps| && steps[j].Callback? && steps[k].Callback? ==> steps[j].request != steps[k].request
  }

  predicate CalledBack(steps: seq<Step>, i: nat) {
    exists k :: 0 <= k < |steps| && steps[k].Callback? && steps[k].request == i
  }

  lemma DoAnswers(r: Room, s: Step, i: nat)
    requires i in Do(r, s).answered
    ensures i in r.answered || (s.Callback? && s.request == i)
  {
    if s.RunTask? && r.tasks != [] { TaskAnswersNone(r.(tasks := r.tasks[1..]), r.tasks[0], s.library); }
  }

  lemma TaskAnswersNone(r: Room, task: Task, lib: Library)
    ensures OnTask(r, task, lib).answered == r.answered
  {
    match task
    case FetchCapabilities =>
    case LoadDevice(_) =>
    case SendCreated(_) =>
    case RecvCreated(_) =>
    case Announce(_) =>
  }

  lemma {:induction false} AnsweredWasCalled(steps: seq<Step>, i: nat)
    requires i in Run(steps).answered
    ensures CalledBack(steps, i)
  {
    var n := |steps| - 1;
    DoAnswers(Run(steps[..n]), steps[n], i);
    if i in Run(steps[..n]).answered { AnsweredWasCalled(steps[..n], i); }
  }

  /** Without repeated callbacks the two systems run alike. */
  lemma {:induction false} RunsAlike(steps: seq<Step>)
    requires OncePerRequest(steps)
    ensures RunAny(steps) == Run(steps)
  {
    if steps != [] {
      var n := |steps| - 1;
      var init, s := steps[..n], steps[n];
      RunsAlike(init);
      if s.Callback? && s.request in Run(init).answered { AnsweredWasCalled(init, s.request); }
    }
  }

  /** The callbacks among `steps` are those of the API calls: step `k` is call number `at(k)`, for
      the signaling request that carries handshake request number `steps[k].request`, and different
      steps are different calls. */
  predicate Driven(steps: seq<Step>, calls: seq<SignalingLaws.ApiCall>, at: nat -> nat, carries: nat -> nat) {
    && (forall k: nat :: k < |steps| && steps[k].Callback? ==>
          && at(k) < |calls| && calls[at(k)].request == carries(steps[k].request)
          && (calls[at(k)].hasResponse <==> steps[k].answer.Response?))
    && (forall j: nat, k: nat :: j < k < |steps| && steps[j].Callback? && steps[k].Callback? ==> at(j) != at(k))
  }

  lemma {:induction false} CallsAt(calls: seq<SignalingLaws.ApiCall>, i: nat)
    requires i < |calls|
    ensures SignalingLaws.CallsFor(calls, calls[i].request) >= 1
  {
    if i < |calls| - 1 { CallsAt(calls[..|calls| - 1], i); }
  }

  lemma {:induction false} CallsTwice(calls: seq<SignalingLaws.ApiCall>, i: nat, j: nat)
    requires i < j < |calls| && calls[i].request == calls[j].request
    ensures SignalingLaws.CallsFor(calls, calls[i].request) >= 2
  {
    var n := |calls| - 1;
    if j < n { CallsTwice(calls[..n], i, j); } else { CallsAt(calls[..n], i); }
  }

  lemma DrivenOnce(schedule: seq<Signaling.Step>, readable: nat -> bool, steps: seq<Step>, at: nat -> nat, carries: nat -> nat)
    requires Driven(steps, SignalingLaws.ApiCalls(Signaling.Run(schedule).log, readable), at, carries)
    ensures OncePerRequest(steps)
  {
    var calls := SignalingLaws.ApiCalls(Signaling.Run(schedule).log, readable);
    forall j, k | 0 <= j < k < |steps| && steps[j].Callback? && steps[k].Callback?
      ensures steps[j].request != steps[k].request
    {
      SignalingLaws.CallbackOnce(schedule, readable, carries(steps[j].request));
      if steps[j].request == steps[k].request {
        var a, b := at(j), at(k);
        CallsTwice(calls, if a < b then a else b, if a < b then b else a);
      }
    }
  }

  /** Over every schedule of the request table and every handshake whose callbacks are its API
      calls, the requests issued follow the plan with one outstanding at most, and CONNECTED means
      that exactly the requested transports are installed. */
  lemma DrivenHandshake(
    schedule: seq<Signaling.Step>, readable: nat -> bool, steps: seq<Step>, at: nat -> nat, carries: nat -> nat, i: nat, j: nat)
    requires Driven(steps, SignalingLaws.ApiCalls(Signaling.Run(schedule).log, readable), at, carries)
    ensures var r := RunAny(steps);
            && r == Run(steps) && r.issued <= Plan(r.options)
            && (Outstanding(r, i) && Outstanding(r, j) ==> i == j)
            && (r.state == CONNECTED ==> Arrived(r))
  {
    DrivenOnce(schedule, readable, steps, at, carries);
    RunsAlike(steps);
    HandshakeOrder(steps, i, j);
  }
}
