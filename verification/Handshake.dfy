/**
 * The join handshake of RoomClient (core/service/room_client.cpp:140-186, 229-513 and 833-842) for
 * one session of a fresh client, as a step system: API callbacks run on the transport thread and
 * post tasks to the mediasoup thread, which issue the next request.
 */
module Handshake {
  import opened Basics
  import opened JsonModel
  import opened Responses

  datatype RoomState = CONNECTING | CONNECTED | CLOSED

  /** The options that steer the handshake, after `value_or(false)`. */
  datatype Options = Options(produce: bool, consume: bool, datachannel: bool)

  /** Tasks posted to the mediasoup thread with a response; `usable` says whether the optionals that
      the task dereferences are set. */
  datatype Task =
    | FetchCapabilities
    | LoadDevice(usable: bool)
    | SendCreated(usable: bool)
    | RecvCreated(usable: bool)
    | Announce(usable: bool)

  /** `issued`: requests handed to the API, in order; `answered`: those whose callback has run.
      `undefined`: an empty optional was dereferenced. */
  datatype Room = Room(
    state: RoomState, options: Options, isOpen: bool,
    device: bool, sendTransport: bool, recvTransport: bool,
    issued: seq<Request>, answered: set<nat>, tasks: seq<Task>, undefined: bool)

  const NEW_ROOM := Room(CLOSED, Options(true, true, true), false, false, false, false, [], {}, [], false)

  /** What the media library makes of things: the device loads, its capabilities parse. */
  datatype Library = Library(loads: bool, sctpParses: bool, rtpParses: bool)

  datatype Step =
    | Join(valid: bool, options: Options)   // join, with or without all its arguments
    | Opened                                // the connection is open
    | Callback(request: nat, answer: Answer)
    | RunTask(library: Library)

  function Issue(r: Room, q: Request): Room { r.(issued := r.issued + [q]) }

  /** `requestCreateTransport` */
  function RequestTransport(r: Room, q: Request, lib: Library): Room {
    if r.options.datachannel && !lib.sctpParses then r else Issue(r, q)
  }

  /** `joinImpl` */
  function RequestJoin(r: Room, lib: Library): Room {
    if r.options.consume && !lib.rtpParses then r
    else if r.options.datachannel && !lib.sctpParses then r
    else Issue(r, JoinRoom)
  }

  function OnTask(r: Room, t: Task, lib: Library): Room {
    match t
    case FetchCapabilities => Issue(r, Capabilities)
    case LoadDevice(usable) =>
      if !usable then r.(undefined := true)
      else
        var s := r.(device := true);
        if !lib.loads then s
        else if r.options.produce then RequestTransport(s, SendTransport, lib)
        else if r.options.consume then RequestTransport(s, RecvTransport, lib)
        else RequestJoin(s, lib)
    case SendCreated(usable) =>
      if r.device && !usable then r.(undefined := true)
      else
        var s := if r.device then r.(sendTransport := true) else r;
        if r.options.consume then RequestTransport(s, RecvTransport, lib) else RequestJoin(s, lib)
    case RecvCreated(usable) =>
      if r.device && !usable then r.(undefined := true)
      else
        var s := if r.device then r.(recvTransport := true) else r;
        RequestJoin(s, lib)
    case Announce(usable) => if usable then r else r.(undefined := true)
  }

  function OnCallback(r: Room, q: Request, a: Answer): Room {
    if a.Failed? || a.ok.None? then r  // `!response->ok` asks whether the optional holds a value
    else
      match q
      case Capabilities => r.(tasks := r.tasks + [LoadDevice(a.usable)])
      case SendTransport => r.(tasks := r.tasks + [SendCreated(a.usable)])
      case RecvTransport => r.(tasks := r.tasks + [RecvCreated(a.usable)])
      case JoinRoom => r.(state := CONNECTED, tasks := r.tasks + [Announce(a.usable)])
  }

  /** Steps that cannot happen leave the room as it is; after undefined behaviour nothing is said. */
  function Do(r: Room, s: Step): Room {
    if r.undefined then r
    else
      match s
      case Join(valid, options) =>
        if r.state != CLOSED || !valid then r else r.(options := options, state := CONNECTING)
      case Opened =>
        if r.state != CONNECTING || r.isOpen then r
        else r.(isOpen := true, tasks := r.tasks + [FetchCapabilities])
      case Callback(i, a) =>
        if i >= |r.issued| || i in r.answered then r
        else OnCallback(r.(answered := r.answered + {i}), r.issued[i], a)
      case RunTask(lib) =>
        if r.tasks == [] then r else OnTask(r.(tasks := r.tasks[1..]), r.tasks[0], lib)
  }

  function Run(steps: seq<Step>): Room {
    if steps == [] then NEW_ROOM else Do(Run(steps[..|steps| - 1]), steps[|steps| - 1])
  }

  // ---------------------------------------------------------------- the protocol

  /** The requests of a complete handshake. */
  function Plan(o: Options): seq<Request> {
    [Capabilities] + (if o.produce then [SendTransport] else []) + (if o.consume then [RecvTransport] else [])
    + [JoinRoom]
  }

  /** The requests up to and including `q`. */
  function UpTo(o: Options, q: Request): seq<Request> {
    match q
    case Capabilities => [Capabilities]
    case SendTransport => [Capabilities, SendTransport]
    case RecvTransport => (if o.produce then [Capabilities, SendTransport] else [Capabilities]) + [RecvTransport]
    case JoinRoom => Plan(o)
  }

  predicate Asked(o: Options, q: Request) {
    match q
    case Capabilities => true
    case SendTransport => o.produce
    case RecvTransport => o.consume
    case JoinRoom => true
  }

  /** The request whose response a task handles. */
  function Answers(t: Task): Request
    requires !t.FetchCapabilities?
  {
    match t
    case LoadDevice(_) => Capabilities
    case SendCreated(_) => SendTransport
    case RecvCreated(_) => RecvTransport
    case Announce(_) => JoinRoom
  }

  /** The transports that are installed by the time `q` is issued. */
  predicate Installed(r: Room, q: Request) {
    match q
    case Capabilities => !r.device && !r.sendTransport && !r.recvTransport
    case SendTransport => r.device && !r.sendTransport && !r.recvTransport
    case RecvTransport => r.device && r.sendTransport == r.options.produce && !r.recvTransport
    case JoinRoom => r.device && r.sendTransport == r.options.produce && r.recvTransport == r.options.consume
  }

  /** The last request is `q`; all earlier ones are answered. */
  predicate Last(r: Room, q: Request) {
    && Asked(r.options, q) && r.issued == UpTo(r.options, q)
    && (forall i: nat :: i in r.answered ==> i < |r.issued|)
    && (forall i: nat :: i < |r.issued| - 1 ==> i in r.answered)
  }

  function Final(r: Room): nat
    requires r.issued != []
  {
    |r.issued| - 1
  }

  /** Nothing was asked yet; or `q` is waiting for its callback; or its callback has posted a task;
      or the handshake has come to a stop after `q`. */
  predicate Inv(r: Room) {
    if r.issued == [] then
      && r.answered == {} && !r.device && !r.sendTransport && !r.recvTransport && r.state != CONNECTED
      && (r.tasks == [] || r.tasks == [FetchCapabilities])
      && (r.tasks != [] ==> r.isOpen) && (r.isOpen ==> r.state == CONNECTING)
    else
      var q := r.issued[|r.issued| - 1];
      && r.isOpen && Last(r, q)
      && r.state != CLOSED && (r.sendTransport ==> r.options.produce) && (r.recvTransport ==> r.options.consume)
      && (r.state == CONNECTED ==> q == JoinRoom && Final(r) in r.answered)
      && (Final(r) !in r.answered ==> r.tasks == [] && Installed(r, q))
      && (r.tasks != [] ==> |r.tasks| == 1 && !r.tasks[0].FetchCapabilities? && Answers(r.tasks[0]) == q && Installed(r, q))
      && (q == JoinRoom ==> Installed(r, q))
  }

  // ---------------------------------------------------------------- every step keeps it

  lemma UpToEnds(o: Options, q: Request)
    requires Asked(o, q)
    ensures UpTo(o, q) <= Plan(o) && UpTo(o, q) != [] && UpTo(o, q)[|UpTo(o, q)| - 1] == q
  {
  }

  /** Issuing `q` after the answered request `p` that precedes it in the plan. */
  lemma IssueKeeps(r: Room, p: Request, q: Request)
    requires r.issued != [] && Last(r, p) && Final(r) in r.answered && r.isOpen && r.state == CONNECTING
    requires r.tasks == [] && Asked(r.options, q) && Installed(r, q)
    requires UpTo(r.options, q) == UpTo(r.options, p) + [q]
    ensures Inv(Issue(r, q))
  {
    var s := Issue(r, q);
    UpToEnds(r.options, q);
    assert s.issued[|s.issued| - 1] == q;
    assert forall i: nat :: i < |s.issued| - 1 ==> i in s.answered;
  }

  lemma LoadKeeps(r: Room, lib: Library)
    requires Inv(r) && r.issued != [] && r.tasks == [LoadDevice(true)]
    ensures Inv(OnTask(r.(tasks := []), LoadDevice(true), lib))
  {
    var d := r.(tasks := [], device := true);
    if r.options.produce { IssueKeeps(d, Capabilities, SendTransport); }
    else if r.options.consume { IssueKeeps(d, Capabilities, RecvTransport); }
    else { IssueKeeps(d, Capabilities, JoinRoom); }
  }

  lemma SendCreatedKeeps(r: Room, lib: Library)
    requires Inv(r) && r.issued != [] && r.tasks == [SendCreated(true)]
    ensures Inv(OnTask(r.(tasks := []), SendCreated(true), lib))
  {
    var d := r.(tasks := [], sendTransport := true);
    if r.options.consume { IssueKeeps(d, SendTransport, RecvTransport); }
    else { IssueKeeps(d, SendTransport, JoinRoom); }
  }

  lemma RecvCreatedKeeps(r: Room, lib: Library)
    requires Inv(r) && r.issued != [] && r.tasks == [RecvCreated(true)]
    ensures Inv(OnTask(r.(tasks := []), RecvCreated(true), lib))
  {
    IssueKeeps(r.(tasks := [], recvTransport := true), RecvTransport, JoinRoom);
  }

  lemma FetchKeeps(r: Room, lib: Library)
    requires Inv(r) && r.tasks == [FetchCapabilities]
    ensures Inv(OnTask(r.(tasks := []), FetchCapabilities, lib))
  {
  }

  /** A response that the task cannot use. */
  lemma FlawKeeps(r: Room)
    requires Inv(r) && r.issued != []
    ensures Inv(r.(tasks := [], undefined := true))
  {
  }

  lemma TaskKeeps(r: Room, lib: Library)
    requires Inv(r) && r.tasks != []
    ensures Inv(OnTask(r.(tasks := r.tasks[1..]), r.tasks[0], lib))
  {
    var task := r.tasks[0];
    assert r.tasks == [task] && r.tasks[1..] == [];
    if task.FetchCapabilities? {
      FetchKeeps(r, lib);
    } else if !task.usable {
      FlawKeeps(r);
    } else {
      match task
      case LoadDevice(_) => LoadKeeps(r, lib);
      case SendCreated(_) => SendCreatedKeeps(r, lib);
      case RecvCreated(_) => RecvCreatedKeeps(r, lib);
      case Announce(_) =>
    }
  }

  lemma CallbackKeeps(r: Room, i: nat, a: Answer)
    requires Inv(r) && !r.undefined
    ensures Inv(Do(r, Callback(i, a)))
  {
    if i < |r.issued| && i !in r.answered {
      assert i == Final(r);
      AnswerKeeps(r, i);
      PostKeeps(r.(answered := r.answered + {i}), r.issued[i], a);
    }
  }

  /** The last request is answered and nothing is queued. */
  predicate Answered(r: Room) {
    r.issued != [] && Inv(r) && Final(r) in r.answered && r.tasks == [] && Installed(r, r.issued[Final(r)])
  }

  lemma AnswerKeeps(r: Room, i: nat)
    requires Inv(r) && r.issued != [] && i == Final(r) && i !in r.answered
    ensures Answered(r.(answered := r.answered + {i}))
  {
    assert forall k: nat :: k < |r.issued| - 1 ==> k in r.answered;
  }

  lemma PostKeeps(r: Room, q: Request, a: Answer)
    requires Answered(r) && q == r.issued[Final(r)]
    ensures Inv(OnCallback(r, q, a))
  {
    assert forall t: Task :: [] + [t] == [t];
  }

  lemma StepKeeps(r: Room, s: Step)
    requires Inv(r)
    ensures Inv(Do(r, s))
  {
    if !r.undefined {
      match s
      case Join(_, _) =>
      case Opened =>
      case Callback(i, a) => CallbackKeeps(r, i, a);
      case RunTask(lib) => if r.tasks != [] { TaskKeeps(r, lib); }
    }
  }

  lemma {:induction false} RunKeeps(steps: seq<Step>)
    ensures Inv(Run(steps))
  {
    if steps != [] {
      RunKeeps(steps[..|steps| - 1]);
      StepKeeps(Run(steps[..|steps| - 1]), steps[|steps| - 1]);
    }
  }

  // ---------------------------------------------------------------- what it gives

  predicate Outstanding(r: Room, i: nat) { i < |r.issued| && i !in r.answered }

  /** Handshake order: for all option settings and all schedules of answers and tasks, the requests
      issued are a prefix of the plan, at most one of them waits for its callback and no task is
      queued meanwhile; CONNECTED means that the whole plan was answered and exactly the requested
      transports are installed. */
  lemma HandshakeOrder(steps: seq<Step>, i: nat, j: nat)
    ensures var r := Run(steps);
            && r.issued <= Plan(r.options)
            && (Outstanding(r, i) && Outstanding(r, j) ==> i == j)
            && (Outstanding(r, i) ==> r.tasks == [])
            && (r.sendTransport ==> r.options.produce) && (r.recvTransport ==> r.options.consume)
            && (r.state == CONNECTED ==>
                  && r.issued == Plan(r.options) && !Outstanding(r, i)
                  && r.sendTransport == r.options.produce && r.recvTransport == r.options.consume)
  {
    RunKeeps(steps);
    FollowsPlan(Run(steps), i, j);
  }

  lemma FollowsPlan(r: Room, i: nat, j: nat)
    requires Inv(r)
    ensures r.issued <= Plan(r.options)
    ensures Outstanding(r, i) && Outstanding(r, j) ==> i == j
    ensures Outstanding(r, i) ==> r.tasks == []
    ensures (r.sendTransport ==> r.options.produce) && (r.recvTransport ==> r.options.consume)
    ensures r.state == CONNECTED ==>
              && r.issued == Plan(r.options) && !Outstanding(r, i)
              && r.sendTransport == r.options.produce && r.recvTransport == r.options.consume
  {
    if r.issued != [] { UpToEnds(r.options, r.issued[|r.issued| - 1]); }
  }

  /** CONNECTED is reached only by a callback of the join request that brings a response. */
  lemma ConnectedByJoinOnly(r: Room, s: Step)
    requires Inv(r) && r.state != CONNECTED && Do(r, s).state == CONNECTED
    ensures s.Callback? && Outstanding(r, s.request) && r.issued[s.request] == JoinRoom
    ensures s.answer.Response? && s.answer.ok.Some? && r.issued == Plan(r.options)
  {
    assert s.Callback?;
    assert s.request == Final(r);
  }

  /** A usable response whose `ok` is present, true or not. */
  predicate Accepts(a: Answer) { a.Response? && a.ok.Some? && a.usable }

  const GOOD_LIBRARY := Library(true, true, true)

  lemma AnswerPosts(r: Room, i: nat, a: Answer)
    requires Inv(r) && !r.undefined && Outstanding(r, i) && Accepts(a)
    ensures var s := Do(r, Callback(i, a));
            && i == Final(r) && !s.undefined && s.issued == r.issued && s.options == r.options && |s.tasks| == 1
            && !s.tasks[0].FetchCapabilities? && s.tasks[0].usable && Answers(s.tasks[0]) == r.issued[i]
            && (r.issued[i] == JoinRoom ==> s.state == CONNECTED) && s.answered == r.answered + {i}
  {
    assert i == Final(r) && r.tasks == [];
  }

  /** `t` is `r` with more requests issued and perhaps more installed. */
  predicate After(r: Room, t: Room, more: seq<Request>) {
    && t.undefined == r.undefined && t.tasks == r.tasks && t.options == r.options && t.state == r.state
    && t.answered == r.answered && t.issued == r.issued + more
  }

  lemma GoodTask(r: Room, task: Task) returns (more: seq<Request>)
    requires !task.FetchCapabilities? && task.usable
    ensures After(r, OnTask(r, task, GOOD_LIBRARY), more)
    ensures |more| == if task.Announce? then 0 else 1
  {
    var o := r.options;
    match task
    case LoadDevice(_) => more := [if o.produce then SendTransport else if o.consume then RecvTransport else JoinRoom];
    case SendCreated(_) => more := [if o.consume then RecvTransport else JoinRoom];
    case RecvCreated(_) => more := [JoinRoom];
    case Announce(_) => more := [];
  }

  lemma TaskIssues(s: Room)
    requires !s.undefined && |s.tasks| == 1 && !s.tasks[0].FetchCapabilities? && s.tasks[0].usable
    ensures var t := Do(s, RunTask(GOOD_LIBRARY));
            && !t.undefined && t.tasks == [] && t.options == s.options && t.state == s.state
            && s.issued <= t.issued && t.answered == s.answered
            && |t.issued| == |s.issued| + (if s.tasks[0].Announce? then 0 else 1)
  {
    var more := GoodTask(s.(tasks := []), s.tasks[0]);
    assert s.tasks[1..] == [];
  }

  /** Progress: an answer that the waiting request accepts, and its posted task, issue the next request
      of the plan; such an answer to the join request connects. */
  lemma Progress(r: Room, i: nat, a: Answer)
    requires Inv(r) && !r.undefined && Outstanding(r, i) && Accepts(a)
    ensures var t := Do(Do(r, Callback(i, a)), RunTask(GOOD_LIBRARY));
            && !t.undefined && r.issued <= t.issued <= Plan(r.options)
            && t.options == r.options && t.answered == r.answered + {i}
            && if r.issued[i] == JoinRoom then t.state == CONNECTED else |t.issued| == |r.issued| + 1
  {
    var s := Do(r, Callback(i, a));
    AnswerPosts(r, i, a);
    TaskIssues(s);
    StaysInPlan(r, Callback(i, a), RunTask(GOOD_LIBRARY));
  }

  lemma StaysInPlan(r: Room, a: Step, b: Step)
    requires Inv(r)
    ensures Do(Do(r, a), b).issued <= Plan(Do(Do(r, a), b).options)
  {
    StepKeeps(r, a);
    StepKeeps(Do(r, a), b);
    FollowsPlan(Do(Do(r, a), b), 0, 0);
  }

  /** The server answers the waiting request well, and its posted task is run. */
  function Serve(r: Room, a: Answer): Room
    requires r.issued != []
  {
    Do(Do(r, Callback(Final(r), a)), RunTask(GOOD_LIBRARY))
  }

  /** `n` such rounds, with an answer for each request. */
  function Served(r: Room, n: nat, answer: Request -> Answer): Room
    decreases n
  {
    if n == 0 || r.issued == [] then r else Served(Serve(r, answer(r.issued[Final(r)])), n - 1, answer)
  }

  /** From every reachable state in which a request waits, usable answers complete the handshake,
      whatever their flags say: one round for each request of the plan that is still unanswered. */
  lemma {:induction false} GoodAnswersConnect(r: Room, left: nat, answer: Request -> Answer)
    requires Inv(r) && !r.undefined && r.issued != [] && Outstanding(r, Final(r)) && forall q :: Accepts(answer(q))
    requires left == |Plan(r.options)| - |r.issued|
    ensures Arrived(Served(r, left + 1, answer)) && Served(r, left + 1, answer).options == r.options
    decreases left
  {
    var t := ServedOnce(r, left + 1, answer);
    if left > 0 {
      GoodAnswersConnect(t, left - 1, answer);
    } else {
      NoneServed(t, answer);
    }
  }

  lemma NoneServed(r: Room, answer: Request -> Answer)
    ensures Served(r, 0, answer) == r
  {
  }

  lemma ServedOnce(r: Room, n: nat, answer: Request -> Answer) returns (t: Room)
    requires Inv(r) && !r.undefined && r.issued != [] && Outstanding(r, Final(r)) && n > 0 && forall q :: Accepts(answer(q))
    ensures Served(r, n, answer) == Served(t, n - 1, answer)
    ensures Inv(t) && !t.undefined && t.options == r.options
    ensures if |r.issued| == |Plan(r.options)| then Arrived(t)
            else t.issued != [] && |t.issued| == |r.issued| + 1 && Outstanding(t, Final(t))
  {
    var a := answer(r.issued[Final(r)]);
    ServeKeeps(r, a);
    JoinIsLast(r);
    t := Serve(r, a);
    FollowsPlan(t, 0, 0);
  }

  /** Connected, with the whole plan issued and exactly the requested transports. */
  predicate Arrived(r: Room) {
    && r.state == CONNECTED && r.issued == Plan(r.options)
    && r.sendTransport == r.options.produce && r.recvTransport == r.options.consume
  }

  lemma JoinIsLast(r: Room)
    requires Inv(r) && r.issued != []
    ensures r.issued[Final(r)] == JoinRoom <==> |r.issued| == |Plan(r.options)|
  {
  }

  lemma ServeKeeps(r: Room, a: Answer)
    requires Inv(r) && !r.undefined && r.issued != [] && Outstanding(r, Final(r)) && Accepts(a)
    ensures var t := Serve(r, a);
            && Inv(t) && !t.undefined && t.options == r.options
            && if r.issued[Final(r)] == JoinRoom then t.state == CONNECTED
               else t.state != CONNECTED && |t.issued| == |r.issued| + 1 && Outstanding(t, Final(t))
  {
    var i, t := Final(r), Serve(r, a);
    StepKeeps(r, Callback(i, a));
    StepKeeps(Do(r, Callback(i, a)), RunTask(GOOD_LIBRARY));
    Progress(r, i, a);
    if r.issued[i] != JoinRoom { Unanswered(r, t); }
  }

  lemma Unanswered(r: Room, t: Room)
    requires Inv(r) && r.issued != [] && |t.issued| == |r.issued| + 1 && t.answered == r.answered + {Final(r)}
    ensures Outstanding(t, Final(t))
  {
  }

  lemma RunMore(steps: seq<Step>, s: Step)
    ensures Run(steps + [s]) == Do(Run(steps), s)
  {
    assert (steps + [s])[..|steps|] == steps;
  }

  lemma FirstRequest(o: Options) returns (r: Room)
    ensures r == Run([Join(true, o), Opened, RunTask(GOOD_LIBRARY)])
    ensures Inv(r) && !r.undefined && r.options == o && r.issued == [Capabilities] && Outstanding(r, 0)
  {
    var a := [Join(true, o)];
    var b := a + [Opened];
    var c := b + [RunTask(GOOD_LIBRARY)];
    RunMore([], Join(true, o));
    assert [] + [Join(true, o)] == a;
    RunMore(a, Opened);
    RunMore(b, RunTask(GOOD_LIBRARY));
    assert c == [Join(true, o), Opened, RunTask(GOOD_LIBRARY)];
    r := Run(c);
    RunKeeps(c);
  }

  /** A fresh client that joins with any options connects when every request gets a usable answer,
      whatever the flags of the answers say. */
  lemma JoinsWithAnyOptions(o: Options, answer: Request -> Answer)
    requires forall q :: Accepts(answer(q))
    ensures var r := Run([Join(true, o), Opened, RunTask(GOOD_LIBRARY)]);
            Arrived(Served(r, |Plan(o)|, answer)) && Served(r, |Plan(o)|, answer).options == o
  {
    var r := FirstRequest(o);
    var left := |Plan(o)| - 1;
    GoodAnswersConnect(r, left, answer);
    assert left + 1 == |Plan(o)|;
  }

  // ---------------------------------------------------------------- the flag of a response

  /** In every reachable room, the answer to the waiting request posts its task if and only if it is
      a response whose `ok` is present; otherwise only the answer is noted. */
  lemma PostsIff(steps: seq<Step>, i: nat, a: Answer)
    requires var r := Run(steps); !r.undefined && Outstanding(r, i)
    ensures var r := Run(steps);
            var d := Do(r, Callback(i, a));
            if a.Response? && a.ok.Some?
            then |d.tasks| == 1 && !d.tasks[0].FetchCapabilities? && Answers(d.tasks[0]) == r.issued[i]
            else d == r.(answered := r.answered + {i})
  {
    var r := Run(steps);
    RunKeeps(steps);
    FollowsPlan(r, i, i);
    PostsOf(r.(answered := r.answered + {i}), r.issued[i], a);
  }

  lemma PostsOf(r: Room, q: Request, a: Answer)
    requires r.tasks == []
    ensures var d := OnCallback(r, q, a);
            if a.Response? && a.ok.Some?
            then |d.tasks| == 1 && !d.tasks[0].FetchCapabilities? && Answers(d.tasks[0]) == q
            else d == r
  {
  }

  /** For a message that can be read: if and only if it has a member `ok` that is true or false. */
  lemma MessagePostsIff(steps: seq<Step>, i: nat, ms: seq<(string, Json)>, ts: seq<Val>, a: Answer)
    requires var r := Run(steps); !r.undefined && Outstanding(r, i) && Blank(r.issued[i], ts)
    requires AnswerIn(Run(steps).issued[i], ms, ts) == Some(a)
    ensures Do(Run(steps), Callback(i, a)).tasks != [] <==>
            Find(ms, "ok") == Some(JBool(true)) || Find(ms, "ok") == Some(JBool(false))
  {
    var r := Run(steps);
    assert r.tasks == [] by { RunKeeps(steps); FollowsPlan(r, i, i); }
    assert a.Response? && a.ok == OkIn(ms) by { AnswerMeans(r.issued[i], ms, ts); }
    PostsIff(steps, i, a);
  }

  /** What the answer to a transport request and its task do: the transport is installed, or the
      behaviour is undefined and nothing was installed or asked for. */
  lemma TransportTask(r: Room, i: nat, a: Answer, lib: Library)
    requires Inv(r) && !r.undefined && Outstanding(r, i) && IsTransport(r.issued[i]) && a.Response? && a.ok.Some?
    ensures var t := Do(Do(r, Callback(i, a)), RunTask(lib));
            if a.usable
            then !t.undefined && (if r.issued[i].SendTransport? then t.sendTransport else t.recvTransport)
            else
              t.undefined && t.issued == r.issued && t.sendTransport == r.sendTransport && t.recvTransport == r.recvTransport
  {
    var q, s := r.issued[i], Do(r, Callback(i, a));
    FollowsPlan(r, i, Final(r));
    assert Installed(r, q);
    PostsOf(r.(answered := r.answered + {i}), q, a);
    assert s.tasks == [if q.SendTransport? then SendCreated(a.usable) else RecvCreated(a.usable)];
    assert s.tasks[1..] == [];
  }

  /** In every reachable room, a message that answers a transport request with an `ok` installs the
      transport if and only if its data has the ICE parameters, ICE candidates, DTLS parameters and
      SCTP parameters; without one of them the behaviour is undefined and no join is asked for. */
  lemma TransportInstalledIff(steps: seq<Step>, i: nat, ms: seq<(string, Json)>, ts: seq<Val>, a: Answer, lib: Library)
    requires var r := Run(steps); !r.undefined && Outstanding(r, i) && IsTransport(r.issued[i]) && Blank(r.issued[i], ts)
    requires AnswerIn(Run(steps).issued[i], ms, ts) == Some(a) && OkIn(ms).Some?
    ensures var r := Run(steps);
            var t := Do(Do(r, Callback(i, a)), RunTask(lib));
            if Present(ms, "data") && FourThere(Find(ms, "data").value)
            then !t.undefined && (if r.issued[i].SendTransport? then t.sendTransport else t.recvTransport)
            else
              t.undefined && t.issued == r.issued && t.sendTransport == r.sendTransport && t.recvTransport == r.recvTransport
  {
    AnswerMeans(Run(steps).issued[i], ms, ts);
    RunKeeps(steps);
    TransportTask(Run(steps), i, a, lib);
  }

  function RunOn(r: Room, steps: seq<Step>): Room {
    if steps == [] then r else Do(RunOn(r, steps[..|steps| - 1]), steps[|steps| - 1])
  }

  /** Every request issued is answered and no task is queued. */
  predicate Idle(r: Room) {
    r.issued != [] && r.tasks == [] && r.isOpen && r.state != CLOSED && forall i: nat :: i < |r.issued| ==> i in r.answered
  }

  lemma {:induction false} IdleStays(r: Room, more: seq<Step>)
    requires Idle(r)
    ensures RunOn(r, more) == r
  {
    if more != [] { IdleStays(r, more[..|more| - 1]); }
  }

  /** After an answer that posts no task the handshake stands still for good. */
  lemma StandsStill(steps: seq<Step>, i: nat, a: Answer, more: seq<Step>)
    requires var r := Run(steps); !r.undefined && Outstanding(r, i)
    requires a.Failed? || a.ok.None?
    ensures var r := Run(steps);
            RunOn(Do(r, Callback(i, a)), more) == r.(answered := r.answered + {i})
  {
    PostsIff(steps, i, a);
    var r := Run(steps);
    RunKeeps(steps);
    AnsweredIsIdle(r, i);
    IdleStays(r.(answered := r.answered + {i}), more);
  }

  lemma AnsweredIsIdle(r: Room, i: nat)
    requires Inv(r) && Outstanding(r, i)
    ensures Idle(r.(answered := r.answered + {i}))
  {
    FollowsPlan(r, i, Final(r));
  }

  /** Whatever messages answer the requests, if each can be read, says `ok: false`, and has the data
      that its request needs, the room connects all the same. `Responses.RefusalExists` has such a
      message for every request. */
  lemma RefusalsConnect(
    o: Options, message: Request -> seq<(string, Json)>, blank: Request -> seq<Val>, answer: Request -> Answer)
    requires forall q :: Blank(q, blank(q)) && AnswerIn(q, message(q), blank(q)) == Some(answer(q))
    requires forall q :: Find(message(q), "ok") == Some(JBool(false)) && UsableIn(q, message(q))
    ensures var r := Run([Join(true, o), Opened, RunTask(GOOD_LIBRARY)]);
            Arrived(Served(r, |Plan(o)|, answer)) && Served(r, |Plan(o)|, answer).options == o
  {
    forall q ensures Accepts(answer(q)) {
      assert Blank(q, blank(q));
      AnswerMeans(q, message(q), blank(q));
    }
    JoinsWithAnyOptions(o, answer);
  }

  // ---------------------------------------------------------------- what stops the handshake

  /** A join is refused, and changes nothing, if and only if it lacks an argument or a session is on. */
  lemma JoinRefusedIff(r: Room, valid: bool, o: Options)
    requires !r.undefined
    ensures var t := Do(r, Join(valid, o));
            if valid && r.state == CLOSED then t.state == CONNECTING && t.options == o && t.issued == r.issued else t == r
  {
  }

  /** In every reachable room, running the posted task dereferences an empty optional if and only if
      the response is not usable for it, and then nothing was loaded, installed or asked for. */
  lemma UndefinedIff(steps: seq<Step>, lib: Library)
    requires var r := Run(steps); !r.undefined && r.tasks != [] && !r.tasks[0].FetchCapabilities?
    ensures var r := Run(steps);
            var t := Do(r, RunTask(lib));
            && (t.undefined <==> !r.tasks[0].usable)
            && (t.undefined ==> t == r.(tasks := [], undefined := true))
  {
    var r := Run(steps);
    RunKeeps(steps);
    assert r.issued != [] && r.tasks[1..] == [];
    assert !r.tasks[0].LoadDevice? ==> r.device by { assert Installed(r, r.issued[Final(r)]); }
    match r.tasks[0]
    case LoadDevice(_) =>
    case SendCreated(_) =>
    case RecvCreated(_) =>
    case Announce(_) =>
  }

  /** Without a device no transport is installed, whatever the response holds. */
  lemma NoDeviceNoTransport(r: Room, task: Task, lib: Library)
    requires !r.device && (task.SendCreated? || task.RecvCreated?)
    ensures var t := OnTask(r, task, lib);
            t.sendTransport == r.sendTransport && t.recvTransport == r.recvTransport && t.undefined == r.undefined
  {
    match task
    case SendCreated(_) =>
    case RecvCreated(_) =>
  }

  /** The capabilities that go into the request parse. */
  predicate Ready(lib: Library, o: Options, q: Request) {
    && (o.datachannel && !q.Capabilities? ==> lib.sctpParses)
    && (o.consume && q.JoinRoom? ==> lib.rtpParses)
  }

  /** In every reachable room, a task with a usable response issues the next request of the plan if and
      only if the device loads, where the task loads it, and the capabilities for the request parse;
      otherwise it issues nothing and the handshake stands still for good. */
  lemma IssuesIff(steps: seq<Step>, lib: Library, more: seq<Step>)
    requires var r := Run(steps);
             !r.undefined && r.issued != [] && r.tasks != [] && !r.tasks[0].FetchCapabilities? && r.tasks[0].usable && !r.tasks[0].Announce?
    ensures var r := Run(steps);
            var t := Do(r, RunTask(lib));
            && |r.issued| < |Plan(r.options)|
            && var q := Plan(r.options)[|r.issued|];
               if (r.tasks[0].LoadDevice? ==> lib.loads) && Ready(lib, r.options, q) then t.issued == r.issued + [q]
               else t.issued == r.issued && RunOn(t, more) == t
  {
    var r := Run(steps);
    RunKeeps(steps);
    TaskIssuesIff(r, lib);
    var t := Do(r, RunTask(lib));
    if Idle(t) { IdleStays(t, more); }
  }

  lemma TaskIssuesIff(r: Room, lib: Library)
    requires Inv(r) && !r.undefined && r.issued != [] && r.tasks != []
    requires !r.tasks[0].FetchCapabilities? && r.tasks[0].usable && !r.tasks[0].Announce?
    ensures var t := Do(r, RunTask(lib));
            && |r.issued| < |Plan(r.options)|
            && var q := Plan(r.options)[|r.issued|];
               if (r.tasks[0].LoadDevice? ==> lib.loads) && Ready(lib, r.options, q) then t.issued == r.issued + [q]
               else t.issued == r.issued && Idle(t)
  {
    var task, o := r.tasks[0], r.options;
    assert r.tasks[1..] == [];
    FollowsPlan(r, Final(r), Final(r));
    NextInPlan(o, r.issued[Final(r)]);
    match task
    case LoadDevice(_) =>
    case SendCreated(_) =>
    case RecvCreated(_) =>
  }

  lemma NextInPlan(o: Options, p: Request)
    requires Asked(o, p) && !p.JoinRoom?
    ensures |UpTo(o, p)| < |Plan(o)|
    ensures Plan(o)[|UpTo(o, p)|] ==
            if p.Capabilities? && o.produce then SendTransport
            else if !p.RecvTransport? && o.consume then RecvTransport
            else JoinRoom
  {
  }

  // ---------------------------------------------------------------- opening twice

  /** What a second open event does. */
  function Reopened(r: Room): Room { r.(tasks := r.tasks + [FetchCapabilities]) }

  /** Over every schedule, opening the connection once more after the first request makes the client
      leave the plan: it asks for the capabilities again. */
  lemma ReopeningLeavesThePlan(steps: seq<Step>, lib: Library)
    requires var r := Run(steps); !r.undefined && r.issued != [] && r.tasks == []
    ensures var r := Run(steps);
            var t := Do(Reopened(r), RunTask(lib));
            t.issued == r.issued + [Capabilities] && !(t.issued <= Plan(r.options))
  {
    var r := Run(steps);
    RunKeeps(steps);
    FollowsPlan(r, 0, 0);
    assert Reopened(r).tasks[1..] == [];
    assert (r.issued + [Capabilities])[|r.issued|] == Capabilities;
    assert forall k :: 1 <= k < |Plan(r.options)| ==> Plan(r.options)[k] != Capabilities;
  }

  // ---------------------------------------------------------------- the object

  /** RoomClient's fields, updated in place by its entry points and callbacks. */
  class RoomClient {
    var state: RoomState
    var options: Options
    var isOpen: bool
    var device: bool
    var sendTransport: bool
    var recvTransport: bool
    var issued: seq<Request>
    var answered: set<nat>
    var tasks: seq<Task>
    var undefined: bool

    ghost function View(): Room
      reads this
    {
      Room(state, options, isOpen, device, sendTransport, recvTransport, issued, answered, tasks, undefined)
    }

    constructor ()
      ensures View() == NEW_ROOM && Inv(View())
    {
      state, options, isOpen := CLOSED, Options(true, true, true), false;
      device, sendTransport, recvTransport := false, false, false;
      issued, answered, tasks, undefined := [], {}, [], false;
    }

    method JoinMeeting(hostname: string, roomId: string, displayName: string, opts: Options)
      requires Inv(View()) && !undefined
      modifies this
      ensures Inv(View())
      ensures View() == Do(old(View()), Join(hostname != "" && roomId != "" && displayName != "", opts))
    {
      StepKeeps(View(), Join(hostname != "" && roomId != "" && displayName != "", opts));
      if state != CLOSED { return; }
      if hostname == "" || roomId == "" || displayName == "" { return; }
      options := opts;
      state := CONNECTING;
    }

    /** The first time the connection opens the handshake begins; a second time it is begun again. */
    method OnOpened()
      requires Inv(View()) && !undefined && state != CLOSED
      modifies this
      ensures !old(isOpen) ==> Inv(View()) && View() == Do(old(View()), Opened)
      ensures old(isOpen) ==> View() == Reopened(old(View()))
    {
      StepKeeps(View(), Opened);
      isOpen := true;
      tasks := tasks + [FetchCapabilities];
    }

    method OnAnswer(i: nat, a: Answer)
      requires Inv(View()) && !undefined && Outstanding(View(), i)
      modifies this
      ensures Inv(View()) && View() == Do(old(View()), Callback(i, a))
    {
      StepKeeps(View(), Callback(i, a));
      var q := issued[i];
      answered := answered + {i};
      HandleAnswer(q, a);
    }

    method HandleAnswer(q: Request, a: Answer)
      modifies this`state, this`tasks
      ensures View() == OnCallback(old(View()), q, a)
    {
      if a.Failed? || a.ok.None? { return; }
      match q
      case Capabilities => tasks := tasks + [LoadDevice(a.usable)];
      case SendTransport => tasks := tasks + [SendCreated(a.usable)];
      case RecvTransport => tasks := tasks + [RecvCreated(a.usable)];
      case JoinRoom =>
        state := CONNECTED;
        tasks := tasks + [Announce(a.usable)];
    }

    method RunNextTask(lib: Library)
      requires Inv(View()) && !undefined && tasks != []
      modifies this
      ensures Inv(View()) && View() == Do(old(View()), RunTask(lib))
    {
      StepKeeps(View(), RunTask(lib));
      var task := tasks[0];
      tasks := tasks[1..];
      Perform(task, lib);
    }

    method Perform(task: Task, lib: Library)
      modifies this
      ensures View() == OnTask(old(View()), task, lib)
    {
      match task
      case FetchCapabilities => issued := issued + [Capabilities];
      case LoadDevice(usable) =>
        if !usable { undefined := true; return; }
        device := true;
        if lib.loads {
          if options.produce { CreateTransport(SendTransport, lib); }
          else if options.consume { CreateTransport(RecvTransport, lib); }
          else { JoinImpl(lib); }
        }
      case SendCreated(usable) =>
        if device && !usable { undefined := true; return; }
        if device { sendTransport := true; }
        if options.consume { CreateTransport(RecvTransport, lib); } else { JoinImpl(lib); }
      case RecvCreated(usable) =>
        if device && !usable { undefined := true; return; }
        if device { recvTransport := true; }
        JoinImpl(lib);
      case Announce(usable) => if !usable { undefined := true; }
    }

    method CreateTransport(q: Request, lib: Library)
      modifies this`issued
      ensures View() == RequestTransport(old(View()), q, lib)
    {
      if options.datachannel && !lib.sctpParses { return; }
      issued := issued + [q];
    }

    method JoinImpl(lib: Library)
      modifies this`issued
      ensures View() == RequestJoin(old(View()), lib)
    {
      if options.consume && !lib.rtpParses { return; }
      if options.datachannel && !lib.sctpParses { return; }
      issued := issued + [JoinRoom];
    }
  }
}
