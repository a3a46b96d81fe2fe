/**
 * ParticipantController (core/service/participant_controller.cpp:74-345): the map of participants
 * and the notifications its event handlers emit, over whole runs before destroy. Most handlers
 * look a peer up with `operator[]`, which leaves a null entry behind for a peer that is not there.
 */
module Participants {
  import opened Basics

  /** A participant; `None` stands for a member that the constructor leaves unset. */
  datatype Participant = Participant(
    displayName: string, active: bool, volume: Option<int>, audioMuted: Option<bool>, videoMuted: Option<bool>)

  function NewParticipant(name: string): Participant { Participant(name, true, None, None, None) }

  /** What can be reported about a peer, besides joining and leaving. */
  datatype Notice =
    | DisplayName(name: string)
    | ActiveSpeaker(volume: int)
    | AudioState(muted: bool)
    | VideoState(muted: bool)
    | VideoTrackAdded(tid: string)
    | VideoTrackRemoved(tid: string)
    | AudioTrackChanged              // handled, but observers are not told

  datatype Event = Joined(pid: string, name: string) | Left(pid: string) | Noticed(pid: string, notice: Notice)

  datatype Handler =
    | CreateParticipant(pid: string, name: string)   // from the join response
    | OnNewPeer(pid: string, name: string)
    | OnPeerClosed(pid: string)
    | OnNotice(pid: string, notice: Notice)

  /** `_participantMap`, where `None` is a null pointer, and the notifications so far. */
  datatype Controller = Controller(peers: map<string, Option<Participant>>, events: seq<Event>)

  const EMPTY := Controller(map[], [])

  function Create(c: Controller, pid: string, name: string): Controller {
    if pid in c.peers then c
    else Controller(c.peers[pid := Some(NewParticipant(name))], c.events + [Joined(pid, name)])
  }

  /** `_participantMap[pid]`: a missing entry is created, holding null. */
  function Touch(c: Controller, pid: string): Controller {
    if pid in c.peers then c else c.(peers := c.peers[pid := None])
  }

  function Updated(p: Participant, n: Notice): Participant {
    match n
    case DisplayName(name) => p.(displayName := name)
    case ActiveSpeaker(v) => p.(volume := Some(v))
    case AudioState(m) => p.(audioMuted := Some(m))
    case VideoState(m) => p.(videoMuted := Some(m))
    case VideoTrackAdded(_) => p
    case VideoTrackRemoved(_) => p
    case AudioTrackChanged => p
  }

  function Do(c: Controller, h: Handler): Controller {
    match h
    case CreateParticipant(pid, name) => Create(c, pid, name)
    case OnNewPeer(pid, name) => if pid == "" then c else Create(c, pid, name)
    case OnPeerClosed(pid) =>
      if pid == "" then c
      else
        var t := Touch(c, pid);
        if t.peers[pid].None? then t
        else Controller(t.peers - {pid}, t.events + [Left(pid)])
    case OnNotice(pid, n) =>
      if pid == "" then c
      else
        var t := Touch(c, pid);
        if t.peers[pid].None? then t
        else
          Controller(t.peers[pid := Some(Updated(t.peers[pid].value, n))],
                     if n.AudioTrackChanged? then t.events else t.events + [Noticed(pid, n)])
  }

  function RunFrom(c: Controller, hs: seq<Handler>): Controller {
    if hs == [] then c else Do(RunFrom(c, hs[..|hs| - 1]), hs[|hs| - 1])
  }

  // ---------------------------------------------------------------- brackets

  predicate Present(c: Controller, pid: string) { pid in c.peers && c.peers[pid].Some? }

  /** The peer has joined and not left since. */
  predicate Inside(events: seq<Event>, pid: string) {
    if events == [] then false
    else
      var e := events[|events| - 1];
      if e.pid == pid && !e.Noticed? then e.Joined? else Inside(events[..|events| - 1], pid)
  }

  /** A join is reported exactly from outside; everything else about the peer from inside. */
  predicate Bracketed(events: seq<Event>, pid: string) {
    events == [] ||
    (var init, e := events[..|events| - 1], events[|events| - 1];
     Bracketed(init, pid) && (e.pid == pid ==> (e.Joined? <==> !Inside(init, pid))))
  }

  lemma EventKeeps(events: seq<Event>, e: Event, pid: string)
    requires Bracketed(events, pid) && (e.pid == pid ==> (e.Joined? <==> !Inside(events, pid)))
    ensures Bracketed(events + [e], pid)
    ensures Inside(events + [e], pid) ==
            if e.pid == pid && !e.Noticed? then e.Joined? else Inside(events, pid)
  {
    assert (events + [e])[..|events|] == events;
  }

  /** What one handler call adds to the notifications and how it moves each peer. */
  lemma HandlerEmits(c: Controller, h: Handler, pid: string) returns (emits: bool, e: Event)
    ensures Do(c, h).events == if emits then c.events + [e] else c.events
    ensures !emits ==> Present(Do(c, h), pid) == Present(c, pid)
    ensures emits && e.pid == pid ==> (e.Joined? <==> !Present(c, pid))
    ensures emits ==> Present(Do(c, h), pid) == if e.pid == pid then !e.Left? else Present(c, pid)
  {
    var d := Do(c, h);
    emits, e := |d.events| != |c.events|, Left("");
    if emits { e := d.events[|c.events|]; }
  }

  lemma HandlerKeeps(c: Controller, h: Handler, pid: string)
    requires Bracketed(c.events, pid) && Inside(c.events, pid) == Present(c, pid)
    ensures Bracketed(Do(c, h).events, pid) && Inside(Do(c, h).events, pid) == Present(Do(c, h), pid)
  {
    var emits, e := HandlerEmits(c, h, pid);
    if emits { EventKeeps(c.events, e, pid); }
  }

  /** Over every sequence of handler calls and for every peer, notifications are bracketed by a
      join and a leave, and the peer is inside exactly when the map holds it. */
  lemma {:induction false} EventsAreBracketed(hs: seq<Handler>, pid: string)
    ensures var c := RunFrom(EMPTY, hs);
            Bracketed(c.events, pid) && Inside(c.events, pid) == Present(c, pid)
  {
    if hs != [] {
      EventsAreBracketed(hs[..|hs| - 1], pid);
      HandlerKeeps(RunFrom(EMPTY, hs[..|hs| - 1]), hs[|hs| - 1], pid);
    }
  }

  /** What bracketing says: an event that is no join comes after a join with no leave between. */
  lemma {:induction false} JoinBefore(events: seq<Event>, pid: string) returns (j: nat)
    requires Inside(events, pid)
    ensures j < |events| && events[j].Joined? && events[j].pid == pid
    ensures forall k :: j < k < |events| ==> events[k] != Left(pid)
  {
    var n := |events| - 1;
    if events[n].Joined? && events[n].pid == pid {
      j := n;
    } else {
      j := JoinBefore(events[..n], pid);
    }
  }

  lemma {:induction false} PrefixBracketed(events: seq<Event>, pid: string, i: nat)
    requires Bracketed(events, pid) && i <= |events|
    ensures Bracketed(events[..i], pid)
  {
    if i < |events| {
      PrefixBracketed(events[..|events| - 1], pid, i);
      assert events[..|events| - 1][..i] == events[..i];
    } else {
      assert events[..i] == events;
    }
  }

  /** Every notification about a peer other than a join falls between a join and its leave. */
  lemma BetweenJoinAndLeave(hs: seq<Handler>, i: nat) returns (j: nat)
    requires var es := RunFrom(EMPTY, hs).events; i < |es| && !es[i].Joined?
    ensures var es := RunFrom(EMPTY, hs).events;
            && j < i && es[j].Joined? && es[j].pid == es[i].pid
            && forall k :: j < k < i ==> es[k] != Left(es[i].pid)
  {
    var es := RunFrom(EMPTY, hs).events;
    EventsAreBracketed(hs, es[i].pid);
    j := AfterJoin(es, es[i].pid, i);
  }

  lemma AfterJoin(es: seq<Event>, pid: string, i: nat) returns (j: nat)
    requires i < |es| && es[i].pid == pid && !es[i].Joined? && Bracketed(es, pid)
    ensures j < i && es[j].Joined? && es[j].pid == pid && forall k :: j < k < i ==> es[k] != Left(pid)
  {
    PrefixBracketed(es, pid, i + 1);
    var upTo := es[..i + 1];
    assert upTo[..i] == es[..i] && upTo[i] == es[i];
    var before := es[..i];
    j := JoinBefore(before, pid);
    assert forall k :: 0 <= k < i ==> before[k] == es[k];
  }

  lemma {:induction false} InsideUntilLeave(events: seq<Event>, pid: string, i: nat)
    requires i < |events| && events[i].Joined? && events[i].pid == pid && forall k :: i < k < |events| ==> events[k] != Left(pid)
    ensures Inside(events, pid)
  {
    var n := |events| - 1;
    if i < n && !(events[n].pid == pid && events[n].Joined?) { InsideUntilLeave(events[..n], pid, i); }
  }

  /** Joins and leaves of a peer alternate: between two joins there is a leave. */
  lemma LeaveBetweenJoins(hs: seq<Handler>, i: nat, j: nat)
    requires var es := RunFrom(EMPTY, hs).events;
             i < j < |es| && es[i].Joined? && es[j].Joined? && es[j].pid == es[i].pid
    ensures var es := RunFrom(EMPTY, hs).events;
            exists k :: i < k < j && es[k] == Left(es[i].pid)
  {
    var es := RunFrom(EMPTY, hs).events;
    EventsAreBracketed(hs, es[i].pid);
    BetweenJoins(es, es[i].pid, i, j);
  }

  lemma BetweenJoins(es: seq<Event>, pid: string, i: nat, j: nat)
    requires i < j < |es| && es[i].Joined? && es[j].Joined? && es[i].pid == pid && es[j].pid == pid && Bracketed(es, pid)
    ensures exists k :: i < k < j && es[k] == Left(pid)
  {
    PrefixBracketed(es, pid, j + 1);
    var upTo, _ := Parts(es, j + 1);
    var before, _ := Parts(es, j);
    assert upTo[..j] == before && upTo[j] == es[j];
    if forall k :: i < k < j ==> es[k] != Left(pid) {
      InsideUntilLeave(before, pid, i);
    }
  }

  // ---------------------------------------------------------------- participants and notifications

  /** What was reported about a peer since it last joined or left. */
  function Since(events: seq<Event>, pid: string): seq<Notice> {
    if events == [] then []
    else
      var init, e := events[..|events| - 1], events[|events| - 1];
      if e.pid != pid then Since(init, pid) else if e.Noticed? then Since(init, pid) + [e.notice] else []
  }

  /** The name with which a peer last joined. */
  function JoinName(events: seq<Event>, pid: string): string {
    if events == [] then ""
    else
      var init, e := events[..|events| - 1], events[|events| - 1];
      if e.Joined? && e.pid == pid then e.name else JoinName(init, pid)
  }

  function LastName(ns: seq<Notice>, given: string): string {
    if ns == [] then given
    else if ns[|ns| - 1].DisplayName? then ns[|ns| - 1].name else LastName(ns[..|ns| - 1], given)
  }

  function LastVolume(ns: seq<Notice>): Option<int> {
    if ns == [] then None
    else if ns[|ns| - 1].ActiveSpeaker? then Some(ns[|ns| - 1].volume) else LastVolume(ns[..|ns| - 1])
  }

  function LastAudio(ns: seq<Notice>): Option<bool> {
    if ns == [] then None
    else if ns[|ns| - 1].AudioState? then Some(ns[|ns| - 1].muted) else LastAudio(ns[..|ns| - 1])
  }

  function LastVideo(ns: seq<Notice>): Option<bool> {
    if ns == [] then None
    else if ns[|ns| - 1].VideoState? then Some(ns[|ns| - 1].muted) else LastVideo(ns[..|ns| - 1])
  }

  /** A participant shows what was last reported about it. */
  predicate Mirrors(p: Participant, name: string, ns: seq<Notice>) {
    && p.active && p.displayName == LastName(ns, name) && p.volume == LastVolume(ns)
    && p.audioMuted == LastAudio(ns) && p.videoMuted == LastVideo(ns)
  }

  lemma NoticeKeeps(p: Participant, name: string, ns: seq<Notice>, n: Notice)
    requires Mirrors(p, name, ns)
    ensures Mirrors(Updated(p, n), name, ns + [n])
  {
    assert (ns + [n])[..|ns|] == ns;
  }

  lemma SinceMore(events: seq<Event>, e: Event, pid: string)
    ensures Since(events + [e], pid) ==
            if e.pid != pid then Since(events, pid) else if e.Noticed? then Since(events, pid) + [e.notice] else []
    ensures JoinName(events + [e], pid) == if e.Joined? && e.pid == pid then e.name else JoinName(events, pid)
  {
    assert (events + [e])[..|events|] == events;
  }

  ghost predicate Shown(c: Controller, pid: string) {
    Present(c, pid) ==> Mirrors(c.peers[pid].value, JoinName(c.events, pid), Since(c.events, pid))
  }

  lemma HandlerShows(c: Controller, h: Handler, pid: string)
    requires Shown(c, pid)
    ensures Shown(Do(c, h), pid)
  {
    var d := Do(c, h);
    if |d.events| > |c.events| {
      var e := d.events[|c.events|];
      assert d.events == c.events + [e];
      SinceMore(c.events, e, pid);
      if e.Noticed? && e.pid == pid {
        NoticeKeeps(c.peers[pid].value, JoinName(c.events, pid), Since(c.events, pid), e.notice);
      }
    }
  }

  /** Over every sequence of calls, a participant in the map shows the name, volume and mute states
      that were last reported since it joined. */
  lemma {:induction false} ShowsLastReported(hs: seq<Handler>, pid: string)
    ensures var c := RunFrom(EMPTY, hs);
            Present(c, pid) ==> Mirrors(c.peers[pid].value, JoinName(c.events, pid), Since(c.events, pid))
  {
    if hs != [] {
      ShowsLastReported(hs[..|hs| - 1], pid);
      HandlerShows(RunFrom(EMPTY, hs[..|hs| - 1]), hs[|hs| - 1], pid);
    }
  }

  // ---------------------------------------------------------------- null entries

  predicate Silent(a: seq<Event>, b: seq<Event>, pid: string) {
    a <= b && forall k :: |a| <= k < |b| ==> b[k].pid != pid
  }

  lemma {:induction false} NullStays(c: Controller, hs: seq<Handler>, pid: string)
    requires pid in c.peers && c.peers[pid].None?
    ensures var d := RunFrom(c, hs);
            pid in d.peers && d.peers[pid].None? && Silent(c.events, d.events, pid)
  {
    if hs != [] {
      NullStays(c, hs[..|hs| - 1], pid);
    }
  }

  /** An event for a peer that is not there shuts the peer out: whatever follows, it never joins
      and nothing about it is ever reported. */
  lemma EarlyEventShutsOut(c: Controller, pid: string, early: Handler, hs: seq<Handler>)
    requires pid != "" && pid !in c.peers
    requires early == OnPeerClosed(pid) || exists n :: early == OnNotice(pid, n)
    ensures Silent(c.events, RunFrom(Do(c, early), hs).events, pid)
  {
    NullStays(Do(c, early), hs, pid);
  }

  /** The i-th call reports something else than arrival of a peer that has no entry. */
  predicate Early(hs: seq<Handler>, pid: string, i: nat) {
    && i < |hs| && pid != "" && hs[i].pid == pid && (hs[i].OnPeerClosed? || hs[i].OnNotice?)
    && pid !in RunFrom(EMPTY, hs[..i]).peers
  }

  predicate IsNull(c: Controller, pid: string) { pid in c.peers && c.peers[pid].None? }

  lemma NullAfterOne(c: Controller, h: Handler, pid: string)
    ensures IsNull(Do(c, h), pid) <==>
            IsNull(c, pid) || (pid !in c.peers && pid != "" && h.pid == pid && (h.OnPeerClosed? || h.OnNotice?))
  {}

  /** A peer is shut out exactly when some call was early. */
  lemma {:induction false} ShutOutIff(hs: seq<Handler>, pid: string)
    ensures IsNull(RunFrom(EMPTY, hs), pid) <==> exists i :: Early(hs, pid, i)
  {
    if hs != [] {
      var n := |hs| - 1;
      var init := hs[..n];
      ShutOutIff(init, pid);
      NullAfterOne(RunFrom(EMPTY, init), hs[n], pid);
      forall i: nat | i < n ensures Early(hs, pid, i) <==> Early(init, pid, i) {
        assert hs[..i] == init[..i];
      }
      assert Early(hs, pid, n) <==>
             pid !in RunFrom(EMPTY, init).peers && pid != "" && hs[n].pid == pid && (hs[n].OnPeerClosed? || hs[n].OnNotice?);
    }
  }

  // ---------------------------------------------------------------- the object

  /** What holds of every controller and peer: the notifications are bracketed, the peer is inside if
      the map has it, and then its participant shows what was last reported about it. */
  ghost predicate LawfulFor(c: Controller, pid: string) {
    Bracketed(c.events, pid) && Inside(c.events, pid) == Present(c, pid) && Shown(c, pid)
  }

  ghost predicate Lawful(c: Controller) { forall pid :: LawfulFor(c, pid) }

  lemma InsideIsPresent(hs: seq<Handler>, pid: string, c: Controller)
    requires c == RunFrom(EMPTY, hs)
    ensures Inside(c.events, pid) == Present(c, pid)
  {
    EventsAreBracketed(hs, pid);
  }

  lemma {:induction false} RunsAreLawful(hs: seq<Handler>)
    ensures Lawful(RunFrom(EMPTY, hs))
  {
    var c := RunFrom(EMPTY, hs);
    forall pid ensures LawfulFor(c, pid) {
      EventsAreBracketed(hs, pid);
      ShowsLastReported(hs, pid);
    }
  }

  lemma RunMore(c: Controller, hs: seq<Handler>, h: Handler)
    ensures RunFrom(c, hs + [h]) == Do(RunFrom(c, hs), h)
  {
    assert (hs + [h])[..|hs|] == hs;
  }

  /** Between `c` and `d` nothing happened to other peers than `pid`. */
  ghost predicate OnlyAbout(c: Controller, d: Controller, pid: string) {
    && (forall q :: q != pid ==> (q in d.peers <==> q in c.peers) && (q in c.peers ==> d.peers[q] == c.peers[q]))
    && c.events <= d.events && forall k :: |c.events| <= k < |d.events| ==> d.events[k].pid == pid
  }

  /** Whatever calls follow, nothing is reported about the peer. */
  ghost predicate ShutOut(c: Controller, pid: string) {
    forall hs :: Silent(c.events, RunFrom(c, hs).events, pid)
  }

  lemma NullIsShutOut(c: Controller, pid: string)
    requires IsNull(c, pid)
    ensures ShutOut(c, pid)
  {
    forall hs ensures Silent(c.events, RunFrom(c, hs).events, pid) { NullStays(c, hs, pid); }
  }

  /** One more call, on the whole run. */
  lemma RunOn(hs: seq<Handler>, h: Handler, c: Controller, d: Controller)
    requires c == RunFrom(EMPTY, hs) && d == Do(c, h)
    ensures d == RunFrom(EMPTY, hs + [h]) && Lawful(d)
    ensures Inside(c.events, h.pid) == Present(c, h.pid) && Inside(d.events, h.pid) == Present(d, h.pid)
  {
    RunMore(EMPTY, hs, h);
    RunsAreLawful(hs + [h]);
    InsideIsPresent(hs, h.pid, c);
    InsideIsPresent(hs + [h], h.pid, d);
  }

  lemma CreatedMeans(hs: seq<Handler>, pid: string, name: string, c: Controller, d: Controller)
    requires c == RunFrom(EMPTY, hs) && d == Do(c, CreateParticipant(pid, name))
    ensures d == RunFrom(EMPTY, hs + [CreateParticipant(pid, name)]) && Lawful(d)
    ensures OnlyAbout(c, d, pid) && pid in d.peers
    ensures d.events != c.events <==> pid !in c.peers
    ensures pid !in c.peers ==> Inside(d.events, pid)
  {
    RunOn(hs, CreateParticipant(pid, name), c, d);
    CreateChanges(c, pid, name);
  }

  lemma CreateChanges(c: Controller, pid: string, name: string)
    ensures var d := Create(c, pid, name);
            && OnlyAbout(c, d, pid) && pid in d.peers && (d.events != c.events <==> pid !in c.peers)
            && (pid !in c.peers ==> Present(d, pid)) && (pid in c.peers ==> d == c)
  {
  }

  lemma NewPeerMeans(hs: seq<Handler>, pid: string, name: string, c: Controller, d: Controller)
    requires c == RunFrom(EMPTY, hs) && d == Do(c, OnNewPeer(pid, name))
    ensures d == RunFrom(EMPTY, hs + [OnNewPeer(pid, name)]) && Lawful(d)
    ensures OnlyAbout(c, d, pid) && (pid != "" ==> pid in d.peers)
    ensures d.events != c.events <==> pid != "" && pid !in c.peers
    ensures Inside(d.events, pid) <==> Present(c, pid) || (pid != "" && pid !in c.peers)
    ensures pid != "" && pid !in c.peers ==> JoinName(d.events, pid) == name
  {
    RunOn(hs, OnNewPeer(pid, name), c, d);
    CreateChanges(c, pid, name);
    SinceMore(c.events, Joined(pid, name), pid);
  }

  lemma ClosedMeans(hs: seq<Handler>, pid: string, c: Controller, d: Controller)
    requires c == RunFrom(EMPTY, hs) && d == Do(c, OnPeerClosed(pid))
    ensures d == RunFrom(EMPTY, hs + [OnPeerClosed(pid)]) && Lawful(d)
    ensures OnlyAbout(c, d, pid) && (pid != "" ==> !Inside(d.events, pid))
    ensures d.events != c.events <==> pid != "" && Inside(c.events, pid)
    ensures pid != "" && !Inside(c.events, pid) ==> ShutOut(d, pid)
  {
    RunOn(hs, OnPeerClosed(pid), c, d);
    ClosedChanges(c, pid);
    if pid != "" && !Present(c, pid) { NullIsShutOut(d, pid); }
  }

  lemma ClosedChanges(c: Controller, pid: string)
    ensures var d := Do(c, OnPeerClosed(pid));
            && OnlyAbout(c, d, pid) && (pid != "" ==> !Present(d, pid))
            && (d.events != c.events <==> pid != "" && Present(c, pid))
            && (pid != "" && !Present(c, pid) ==> IsNull(d, pid))
  {
  }

  lemma NoticeMeans(hs: seq<Handler>, pid: string, n: Notice, c: Controller, d: Controller)
    requires c == RunFrom(EMPTY, hs) && d == Do(c, OnNotice(pid, n))
    ensures d == RunFrom(EMPTY, hs + [OnNotice(pid, n)]) && Lawful(d)
    ensures OnlyAbout(c, d, pid) && Inside(d.events, pid) == Inside(c.events, pid)
    ensures d.events == if pid != "" && Inside(c.events, pid) && !n.AudioTrackChanged?
                        then c.events + [Noticed(pid, n)] else c.events
    ensures pid != "" && !Inside(c.events, pid) ==> ShutOut(d, pid)
  {
    RunOn(hs, OnNotice(pid, n), c, d);
    NoticeChanges(c, pid, n);
    if pid != "" && !Present(c, pid) { NullIsShutOut(d, pid); }
  }

  lemma NoticeChanges(c: Controller, pid: string, n: Notice)
    ensures var d := Do(c, OnNotice(pid, n));
            && OnlyAbout(c, d, pid) && Present(d, pid) == Present(c, pid)
            && d.events == (if pid != "" && Present(c, pid) && !n.AudioTrackChanged? then c.events + [Noticed(pid, n)] else c.events)
            && (pid != "" && !Present(c, pid) ==> IsNull(d, pid))
  {
  }

  /** `history` lists the handler calls so far. */
  class ParticipantController {
    var participantMap: map<string, Option<Participant>>
    var notified: seq<Event>
    ghost var history: seq<Handler>

    ghost function View(): Controller
      reads this
    {
      Controller(participantMap, notified)
    }

    ghost predicate Valid()
      reads this
    {
      View() == RunFrom(EMPTY, history)
    }

    constructor ()
      ensures Valid() && history == [] && notified == []
    {
      participantMap, notified, history := map[], [], [];
    }

    /** Afterwards the peer has an entry; it is inside and reported to have joined if and only if it
        had none. */
    method CreateOne(pid: string, displayName: string)
      requires Valid()
      modifies this
      ensures Valid() && history == old(history) + [CreateParticipant(pid, displayName)] && Lawful(View())
      ensures OnlyAbout(old(View()), View(), pid) && pid in participantMap
      ensures notified != old(notified) <==> pid !in old(participantMap)
      ensures pid !in old(participantMap) ==> Inside(notified, pid) && JoinName(notified, pid) == displayName
    {
      ghost var c := View();
      Add(pid, displayName);
      CreatedMeans(history, pid, displayName, c, View());
      history := history + [CreateParticipant(pid, displayName)];
    }

    method Add(pid: string, displayName: string)
      modifies this`participantMap, this`notified
      ensures View() == Create(old(View()), pid, displayName)
      ensures pid !in old(participantMap) ==> JoinName(notified, pid) == displayName
    {
      if pid in participantMap { return; }
      SinceMore(notified, Joined(pid, displayName), pid);
      participantMap := participantMap[pid := Some(NewParticipant(displayName))];
      notified := notified + [Joined(pid, displayName)];
    }

    /** Afterwards a peer with an id has an entry; it is inside and reported to have joined if and
        only if it had none. A peer that has a null entry stays outside. */
    method NewPeer(pid: string, displayName: string)
      requires Valid()
      modifies this
      ensures Valid() && history == old(history) + [OnNewPeer(pid, displayName)] && Lawful(View())
      ensures OnlyAbout(old(View()), View(), pid) && (pid != "" ==> pid in participantMap)
      ensures notified != old(notified) <==> pid != "" && pid !in old(participantMap)
      ensures Inside(notified, pid) <==> Present(old(View()), pid) || (pid != "" && pid !in old(participantMap))
      ensures pid != "" && pid !in old(participantMap) ==> JoinName(notified, pid) == displayName
    {
      ghost var c := View();
      if pid != "" && pid !in participantMap { Add(pid, displayName); }
      NewPeerMeans(history, pid, displayName, c, View());
      history := history + [OnNewPeer(pid, displayName)];
    }

    /** `_participantMap[pid]` */
    method Lookup(pid: string) returns (p: Option<Participant>)
      modifies this`participantMap
      ensures View() == Touch(old(View()), pid) && pid in participantMap && p == participantMap[pid]
    {
      if pid !in participantMap { participantMap := participantMap[pid := None]; }
      p := participantMap[pid];
    }

    /** Afterwards the peer is outside; a leave is reported if and only if it was inside. A peer
        without entry is shut out from then on. */
    method PeerClosed(pid: string)
      requires Valid()
      modifies this
      ensures Valid() && history == old(history) + [OnPeerClosed(pid)] && Lawful(View())
      ensures OnlyAbout(old(View()), View(), pid) && (pid != "" ==> !Inside(notified, pid))
      ensures notified != old(notified) <==> pid != "" && Inside(old(notified), pid)
      ensures pid != "" && !Inside(old(notified), pid) ==> ShutOut(View(), pid)
    {
      ghost var c := View();
      if pid != "" {
        var p := Lookup(pid);
        if p.Some? {
          notified := notified + [Left(pid)];
          participantMap := participantMap - {pid};
        }
      }
      ClosedMeans(history, pid, c, View());
      history := history + [OnPeerClosed(pid)];
    }

    /** The handlers for names, speakers, mute states and tracks: a peer that is inside stays so and
        shows the new state, which is reported; a peer without entry is shut out from then on. */
    method Handle(pid: string, n: Notice)
      requires Valid()
      modifies this
      ensures Valid() && history == old(history) + [OnNotice(pid, n)] && Lawful(View())
      ensures OnlyAbout(old(View()), View(), pid) && Inside(notified, pid) == Inside(old(notified), pid)
      ensures pid != "" && Inside(notified, pid) && !n.AudioTrackChanged? ==>
                Since(notified, pid) == Since(old(notified), pid) + [n]
      ensures notified != old(notified) <==> pid != "" && Inside(old(notified), pid) && !n.AudioTrackChanged?
      ensures pid != "" && !Inside(old(notified), pid) ==> ShutOut(View(), pid)
    {
      ghost var c := View();
      if pid != "" {
        var p := Lookup(pid);
        if p.Some? {
          participantMap := participantMap[pid := Some(Updated(p.value, n))];
          if !n.AudioTrackChanged? { notified := notified + [Noticed(pid, n)]; }
        }
      }
      NoticeMeans(history, pid, n, c, View());
      SinceMore(c.events, Noticed(pid, n), pid);
      history := history + [OnNotice(pid, n)];
    }
  }
}
