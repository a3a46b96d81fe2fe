/**
 * Consumer bookkeeping of MediaController (core/service/media_controller.cpp:358-437, 476-592,
 * 594-710 and 821-868): which peer a consumer belongs to, and muting all consumers of a peer.
 * The peer table is an unordered map, so a walk over it may take any order.
 */
module MediaMute {
  import opened Basics

  datatype Kind = Audio | Video

  datatype Consumer = Consumer(kind: Kind, paused: bool)

  /** What the controller was given: the consume and datachannel options, and whether there is a
      receive transport and an API object. */
  datatype Wiring = Wiring(consume: bool, datachannel: bool, recvTransport: bool, api: bool)

  /** `_consumerMap`, `_dataConsumerMap` (its keys) and `_consumerIdToPeerId`. */
  datatype Media = Media(
    wiring: Wiring, consumers: map<string, Consumer>, dataConsumers: set<string>, peerOf: map<string, string>)

  datatype Step =
    | Rewire(wiring: Wiring)
    | NewConsumer(id: string, peer: string, kind: Kind)
    | NewDataConsumer(id: string, peer: string)
    | ConsumerClosed(id: string)
    | Update(id: string, paused: bool)
    | Mute(peer: string, kind: Kind, muted: bool, order: seq<string>)
    | Destroy

  /** One consumer of the walk in muteVideo or muteAudio; None means that the method returns. */
  function MuteOne(m: Media, peer: string, kind: Kind, muted: bool, id: string): Option<Media>
    requires id in m.peerOf
  {
    if m.peerOf[id] != peer then Some(m)
    else if id !in m.consumers then None
    else if m.consumers[id].kind != kind then Some(m)
    else Some(m.(consumers := m.consumers[id := m.consumers[id].(paused := muted)]))
  }

  /** Only entries of the peer table. */
  predicate Listed(m: Media, order: seq<string>) {
    forall i :: 0 <= i < |order| ==> order[i] in m.peerOf
  }

  function MuteWalk(m: Media, peer: string, kind: Kind, muted: bool, order: seq<string>): Media
    requires Listed(m, order)
    decreases |order|
  {
    if order == [] then m
    else
      var r := MuteOne(m, peer, kind, muted, order[0]);
      if r.None? then m else MuteWalk(r.value, peer, kind, muted, order[1..])
  }

  /** muteVideo and muteAudio by peer, when the table is walked in the given order. */
  function MutedBy(m: Media, peer: string, kind: Kind, muted: bool, order: seq<string>): Media
    requires Listed(m, order)
  {
    if m.wiring.api then MuteWalk(m, peer, kind, muted, order) else m
  }

  /** The ids, in order, for which that walk asks the server to pause or resume. */
  function Asked(m: Media, peer: string, kind: Kind, order: seq<string>): seq<string>
    requires Listed(m, order)
    decreases |order|
  {
    if order == [] then []
    else
      var id, rest := order[0], order[1..];
      if m.peerOf[id] != peer then Asked(m, peer, kind, rest)
      else if id !in m.consumers then []
      else (if m.consumers[id].kind == kind then [id] else []) + Asked(m, peer, kind, rest)
  }

  predicate Distinct(s: seq<string>) {
    forall i, j :: 0 <= i < j < |s| ==> s[i] != s[j]
  }

  /** `order` visits every entry of the peer table once. */
  predicate Walks(m: Media, order: seq<string>) {
    && Listed(m, order)
    && Distinct(order)
    && (forall id :: id in m.peerOf ==> id in order)
  }

  function Do(m: Media, s: Step): Media {
    match s
    case Rewire(w) => m.(wiring := w)
    case NewConsumer(id, peer, kind) =>
      if !m.wiring.consume || !m.wiring.recvTransport then m
      else m.(consumers := m.consumers[id := Consumer(kind, false)], peerOf := m.peerOf[id := peer])
    case NewDataConsumer(id, peer) =>
      if !m.wiring.consume || !m.wiring.datachannel || !m.wiring.recvTransport then m
      else m.(dataConsumers := m.dataConsumers + {id}, peerOf := m.peerOf[id := peer])
    case ConsumerClosed(id) =>
      if id in m.consumers then m.(consumers := m.consumers - {id}, peerOf := m.peerOf - {id}) else m
    case Update(id, paused) =>
      if id != "" && id in m.consumers
      then m.(consumers := m.consumers[id := m.consumers[id].(paused := paused)]) else m
    case Mute(peer, kind, muted, order) =>
      if Walks(m, order) then MutedBy(m, peer, kind, muted, order) else m
    case Destroy => m.(consumers := map[], dataConsumers := {})
  }

  const BARE := Media(Wiring(false, false, false, false), map[], {}, map[])

  function Run(steps: seq<Step>): Media {
    if steps == [] then BARE else Do(Run(steps[..|steps| - 1]), steps[|steps| - 1])
  }

  lemma {:induction false} MuteKeepsIds(m: Media, peer: string, kind: Kind, muted: bool, order: seq<string>)
    requires Listed(m, order)
    ensures var r := MuteWalk(m, peer, kind, muted, order);
            && r.wiring == m.wiring && r.peerOf == m.peerOf && r.dataConsumers == m.dataConsumers && r.consumers.Keys == m.consumers.Keys
    decreases |order|
  {
    if order != [] {
      var r := MuteOne(m, peer, kind, muted, order[0]);
      if r.Some? { MuteKeepsIds(r.value, peer, kind, muted, order[1..]); }
    }
  }

  /** Over every run each media consumer has a peer entry. */
  lemma {:induction false} ConsumersHavePeers(steps: seq<Step>)
    ensures Run(steps).consumers.Keys <= Run(steps).peerOf.Keys
  {
    if steps != [] {
      ConsumersHavePeers(steps[..|steps| - 1]);
      var m, s := Run(steps[..|steps| - 1]), steps[|steps| - 1];
      if s.Mute? && Walks(m, s.order) { MuteKeepsIds(m, s.peer, s.kind, s.muted, s.order); }
    }
  }

  // ---------------------------------------------------------------- muting a peer

  /** A consumer that muting the peer is meant to reach. */
  predicate Affected(m: Media, peer: string, kind: Kind, id: string) {
    id in m.consumers && m.consumers[id].kind == kind && id in m.peerOf && m.peerOf[id] == peer
  }

  /** What muting is meant to do: exactly the affected consumers are paused or resumed. */
  function Muted(m: Media, peer: string, kind: Kind, muted: bool): Media {
    m.(consumers := map id | id in m.consumers ::
         if Affected(m, peer, kind, id) then m.consumers[id].(paused := muted) else m.consumers[id])
  }

  /** Every entry of the peer is a media consumer. */
  predicate OnlyMedia(m: Media, peer: string) {
    forall id :: id in m.peerOf && m.peerOf[id] == peer ==> id in m.consumers
  }

  ghost predicate AlreadyThere(m: Media, peer: string, kind: Kind, muted: bool) {
    forall id :: Affected(m, peer, kind, id) ==> m.consumers[id].paused == muted
  }

  /** After the walk an affected consumer is paused as asked if it was visited. */
  lemma {:induction false} WalkMutes(m: Media, peer: string, kind: Kind, muted: bool, order: seq<string>, id: string)
    requires OnlyMedia(m, peer) && id in m.consumers
    requires Listed(m, order)
    ensures var r := MuteWalk(m, peer, kind, muted, order);
            && id in r.consumers
            && r.consumers[id] ==
               if id in order && Affected(m, peer, kind, id) then m.consumers[id].(paused := muted) else m.consumers[id]
    decreases |order|
  {
    if order != [] {
      var r := MuteOne(m, peer, kind, muted, order[0]);
      WalkMutes(r.value, peer, kind, muted, order[1..], id);
      assert order == [order[0]] + order[1..];
    }
  }

  /** When the peer has media consumers only, muting does what it is meant to in any order. */
  lemma MuteIsComplete(m: Media, peer: string, kind: Kind, muted: bool, order: seq<string>)
    requires m.wiring.api && OnlyMedia(m, peer) && Walks(m, order)
    ensures MutedBy(m, peer, kind, muted, order) == Muted(m, peer, kind, muted)
  {
    MuteKeepsIds(m, peer, kind, muted, order);
    var r, want := MuteWalk(m, peer, kind, muted, order), Muted(m, peer, kind, muted);
    assert r.consumers.Keys == want.consumers.Keys;
    forall id | id in m.consumers ensures r.consumers[id] == want.consumers[id] {
      WalkMutes(m, peer, kind, muted, order, id);
    }
  }

  /** Until destroy, every entry of the peer table belongs to a consumer or a data consumer; so a
      peer without data consumers has media consumers only. */
  lemma {:induction false} EntriesBelong(steps: seq<Step>)
    requires forall i :: 0 <= i < |steps| ==> !steps[i].Destroy?
    ensures var m := Run(steps); m.peerOf.Keys <= m.consumers.Keys + m.dataConsumers
    ensures var m := Run(steps);
            forall peer :: OnlyMedia(m, peer) || exists id :: id in m.dataConsumers && id in m.peerOf && m.peerOf[id] == peer
  {
    if steps != [] {
      EntriesBelong(steps[..|steps| - 1]);
      var m, s := Run(steps[..|steps| - 1]), steps[|steps| - 1];
      if s.Mute? && Walks(m, s.order) { MuteKeepsIds(m, s.peer, s.kind, s.muted, s.order); }
    }
  }

  lemma {:induction false} NothingToDo(m: Media, peer: string, kind: Kind, muted: bool, order: seq<string>)
    requires AlreadyThere(m, peer, kind, muted) && Listed(m, order)
    ensures MuteWalk(m, peer, kind, muted, order) == m
    decreases |order|
  {
    if order != [] {
      var r := MuteOne(m, peer, kind, muted, order[0]);
      if r.Some? {
        if Affected(m, peer, kind, order[0]) {
          assert m.consumers[order[0] := m.consumers[order[0]]] == m.consumers;
        }
        NothingToDo(m, peer, kind, muted, order[1..]);
      }
    }
  }

  lemma {:induction false} Enumerate(s: set<string>) returns (order: seq<string>)
    ensures Distinct(order)
    ensures forall x :: x in s <==> x in order
    decreases s
  {
    order := [];
    if x :| x in s {
      var rest := Enumerate(s - {x});
      order := [x] + rest;
      forall i, j | 0 <= i < j < |order| ensures order[i] != order[j] {
        if i == 0 { assert order[j] in rest; }
      }
    }
  }

  /** A walk that begins with a given entry. */
  lemma WalkFrom(m: Media, x: string) returns (order: seq<string>)
    requires x in m.peerOf
    ensures Walks(m, order) && order != [] && order[0] == x
  {
    var rest := Enumerate(m.peerOf.Keys - {x});
    order := [x] + rest;
    forall i | 0 <= i < |order| ensures order[i] in m.peerOf { if i > 0 { assert rest[i - 1] in rest; } }
    forall i, j | 0 <= i < j < |order| ensures order[i] != order[j] {
      if i == 0 { assert order[j] in rest; }
    }
  }

  /** Muting does what it is meant to whatever the order of the walk if and only if the peer has
      media consumers only and there is an API object, or there is nothing to change. */
  lemma MuteIsCompleteIff(m: Media, peer: string, kind: Kind, muted: bool)
    ensures (forall order :: Walks(m, order) ==> MutedBy(m, peer, kind, muted, order) == Muted(m, peer, kind, muted))
            <==> (m.wiring.api && OnlyMedia(m, peer)) || AlreadyThere(m, peer, kind, muted)
  {
    var want := Muted(m, peer, kind, muted);
    forall order | Walks(m, order) && ((m.wiring.api && OnlyMedia(m, peer)) || AlreadyThere(m, peer, kind, muted))
      ensures MutedBy(m, peer, kind, muted, order) == want
    {
      if m.wiring.api && OnlyMedia(m, peer) {
        MuteIsComplete(m, peer, kind, muted, order);
      } else {
        NothingToDo(m, peer, kind, muted, order);
        assert want.consumers == m.consumers;
      }
    }
    if !(m.wiring.api && OnlyMedia(m, peer)) && !AlreadyThere(m, peer, kind, muted) {
      var y :| Affected(m, peer, kind, y) && m.consumers[y].paused != muted;
      var x := y;
      if !OnlyMedia(m, peer) { x :| x in m.peerOf && m.peerOf[x] == peer && x !in m.consumers; }
      var order := WalkFrom(m, x);
      assert MutedBy(m, peer, kind, muted, order) == m;
      assert want.consumers[y].paused == muted;
    }
  }

  /** No consumer of the peer and kind is running. */
  ghost predicate NoneRuns(m: Media, peer: string, kind: Kind) {
    forall id :: Affected(m, peer, kind, id) ==> m.consumers[id].paused
  }

  /** `isVideoMuted` and `isAudioMuted`, walking in the given order; None stands for the null
      pointer that an entry without media consumer makes them follow. */
  function AskMuted(m: Media, peer: string, kind: Kind, order: seq<string>): Option<bool>
    requires Listed(m, order)
    decreases |order|
  {
    if order == [] then Some(true)
    else
      var id := order[0];
      if m.peerOf[id] != peer then AskMuted(m, peer, kind, order[1..])
      else if id !in m.consumers then None
      else if m.consumers[id].kind == kind && !m.consumers[id].paused then Some(false)
      else AskMuted(m, peer, kind, order[1..])
  }

  lemma {:induction false} AskMutedIs(m: Media, peer: string, kind: Kind, order: seq<string>)
    requires Listed(m, order) && OnlyMedia(m, peer)
    ensures AskMuted(m, peer, kind, order) ==
            Some(forall id :: id in order && Affected(m, peer, kind, id) ==> m.consumers[id].paused)
    decreases |order|
  {
    if order != [] {
      AskMutedIs(m, peer, kind, order[1..]);
      assert order == [order[0]] + order[1..];
    }
  }

  /** Asking answers in every order if and only if the peer has media consumers only, and then it
      answers whether none of them runs. */
  lemma AskMutedIff(m: Media, peer: string, kind: Kind)
    ensures (forall order :: Walks(m, order) ==> AskMuted(m, peer, kind, order).Some?) <==> OnlyMedia(m, peer)
    ensures OnlyMedia(m, peer) ==>
              forall order :: Walks(m, order) ==> AskMuted(m, peer, kind, order) == Some(NoneRuns(m, peer, kind))
  {
    forall order | Walks(m, order) && OnlyMedia(m, peer)
      ensures AskMuted(m, peer, kind, order) == Some(NoneRuns(m, peer, kind))
    {
      AskMutedIs(m, peer, kind, order);
    }
    if !OnlyMedia(m, peer) {
      var x :| x in m.peerOf && m.peerOf[x] == peer && x !in m.consumers;
      var order := WalkFrom(m, x);
      assert AskMuted(m, peer, kind, order).None?;
    }
  }

  /** After muting, asking in any other order gives what was set, or the peer has no consumer of
      that kind. */
  lemma MuteThenAsk(m: Media, peer: string, kind: Kind, muted: bool, order: seq<string>, later: seq<string>)
    requires m.wiring.api && OnlyMedia(m, peer) && Walks(m, order) && Walks(m, later)
    ensures var r := MutedBy(m, peer, kind, muted, order);
            Listed(r, later) && (AskMuted(r, peer, kind, later) == Some(muted) || forall id :: !Affected(m, peer, kind, id))
  {
    MuteIsComplete(m, peer, kind, muted, order);
    var r := Muted(m, peer, kind, muted);
    AskMutedIff(r, peer, kind);
    assert Walks(r, later);
    if id :| Affected(m, peer, kind, id) {
      assert Affected(r, peer, kind, id) && r.consumers[id].paused == muted;
      if muted { assert forall x :: Affected(r, peer, kind, x) ==> Affected(m, peer, kind, x); }
    }
  }

  lemma {:induction false} AskedIn(m: Media, peer: string, kind: Kind, order: seq<string>, id: string)
    requires OnlyMedia(m, peer) && Listed(m, order)
    ensures id in Asked(m, peer, kind, order) <==> id in order && Affected(m, peer, kind, id)
    decreases |order|
  {
    if order != [] {
      AskedIn(m, peer, kind, order[1..], id);
      assert order == [order[0]] + order[1..];
    }
  }

  lemma {:induction false} AskedOnce(m: Media, peer: string, kind: Kind, order: seq<string>)
    requires OnlyMedia(m, peer) && Listed(m, order)
    requires Distinct(order)
    ensures Distinct(Asked(m, peer, kind, order))
    decreases |order|
  {
    if order != [] {
      var rest := Asked(m, peer, kind, order[1..]);
      AskedOnce(m, peer, kind, order[1..]);
      forall j | 0 <= j < |rest| ensures rest[j] != order[0] {
        AskedIn(m, peer, kind, order[1..], rest[j]);
        assert rest[j] in order[1..];
      }
      var a := Asked(m, peer, kind, order);
      assert a == rest || a == [order[0]] + rest;
    }
  }

  /** The server is asked about exactly the affected consumers, each once. */
  lemma AsksForTheAffected(m: Media, peer: string, kind: Kind, order: seq<string>)
    requires OnlyMedia(m, peer) && Walks(m, order)
    ensures forall id :: id in Asked(m, peer, kind, order) <==> Affected(m, peer, kind, id)
    ensures Distinct(Asked(m, peer, kind, order))
  {
    AskedOnce(m, peer, kind, order);
    forall id ensures id in Asked(m, peer, kind, order) <==> Affected(m, peer, kind, id) {
      AskedIn(m, peer, kind, order, id);
    }
  }

  // ---------------------------------------------------------------- the object

  lemma {:induction false} AskedSame(m: Media, peer: string, kind: Kind, muted: bool, id: string, order: seq<string>)
    requires id in m.consumers && Listed(m, order)
    ensures Asked(m.(consumers := m.consumers[id := m.consumers[id].(paused := muted)]), peer, kind, order) ==
            Asked(m, peer, kind, order)
    decreases |order|
  {
    if order != [] { AskedSame(m, peer, kind, muted, id, order[1..]); }
  }

  /** One turn of the walk's loop, for the consumers and for the requests. */
  lemma WalkTurn(m: Media, peer: string, kind: Kind, muted: bool, id: string, rest: seq<string>)
    requires Listed(m, [id] + rest)
    ensures id in m.peerOf && Listed(m, rest)
    ensures var r := MuteOne(m, peer, kind, muted, id);
            && (r.None? ==> MuteWalk(m, peer, kind, muted, [id] + rest) == m && Asked(m, peer, kind, [id] + rest) == [])
            && (r.Some? ==>
                  && Listed(r.value, rest)
                  && MuteWalk(m, peer, kind, muted, [id] + rest) == MuteWalk(r.value, peer, kind, muted, rest)
                  && Asked(m, peer, kind, [id] + rest) ==
                     (if Affected(m, peer, kind, id) then [id] else []) + Asked(r.value, peer, kind, rest))
  {
    var l := [id] + rest;
    assert l[0] == id && l[1..] == rest;
    if Affected(m, peer, kind, id) { AskedSame(m, peer, kind, muted, id, rest); }
  }

  /** From `now` with `rest` to visit and `asked` already sent, the walk ends as it does from `m`. */
  ghost predicate Continues(
    m: Media, order: seq<string>, peer: string, kind: Kind, muted: bool, now: Media, rest: seq<string>, asked: seq<string>)
    requires Listed(m, order)
  {
    && Listed(now, rest)
    && MuteWalk(now, peer, kind, muted, rest) == MuteWalk(m, peer, kind, muted, order)
    && asked + Asked(now, peer, kind, rest) == Asked(m, peer, kind, order)
  }

  lemma TurnContinues(
    m: Media, order: seq<string>, peer: string, kind: Kind, muted: bool, now: Media, id: string, later: seq<string>, asked: seq<string>)
    requires Listed(m, order) && Continues(m, order, peer, kind, muted, now, [id] + later, asked)
    ensures id in now.peerOf
    ensures var r := MuteOne(now, peer, kind, muted, id);
            if r.None? then MuteWalk(m, peer, kind, muted, order) == now && Asked(m, peer, kind, order) == asked
            else Continues(m, order, peer, kind, muted, r.value, later,
                           asked + if Affected(now, peer, kind, id) then [id] else [])
  {
    TurnTo(peer, kind, muted, now, id, later, asked, MuteWalk(m, peer, kind, muted, order), Asked(m, peer, kind, order));
  }

  /** The same with the outcome of the whole walk given as `all` and `due`. */
  lemma TurnTo(
    peer: string, kind: Kind, muted: bool, now: Media, id: string, later: seq<string>, asked: seq<string>,
    all: Media, due: seq<string>)
    requires Listed(now, [id] + later)
    requires MuteWalk(now, peer, kind, muted, [id] + later) == all && asked + Asked(now, peer, kind, [id] + later) == due
    ensures id in now.peerOf
    ensures var r := MuteOne(now, peer, kind, muted, id);
            if r.None? then all == now && due == asked
            else
              && Listed(r.value, later) && MuteWalk(r.value, peer, kind, muted, later) == all
              && (asked + if Affected(now, peer, kind, id) then [id] else []) + Asked(r.value, peer, kind, later) == due
  {
    WalkTurn(now, peer, kind, muted, id, later);
    var r := MuteOne(now, peer, kind, muted, id);
    if r.Some? {
      Regroup(asked, if Affected(now, peer, kind, id) then [id] else [], Asked(r.value, peer, kind, later));
    }
  }

  lemma Regroup(a: seq<string>, b: seq<string>, c: seq<string>)
    ensures a + (b + c) == (a + b) + c
  {
  }

  lemma WalkEnds(
    m: Media, order: seq<string>, peer: string, kind: Kind, muted: bool, now: Media, rest: seq<string>, asked: seq<string>)
    requires Listed(m, order) && Continues(m, order, peer, kind, muted, now, rest, asked) && rest == []
    ensures MuteWalk(m, peer, kind, muted, order) == now && Asked(m, peer, kind, order) == asked
  {}

  /** What holds of every controller: each consumer has a peer, and until destroy each peer entry
      has a consumer or data consumer. */
  ghost predicate Lawful(m: Media, history: seq<Step>) {
    && m.consumers.Keys <= m.peerOf.Keys
    && ((forall i :: 0 <= i < |history| ==> !history[i].Destroy?) ==> m.peerOf.Keys <= m.consumers.Keys + m.dataConsumers)
  }

  lemma RunsAreLawful(history: seq<Step>)
    ensures Lawful(Run(history), history)
  {
    ConsumersHavePeers(history);
    if forall i :: 0 <= i < |history| ==> !history[i].Destroy? { EntriesBelong(history); }
  }

  lemma RunMore(history: seq<Step>, s: Step)
    ensures Run(history + [s]) == Do(Run(history), s)
  {
    assert (history + [s])[..|history|] == history;
  }

  /** Between `m` and `n` nothing happened to other ids than `id`. */
  ghost predicate OnlyAbout(m: Media, n: Media, id: string) {
    forall q :: q != id ==>
      && (q in n.consumers <==> q in m.consumers) && (q in m.consumers ==> n.consumers[q] == m.consumers[q])
      && (q in n.peerOf <==> q in m.peerOf) && (q in m.peerOf ==> n.peerOf[q] == m.peerOf[q])
      && (q in n.dataConsumers <==> q in m.dataConsumers)
  }

  /** `history` lists the calls so far. */
  class MediaController {
    var wiring: Wiring
    var consumerMap: map<string, Consumer>
    var dataConsumerMap: set<string>
    var consumerIdToPeerId: map<string, string>
    ghost var history: seq<Step>

    ghost function View(): Media
      reads this
    {
      Media(wiring, consumerMap, dataConsumerMap, consumerIdToPeerId)
    }

    ghost predicate Valid()
      reads this
    {
      View() == Run(history)
    }

    constructor ()
      ensures Valid() && history == []
    {
      wiring := BARE.wiring;
      consumerMap, dataConsumerMap, consumerIdToPeerId, history := map[], {}, map[], [];
    }

    /** The setters of options, transport and API object. */
    method Configure(w: Wiring)
      requires Valid()
      modifies this`wiring, this`history
      ensures Valid() && history == old(history) + [Rewire(w)] && wiring == w
    {
      RunMore(history, Rewire(w));
      wiring := w;
      history := history + [Rewire(w)];
    }

    /** If consuming is on and there is a transport, the consumer is entered for the peer, running, so
        that the peer is not muted; otherwise nothing changes. */
    method CreateNewConsumer(id: string, peer: string, kind: Kind)
      requires Valid()
      modifies this
      ensures Valid() && history == old(history) + [NewConsumer(id, peer, kind)] && Lawful(View(), history)
      ensures OnlyAbout(old(View()), View(), id)
      ensures if old(wiring).consume && old(wiring).recvTransport
              then Affected(View(), peer, kind, id) && !NoneRuns(View(), peer, kind)
              else View() == old(View())
    {
      RunMore(history, NewConsumer(id, peer, kind));
      if wiring.consume && wiring.recvTransport {
        consumerMap := consumerMap[id := Consumer(kind, false)];
        consumerIdToPeerId := consumerIdToPeerId[id := peer];
        assert Affected(View(), peer, kind, id) && !consumerMap[id].paused;
      }
      history := history + [NewConsumer(id, peer, kind)];
      RunsAreLawful(history);
    }

    /** If moreover data channels are on, the data consumer is entered for the peer; unless a media
        consumer has the same id, the peer can then no longer be muted reliably. */
    method CreateNewDataConsumer(id: string, peer: string)
      requires Valid()
      modifies this
      ensures Valid() && history == old(history) + [NewDataConsumer(id, peer)] && Lawful(View(), history)
      ensures OnlyAbout(old(View()), View(), id) && consumerMap == old(consumerMap)
      ensures if old(wiring).consume && old(wiring).datachannel && old(wiring).recvTransport
              then id in dataConsumerMap && (OnlyMedia(View(), peer) ==> id in consumerMap)
              else View() == old(View())
    {
      RunMore(history, NewDataConsumer(id, peer));
      if wiring.consume && wiring.datachannel && wiring.recvTransport {
        dataConsumerMap := dataConsumerMap + {id};
        consumerIdToPeerId := consumerIdToPeerId[id := peer];
      }
      history := history + [NewDataConsumer(id, peer)];
      RunsAreLawful(history);
    }

    /** Afterwards there is no consumer of that id, and no peer entry if there was one; a peer with
        media consumers only stays one. */
    method OnConsumerClosed(id: string)
      requires Valid()
      modifies this
      ensures Valid() && history == old(history) + [ConsumerClosed(id)] && Lawful(View(), history)
      ensures OnlyAbout(old(View()), View(), id) && id !in consumerMap
      ensures id in old(consumerMap) ==> id !in consumerIdToPeerId
      ensures forall peer :: OnlyMedia(old(View()), peer) ==> OnlyMedia(View(), peer)
    {
      RunMore(history, ConsumerClosed(id));
      if id in consumerMap {
        consumerIdToPeerId := consumerIdToPeerId - {id};
        consumerMap := consumerMap - {id};
      }
      history := history + [ConsumerClosed(id)];
      RunsAreLawful(history);
    }

    /** onConsumerPaused and onConsumerResumed, down to updateConsumer: the consumer of that id, if
        there is one and the id is not empty, runs or pauses as told; nothing else changes. */
    method UpdateConsumer(id: string, paused: bool)
      requires Valid()
      modifies this`consumerMap, this`history
      ensures Valid() && history == old(history) + [Update(id, paused)] && Lawful(View(), history)
      ensures OnlyAbout(old(View()), View(), id) && (id in consumerMap <==> id in old(consumerMap))
      ensures id in consumerMap ==> consumerMap[id].kind == old(consumerMap)[id].kind
      ensures id in consumerMap && id != "" ==> consumerMap[id].paused == paused
      ensures id == "" ==> consumerMap == old(consumerMap)
    {
      RunMore(history, Update(id, paused));
      if id != "" && id in consumerMap {
        consumerMap := consumerMap[id := consumerMap[id].(paused := paused)];
      }
      history := history + [Update(id, paused)];
      RunsAreLawful(history);
    }

    /** What muteVideo and muteAudio do with one entry; `on` says whether the walk goes on, `asks`
        whether a request is sent. */
    method MuteEntry(peer: string, kind: Kind, muted: bool, id: string) returns (on: bool, asks: bool)
      requires id in consumerIdToPeerId
      modifies this`consumerMap
      ensures var r := MuteOne(old(View()), peer, kind, muted, id); on == r.Some? && (on ==> View() == r.value)
      ensures !on ==> View() == old(View())
      ensures asks == Affected(old(View()), peer, kind, id)
    {
      on, asks := true, false;
      if consumerIdToPeerId[id] == peer {
        if id !in consumerMap { return false, false; }
        if consumerMap[id].kind == kind {
          consumerMap := consumerMap[id := consumerMap[id].(paused := muted)];
          asks := true;
        }
      }
    }

    /** muteVideo and muteAudio by peer: walks the table in the given order, returns at the first
        entry of the peer that is no media consumer, and gives the ids of the requests it sends. When
        the peer has media consumers only and there is an API object, exactly its consumers of that
        kind are set, and one request is sent for each. */
    method MutePeer(peer: string, kind: Kind, muted: bool, order: seq<string>) returns (asked: seq<string>)
      requires Valid() && Walks(View(), order)
      modifies this`consumerMap, this`history
      ensures Valid() && history == old(history) + [Mute(peer, kind, muted, order)] && Lawful(View(), history)
      ensures View() == MutedBy(old(View()), peer, kind, muted, order)
      ensures asked == if wiring.api then Asked(old(View()), peer, kind, order) else []
      ensures wiring.api && OnlyMedia(old(View()), peer) ==>
                && View() == Muted(old(View()), peer, kind, muted)
                && Distinct(asked) && forall id :: id in asked <==> Affected(old(View()), peer, kind, id)
    {
      ghost var m := View();
      RunMore(history, Mute(peer, kind, muted, order));
      asked := [];
      if wiring.api { asked := Walk(peer, kind, muted, order); }
      history := history + [Mute(peer, kind, muted, order)];
      RunsAreLawful(history);
      if wiring.api && OnlyMedia(m, peer) {
        MuteIsComplete(m, peer, kind, muted, order);
        AsksForTheAffected(m, peer, kind, order);
      }
    }

    method Walk(peer: string, kind: Kind, muted: bool, order: seq<string>) returns (asked: seq<string>)
      requires Listed(View(), order)
      modifies this`consumerMap
      ensures View() == MuteWalk(old(View()), peer, kind, muted, order)
      ensures asked == Asked(old(View()), peer, kind, order)
    {
      asked := [];
      ghost var m, now, rest := View(), View(), order;
      var i := 0;
      while i < |order|
        invariant 0 <= i <= |order| && rest == order[i..]
        invariant View() == now && Continues(m, order, peer, kind, muted, now, rest, asked)
      {
        var id := order[i];
        ghost var later := order[i + 1..];
        assert rest == [id] + later;
        TurnContinues(m, order, peer, kind, muted, now, id, later, asked);
        ghost var next := MuteOne(now, peer, kind, muted, id);
        var on, asks := MuteEntry(peer, kind, muted, id);
        if !on { return; }
        asked := asked + if asks then [id] else [];
        now, rest, i := next.value, later, i + 1;
      }
      WalkEnds(m, order, peer, kind, muted, now, rest, asked);
    }

    /** isVideoMuted and isAudioMuted by peer. For a peer with media consumers only the answer says
        whether none of that kind runs. */
    method IsPeerMuted(peer: string, kind: Kind, order: seq<string>) returns (r: Option<bool>)
      requires Walks(View(), order)
      ensures r == AskMuted(View(), peer, kind, order)
      ensures OnlyMedia(View(), peer) ==> r == Some(NoneRuns(View(), peer, kind))
    {
      AskMutedIff(View(), peer, kind);
      for i := 0 to |order|
        invariant AskMuted(View(), peer, kind, order[i..]) == AskMuted(View(), peer, kind, order)
      {
        var id := order[i];
        assert order[i..][0] == id && order[i..][1..] == order[i + 1..];
        if consumerIdToPeerId[id] == peer {
          if id !in consumerMap { return None; }
          if consumerMap[id].kind == kind && !consumerMap[id].paused { return Some(false); }
        }
      }
      return Some(true);
    }

    /** destroy closes and forgets the consumers but keeps the peer table: whoever has an entry can
        no longer be muted or asked about reliably. */
    method Close()
      requires Valid()
      modifies this`consumerMap, this`dataConsumerMap, this`history
      ensures Valid() && history == old(history) + [Destroy] && Lawful(View(), history)
      ensures consumerMap == map[] && dataConsumerMap == {}
      ensures forall id :: id in consumerIdToPeerId ==> !OnlyMedia(View(), consumerIdToPeerId[id])
    {
      RunMore(history, Destroy);
      dataConsumerMap := {};
      consumerMap := map[];
      history := history + [Destroy];
      RunsAreLawful(history);
    }
  }
}
