/** Every interleaving of subscribers, publishers and the browsers draining their queues.

    The hub's lock makes subscribe, unsubscribe and the start of a publish atomic. A publish offers
    its record to one client at a time while it holds the lock, and a browser may take a record
    from its queue between any two of those offers. */
module HubRuns {
  import opened Hub
  import opened Options

  /** One subscriber: its queue, what the browser has taken from it, and the history of both.
      `picked` lists, for each record of the stream, its position in the publication history. */
  datatype Subscriber = Subscriber(
    queue: seq<Record>, delivered: seq<Record>, initial: Option<Record>,
    joined: nat, left: Option<nat>, picked: seq<nat>, dropped: bool)
  {
    function Stream(): (s: seq<Record>) {
      delivered + queue
    }
  }

  datatype Lock = Free | Publishing(record: Record, next: nat)

  datatype Sys = Sys(
    latest: Option<Record>, clients: seq<nat>, subs: seq<Subscriber>, lock: Lock, history: seq<Record>)

  datatype Action =
    | Subscribe
    | Unsubscribe(id: nat)
    | BeginPublish(text: string)
    | BeginEvent(text: string)
    | Offer
    | EndPublish
    | Take(id: nat)

  function Start(): (s: Sys) {
    Sys(None, [], [], Free, [])
  }

  predicate Enabled(s: Sys, a: Action) {
    match a
    case Subscribe => s.lock.Free?
    case Unsubscribe(id) => s.lock.Free? && id < |s.subs|
    case BeginPublish(_) => s.lock.Free?
    case BeginEvent(_) => s.lock.Free?
    case Offer =>
      s.lock.Publishing? && s.lock.next < |s.clients| && s.clients[s.lock.next] < |s.subs|
      && s.history != []
    case EndPublish => s.lock.Publishing? && s.lock.next >= |s.clients|
    case Take(id) => id < |s.subs| && s.subs[id].queue != []
  }

  /** What one offer does to a subscriber's queue. */
  function OfferTo(sub: Subscriber, record: Record, position: nat): (sub': Subscriber) {
    var (queue, ok) := Put(sub.queue, record);
    if ok then sub.(queue := queue, picked := sub.picked + [position]) else sub.(dropped := true)
  }

  function Apply(s: Sys, a: Action): (s': Sys)
    requires Enabled(s, a)
  {
    match a
    case Subscribe =>
      s.(clients := s.clients + [|s.subs|],
         subs := s.subs + [Subscriber([], [], s.latest, |s.history|, None, [], false)])
    case Unsubscribe(id) =>
      if id in s.clients then
        s.(clients := RemoveFirst(s.clients, id),
           subs := s.subs[id := s.subs[id].(left := Some(|s.history|))])
      else s
    case BeginPublish(text) =>
      s.(latest := Some(Telemetry(text)), history := s.history + [Telemetry(text)],
         lock := Publishing(Telemetry(text), 0))
    case BeginEvent(text) =>
      s.(history := s.history + [Reply(text)], lock := Publishing(Reply(text), 0))
    case Offer =>
      var id := s.clients[s.lock.next];
      s.(subs := s.subs[id := OfferTo(s.subs[id], s.lock.record, |s.history| - 1)],
         lock := s.lock.(next := s.lock.next + 1))
    case EndPublish =>
      s.(lock := Free)
    case Take(id) =>
      var sub := s.subs[id];
      s.(subs := s.subs[id := sub.(queue := sub.queue[1..], delivered := sub.delivered + [sub.queue[0]])])
  }

  predicate Schedulable(s: Sys, actions: seq<Action>)
    decreases |actions|
  {
    actions == [] || (Enabled(s, actions[0]) && Schedulable(Apply(s, actions[0]), actions[1..]))
  }

  function Run(s: Sys, actions: seq<Action>): (s': Sys)
    requires Schedulable(s, actions)
    decreases |actions|
  {
    if actions == [] then s else Run(Apply(s, actions[0]), actions[1..])
  }

  // --------------------------------------------------------------------------------------------
  // Histories

  function TelemetryOf(records: seq<Record>): (t: seq<Record>)
    ensures forall r :: r in t ==> r.Telemetry?
  {
    if records == [] then []
    else (if records[0].Telemetry? then [records[0]] else []) + TelemetryOf(records[1..])
  }

  function LastTelemetry(records: seq<Record>): (r: Option<Record>) {
    var t := TelemetryOf(records);
    if t == [] then None else Some(t[|t| - 1])
  }

  lemma {:induction false} TelemetryOfConcat(a: seq<Record>, b: seq<Record>)
    ensures TelemetryOf(a + b) == TelemetryOf(a) + TelemetryOf(b)
  {
    if a == [] {
      assert a + b == b;
    } else {
      assert (a + b)[1..] == a[1..] + b;
      TelemetryOfConcat(a[1..], b);
    }
  }

  /** The current publish has not reached this client yet. */
  ghost predicate Pending(s: Sys, id: nat) {
    s.lock.Publishing? && exists k :: s.lock.next <= k < |s.clients| && s.clients[k] == id
  }

  /** How much of the history has been offered to the subscriber. */
  ghost function Offered(s: Sys, id: nat): nat
    requires id < |s.subs|
  {
    if s.subs[id].left.Some? then s.subs[id].left.value
    else if Pending(s, id) && s.history != [] then |s.history| - 1
    else |s.history|
  }

  ghost predicate Increasing(xs: seq<nat>) {
    forall i, j :: 0 <= i < j < |xs| ==> xs[i] < xs[j]
  }

  /** The stream is an increasing selection from `history[joined..offered]`, and all of it unless a
      record was dropped. */
  ghost predicate StreamInv(sub: Subscriber, history: seq<Record>, offered: nat) {
    && |sub.queue| <= QUEUE_MAX
    && sub.joined <= offered <= |history|
    && sub.initial == LastTelemetry(history[..sub.joined])
    && |sub.picked| == |sub.Stream()|
    && Increasing(sub.picked)
    && (forall k :: 0 <= k < |sub.picked| ==>
          sub.joined <= sub.picked[k] < offered && sub.Stream()[k] == history[sub.picked[k]])
    && (!sub.dropped ==> sub.Stream() == history[sub.joined..offered])
  }

  ghost predicate SubscriberInv(s: Sys, id: nat)
    requires id < |s.subs|
  {
    && (id in s.clients <==> s.subs[id].left.None?)
    && StreamInv(s.subs[id], s.history, Offered(s, id))
  }

  ghost predicate Inv(s: Sys) {
    && s.latest == LastTelemetry(s.history)
    && Distinct(s.clients)
    && (forall k :: 0 <= k < |s.clients| ==> s.clients[k] < |s.subs|)
    && (s.lock.Publishing? ==> s.history != [] && s.lock.record == s.history[|s.history| - 1])
    && (forall id :: 0 <= id < |s.subs| ==> SubscriberInv(s, id))
  }

  lemma {:induction false} SubscribeKeepsInv(s: Sys)
    requires Inv(s) && Enabled(s, Subscribe)
    ensures Inv(Apply(s, Subscribe))
  {
    var s' := Apply(s, Subscribe);
    assert s.history[..|s.history|] == s.history;
    forall id | 0 <= id < |s'.subs| ensures SubscriberInv(s', id) {
      if id < |s.subs| {
        assert SubscriberInv(s, id);
        assert s'.subs[id] == s.subs[id] && Offered(s', id) == Offered(s, id);
      }
    }
  }

  lemma {:induction false} UnsubscribeKeepsInv(s: Sys, gone: nat)
    requires Inv(s) && Enabled(s, Unsubscribe(gone))
    ensures Inv(Apply(s, Unsubscribe(gone)))
  {
    var s' := Apply(s, Unsubscribe(gone));
    RemoveFirstOfDistinct(s.clients, gone);
    assert forall k :: 0 <= k < |s'.clients| ==> s'.clients[k] in s.clients;
    forall id | 0 <= id < |s'.subs| ensures SubscriberInv(s', id) {
      assert SubscriberInv(s, id);
      assert Offered(s', id) == Offered(s, id);
    }
  }

  lemma {:induction false} LongerHistoryKeepsStream(sub: Subscriber, history: seq<Record>, more: seq<Record>, offered: nat)
    requires StreamInv(sub, history, offered)
    ensures StreamInv(sub, history + more, offered)
  {
    assert (history + more)[..sub.joined] == history[..sub.joined];
    assert (history + more)[sub.joined..offered] == history[sub.joined..offered];
  }

  lemma {:induction false} BeginKeepsOffered(s: Sys, a: Action, id: nat)
    requires Inv(s) && Enabled(s, a) && (a.BeginPublish? || a.BeginEvent?) && id < |s.subs|
    ensures Offered(Apply(s, a), id) == Offered(s, id)
  {
    assert SubscriberInv(s, id);
    if id in s.clients {
      var k :| 0 <= k < |s.clients| && s.clients[k] == id;
      assert Pending(Apply(s, a), id);
    }
  }

  lemma {:induction false} BeginKeepsInv(s: Sys, a: Action)
    requires Inv(s) && Enabled(s, a) && (a.BeginPublish? || a.BeginEvent?)
    ensures Inv(Apply(s, a))
  {
    var s' := Apply(s, a);
    TelemetryOfConcat(s.history, [s'.lock.record]);
    forall id | 0 <= id < |s'.subs| ensures SubscriberInv(s', id) {
      assert SubscriberInv(s, id);
      BeginKeepsOffered(s, a, id);
      LongerHistoryKeepsStream(s.subs[id], s.history, [s'.lock.record], Offered(s, id));
    }
  }

  /** Membership and the lock, without the streams. */
  ghost predicate ClientsInv(s: Sys) {
    && Distinct(s.clients)
    && (forall k :: 0 <= k < |s.clients| ==> s.clients[k] < |s.subs|)
    && (forall id :: 0 <= id < |s.subs| ==> (id in s.clients <==> s.subs[id].left.None?))
  }

  lemma {:induction false} InvHasClients(s: Sys)
    requires Inv(s)
    ensures ClientsInv(s)
  {
    forall id | 0 <= id < |s.subs| ensures id in s.clients <==> s.subs[id].left.None? {
      assert SubscriberInv(s, id);
    }
  }

  lemma {:induction false} OfferedAfterOffer(s: Sys, id: nat)
    requires ClientsInv(s) && Enabled(s, Offer) && id < |s.subs|
    ensures var s' := Apply(s, Offer);
            if id == s.clients[s.lock.next]
            then Offered(s, id) == |s.history| - 1 && Offered(s', id) == |s.history|
            else Offered(s', id) == Offered(s, id)
  {
    var s' := Apply(s, Offer);
    assert s'.clients == s.clients;
    if id == s.clients[s.lock.next] {
      assert Pending(s, id) && !Pending(s', id);
    } else {
      assert Pending(s', id) == Pending(s, id);
    }
  }

  lemma {:induction false} OfferKeepsTheOthers(s: Sys, id: nat)
    requires id < |s.subs| && ClientsInv(s) && SubscriberInv(s, id) && Enabled(s, Offer)
    requires id != s.clients[s.lock.next]
    ensures SubscriberInv(Apply(s, Offer), id)
  {
    OfferedAfterOffer(s, id);
  }

  lemma {:induction false} IncreasingAppend(xs: seq<nat>, x: nat)
    requires Increasing(xs) && forall k :: 0 <= k < |xs| ==> xs[k] < x
    ensures Increasing(xs + [x])
  {
  }

  lemma {:induction false} RecordExtendsStream(sub: Subscriber, history: seq<Record>, sub': Subscriber)
    requires history != [] && StreamInv(sub, history, |history| - 1) && |sub.queue| < QUEUE_MAX
    requires var h := |history| - 1; sub' == sub.(queue := sub.queue + [history[h]], picked := sub.picked + [h])
    ensures StreamInv(sub', history, |history|)
  {
    var h := |history| - 1;
    IncreasingAppend(sub.picked, h);
    assert sub'.Stream() == sub.Stream() + [history[h]];
    assert history[sub.joined..h + 1] == history[sub.joined..h] + [history[h]];
  }

  lemma {:induction false} OfferExtendsStream(sub: Subscriber, history: seq<Record>)
    requires history != [] && StreamInv(sub, history, |history| - 1)
    ensures StreamInv(OfferTo(sub, history[|history| - 1], |history| - 1), history, |history|)
  {
    if |sub.queue| < QUEUE_MAX {
      RecordExtendsStream(sub, history, OfferTo(sub, history[|history| - 1], |history| - 1));
    }
  }

  lemma {:induction false} OfferKeepsTheOffered(s: Sys, id: nat)
    requires id < |s.subs| && ClientsInv(s) && SubscriberInv(s, id) && Enabled(s, Offer)
    requires id == s.clients[s.lock.next] && s.lock.record == s.history[|s.history| - 1]
    ensures SubscriberInv(Apply(s, Offer), id)
  {
    OfferedAfterOffer(s, id);
    OfferExtendsStream(s.subs[id], s.history);
  }

  lemma {:induction false} OfferKeepsInv(s: Sys)
    requires Inv(s) && Enabled(s, Offer)
    ensures Inv(Apply(s, Offer))
  {
    InvHasClients(s);
    forall id | 0 <= id < |s.subs| ensures SubscriberInv(Apply(s, Offer), id) {
      assert SubscriberInv(s, id);
      if id == s.clients[s.lock.next] {
        OfferKeepsTheOffered(s, id);
      } else {
        OfferKeepsTheOthers(s, id);
      }
    }
  }

  lemma {:induction false} EndKeepsInv(s: Sys)
    requires Inv(s) && Enabled(s, EndPublish)
    ensures Inv(Apply(s, EndPublish))
  {
    var s' := Apply(s, EndPublish);
    forall id | 0 <= id < |s'.subs| ensures SubscriberInv(s', id) {
      assert SubscriberInv(s, id);
      assert Offered(s', id) == Offered(s, id);
    }
  }

  lemma {:induction false} TakeKeepsStream(sub: Subscriber, history: seq<Record>, offered: nat)
    requires sub.queue != [] && StreamInv(sub, history, offered)
    ensures StreamInv(sub.(queue := sub.queue[1..], delivered := sub.delivered + [sub.queue[0]]), history, offered)
  {
    assert sub.delivered + [sub.queue[0]] + sub.queue[1..] == sub.Stream();
  }

  lemma {:induction false} TakeKeepsOffered(s: Sys, taker: nat, id: nat)
    requires Enabled(s, Take(taker)) && id < |s.subs|
    ensures Offered(Apply(s, Take(taker)), id) == Offered(s, id)
  {
    assert Pending(Apply(s, Take(taker)), id) == Pending(s, id);
  }

  lemma {:induction false} TakeKeepsOne(s: Sys, taker: nat, id: nat)
    requires Enabled(s, Take(taker)) && id < |s.subs| && SubscriberInv(s, id)
    ensures SubscriberInv(Apply(s, Take(taker)), id)
  {
    TakeKeepsOffered(s, taker, id);
    if id == taker {
      TakeKeepsStream(s.subs[id], s.history, Offered(s, id));
    }
  }

  lemma {:induction false} TakeKeepsInv(s: Sys, taker: nat)
    requires Inv(s) && Enabled(s, Take(taker))
    ensures Inv(Apply(s, Take(taker)))
  {
    forall id | 0 <= id < |s.subs| ensures SubscriberInv(Apply(s, Take(taker)), id) {
      assert SubscriberInv(s, id);
      TakeKeepsOne(s, taker, id);
    }
  }

  lemma {:induction false} ActionKeepsInv(s: Sys, a: Action)
    requires Inv(s) && Enabled(s, a)
    ensures Inv(Apply(s, a))
  {
    match a
    case Subscribe => SubscribeKeepsInv(s);
    case Unsubscribe(id) => UnsubscribeKeepsInv(s, id);
    case BeginPublish(_) => BeginKeepsInv(s, a);
    case BeginEvent(_) => BeginKeepsInv(s, a);
    case Offer => OfferKeepsInv(s);
    case EndPublish => EndKeepsInv(s);
    case Take(id) => TakeKeepsInv(s, id);
  }

  lemma {:induction false} RunKeepsInv(s: Sys, actions: seq<Action>)
    requires Inv(s) && Schedulable(s, actions)
    ensures Inv(Run(s, actions))
    decreases |actions|
  {
    if actions != [] {
      ActionKeepsInv(s, actions[0]);
      RunKeepsInv(Apply(s, actions[0]), actions[1..]);
    }
  }

  // --------------------------------------------------------------------------------------------
  // What every interleaving guarantees

  /** A stream is a subsequence of the history after the subscriber joined: in order, and nothing
      in it twice. */
  ghost predicate SubsequenceFrom(stream: seq<Record>, history: seq<Record>, joined: nat) {
    exists picked: seq<nat> ::
      && |picked| == |stream|
      && Increasing(picked)
      && forall k :: 0 <= k < |picked| ==>
           joined <= picked[k] < |history| && stream[k] == history[picked[k]]
  }

  lemma {:induction false} StreamsAreSubsequences(actions: seq<Action>, id: nat)
    requires Schedulable(Start(), actions)
    requires id < |Run(Start(), actions).subs|
    ensures var s := Run(Start(), actions);
            SubsequenceFrom(s.subs[id].Stream(), s.history, s.subs[id].joined)
  {
    RunKeepsInv(Start(), actions);
    var s := Run(Start(), actions);
    assert SubscriberInv(s, id);
  }

  /** `latest` is the newest telemetry there was, and every initial record the newest there was when
      its subscriber joined; neither is ever a reply. */
  lemma {:induction false} LatestIsTheNewestTelemetry(actions: seq<Action>)
    requires Schedulable(Start(), actions)
    ensures var s := Run(Start(), actions);
            && s.latest == LastTelemetry(s.history)
            && (s.latest.Some? ==> s.latest.value.Telemetry?)
            && forall id :: 0 <= id < |s.subs| ==>
                 && s.subs[id].joined <= |s.history|
                 && s.subs[id].initial == LastTelemetry(s.history[..s.subs[id].joined])
                 && (s.subs[id].initial.Some? ==> s.subs[id].initial.value.Telemetry?)
  {
    RunKeepsInv(Start(), actions);
    var s := Run(Start(), actions);
    forall id | 0 <= id < |s.subs|
      ensures s.subs[id].joined <= |s.history|
      ensures s.subs[id].initial == LastTelemetry(s.history[..s.subs[id].joined])
      ensures s.subs[id].initial.Some? ==> s.subs[id].initial.value.Telemetry?
    {
      assert SubscriberInv(s, id);
    }
  }

  lemma {:induction false} NewestThenRest<T>(before: seq<T>, after: seq<T>)
    ensures before != [] ==> (before + after)[|before| - 1..] == [before[|before| - 1]] + after
    ensures before == [] ==> (before + after)[0..] == [] + after
  {
  }

  lemma {:induction false} SuffixHasNoGap(history: seq<Record>, joined: nat, offered: nat)
    requires joined <= offered <= |history|
    ensures var all := TelemetryOf(history[..offered]);
            var before := |TelemetryOf(history[..joined])|;
            var initial := LastTelemetry(history[..joined]);
            var shown := (if initial.Some? then [initial.value] else []) + TelemetryOf(history[joined..offered]);
            && before <= |all|
            && shown == all[(if before == 0 then 0 else before - 1)..]
  {
    assert history[..offered] == history[..joined] + history[joined..offered];
    TelemetryOfConcat(history[..joined], history[joined..offered]);
    NewestThenRest(TelemetryOf(history[..joined]), TelemetryOf(history[joined..offered]));
  }

  lemma {:induction false} WholeStreamHasNoGap(sub: Subscriber, history: seq<Record>, offered: nat)
    requires StreamInv(sub, history, offered) && !sub.dropped
    ensures var all := TelemetryOf(history[..offered]);
            var before := |TelemetryOf(history[..sub.joined])|;
            var shown := (if sub.initial.Some? then [sub.initial.value] else []) + TelemetryOf(sub.Stream());
            && before <= |all|
            && shown == all[(if before == 0 then 0 else before - 1)..]
  {
    SuffixHasNoGap(history, sub.joined, offered);
  }

  /** A subscriber whose queue never overflowed has been shown, counting the record it was handed on
      joining, a gap-free run of the telemetry history: everything from the newest record at the
      time it joined to the last one offered to it. */
  lemma {:induction false} WithoutOverflowTelemetryHasNoGap(actions: seq<Action>, id: nat)
    requires Schedulable(Start(), actions)
    requires id < |Run(Start(), actions).subs|
    requires !Run(Start(), actions).subs[id].dropped
    ensures var s := Run(Start(), actions);
            s.subs[id].joined <= Offered(s, id) <= |s.history|
    ensures var s := Run(Start(), actions);
            var sub := s.subs[id];
            var all := TelemetryOf(s.history[..Offered(s, id)]);
            var before := |TelemetryOf(s.history[..sub.joined])|;
            var shown := (if sub.initial.Some? then [sub.initial.value] else []) + TelemetryOf(sub.Stream());
            && before <= |all|
            && shown == all[(if before == 0 then 0 else before - 1)..]
    ensures var s := Run(Start(), actions);
            s.lock.Free? && s.subs[id].left.None? ==> Offered(s, id) == |s.history|
  {
    RunKeepsInv(Start(), actions);
    var s := Run(Start(), actions);
    assert SubscriberInv(s, id);
    WholeStreamHasNoGap(s.subs[id], s.history, Offered(s, id));
  }

  // --------------------------------------------------------------------------------------------
  // What is lost

  /** The position of the record an action offers to a subscriber whose queue is full. */
  function FullOffer(s: Sys, a: Action, id: nat): (lost: seq<nat>)
    requires Enabled(s, a)
  {
    if a.Offer? && s.clients[s.lock.next] == id && |s.subs[id].queue| == QUEUE_MAX then [|s.history| - 1] else []
  }

  /** The positions of all the records a run offers to a subscriber while its queue holds 256. */
  function FullOffers(s: Sys, actions: seq<Action>, id: nat): (lost: seq<nat>)
    requires Schedulable(s, actions)
    decreases |actions|
  {
    if actions == [] then []
    else FullOffer(s, actions[0], id) + FullOffers(Apply(s, actions[0]), actions[1..], id)
  }

  /** Everything offered to a subscriber since it joined was either kept or lost, never both. */
  ghost predicate Parted(sub: Subscriber, lost: seq<nat>, offered: nat) {
    && Increasing(lost)
    && |sub.picked| + |lost| == offered - sub.joined
    && (forall p :: p in lost ==> sub.joined <= p < offered && p !in sub.picked)
    && (forall p :: sub.joined <= p < offered ==> p in sub.picked || p in lost)
    && (sub.dropped <==> lost != [])
  }

  ghost predicate Accounted(s: Sys, id: nat, lost: seq<nat>) {
    if id < |s.subs| then Parted(s.subs[id], lost, Offered(s, id)) else lost == []
  }

  lemma {:induction false} OfferedOtherwise(s: Sys, a: Action, id: nat)
    requires Inv(s) && Enabled(s, a) && !a.Offer? && id < |s.subs|
    ensures Offered(Apply(s, a), id) == Offered(s, id)
  {
    assert SubscriberInv(s, id);
    match a
    case BeginPublish(_) => BeginKeepsOffered(s, a, id);
    case BeginEvent(_) => BeginKeepsOffered(s, a, id);
    case Take(taker) => TakeKeepsOffered(s, taker, id);
    case _ =>
  }

  lemma {:induction false} LostOne(sub: Subscriber, lost: seq<nat>, position: nat)
    requires Parted(sub, lost, position) && sub.joined <= position
    requires forall k :: 0 <= k < |sub.picked| ==> sub.picked[k] < position
    ensures Parted(sub.(dropped := true), lost + [position], position + 1)
  {
    var more := lost + [position];
    assert position !in sub.picked;
    assert more[|lost|] == position;
    assert forall p :: p in more <==> p in lost || p == position;
    assert forall k :: 0 <= k < |lost| ==> lost[k] in lost;
    IncreasingAppend(lost, position);
  }

  lemma {:induction false} KeptOne(sub: Subscriber, lost: seq<nat>, queue: seq<Record>, position: nat)
    requires Parted(sub, lost, position) && sub.joined <= position
    ensures Parted(sub.(queue := queue, picked := sub.picked + [position]), lost, position + 1)
  {
    var picked := sub.picked + [position];
    assert picked[|sub.picked|] == position;
    assert forall p :: p in picked <==> p in sub.picked || p == position;
  }

  lemma {:induction false} OfferParts(sub: Subscriber, history: seq<Record>, lost: seq<nat>, record: Record, position: nat)
    requires Parted(sub, lost, position) && StreamInv(sub, history, position)
    ensures Parted(OfferTo(sub, record, position),
                   lost + (if |sub.queue| == QUEUE_MAX then [position] else []), position + 1)
  {
    assert lost + [] == lost;
    if |sub.queue| == QUEUE_MAX {
      LostOne(sub, lost, position);
    } else {
      KeptOne(sub, lost, sub.queue + [record], position);
    }
  }

  lemma {:induction false} OfferAccounts(s: Sys, id: nat, lost: seq<nat>)
    requires id < |s.subs| && ClientsInv(s) && SubscriberInv(s, id) && Enabled(s, Offer)
    requires Parted(s.subs[id], lost, Offered(s, id))
    ensures Parted(Apply(s, Offer).subs[id], lost + FullOffer(s, Offer, id), Offered(Apply(s, Offer), id))
  {
    OfferedAfterOffer(s, id);
    var sub' := Apply(s, Offer).subs[id];
    if id == s.clients[s.lock.next] {
      OfferParts(s.subs[id], s.history, lost, s.lock.record, |s.history| - 1);
      assert sub' == OfferTo(s.subs[id], s.lock.record, |s.history| - 1);
    } else {
      assert sub' == s.subs[id] && FullOffer(s, Offer, id) == [];
      assert lost + [] == lost;
    }
  }

  lemma {:induction false} OtherActionAccounts(s: Sys, a: Action, id: nat, lost: seq<nat>)
    requires Inv(s) && Enabled(s, a) && !a.Offer? && Accounted(s, id, lost)
    ensures Accounted(Apply(s, a), id, lost)
  {
    if id < |s.subs| {
      OfferedOtherwise(s, a, id);
      var sub, sub' := s.subs[id], Apply(s, a).subs[id];
      assert sub'.picked == sub.picked && sub'.joined == sub.joined && sub'.dropped == sub.dropped;
    }
  }

  lemma {:induction false} ActionAccounts(s: Sys, a: Action, id: nat, lost: seq<nat>)
    requires Inv(s) && Enabled(s, a) && Accounted(s, id, lost)
    ensures Accounted(Apply(s, a), id, lost + FullOffer(s, a, id))
  {
    assert lost + [] == lost;
    if !a.Offer? {
      OtherActionAccounts(s, a, id, lost);
    } else if id < |s.subs| {
      InvHasClients(s);
      assert SubscriberInv(s, id);
      OfferAccounts(s, id, lost);
    }
  }

  lemma {:induction false} RunAccounts(s: Sys, actions: seq<Action>, id: nat, lost: seq<nat>)
    requires Inv(s) && Schedulable(s, actions) && Accounted(s, id, lost)
    ensures Accounted(Run(s, actions), id, lost + FullOffers(s, actions, id))
    decreases |actions|
  {
    if actions == [] {
      assert lost + [] == lost;
    } else {
      var one, rest := FullOffer(s, actions[0], id), FullOffers(Apply(s, actions[0]), actions[1..], id);
      ActionKeepsInv(s, actions[0]);
      ActionAccounts(s, actions[0], id, lost);
      RunAccounts(Apply(s, actions[0]), actions[1..], id, lost + one);
      assert lost + one + rest == lost + (one + rest);
    }
  }

  lemma {:induction false} StreamIsParted(actions: seq<Action>, id: nat)
    requires Schedulable(Start(), actions)
    requires id < |Run(Start(), actions).subs|
    ensures var s := Run(Start(), actions);
            Parted(s.subs[id], FullOffers(Start(), actions, id), Offered(s, id))
  {
    RunAccounts(Start(), actions, id, []);
    assert [] + FullOffers(Start(), actions, id) == FullOffers(Start(), actions, id);
  }

  /** In every run the records missing from a stream are exactly those offered while its queue held
      256: of everything published from its joining to the last offer, each is in the stream or is one
      of them, and the stream is shorter by their number. */
  lemma {:induction false} OnlyAFullQueueDrops(actions: seq<Action>, id: nat)
    requires Schedulable(Start(), actions)
    requires id < |Run(Start(), actions).subs|
    ensures var s, lost := Run(Start(), actions), FullOffers(Start(), actions, id);
            var sub, offered := s.subs[id], Offered(s, id);
            && |sub.Stream()| == |sub.picked| == offered - sub.joined - |lost|
            && Increasing(sub.picked)
            && (forall k :: 0 <= k < |sub.picked| ==>
                  sub.picked[k] < |s.history| && sub.Stream()[k] == s.history[sub.picked[k]])
            && (forall p :: sub.joined <= p < offered ==> (p in sub.picked <==> p !in lost))
            && (sub.dropped <==> lost != [])
  {
    StreamIsParted(actions, id);
    RunKeepsInv(Start(), actions);
    assert SubscriberInv(Run(Start(), actions), id);
  }
}
