/**
 * Every interleaving of the hub's operations with receiving clients: a publication goes channel by channel, select by
 * select.
 */
module LiveRuns {
  import Runs
  import opened LiveHub

  /** A topic as it was enqueued, and the publication to that subscription that enqueued it. */
  datatype Item = Item(topic: string, at: nat)

  /**
   * A subscription's history: what was published to it, what its client received, and which publications its queue
   * holds.
   */
  datatype Log = Log(published: seq<string>, received: seq<Item>, tags: seq<nat>)

  /** Where the publication holding the mutex has come to: choosing a channel, or between the selects on a full one. */
  datatype Publisher =
    | Idle
    | Choosing(topic: string, todo: set<Id>)
    | FoundFull(topic: string, todo: set<Id>, at: Id)
    | HasDropped(topic: string, todo: set<Id>, at: Id)

  datatype State = State(hub: HubState, publisher: Publisher, logs: map<Id, Log>, panicked: bool)

  datatype Step =
    | Subscribe(shop: string, id: Id)
    | Unsubscribe(id: Id)
    | Publish(shop: string, topic: string)
    | TrySend(id: Id)
    | Drop
    | SendEverything
    | Finish
    | Receive(id: Id)
    | Stop

  function Init(max: nat): State {
    State(HubState(max, map[], 0, false, map[]), Idle, map[], false)
  }

  /** Operations that take the mutex wait for it; a step in its wrong place does not happen. */
  predicate Enabled(s: State, step: Step) {
    match step
    case Subscribe(shop, id) => s.publisher.Idle? && !Refuses(s.hub) && id !in s.hub.channels
    case Unsubscribe(id) => s.publisher.Idle? && IsSubscribed(s.hub, id) && s.hub.n > 0
    case Publish(_, _) => s.publisher.Idle?
    case TrySend(id) => s.publisher.Choosing? && id in s.publisher.todo && id in s.hub.channels && id in s.logs
    case Drop => s.publisher.FoundFull? && s.publisher.at in s.hub.channels && s.publisher.at in s.logs
    case SendEverything => s.publisher.HasDropped? && s.publisher.at in s.hub.channels && s.publisher.at in s.logs
    case Finish => s.publisher.Choosing? && s.publisher.todo == {}
    case Receive(id) => id in s.hub.channels && id in s.logs && s.hub.channels[id].queue != [] && s.logs[id].tags != []
    case Stop => s.publisher.Idle?
  }

  function WithChannel(s: State, id: Id, c: Channel, log: Log): State {
    s.(hub := s.hub.(channels := s.hub.channels[id := c]), logs := s.logs[id := log])
  }

  /** A send on a closed channel panics. */
  function Panicking(s: State, c: Channel): State {
    s.(panicked := s.panicked || c.closed)
  }

  function Apply(s: State, step: Step): State
    requires Enabled(s, step)
  {
    match step
    case Subscribe(shop, id) => s.(hub := Subscribed(s.hub, shop, id), logs := s.logs[id := Log([], [], [])])
    case Unsubscribe(id) => Panicking(s, s.hub.channels[id]).(hub := Unsubscribed(s.hub, id))
    case Publish(shop, topic) => s.(publisher := Choosing(topic, Audience(s.hub.subs, shop)))
    case TrySend(id) =>
      var c, log := s.hub.channels[id], s.logs[id];
      var told := log.(published := log.published + [s.publisher.topic]);
      if |c.queue| < CAPACITY then
        Panicking(WithChannel(s, id, Sent(c, s.publisher.topic), told.(tags := told.tags + [|log.published|])), c)
          .(publisher := Choosing(s.publisher.topic, s.publisher.todo - {id}))
      else
        Panicking(WithChannel(s, id, c, told), c).(publisher := FoundFull(s.publisher.topic, s.publisher.todo, id))
    case Drop =>
      var c, log := s.hub.channels[s.publisher.at], s.logs[s.publisher.at];
      WithChannel(s, s.publisher.at, OldestDropped(c), log.(tags := if log.tags == [] then [] else log.tags[1..]))
        .(publisher := HasDropped(s.publisher.topic, s.publisher.todo, s.publisher.at))
    case SendEverything =>
      var c, log := s.hub.channels[s.publisher.at], s.logs[s.publisher.at];
      var sent := if |c.queue| < CAPACITY && log.published != []
                  then Panicking(WithChannel(s, s.publisher.at, Sent(c, EVERYTHING),
                                             log.(tags := log.tags + [|log.published| - 1])), c)
                  else s;
      sent.(publisher := Choosing(s.publisher.topic, s.publisher.todo - {s.publisher.at}))
    case Finish => s.(publisher := Idle)
    case Receive(id) =>
      var c, log := s.hub.channels[id], s.logs[id];
      WithChannel(s, id, c.(queue := c.queue[1..]),
                  log.(received := log.received + [Item(c.queue[0], log.tags[0])], tags := log.tags[1..]))
    case Stop =>
      var twice := exists id :: id in Live(s.hub.subs) && id in s.hub.channels && s.hub.channels[id].closed;
      s.(hub := Stopped(s.hub), panicked := s.panicked || twice)
  }

  /** Steps that cannot happen are passed over. */
  function Next(s: State, step: Step): State {
    if Enabled(s, step) then Apply(s, step) else s
  }

  function Run(s: State, steps: seq<Step>): State {
    Runs.Run(Next, s, steps)
  }

  // ---------- One subscription's history

  /** What a client has received or still will, in order. */
  function Items(c: Channel, log: Log): (items: seq<Item>)
    requires |c.queue| == |log.tags|
    ensures |items| == |log.received| + |c.queue|
  {
    log.received + seq(|c.queue|, k requires 0 <= k < |c.queue| => Item(c.queue[k], log.tags[k]))
  }

  /** An item makes up for publication p: it is that publication's topic, or an "everything" enqueued at or after it. */
  predicate Covers(item: Item, log: Log, p: nat)
    requires p < |log.published|
  {
    (item.at == p && item.topic == log.published[p]) || (item.topic == EVERYTHING && item.at >= p)
  }

  ghost predicate Covered(c: Channel, log: Log, p: nat)
    requires |c.queue| == |log.tags| && p < |log.published|
  {
    exists k :: 0 <= k < |Items(c, log)| && Covers(Items(c, log)[k], log, p)
  }

  /** Nothing is made up: each item says its publication's topic, or "everything". */
  predicate Genuine(items: seq<Item>, published: seq<string>) {
    forall k :: 0 <= k < |items| ==>
      items[k].at < |published| && (items[k].topic == published[items[k].at] || items[k].topic == EVERYTHING)
  }

  /** Topics stand in the order of their publications, at most one for each. */
  predicate InOrder(items: seq<Item>, below: nat) {
    (forall k :: 0 <= k < |items| ==> items[k].at < below) &&
    forall j, k :: 0 <= j < k < |items| ==> items[j].at < items[k].at
  }

  /** Where the publisher stands with respect to one channel. */
  datatype Stage = Settled | Full | Dropped

  function StageOf(p: Publisher, id: Id): Stage {
    match p
    case FoundFull(_, _, at) => if at == id then Full else Settled
    case HasDropped(_, _, at) => if at == id then Dropped else Settled
    case _ => Settled
  }

  /**
   * Nothing published is lost for good, except while the publisher is between dropping the oldest and saying
   * "everything".
   */
  ghost predicate HistoryKept(c: Channel, log: Log, stage: Stage) {
    |c.queue| == |log.tags| && |c.queue| <= CAPACITY && Genuine(Items(c, log), log.published) &&
    match stage
    case Settled => InOrder(Items(c, log), |log.published|) &&
      forall p: nat :: p < |log.published| ==> Covered(c, log, p)
    case Full =>
      |log.published| > 0 && InOrder(Items(c, log), |log.published| - 1) &&
      forall p: nat :: p < |log.published| - 1 ==> Covered(c, log, p)
    case Dropped => |log.published| > 0 && |c.queue| < CAPACITY && InOrder(Items(c, log), |log.published| - 1)
  }

  lemma CoveredStill(c: Channel, log: Log, c': Channel, log': Log, p: nat)
    requires |c.queue| == |log.tags| && |c'.queue| == |log'.tags| && p < |log.published|
    requires Items(c, log) <= Items(c', log') && log.published <= log'.published
    requires Covered(c, log, p)
    ensures Covered(c', log', p)
  {
    var k :| 0 <= k < |Items(c, log)| && Covers(Items(c, log)[k], log, p);
    assert Covers(Items(c', log')[k], log', p);
  }

  /** Something enqueued by publication |published|-1: the items grow by it. */
  lemma Enqueued(c: Channel, log: Log, topic: string, tag: nat)
    requires |c.queue| == |log.tags|
    ensures Items(c.(queue := c.queue + [topic]), log.(tags := log.tags + [tag])) == Items(c, log) + [Item(topic, tag)]
  {}

  lemma SendKeeps(c: Channel, log: Log, topic: string)
    requires HistoryKept(c, log, Settled) && |c.queue| < CAPACITY
    ensures HistoryKept(Sent(c, topic),
                        log.(published := log.published + [topic], tags := log.tags + [|log.published|]), Settled)
  {
    hide Items, Covered;
    var n := |log.published|;
    var log' := log.(published := log.published + [topic], tags := log.tags + [n]);
    var c' := Sent(c, topic);
    SameItems(c, log, log.published + [topic]);
    Enqueued(c, log.(published := log.published + [topic]), topic, n);
    forall p: nat | p < n + 1 ensures Covered(c', log', p) {
      if p < n {
        CoveredStill(c, log, c', log', p);
      } else {
        CoversLast(c', log', Item(topic, n), p);
      }
    }
  }

  lemma SameItems(c: Channel, log: Log, published: seq<string>)
    requires |c.queue| == |log.tags|
    ensures Items(c, log.(published := published)) == Items(c, log)
  {}

  lemma CoversLast(c: Channel, log: Log, item: Item, p: nat)
    requires |c.queue| == |log.tags| > 0 && p < |log.published|
    requires Items(c, log)[|Items(c, log)| - 1] == item && Covers(item, log, p)
    ensures Covered(c, log, p)
  {}

  lemma FullKeeps(c: Channel, log: Log, topic: string)
    requires HistoryKept(c, log, Settled)
    ensures HistoryKept(c, log.(published := log.published + [topic]), Full)
  {
    hide Items, Covered;
    var log' := log.(published := log.published + [topic]);
    SameItems(c, log, log'.published);
    forall p: nat | p < |log.published| ensures Covered(c, log', p) {
      CoveredStill(c, log, c, log', p);
    }
  }

  lemma DropKeeps(c: Channel, log: Log)
    requires HistoryKept(c, log, Full)
    ensures HistoryKept(OldestDropped(c), log.(tags := if log.tags == [] then [] else log.tags[1..]), Dropped)
  {
    hide Covered;
    if c.queue != [] {
      var n := |log.received|;
      var before := Items(c, log);
      var after := Items(OldestDropped(c), log.(tags := log.tags[1..]));
      assert forall k :: 0 <= k < |after| ==> after[k] == before[if k < n then k else k + 1];
    }
  }

  lemma EverythingKeeps(c: Channel, log: Log)
    requires HistoryKept(c, log, Dropped)
    ensures HistoryKept(Sent(c, EVERYTHING), log.(tags := log.tags + [|log.published| - 1]), Settled)
  {
    hide Items, Covered;
    var last := |log.published| - 1;
    var c', log' := Sent(c, EVERYTHING), log.(tags := log.tags + [last]);
    Enqueued(c, log, EVERYTHING, last);
    forall p: nat | p <= last ensures Covered(c', log', p) {
      CoversLast(c', log', Item(EVERYTHING, last), p);
    }
  }

  lemma ReceiveKeeps(c: Channel, log: Log, stage: Stage)
    requires HistoryKept(c, log, stage) && c.queue != []
    ensures HistoryKept(c.(queue := c.queue[1..]),
                        log.(received := log.received + [Item(c.queue[0], log.tags[0])], tags := log.tags[1..]), stage)
  {
    var c' := c.(queue := c.queue[1..]);
    var log' := log.(received := log.received + [Item(c.queue[0], log.tags[0])], tags := log.tags[1..]);
    assert Items(c', log') == Items(c, log);
    hide Items, Covered;
    forall p: nat | p < |log.published| && Covered(c, log, p) ensures Covered(c', log', p) {
      CoveredStill(c, log, c', log', p);
    }
  }

  // ---------- Every run

  /** What holds in every reachable state. */
  ghost predicate Inv(s: State) {
    Consistent(s.hub) && !s.panicked && s.logs.Keys == s.hub.channels.Keys &&
    (forall id :: id in s.hub.channels ==> HistoryKept(s.hub.channels[id], s.logs[id], StageOf(s.publisher, id))) &&
    match s.publisher
    case Idle => true
    case Choosing(_, todo) => todo <= Live(s.hub.subs)
    case FoundFull(_, todo, at) => todo <= Live(s.hub.subs) && at in todo
    case HasDropped(_, todo, at) => todo <= Live(s.hub.subs) && at in todo
  }

  /** One channel changes, its shop and whether it is open do not. */
  lemma ChannelChanged(s: State, id: Id, c: Channel, log: Log, publisher: Publisher)
    requires Inv(s) && id in s.hub.channels
    requires c.shop == s.hub.channels[id].shop && c.closed == s.hub.channels[id].closed
    requires HistoryKept(c, log, StageOf(publisher, id))
    requires forall other :: other != id ==> StageOf(publisher, other) == StageOf(s.publisher, other)
    requires match publisher
             case Idle => s.publisher.Idle?
             case Choosing(_, todo) => todo <= Live(s.hub.subs)
             case FoundFull(_, todo, at) => todo <= Live(s.hub.subs) && at in todo
             case HasDropped(_, todo, at) => todo <= Live(s.hub.subs) && at in todo
    ensures Inv(WithChannel(s, id, c, log).(publisher := publisher))
  {
    hide Consistent, Live, StageOf;
    ChannelsConsistent(s.hub, s.hub.channels[id := c]);
  }

  lemma SubscribeKeepsInv(s: State, shop: string, id: Id)
    requires Inv(s) && Enabled(s, Subscribe(shop, id))
    ensures Inv(Apply(s, Subscribe(shop, id)))
  {
    hide Consistent, Live, Covered;
    SubscribedConsistent(s.hub, shop, id);
    var s' := Apply(s, Subscribe(shop, id));
    assert HistoryKept(s'.hub.channels[id], s'.logs[id], Settled);
    hide HistoryKept;
    assert forall other :: other in s.hub.channels ==>
      s'.hub.channels[other] == s.hub.channels[other] && s'.logs[other] == s.logs[other];
  }

  lemma UnsubscribeKeepsInv(s: State, id: Id)
    requires Inv(s) && Enabled(s, Unsubscribe(id))
    ensures Inv(Apply(s, Unsubscribe(id)))
  {
    hide Consistent, Live, Covered;
    UnsubscribedConsistent(s.hub, id);
    ClosingKeepsHistory(s.hub.channels[id], s.logs[id], Settled);
    hide HistoryKept;
    var s' := Apply(s, Unsubscribe(id));
    assert forall other :: other in s.hub.channels && other != id ==> s'.hub.channels[other] == s.hub.channels[other];
  }

  lemma ClosingKeepsHistory(c: Channel, log: Log, stage: Stage)
    requires HistoryKept(c, log, stage)
    ensures HistoryKept(c.(closed := true), log, stage)
  {
    hide Covered;
    assert Items(c.(closed := true), log) == Items(c, log);
    forall p: nat | p < |log.published| && Covered(c, log, p) ensures Covered(c.(closed := true), log, p) {
      CoveredStill(c, log, c.(closed := true), log, p);
    }
  }

  lemma StopKeepsInv(s: State)
    requires Inv(s) && Enabled(s, Step.Stop)
    ensures Inv(Apply(s, Step.Stop))
  {
    hide Covered, HistoryKept;
    StoppedConsistent(s.hub);
    forall id | id in s.hub.channels ensures HistoryKept(Stopped(s.hub).channels[id], s.logs[id], Settled) {
      ClosingKeepsHistory(s.hub.channels[id], s.logs[id], Settled);
    }
  }

  /** A live channel is open, so sending on it cannot panic. */
  lemma LiveIsOpen(s: State, id: Id)
    requires Consistent(s.hub) && id in Live(s.hub.subs)
    ensures id in s.hub.channels && !s.hub.channels[id].closed
  {}

  lemma TrySendKeepsInv(s: State, id: Id)
    requires Inv(s) && Enabled(s, TrySend(id))
    ensures Inv(Apply(s, TrySend(id)))
  {
    hide Consistent, Live, HistoryKept;
    LiveIsOpen(s, id);
    var c, log, topic := s.hub.channels[id], s.logs[id], s.publisher.topic;
    if |c.queue| < CAPACITY {
      SendKeeps(c, log, topic);
      ChannelChanged(s, id, Sent(c, topic),
                     log.(published := log.published + [topic], tags := log.tags + [|log.published|]),
                     Choosing(topic, s.publisher.todo - {id}));
    } else {
      FullKeeps(c, log, topic);
      ChannelChanged(s, id, c, log.(published := log.published + [topic]), FoundFull(topic, s.publisher.todo, id));
    }
  }

  lemma DropKeepsInv(s: State)
    requires Inv(s) && Enabled(s, Drop)
    ensures Inv(Apply(s, Drop))
  {
    hide Consistent, Live, HistoryKept;
    var id := s.publisher.at;
    LiveIsOpen(s, id);
    var c, log := s.hub.channels[id], s.logs[id];
    DropKeeps(c, log);
    ChannelChanged(s, id, OldestDropped(c), log.(tags := if log.tags == [] then [] else log.tags[1..]),
                   HasDropped(s.publisher.topic, s.publisher.todo, id));
  }

  /** The third select always finds room: the mutex keeps other senders away. */
  lemma RoomForEverything(s: State)
    requires Inv(s) && s.publisher.HasDropped?
    ensures Enabled(s, SendEverything) && |s.hub.channels[s.publisher.at].queue| < CAPACITY
    ensures s.logs[s.publisher.at].published != [] && !s.hub.channels[s.publisher.at].closed
  {
    hide Covered, Items;
    LiveIsOpen(s, s.publisher.at);
  }

  lemma SendEverythingKeepsInv(s: State)
    requires Inv(s) && Enabled(s, SendEverything)
    ensures Inv(Apply(s, SendEverything))
  {
    hide Consistent, Live, HistoryKept;
    var id := s.publisher.at;
    LiveIsOpen(s, id);
    RoomForEverything(s);
    var c, log := s.hub.channels[id], s.logs[id];
    EverythingKeeps(c, log);
    ChannelChanged(s, id, Sent(c, EVERYTHING), log.(tags := log.tags + [|log.published| - 1]),
                   Choosing(s.publisher.topic, s.publisher.todo - {id}));
  }

  lemma ReceiveKeepsInv(s: State, id: Id)
    requires Inv(s) && Enabled(s, Receive(id))
    ensures Inv(Apply(s, Receive(id)))
  {
    hide Consistent, Live, HistoryKept, StageOf;
    var c, log := s.hub.channels[id], s.logs[id];
    ReceiveKeeps(c, log, StageOf(s.publisher, id));
    ChannelChanged(s, id, c.(queue := c.queue[1..]),
                   log.(received := log.received + [Item(c.queue[0], log.tags[0])], tags := log.tags[1..]),
                   s.publisher);
  }

  lemma PublishKeepsInv(s: State, shop: string, topic: string)
    requires Inv(s) && Enabled(s, Publish(shop, topic))
    ensures Inv(Apply(s, Publish(shop, topic)))
  {
    hide Consistent, HistoryKept, Live, Audience;
    AudienceLive(s.hub, shop);
  }

  lemma StepKeepsInv(s: State, step: Step)
    requires Inv(s) && Enabled(s, step)
    ensures Inv(Apply(s, step))
  {
    hide Inv, Apply;
    match step
    case Subscribe(shop, id) => SubscribeKeepsInv(s, shop, id);
    case Unsubscribe(id) => UnsubscribeKeepsInv(s, id);
    case Publish(shop, topic) => PublishKeepsInv(s, shop, topic);
    case TrySend(id) => TrySendKeepsInv(s, id);
    case Drop => DropKeepsInv(s);
    case SendEverything => SendEverythingKeepsInv(s);
    case Finish => FinishKeepsInv(s);
    case Receive(id) => ReceiveKeepsInv(s, id);
    case Stop => StopKeepsInv(s);
  }

  lemma FinishKeepsInv(s: State)
    requires Inv(s) && Enabled(s, Finish)
    ensures Inv(Apply(s, Finish))
  {
    hide Consistent, HistoryKept, Live;
  }

  lemma {:induction false} EveryRun(max: nat, steps: seq<Step>)
    ensures Inv(Run(Init(max), steps))
  {
    hide Inv, Apply, Enabled;
    if steps == [] {
      InitInv(max);
    } else {
      EveryRun(max, steps[..|steps| - 1]);
      var before := Run(Init(max), steps[..|steps| - 1]);
      if Enabled(before, steps[|steps| - 1]) {
        StepKeepsInv(before, steps[|steps| - 1]);
      }
    }
  }

  lemma InitInv(max: nat)
    ensures Inv(Init(max))
  {
    assert Live(map[]) == {};
  }

  // ---------- What clients may count on

  /**
   * Every topic published to a subscription is received or still queued, or an "everything" enqueued at or after it
   * is.
   */
  lemma NothingMissed(max: nat, steps: seq<Step>, id: Id, p: nat)
    requires var s := Run(Init(max), steps);
             id in s.logs && id in s.hub.channels && p < |s.logs[id].published| && StageOf(s.publisher, id) == Settled
    ensures var s := Run(Init(max), steps);
            |s.hub.channels[id].queue| == |s.logs[id].tags| && Covered(s.hub.channels[id], s.logs[id], p)
  {
    hide Apply, Enabled, Consistent, Covered;
    EveryRun(max, steps);
  }

  /** What being covered comes to: a client has received the topic or a later "*", or its queue holds one. */
  lemma CoveredMeans(c: Channel, log: Log, p: nat)
    requires |c.queue| == |log.tags| && p < |log.published| && Covered(c, log, p)
    ensures var topic := log.published[p];
            (exists k :: 0 <= k < |log.received| &&
                         ((log.received[k].topic == topic && log.received[k].at == p) ||
                          (log.received[k].topic == "*" && log.received[k].at >= p))) ||
            exists k :: 0 <= k < |c.queue| &&
                        ((c.queue[k] == topic && log.tags[k] == p) || (c.queue[k] == "*" && log.tags[k] >= p))
  {
    var k :| 0 <= k < |Items(c, log)| && Covers(Items(c, log)[k], log, p);
    var n := |log.received|;
    if k < n {
      assert log.received[k] == Items(c, log)[k];
    } else {
      assert Items(c, log)[k] == Item(c.queue[k - n], log.tags[k - n]);
    }
  }

  /** The publication has this channel still before it. */
  predicate Ahead(p: Publisher, id: Id, topic: string) {
    match p
    case Idle => false
    case Choosing(t, todo) => t == topic && id in todo
    case FoundFull(t, todo, at) => t == topic && id in todo && at != id
    case HasDropped(t, todo, at) => t == topic && id in todo && at != id
  }

  /** A topic that was due to a subscription stands right after what was published to it before, or is still to come. */
  ghost predicate Due(s: State, id: Id, topic: string, before: seq<string>) {
    id in s.logs && (before + [topic] <= s.logs[id].published ||
      (Ahead(s.publisher, id, topic) && s.logs[id].published == before))
  }

  lemma StepKeepsDue(s: State, step: Step, id: Id, topic: string, before: seq<string>)
    requires Inv(s) && Enabled(s, step) && Due(s, id, topic, before)
    ensures Due(Apply(s, step), id, topic, before)
  {
    hide Consistent, HistoryKept, Live, Subscribed, Unsubscribed, Stopped, Audience, Refuses, IsSubscribed;
  }

  lemma {:induction false} RunKeepsDue(s: State, steps: seq<Step>, id: Id, topic: string, before: seq<string>)
    requires Inv(s) && Due(s, id, topic, before)
    ensures Inv(Run(s, steps)) && Due(Run(s, steps), id, topic, before)
  {
    hide Inv, Due, Apply, Enabled;
    if steps != [] {
      var earlier := Run(s, steps[..|steps| - 1]);
      RunKeepsDue(s, steps[..|steps| - 1], id, topic, before);
      if Enabled(earlier, steps[|steps| - 1]) {
        StepKeepsInv(earlier, steps[|steps| - 1]);
        StepKeepsDue(earlier, steps[|steps| - 1], id, topic, before);
      }
    }
  }

  /** Whatever happens meanwhile, a publication reaches every subscription it goes to, and is made up for there. */
  lemma PublicationReaches(max: nat, before: seq<Step>, shop: string, topic: string, after: seq<Step>, id: Id)
    requires var s := Run(Init(max), before);
             s.publisher.Idle? && id in Audience(s.hub.subs, shop) &&
               Run(Apply(s, Publish(shop, topic)), after).publisher.Idle?
    ensures var s := Run(Init(max), before);
            var s' := Run(Apply(s, Publish(shop, topic)), after);
            id in s.logs && id in s'.logs && s.logs[id].published + [topic] <= s'.logs[id].published &&
            id in s'.hub.channels && |s'.hub.channels[id].queue| == |s'.logs[id].tags| &&
            Covered(s'.hub.channels[id], s'.logs[id], |s.logs[id].published|)
  {
    var s := Run(Init(max), before);
    EveryRun(max, before);
    AudienceLive(s.hub, shop);
    StepKeepsInv(s, Publish(shop, topic));
    var start := Apply(s, Publish(shop, topic));
    hide Runs.Run, Consistent, Live, Audience, Covered;
    RunKeepsDue(start, after, id, topic, s.logs[id].published);
  }

  /** What a client gets is genuine and in the order of the publications, none twice. */
  lemma ReceivedInOrder(max: nat, steps: seq<Step>, id: Id)
    requires id in Run(Init(max), steps).logs
    ensures var log := Run(Init(max), steps).logs[id];
            InOrder(log.received, |log.published|) && Genuine(log.received, log.published)
    ensures var log := Run(Init(max), steps).logs[id];
            (forall j, k :: 0 <= j < k < |log.received| ==> log.received[j].at < log.received[k].at) &&
            forall k :: 0 <= k < |log.received| ==>
              log.received[k].at < |log.published| &&
                (log.received[k].topic == log.published[log.received[k].at] || log.received[k].topic == "*")
  {
    hide Apply, Enabled, Consistent, Covered;
    EveryRun(max, steps);
    var s := Run(Init(max), steps);
    var items := Items(s.hub.channels[id], s.logs[id]);
    assert s.logs[id].received == items[..|s.logs[id].received|];
  }

  /** A step that sends on a closed channel, or closes one again, panics, and nothing undoes a panic. */
  lemma ClosedPanics(s: State, step: Step)
    requires Enabled(s, step)
    ensures s.panicked ==> Apply(s, step).panicked
    ensures (step.TrySend? || step.Unsubscribe?) && s.hub.channels[step.id].closed ==> Apply(s, step).panicked
    ensures step.SendEverything? && s.hub.channels[s.publisher.at].closed &&
            |s.hub.channels[s.publisher.at].queue| < 32 && s.logs[s.publisher.at].published != [] ==>
              Apply(s, step).panicked
    ensures step.Stop? && (exists id :: id in Live(s.hub.subs) && id in s.hub.channels && s.hub.channels[id].closed) ==>
              Apply(s, step).panicked
  {
    hide Live;
  }

  /** The bounds and the panics, in every reachable state. */
  lemma BoundsHold(max: nat, steps: seq<Step>)
    ensures var s := Run(Init(max), steps);
            !s.panicked && s.hub.n == |Live(s.hub.subs)| && s.hub.n <= s.hub.max &&
            forall id :: id in s.hub.channels ==>
              |s.hub.channels[id].queue| <= CAPACITY && (s.hub.channels[id].closed <==> id !in Live(s.hub.subs))
  {
    hide Apply, Enabled, HistoryKept;
    EveryRun(max, steps);
  }

  // ---------- A publication nothing interrupts is the one step the hub's method promises

  predicate PublishersOwn(steps: seq<Step>) {
    forall step :: step in steps ==> step.TrySend? || step.Drop? || step.SendEverything? || step.Finish?
  }

  /**
   * Where a publication that nothing interrupts has come to: the channels it has done with have been offered the
   * topic.
   */
  ghost predicate Midway(from: HubState, audience: set<Id>, topic: string, s: State) {
    match s.publisher
    case Idle => s.hub == from.(channels := OfferedTo(from.channels, audience, topic))
    case Choosing(t, todo) => t == topic && todo <= audience && s.hub == Offering(from, audience - todo, topic)
    case FoundFull(t, todo, at) =>
      t == topic && at in todo && todo <= audience && s.hub == Offering(from, audience - todo, topic) &&
      at in from.channels && |from.channels[at].queue| >= CAPACITY
    case HasDropped(t, todo, at) =>
      t == topic && at in todo && todo <= audience && at in from.channels && |from.channels[at].queue| >= CAPACITY &&
      var half := Offering(from, audience - todo, topic);
      s.hub == half.(channels := half.channels[at := OldestDropped(from.channels[at])])
  }

  function Offering(from: HubState, done: set<Id>, topic: string): HubState {
    from.(channels := OfferedTo(from.channels, done, topic))
  }

  lemma OfferedNext(from: HubState, audience: set<Id>, todo: set<Id>, topic: string, id: Id)
    requires id in todo && todo <= audience && id in from.channels
    ensures var half := Offering(from, audience - todo, topic);
            id in half.channels && half.channels[id] == from.channels[id] &&
            Offering(from, audience - (todo - {id}), topic) ==
            half.(channels := half.channels[id := Offered(from.channels[id], topic)])
  {
    hide Offered;
    var half, next := Offering(from, audience - todo, topic), Offering(from, audience - (todo - {id}), topic);
    assert next.channels == half.channels[id := Offered(from.channels[id], topic)];
  }

  lemma StepKeepsMidway(from: HubState, audience: set<Id>, topic: string, s: State, step: Step)
    requires Inv(s) && Midway(from, audience, topic, s) && Enabled(s, step) && PublishersOwn([step])
    ensures Midway(from, audience, topic, Apply(s, step))
  {
    hide Consistent, HistoryKept, Live, OfferedTo;
    assert step in [step];
    match step
    case TrySend(id) =>
      OfferedKeys(from.channels, audience - s.publisher.todo, topic);
      OfferedNext(from, audience, s.publisher.todo, topic, id);
    case Drop =>
      OfferedNext(from, audience, s.publisher.todo, topic, s.publisher.at);
    case SendEverything =>
      RoomForEverything(s);
      OfferedNext(from, audience, s.publisher.todo, topic, s.publisher.at);
    case Finish =>
      assert audience - {} == audience;
  }

  lemma {:induction false} RunKeepsMidway(from: HubState, audience: set<Id>, topic: string, s: State, steps: seq<Step>)
    requires Inv(s) && Midway(from, audience, topic, s) && PublishersOwn(steps)
    ensures Inv(Run(s, steps)) && Midway(from, audience, topic, Run(s, steps))
  {
    hide Inv, Midway, Apply, Enabled;
    if steps != [] {
      var last := steps[|steps| - 1];
      var earlier := Run(s, steps[..|steps| - 1]);
      RunKeepsMidway(from, audience, topic, s, steps[..|steps| - 1]);
      if Enabled(earlier, last) {
        StepKeepsInv(earlier, last);
        StepKeepsMidway(from, audience, topic, earlier, last);
      }
    }
  }

  /** In whatever order it takes the channels, a publication nothing interrupts ends as the hub's method promises. */
  lemma UninterruptedPublication(s: State, shop: string, topic: string, steps: seq<Step>)
    requires Inv(s) && s.publisher.Idle? && PublishersOwn(steps)
    requires Run(Apply(s, Publish(shop, topic)), steps).publisher.Idle?
    ensures Run(Apply(s, Publish(shop, topic)), steps).hub == Published(s.hub, shop, topic)
  {
    var audience, start := Audience(s.hub.subs, shop), Apply(s, Publish(shop, topic));
    StepKeepsInv(s, Publish(shop, topic));
    OfferedToNobody(s.hub.channels, topic);
    assert audience - audience == {};
    assert Midway(s.hub, audience, topic, start);
    hide Inv, Runs.Run, OfferedTo, Audience;
    RunKeepsMidway(s.hub, audience, topic, start, steps);
  }

  lemma OneStep(s: State, step: Step)
    requires Enabled(s, step)
    ensures Run(s, [step]) == Apply(s, step)
  {
    hide Apply, Enabled;
    assert [step][..0] == [];
    assert Run(s, [step][..0]) == s;
  }

  /** From wherever it has come to, a publication's own steps can take it to its end. */
  lemma {:induction false} PublicationCanFinish(s: State) returns (steps: seq<Step>)
    requires Inv(s) && !s.publisher.Idle?
    ensures PublishersOwn(steps) && Run(s, steps).publisher.Idle?
    decreases s.publisher.todo, if s.publisher.Choosing? then 2 else if s.publisher.FoundFull? then 1 else 0
  {
    hide HistoryKept, Consistent, Live, Runs.Run, WithChannel, Panicking;
    var step :=
      match s.publisher
      case Choosing(_, todo) => if todo == {} then Finish else var id :| id in todo; TrySend(id)
      case FoundFull(_, _, _) => Drop
      case HasDropped(_, _, _) => SendEverything;
    assert Enabled(s, step) by {
      if step.TrySend? {
        LiveIsOpen(s, step.id);
      } else if !step.Finish? {
        LiveIsOpen(s, s.publisher.at);
      }
    }
    OneStep(s, step);
    StepKeepsInv(s, step);
    var next := Apply(s, step);
    steps := [step];
    if !next.publisher.Idle? {
      var rest := PublicationCanFinish(next);
      Runs.Join(Next, s, [step], rest);
      steps := [step] + rest;
    }
  }
}
