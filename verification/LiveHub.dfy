/**
 * The hub that tells open screens what changed: subscriptions per shop, each with a bounded channel that may lose
 * topics.
 */
module LiveHub {

  /** Stands for a subscription and its channel. */
  type Id = nat

  const CAPACITY: nat := 32

  /** The topic that tells a screen to ask for everything again. */
  const EVERYTHING: string := "*"

  datatype Channel = Channel(shop: string, queue: seq<string>, closed: bool)

  datatype HubState = HubState(max: nat, subs: map<string, set<Id>>, n: nat, done: bool, channels: map<Id, Channel>)

  // ---------- What the operations do, each under the hub's mutex

  /** The subscriptions of every shop. */
  function Live(subs: map<string, set<Id>>): set<Id> {
    set shop, id | shop in subs && id in subs[shop] :: id
  }

  function OfShop(subs: map<string, set<Id>>, shop: string): set<Id> {
    if shop in subs then subs[shop] else {}
  }

  predicate Refuses(h: HubState) {
    h.done || h.n >= h.max
  }

  function Subscribed(h: HubState, shop: string, id: Id): HubState {
    h.(subs := h.subs[shop := OfShop(h.subs, shop) + {id}], n := h.n + 1,
       channels := h.channels[id := Channel(shop, [], false)])
  }

  predicate IsSubscribed(h: HubState, id: Id) {
    id in h.channels && id in OfShop(h.subs, h.channels[id].shop)
  }

  function Without(subs: map<string, set<Id>>, shop: string, id: Id): map<string, set<Id>> {
    var left := OfShop(subs, shop) - {id};
    if left == {} then subs - {shop} else subs[shop := left]
  }

  function Unsubscribed(h: HubState, id: Id): HubState
    requires IsSubscribed(h, id) && h.n > 0
  {
    var c := h.channels[id];
    h.(subs := Without(h.subs, c.shop, id), n := h.n - 1, channels := h.channels[id := c.(closed := true)])
  }

  /** A send that does not wait: nothing happens to a full channel. */
  function Sent(c: Channel, topic: string): Channel {
    if |c.queue| < CAPACITY then c.(queue := c.queue + [topic]) else c
  }

  function OldestDropped(c: Channel): Channel {
    if c.queue == [] then c else c.(queue := c.queue[1..])
  }

  /** What a publication does to one channel when nothing is received meanwhile. */
  function Offered(c: Channel, topic: string): Channel {
    if |c.queue| < CAPACITY then Sent(c, topic) else Sent(OldestDropped(c), EVERYTHING)
  }

  /** The subscriptions a publication goes to; shop "" is every shop. */
  function Audience(subs: map<string, set<Id>>, shop: string): set<Id> {
    if shop == "" then Live(subs) else OfShop(subs, shop)
  }

  function OfferedTo(channels: map<Id, Channel>, ids: set<Id>, topic: string): map<Id, Channel> {
    map id | id in channels :: if id in ids then Offered(channels[id], topic) else channels[id]
  }

  function Published(h: HubState, shop: string, topic: string): HubState {
    h.(channels := OfferedTo(h.channels, Audience(h.subs, shop), topic))
  }

  function Closed(channels: map<Id, Channel>, ids: set<Id>): map<Id, Channel> {
    map id | id in channels :: if id in ids then channels[id].(closed := true) else channels[id]
  }

  function Stopped(h: HubState): HubState {
    h.(done := true, subs := map[], n := 0, channels := Closed(h.channels, Live(h.subs)))
  }

  /** What holds whenever the mutex is free: the books agree, and a channel is open exactly while it is subscribed. */
  ghost predicate Consistent(h: HubState) {
    h.n == |Live(h.subs)| && h.n <= h.max && (h.done ==> h.subs == map[]) &&
    (forall shop, id :: shop in h.subs && id in h.subs[shop] ==> id in h.channels && h.channels[id].shop == shop) &&
    (forall shop :: shop in h.subs ==> h.subs[shop] != {}) &&
    (forall id :: id in h.channels ==> (h.channels[id].closed <==> id !in Live(h.subs))) &&
    (forall id :: id in h.channels ==> |h.channels[id].queue| <= CAPACITY)
  }

  /** The subscriptions a client can still receive from. */
  function Open(channels: map<Id, Channel>): set<Id> {
    set id | id in channels && !channels[id].closed
  }

  lemma LiveMembers(h: HubState, id: Id)
    requires Consistent(h)
    ensures id in Live(h.subs) <==> IsSubscribed(h, id)
    ensures id in Live(h.subs) <==> id in Open(h.channels)
  {}

  lemma InLive(subs: map<string, set<Id>>, shop: string, id: Id)
    requires id in OfShop(subs, shop)
    ensures id in Live(subs)
  {}

  lemma LiveGrows(subs: map<string, set<Id>>, shop: string, id: Id)
    ensures Live(subs[shop := OfShop(subs, shop) + {id}]) == Live(subs) + {id}
  {
    var subs' := subs[shop := OfShop(subs, shop) + {id}];
    forall i | i in Live(subs) ensures i in Live(subs') {
      var s :| s in subs && i in subs[s];
      InLive(subs', s, i);
    }
    InLive(subs', shop, id);
  }

  lemma LiveShrinks(subs: map<string, set<Id>>, shop: string, id: Id)
    requires forall s :: s in subs && s != shop ==> id !in subs[s]
    ensures Live(Without(subs, shop, id)) == Live(subs) - {id}
  {
    var subs' := Without(subs, shop, id);
    forall i | i in Live(subs) && i != id ensures i in Live(subs') {
      var s :| s in subs && i in subs[s];
      if s == shop {
        assert i in OfShop(subs, shop) - {id};
      }
      InLive(subs', s, i);
    }
  }

  lemma SubscribedConsistent(h: HubState, shop: string, id: Id)
    requires Consistent(h) && !Refuses(h) && id !in h.channels
    ensures Consistent(Subscribed(h, shop, id)) && id !in Live(h.subs) && Subscribed(h, shop, id).done == h.done
    ensures Subscribed(h, shop, id).channels == h.channels[id := Channel(shop, [], false)]
    ensures Live(Subscribed(h, shop, id).subs) == Live(h.subs) + {id}
  {
    LiveGrows(h.subs, shop, id);
    hide Live;
    LiveMembers(h, id);
  }

  lemma UnsubscribedConsistent(h: HubState, id: Id)
    requires Consistent(h) && IsSubscribed(h, id)
    ensures h.n > 0 && !h.channels[id].closed && Consistent(Unsubscribed(h, id)) && Unsubscribed(h, id).done == h.done
    ensures Unsubscribed(h, id).channels == h.channels[id := h.channels[id].(closed := true)]
    ensures Live(Unsubscribed(h, id).subs) == Live(h.subs) - {id}
  {
    LiveMembers(h, id);
    LiveShrinks(h.subs, h.channels[id].shop, id);
    hide Live;
  }

  lemma AudienceLive(h: HubState, shop: string)
    requires Consistent(h)
    ensures Audience(h.subs, shop) <= Live(h.subs) <= h.channels.Keys
  {
    forall id | id in OfShop(h.subs, shop) ensures id in Live(h.subs) {
      assert shop in h.subs;
    }
  }

  lemma ChannelsConsistent(h: HubState, channels: map<Id, Channel>)
    requires Consistent(h) && channels.Keys == h.channels.Keys
    requires forall id :: id in channels ==>
               channels[id].shop == h.channels[id].shop && channels[id].closed == h.channels[id].closed &&
                 |channels[id].queue| <= CAPACITY
    ensures Consistent(h.(channels := channels))
  {}

  lemma PublishedConsistent(h: HubState, shop: string, topic: string)
    requires Consistent(h)
    ensures Consistent(Published(h, shop, topic))
  {
    ChannelsConsistent(h, Published(h, shop, topic).channels);
  }

  lemma StoppedConsistent(h: HubState)
    requires Consistent(h)
    ensures Consistent(Stopped(h)) && Live(Stopped(h).subs) == {}
  {}

  // ---------- The same, by the channels alone

  /** A channel after a publication: at most 32 topics, and "*" for those that did not fit. */
  function Told(c: Channel, shop: string, topic: string): Channel {
    if c.closed || (shop != "" && shop != c.shop) then c
    else if |c.queue| < 32 then Channel(c.shop, c.queue + [topic], false)
    else Channel(c.shop, c.queue[1..] + ["*"], false)
  }

  lemma OpenIsLive(h: HubState)
    requires Consistent(h)
    ensures Open(h.channels) == Live(h.subs)
  {}

  /** A hub turns a subscription away exactly when it is stopped or as many are open as it may have. */
  lemma RefusesExactly(h: HubState)
    requires Consistent(h)
    ensures Refuses(h) <==> h.done || |Open(h.channels)| == h.max
  {
    OpenIsLive(h);
  }

  lemma AudienceIsOpen(h: HubState, shop: string, id: Id)
    requires Consistent(h)
    ensures id in Audience(h.subs, shop) <==>
            id in h.channels && !h.channels[id].closed && (shop == "" || shop == h.channels[id].shop)
  {
    if id in h.channels && !h.channels[id].closed {
      var s :| s in h.subs && id in h.subs[s];
    }
  }

  lemma OneTold(c: Channel, shop: string, topic: string)
    requires |c.queue| <= CAPACITY
    ensures Told(c, shop, topic) == if !c.closed && (shop == "" || shop == c.shop) then Offered(c, topic) else c
  {}

  /** A publication tells every open channel of its shop, or of every shop, and no other. */
  lemma PublishedExactly(h: HubState, shop: string, topic: string)
    requires Consistent(h)
    ensures var after := Published(h, shop, topic).channels;
            after.Keys == h.channels.Keys && forall id :: id in after ==> after[id] == Told(h.channels[id], shop, topic)
  {
    var after := Published(h, shop, topic).channels;
    forall id | id in after ensures after[id] == Told(h.channels[id], shop, topic) {
      AudienceIsOpen(h, shop, id);
      OneTold(h.channels[id], shop, topic);
    }
  }

  /** Stopping closes every channel and leaves what is queued in it to be received. */
  lemma StoppedExactly(h: HubState)
    requires Consistent(h)
    ensures Stopped(h).done && Stopped(h).channels.Keys == h.channels.Keys
    ensures forall id :: id in h.channels ==>
              Stopped(h).channels[id] == Channel(h.channels[id].shop, h.channels[id].queue, true)
  {}

  // ---------- The hub itself

  /** The hub's fields; a subscription is known by its id, and its channel is kept under it. */
  class Hub {
    const max: nat
    var subs: map<string, set<Id>>
    var n: nat
    var done: bool
    var channels: map<Id, Channel>
    var next: Id

    ghost function View(): HubState
      reads this
    {
      HubState(max, subs, n, done, channels)
    }

    ghost predicate Valid()
      reads this
    {
      Consistent(View()) && forall id :: id in channels ==> id < next
    }

    constructor (max: nat)
      ensures Valid() && View() == HubState(max, map[], 0, false, map[])
    {
      this.max := max;
      subs, n, done, channels, next := map[], 0, false, map[], 0;
      new;
      assert Live(subs) == {};
    }

    /** A new subscription, or none when the hub is full or stopped. */
    method Subscribe(shop: string) returns (id: Id, ok: bool)
      requires Valid()
      modifies this
      ensures Valid() && ok == !Refuses(old(View()))
      ensures if ok then id !in old(channels) && View() == Subscribed(old(View()), shop, id) else View() == old(View())
    {
      hide Consistent, Live;
      id := next;
      ok := !(done || n >= max);
      if ok {
        SubscribedConsistent(View(), shop, id);
        if shop !in subs {
          subs := subs[shop := {}];
        }
        subs := subs[shop := subs[shop] + {id}];
        channels := channels[id := Channel(shop, [], false)];
        n := n + 1;
        next := next + 1;
        assert subs == Subscribed(old(View()), shop, id).subs;
      }
    }

    /** Ends a subscription; nothing happens for one that is not there, or no longer. */
    method Unsubscribe(id: Id)
      requires Valid() && id in channels
      modifies this
      ensures Valid()
      ensures View() == if IsSubscribed(old(View()), id) then Unsubscribed(old(View()), id) else old(View())
    {
      hide Consistent, Live;
      var shop := channels[id].shop;
      if shop !in subs || id !in subs[shop] {
        return;
      }
      UnsubscribedConsistent(View(), id);
      var left := subs[shop] - {id};
      if left == {} {
        subs := subs - {shop};
      } else {
        subs := subs[shop := left];
      }
      n := n - 1;
      channels := channels[id := channels[id].(closed := true)];
    }

    /** A topic to one channel; a full one loses its oldest topic and is told to ask for everything. */
    method Offer(id: Id, topic: string)
      requires id in channels
      modifies this`channels
      ensures channels == old(channels)[id := Offered(old(channels)[id], topic)]
    {
      var c := channels[id];
      if |c.queue| < CAPACITY {
        channels := channels[id := Sent(c, topic)];
      } else {
        channels := channels[id := OldestDropped(c)];
        channels := channels[id := Sent(channels[id], EVERYTHING)];
      }
    }

    /** A topic to each of some channels, in whatever order the set is iterated. */
    method OfferAll(ids: set<Id>, topic: string)
      requires ids <= channels.Keys
      modifies this`channels
      ensures channels == OfferedTo(old(channels), ids, topic)
    {
      hide Offered;
      var left := ids;
      while left != {}
        invariant left <= ids && channels == OfferedTo(old(channels), ids - left, topic)
      {
        var id :| id in left;
        left := left - {id};
        Offer(id, topic);
      }
    }

    /** A topic to every subscription of a shop, or of every shop, in whatever order the shops are iterated. */
    method Publish(shop: string, topic: string)
      requires Valid()
      modifies this`channels
      ensures Valid() && View() == Published(old(View()), shop, topic)
      ensures forall id :: id in channels ==>
                id in old(channels) && channels[id] == Told(old(channels)[id], shop, topic)
    {
      hide Consistent, OfferedTo, Audience, Of, Told;
      PublishedExactly(View(), shop, topic);
      PublishedConsistent(View(), shop, topic);
      ShopsApart(View());
      ghost var before := channels;
      var shops := subs.Keys;
      NobodyOf(subs, shop);
      OfferedToNobody(before, topic);
      while shops != {}
        invariant shops <= subs.Keys && channels == OfferedTo(before, Of(subs, subs.Keys - shops, shop), topic)
      {
        var s :| s in shops;
        OneMoreShop(subs, subs.Keys - shops, s, shop);
        assert subs.Keys - (shops - {s}) == subs.Keys - shops + {s};
        if !(shop != "" && s != shop) {
          OfferedInTurn(before, Of(subs, subs.Keys - shops, shop), subs[s], topic);
          OfferAll(subs[s], topic);
        } else {
          assert Of(subs, subs.Keys - shops, shop) + {} == Of(subs, subs.Keys - shops, shop);
        }
        shops := shops - {s};
      }
      EveryShop(subs, shop);
      OfferedKeys(before, Audience(subs, shop), topic);
    }

    method CloseAll(ids: set<Id>)
      requires ids <= channels.Keys
      modifies this`channels
      ensures channels == Closed(old(channels), ids)
    {
      var left := ids;
      while left != {}
        invariant left <= ids && channels == Closed(old(channels), ids - left)
      {
        var id :| id in left;
        left := left - {id};
        channels := channels[id := channels[id].(closed := true)];
      }
    }

    /** Closes every subscription, shop by shop. */
    method Stop()
      requires Valid()
      modifies this
      ensures Valid() && View() == Stopped(old(View()))
      ensures done && channels.Keys == old(channels).Keys && Open(channels) == {}
      ensures forall id :: id in channels ==> channels[id] == old(channels)[id].(closed := true)
    {
      hide Consistent, Closed, Of, Live;
      StoppedExactly(View());
      StoppedConsistent(View());
      ShopsApart(View());
      done := true;
      CloseShops();
      n := 0;
    }

    /** Closes and deletes shop after shop, in whatever order they are iterated. */
    method CloseShops()
      requires forall s, t :: s in subs && t in subs && s != t ==> subs[s] !! subs[t]
      requires forall s :: s in subs ==> subs[s] <= channels.Keys
      modifies this`subs, this`channels
      ensures subs == map[] && channels == Closed(old(channels), Live(old(subs))) && channels.Keys == old(channels).Keys
    {
      hide Closed, Of, Live;
      ghost var before, all := channels, subs;
      NobodyOf(all, "");
      ClosedNobody(before);
      var shops := subs.Keys;
      while shops != {}
        invariant shops <= all.Keys && subs.Keys == shops && forall s :: s in shops ==> subs[s] == all[s]
        invariant channels == Closed(before, Of(all, all.Keys - shops, ""))
      {
        var s :| s in shops;
        OneMoreShop(all, all.Keys - shops, s, "");
        assert all.Keys - (shops - {s}) == all.Keys - shops + {s};
        ClosedInTurn(before, Of(all, all.Keys - shops, ""), all[s]);
        CloseAll(subs[s]);
        subs := subs - {s};
        shops := shops - {s};
      }
      EveryShop(all, "");
      ClosedInTurn(before, Live(all), {});
    }
  }

  // ---------- Shop by shop

  /** The subscriptions of those of some shops that a publication goes to. */
  ghost function Of(subs: map<string, set<Id>>, shops: set<string>, shop: string): set<Id> {
    set s, id | s in shops && s in subs && (shop == "" || s == shop) && id in subs[s] :: id
  }

  lemma NobodyOf(subs: map<string, set<Id>>, shop: string)
    ensures subs.Keys - subs.Keys == {} && Of(subs, subs.Keys - subs.Keys, shop) == {}
  {}

  lemma OneMoreShop(subs: map<string, set<Id>>, shops: set<string>, s: string, shop: string)
    requires s in subs && s !in shops
    requires forall t, u :: t in subs && u in subs && t != u ==> subs[t] !! subs[u]
    ensures Of(subs, shops + {s}, shop) == Of(subs, shops, shop) + (if shop == "" || s == shop then subs[s] else {})
    ensures Of(subs, shops, shop) !! subs[s]
  {
    forall id | id in Of(subs, shops, shop) ensures id in Of(subs, shops + {s}, shop) && id !in subs[s] {
      var t :| t in shops && t in subs && (shop == "" || t == shop) && id in subs[t];
    }
    forall id | id in Of(subs, shops + {s}, shop)
      ensures id in Of(subs, shops, shop) || ((shop == "" || s == shop) && id in subs[s])
    {
      var t :| t in shops + {s} && t in subs && (shop == "" || t == shop) && id in subs[t];
    }
  }

  lemma EveryShop(subs: map<string, set<Id>>, shop: string)
    ensures subs.Keys - {} == subs.Keys
    ensures Of(subs, subs.Keys, shop) == Audience(subs, shop)
    ensures shop == "" ==> Audience(subs, shop) == Live(subs)
  {
    if shop == "" {
      forall id ensures id in Of(subs, subs.Keys, shop) <==> id in Live(subs) {}
    }
  }

  lemma OfferedToNobody(channels: map<Id, Channel>, topic: string)
    ensures OfferedTo(channels, {}, topic) == channels
  {}

  lemma OfferedKeys(channels: map<Id, Channel>, ids: set<Id>, topic: string)
    ensures OfferedTo(channels, ids, topic).Keys == channels.Keys
  {}

  lemma OfferedInTurn(channels: map<Id, Channel>, a: set<Id>, b: set<Id>, topic: string)
    requires a !! b
    ensures OfferedTo(OfferedTo(channels, a, topic), b, topic) == OfferedTo(channels, a + b, topic)
    ensures OfferedTo(channels, a, topic).Keys == channels.Keys
  {
    hide Offered;
  }

  lemma ClosedNobody(channels: map<Id, Channel>)
    ensures Closed(channels, {}) == channels
  {}

  lemma ClosedInTurn(channels: map<Id, Channel>, a: set<Id>, b: set<Id>)
    ensures Closed(Closed(channels, a), b) == Closed(channels, a + b)
    ensures Closed(channels, a).Keys == channels.Keys && Closed(channels, a + b).Keys == channels.Keys
  {}

  /** A subscription belongs to one shop, and has a channel. */
  lemma ShopsApart(h: HubState)
    requires Consistent(h)
    ensures forall s, t :: s in h.subs && t in h.subs && s != t ==> h.subs[s] !! h.subs[t]
    ensures forall s :: s in h.subs ==> h.subs[s] <= h.channels.Keys
  {
    forall s, t, id | s in h.subs && t in h.subs && id in h.subs[s] && id in h.subs[t] ensures s == t {
      assert h.channels[id].shop == s && h.channels[id].shop == t;
    }
  }
}
