/**
 The in-memory event bus: subscriptions per topic, fire-and-forget delivery as one task per handler.
 What the bus holds and what it has spawned are functions of the history of its calls.
 */
module EventBus {

  type Topic = string

  datatype Handler = Handler(id: nat)

  // ----- topics: exactly three non-empty segments -----

  /** The first slash at or after a position, or the end. */
  function Slash(t: Topic, from: nat): (i: nat)
    requires from <= |t|
    ensures from <= i <= |t|
    ensures forall k :: from <= k < i ==> t[k] != '/'
    ensures i < |t| ==> t[i] == '/'
    decreases |t| - from
  {
    if from == |t| || t[from] == '/' then from else Slash(t, from + 1)
  }

  predicate ValidTopic(t: Topic) {
    var i := Slash(t, 0);
    && 0 < i < |t|
    && var j := Slash(t, i + 1);
      && i + 1 < j < |t|
      && j + 1 < |t| && Slash(t, j + 1) == |t|
  }

  predicate Segment(s: string) {
    s != "" && '/' !in s
  }

  /** What the topic pattern means: domain, entity and type, none empty and none with a slash. */
  lemma ValidTopicExactly(t: Topic)
    ensures ValidTopic(t) <==>
            exists a: string, b: string, c: string ::
              Segment(a) && Segment(b) && Segment(c) && t == a + "/" + b + "/" + c
  {
    if ValidTopic(t) {
      var i := Slash(t, 0);
      var j := Slash(t, i + 1);
      var a, b, c := t[..i], t[i + 1..j], t[j + 1..];
      assert t == a + "/" + b + "/" + c;
      assert Segment(a) && Segment(b) && Segment(c);
    }
    forall a: string, b: string, c: string
      | Segment(a) && Segment(b) && Segment(c) && t == a + "/" + b + "/" + c
      ensures ValidTopic(t)
    {
      ThreeSegments(a, b, c, t);
    }
  }

  lemma {:induction false} SlashAt(t: Topic, from: nat, i: nat)
    requires from <= i <= |t| && (i < |t| ==> t[i] == '/')
    requires forall k :: from <= k < i ==> t[k] != '/'
    ensures Slash(t, from) == i
    decreases i - from
  {
    if from < i {
      SlashAt(t, from + 1, i);
    }
  }

  lemma ThreeSegments(a: string, b: string, c: string, t: Topic)
    requires Segment(a) && Segment(b) && Segment(c) && t == a + "/" + b + "/" + c
    ensures ValidTopic(t)
  {
    var i, j := |a|, |a| + 1 + |b|;
    assert forall k :: 0 <= k < i ==> t[k] == a[k];
    assert forall k :: i + 1 <= k < j ==> t[k] == b[k - i - 1];
    assert forall k :: j + 1 <= k < |t| ==> t[k] == c[k - j - 1];
    SlashAt(t, 0, i);
    SlashAt(t, i + 1, j);
    SlashAt(t, j + 1, |t|);
  }

  // ----- histories -----

  datatype Event<+P> =
    | Subscribed(topic: Topic, handler: Handler)
    | Unsubscribed(topic: Topic, handler: Handler)
    | Published(topic: Topic, payload: P)

  datatype Delivery<+P> = Delivery(handler: Handler, topic: Topic, payload: P)

  /** list.remove: the first occurrence goes, if there is one. */
  function Remove(hs: seq<Handler>, h: Handler): seq<Handler> {
    if hs == [] then [] else if hs[0] == h then hs[1..] else [hs[0]] + Remove(hs[1..], h)
  }

  /** What one call makes of the list kept for a topic. */
  function After<P>(hs: seq<Handler>, e: Event<P>, t: Topic): seq<Handler> {
    match e
    case Subscribed(topic, h) => if topic == t && h !in hs then hs + [h] else hs
    case Unsubscribed(topic, h) => if topic == t then Remove(hs, h) else hs
    case Published(_, _) => hs
  }

  /** The list kept for a topic after a history. */
  function Handlers<P>(hist: seq<Event<P>>, t: Topic): seq<Handler> {
    if hist == [] then []
    else After(Handlers(hist[..|hist| - 1], t), hist[|hist| - 1], t)
  }

  /** One task per handler of the topic, in list order. */
  function Fanout<P>(hs: seq<Handler>, t: Topic, payload: P): (r: seq<Delivery<P>>)
    ensures |r| == |hs|
  {
    seq(|hs|, i requires 0 <= i < |hs| => Delivery(hs[i], t, payload))
  }

  /** Every task spawned during a history, in order. */
  function Spawned<P>(hist: seq<Event<P>>): seq<Delivery<P>> {
    if hist == [] then []
    else
      var init := hist[..|hist| - 1];
      match hist[|hist| - 1]
      case Published(t, payload) => Spawned(init) + Fanout(Handlers(init, t), t, payload)
      case _ => Spawned(init)
  }

  /** The topics ever subscribed to, in order of their first subscription. */
  function Known<P>(hist: seq<Event<P>>): seq<Topic> {
    if hist == [] then []
    else
      var ts := Known(hist[..|hist| - 1]);
      match hist[|hist| - 1]
      case Subscribed(t, _) => if t in ts then ts else ts + [t]
      case _ => ts
  }

  // ----- what the list holds -----

  /** The latest subscription call about this handler and topic was a subscribe. */
  predicate Active<P>(hist: seq<Event<P>>, t: Topic, h: Handler) {
    if hist == [] then false
    else
      match hist[|hist| - 1]
      case Subscribed(topic, g) => (topic == t && g == h) || Active(hist[..|hist| - 1], t, h)
      case Unsubscribed(topic, g) => !(topic == t && g == h) && Active(hist[..|hist| - 1], t, h)
      case Published(_, _) => Active(hist[..|hist| - 1], t, h)
  }

  /** The call that made an active handler present, counting calls from 0. */
  function Since<P>(hist: seq<Event<P>>, t: Topic, h: Handler): (n: nat)
    ensures Active(hist, t, h) ==> n < |hist|
  {
    if !Active(hist, t, h) then 0
    else if Active(hist[..|hist| - 1], t, h) then Since(hist[..|hist| - 1], t, h)
    else |hist| - 1
  }

  ghost predicate DuplicateFree(hs: seq<Handler>) {
    forall i, j :: 0 <= i < j < |hs| ==> hs[i] != hs[j]
  }

  /** Exactly the handlers whose latest call was subscribe, each once, oldest presence first. */
  ghost predicate InOrder<P>(hs: seq<Handler>, hist: seq<Event<P>>, t: Topic) {
    && (forall h :: h in hs <==> Active(hist, t, h))
    && (forall i, j :: 0 <= i < j < |hs| ==> Since(hist, t, hs[i]) < Since(hist, t, hs[j]))
  }

  lemma {:induction false} RemoveKeepsOrder(hs: seq<Handler>, h: Handler)
    requires DuplicateFree(hs)
    ensures DuplicateFree(Remove(hs, h))
    ensures forall g :: g in Remove(hs, h) <==> g in hs && g != h
    ensures h !in hs ==> Remove(hs, h) == hs
  {
    if hs != [] {
      RemoveKeepsOrder(hs[1..], h);
      assert forall g :: g in hs <==> g == hs[0] || g in hs[1..];
      if hs[0] != h {
        var r := Remove(hs[1..], h);
        assert forall g :: g in [hs[0]] + r <==> g == hs[0] || g in r;
        assert hs[0] !in r;
      }
    }
  }

  lemma {:induction false} RemoveKeepsPairs(hs: seq<Handler>, h: Handler, i: int, j: int) returns (k: int, l: int)
    requires 0 <= i < j < |Remove(hs, h)|
    ensures 0 <= k < l < |hs| && Remove(hs, h)[i] == hs[k] && Remove(hs, h)[j] == hs[l]
  {
    if hs[0] == h {
      k, l := i + 1, j + 1;
    } else if i == 0 {
      k := 0;
      l := RemoveKeepsPlace(hs[1..], h, j - 1);
      l := l + 1;
    } else {
      k, l := RemoveKeepsPairs(hs[1..], h, i - 1, j - 1);
      k, l := k + 1, l + 1;
    }
  }

  lemma {:induction false} RemoveKeepsPlace(hs: seq<Handler>, h: Handler, j: int) returns (l: int)
    requires 0 <= j < |Remove(hs, h)|
    ensures 0 <= l < |hs| && Remove(hs, h)[j] == hs[l]
  {
    if hs[0] == h {
      l := j + 1;
    } else if j == 0 {
      l := 0;
    } else {
      l := RemoveKeepsPlace(hs[1..], h, j - 1);
      l := l + 1;
    }
  }

  /** The order by presence rules out duplicates. */
  lemma InOrderIsDuplicateFree<P>(hs: seq<Handler>, hist: seq<Event<P>>, t: Topic)
    requires InOrder(hs, hist, t)
    ensures DuplicateFree(hs)
  {
    forall i, j | 0 <= i < j < |hs|
      ensures hs[i] != hs[j]
    {
      assert Since(hist, t, hs[i]) < Since(hist, t, hs[j]);
    }
  }

  /** Over any history, the list of a topic is in order: the handlers subscribed last, none twice, oldest first. */
  lemma {:induction false} HandlersInOrder<P>(hist: seq<Event<P>>, t: Topic)
    ensures InOrder(Handlers(hist, t), hist, t)
    ensures DuplicateFree(Handlers(hist, t))
    decreases |hist|
  {
    if hist != [] {
      var init, hs := hist[..|hist| - 1], Handlers(hist[..|hist| - 1], t);
      HandlersInOrder(init, t);
      assert hist == init + [hist[|hist| - 1]];
      match hist[|hist| - 1]
      case Subscribed(topic, h) => SubscribeKeepsOrder(hist, t, hs);
      case Unsubscribed(topic, h) => UnsubscribeKeepsOrder(init, hist[|hist| - 1], t);
      case Published(_, _) =>
    }
    InOrderIsDuplicateFree(Handlers(hist, t), hist, t);
  }

  lemma SubscribeKeepsOrder<P>(hist: seq<Event<P>>, t: Topic, hs: seq<Handler>)
    requires hist != [] && hist[|hist| - 1].Subscribed?
    requires hs == Handlers(hist[..|hist| - 1], t) && InOrder(hs, hist[..|hist| - 1], t)
    ensures InOrder(Handlers(hist, t), hist, t)
  {
    var init := hist[..|hist| - 1];
    forall g | Active(init, t, g)
      ensures Since(hist, t, g) == Since(init, t, g) < |init|
    {
    }
  }

  lemma OthersStay<P>(init: seq<Event<P>>, e: Event<P>, t: Topic, g: Handler)
    requires e.Unsubscribed?
    ensures Active(init + [e], t, g) <==> Active(init, t, g) && !(e.topic == t && e.handler == g)
    ensures Active(init + [e], t, g) ==> Since(init + [e], t, g) == Since(init, t, g)
  {
    assert (init + [e])[..|init + [e]| - 1] == init;
  }

  lemma UnsubscribeKeepsOrder<P>(init: seq<Event<P>>, e: Event<P>, t: Topic)
    requires e.Unsubscribed? && InOrder(Handlers(init, t), init, t)
    ensures InOrder(Handlers(init + [e], t), init + [e], t)
  {
    var hist, hs := init + [e], Handlers(init, t);
    var r := Handlers(hist, t);
    InOrderIsDuplicateFree(hs, init, t);
    RemoveKeepsOrder(hs, e.handler);
    assert hist[..|hist| - 1] == init;
    forall g ensures g in r <==> Active(hist, t, g) {
      OthersStay(init, e, t, g);
    }
    forall i, j | 0 <= i < j < |r|
      ensures Since(hist, t, r[i]) < Since(hist, t, r[j])
    {
      OthersStay(init, e, t, r[i]);
      OthersStay(init, e, t, r[j]);
      assert r[i] in r && r[j] in r;
      if e.topic == t {
        var k, l := RemoveKeepsPairs(hs, e.handler, i, j);
      }
    }
  }

  // ----- what is delivered -----

  /** The payloads delivered to a handler on a topic, in order. */
  function DeliveredTo<P>(ds: seq<Delivery<P>>, t: Topic, h: Handler): seq<P> {
    if ds == [] then []
    else
      var d := ds[|ds| - 1];
      DeliveredTo(ds[..|ds| - 1], t, h) + if d.topic == t && d.handler == h then [d.payload] else []
  }

  /** The payloads published on a topic while the handler's latest call was subscribe. */
  function PublishedWhileActive<P>(hist: seq<Event<P>>, t: Topic, h: Handler): seq<P> {
    if hist == [] then []
    else
      var init := hist[..|hist| - 1];
      PublishedWhileActive(init, t, h) +
      match hist[|hist| - 1]
      case Published(topic, payload) => if topic == t && Active(init, t, h) then [payload] else []
      case _ => []
  }

  lemma {:induction false} DeliveredAppend<P>(a: seq<Delivery<P>>, b: seq<Delivery<P>>, t: Topic, h: Handler)
    ensures DeliveredTo(a + b, t, h) == DeliveredTo(a, t, h) + DeliveredTo(b, t, h)
    decreases |b|
  {
    if b == [] {
      assert a + b == a;
    } else {
      var n := |b| - 1;
      assert (a + b)[..|a + b| - 1] == a + b[..n] && (a + b)[|a + b| - 1] == b[n];
      DeliveredAppend(a, b[..n], t, h);
    }
  }

  /** A fan-out reaches each handler of the list once, and no other handler or topic. */
  lemma {:induction false} FanoutReaches<P>(hs: seq<Handler>, topic: Topic, payload: P, t: Topic, h: Handler)
    requires DuplicateFree(hs)
    ensures DeliveredTo(Fanout(hs, topic, payload), t, h) == if topic == t && h in hs then [payload] else []
    decreases |hs|
  {
    if hs != [] {
      var n := |hs| - 1;
      var ds := Fanout(hs, topic, payload);
      assert ds[..n] == Fanout(hs[..n], topic, payload);
      FanoutReaches(hs[..n], topic, payload, t, h);
      assert h in hs <==> h in hs[..n] || h == hs[n];
    }
  }

  /** Over any history, a handler is spawned exactly the payloads published while it was subscribed, in order. */
  lemma {:induction false} DeliveriesExactly<P>(hist: seq<Event<P>>, t: Topic, h: Handler)
    ensures DeliveredTo(Spawned(hist), t, h) == PublishedWhileActive(hist, t, h)
    decreases |hist|
  {
    if hist != [] {
      var init := hist[..|hist| - 1];
      DeliveriesExactly(init, t, h);
      match hist[|hist| - 1]
      case Published(topic, payload) =>
        var hs := Handlers(init, topic);
        HandlersInOrder(init, topic);
        FanoutReaches(hs, topic, payload, t, h);
        DeliveredAppend(Spawned(init), Fanout(hs, topic, payload), t, h);
      case _ =>
    }
  }

  // ----- one more call -----

  /** What one more call changes, topic by topic. */
  lemma HistoryGrows<P>(hist: seq<Event<P>>, e: Event<P>)
    ensures forall t :: Handlers(hist + [e], t) == After(Handlers(hist, t), e, t)
    ensures Known(hist + [e]) ==
              if e.Subscribed? && e.topic !in Known(hist) then Known(hist) + [e.topic] else Known(hist)
    ensures Spawned(hist + [e]) ==
              if e.Published? then Spawned(hist) + Fanout(Handlers(hist, e.topic), e.topic, e.payload)
              else Spawned(hist)
  {
    assert (hist + [e])[..|hist + [e]| - 1] == hist;
  }

  lemma {:induction false} RemoveAbsent(hs: seq<Handler>, h: Handler)
    ensures h !in hs ==> Remove(hs, h) == hs
  {
    if hs != [] {
      RemoveAbsent(hs[1..], h);
    }
  }

  // ----- the bus -----

  class EventBus<P> {
    var keys: seq<Topic>                     // the dictionary's keys, in insertion order
    var subscribers: map<Topic, seq<Handler>>
    var tasks: set<nat>                      // spawned tasks that are still held
    var nextTask: nat

    ghost var hist: seq<Event<P>>            // every call that was not refused
    ghost var spawned: seq<Delivery<P>>      // the tasks, numbered in the order they were created
    ghost var finished: set<nat>

    function ListOf(t: Topic): seq<Handler>
      reads this
    {
      if t in subscribers then subscribers[t] else []
    }

    ghost predicate Valid()
      reads this
    {
      && (forall t :: ListOf(t) == Handlers(hist, t))
      && keys == Known(hist) && (forall t :: t in keys <==> t in subscribers)
      && spawned == Spawned(hist) && nextTask == |spawned|
      && (forall i: nat :: i in tasks <==> i < |spawned| && i !in finished)
      && (forall i: nat :: i in finished ==> i < |spawned|)
    }

    /** Since then, one task per handler of this list and in its order, each with this topic and payload. */
    ghost predicate Handed(before: seq<Delivery<P>>, handlers: seq<Handler>, t: Topic, payload: P)
      reads this`spawned
    {
      && before <= spawned && |spawned| == |before| + |handlers|
      && forall i :: 0 <= i < |handlers| ==> spawned[|before| + i] == Delivery(handlers[i], t, payload)
    }

    constructor ()
      ensures Valid() && hist == [] && finished == {}
    {
      keys, subscribers, tasks, nextTask := [], map[], {}, 0;
      hist, spawned, finished := [], [], {};
    }

    /** A topic without an entry gets one, and a handler that is not in its list is appended. */
    method Register(t: Topic, h: Handler)
      requires forall x :: x in keys <==> x in subscribers
      modifies this`keys, this`subscribers
      ensures forall x :: x in keys <==> x in subscribers
      ensures keys == if t in old(keys) then old(keys) else old(keys) + [t]
      ensures forall x :: ListOf(x) == After(old(ListOf(x)), Event<P>.Subscribed(t, h), x)
    {
      if t !in subscribers {
        keys := keys + [t];
        subscribers := subscribers[t := []];
      }
      if h !in subscribers[t] {
        subscribers := subscribers[t := subscribers[t] + [h]];
      }
    }

    /** False stands for the ValueError that a malformed topic raises. */
    method Subscribe(t: Topic, h: Handler) returns (ok: bool)
      requires Valid()
      modifies this`keys, this`subscribers, this`hist
      ensures Valid() && ok == ValidTopic(t)
      ensures hist == if ok then old(hist) + [Subscribed(t, h)] else old(hist)
    {
      if !ValidTopic(t) {
        return false;
      }
      HistoryGrows(hist, Subscribed(t, h));
      Register(t, h);
      hist := hist + [Subscribed(t, h)];
      ok := true;
    }

    method Unsubscribe(t: Topic, h: Handler) returns (ok: bool)
      requires Valid()
      modifies this`subscribers, this`hist
      ensures Valid() && ok == ValidTopic(t)
      ensures hist == if ok then old(hist) + [Unsubscribed(t, h)] else old(hist)
    {
      if !ValidTopic(t) {
        return false;
      }
      HistoryGrows(hist, Unsubscribed(t, h));
      RemoveAbsent(ListOf(t), h);
      if t in subscribers {
        if h in subscribers[t] {
          subscribers := subscribers[t := Remove(subscribers[t], h)];
        }
      }
      hist := hist + [Unsubscribed(t, h)];
      ok := true;
    }

    method Publish(t: Topic, payload: P) returns (ok: bool)
      requires Valid()
      modifies this`tasks, this`nextTask, this`hist, this`spawned
      ensures Valid() && ok == ValidTopic(t)
      ensures hist == if ok then old(hist) + [Published(t, payload)] else old(hist)
      ensures Handed(old(spawned), if ok then old(ListOf(t)) else [], t, payload)
    {
      if !ValidTopic(t) {
        return false;
      }
      var handlers := ListOf(t);
      HistoryGrows(hist, Published(t, payload));
      hist := hist + [Published(t, payload)];
      if handlers != [] {
        SpawnAll(handlers, t, payload);
      }
      ok := true;
    }

    /** One task per handler, in list order. */
    method SpawnAll(handlers: seq<Handler>, t: Topic, payload: P)
      requires nextTask == |spawned|
      requires forall i: nat :: i in tasks <==> i < |spawned| && i !in finished
      requires forall i: nat :: i in finished ==> i < |spawned|
      modifies this`tasks, this`nextTask, this`spawned
      ensures spawned == old(spawned) + Fanout(handlers, t, payload) && Handed(old(spawned), handlers, t, payload)
      ensures nextTask == |spawned|
      ensures forall i: nat :: i in tasks <==> i < |spawned| && i !in finished
    {
      ghost var fanout := Fanout(handlers, t, payload);
      for i := 0 to |handlers|
        invariant nextTask == |spawned| && spawned == old(spawned) + fanout[..i]
        invariant forall k: nat :: k in tasks <==> k in old(tasks) || |old(spawned)| <= k < |spawned|
      {
        tasks := tasks + {nextTask};
        nextTask := nextTask + 1;
        spawned := spawned + [Delivery(handlers[i], t, payload)];
      }
      assert fanout[..|handlers|] == fanout;
    }

    /** A task completes, whether or not its handler raised, and is no longer held. */
    method Finish(i: nat)
      requires Valid() && i in tasks
      modifies this`tasks, this`finished
      ensures Valid() && finished == old(finished) + {i}
    {
      tasks := tasks - {i};
      finished := finished + {i};
    }

    method SubscriberCount(t: Topic) returns (ok: bool, n: nat)
      requires Valid()
      ensures ok == ValidTopic(t)
      ensures ok ==> n == |Handlers(hist, t)|
    {
      if !ValidTopic(t) {
        return false, 0;
      }
      return true, |ListOf(t)|;
    }

    /** Topics with a subscriber, in the order of their first subscription. */
    method Topics() returns (r: seq<Topic>)
      requires Valid()
      ensures r == WithSubscribers(hist, Known(hist))
    {
      r := [];
      for i := 0 to |keys|
        invariant r == WithSubscribers(hist, keys[..i])
      {
        assert keys[..i + 1] == keys[..i] + [keys[i]];
        WithSubscribersSnoc(hist, keys[..i], keys[i]);
        if ListOf(keys[i]) != [] {
          r := r + [keys[i]];
        }
      }
      assert keys[..|keys|] == keys;
    }
  }

  function WithSubscribers<P>(hist: seq<Event<P>>, ts: seq<Topic>): seq<Topic> {
    if ts == [] then []
    else (if Handlers(hist, ts[0]) != [] then [ts[0]] else []) + WithSubscribers(hist, ts[1..])
  }

  lemma {:induction false} WithSubscribersSnoc<P>(hist: seq<Event<P>>, ts: seq<Topic>, t: Topic)
    ensures WithSubscribers(hist, ts + [t])
         == WithSubscribers(hist, ts) + if Handlers(hist, t) != [] then [t] else []
  {
    if ts != [] {
      assert (ts + [t])[1..] == ts[1..] + [t];
      WithSubscribersSnoc(hist, ts[1..], t);
    }
  }

  // ----- the order of the topics -----

  predicate SubscribedTo<P>(hist: seq<Event<P>>, n: int, t: Topic) {
    0 <= n < |hist| && hist[n].Subscribed? && hist[n].topic == t
  }

  /** The first call that subscribed to this topic. */
  ghost predicate First<P>(hist: seq<Event<P>>, n: int, t: Topic) {
    SubscribedTo(hist, n, t) && forall m :: 0 <= m < n ==> !SubscribedTo(hist, m, t)
  }

  /** These topics were subscribed to, and were so for the first time in this order. */
  ghost predicate InTurn<P>(hist: seq<Event<P>>, ts: seq<Topic>, ns: seq<int>) {
    && |ns| == |ts|
    && (forall i :: 0 <= i < |ts| ==> First(hist, ns[i], ts[i]))
    && (forall i, j :: 0 <= i < j < |ns| ==> ns[i] < ns[j])
  }

  lemma FirstStays<P>(init: seq<Event<P>>, e: Event<P>, n: int, t: Topic)
    requires First(init, n, t)
    ensures First(init + [e], n, t)
  {
    forall m | 0 <= m < n
      ensures !SubscribedTo(init + [e], m, t)
    {
      assert !SubscribedTo(init, m, t);
    }
  }

  lemma {:induction false} KnownInTurn<P>(hist: seq<Event<P>>) returns (ns: seq<int>)
    ensures InTurn(hist, Known(hist), ns)
    ensures forall n, t :: SubscribedTo(hist, n, t) ==> t in Known(hist)
    decreases |hist|
  {
    ns := [];
    if hist != [] {
      var init, e := hist[..|hist| - 1], hist[|hist| - 1];
      assert hist == init + [e];
      ns := KnownInTurn(init);
      forall i | 0 <= i < |ns|
        ensures First(hist, ns[i], Known(init)[i])
      {
        FirstStays(init, e, ns[i], Known(init)[i]);
      }
      forall n, t | SubscribedTo(hist, n, t)
        ensures t in Known(hist)
      {
        assert n < |init| ==> SubscribedTo(init, n, t);
      }
      if e.Subscribed? && e.topic !in Known(init) {
        forall m | 0 <= m < |init|
          ensures !SubscribedTo(hist, m, e.topic)
        {
          assert SubscribedTo(hist, m, e.topic) ==> SubscribedTo(init, m, e.topic);
        }
        ns := ns + [|init|];
      }
    }
  }

  lemma OneMoreInTurn<P>(hist: seq<Event<P>>, t: Topic, ts: seq<Topic>, n: int, ns: seq<int>)
    requires InTurn(hist, ts, ns) && First(hist, n, t) && forall i :: 0 <= i < |ns| ==> n < ns[i]
    ensures InTurn(hist, [t] + ts, [n] + ns)
  {
  }

  lemma RestInTurn<P>(hist: seq<Event<P>>, ts: seq<Topic>, ns: seq<int>)
    requires ts != [] && InTurn(hist, ts, ns)
    ensures InTurn(hist, ts[1..], ns[1..]) && First(hist, ns[0], ts[0])
    ensures forall m :: m in ns[1..] ==> ns[0] < m
  {
  }

  /** Leaving topics out keeps the others in turn. */
  lemma {:induction false} ListedInTurn<P>(hist: seq<Event<P>>, ts: seq<Topic>, ns: seq<int>) returns (ms: seq<int>)
    requires InTurn(hist, ts, ns)
    ensures InTurn(hist, WithSubscribers(hist, ts), ms)
    ensures forall m :: m in ms ==> m in ns
  {
    ms := [];
    if ts != [] {
      RestInTurn(hist, ts, ns);
      ms := ListedInTurn(hist, ts[1..], ns[1..]);
      var later := WithSubscribers(hist, ts[1..]);
      if Handlers(hist, ts[0]) != [] {
        forall i | 0 <= i < |ms|
          ensures ns[0] < ms[i]
        {
          assert ms[i] in ms;
        }
        OneMoreInTurn(hist, ts[0], later, ns[0], ms);
        ms := [ns[0]] + ms;
      } else {
        assert WithSubscribers(hist, ts) == later;
      }
    }
  }

  /** The topics are listed each once, in the order of their first subscription. */
  lemma TopicsInTurn<P>(hist: seq<Event<P>>) returns (ns: seq<int>)
    ensures InTurn(hist, WithSubscribers(hist, Known(hist)), ns)
  {
    ns := KnownInTurn(hist);
    ns := ListedInTurn(hist, Known(hist), ns);
  }

  /** A topic is listed exactly if some handler's latest call for it was subscribe. */
  lemma ListedExactly<P>(hist: seq<Event<P>>, t: Topic)
    ensures t in WithSubscribers(hist, Known(hist)) <==> exists h :: Active(hist, t, h)
  {
    HandlersInOrder(hist, t);
    ListedIfKept(hist, Known(hist), t);
    var hs := Handlers(hist, t);
    if hs == [] {
      forall h ensures !Active(hist, t, h) {
        assert h !in hs;
      }
    } else {
      var h := hs[0];
      assert h in hs;
      assert Active(hist, t, h);
      ActiveIsKnown(hist, t, h);
      assert t in WithSubscribers(hist, Known(hist));
      assert exists g: Handler :: Active(hist, t, g);
    }
  }

  lemma {:induction false} ListedIfKept<P>(hist: seq<Event<P>>, ts: seq<Topic>, t: Topic)
    ensures t in WithSubscribers(hist, ts) <==> t in ts && Handlers(hist, t) != []
  {
    if ts != [] {
      ListedIfKept(hist, ts[1..], t);
    }
  }

  lemma {:induction false} ActiveIsKnown<P>(hist: seq<Event<P>>, t: Topic, h: Handler)
    requires Active(hist, t, h)
    ensures t in Known(hist)
    decreases |hist|
  {
    if Active(hist[..|hist| - 1], t, h) {
      ActiveIsKnown(hist[..|hist| - 1], t, h);
    }
  }
}
