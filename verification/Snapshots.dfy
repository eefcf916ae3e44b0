/**
 What the PowerStream adapter publishes for a list of decoded packets: each relevant packet is parsed
 and merged into the cache of its topic, and a snapshot of that cache goes out.
 */
module Snapshots {
  import opened Bytes
  import opened Merges
  import opened Packets
  import opened Topics

  /** The two payload parsers, which never fail, and the names that decide the topics. */
  datatype Source = Source(parseState: bytes -> Dict, parseBattery: bytes -> Dict, domain: string, entity: string)

  datatype Caches = Caches(state: Dict, battery: Dict)

  datatype Snapshot = Snapshot(topic: string, content: Dict)

  datatype Effect = Effect(caches: Caches, published: seq<Snapshot>)

  predicate IsState(p: Packet) {
    p.cmdSet == 0x14 && p.cmdId == 0x01
  }

  predicate IsBattery(p: Packet) {
    p.cmdSet == 0x14 && p.cmdId == 0x04
  }

  predicate IsAuthReply(p: Packet) {
    p.cmdSet == 0x35 && p.cmdId == 0x86
  }

  /** The cache is chosen by comparing topics, updated in place, and copied into the event. */
  function PublishState(src: Source, c: Caches, content: Dict, target: string): Effect {
    if target == BatteryTopic(src.domain, src.entity) then
      Effect(c.(battery := c.battery + content), [Snapshot(target, c.battery + content)])
    else
      Effect(c.(state := c.state + content), [Snapshot(target, c.state + content)])
  }

  function PublishPacket(src: Source, c: Caches, p: Packet): Effect {
    if IsState(p) then PublishState(src, c, src.parseState(p.payload), StateTopic(src.domain, src.entity))
    else if IsBattery(p) then PublishState(src, c, src.parseBattery(p.payload), BatteryTopic(src.domain, src.entity))
    else Effect(c, [])
  }

  type Publisher = (Caches, Packet) -> Effect

  /** Packets are handled in order, each from the caches the previous one left. */
  function Fold(publish: Publisher, c: Caches, ps: seq<Packet>): Effect {
    if ps == [] then Effect(c, [])
    else
      var e := Fold(publish, c, ps[..|ps| - 1]);
      var f := publish(e.caches, ps[|ps| - 1]);
      Effect(f.caches, e.published + f.published)
  }

  lemma FoldSnoc(publish: Publisher, c: Caches, ps: seq<Packet>, p: Packet)
    ensures var e := Fold(publish, c, ps);
            var f := publish(e.caches, p);
            Fold(publish, c, ps + [p]) == Effect(f.caches, e.published + f.published)
  {
    assert (ps + [p])[..|ps|] == ps;
  }

  lemma {:induction false} FoldAppend(publish: Publisher, c: Caches, a: seq<Packet>, b: seq<Packet>)
    ensures var e := Fold(publish, c, a);
            var f := Fold(publish, e.caches, b);
            Fold(publish, c, a + b) == Effect(f.caches, e.published + f.published)
    decreases |b|
  {
    if b == [] {
      assert a + b == a;
    } else {
      var init, p := b[..|b| - 1], b[|b| - 1];
      assert a + b == (a + init) + [p];
      FoldAppend(publish, c, a, init);
      FoldSnoc(publish, c, a + init, p);
    }
  }

  function PublisherOf(src: Source): (r: Publisher)
    ensures forall c, p :: r(c, p) == PublishPacket(src, c, p)
  {
    (c: Caches, p: Packet) => PublishPacket(src, c, p)
  }

  function PublishPackets(src: Source, c: Caches, ps: seq<Packet>): Effect {
    Fold(PublisherOf(src), c, ps)
  }

  /** Publishing in two batches is publishing in one. */
  lemma PublishAppend(src: Source, c: Caches, a: seq<Packet>, b: seq<Packet>)
    ensures var e := PublishPackets(src, c, a);
            var f := PublishPackets(src, e.caches, b);
            PublishPackets(src, c, a + b) == Effect(f.caches, e.published + f.published)
  {
    FoldAppend(PublisherOf(src), c, a, b);
  }

  // ----- what the snapshots on one topic are -----

  function OnTopic(ss: seq<Snapshot>, topic: string): seq<Dict> {
    if ss == [] then []
    else OnTopic(ss[..|ss| - 1], topic) + if ss[|ss| - 1].topic == topic then [ss[|ss| - 1].content] else []
  }

  lemma {:induction false} OnTopicAppend(a: seq<Snapshot>, b: seq<Snapshot>, topic: string)
    ensures OnTopic(a + b, topic) == OnTopic(a, topic) + OnTopic(b, topic)
    decreases |b|
  {
    if b == [] {
      assert a + b == a;
    } else {
      assert (a + b)[..|a + b| - 1] == a + b[..|b| - 1];
      OnTopicAppend(a, b[..|b| - 1], topic);
    }
  }

  /** The parsed payloads of the packets of one kind, in order. */
  function Parsed(ps: seq<Packet>, kind: Packet -> bool, parse: bytes -> Dict): seq<Dict> {
    if ps == [] then []
    else Parsed(ps[..|ps| - 1], kind, parse) + if kind(ps[|ps| - 1]) then [parse(ps[|ps| - 1].payload)] else []
  }

  lemma OnTopicOne(x: Snapshot, topic: string)
    ensures OnTopic([x], topic) == if x.topic == topic then [x.content] else []
  {
    assert [x][..0] == [];
  }

  /** What one packet publishes on each topic, and what it does to each cache. */
  lemma OnePacket(src: Source, c: Caches, p: Packet)
    ensures var f := PublishPacket(src, c, p);
            var state, battery := c.state + src.parseState(p.payload), c.battery + src.parseBattery(p.payload);
      && OnTopic(f.published, StateTopic(src.domain, src.entity)) == (if IsState(p) then [state] else [])
      && OnTopic(f.published, BatteryTopic(src.domain, src.entity)) == (if IsBattery(p) then [battery] else [])
      && |f.published| == (if IsState(p) || IsBattery(p) then 1 else 0)
      && f.caches.state == (if IsState(p) then state else c.state)
      && f.caches.battery == (if IsBattery(p) then battery else c.battery)
      && !(IsState(p) && IsBattery(p))
  {
    TopicsDiffer(src.domain, src.entity);
    var f := PublishPacket(src, c, p);
    if f.published != [] {
      OnTopicOne(f.published[0], StateTopic(src.domain, src.entity));
      OnTopicOne(f.published[0], BatteryTopic(src.domain, src.entity));
      assert f.published == [f.published[0]];
    }
  }

  /**
   In octets: a packet of command 14/01 publishes one snapshot, on the state topic, and one of command 14/04
   publishes one snapshot, on the battery topic: the cache of that topic with the parsed payload merged into it.
   Every other packet publishes nothing, and no packet touches the other cache.
   */
  lemma PacketPublishesExactly(src: Source, c: Caches, p: Packet)
    ensures var f := PublishPacket(src, c, p);
            var state, battery := c.state + src.parseState(p.payload), c.battery + src.parseBattery(p.payload);
      && (p.cmdSet == 0x14 && p.cmdId == 0x01 ==>
            && f.published == [Snapshot(src.domain + "/" + src.entity + "/state", state)]
            && f.caches == Caches(state, c.battery))
      && (p.cmdSet == 0x14 && p.cmdId == 0x04 ==>
            && f.published == [Snapshot(src.domain + "/" + src.entity + "_battery/state", battery)]
            && f.caches == Caches(c.state, battery))
      && (p.cmdSet != 0x14 || (p.cmdId != 0x01 && p.cmdId != 0x04) ==> f == Effect(c, []))
  {
    TopicsDiffer(src.domain, src.entity);
  }

  /** The snapshots on one topic extend its running merges, if the packet is of its kind. */
  lemma TopicStep(base: Dict, ds: seq<Dict>, d: Dict, before: seq<Snapshot>, added: seq<Snapshot>, topic: string, mine: bool)
    requires OnTopic(before, topic) == RunningMerges(base, ds)
    requires OnTopic(added, topic) == if mine then [MergeAll(base, ds) + d] else []
    ensures OnTopic(before + added, topic) == RunningMerges(base, ds + if mine then [d] else [])
    ensures MergeAll(base, ds + if mine then [d] else []) == if mine then MergeAll(base, ds) + d else MergeAll(base, ds)
  {
    OnTopicAppend(before, added, topic);
    RunningMergesSnoc(base, ds, d);
    MergeAllSnoc(base, ds, d);
    assert ds + [] == ds;
  }

  /**
   The snapshots on the state topic are the running merges of the parsed state payloads and nothing
   else, likewise for the battery topic: the two caches never mix.
   */
  lemma {:induction false} SnapshotsAreRunningMerges(src: Source, c: Caches, ps: seq<Packet>)
    ensures var e := PublishPackets(src, c, ps);
            var state, battery := Parsed(ps, IsState, src.parseState), Parsed(ps, IsBattery, src.parseBattery);
      && OnTopic(e.published, StateTopic(src.domain, src.entity)) == RunningMerges(c.state, state)
      && OnTopic(e.published, BatteryTopic(src.domain, src.entity)) == RunningMerges(c.battery, battery)
      && |e.published| == |state| + |battery|
      && e.caches == Caches(MergeAll(c.state, state), MergeAll(c.battery, battery))
    decreases |ps|
  {
    if ps != [] {
      var init, p := ps[..|ps| - 1], ps[|ps| - 1];
      SnapshotsAreRunningMerges(src, c, init);
      var e := PublishPackets(src, c, init);
      var f := PublishPacket(src, e.caches, p);
      var state, battery := Parsed(init, IsState, src.parseState), Parsed(init, IsBattery, src.parseBattery);
      OnePacket(src, e.caches, p);
      TopicStep(c.state, state, src.parseState(p.payload), e.published, f.published,
                StateTopic(src.domain, src.entity), IsState(p));
      TopicStep(c.battery, battery, src.parseBattery(p.payload), e.published, f.published,
                BatteryTopic(src.domain, src.entity), IsBattery(p));
    }
  }
}
