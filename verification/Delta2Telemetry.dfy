/** What the Delta 2 adapter publishes for what it receives: the running merges of the parsed status packets. */
module Delta2Telemetry {
  import opened AdapterState
  import opened Bytes
  import opened Delta2Guarantees
  import opened Delta2Machine
  import opened Delta2Protocol
  import opened Merges
  import opened StreamDecoder

  /** What the packets of kind 1 say, each with the word that the device is online. */
  function Contents(ps: Parsers, packets: seq<Packet>): seq<Dict> {
    if packets == [] then []
    else
      var p := packets[|packets| - 1];
      Contents(ps, packets[..|packets| - 1])
        + if p.kind == 0x01 then [ps.status(p.payload)["online" := "True"]] else []
  }

  /** Each of these states, and behind it an ok health. */
  function Spoken(ds: seq<Dict>): seq<Event> {
    if ds == [] then []
    else Spoken(ds[..|ds| - 1]) + [StateEvent(ds[|ds| - 1]), HealthEvent(Ok)]
  }

  lemma {:induction false} SpokenAt(ds: seq<Dict>, i: nat)
    requires i < |ds|
    ensures |Spoken(ds)| == 2 * |ds| && Spoken(ds)[2 * i] == StateEvent(ds[i]) && Spoken(ds)[2 * i + 1] == HealthEvent(Ok)
    decreases |ds|
  {
    var init := ds[..|ds| - 1];
    if init != [] {
      SpokenAt(init, if i < |init| then i else 0);
    }
  }

  lemma SpokenSnoc(ds: seq<Dict>, d: Dict)
    ensures Spoken(ds + [d]) == Spoken(ds) + [StateEvent(d), HealthEvent(Ok)]
  {
    assert (ds + [d])[..|ds|] == ds;
  }

  /** These contents were heard: merged into the status and, while there is a bus, announced one by one. */
  ghost predicate Announces(s: State, t: State, contents: seq<Dict>) {
    && t.status == MergeAll(s.status, contents)
    && t.health == (if contents == [] then s.health else Ok)
    && t.events == s.events + if s.phase == Off then [] else Spoken(RunningMerges(s.status, contents))
  }

  lemma MergeOnline(base: Dict, content: Dict)
    ensures (base + content)["online" := "True"] == base + content["online" := "True"]
  {
  }

  lemma MergeStatusSays(t: State, content: Dict, d: Dict)
    requires d == content["online" := "True"]
    ensures MergeStatus(t, content)
         == t.(status := t.status + d, health := Ok,
               events := if t.phase == Off then t.events else t.events + [StateEvent(t.status + d), HealthEvent(Ok)])
  {
    MergeOnline(t.status, content);
  }

  lemma OneMoreSpoken(base: Dict, contents: seq<Dict>, d: Dict, events: seq<Event>)
    ensures events + Spoken(RunningMerges(base, contents + [d]))
         == (events + Spoken(RunningMerges(base, contents)))
            + [StateEvent(MergeAll(base, contents) + d), HealthEvent(Ok)]
  {
    var merges, now := RunningMerges(base, contents), MergeAll(base, contents) + d;
    RunningMergesSnoc(base, contents, d);
    SpokenSnoc(merges, now);
    Reassociate(events, Spoken(merges), [StateEvent(now), HealthEvent(Ok)]);
  }

  lemma OneMoreAnnounced(s: State, t: State, contents: seq<Dict>, content: Dict)
    requires Announces(s, t, contents) && t.phase == s.phase
    ensures Announces(s, MergeStatus(t, content), contents + [content["online" := "True"]])
  {
    var d := content["online" := "True"];
    MergeStatusSays(t, content, d);
    MergeAllSnoc(s.status, contents, d);
    OneMoreSpoken(s.status, contents, d, s.events);
  }

  /** A batch of packets is announced as the running merges of what its packets of kind 1 say. */
  lemma {:induction false} PacketsAnnounced(ps: Parsers, s: State, packets: seq<Packet>)
    ensures var t := HandlePackets(ps, s, packets);
      && Announces(s, t, Contents(ps, packets))
      && t == s.(status := t.status, health := t.health, events := t.events)
    decreases |packets|
  {
    if packets == [] {
      assert Spoken(RunningMerges(s.status, [])) == [];
      assert s.events + [] == s.events;
    } else {
      var init, p := packets[..|packets| - 1], packets[|packets| - 1];
      PacketsAnnounced(ps, s, init);
      if p.kind == 0x01 {
        OneMoreAnnounced(s, HandlePackets(ps, s, init), Contents(ps, init), ps.status(p.payload));
      } else {
        assert Contents(ps, init) + [] == Contents(ps, init);
      }
    }
  }

  // ----- a stretch of the stream -----

  function Notifies(chunks: seq<bytes>): seq<Action> {
    if chunks == [] then [] else [Notify(chunks[0])] + Notifies(chunks[1..])
  }

  lemma {:induction false} PacketsAppend(ps: Parsers, s: State, a: seq<Packet>, b: seq<Packet>)
    ensures HandlePackets(ps, s, a + b) == HandlePackets(ps, HandlePackets(ps, s, a), b)
    decreases |b|
  {
    if b == [] {
      assert a + b == a;
    } else {
      var init := b[..|b| - 1];
      assert (a + b)[..|a + b| - 1] == a + init;
      PacketsAppend(ps, s, a, init);
    }
  }

  /** Packets are handled alike whatever the buffer holds. */
  lemma PacketsIgnoreBuffer(ps: Parsers, s: State, packets: seq<Packet>, rx: bytes, received: bytes)
    ensures HandlePackets(ps, s.(rx := rx, received := received), packets)
         == HandlePackets(ps, s, packets).(rx := rx, received := received)
  {
    PacketsAnnounced(ps, s, packets);
    PacketsAnnounced(ps, s.(rx := rx, received := received), packets);
  }

  lemma TwoStretches(ps: Parsers, s: State, data: bytes, more: bytes)
    ensures NotifyStep(ps, NotifyStep(ps, s, data), more) == NotifyStep(ps, s, data + more)
  {
    var d := Run(DecodeStep, s.rx + data);
    var e := Run(DecodeStep, d.rest + more);
    StepIsStable();
    RunAppend(DecodeStep, s.rx + data, more);
    Reassociate(s.rx, data, more);
    Reassociate(s.received, data, more);
    var u := s.(rx := e.rest, received := s.received + (data + more));
    PacketsIgnoreBuffer(ps, s, d.packets, d.rest, s.received + data);
    PacketsIgnoreBuffer(ps, s, d.packets, u.rx, u.received);
    PacketsAppend(ps, u, d.packets, e.packets);
  }

  lemma NotifyNothing(ps: Parsers, s: State)
    requires DecodeStep(s.rx).Wait?
    ensures NotifyStep(ps, s, []) == s
  {
    assert s.rx + [] == s.rx && s.received + [] == s.received;
  }

  lemma NotifyOnce(ps: Parsers, s: State, data: bytes)
    ensures Execute(ps, s, [Notify(data)]) == NotifyStep(ps, s, data)
  {
    assert [Notify(data)][..0] == [];
  }

  /** However the bytes are cut, they are heard as if they had come at once. */
  lemma {:induction false} NotifiedAtOnce(ps: Parsers, s: State, chunks: seq<bytes>)
    requires DecodeStep(s.rx).Wait?
    ensures Execute(ps, s, Notifies(chunks)) == NotifyStep(ps, s, Concat(chunks))
    decreases |chunks|
  {
    if chunks == [] {
      NotifyNothing(ps, s);
    } else {
      var t := NotifyStep(ps, s, chunks[0]);
      NotificationHeard(ps, s, chunks[0]);
      RestIsBounded(s.rx + chunks[0]);
      NotifiedAtOnce(ps, t, chunks[1..]);
      NotifyOnce(ps, s, chunks[0]);
      ExecuteAppend(ps, s, [Notify(chunks[0])], Notifies(chunks[1..]));
      TwoStretches(ps, s, chunks[0], Concat(chunks[1..]));
    }
  }

  /**
   Wherever a run has got to, what then comes in, however it is cut, is merged into the status packet by packet
   and, while there is a bus, every merge goes out followed by an ok health; nothing else goes out.
   */
  lemma TelemetryFollowsTheStream(ps: Parsers, before: seq<Action>, chunks: seq<bytes>)
    ensures var s := Execute(ps, Initial(), before);
            var t, d := Execute(ps, s, Notifies(chunks)), Run(DecodeStep, s.rx + Concat(chunks));
            Announces(s, t, Contents(ps, d.packets)) && t.rx == d.rest && t.phase == s.phase
  {
    var s := Execute(ps, Initial(), before);
    var data := Concat(chunks);
    var d := Run(DecodeStep, s.rx + data);
    ReachableWaits(ps, before);
    NotifiedAtOnce(ps, s, chunks);
    PacketsAnnounced(ps, s.(rx := d.rest, received := s.received + data), d.packets);
  }

  /** Frames with gaps free of the prefix between them are heard as exactly the packets sent. */
  lemma SentIsAnnounced(ps: Parsers, before: seq<Action>, chunks: seq<bytes>, pieces: seq<Piece>)
    requires Execute(ps, Initial(), before).rx == [] && WellFormed(pieces) && Concat(chunks) == Spell(pieces)
    ensures var s := Execute(ps, Initial(), before);
            var t := Execute(ps, s, Notifies(chunks));
            Announces(s, t, Contents(ps, Packets(pieces))) && t.rx == []
  {
    var s := Execute(ps, Initial(), before);
    assert s.rx + Concat(chunks) == Spell(pieces);
    assert Concat([Spell(pieces)]) == Spell(pieces);
    ListRoundTrip(pieces, [Spell(pieces)]);
    FedOnce(Spell(pieces));
    TelemetryFollowsTheStream(ps, before, chunks);
  }

  lemma FedOnce(s: bytes)
    ensures Feed(DecodeStep, [], [s]) == Run(DecodeStep, s)
  {
    var d := Run(DecodeStep, s);
    assert [] + s == s && d.packets + [] == d.packets;
    assert Feed(DecodeStep, d.rest, []) == Decoded([], d.rest);
  }

  /** The compact legacy notification is one more content. */
  lemma LegacyAnnounced(ps: Parsers, s: State, data: bytes)
    ensures Announces(s, Next(ps, s, NotifyLegacy(data)), [ps.legacy(data)["online" := "True"]])
  {
    assert s.events + [] == s.events;
    assert Spoken(RunningMerges(s.status, [])) == [];
    OneMoreAnnounced(s, s, [], ps.legacy(data));
    assert [] + [ps.legacy(data)["online" := "True"]] == [ps.legacy(data)["online" := "True"]];
  }
}
