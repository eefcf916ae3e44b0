/** What holds of the Delta 2 adapter in every interleaving, and what does not. */
module Delta2Guarantees {
  import opened AdapterState
  import opened Bytes
  import opened Delta2Protocol
  import opened Delta2Machine
  import opened StreamDecoder

  /** The buffer follows from the bytes received since the adapter was made, however they were cut. */
  lemma BufferFollowsTheStream(ps: Parsers, actions: seq<Action>, chunks: seq<bytes>)
    requires chunks != [] && Concat(chunks) == Execute(ps, Initial(), actions).received
    ensures var s := Execute(ps, Initial(), actions);
            s.rx == Feed(DecodeStep, [], chunks).rest && |s.rx| <= 257
  {
    var s := Execute(ps, Initial(), actions);
    AlwaysInv(ps, actions);
    ChunkInvariant([], chunks);
    assert [] + Concat(chunks) == s.received;
    RestIsBounded(s.received);
  }

  /** An ok health means online, both inside the adapter and for whoever listens on the bus. */
  lemma OkMeansOnline(ps: Parsers, actions: seq<Action>, i: nat)
    ensures var s := Execute(ps, Initial(), actions);
      && (s.health == Ok ==> Online(s.status))
      && (i < |s.events| && s.events[i] == HealthEvent(Ok) ==>
            i > 0 && s.events[i - 1].StateEvent? && Online(s.events[i - 1].content))
  {
    AlwaysInv(ps, actions);
  }

  // ----- one action -----

  /** What each kind of action does to the adapter and says on the bus, told from the fields alone. */
  lemma ActionsDo(ps: Parsers, s: State, a: Action)
    ensures var t := Next(ps, s, a);
      match a
      case Start(made) =>
        t == s.(task := t.task, phase := t.phase, link := t.link)
        && (s.phase == Off ==> t.phase == if made then Starting else On)
        && (s.phase == Off && made ==> t.task == Connecting && t.link == Down)
      case LinkComesUp => t == if s.task == Connecting || s.task == Reconnecting then s.(link := Up) else s
      case ConnectEnds(ok, lost) =>
        s.task == Connecting || s.task == Reconnecting ==>
          && t.task == Sleeping && t.link == (if ok && !lost then Up else Down)
          && t.status == (if ok then s.status["online" := "True"] else s.status)
      case Wake(heartbeat) =>
        s.task == Sleeping ==>
          && "heartbeat" in t.status && t.status["heartbeat"] == heartbeat
          && t.task == (if s.link == Down then Reconnecting else Sleeping)
          && t.health == (if s.link == Up then s.health else Failed)
      case Notify(data) => t.received == s.received + data && t.link == s.link && t.task == s.task
      case NotifyLegacy(data) => t.status == (s.status + ps.legacy(data))["online" := "True"] && t.health == Ok
      case Issue(c) =>
        && t.issued == (if s.link == Up then s.issued + [c.frame] else s.issued)
        && t.pending == (if s.link == Up then s.pending + [c] else s.pending)
        && t.health == (if s.link == Down then Failed else s.health) && t.status == s.status
      case Unsupported(name) =>
        t.status == s.status["last_error" := "unsupported_command:" + name] && t.health == s.health && t.issued == s.issued
      case CommandEnds(ok) =>
        s.pending != [] ==> t.pending == s.pending[1..] && t.health == (if ok then s.health else Failed) && t.status == s.status
      case PeerVanishes => t == s.(link := if s.link == Absent then Absent else Down)
      case Stop =>
        s.phase == Off || s.phase == On ==>
          t.task == Idle && t.link == s.link && t.phase == if s.link == Absent then Off else Stopping
      case DisconnectEnds(ok) => s.phase == Stopping ==> t.phase == (if ok then Off else On)
  {
    if a.Notify? {
      NotificationHeard(ps, s, a.data);
    }
  }

  // ----- what notifications do -----

  /** Is there a status packet? */
  predicate HasStatus(packets: seq<Packet>) {
    exists i :: 0 <= i < |packets| && packets[i].kind == KIND_STATUS
  }

  lemma HasStatusSnoc(packets: seq<Packet>, p: Packet)
    ensures HasStatus(packets + [p]) <==> HasStatus(packets) || p.kind == KIND_STATUS
  {
    var all := packets + [p];
    if HasStatus(packets) {
      var i :| 0 <= i < |packets| && packets[i].kind == KIND_STATUS;
      assert all[i].kind == KIND_STATUS;
    }
    if p.kind == KIND_STATUS {
      assert all[|packets|].kind == KIND_STATUS;
    }
  }

  lemma {:induction false} HasStatusAppend(a: seq<Packet>, b: seq<Packet>)
    ensures HasStatus(a + b) <==> HasStatus(a) || HasStatus(b)
    decreases |b|
  {
    if b == [] {
      assert a + b == a;
    } else {
      var init, p := b[..|b| - 1], b[|b| - 1];
      HasStatusAppend(a, init);
      HasStatusSnoc(a + init, p);
      HasStatusSnoc(init, p);
      assert a + b == (a + init) + [p];
      assert b == init + [p];
    }
  }

  /** A batch of packets makes the adapter ok and online if a status packet is among them, else it changes neither. */
  lemma {:induction false} PacketsHeard(ps: Parsers, s: State, packets: seq<Packet>)
    ensures var t := HandlePackets(ps, s, packets);
      && t == s.(status := t.status, health := t.health, events := t.events)
      && t.health == (if HasStatus(packets) then Ok else s.health)
      && (Online(t.status) <==> HasStatus(packets) || Online(s.status))
      && (s.phase == Off ==> t.events == s.events)
    decreases |packets|
  {
    if packets != [] {
      var init, p := packets[..|packets| - 1], packets[|packets| - 1];
      PacketsHeard(ps, s, init);
      HasStatusSnoc(init, p);
      assert packets == init + [p];
    }
  }

  /** Is status heard in this action? */
  predicate Hears(s: State, a: Action) {
    a.NotifyLegacy? || (a.Notify? && HasStatus(Run(DecodeStep, s.rx + a.data).packets))
  }

  lemma NotificationHeard(ps: Parsers, s: State, data: bytes)
    ensures var t, d := NotifyStep(ps, s, data), Run(DecodeStep, s.rx + data);
      && t == s.(rx := d.rest, received := s.received + data,
                 status := t.status, health := t.health, events := t.events)
      && t.health == (if HasStatus(d.packets) then Ok else s.health)
      && (Online(t.status) <==> HasStatus(d.packets) || Online(s.status))
      && (s.phase == Off ==> t.events == s.events)
  {
    var d := Run(DecodeStep, s.rx + data);
    PacketsHeard(ps, s.(rx := d.rest, received := s.received + data), d.packets);
  }

  /** The bytes the actions notify. */
  function BytesOf(actions: seq<Action>): bytes {
    if actions == [] then []
    else
      var a := actions[|actions| - 1];
      BytesOf(actions[..|actions| - 1]) + if a.Notify? then a.data else []
  }

  lemma DecodeOneMore(rx: bytes, heard: bytes, data: bytes)
    ensures var d := Run(DecodeStep, rx + heard);
            Run(DecodeStep, rx + (heard + data)) == Prepend(d.packets, Run(DecodeStep, d.rest + data))
    ensures var d := Run(DecodeStep, rx + heard);
            data == [] ==> Run(DecodeStep, d.rest + data) == Decoded([], d.rest)
  {
    StepIsStable();
    RunAppend(DecodeStep, rx + heard, data);
    Reassociate(rx, heard, data);
    if data == [] {
      var d := Run(DecodeStep, rx + heard);
      RestIsFixed(DecodeStep, rx + heard);
      assert d.rest + data == d.rest;
    }
  }

  /** Whatever happens, the buffer continues the decoding of what it held. */
  lemma {:induction false} BufferAfter(ps: Parsers, s: State, actions: seq<Action>)
    requires DecodeStep(s.rx).Wait?
    ensures Execute(ps, s, actions).rx == Run(DecodeStep, s.rx + BytesOf(actions)).rest
    decreases |actions|
  {
    if actions == [] {
      assert s.rx + BytesOf(actions) == s.rx;
    } else {
      var init, a := actions[..|actions| - 1], actions[|actions| - 1];
      var t := Execute(ps, s, init);
      BufferAfter(ps, s, init);
      DecodeOneMore(s.rx, BytesOf(init), if a.Notify? then a.data else []);
      if a.Notify? {
        NotificationHeard(ps, t, a.data);
      } else {
        ReceiveFrame(ps, t, a);
      }
    }
  }

  predicate NoLegacy(actions: seq<Action>) {
    forall i :: 0 <= i < |actions| ==> !actions[i].NotifyLegacy?
  }

  lemma NoLegacySnoc(init: seq<Action>, a: Action)
    ensures NoLegacy(init + [a]) <==> NoLegacy(init) && !a.NotifyLegacy?
  {
    assert (init + [a])[|init|] == a;
    assert forall i :: 0 <= i < |init| ==> (init + [a])[i] == init[i];
  }

  /** No legacy notification, and no status packet in what the buffer holds followed by the bytes notified. */
  predicate NothingHeard(rx: bytes, actions: seq<Action>) {
    NoLegacy(actions) && !HasStatus(Run(DecodeStep, rx + BytesOf(actions)).packets)
  }

  lemma NothingHeardYet(rx: bytes)
    requires DecodeStep(rx).Wait?
    ensures NothingHeard(rx, [])
  {
    assert rx + BytesOf([]) == rx;
  }

  lemma StatusSnoc(rx: bytes, heard: bytes, data: bytes)
    ensures var d := Run(DecodeStep, rx + heard);
            HasStatus(Run(DecodeStep, rx + (heard + data)).packets) <==>
              HasStatus(d.packets) || HasStatus(Run(DecodeStep, d.rest + data).packets)
  {
    var d := Run(DecodeStep, rx + heard);
    DecodeOneMore(rx, heard, data);
    HasStatusAppend(d.packets, Run(DecodeStep, d.rest + data).packets);
  }

  /** One more action: nothing is heard if nothing was heard before and nothing is heard in it. */
  lemma NothingHeardSnoc(ps: Parsers, s: State, init: seq<Action>, a: Action)
    requires DecodeStep(s.rx).Wait?
    ensures NothingHeard(s.rx, init + [a]) <==> NothingHeard(s.rx, init) && !Hears(Execute(ps, s, init), a)
  {
    var all, data := init + [a], if a.Notify? then a.data else [];
    assert all[..|init|] == init;
    BufferAfter(ps, s, init);
    StatusSnoc(s.rx, BytesOf(init), data);
    DecodeOneMore(s.rx, BytesOf(init), []);
    NoLegacySnoc(init, a);
  }

  lemma ReachableWaits(ps: Parsers, actions: seq<Action>)
    ensures DecodeStep(Execute(ps, Initial(), actions).rx).Wait?
  {
    AlwaysInv(ps, actions);
    RestIsBounded(Execute(ps, Initial(), actions).received);
  }

  lemma {:induction false} ExecuteAppend(ps: Parsers, s: State, a: seq<Action>, b: seq<Action>)
    ensures Execute(ps, s, a + b) == Execute(ps, Execute(ps, s, a), b)
    decreases |b|
  {
    if b == [] {
      assert a + b == a;
    } else {
      var init, x := b[..|b| - 1], b[|b| - 1];
      assert (a + b)[..|a + b| - 1] == a + init && (a + b)[|a + b| - 1] == x;
      ExecuteAppend(ps, s, a, init);
    }
  }

  // ----- connecting -----

  /** The end of a connect, and what is said about it. */
  predicate Announced(s: State, ok: bool, t: State) {
    && t.events == s.events + [StateEvent(t.status), HealthEvent(t.health)]
    && t.task == Sleeping && t.phase == On
    && t.health == (if ok then Ok else if s.task == Connecting then Degraded else Failed)
    && (Online(t.status) <==> ok || Online(s.status))
  }

  lemma ConnectAnnounces(s: State, ok: bool, lost: bool)
    requires s.phase != Off && (s.task == Connecting || s.task == Reconnecting)
    ensures Announced(s, ok, ConnectStep(s, ok, lost))
  {
  }

  /**
   However a connect or reconnect comes to its end, exactly one state and one health go out, the health is ok
   if and only if it succeeded, and the state is online if and only if it succeeded or already was.
   */
  lemma ConnectIsAnnounced(ps: Parsers, actions: seq<Action>, ok: bool, lost: bool)
    requires var s := Execute(ps, Initial(), actions); s.task == Connecting || s.task == Reconnecting
    ensures var s := Execute(ps, Initial(), actions); Announced(s, ok, Next(ps, s, ConnectEnds(ok, lost)))
  {
    AlwaysInv(ps, actions);
    ConnectAnnounces(Execute(ps, Initial(), actions), ok, lost);
  }

  /** Neither the end of a connect nor a stop: the reconnect stays pending. */
  predicate Meanwhile(a: Action) {
    !a.ConnectEnds? && !a.Stop?
  }

  lemma PendingStep(ps: Parsers, s: State, a: Action)
    requires s.task == Reconnecting && s.phase == On && Meanwhile(a)
    ensures var t := Next(ps, s, a);
            t.task == Reconnecting && t.phase == On && (Online(t.status) <==> Online(s.status) || Hears(s, a))
  {
    if a.Notify? {
      NotificationHeard(ps, s, a.data);
    }
  }

  lemma {:induction false} PendingRun(ps: Parsers, s: State, actions: seq<Action>)
    requires s.task == Reconnecting && s.phase == On && DecodeStep(s.rx).Wait?
    requires forall i :: 0 <= i < |actions| ==> Meanwhile(actions[i])
    ensures var t := Execute(ps, s, actions);
      && t.task == Reconnecting && t.phase == On
      && (Online(t.status) <==> Online(s.status) || !NothingHeard(s.rx, actions))
    decreases |actions|
  {
    if actions == [] {
      NothingHeardYet(s.rx);
    } else {
      var init, a := actions[..|actions| - 1], actions[|actions| - 1];
      PendingRun(ps, s, init);
      PendingStep(ps, Execute(ps, s, init), a);
      NothingHeardSnoc(ps, s, init, a);
      assert actions == init + [a];
    }
  }

  lemma PollGoesOffline(s: State, heartbeat: string)
    requires Lifecycle(s) && s.task == Sleeping && s.link == Down
    ensures var t := WakeStep(s, heartbeat);
      && t.task == Reconnecting && t.phase == On && t.events == s.events && t.rx == s.rx
      && !Online(t.status) && t.health == Failed
  {
  }

  lemma ReconnectRun(ps: Parsers, s: State, during: seq<Action>, ok: bool, lost: bool)
    requires s.task == Reconnecting && s.phase == On && DecodeStep(s.rx).Wait? && !Online(s.status)
    requires forall i :: 0 <= i < |during| ==> Meanwhile(during[i])
    ensures var u := Execute(ps, s, during);
            var v := ConnectStep(u, ok, lost);
      && v.events == u.events + [StateEvent(v.status), HealthEvent(v.health)]
      && v.task == Sleeping && v.health == (if ok then Ok else Failed)
      && (Online(v.status) <==> ok || !NothingHeard(s.rx, during))
  {
    PendingRun(ps, s, during);
    ConnectAnnounces(Execute(ps, s, during), ok, lost);
  }

  /**
   A poll that finds the link down goes offline without a word and reconnects.  Whatever interleaves with the
   pending reconnect, its end announces the outcome: ok if and only if it succeeded, online if and only if it
   succeeded or status was heard meanwhile.
   */
  lemma ReconnectIsAnnounced(ps: Parsers, before: seq<Action>, heartbeat: string, during: seq<Action>, ok: bool, lost: bool)
    requires var s := Execute(ps, Initial(), before); s.task == Sleeping && s.link == Down
    requires forall i :: 0 <= i < |during| ==> Meanwhile(during[i])
    ensures var s := Execute(ps, Initial(), before);
            var t := WakeStep(s, heartbeat);
            var u := Execute(ps, t, during);
            var v := ConnectStep(u, ok, lost);
      && t.task == Reconnecting && t.events == s.events && !Online(t.status) && t.health == Failed
      && v.events == u.events + [StateEvent(v.status), HealthEvent(v.health)]
      && v.task == Sleeping && v.health == (if ok then Ok else Failed)
      && (Online(v.status) <==> ok || !NothingHeard(s.rx, during))
  {
    var s := Execute(ps, Initial(), before);
    AlwaysInv(ps, before);
    ReachableWaits(ps, before);
    PollGoesOffline(s, heartbeat);
    ReconnectRun(ps, WakeStep(s, heartbeat), during, ok, lost);
  }

  // ----- stopping -----

  /** Stopped for good: no bus, no connection, no task. */
  predicate Resting(s: State) {
    s.phase == Off && s.link == Absent && s.task == Idle && DecodeStep(s.rx).Wait?
  }

  /** After stop the state can still change, but nothing is published or written. */
  predicate Mute(s: State, t: State) {
    Resting(t) && t.events == s.events && t.issued == s.issued
  }

  /** Wherever a run has got to, without the bus the adapter rests. */
  lemma OffIsResting(ps: Parsers, actions: seq<Action>)
    ensures var s := Execute(ps, Initial(), actions); s.phase == Off ==> Resting(s)
  {
    AlwaysInv(ps, actions);
    ReachableWaits(ps, actions);
  }

  /** Where a stop that came to its end leaves the adapter, and what it said last. */
  predicate Ended(s: State, t: State) {
    && Resting(t) && t.health == Failed && !Online(t.status)
    && t.events == s.events + if s.phase == Off then [] else [StateEvent(t.status), HealthEvent(Failed)]
  }

  /** A stop without a connection is over at once. */
  lemma StopWithoutConnection(ps: Parsers, actions: seq<Action>)
    requires var s := Execute(ps, Initial(), actions); s.phase != Starting && s.phase != Stopping && s.link == Absent
    ensures var s := Execute(ps, Initial(), actions); Ended(s, Next(ps, s, Stop))
  {
    ReachableWaits(ps, actions);
  }

  /** A stop that waits for its disconnect leaves the adapter resting if and only if the disconnect does not raise. */
  lemma StopEndsExactly(ps: Parsers, actions: seq<Action>, ok: bool)
    requires Execute(ps, Initial(), actions).phase == Stopping
    ensures var s := Execute(ps, Initial(), actions);
            var t := Next(ps, s, DisconnectEnds(ok));
      && (Resting(t) <==> ok)
      && (ok ==> Ended(s, t))
      && (!ok ==> t.events == s.events && t.health == s.health && t.phase == On)
  {
    AlwaysInv(ps, actions);
    ReachableWaits(ps, actions);
  }

  lemma LateAction(ps: Parsers, s: State, a: Action)
    requires Resting(s) && !a.Start?
    ensures var t := Next(ps, s, a);
      && Mute(s, t)
      && (Hears(s, a) ==> t.health == Ok)
      && (!Hears(s, a) ==> t.health == s.health || t.health == Failed)
  {
    if a.Notify? {
      NotificationHeard(ps, s, a.data);
      RestIsBounded(s.rx + a.data);
    }
  }

  lemma {:induction false} RestingIsMute(ps: Parsers, s: State, late: seq<Action>)
    requires Resting(s) && forall a <- late :: !a.Start?
    ensures Mute(s, Execute(ps, s, late))
    decreases |late|
  {
    if late != [] {
      var init := late[..|late| - 1];
      RestingIsMute(ps, s, init);
      LateAction(ps, Execute(ps, s, init), late[|late| - 1]);
    }
  }

  /** After any stop that came to its end, whatever arrives until the next start, nothing is published or written. */
  lemma NothingAfterStop(ps: Parsers, before: seq<Action>, late: seq<Action>)
    requires Execute(ps, Initial(), before).phase == Off && forall a <- late :: !a.Start?
    ensures Mute(Execute(ps, Initial(), before), Execute(ps, Initial(), before + late))
  {
    OffIsResting(ps, before);
    RestingIsMute(ps, Execute(ps, Initial(), before), late);
    ExecuteAppend(ps, Initial(), before, late);
  }

  ghost predicate FailedThroughout(ps: Parsers, s: State, actions: seq<Action>) {
    forall n :: 0 <= n <= |actions| ==> Execute(ps, s, actions[..n]).health == Failed
  }

  lemma FailedThroughoutSnoc(ps: Parsers, s: State, init: seq<Action>, a: Action)
    ensures FailedThroughout(ps, s, init + [a]) <==>
              FailedThroughout(ps, s, init) && Execute(ps, s, init + [a]).health == Failed
  {
    var all := init + [a];
    assert all[..|all|] == all;
    forall n | 0 <= n <= |init|
      ensures all[..n] == init[..n]
    {
    }
    if FailedThroughout(ps, s, all) {
      forall n | 0 <= n <= |init|
        ensures Execute(ps, s, init[..n]).health == Failed
      {
        assert Execute(ps, s, all[..n]).health == Failed;
      }
    }
  }

  lemma {:induction false} RestingStaysFailed(ps: Parsers, s: State, late: seq<Action>)
    requires Resting(s) && s.health == Failed && forall a <- late :: !a.Start?
    ensures FailedThroughout(ps, s, late) <==> NothingHeard(s.rx, late)
    decreases |late|
  {
    if late == [] {
      NothingHeardYet(s.rx);
    } else {
      var init, a := late[..|late| - 1], late[|late| - 1];
      var t := Execute(ps, s, init);
      assert late == init + [a];
      RestingStaysFailed(ps, s, init);
      RestingIsMute(ps, s, init);
      FailedThroughoutSnoc(ps, s, init, a);
      NothingHeardSnoc(ps, s, init, a);
      LateAction(ps, t, a);
      assert init[..|init|] == init;
    }
  }

  /**
   After any stop that came to its end, the health stays failed until the next start if and only if no legacy
   notification arrives and the late bytes, behind what the buffer still holds, complete no status packet.
   */
  lemma StaysFailedExactly(ps: Parsers, before: seq<Action>, late: seq<Action>)
    requires var s := Execute(ps, Initial(), before); s.phase == Off && s.health == Failed
    requires forall a <- late :: !a.Start?
    ensures var s := Execute(ps, Initial(), before);
            FailedThroughout(ps, s, late) <==> NothingHeard(s.rx, late)
  {
    OffIsResting(ps, before);
    RestingStaysFailed(ps, Execute(ps, Initial(), before), late);
  }

  /** Any status packet that arrives late brings a stopped adapter back to ok and online. */
  lemma LateStatusRevives(ps: Parsers, s: State, data: bytes)
    requires Inv(s) && Resting(s) && HasStatus(Run(DecodeStep, s.rx + data).packets)
    ensures var t := NotifyStep(ps, s, data);
            Resting(t) && t.health == Ok && Online(t.status)
  {
    LateAction(ps, s, Notify(data));
    NotifyKeeps(ps, s, data);
  }

  lemma ExecuteSnoc(ps: Parsers, init: seq<Action>, a: Action)
    ensures Execute(ps, Initial(), init + [a]) == Next(ps, Execute(ps, Initial(), init), a)
  {
    assert (init + [a])[..|init|] == init;
  }

  /** The adapter connected, then stopped. */
  function Connected(): seq<Action> {
    ([] + [Start(true)]) + [ConnectEnds(true, false)]
  }

  function ConnectedAndStopped(): seq<Action> {
    (Connected() + [Stop]) + [DisconnectEnds(true)]
  }

  lemma AfterConnecting(ps: Parsers)
    ensures var s := Execute(ps, Initial(), Connected());
            s.phase == On && s.link == Up && s.health == Ok && s.rx == []
  {
    ExecuteSnoc(ps, [], Start(true));
    ExecuteSnoc(ps, [] + [Start(true)], ConnectEnds(true, false));
  }

  lemma AfterStopping(ps: Parsers)
    ensures var s := Execute(ps, Initial(), ConnectedAndStopped());
            Resting(s) && s.health == Failed && s.rx == []
  {
    AfterConnecting(ps);
    ExecuteSnoc(ps, Connected(), Stop);
    ExecuteSnoc(ps, Connected() + [Stop], DisconnectEnds(true));
  }

  /** Health does not always stay failed after stop: one empty status packet, come late, is enough. */
  lemma LateNotificationRevives(ps: Parsers)
    ensures var s := Execute(ps, Initial(), ConnectedAndStopped());
            var t := NotifyStep(ps, s, [PACKET_PREFIX, KIND_STATUS, 0]);
            Resting(s) && s.health == Failed && Resting(t) && t.health == Ok && Online(t.status)
  {
    var frame, s := [PACKET_PREFIX, KIND_STATUS, 0], Execute(ps, Initial(), ConnectedAndStopped());
    AfterStopping(ps);
    AlwaysInv(ps, ConnectedAndStopped());
    assert s.rx + frame == frame;
    OneStatusPacket();
    LateStatusRevives(ps, s, frame);
  }

  lemma OneStatusPacket()
    ensures HasStatus(Run(DecodeStep, [PACKET_PREFIX, KIND_STATUS, 0]).packets)
  {
    var frame := [PACKET_PREFIX, KIND_STATUS, 0];
    assert frame[3..] == [];
    assert Run(DecodeStep, frame).packets[0].kind == KIND_STATUS;
  }
}
