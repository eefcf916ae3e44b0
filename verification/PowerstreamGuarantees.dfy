/** What holds of the PowerStream adapter in every interleaving. */
module PowerstreamGuarantees {
  import opened AdapterState
  import opened Bytes
  import opened Cbc
  import opened Merges
  import opened Packets
  import opened StreamDecoder
  import opened Snapshots
  import opened Topics
  import opened PowerstreamMachine
  import Type1

  // ----- health is earned -----

  /** What the current epoch must show before the health may be ok. */
  ghost predicate Evidence(cfg: Config, epoch: seq<Mark>) {
    exists i :: Linked(epoch, i) && (cfg.profile.user ==> exists j, k :: Authenticated(epoch, i, j, k))
  }

  lemma StageIsEvidence(cfg: Config, epoch: seq<Mark>)
    requires Stage(epoch) >= if cfg.profile.user then 3 else 1
    ensures Evidence(cfg, epoch)
  {
    var i, j, k := StageShows(epoch);
    assert Linked(epoch, i);
    if cfg.profile.user {
      assert Authenticated(epoch, i, j, k);
    }
  }

  /**
   Whenever the health is ok, the connection object at hand came up with the notification handler since
   the last connect or reconnect began and, for a configured user, the auth-status packet and then the
   auth packet were written on it since.
   */
  lemma OkIsEarned(cfg: Config, actions: seq<Action>)
    ensures var s := Execute(cfg, Initial(), actions);
            s.health == Ok ==> s.phase != Off && s.link != Absent && Evidence(cfg, s.epoch)
  {
    AlwaysInv(cfg, actions);
    var s := Execute(cfg, Initial(), actions);
    if s.health == Ok {
      StageIsEvidence(cfg, s.epoch);
    }
  }

  /** There are only two ways into ok: connected without a user, or the auth packet written. */
  lemma WaysIntoOk(cfg: Config, s: State, a: Action)
    requires s.health != Ok && Next(cfg, s, a).health == Ok
    ensures || (s.task == Connecting && a.ConnectEnds? && a.ok && !cfg.profile.user)
            || (s.task == Proving && a == WriteEnds(true))
  {
  }

  /** The command whose write the task is suspended in. */
  predicate Writing(t: Task, c: Command) {
    || (t == Asking && c == AUTH_STATUS)
    || (t == Proving && c == AUTH)
    || (t == Polling && c == GET_STATUS)
  }

  /** This action, here, achieves what the mark says. */
  predicate Achieves(s: State, a: Action, m: Mark) {
    match m
    case LinkUp => s.task == Connecting && a.ConnectEnds? && a.ok
    case Written(c) =>
      || (a == WriteEnds(true) && Writing(s.task, c))
      || (a == CommandEnds(true) && s.pending != [] && s.pending[0] == c)
  }

  /** The epoch stands, starts anew, or shows one more achievement. */
  ghost predicate Honest(s: State, a: Action, t: State) {
    || t.epoch == s.epoch
    || t.epoch == []
    || exists m :: t.epoch == s.epoch + [m] && Achieves(s, a, m)
  }

  lemma CommandIsHonest(s: State, ok: bool)
    ensures Honest(s, CommandEnds(ok), CommandEndStep(s, ok))
  {
    if s.pending != [] && ok {
      assert Achieves(s, CommandEnds(ok), Written(s.pending[0]));
    }
  }

  lemma WriteIsHonest(s: State, ok: bool)
    ensures Honest(s, WriteEnds(ok), WriteStep(s, ok))
  {
    if ok {
      assert s.task == Asking ==> Achieves(s, WriteEnds(ok), Written(AUTH_STATUS));
      assert s.task == Proving ==> Achieves(s, WriteEnds(ok), Written(AUTH));
      assert s.task == Polling ==> Achieves(s, WriteEnds(ok), Written(GET_STATUS));
    }
  }

  lemma ConnectIsHonest(p: Profile, s: State, ok: bool, lost: bool)
    ensures Honest(s, ConnectEnds(ok, lost), ConnectStep(p, s, ok, lost))
  {
    if s.task == Connecting && ok {
      assert Achieves(s, ConnectEnds(ok, lost), LinkUp);
    }
  }

  /** Marks are set only for what was achieved, one at a time, and are void once a connect or reconnect begins. */
  lemma MarksAreTrue(cfg: Config, s: State, a: Action)
    ensures Honest(s, a, Next(cfg, s, a))
    ensures s.task != Connecting && Next(cfg, s, a).task == Connecting ==> Next(cfg, s, a).epoch == []
  {
    match a
    case ConnectEnds(ok, lost) => ConnectIsHonest(cfg.profile, s, ok, lost);
    case WriteEnds(ok) => WriteIsHonest(s, ok);
    case CommandEnds(ok) => CommandIsHonest(s, ok);
    case _ =>
  }

  /** Every byte that is listened to is taken in once, in order, until the buffer is dropped. */
  lemma BytesAreAccountedFor(cfg: Config, s: State, a: Action)
    ensures var t := Next(cfg, s, a);
            if a.Notify? && s.phase != Off && s.crypto == Yes then
              && t.inbox.since.received == s.inbox.since.received + a.data
              && t.inbox.since.base == s.inbox.since.base && t.inbox.since.before == s.inbox.since.before
              && s.inbox.published <= t.inbox.published
            else t.inbox == s.inbox || Restarts(s, t)
  {
    if !a.Notify? {
      AdvanceInbox(cfg.profile, s, a);
    }
  }

  // ----- stopping -----

  /** Where a stop that did not raise leaves the adapter. */
  predicate Quiet(s: State) {
    s.phase == Off && s.link == Absent && s.task == Idle && s.health == Failed
  }

  /** Quiet now, and nothing has gone out since. */
  predicate Silent(s: State, t: State) {
    Quiet(t) && t.inbox.published == s.inbox.published && t.reported == s.reported && t.issued == s.issued
  }

  lemma QuietIsKept(cfg: Config, s: State, a: Action)
    requires Quiet(s) && !a.Start?
    ensures Silent(s, Next(cfg, s, a))
  {
  }

  lemma {:induction false} QuietStaysQuiet(cfg: Config, s: State, late: seq<Action>)
    requires Quiet(s) && forall a <- late :: !a.Start?
    ensures Silent(s, Execute(cfg, s, late))
    decreases |late|
  {
    if late != [] {
      var init := late[..|late| - 1];
      QuietStaysQuiet(cfg, s, init);
      QuietIsKept(cfg, Execute(cfg, s, init), late[|late| - 1]);
    }
  }

  /** Wherever a run has got to, without the bus the adapter is quiet. */
  lemma OffIsQuiet(cfg: Config, actions: seq<Action>)
    ensures var s := Execute(cfg, Initial(), actions); s.phase == Off ==> Quiet(s)
  {
    AlwaysInv(cfg, actions);
  }

  /** After any stop that came to its end, until the next start, the health stays failed and nothing is published or written. */
  lemma StopIsFinal(cfg: Config, before: seq<Action>, late: seq<Action>)
    requires Execute(cfg, Initial(), before).phase == Off && forall a <- late :: !a.Start?
    ensures Silent(Execute(cfg, Initial(), before), Execute(cfg, Initial(), before + late))
  {
    OffIsQuiet(cfg, before);
    QuietStaysQuiet(cfg, Execute(cfg, Initial(), before), late);
    ExecuteAppend(cfg, Initial(), before, late);
  }

  lemma {:induction false} ExecuteAppend(cfg: Config, s: State, a: seq<Action>, b: seq<Action>)
    ensures Execute(cfg, s, a + b) == Execute(cfg, Execute(cfg, s, a), b)
    decreases |b|
  {
    if b == [] {
      assert a + b == a;
    } else {
      var init, x := b[..|b| - 1], b[|b| - 1];
      assert (a + b)[..|a + b| - 1] == a + init && (a + b)[|a + b| - 1] == x;
      ExecuteAppend(cfg, s, a, init);
    }
  }

  /** A stop without a connection is over at once, reporting failed last. */
  lemma StopWithoutConnection(cfg: Config, actions: seq<Action>)
    requires var s := Execute(cfg, Initial(), actions); s.phase != Starting && s.phase != Stopping && s.link == Absent
    ensures var s := Execute(cfg, Initial(), actions);
            var t := Next(cfg, s, Stop);
            Quiet(t) && t.reported == s.reported + if s.phase == Off then [] else [Failed]
  {
  }

  /** A stop that is waiting for its disconnect ends quietly if and only if the disconnect does not raise. */
  lemma StopEndsQuietlyExactly(cfg: Config, actions: seq<Action>, ok: bool)
    requires Execute(cfg, Initial(), actions).phase == Stopping
    ensures var s := Execute(cfg, Initial(), actions);
            var t := DisconnectStep(s, ok);
      && (Quiet(t) <==> ok)
      && (ok ==> t.reported == s.reported + [Failed])
      && (!ok ==> t.phase == On && t.link == Down && t.health == s.health && t.reported == s.reported)
  {
    AlwaysInv(cfg, actions);
  }

  /** While a stop waits for its disconnect no task is left that could turn the health ok. */
  lemma StoppingNeverTurnsOk(cfg: Config, actions: seq<Action>, a: Action)
    requires var s := Execute(cfg, Initial(), actions); s.phase == Stopping && s.health != Ok
    ensures Next(cfg, Execute(cfg, Initial(), actions), a).health != Ok
  {
    AlwaysInv(cfg, actions);
    var s := Execute(cfg, Initial(), actions);
    assert s.task == Idle;
    if Next(cfg, s, a).health == Ok {
      WaysIntoOk(cfg, s, a);
    }
  }

  // ----- snapshots -----

  /** The snapshots on both topics are the running merges of the parsed payloads of these packets. */
  ghost predicate PublishedFor(cfg: Config, base: Caches, ss: seq<Snapshot>, ps: seq<Packet>) {
    var src := cfg.source;
    var state, battery := Parsed(ps, IsState, src.parseState), Parsed(ps, IsBattery, src.parseBattery);
    && OnTopic(ss, StateTopic(src.domain, src.entity)) == RunningMerges(base.state, state)
    && OnTopic(ss, BatteryTopic(src.domain, src.entity)) == RunningMerges(base.battery, battery)
    && |ss| == |state| + |battery|
  }

  /**
   What has been published since the last connect or reconnect began is decided by the concatenation of
   the bytes received since, however they were cut: running merges of the parsed payloads, each kind on
   its own topic and over its own cache.
   */
  lemma SnapshotsFollowTheStream(cfg: Config, actions: seq<Action>, chunks: seq<bytes>)
    requires chunks != [] && Concat(chunks) == Execute(cfg, Initial(), actions).inbox.since.received
    ensures var x := Execute(cfg, Initial(), actions).inbox;
            var d := Feed(Type1.Decoder(cfg.key), [], chunks);
      && x.since.before <= |x.published|
      && PublishedFor(cfg, x.since.base, x.published[x.since.before..], d.packets)
      && x.rx == d.rest && |x.rx| <= 65556
  {
    var x := Execute(cfg, Initial(), actions).inbox;
    AlwaysInv(cfg, actions);
    Type1.ChunkInvariant(cfg.key, [], chunks);
    assert [] + Concat(chunks) == x.since.received;
    Type1.RestIsBounded(cfg.key, x.since.received);
    SnapshotsAreRunningMerges(cfg.source, x.since.base, Run(Type1.Decoder(cfg.key), x.since.received).packets);
  }

  /** When what was received spells intact frames, the snapshots are those of exactly the packets sent. */
  lemma SentIsPublished(cfg: Config, actions: seq<Action>, sent: seq<Type1.Sent>)
    requires ValidKey(cfg.key) && Type1.AllIntact(cfg.key, sent)
    ensures var x := Execute(cfg, Initial(), actions).inbox;
            x.since.received == Type1.Spell(sent) ==>
              && x.since.before <= |x.published|
              && PublishedFor(cfg, x.since.base, x.published[x.since.before..], Type1.ReceivedAll(sent))
              && x.rx == []
  {
    var chunks := [Type1.Spell(sent)];
    assert Concat(chunks) == Type1.Spell(sent);
    if Execute(cfg, Initial(), actions).inbox.since.received == Type1.Spell(sent) {
      SnapshotsFollowTheStream(cfg, actions, chunks);
      Type1.ListRoundTrip(cfg.key, sent, chunks);
    }
  }
}
