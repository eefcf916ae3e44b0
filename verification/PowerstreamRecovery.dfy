/** What brings the health of the PowerStream adapter back to ok, and what never does. */
module PowerstreamRecovery {
  import opened AdapterState
  import opened Bytes
  import opened Snapshots
  import opened PowerstreamMachine
  import opened PowerstreamGuarantees

  // ----- polling alone repairs nothing -----

  /** Nothing is being connected or authenticated, and the health is not ok. */
  predicate Parked(s: State) {
    s.phase == On && s.health != Ok && (s.task == Idle || s.task == Sleeping || s.task == Polling)
  }

  /** A poll fails here: it finds the link down, or its write raises. */
  predicate FailsPoll(s: State, a: Action) {
    || (s.task == Sleeping && a.Wake? && s.link != Up)
    || (s.task == Polling && a == WriteEnds(false))
  }

  /** Only a poll that fails, with a connection object to reconnect, gets the adapter out of there. */
  lemma ParkedStep(cfg: Config, s: State, a: Action)
    requires Parked(s) && !a.Stop?
    ensures Parked(Next(cfg, s, a)) <==> !(FailsPoll(s, a) && s.link != Absent)
  {
  }

  /** No poll fails with a connection object at hand. */
  predicate PollsGoWell(cfg: Config, s: State, actions: seq<Action>) {
    actions != [] ==>
      var init := actions[..|actions| - 1];
      var t := Execute(cfg, s, init);
      PollsGoWell(cfg, s, init) && !(FailsPoll(t, actions[|actions| - 1]) && t.link != Absent)
  }

  predicate ParkedThroughout(cfg: Config, s: State, actions: seq<Action>) {
    && Parked(Execute(cfg, s, actions))
    && (actions != [] ==> ParkedThroughout(cfg, s, actions[..|actions| - 1]))
  }

  /**
   A health that is not ok stays so, whatever notifications, commands and lost peers interleave, for exactly as
   long as no poll fails: polls that succeed never repair it.
   */
  lemma {:induction false} PollingRepairsNothing(cfg: Config, s: State, actions: seq<Action>)
    requires Parked(s) && forall a <- actions :: !a.Stop?
    ensures ParkedThroughout(cfg, s, actions) <==> PollsGoWell(cfg, s, actions)
    decreases |actions|
  {
    if actions != [] {
      var init := actions[..|actions| - 1];
      PollingRepairsNothing(cfg, s, init);
      if ParkedThroughout(cfg, s, init) {
        ParkedNow(cfg, s, init);
        ParkedStep(cfg, Execute(cfg, s, init), actions[|actions| - 1]);
      }
    }
  }

  lemma ParkedNow(cfg: Config, s: State, actions: seq<Action>)
    requires ParkedThroughout(cfg, s, actions)
    ensures Parked(Execute(cfg, s, actions))
  {
  }

  /** A command that fails between two polls, or during one, turns the health to failed until a poll fails too. */
  lemma CommandFailureSticks(cfg: Config, before: seq<Action>, actions: seq<Action>)
    requires var s := Execute(cfg, Initial(), before);
             s.phase == On && s.pending != [] && (s.task == Sleeping || s.task == Polling)
    requires forall a <- actions :: !a.Stop?
    ensures var t := Next(cfg, Execute(cfg, Initial(), before), CommandEnds(false));
            Parked(t) && (PollsGoWell(cfg, t, actions) ==> Execute(cfg, t, actions).health != Ok)
  {
    var t := Next(cfg, Execute(cfg, Initial(), before), CommandEnds(false));
    PollingRepairsNothing(cfg, t, actions);
    if PollsGoWell(cfg, t, actions) {
      ParkedNow(cfg, t, actions);
    }
  }

  // ----- a start that could not be set up -----

  /** There is no connection object, and nothing that would make one. */
  predicate Stranded(s: State) {
    s.phase == On && s.link == Absent && s.health == Failed && (s.task == Idle || s.task == Sleeping)
  }

  lemma StrandedStep(cfg: Config, s: State, a: Action)
    requires Stranded(s) && !a.Stop?
    ensures Stranded(Next(cfg, s, a)) && Next(cfg, s, a).issued == s.issued
  {
  }

  lemma {:induction false} StrandedStays(cfg: Config, s: State, actions: seq<Action>)
    requires Stranded(s) && forall a <- actions :: !a.Stop?
    ensures Stranded(Execute(cfg, s, actions)) && Execute(cfg, s, actions).issued == s.issued
    decreases |actions|
  {
    if actions != [] {
      var init := actions[..|actions| - 1];
      StrandedStays(cfg, s, init);
      StrandedStep(cfg, Execute(cfg, s, init), actions[|actions| - 1]);
    }
  }

  /**
   When the key or the connection object cannot be made, the poll loop that start leaves behind polls and fails
   for ever: until a stop the health stays failed and nothing is written.
   */
  lemma FailedSetupIsNeverRepaired(cfg: Config, before: seq<Action>, setup: Setup, actions: seq<Action>)
    requires var s := Execute(cfg, Initial(), before);
             s.phase == Off && cfg.profile.serial && (setup == NoConnection || (setup == NoCrypto && s.crypto == No))
    requires forall a <- actions :: !a.Stop?
    ensures var s := Execute(cfg, Initial(), before);
            var t := Execute(cfg, Next(cfg, s, Start(setup)), actions);
            t.health == Failed && t.link == Absent && t.issued == s.issued
  {
    OffIsQuiet(cfg, before);
    var s := Execute(cfg, Initial(), before);
    assert Stranded(StartStep(cfg.profile, s, setup));
    StrandedStays(cfg, Next(cfg, s, Start(setup)), actions);
  }

  // ----- recovery -----

  /** Everything but the ends of what the task waits for, and a stop. */
  predicate Bystander(a: Action) {
    !a.Stop? && !a.ConnectEnds? && !a.WriteEnds? && !a.WaitEnds?
  }

  predicate Bystanders(actions: seq<Action>) {
    forall i :: 0 <= i < |actions| ==> Bystander(actions[i])
  }

  predicate LosesPeer(actions: seq<Action>) {
    actions != [] && (LosesPeer(actions[..|actions| - 1]) || actions[|actions| - 1].PeerVanishes?)
  }

  function BytesOf(actions: seq<Action>): bytes {
    if actions == [] then []
    else
      var a := actions[|actions| - 1];
      BytesOf(actions[..|actions| - 1]) + if a.Notify? then a.data else []
  }

  /** The authentication writes among the writes issued. */
  function AuthWrites(commands: seq<Command>): seq<Command> {
    if commands == [] then []
    else
      var c := commands[|commands| - 1];
      AuthWrites(commands[..|commands| - 1]) + if c == AUTH_STATUS || c == AUTH then [c] else []
  }

  lemma AuthWritesSnoc(commands: seq<Command>, c: Command)
    ensures AuthWrites(commands + [c]) == AuthWrites(commands) + if c == AUTH_STATUS || c == AUTH then [c] else []
  {
    assert (commands + [c])[..|commands|] == commands;
  }

  /** The task waits in the same place, the bytes heard are in, and no authentication write was added. */
  ghost predicate Waited(s: State, t: State, heard: bytes, lost: bool) {
    && t.task == s.task && t.phase == s.phase && t.crypto == s.crypto && t.link != Absent
    && (s.task != Connecting ==> t.link == if lost then Down else s.link)
    && t.inbox.since == s.inbox.since.(received := s.inbox.since.received + heard)
    && AuthWrites(t.issued) == AuthWrites(s.issued)
  }

  ghost predicate Underway(s: State) {
    Busy(s.task) && s.phase == On && s.crypto == Yes && s.link != Absent
  }

  lemma CommandWaits(s: State, c: Command, ok: bool)
    requires Underway(s) && c != AUTH_STATUS && c != AUTH
    ensures Waited(s, CommandStep(s, c), [], false) && Waited(s, CommandEndStep(s, ok), [], false)
  {
    AuthWritesSnoc(s.issued, c);
    assert s.inbox.since.received + [] == s.inbox.since.received;
  }

  lemma BystanderStep(cfg: Config, s: State, a: Action)
    requires Underway(s) && Bystander(a)
    ensures Waited(s, Next(cfg, s, a), if a.Notify? then a.data else [], a.PeerVanishes?)
  {
    assert s.inbox.since.received + [] == s.inbox.since.received;
    match a
    case RequestStatus => CommandWaits(s, GET_STATUS, true);
    case SetLoadPower(_) => CommandWaits(s, SET_LOAD_POWER, true);
    case CommandEnds(ok) => CommandWaits(s, GET_STATUS, ok);
    case _ =>
  }

  lemma WaitedOn(s: State, t: State, u: State, heard: bytes, more: bytes, lost: bool, again: bool)
    requires Waited(s, t, heard, lost) && Waited(t, u, more, again)
    ensures Waited(s, u, heard + more, lost || again)
  {
    assert (s.inbox.since.received + heard) + more == s.inbox.since.received + (heard + more);
  }

  lemma {:induction false} BystandersWait(cfg: Config, s: State, actions: seq<Action>)
    requires Underway(s) && Bystanders(actions)
    ensures Waited(s, Execute(cfg, s, actions), BytesOf(actions), LosesPeer(actions))
    decreases |actions|
  {
    if actions == [] {
      assert s.inbox.since.received + [] == s.inbox.since.received;
    } else {
      var init, a := actions[..|actions| - 1], actions[|actions| - 1];
      var t := Execute(cfg, s, init);
      BystandersWait(cfg, s, init);
      BystanderStep(cfg, t, a);
      WaitedOn(s, t, Next(cfg, t, a), BytesOf(init), if a.Notify? then a.data else [],
               LosesPeer(init), a.PeerVanishes?);
    }
  }

  /** Away from authentication, and not ok: neither bystanders nor the end of a write change that. */
  predicate Out(s: State) {
    s.phase == On && s.health != Ok && (s.task == Sleeping || s.task == Polling || s.task == Connecting)
  }

  lemma OutStep(cfg: Config, s: State, a: Action)
    requires Out(s) && (Bystander(a) || a.WriteEnds?)
    ensures Out(Next(cfg, s, a))
  {
  }

  lemma {:induction false} OutStays(cfg: Config, s: State, actions: seq<Action>)
    requires Out(s) && Bystanders(actions)
    ensures Out(Execute(cfg, s, actions))
    decreases |actions|
  {
    if actions != [] {
      var init := actions[..|actions| - 1];
      OutStays(cfg, s, init);
      OutStep(cfg, Execute(cfg, s, init), actions[|actions| - 1]);
    }
  }

  /** The poll that fails, and whatever happens until connect returns. */
  function Reconnected(cfg: Config, s: State, r: seq<Action>): State {
    Next(cfg, Execute(cfg, Next(cfg, s, Wake), r), ConnectEnds(true, false))
  }

  /** Whatever happens until the auth-status packet is written. */
  function Asked(cfg: Config, s: State, r: seq<Action>): State {
    Next(cfg, Execute(cfg, s, r), WriteEnds(true))
  }

  /** Whatever happens until the reply has come or the wait is over. */
  function Replied(cfg: Config, s: State, r: seq<Action>): State {
    Next(cfg, Execute(cfg, s, r), WaitEnds)
  }

  /** Since the reconnect began: everything heard is in, and these authentication writes were issued. */
  ghost predicate SinceLoss(s: State, t: State, heard: bytes, writes: seq<Command>) {
    && t.inbox.since == Since(heard, s.inbox.caches, |s.inbox.published|)
    && AuthWrites(t.issued) == AuthWrites(s.issued) + writes
  }

  lemma LossStartsReconnect(s: State)
    requires s.crypto == Yes && s.phase == On && s.task == Sleeping && s.link == Down
    ensures var t := WakeStep(s);
      && Underway(t) && t.task == Connecting && t.issued == s.issued
      && t.inbox.since == Since([], s.inbox.caches, |s.inbox.published|)
  {
  }

  lemma ConnectAsks(p: Profile, s: State)
    requires p.user && Underway(s) && s.task == Connecting
    ensures var t := ConnectStep(p, s, true, false);
      && Underway(t) && t.task == Asking && t.link == Up && t.inbox == s.inbox
      && AuthWrites(t.issued) == AuthWrites(s.issued) + [AUTH_STATUS]
  {
    AuthWritesSnoc(s.issued, AUTH_STATUS);
  }

  lemma ReconnectedIsAsking(cfg: Config, s: State, r: seq<Action>)
    requires cfg.profile.user && s.crypto == Yes && s.phase == On && s.task == Sleeping && s.link == Down && Bystanders(r)
    ensures var t := Reconnected(cfg, s, r);
            Underway(t) && t.task == Asking && t.link == Up && SinceLoss(s, t, BytesOf(r), [AUTH_STATUS])
  {
    LossStartsReconnect(s);
    BystandersWait(cfg, WakeStep(s), r);
    ConnectAsks(cfg.profile, Execute(cfg, WakeStep(s), r));
    assert [] + BytesOf(r) == BytesOf(r);
  }

  lemma AskedIsAwaiting(cfg: Config, s: State, r: seq<Action>)
    requires Underway(s) && s.task == Asking && Bystanders(r)
    ensures var t := Asked(cfg, s, r);
      && Underway(t) && t.task == Awaiting && (t.link == if LosesPeer(r) then Down else s.link)
      && t.inbox.since == s.inbox.since.(received := s.inbox.since.received + BytesOf(r))
      && AuthWrites(t.issued) == AuthWrites(s.issued)
  {
    BystandersWait(cfg, s, r);
  }

  lemma RepliedIsProving(cfg: Config, s: State, r: seq<Action>)
    requires Underway(s) && s.task == Awaiting && Bystanders(r)
    ensures var t := Replied(cfg, s, r);
            if s.link == Up && !LosesPeer(r) then
              && Underway(t) && t.task == Proving
              && t.inbox.since == s.inbox.since.(received := s.inbox.since.received + BytesOf(r))
              && AuthWrites(t.issued) == AuthWrites(s.issued) + [AUTH]
            else Out(t)
  {
    BystandersWait(cfg, s, r);
    AuthWritesSnoc(Execute(cfg, s, r).issued, AUTH);
  }

  lemma ProvedIsOk(cfg: Config, s: State, r: seq<Action>)
    requires Underway(s) && s.task == Proving && Bystanders(r)
    ensures var t := Asked(cfg, s, r);
      && t.task == Sleeping && t.health == Ok && t.authenticated == Yes
      && t.inbox.since == s.inbox.since.(received := s.inbox.since.received + BytesOf(r))
      && AuthWrites(t.issued) == AuthWrites(s.issued)
  {
    BystandersWait(cfg, s, r);
  }

  lemma OutIsNotOk(cfg: Config, s: State, r: seq<Action>)
    requires Out(s) && Bystanders(r)
    ensures Asked(cfg, s, r).health != Ok
  {
    OutStays(cfg, s, r);
    OutStep(cfg, Execute(cfg, s, r), WriteEnds(true));
  }

  /** Both steps of authentication, once the link is up: it fails if and only if the peer is lost before the second write. */
  lemma Authenticates(cfg: Config, s: State, r2: seq<Action>, r3: seq<Action>, r4: seq<Action>)
    requires Underway(s) && s.task == Asking && s.link == Up
    requires Bystanders(r2) && Bystanders(r3) && Bystanders(r4)
    ensures var t := Asked(cfg, Replied(cfg, Asked(cfg, s, r2), r3), r4);
      && (t.health == Ok <==> !LosesPeer(r2) && !LosesPeer(r3))
      && (t.health == Ok ==>
            && t.task == Sleeping && t.authenticated == Yes
            && t.inbox.since == s.inbox.since.(received :=
                 ((s.inbox.since.received + BytesOf(r2)) + BytesOf(r3)) + BytesOf(r4))
            && AuthWrites(t.issued) == AuthWrites(s.issued) + [AUTH])
  {
    AskedIsAwaiting(cfg, s, r2);
    RepliedIsProving(cfg, Asked(cfg, s, r2), r3);
    var c := Replied(cfg, Asked(cfg, s, r2), r3);
    if LosesPeer(r2) || LosesPeer(r3) {
      OutIsNotOk(cfg, c, r4);
    } else {
      ProvedIsOk(cfg, c, r4);
    }
  }

  /** The reconnect and both writes succeed, with these bystanders in between: what comes of it. */
  ghost predicate RecoversExactly(cfg: Config, s: State, r1: seq<Action>, r2: seq<Action>, r3: seq<Action>, r4: seq<Action>) {
    var t := Asked(cfg, Replied(cfg, Asked(cfg, Reconnected(cfg, s, r1), r2), r3), r4);
    && (t.health == Ok <==> !LosesPeer(r2) && !LosesPeer(r3))
    && (t.health == Ok ==>
          && t.task == Sleeping && t.authenticated == Yes
          && SinceLoss(s, t, ((BytesOf(r1) + BytesOf(r2)) + BytesOf(r3)) + BytesOf(r4), [AUTH_STATUS, AUTH]))
  }

  lemma Recovers(cfg: Config, s: State, r1: seq<Action>, r2: seq<Action>, r3: seq<Action>, r4: seq<Action>)
    requires cfg.profile.user && s.crypto == Yes && s.phase == On && s.task == Sleeping && s.link == Down
    requires Bystanders(r1) && Bystanders(r2) && Bystanders(r3) && Bystanders(r4)
    ensures RecoversExactly(cfg, s, r1, r2, r3, r4)
  {
    ReconnectedIsAsking(cfg, s, r1);
    Authenticates(cfg, Reconnected(cfg, s, r1), r2, r3, r4);
    assert AuthWrites(s.issued) + [AUTH_STATUS] + [AUTH] == AuthWrites(s.issued) + [AUTH_STATUS, AUTH];
  }

  /**
   Recovery over all interleavings.  A poll finds the link down, the reconnect and both writes succeed, and in
   between anything may happen but a stop: notifications, commands that succeed or fail, lost peers.  The health
   ends ok if and only if the peer was not lost between the return of the reconnect and the end of the wait for
   the reply.  Then exactly the auth-status and the auth packet were written, nothing heard meanwhile was lost,
   and the caches were kept.
   */
  lemma RecoveryExactly(cfg: Config, before: seq<Action>, r1: seq<Action>, r2: seq<Action>, r3: seq<Action>, r4: seq<Action>)
    requires var s := Execute(cfg, Initial(), before);
             cfg.profile.user && s.task == Sleeping && s.link == Down
    requires Bystanders(r1) && Bystanders(r2) && Bystanders(r3) && Bystanders(r4)
    ensures RecoversExactly(cfg, Execute(cfg, Initial(), before), r1, r2, r3, r4)
  {
    AlwaysInv(cfg, before);
    SleepingIsOn(cfg, Execute(cfg, Initial(), before));
    Recovers(cfg, Execute(cfg, Initial(), before), r1, r2, r3, r4);
  }

  lemma SleepingIsOn(cfg: Config, s: State)
    requires Inv(cfg, s) && s.task == Sleeping && s.link != Absent
    ensures s.phase == On && s.crypto == Yes
  {
  }
}
