/** What the PowerStream adapter writes, and which of the writes an epoch shows were issued in it. */
module PowerstreamWrites {
  import opened AdapterState
  import opened PowerstreamGuarantees
  import opened PowerstreamMachine

  // ----- counting -----

  function Count<T(==)>(xs: seq<T>, x: T): nat {
    if xs == [] then 0 else Count(xs[..|xs| - 1], x) + if xs[|xs| - 1] == x then 1 else 0
  }

  lemma CountSnoc<T>(xs: seq<T>, y: T, x: T)
    ensures Count(xs + [y], x) == Count(xs, x) + if y == x then 1 else 0
  {
    assert (xs + [y])[..|xs|] == xs;
  }

  lemma {:induction false} CountFirst<T>(xs: seq<T>, x: T)
    requires xs != []
    ensures Count(xs, x) == (if xs[0] == x then 1 else 0) + Count(xs[1..], x)
    decreases |xs|
  {
    if |xs| == 1 {
      assert xs[..0] == [] && xs[1..] == [];
    } else {
      var init := xs[..|xs| - 1];
      CountFirst(init, x);
      assert xs[1..][..|xs| - 2] == init[1..];
    }
  }

  lemma {:induction false} CountAppend<T>(xs: seq<T>, ys: seq<T>, x: T)
    ensures Count(xs + ys, x) == Count(xs, x) + Count(ys, x)
    decreases |ys|
  {
    if ys == [] {
      assert xs + ys == xs;
    } else {
      assert (xs + ys)[..|xs + ys| - 1] == xs + ys[..|ys| - 1];
      CountAppend(xs, ys[..|ys| - 1], x);
    }
  }

  lemma {:induction false} CountedIsIn<T>(xs: seq<T>, x: T)
    ensures Count(xs, x) > 0 <==> x in xs
    decreases |xs|
  {
    if xs != [] {
      CountedIsIn(xs[..|xs| - 1], x);
      assert xs == xs[..|xs| - 1] + [xs[|xs| - 1]];
    }
  }

  // ----- every mark is paid for by a write -----

  /** The marks an epoch shows for this command, and those it may still come to show. */
  function Claims(s: State, c: Command): nat {
    Count(s.epoch, Written(c)) + Count(s.pending, c) + if Writing(s.task, c) then 1 else 0
  }

  /** Claims grow by no more than what is written. */
  ghost predicate Pays(s: State, t: State, c: Command) {
    && s.issued <= t.issued
    && Claims(t, c) + Count(s.issued, c) <= Claims(s, c) + Count(t.issued, c)
  }

  /** At most the link was marked or the epoch begun anew, and what is now being written was issued. */
  ghost predicate Moves(s: State, t: State, d: Command) {
    && t.pending == s.pending
    && (t.epoch == s.epoch || t.epoch == [] || t.epoch == s.epoch + [LinkUp])
    && (t.issued == s.issued ==> t.task != Asking && t.task != Proving && t.task != Polling)
    && (t.issued == s.issued || (t.issued == s.issued + [d] && forall c :: Writing(t.task, c) ==> c == d))
  }

  lemma MovePays(s: State, t: State, d: Command, c: Command)
    requires Moves(s, t, d)
    ensures Pays(s, t, c)
  {
    CountSnoc(s.epoch, LinkUp, Written(c));
    CountSnoc(s.issued, d, c);
  }

  lemma ConnectMoves(p: Profile, s: State, ok: bool, lost: bool)
    requires s.task == Connecting
    ensures Moves(s, ConnectStep(p, s, ok, lost), AUTH_STATUS)
  {
  }

  lemma ConnectPays(p: Profile, s: State, ok: bool, lost: bool, c: Command)
    ensures Pays(s, ConnectStep(p, s, ok, lost), c)
  {
    if s.task == Connecting {
      ConnectMoves(p, s, ok, lost);
      MovePays(s, ConnectStep(p, s, ok, lost), AUTH_STATUS, c);
    }
  }

  /** The task's own write ends: its claim becomes a mark, or is void. */
  lemma MarkPays(s: State, t: State, d: Command, c: Command)
    requires t.issued == s.issued && t.pending == s.pending
    requires Writing(s.task, c) == (c == d) && !Writing(t.task, c)
    requires t.epoch == s.epoch + [Written(d)] || t.epoch == s.epoch || t.epoch == []
    ensures Pays(s, t, c)
  {
    CountSnoc(s.epoch, Written(d), Written(c));
  }

  lemma WritePays(s: State, ok: bool, c: Command)
    ensures Pays(s, WriteStep(s, ok), c)
  {
    match s.task
    case Asking => MarkPays(s, AskStep(s, ok), AUTH_STATUS, c);
    case Proving => MarkPays(s, ProveStep(s, ok), AUTH, c);
    case Polling => MarkPays(s, PollStep(s, ok), GET_STATUS, c);
    case _ =>
  }

  lemma WaitMoves(s: State)
    requires s.task == Awaiting
    ensures Moves(s, WaitStep(s), AUTH)
  {
  }

  lemma WakeMoves(s: State)
    requires s.task == Sleeping
    ensures Moves(s, WakeStep(s), GET_STATUS)
  {
  }

  lemma WaitPays(s: State, c: Command)
    ensures Pays(s, WaitStep(s), c)
  {
    if s.task == Awaiting {
      WaitMoves(s);
      MovePays(s, WaitStep(s), AUTH, c);
    }
  }

  lemma WakePays(s: State, c: Command)
    ensures Pays(s, WakeStep(s), c)
  {
    if s.task == Sleeping {
      WakeMoves(s);
      MovePays(s, WakeStep(s), GET_STATUS, c);
    }
  }

  lemma CommandPays(s: State, d: Command, c: Command)
    ensures Pays(s, CommandStep(s, d), c)
  {
    CountSnoc(s.issued, d, c);
    CountSnoc(s.pending, d, c);
  }

  lemma CommandEndPays(s: State, ok: bool, c: Command)
    ensures Pays(s, CommandEndStep(s, ok), c)
  {
    if s.pending != [] {
      CountFirst(s.pending, c);
      CountSnoc(s.epoch, Written(s.pending[0]), Written(c));
    }
  }

  lemma StartPays(p: Profile, s: State, setup: Setup, c: Command)
    ensures Pays(s, StartStep(p, s, setup), c)
  {
  }

  lemma StopPays(s: State, c: Command)
    ensures Pays(s, StopStep(s), c)
  {
  }

  lemma DisconnectPays(s: State, ok: bool, c: Command)
    ensures Pays(s, DisconnectStep(s, ok), c)
  {
  }

  /** Setting a health, hearing something or seeing a link come or go claims nothing. */
  lemma IdlePays(s: State, t: State, c: Command)
    requires t.issued == s.issued && t.epoch == s.epoch && t.pending == s.pending && t.task == s.task
    ensures Pays(s, t, c)
  {
  }

  lemma NextPays(cfg: Config, s: State, a: Action, c: Command)
    ensures Pays(s, Next(cfg, s, a), c)
  {
    match a
    case Start(setup) => StartPays(cfg.profile, s, setup, c);
    case ConnectEnds(ok, lost) => ConnectPays(cfg.profile, s, ok, lost, c);
    case WriteEnds(ok) => WritePays(s, ok, c);
    case WaitEnds => WaitPays(s, c);
    case Wake => WakePays(s, c);
    case RequestStatus => CommandPays(s, GET_STATUS, c);
    case SetLoadPower(power) =>
      CommandPays(s, SET_LOAD_POWER, c);
      IdlePays(s, Report(s, Failed), c);
    case CommandEnds(ok) => CommandEndPays(s, ok, c);
    case Stop => StopPays(s, c);
    case DisconnectEnds(ok) => DisconnectPays(s, ok, c);
    case _ => IdlePays(s, Next(cfg, s, a), c);
  }

  lemma {:induction false} RunPays(cfg: Config, s: State, actions: seq<Action>, c: Command)
    ensures Pays(s, Execute(cfg, s, actions), c)
    decreases |actions|
  {
    if actions != [] {
      var init := actions[..|actions| - 1];
      RunPays(cfg, s, init, c);
      NextPays(cfg, Execute(cfg, s, init), actions[|actions| - 1], c);
    }
  }

  lemma CountSince(was: seq<Command>, now: seq<Command>, c: Command)
    requires was <= now
    ensures Count(now[|was|..], c) == Count(now, c) - Count(was, c)
  {
    CountAppend(was, now[|was|..], c);
    assert was + now[|was|..] == now;
  }

  /** Wherever no mark is set and this command is not being written: an epoch that has just begun, for one. */
  ghost predicate Blank(s: State, c: Command) {
    s.epoch == [] && !Writing(s.task, c)
  }

  /**
   From wherever no mark is set: as many marks as the epoch shows for a command, and writes of it that are still
   suspended, so many were issued since or were suspended then already.
   */
  lemma MarksArePaid(cfg: Config, s: State, after: seq<Action>, c: Command)
    requires Blank(s, c)
    ensures var t := Execute(cfg, s, after);
      && s.issued <= t.issued
      && Count(t.epoch, Written(c)) + Count(t.pending, c)
           <= Count(t.issued[|s.issued|..], c) + Count(s.pending, c)
  {
    var t := Execute(cfg, s, after);
    RunPays(cfg, s, after, c);
    CountSince(s.issued, t.issued, c);
  }

  // ----- the same for each mark -----

  /** After any continuation, a mark for this command means that it was issued since. */
  ghost predicate MarksMeanIssued(cfg: Config, s: State, c: Command) {
    forall after :: IssuedIfMarked(s, Execute(cfg, s, after), c)
  }

  ghost predicate IssuedIfMarked(s: State, t: State, c: Command) {
    s.issued <= t.issued && (Written(c) in t.epoch ==> c in t.issued[|s.issued|..])
  }

  lemma MarkIsIssued(cfg: Config, s: State, after: seq<Action>, c: Command)
    requires Blank(s, c) && c !in s.pending
    ensures IssuedIfMarked(s, Execute(cfg, s, after), c)
  {
    var t := Execute(cfg, s, after);
    MarksArePaid(cfg, s, after, c);
    CountedIsIn(s.pending, c);
    CountedIsIn(t.epoch, Written(c));
    CountedIsIn(t.issued[|s.issued|..], c);
  }

  /** The suspended writes up to the k-th succeed. */
  function Completions(k: nat): seq<Action> {
    if k == 0 then [] else Completions(k - 1) + [CommandEnds(true)]
  }

  lemma {:induction false} Completed(cfg: Config, s: State, k: nat)
    requires k <= |s.pending|
    ensures var t := Execute(cfg, s, Completions(k));
      && t.issued == s.issued && t.pending == s.pending[k..] && |t.epoch| == |s.epoch| + k
      && s.epoch <= t.epoch && forall i :: 0 <= i < k ==> t.epoch[|s.epoch| + i] == Written(s.pending[i])
  {
    if k > 0 {
      var init := Completions(k - 1);
      Completed(cfg, s, k - 1);
      assert Completions(k)[..|init|] == init;
    }
  }

  /** A write that is suspended when the epoch begins can still be marked in it, with nothing issued. */
  lemma StaleMark(cfg: Config, s: State, c: Command) returns (after: seq<Action>)
    requires c in s.pending
    ensures !IssuedIfMarked(s, Execute(cfg, s, after), c)
  {
    var k: nat :| k < |s.pending| && s.pending[k] == c;
    after := Completions(k + 1);
    Completed(cfg, s, k + 1);
    var t := Execute(cfg, s, after);
    assert t.epoch[|s.epoch| + k] == Written(c);
    assert t.issued[|s.issued|..] == [];
  }

  /**
   In every epoch, marks for a command mean that it was issued since the epoch began if and only if no write of it
   was suspended as the epoch began.
   */
  lemma MarksMeanIssuedExactly(cfg: Config, before: seq<Action>, c: Command)
    requires Blank(Execute(cfg, Initial(), before), c)
    ensures var s := Execute(cfg, Initial(), before); MarksMeanIssued(cfg, s, c) <==> c !in s.pending
  {
    var s := Execute(cfg, Initial(), before);
    if c in s.pending {
      var after := StaleMark(cfg, s, c);
      assert !IssuedIfMarked(s, Execute(cfg, s, after), c);
    } else {
      forall after
        ensures IssuedIfMarked(s, Execute(cfg, s, after), c)
      {
        MarkIsIssued(cfg, s, after, c);
      }
    }
  }

  // ----- the authentication -----

  ghost predicate NoAuthPending(s: State) {
    Command(0x35, 0x89) !in s.pending && Command(0x35, 0x86) !in s.pending
  }

  lemma CommandIsNotAuth(s: State, c: Command, ok: bool)
    requires NoAuthPending(s) && c != Command(0x35, 0x89) && c != Command(0x35, 0x86)
    ensures NoAuthPending(CommandStep(s, c)) && NoAuthPending(CommandEndStep(s, ok))
  {
  }

  lemma NextNoAuthPending(cfg: Config, s: State, a: Action)
    requires NoAuthPending(s)
    ensures NoAuthPending(Next(cfg, s, a))
  {
    match a
    case RequestStatus => CommandIsNotAuth(s, GET_STATUS, true);
    case SetLoadPower(_) => CommandIsNotAuth(s, SET_LOAD_POWER, true);
    case CommandEnds(ok) => CommandIsNotAuth(s, GET_STATUS, ok);
    case _ => assert Next(cfg, s, a).pending == s.pending;
  }

  lemma {:induction false} NeverAuthPending(cfg: Config, actions: seq<Action>)
    ensures NoAuthPending(Execute(cfg, Initial(), actions))
    decreases |actions|
  {
    if actions != [] {
      NeverAuthPending(cfg, actions[..|actions| - 1]);
      NextNoAuthPending(cfg, Execute(cfg, Initial(), actions[..|actions| - 1]), actions[|actions| - 1]);
    }
  }

  /** Where no mark is set, no packet of the authentication is being written. */
  lemma BlankForAuth(cfg: Config, actions: seq<Action>)
    requires Execute(cfg, Initial(), actions).epoch == []
    ensures Blank(Execute(cfg, Initial(), actions), AUTH_STATUS) && Blank(Execute(cfg, Initial(), actions), AUTH)
  {
    AlwaysInv(cfg, actions);
    assert Stage([]) == 0;
  }

  lemma OkShowsAuth(cfg: Config, actions: seq<Action>)
    requires cfg.profile.user && Execute(cfg, Initial(), actions).health == Ok
    ensures var epoch := Execute(cfg, Initial(), actions).epoch; Written(AUTH_STATUS) in epoch && Written(AUTH) in epoch
  {
    OkIsEarned(cfg, actions);
    var epoch := Execute(cfg, Initial(), actions).epoch;
    var i :| Linked(epoch, i) && exists j, k :: Authenticated(epoch, i, j, k);
    var j, k :| Authenticated(epoch, i, j, k);
  }

  /**
   Whenever the health of an adapter with a user is ok, both packets of the authentication, 35/89 and 35/86, went
   out since the epoch began.
   */
  lemma OkWasWritten(cfg: Config, before: seq<Action>, after: seq<Action>)
    requires Execute(cfg, Initial(), before).epoch == [] && cfg.profile.user
    ensures var s, t := Execute(cfg, Initial(), before), Execute(cfg, Initial(), before + after);
            t.health == Ok ==>
              && s.issued <= t.issued
              && Command(0x35, 0x89) in t.issued[|s.issued|..] && Command(0x35, 0x86) in t.issued[|s.issued|..]
  {
    var s := Execute(cfg, Initial(), before);
    ExecuteAppend(cfg, Initial(), before, after);
    NeverAuthPending(cfg, before);
    BlankForAuth(cfg, before);
    MarkIsIssued(cfg, s, after, AUTH_STATUS);
    MarkIsIssued(cfg, s, after, AUTH);
    if Execute(cfg, Initial(), before + after).health == Ok {
      OkShowsAuth(cfg, before + after);
    }
  }

  // ----- polling -----

  lemma TaskHasBus(cfg: Config, actions: seq<Action>)
    ensures var s := Execute(cfg, Initial(), actions); s.task != Idle ==> s.phase != Off
  {
    AlwaysInv(cfg, actions);
  }

  /**
   A poll that finds the link up issues the status request 02/22 and does nothing else.  One that finds it down
   reports failed once, issues nothing, and a new epoch begins.
   */
  lemma PollWrites(cfg: Config, actions: seq<Action>)
    requires var s := Execute(cfg, Initial(), actions); s.task == Sleeping && s.link != Absent
    ensures var s := Execute(cfg, Initial(), actions);
            var t := Next(cfg, s, Wake);
      && (s.link == Up ==> t == s.(issued := s.issued + [Command(0x02, 0x22)], task := Polling))
      && (s.link == Down ==>
            && t.issued == s.issued && t.task == Connecting && t.epoch == [] && t.authenticated == No
            && t.health == Failed && t.reported == s.reported + [Failed]
            && t.inbox.rx == [] && t.inbox.caches == s.inbox.caches && t.inbox.published == s.inbox.published)
  {
    TaskHasBus(cfg, actions);
  }

  // ----- a stale write -----

  lemma RunSnoc(cfg: Config, init: seq<Action>, a: Action)
    ensures Execute(cfg, Initial(), init + [a]) == Next(cfg, Execute(cfg, Initial(), init), a)
  {
    assert (init + [a])[..|init|] == init;
  }

  function Connected(): seq<Action> {
    ([] + [Start(Ready)]) + [ConnectEnds(true, false)]
  }

  /** Connected, a status request is suspended in its write, the peer is lost, and the poll reconnects. */
  function PeerLostWhileWriting(): seq<Action> {
    ((Connected() + [RequestStatus]) + [PeerVanishes]) + [Wake]
  }

  lemma AfterConnecting(cfg: Config)
    requires cfg.profile == Profile(true, false)
    ensures var s := Execute(cfg, Initial(), Connected());
            s.task == Sleeping && s.link == Up && s.pending == []
  {
    RunSnoc(cfg, [], Start(Ready));
    RunSnoc(cfg, [] + [Start(Ready)], ConnectEnds(true, false));
  }

  lemma LostWhileWriting(cfg: Config, s: State)
    requires s.task == Sleeping && s.link == Up && s.pending == []
    ensures var t := Next(cfg, Next(cfg, Next(cfg, s, RequestStatus), PeerVanishes), Wake);
            t.task == Connecting && t.epoch == [] && t.pending == [Command(0x02, 0x22)]
  {
  }

  /** So it happens: the new epoch shows a status request that was issued before it began. */
  lemma StaleWriteIsMarked(cfg: Config)
    requires cfg.profile == Profile(true, false)
    ensures var s := Execute(cfg, Initial(), PeerLostWhileWriting());
            var t := Next(cfg, s, CommandEnds(true));
      && s.task == Connecting && s.epoch == [] && s.pending == [Command(0x02, 0x22)]
      && t.epoch == [Written(Command(0x02, 0x22))] && t.issued == s.issued
  {
    AfterConnecting(cfg);
    LostWhileWriting(cfg, Execute(cfg, Initial(), Connected()));
    RunSnoc(cfg, Connected(), RequestStatus);
    RunSnoc(cfg, Connected() + [RequestStatus], PeerVanishes);
    RunSnoc(cfg, (Connected() + [RequestStatus]) + [PeerVanishes], Wake);
  }
}
