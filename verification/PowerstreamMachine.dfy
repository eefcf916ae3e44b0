/**
 The PowerStream adapter between its suspension points.  One action is one stretch of code that runs
 without awaiting anything that really suspends; notifications, commands, lost peers and the lifecycle
 interleave at every suspension point.
 */
module PowerstreamMachine {
  import opened AdapterState
  import opened Bytes
  import opened Cbc
  import opened Packets
  import opened StreamDecoder
  import opened Snapshots
  import Type1

  /** Where the task that starts and then maintains the connection is suspended. */
  datatype Task =
    | Idle        // there is none
    | Connecting  // in connect() or reconnect()
    | Asking      // writing the auth-status packet
    | Awaiting    // waiting for the auth-status reply
    | Proving     // writing the auth packet
    | Sleeping    // between two polls
    | Polling     // writing the status request

  datatype Answer = No | Yes

  datatype AuthEvent = NoEvent | Unset | IsSet

  /** A command byte pair, as it goes over the air. */
  datatype Command = Command(cmdSet: byte, cmdId: byte)

  const AUTH_STATUS := Command(0x35, 0x89)
  const AUTH := Command(0x35, 0x86)
  const GET_STATUS := Command(0x02, 0x22)
  const SET_LOAD_POWER := Command(0x14, 0x81)

  /** What has been achieved since the last connect or reconnect began. */
  datatype Mark = LinkUp | Written(command: Command)

  /** Whether a serial number and a user are configured. */
  datatype Profile = Profile(serial: bool, user: bool)

  datatype Config = Config(profile: Profile, key: Key, source: Source)

  /** Since the buffer was last dropped: the bytes taken in, and what was cached and published before that. */
  datatype Since = Since(received: bytes, base: Caches, before: nat)

  /** The receive path, with all it has ever published. */
  datatype Inbox = Inbox(rx: bytes, caches: Caches, published: seq<Snapshot>, since: Since)

  datatype State = State(
    task: Task, phase: Phase, crypto: Answer, link: Link,
    inbox: Inbox, authenticated: Answer, authEvent: AuthEvent, health: Health,
    pending: seq<Command>,                 // commands suspended in their write
    // history
    reported: seq<Health>, issued: seq<Command>, epoch: seq<Mark>)

  /** What start finds: everything in place, or key derivation or the connection factory raising. */
  datatype Setup = Ready | NoCrypto | NoConnection

  /** The load power a command asks for: missing or no number, or so many watts. */
  datatype Power = Unreadable | Watts(watts: int)

  const MAX_LOAD_POWER_WATTS: int := 8000

  datatype Action =
    | Start(setup: Setup)
    | LinkComesUp                    // inside connect(), before it returns
    | ConnectEnds(ok: bool, lost: bool)   // the peer may be lost again before anyone looks
    | WriteEnds(ok: bool)            // the task's own write
    | WaitEnds                       // the reply came or five seconds passed
    | Wake                           // the poll interval is over
    | Notify(data: bytes)
    | RequestStatus | SetLoadPower(power: Power) | UnknownCommand
    | CommandEnds(ok: bool)          // the oldest suspended command's write
    | PeerVanishes
    | Stop
    | DisconnectEnds(ok: bool)

  function Initial(): State {
    State(Idle, Off, No, Absent,
          Inbox([], Caches(map[], map[]), [], Since([], Caches(map[], map[]), 0)),
          No, NoEvent, Failed, [], [], [], [])
  }

  // ----- pieces shared by the actions -----

  /** Health is set, and reported while there is a bus. */
  function Report(s: State, h: Health): State {
    s.(health := h, reported := if s.phase == Off then s.reported else s.reported + [h])
  }

  /** The receive buffer is dropped; the caches stay. */
  function Dropped(i: Inbox): Inbox {
    Inbox([], i.caches, i.published, Since([], i.caches, |i.published|))
  }

  /** The caches go as well. */
  function Cleared(i: Inbox): Inbox {
    Dropped(i.(caches := Caches(map[], map[])))
  }

  /** The receive buffer is dropped and a new epoch begins. */
  function Reset(s: State): State {
    s.(inbox := Dropped(s.inbox), authenticated := No, epoch := [])
  }

  function Rest(s: State): State {
    s.(task := Sleeping, phase := On)
  }

  /** Connecting or authenticating raised. */
  function GiveUp(s: State): State {
    Rest(Report(s, Failed))
  }

  /** An exception inside authentication is reported there and again by whoever authenticates. */
  function AuthFails(s: State): State {
    GiveUp(Report(s, Failed))
  }

  /** On the way out of start the good health is reported a second time. */
  function Succeed(s: State): State {
    Rest(if s.phase == Starting then Report(Report(s, Ok), Ok) else Report(s, Ok))
  }

  /** An authentication write is issued and the task suspended, unless the link is down. */
  function IssueAs(s: State, c: Command, task: Task): State {
    if s.link == Up then s.(issued := s.issued + [c], task := task) else AuthFails(s)
  }

  function Authenticate(p: Profile, s: State): State {
    if !p.user then Succeed(s.(authenticated := No))
    else IssueAs(s.(authenticated := No, authEvent := Unset), AUTH_STATUS, Asking)
  }

  /** reconnect after a failed poll; without a connection object there is nothing to reconnect. */
  function Reconnect(s: State): State {
    if s.link == Absent then Rest(s) else Reset(s).(task := Connecting)
  }

  function PollFails(s: State): State {
    Reconnect(Report(s, Failed))
  }

  // ----- the actions -----

  /** Everything in place: a new connection object is about to connect. */
  function Launch(s: State): State {
    Reset(s).(task := Connecting, phase := Starting, crypto := Yes, link := Down)
  }

  function StartStep(p: Profile, s: State, setup: Setup): State {
    if s.phase != Off then s
    else if !p.serial then Report(s.(phase := On), Degraded)
    else if setup == NoCrypto && s.crypto == No then GiveUp(s.(phase := On))   // a derived key is kept
    else if setup == NoConnection then GiveUp(s.(phase := On, crypto := Yes))
    else Launch(s)
  }

  function ConnectStep(p: Profile, s: State, ok: bool, lost: bool): State {
    if s.task != Connecting then s
    else if !ok then GiveUp(s.(link := Down))
    else Authenticate(p, s.(link := if lost then Down else Up, epoch := s.epoch + [LinkUp]))
  }

  function AskStep(s: State, ok: bool): State {
    if ok then s.(task := Awaiting, epoch := s.epoch + [Written(AUTH_STATUS)]) else AuthFails(s)
  }

  function ProveStep(s: State, ok: bool): State {
    if ok then Succeed(s.(authenticated := Yes, epoch := s.epoch + [Written(AUTH)])) else AuthFails(s)
  }

  function PollStep(s: State, ok: bool): State {
    if ok then Rest(s.(epoch := s.epoch + [Written(GET_STATUS)])) else PollFails(s)
  }

  function WriteStep(s: State, ok: bool): State {
    match s.task
    case Asking => AskStep(s, ok)
    case Proving => ProveStep(s, ok)
    case Polling => PollStep(s, ok)
    case _ => s
  }

  function WaitStep(s: State): State {
    if s.task != Awaiting then s
    else IssueAs(s.(authEvent := NoEvent), AUTH, Proving)
  }

  function WakeStep(s: State): State {
    if s.task != Sleeping then s
    else if s.link != Up then PollFails(s)
    else s.(issued := s.issued + [GET_STATUS], task := Polling)
  }

  function Reply(e: AuthEvent, p: Packet): AuthEvent {
    if IsAuthReply(p) && e != NoEvent then IsSet else e
  }

  function Replies(e: AuthEvent, ps: seq<Packet>): AuthEvent {
    if ps == [] then e else Reply(Replies(e, ps[..|ps| - 1]), ps[|ps| - 1])
  }

  /** What a stretch of the byte stream amounts to. */
  datatype Intake = Intake(rest: bytes, effect: Effect)

  function TakeIn(cfg: Config, c: Caches, s: bytes): Intake {
    var d := Run(Type1.Decoder(cfg.key), s);
    Intake(d.rest, PublishPackets(cfg.source, c, d.packets))
  }

  function Receive(cfg: Config, x: Inbox, data: bytes): Inbox {
    var i := TakeIn(cfg, x.caches, x.rx + data);
    x.(rx := i.rest, caches := i.effect.caches, published := x.published + i.effect.published,
       since := x.since.(received := x.since.received + data))
  }

  function NotifyStep(cfg: Config, s: State, data: bytes): State {
    if s.phase == Off || s.crypto == No then s
    else
      var packets := Run(Type1.Decoder(cfg.key), s.inbox.rx + data).packets;
      s.(inbox := Receive(cfg, s.inbox, data), authEvent := Replies(s.authEvent, packets))
  }

  /** A command writes like the task does, but its failure only turns the health to failed. */
  function CommandStep(s: State, c: Command): State {
    match s.link
    case Absent => s
    case Down => Report(s, Failed)
    case Up => s.(issued := s.issued + [c], pending := s.pending + [c])
  }

  /** A load power that cannot be read or is out of range is a failed command, connection or not. */
  function PowerStep(s: State, power: Power): State {
    if power.Watts? && 0 <= power.watts <= MAX_LOAD_POWER_WATTS then CommandStep(s, SET_LOAD_POWER)
    else Report(s, Failed)
  }

  function CommandEndStep(s: State, ok: bool): State {
    if s.pending == [] then s
    else
      var t := s.(pending := s.pending[1..]);
      if ok then t.(epoch := t.epoch + [Written(s.pending[0])]) else Report(t, Failed)
  }

  /** The connection object, the buffer and the caches are dropped. */
  function Cleaned(s: State): State {
    s.(link := Absent, inbox := Cleared(s.inbox), epoch := [])
  }

  /** What stop does once the connection is gone. */
  function Stopped(s: State): State {
    Report(Cleaned(s), Failed).(phase := Off)
  }

  /** The task is cancelled where it stands; the wait for the reply clears its event on the way out. */
  function Cancel(s: State): State {
    s.(task := Idle, authEvent := if s.task == Awaiting then NoEvent else s.authEvent)
  }

  function StopStep(s: State): State {
    if s.phase == Starting || s.phase == Stopping then s
    else if s.link == Absent then Stopped(Cancel(s))
    else Cancel(s).(phase := Stopping)
  }

  /** stop gets no further when the disconnect raises. */
  function DisconnectStep(s: State, ok: bool): State {
    if s.phase != Stopping then s
    else if ok then Stopped(s)
    else s.(phase := On, link := Down)
  }

  /** Every action but a notification. */
  function Advance(p: Profile, s: State, a: Action): State
    requires !a.Notify?
  {
    match a
    case Start(setup) => StartStep(p, s, setup)
    case LinkComesUp => if s.task == Connecting then s.(link := Up) else s
    case ConnectEnds(ok, lost) => ConnectStep(p, s, ok, lost)
    case WriteEnds(ok) => WriteStep(s, ok)
    case WaitEnds => WaitStep(s)
    case Wake => WakeStep(s)
    case RequestStatus => CommandStep(s, GET_STATUS)
    case SetLoadPower(power) => PowerStep(s, power)
    case UnknownCommand => s
    case CommandEnds(ok) => CommandEndStep(s, ok)
    case PeerVanishes => if s.link == Up then s.(link := Down) else s
    case Stop => StopStep(s)
    case DisconnectEnds(ok) => DisconnectStep(s, ok)
  }

  function Next(cfg: Config, s: State, a: Action): State {
    if a.Notify? then NotifyStep(cfg, s, a.data) else Advance(cfg.profile, s, a)
  }

  /** Any interleaving whatever. */
  function Execute(cfg: Config, s: State, actions: seq<Action>): State {
    if actions == [] then s else Next(cfg, Execute(cfg, s, actions[..|actions| - 1]), actions[|actions| - 1])
  }

  // ----- progress of one epoch -----

  /** How far the marks have come: link with handler, then auth-status, then auth. */
  function Stage(epoch: seq<Mark>): (n: nat)
    ensures n <= 3
  {
    if epoch == [] then 0
    else
      var n, m := Stage(epoch[..|epoch| - 1]), epoch[|epoch| - 1];
      if n == 0 && m == LinkUp then 1
      else if n == 1 && m == Written(AUTH_STATUS) then 2
      else if n == 2 && m == Written(AUTH) then 3
      else n
  }

  lemma StageGrows(epoch: seq<Mark>, m: Mark)
    ensures var n := Stage(epoch);
            Stage(epoch + [m]) == if (n == 0 && m == LinkUp) || (n == 1 && m == Written(AUTH_STATUS))
                                     || (n == 2 && m == Written(AUTH)) then n + 1 else n
  {
    assert (epoch + [m])[..|epoch|] == epoch;
  }

  /** The link came up. */
  ghost predicate Linked(epoch: seq<Mark>, i: int) {
    0 <= i < |epoch| && epoch[i] == LinkUp
  }

  /** ... and after it the auth-status packet and then the auth packet were written. */
  ghost predicate Authenticated(epoch: seq<Mark>, i: int, j: int, k: int) {
    Linked(epoch, i) && i < j < k < |epoch| && epoch[j] == Written(AUTH_STATUS) && epoch[k] == Written(AUTH)
  }

  lemma {:induction false} StageShows(epoch: seq<Mark>) returns (i: int, j: int, k: int)
    ensures Stage(epoch) >= 1 ==> Linked(epoch, i)
    ensures Stage(epoch) >= 2 ==> i < j < |epoch| && epoch[j] == Written(AUTH_STATUS)
    ensures Stage(epoch) >= 3 ==> Authenticated(epoch, i, j, k)
    decreases |epoch|
  {
    i, j, k := 0, 0, 0;
    if epoch != [] {
      var init := epoch[..|epoch| - 1];
      i, j, k := StageShows(init);
      if Stage(epoch) > Stage(init) {
        if Stage(init) == 0 {
          i := |init|;
        } else if Stage(init) == 1 {
          j := |init|;
        } else {
          k := |init|;
        }
      }
    }
  }

  // ----- the invariant -----

  /** Busy with connecting or authenticating: health is not ok until it is done. */
  predicate Busy(t: Task) {
    t == Connecting || t == Asking || t == Awaiting || t == Proving
  }

  ghost predicate Lifecycle(p: Profile, s: State) {
    && (s.task != Idle ==> (s.phase == Starting || s.phase == On) && p.serial)
    && (Busy(s.task) || s.task == Polling ==> s.link != Absent)
    && (s.link != Absent ==> s.crypto == Yes && s.phase != Off)
    && (s.phase == Starting ==> Busy(s.task))
    && (s.phase == Stopping ==> s.link != Absent)
  }

  ghost predicate Earned(p: Profile, s: State) {
    && (s.health == Ok ==> s.link != Absent && Stage(s.epoch) >= if p.user then 3 else 1)
    && (Busy(s.task) || s.phase == Off ==> s.health == Failed)
    && (s.task == Asking ==> Stage(s.epoch) >= 1 && p.user)
    && (s.task == Awaiting || s.task == Proving ==> Stage(s.epoch) >= 2 && p.user)
  }

  /** Buffer, caches and everything published since the buffer was last dropped follow from the bytes alone. */
  ghost predicate Faithful(cfg: Config, x: Inbox) {
    var i := TakeIn(cfg, x.since.base, x.since.received);
    && x.rx == i.rest
    && x.caches == i.effect.caches
    && x.since.before <= |x.published|
    && x.published[x.since.before..] == i.effect.published
  }

  ghost predicate Settled(p: Profile, s: State) {
    Lifecycle(p, s) && Earned(p, s)
  }

  ghost predicate Inv(cfg: Config, s: State) {
    Settled(cfg.profile, s) && Faithful(cfg, s.inbox)
  }

  // ----- every step keeps the invariant -----

  lemma TakeInNothing(cfg: Config, c: Caches)
    ensures TakeIn(cfg, c, []) == Intake([], Effect(c, []))
  {
  }

  /** Taking in a stream in two stretches is taking it in at once. */
  lemma TakeInAppend(cfg: Config, c: Caches, s: bytes, t: bytes)
    ensures var i := TakeIn(cfg, c, s);
            var j := TakeIn(cfg, i.effect.caches, i.rest + t);
            TakeIn(cfg, c, s + t) == Intake(j.rest, Effect(j.effect.caches, i.effect.published + j.effect.published))
  {
    var step := Type1.Decoder(cfg.key);
    var d := Run(step, s);
    Type1.DecoderIsStable(cfg.key);
    RunAppend(step, s, t);
    PublishAppend(cfg.source, c, d.packets, Run(step, d.rest + t).packets);
  }

  lemma DroppedIsFaithful(cfg: Config, x: Inbox)
    ensures Faithful(cfg, Dropped(x))
  {
    TakeInNothing(cfg, x.caches);
    assert x.published[|x.published|..] == [];
  }

  lemma DropAppend<T>(a: seq<T>, b: seq<T>, n: nat)
    requires n <= |a|
    ensures (a + b)[n..] == a[n..] + b
  {
  }

  lemma ReceiveIsFaithful(cfg: Config, x: Inbox, data: bytes)
    requires Faithful(cfg, x)
    ensures Faithful(cfg, Receive(cfg, x, data))
  {
    TakeInAppend(cfg, x.since.base, x.since.received, data);
    DropAppend(x.published, TakeIn(cfg, x.caches, x.rx + data).effect.published, x.since.before);
  }

  lemma StartSettles(p: Profile, s: State, setup: Setup)
    requires Settled(p, s)
    ensures Settled(p, StartStep(p, s, setup))
  {
  }

  lemma ConnectSettles(p: Profile, s: State, ok: bool, lost: bool)
    requires Settled(p, s)
    ensures Settled(p, ConnectStep(p, s, ok, lost))
  {
    StageGrows(s.epoch, LinkUp);
  }

  lemma AskSettles(p: Profile, s: State, ok: bool)
    requires Settled(p, s) && s.task == Asking
    ensures Settled(p, AskStep(s, ok))
  {
    StageGrows(s.epoch, Written(AUTH_STATUS));
  }

  lemma ProveSettles(p: Profile, s: State, ok: bool)
    requires Settled(p, s) && s.task == Proving
    ensures Settled(p, ProveStep(s, ok))
  {
    StageGrows(s.epoch, Written(AUTH));
  }

  lemma PollSettles(p: Profile, s: State, ok: bool)
    requires Settled(p, s) && s.task == Polling
    ensures Settled(p, PollStep(s, ok))
  {
    StageGrows(s.epoch, Written(GET_STATUS));
  }

  lemma WriteSettles(p: Profile, s: State, ok: bool)
    requires Settled(p, s)
    ensures Settled(p, WriteStep(s, ok))
  {
    match s.task
    case Asking => AskSettles(p, s, ok);
    case Proving => ProveSettles(p, s, ok);
    case Polling => PollSettles(p, s, ok);
    case _ =>
  }

  lemma WaitingSettles(p: Profile, s: State)
    requires Settled(p, s)
    ensures Settled(p, WaitStep(s)) && Settled(p, WakeStep(s))
  {
  }

  lemma CommandSettles(p: Profile, s: State, c: Command, ok: bool)
    requires Settled(p, s)
    ensures Settled(p, CommandStep(s, c)) && Settled(p, CommandEndStep(s, ok))
  {
    if s.pending != [] {
      StageGrows(s.epoch, Written(s.pending[0]));
    }
  }

  lemma StopSettles(p: Profile, s: State, ok: bool)
    requires Settled(p, s)
    ensures Settled(p, StopStep(s)) && Settled(p, DisconnectStep(s, ok))
  {
  }

  lemma AdvanceSettles(p: Profile, s: State, a: Action)
    requires Settled(p, s) && !a.Notify?
    ensures Settled(p, Advance(p, s, a))
  {
    match a
    case Start(setup) => StartSettles(p, s, setup);
    case ConnectEnds(ok, lost) => ConnectSettles(p, s, ok, lost);
    case WriteEnds(ok) => WriteSettles(p, s, ok);
    case WaitEnds => WaitingSettles(p, s);
    case Wake => WaitingSettles(p, s);
    case RequestStatus => CommandSettles(p, s, GET_STATUS, true);
    case SetLoadPower(_) => CommandSettles(p, s, SET_LOAD_POWER, true);
    case CommandEnds(ok) => CommandSettles(p, s, GET_STATUS, ok);
    case Stop => StopSettles(p, s, true);
    case DisconnectEnds(ok) => StopSettles(p, s, ok);
    case _ =>
  }

  /** The buffer is dropped, with or without the caches, just when an epoch begins. */
  ghost predicate Restarts(s: State, t: State) {
    t.epoch == [] && (t.inbox == Dropped(s.inbox) || t.inbox == Cleared(s.inbox))
  }

  /** Only a notification takes bytes in; anything else leaves the receive path alone or starts it afresh. */
  lemma AdvanceInbox(p: Profile, s: State, a: Action)
    requires !a.Notify?
    ensures var t := Advance(p, s, a); t.inbox == s.inbox || Restarts(s, t)
  {
  }

  lemma NextKeeps(cfg: Config, s: State, a: Action)
    requires Inv(cfg, s)
    ensures Inv(cfg, Next(cfg, s, a))
  {
    if a.Notify? {
      ReceiveIsFaithful(cfg, s.inbox, a.data);
    } else {
      AdvanceSettles(cfg.profile, s, a);
      AdvanceInbox(cfg.profile, s, a);
      DroppedIsFaithful(cfg, s.inbox);
      DroppedIsFaithful(cfg, s.inbox.(caches := Caches(map[], map[])));
    }
  }

  lemma {:induction false} AlwaysInv(cfg: Config, actions: seq<Action>)
    ensures Inv(cfg, Execute(cfg, Initial(), actions))
    decreases |actions|
  {
    if actions == [] {
      TakeInNothing(cfg, Caches(map[], map[]));
    } else {
      AlwaysInv(cfg, actions[..|actions| - 1]);
      NextKeeps(cfg, Execute(cfg, Initial(), actions[..|actions| - 1]), actions[|actions| - 1]);
    }
  }
}
