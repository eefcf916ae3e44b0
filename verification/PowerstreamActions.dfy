/** What each kind of action does to the PowerStream adapter, told from the fields and the octets alone. */
module PowerstreamActions {
  import opened AdapterState
  import opened Bytes
  import opened Packets
  import opened PowerstreamMachine
  import opened Snapshots
  import opened StreamDecoder
  import Type1

  /** While there is a bus these healths are reported, the last of them being the health. */
  function Says(s: State, hs: seq<Health>): State
    requires hs != []
  {
    s.(health := hs[|hs| - 1], reported := if s.phase == Off then s.reported else s.reported + hs)
  }

  lemma StartDoes(cfg: Config, s: State, setup: Setup)
    ensures var t := Next(cfg, s, Start(setup));
            var stuck := setup == NoConnection || (setup == NoCrypto && s.crypto == No);
      && (s.phase != Off ==> t == s)
      && (s.phase == Off && !cfg.profile.serial ==>
            t == s.(phase := On, health := Degraded, reported := s.reported + [Degraded]))
      && (s.phase == Off && cfg.profile.serial && stuck ==>
            t == s.(task := Sleeping, phase := On, crypto := if setup == NoConnection then Yes else No,
                    health := Failed, reported := s.reported + [Failed]))
      && (s.phase == Off && cfg.profile.serial && !stuck ==>
            && t == s.(task := Connecting, phase := Starting, crypto := Yes, link := Down,
                       authenticated := No, epoch := [], inbox := t.inbox)
            && t.inbox.rx == [] && t.inbox.caches == s.inbox.caches && t.inbox.published == s.inbox.published)
  {
  }

  lemma ConnectDoes(cfg: Config, s: State, ok: bool, lost: bool)
    requires s.task == Connecting
    ensures var t := Next(cfg, s, ConnectEnds(ok, lost));
            var u := s.(link := if ok && !lost then Up else Down, epoch := s.epoch + [LinkUp], authenticated := No);
      if !ok then t == Says(s.(task := Sleeping, link := Down), [Failed]).(phase := On)
      else if !cfg.profile.user then
        t == Says(u.(task := Sleeping), if s.phase == Starting then [Ok, Ok] else [Ok]).(phase := On)
      else if lost then t == Says(u.(task := Sleeping, authEvent := Unset), [Failed, Failed]).(phase := On)
      else t == u.(task := Asking, authEvent := Unset, issued := s.issued + [Command(0x35, 0x89)])
  {
  }

  /** The link of a connect may come up before connect returns, and may be lost at any time. */
  lemma LinkDoes(cfg: Config, s: State)
    ensures Next(cfg, s, LinkComesUp) == if s.task == Connecting then s.(link := Up) else s
    ensures Next(cfg, s, PeerVanishes) == s.(link := if s.link == Absent then Absent else Down)
  {
  }

  /** A poll that failed: the health is reported, and with a connection object a new epoch begins. */
  ghost predicate PollFailed(s: State, t: State) {
    if s.link == Absent then t == Says(s.(task := Sleeping), [Failed]).(phase := On)
    else
      && t == Says(s.(task := Connecting, authenticated := No, epoch := [], inbox := t.inbox), [Failed])
      && t.inbox.rx == [] && t.inbox.caches == s.inbox.caches && t.inbox.published == s.inbox.published
  }

  lemma WriteDoes(cfg: Config, s: State, ok: bool)
    ensures var t := Next(cfg, s, WriteEnds(ok));
            var marked := Says(s.(task := Sleeping, authenticated := Yes,
                                  epoch := s.epoch + [Written(Command(0x35, 0x86))]),
                               if s.phase == Starting then [Ok, Ok] else [Ok]);
            var refused := Says(s.(task := Sleeping), [Failed, Failed]);
      match s.task
      case Asking =>
        t == if ok then s.(task := Awaiting, epoch := s.epoch + [Written(Command(0x35, 0x89))]) else refused.(phase := On)
      case Proving => t == (if ok then marked else refused).(phase := On)
      case Polling =>
        if ok then t == s.(task := Sleeping, phase := On, epoch := s.epoch + [Written(Command(0x02, 0x22))])
        else PollFailed(s, t)
      case _ => t == s
  {
  }

  lemma WaitDoes(cfg: Config, s: State)
    ensures var t := Next(cfg, s, WaitEnds);
      if s.task != Awaiting then t == s
      else if s.link == Up then t == s.(task := Proving, authEvent := NoEvent, issued := s.issued + [Command(0x35, 0x86)])
      else t == Says(s.(task := Sleeping, authEvent := NoEvent), [Failed, Failed]).(phase := On)
  {
  }

  lemma WakeDoes(cfg: Config, s: State)
    ensures var t := Next(cfg, s, Wake);
      if s.task != Sleeping then t == s
      else if s.link == Up then t == s.(task := Polling, issued := s.issued + [Command(0x02, 0x22)])
      else PollFailed(s, t)
  {
  }

  /** A command that is written, or cannot be: without a connection object nothing happens at all. */
  ghost predicate Commanded(s: State, t: State, c: Command) {
    match s.link
    case Absent => t == s
    case Down => t == Says(s, [Failed])
    case Up => t == s.(issued := s.issued + [c], pending := s.pending + [c])
  }

  /** The status request is 02/22; a load power from 0 to 8000 watts is 14/81, and any other one a failure. */
  lemma CommandsDo(cfg: Config, s: State, power: Power)
    ensures Commanded(s, Next(cfg, s, RequestStatus), Command(0x02, 0x22))
    ensures var t := Next(cfg, s, SetLoadPower(power));
            if power.Watts? && 0 <= power.watts <= 8000 then Commanded(s, t, Command(0x14, 0x81))
            else t == Says(s, [Failed])
    ensures Next(cfg, s, UnknownCommand) == s
  {
  }

  lemma CommandEndDoes(cfg: Config, s: State, ok: bool)
    ensures var t := Next(cfg, s, CommandEnds(ok));
      if s.pending == [] then t == s
      else if ok then t == s.(pending := s.pending[1..], epoch := s.epoch + [Written(s.pending[0])])
      else t == Says(s.(pending := s.pending[1..]), [Failed])
  {
  }

  /** The adapter without its connection: nothing buffered, nothing cached, failed reported last. */
  ghost predicate Closed(s: State, t: State) {
    && t == Says(s.(task := Idle, authEvent := t.authEvent, link := Absent, epoch := [], inbox := t.inbox), [Failed])
             .(phase := Off)
    && t.inbox.rx == [] && t.inbox.caches == Caches(map[], map[]) && t.inbox.published == s.inbox.published
  }

  lemma StopDoes(cfg: Config, s: State)
    ensures var t := Next(cfg, s, Stop);
      && (s.phase == Starting || s.phase == Stopping ==> t == s)
      && (s.phase == Off || s.phase == On ==>
            && (s.link == Absent ==> Closed(s, t))
            && (s.link != Absent ==> t == s.(task := Idle, phase := Stopping, authEvent := t.authEvent))
            && t.authEvent == if s.task == Awaiting then NoEvent else s.authEvent)
  {
  }

  lemma DisconnectDoes(cfg: Config, s: State, ok: bool)
    requires s.task == Idle
    ensures var t := Next(cfg, s, DisconnectEnds(ok));
      if s.phase != Stopping then t == s
      else if ok then Closed(s, t) && t.authEvent == s.authEvent
      else t == s.(phase := On, link := Down)
  {
  }

  // ----- the reply -----

  /** Is a packet of command 35/86 among them? */
  predicate HasReply(ps: seq<Packet>) {
    exists i :: 0 <= i < |ps| && ps[i].cmdSet == 0x35 && ps[i].cmdId == 0x86
  }

  lemma HasReplySnoc(ps: seq<Packet>, p: Packet)
    ensures HasReply(ps + [p]) <==> HasReply(ps) || (p.cmdSet == 0x35 && p.cmdId == 0x86)
  {
    var all := ps + [p];
    if HasReply(ps) {
      var i :| 0 <= i < |ps| && ps[i].cmdSet == 0x35 && ps[i].cmdId == 0x86;
      assert all[i] == ps[i];
    }
    assert all[|ps|] == p;
  }

  lemma {:induction false} RepliesExactly(e: AuthEvent, ps: seq<Packet>)
    ensures Replies(e, ps) == if e != NoEvent && HasReply(ps) then IsSet else e
    decreases |ps|
  {
    if ps != [] {
      var init, p := ps[..|ps| - 1], ps[|ps| - 1];
      assert ps == init + [p];
      RepliesExactly(e, init);
      HasReplySnoc(init, p);
    }
  }

  /**
   A notification that is listened to sets the event that authentication waits for if and only if there is one and
   a packet of command 35/86 is decoded.  It changes neither task, link, health, writes nor marks.
   */
  lemma NotifyDoes(cfg: Config, s: State, data: bytes)
    ensures var t := Next(cfg, s, Notify(data));
            var d := Run(Type1.Decoder(cfg.key), s.inbox.rx + data);
      if s.phase == Off || s.crypto == No then t == s
      else
        && t == s.(inbox := t.inbox, authEvent := t.authEvent)
        && t.authEvent == (if s.authEvent != NoEvent && HasReply(d.packets) then IsSet else s.authEvent)
        && t.inbox.rx == d.rest && t.inbox.since.received == s.inbox.since.received + data
  {
    RepliesExactly(s.authEvent, Run(Type1.Decoder(cfg.key), s.inbox.rx + data).packets);
  }
}
