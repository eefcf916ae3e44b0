/**
 The PowerStream adapter as an object whose methods are the stretches of code between suspension points.
 Each is proved to do exactly what the state machine says, so what holds of every run of the machine
 holds of the object.
 */
module PowerstreamAdapter {
  import opened AdapterState
  import opened Bytes
  import opened Merges
  import opened Packets
  import opened Snapshots
  import opened Topics
  import opened PowerstreamMachine
  import opened PowerstreamGuarantees
  import Type1

  class PowerstreamAdapter {
    const config: Config

    var task: Task
    var phase: Phase
    var crypto: Answer
    var link: Link
    var rxBuffer: bytes
    var lastState: Dict
    var lastBatState: Dict
    var authenticated: Answer
    var authEvent: AuthEvent
    var health: Health
    var pending: seq<Command>

    // what has gone out, and what happened since the last connect or reconnect began
    ghost var published: seq<Snapshot>
    ghost var reported: seq<Health>
    ghost var issued: seq<Command>
    ghost var epoch: seq<Mark>
    ghost var since: Since

    ghost function Receiver(): Inbox
      reads this
    {
      Inbox(rxBuffer, Caches(lastState, lastBatState), published, since)
    }

    ghost function View(): State
      reads this
    {
      State(task, phase, crypto, link, Receiver(), authenticated, authEvent, health, pending, reported, issued, epoch)
    }

    constructor (config: Config)
      ensures this.config == config && task == Idle && phase == Off && crypto == No && link == Absent
      ensures rxBuffer == [] && lastState == lastBatState == map[] && pending == []
      ensures authenticated == No && authEvent == NoEvent && health == Failed
      ensures View() == Initial()
    {
      this.config := config;
      task, phase, crypto, link := Idle, Off, No, Absent;
      rxBuffer, lastState, lastBatState := [], map[], map[];
      authenticated, authEvent, health, pending := No, NoEvent, Failed, [];
      published, reported, issued, epoch := [], [], [], [];
      since := Since([], Caches(map[], map[]), 0);
    }

    // ----- pieces -----

    method SetHealth(h: Health)
      modifies this`health, this`reported
      ensures health == h && reported == if phase == Off then old(reported) else old(reported) + [h]
      ensures View() == Report(old(View()), h)
    {
      health := h;
      if phase != Off {
        reported := reported + [h];
      }
    }

    method DropBuffer()
      modifies this`rxBuffer, this`since
      ensures Receiver() == Dropped(old(Receiver()))
    {
      rxBuffer := [];
      since := Since([], Caches(lastState, lastBatState), |published|);
    }

    /** An empty buffer, nothing authenticated: a new epoch. */
    method ResetEpoch()
      modifies this`rxBuffer, this`authenticated, this`epoch, this`since
      ensures View() == Reset(old(View()))
    {
      DropBuffer();
      authenticated := No;
      epoch := [];
    }

    method ForgetCaches()
      modifies this`lastState, this`lastBatState
      ensures Receiver() == old(Receiver()).(caches := Caches(map[], map[]))
    {
      lastState, lastBatState := map[], map[];
    }

    method CleanUpConnection()
      modifies this`link, this`rxBuffer, this`lastState, this`lastBatState, this`epoch, this`since
      ensures View() == Cleaned(old(View()))
    {
      ForgetCaches();
      DropBuffer();
      link, epoch := Absent, [];
    }

    /** Back to the poll loop; start ends here as well. */
    method Settle()
      modifies this`task, this`phase
      ensures View() == Rest(old(View()))
    {
      task, phase := Sleeping, On;
    }

    method Fail()
      modifies this`task, this`phase, this`health, this`reported
      ensures View() == GiveUp(old(View()))
    {
      SetHealth(Failed);
      Settle();
    }

    method FailAuthentication()
      modifies this`task, this`phase, this`health, this`reported
      ensures View() == AuthFails(old(View()))
    {
      SetHealth(Failed);
      Fail();
    }

    method Finish()
      modifies this`task, this`phase, this`health, this`reported
      ensures task == Sleeping && phase == On && health == Ok
      ensures reported == old(reported) + if old(phase) == Off then [] else if old(phase) == Starting then [Ok, Ok] else [Ok]
      ensures View() == Succeed(old(View()))
    {
      SetHealth(Ok);
      if phase == Starting {
        SetHealth(Ok);
      }
      Settle();
    }

    /** write() raises at once when the link is down. */
    method WriteAuth(c: Command, next: Task)
      modifies this`task, this`phase, this`health, this`reported, this`issued
      ensures View() == IssueAs(old(View()), c, next)
    {
      if link == Up {
        issued := issued + [c];
        task := next;
      } else {
        FailAuthentication();
      }
    }

    method BeginAuthentication()
      modifies this`task, this`phase, this`health, this`reported, this`issued, this`authenticated, this`authEvent
      ensures authenticated == No && epoch == old(epoch) && published == old(published)
      ensures !config.profile.user ==> health == Ok && task == Sleeping && issued == old(issued)
      ensures config.profile.user && link == Up ==>
                issued == old(issued) + [AUTH_STATUS] && health == old(health) && task == Asking
      ensures config.profile.user && link != Up ==>
                && issued == old(issued) && health == Failed && task == Sleeping
                && (old(phase) != Off ==> reported == old(reported) + [Failed, Failed])
      ensures View() == Authenticate(config.profile, old(View()))
    {
      authenticated := No;
      if !config.profile.user {
        Finish();
        return;
      }
      authEvent := Unset;
      WriteAuth(AUTH_STATUS, Asking);
    }

    method FailPoll()
      modifies this
      ensures health == Failed && link == old(link) && issued == old(issued)
      ensures lastState == old(lastState) && lastBatState == old(lastBatState)
      ensures old(phase) != Off ==> reported == old(reported) + [Failed]
      ensures link != Absent ==> task == Connecting && rxBuffer == [] && epoch == [] && authenticated == No
      ensures link == Absent ==> task == Sleeping && rxBuffer == old(rxBuffer)
      ensures View() == PollFails(old(View()))
    {
      SetHealth(Failed);
      if link == Absent {
        Settle();
        return;
      }
      ResetEpoch();
      task := Connecting;
    }

    // ----- lifecycle -----

    method BeginConnecting()
      modifies this
      ensures View() == Launch(old(View()))
    {
      ResetEpoch();
      task, phase, crypto, link := Connecting, Starting, Yes, Down;
    }

    method Start(setup: Setup)
      modifies this
      ensures issued == old(issued) && published == old(published)
      ensures old(phase) != Off ==> View() == old(View())
      ensures old(phase) == Off ==>
                && phase != Off
                && (phase == Starting <==>
                      config.profile.serial && setup != NoConnection && (setup == NoCrypto ==> old(crypto) == Yes))
                && (phase == Starting ==>
                      task == Connecting && rxBuffer == [] && epoch == [] && reported == old(reported))
                && (phase == On ==>
                      && health == (if config.profile.serial then Failed else Degraded)
                      && reported == old(reported) + [health])
      ensures View() == StartStep(config.profile, old(View()), setup)
    {
      if phase != Off {
        return;
      }
      if !config.profile.serial {
        phase := On;
        SetHealth(Degraded);
      } else if setup == NoCrypto && crypto == No {
        phase := On;
        Fail();
      } else if setup == NoConnection {
        phase, crypto := On, Yes;
        Fail();
      } else {
        BeginConnecting();
      }
    }

    method ConnectReturned(ok: bool, lost: bool)
      modifies this
      ensures View() == ConnectStep(config.profile, old(View()), ok, lost)
    {
      if task != Connecting {
        return;
      }
      if !ok {
        link := Down;
        Fail();
        return;
      }
      link := if lost then Down else Up;
      epoch := epoch + [LinkUp];
      BeginAuthentication();
    }

    method AuthStatusWritten(ok: bool)
      modifies this
      ensures View() == AskStep(old(View()), ok)
    {
      if !ok {
        FailAuthentication();
        return;
      }
      epoch := epoch + [Written(AUTH_STATUS)];
      task := Awaiting;
    }

    method AuthWritten(ok: bool)
      modifies this
      ensures View() == ProveStep(old(View()), ok)
    {
      if !ok {
        FailAuthentication();
        return;
      }
      epoch := epoch + [Written(AUTH)];
      authenticated := Yes;
      Finish();
    }

    method PollWritten(ok: bool)
      modifies this
      ensures View() == PollStep(old(View()), ok)
    {
      if !ok {
        FailPoll();
        return;
      }
      epoch := epoch + [Written(GET_STATUS)];
      Settle();
    }

    method WriteReturned(ok: bool)
      modifies this
      ensures View() == WriteStep(old(View()), ok)
    {
      match task
      case Asking => AuthStatusWritten(ok);
      case Proving => AuthWritten(ok);
      case Polling => PollWritten(ok);
      case _ =>
    }

    method WaitOver()
      modifies this
      ensures View() == WaitStep(old(View()))
    {
      if task == Awaiting {
        authEvent := NoEvent;
        WriteAuth(AUTH, Proving);
      }
    }

    method PollDue()
      modifies this
      ensures old(task) == Sleeping && link == Up ==>
                && issued == old(issued) + [Command(0x02, 0x22)] && task == Polling
                && health == old(health) && reported == old(reported) && Receiver() == old(Receiver())
      ensures old(task) == Sleeping && link != Up ==> issued == old(issued) && health == Failed
      ensures View() == WakeStep(old(View()))
    {
      if task != Sleeping {
        return;
      }
      if link != Up {
        FailPoll();
        return;
      }
      issued := issued + [GET_STATUS];
      task := Polling;
    }

    method FinishStop()
      modifies this
      ensures View() == Stopped(old(View()))
    {
      CleanUpConnection();
      SetHealth(Failed);
      phase := Off;
    }

    method CancelTask()
      modifies this`task, this`authEvent
      ensures View() == Cancel(old(View()))
    {
      if task == Awaiting {
        authEvent := NoEvent;
      }
      task := Idle;
    }

    method Stop()
      modifies this
      ensures issued == old(issued) && published == old(published)
      ensures old(phase) == Starting || old(phase) == Stopping ==> View() == old(View())
      ensures old(phase) == Off || old(phase) == On ==>
                && task == Idle
                && (phase == Off <==> old(link) == Absent)
                && (phase == Off ==> health == Failed && rxBuffer == [] && lastState == lastBatState == map[])
                && (phase != Off ==>
                      phase == Stopping && link == old(link) && health == old(health) && reported == old(reported))
      ensures View() == StopStep(old(View()))
    {
      if phase == Starting || phase == Stopping {
        return;
      }
      CancelTask();
      if link == Absent {
        FinishStop();
      } else {
        phase := Stopping;
      }
    }

    method DisconnectReturned(ok: bool)
      modifies this
      ensures View() == DisconnectStep(old(View()), ok)
    {
      if phase != Stopping {
        return;
      }
      if ok {
        FinishStop();
      } else {
        phase, link := On, Down;
      }
    }

    // ----- commands -----

    method WriteCommand(c: Command)
      modifies this
      ensures link == old(link) && task == old(task) && published == old(published)
      ensures issued == if link == Up then old(issued) + [c] else old(issued)
      ensures health == if link == Down then Failed else old(health)
      ensures View() == CommandStep(old(View()), c)
    {
      match link
      case Absent =>
      case Down => SetHealth(Failed);
      case Up =>
        issued := issued + [c];
        pending := pending + [c];
    }

    method SetLoadPower(power: Power)
      modifies this
      ensures var accepted := power.Watts? && 0 <= power.watts <= 8000;
        && issued == (if accepted && link == Up then old(issued) + [Command(0x14, 0x81)] else old(issued))
        && health == (if accepted && link != Down then old(health) else Failed)
      ensures View() == PowerStep(old(View()), power)
    {
      if power.Watts? && 0 <= power.watts <= MAX_LOAD_POWER_WATTS {
        WriteCommand(SET_LOAD_POWER);
      } else {
        SetHealth(Failed);
      }
    }

    method CommandWriteReturned(ok: bool)
      modifies this
      ensures View() == CommandEndStep(old(View()), ok)
    {
      if pending == [] {
        return;
      }
      ghost var c := pending[0];
      pending := pending[1..];
      if ok {
        epoch := epoch + [Written(c)];
      } else {
        SetHealth(Failed);
      }
    }

    // ----- notifications -----

    method PublishContent(content: Dict, target: string)
      modifies this`lastState, this`lastBatState, this`published
      ensures var battery := target == BatteryTopic(config.source.domain, config.source.entity);
              var before, cache := old(if battery then lastBatState else lastState),
                                   if battery then lastBatState else lastState;
        && published == old(published) + [Snapshot(target, cache)]
        && (battery ==> lastState == old(lastState)) && (!battery ==> lastBatState == old(lastBatState))
        && cache.Keys == before.Keys + content.Keys
        && (forall k :: k in content ==> cache[k] == content[k])
        && (forall k :: k in before && k !in content ==> cache[k] == before[k])
      ensures var e := PublishState(config.source, old(Caches(lastState, lastBatState)), content, target);
              Caches(lastState, lastBatState) == e.caches && published == old(published) + e.published
    {
      if target == BatteryTopic(config.source.domain, config.source.entity) {
        lastBatState := lastBatState + content;
        published := published + [Snapshot(target, lastBatState)];
      } else {
        lastState := lastState + content;
        published := published + [Snapshot(target, lastState)];
      }
    }

    method HandlePacket(p: Packet)
      modifies this`lastState, this`lastBatState, this`published, this`authEvent
      ensures var e := PublishPacket(config.source, old(Caches(lastState, lastBatState)), p);
              Caches(lastState, lastBatState) == e.caches && published == old(published) + e.published
      ensures authEvent == Reply(old(authEvent), p)
      ensures p.cmdSet == 0x35 && p.cmdId == 0x86 ==> authEvent == if old(authEvent) == NoEvent then NoEvent else IsSet
      ensures p.cmdSet != 0x14 ==> published == old(published)
    {
      var src := config.source;
      if IsState(p) {
        PublishContent(src.parseState(p.payload), StateTopic(src.domain, src.entity));
      } else if IsBattery(p) {
        PublishContent(src.parseBattery(p.payload), BatteryTopic(src.domain, src.entity));
      } else if IsAuthReply(p) {
        if authEvent != NoEvent {
          authEvent := IsSet;
        }
      }
    }

    /** Packets are handled in order. */
    method HandlePackets(packets: seq<Packet>)
      modifies this`lastState, this`lastBatState, this`published, this`authEvent
      ensures var e := PublishPackets(config.source, old(Caches(lastState, lastBatState)), packets);
              Caches(lastState, lastBatState) == e.caches && published == old(published) + e.published
      ensures authEvent == Replies(old(authEvent), packets)
    {
      ghost var src, caches, sent, event := config.source, Caches(lastState, lastBatState), published, authEvent;
      for i := 0 to |packets|
        invariant PublishPackets(src, caches, packets[..i]).caches == Caches(lastState, lastBatState)
        invariant published == sent + PublishPackets(src, caches, packets[..i]).published
        invariant authEvent == Replies(event, packets[..i])
      {
        HandlePacket(packets[i]);
        OneMore(src, caches, event, sent, packets, i);
      }
      assert packets[..|packets|] == packets;
    }

    method OnNotification(data: bytes)
      modifies this
      ensures View() == NotifyStep(config, old(View()), data)
    {
      if phase == Off || crypto == No {
        return;
      }
      var packets, rest := Type1.DecodePackets(config.key, data, rxBuffer);
      rxBuffer := rest;
      since := since.(received := since.received + data);
      HandlePackets(packets);
    }

    // ----- any interleaving -----

    method HandleCommand(a: Action)
      requires a.RequestStatus? || a.SetLoadPower? || a.UnknownCommand? || a.CommandEnds?
      modifies this
      ensures View() == Advance(config.profile, old(View()), a)
    {
      match a
      case RequestStatus => WriteCommand(GET_STATUS);
      case SetLoadPower(power) => SetLoadPower(power);
      case UnknownCommand =>
      case CommandEnds(ok) => CommandWriteReturned(ok);
    }

    method Handle(a: Action)
      modifies this
      ensures View() == Next(config, old(View()), a)
    {
      match a
      case Start(setup) => Start(setup);
      case LinkComesUp => if task == Connecting { link := Up; }
      case ConnectEnds(ok, lost) => ConnectReturned(ok, lost);
      case WriteEnds(ok) => WriteReturned(ok);
      case WaitEnds => WaitOver();
      case Wake => PollDue();
      case Notify(data) => OnNotification(data);
      case PeerVanishes => if link == Up { link := Down; }
      case Stop => Stop();
      case DisconnectEnds(ok) => DisconnectReturned(ok);
      case _ => HandleCommand(a);
    }
  }

  lemma OneMore(src: Source, c: Caches, e: AuthEvent, sent: seq<Snapshot>, ps: seq<Packet>, i: nat)
    requires i < |ps|
    ensures var before, after := PublishPackets(src, c, ps[..i]), PublishPackets(src, c, ps[..i + 1]);
            var f := PublishPacket(src, before.caches, ps[i]);
            after.caches == f.caches && sent + after.published == (sent + before.published) + f.published
    ensures Replies(e, ps[..i + 1]) == Reply(Replies(e, ps[..i]), ps[i])
  {
    assert ps[..i + 1][..i] == ps[..i];
    assert ps[..i + 1] == ps[..i] + [ps[i]];
    FoldSnoc(PublisherOf(src), c, ps[..i], ps[i]);
  }

  /** An adapter driven through any interleaving has an ok health only on the evidence of its current epoch. */
  method Drive(config: Config, actions: seq<Action>) returns (adapter: PowerstreamAdapter)
    ensures fresh(adapter) && adapter.config == config
    ensures adapter.View() == Execute(config, Initial(), actions)
    ensures adapter.health == Ok ==> adapter.link != Absent && Evidence(config, adapter.epoch)
    ensures |adapter.rxBuffer| <= 65556
  {
    adapter := new PowerstreamAdapter(config);
    for i := 0 to |actions|
      invariant fresh(adapter) && adapter.config == config
      invariant adapter.View() == Execute(config, Initial(), actions[..i])
    {
      assert actions[..i + 1][..i] == actions[..i];
      adapter.Handle(actions[i]);
    }
    assert actions[..|actions|] == actions;
    OkIsEarned(config, actions);
    AlwaysInv(config, actions);
    Type1.RestIsBounded(config.key, adapter.since.received);
  }
}
