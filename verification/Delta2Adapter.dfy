/**
 The Delta 2 adapter as an object whose methods are the stretches of code between suspension points, each
 proved to do exactly what the state machine says.
 */
module Delta2Adapter {
  import opened AdapterState
  import opened Bytes
  import opened Delta2Protocol
  import opened Delta2Machine
  import opened Delta2Telemetry
  import opened Merges
  import opened StreamDecoder

  class Delta2Adapter {
    const parsers: Parsers

    var task: Task
    var phase: Phase
    var link: Link
    var rxBuffer: bytes
    var status: Dict
    var health: Health
    var pending: seq<Command>

    // what has gone out on the bus and over the air, and all that ever came in
    ghost var events: seq<Event>
    ghost var issued: seq<bytes>
    ghost var received: bytes

    ghost function View(): State
      reads this
    {
      State(task, phase, link, rxBuffer, status, health, pending, events, issued, received)
    }

    constructor (parsers: Parsers)
      ensures this.parsers == parsers && task == Idle && phase == Off && link == Absent && rxBuffer == [] && pending == []
      ensures status == map["message_type" := "delta2_status", "online" := "False"] && health == Failed
      ensures events == [] && issued == [] && received == []
      ensures View() == Initial()
    {
      this.parsers := parsers;
      task, phase, link := Idle, Off, Absent;
      rxBuffer, status := [], map["message_type" := "delta2_status", "online" := "False"];
      health, pending := Failed, [];
      events, issued, received := [], [], [];
    }

    // ----- pieces -----

    method PublishState()
      modifies this`events
      ensures events == if phase == Off then old(events) else old(events) + [StateEvent(status)]
      ensures View() == PublishStatus(old(View()))
    {
      if phase != Off {
        events := events + [StateEvent(status)];
      }
    }

    method PublishHealth()
      modifies this`events
      ensures events == if phase == Off then old(events) else old(events) + [HealthEvent(health)]
      ensures View() == Publish(old(View()), [HealthEvent(health)])
    {
      if phase != Off {
        events := events + [HealthEvent(health)];
      }
    }

    method PublishBoth()
      modifies this`events
      ensures events == if phase == Off then old(events) else old(events) + [StateEvent(status), HealthEvent(health)]
      ensures View() == Announce(old(View()))
    {
      PublishState();
      PublishHealth();
      assert phase != Off ==> events == old(events) + [StateEvent(status), HealthEvent(health)];
    }

    method ReportFailure()
      modifies this`health, this`events
      ensures health == Failed
      ensures events == if phase == Off then old(events) else old(events) + [HealthEvent(Failed)]
      ensures View() == Delta2Machine.Fail(old(View()))
    {
      health := Failed;
      PublishHealth();
    }

    // ----- lifecycle -----

    method Start(made: bool)
      modifies this`task, this`phase, this`link
      ensures old(phase) != Off ==> task == old(task) && phase == old(phase) && link == old(link)
      ensures old(phase) == Off && !made ==> task == old(task) && phase == On && link == old(link)
      ensures old(phase) == Off && made ==> task == Connecting && phase == Starting && link == Down
      ensures View() == StartStep(old(View()), made)
    {
      if phase != Off {
        return;
      }
      if !made {
        phase := On;
        return;
      }
      task, phase, link := Connecting, Starting, Down;
    }

    /** The end of connect() inside start, or of reconnect() inside the poll loop. */
    method ConnectReturned(ok: bool, lost: bool)
      modifies this`task, this`phase, this`link, this`status, this`health, this`events
      ensures old(task) != Connecting && old(task) != Reconnecting ==> View() == old(View())
      ensures old(task) == Connecting || old(task) == Reconnecting ==>
                && task == Sleeping && phase == On
                && health == (if ok then Ok else if old(task) == Connecting then Degraded else Failed)
                && status == (if ok then old(status)["online" := "True"] else old(status))
                && link == (if ok && !lost then Up else Down)
                && (old(phase) != Off ==> events == old(events) + [StateEvent(status), HealthEvent(health)])
      ensures View() == ConnectStep(old(View()), ok, lost)
    {
      if task != Connecting && task != Reconnecting {
        return;
      }
      if ok {
        status := status["online" := "True"];
      }
      link := if ok && !lost then Up else Down;
      health := if ok then Ok else if task == Connecting then Degraded else Failed;
      PublishBoth();
      task, phase := Sleeping, On;
    }

    method PollDue(heartbeat: string)
      modifies this`task, this`status, this`health, this`events
      ensures old(task) != Sleeping ==> View() == old(View())
      ensures old(task) == Sleeping ==>
                && status == (if link == Up then old(status)["heartbeat" := heartbeat]
                              else old(status)["heartbeat" := heartbeat]["online" := "False"])
                && health == (if link == Up then old(health) else Failed)
                && (task == Reconnecting <==> link == Down) && (task != Reconnecting ==> task == Sleeping)
                && events == if link == Down || phase == Off then old(events)
                             else old(events) + [StateEvent(status), HealthEvent(health)]
      ensures View() == WakeStep(old(View()), heartbeat)
    {
      if task != Sleeping {
        return;
      }
      status := status["heartbeat" := heartbeat];
      if link != Up {
        status := status["online" := "False"];
        health := Failed;
        if link == Down {
          task := Reconnecting;
          return;
        }
      }
      PublishBoth();
    }

    method FinishStop()
      modifies this`phase, this`link, this`status, this`health, this`events
      ensures phase == Off && link == Absent && health == Failed && status == old(status)["online" := "False"]
      ensures events == if old(phase) == Off then old(events)
                        else old(events) + [StateEvent(status), HealthEvent(Failed)]
      ensures View() == Stopped(old(View()))
    {
      link := Absent;
      status := status["online" := "False"];
      health := Failed;
      PublishBoth();
      phase := Off;
    }

    method Stop()
      modifies this`task, this`phase, this`link, this`status, this`health, this`events
      ensures old(phase) == Starting || old(phase) == Stopping ==> View() == old(View())
      ensures old(phase) == Off || old(phase) == On ==>
                && task == Idle && link == old(link)
                && phase == (if link == Absent then Off else Stopping)
                && health == (if link == Absent then Failed else old(health))
                && status == (if link == Absent then old(status)["online" := "False"] else old(status))
                && events == if link == Absent && old(phase) == On
                             then old(events) + [StateEvent(status), HealthEvent(Failed)] else old(events)
      ensures View() == StopStep(old(View()))
    {
      if phase == Starting || phase == Stopping {
        return;
      }
      task := Idle;
      if link == Absent {
        FinishStop();
      } else {
        phase := Stopping;
      }
    }

    method DisconnectReturned(ok: bool)
      modifies this`phase, this`link, this`status, this`health, this`events
      ensures old(phase) != Stopping ==> View() == old(View())
      ensures old(phase) == Stopping && !ok ==>
                phase == On && link == Down && status == old(status) && health == old(health) && events == old(events)
      ensures old(phase) == Stopping && ok ==>
                && phase == Off && link == Absent && health == Failed && status == old(status)["online" := "False"]
                && events == old(events) + [StateEvent(status), HealthEvent(Failed)]
      ensures View() == DisconnectStep(old(View()), ok)
    {
      if phase != Stopping {
        return;
      }
      if ok {
        FinishStop();
      } else {
        phase, link := On, Down;
      }
    }

    // ----- commands -----

    method WriteCommand(c: Command)
      modifies this`health, this`events, this`issued, this`pending
      ensures pending == if link == Up then old(pending) + [c] else old(pending)
      ensures issued == if link == Up then old(issued) + [c.frame] else old(issued)
      ensures health == if link == Down then Failed else old(health)
      ensures events == if link == Down && phase != Off then old(events) + [HealthEvent(Failed)] else old(events)
      ensures View() == CommandStep(old(View()), c)
    {
      match link
      case Absent =>
      case Down => ReportFailure();
      case Up =>
        issued := issued + [c.frame];
        pending := pending + [c];
    }

    method RefuseCommand(name: string)
      modifies this`status, this`events
      ensures status == old(status)["last_error" := "unsupported_command:" + name]
      ensures events == if phase == Off then old(events) else old(events) + [StateEvent(status)]
      ensures View() == UnsupportedStep(old(View()), name)
    {
      status := status["last_error" := "unsupported_command:" + name];
      PublishState();
    }

    method CommandWriteReturned(ok: bool)
      modifies this`health, this`events, this`pending
      ensures old(pending) == [] ==> View() == old(View())
      ensures old(pending) != [] ==>
                && pending == old(pending)[1..]
                && health == (if ok then old(health) else Failed)
                && events == old(events) + if phase == Off || (ok && !old(pending)[0].Refresh?) then []
                                           else if ok then [StateEvent(status)] else [HealthEvent(Failed)]
      ensures View() == CommandEndStep(old(View()), ok)
    {
      if pending == [] {
        return;
      }
      var c := pending[0];
      pending := pending[1..];
      if !ok {
        ReportFailure();
      } else if c.Refresh? {
        PublishState();
      }
    }

    // ----- notifications -----

    method Merge(content: Dict)
      modifies this`status, this`health, this`events
      ensures status == (old(status) + content)["online" := "True"] && health == Ok
      ensures events == if phase == Off then old(events) else old(events) + [StateEvent(status), HealthEvent(Ok)]
      ensures View() == MergeStatus(old(View()), content)
    {
      status := status + content;
      status := status["online" := "True"];
      health := Ok;
      PublishBoth();
    }

    /** Packets are handled in order, those of other kinds are passed over. */
    method MergePackets(packets: seq<Packet>)
      modifies this`status, this`health, this`events
      ensures View() == HandlePackets(parsers, old(View()), packets)
    {
      ghost var start := View();
      for i := 0 to |packets|
        invariant View() == HandlePackets(parsers, start, packets[..i])
      {
        var p := packets[i];
        assert packets[..i + 1][..i] == packets[..i];
        if p.kind != KIND_STATUS {
          continue;
        }
        Merge(parsers.status(p.payload));
      }
      assert packets[..|packets|] == packets;
    }

    method OnNotification(data: bytes)
      modifies this`rxBuffer, this`received, this`status, this`health, this`events
      ensures var d := Run(DecodeStep, old(rxBuffer) + data);
        && rxBuffer == d.rest && received == old(received) + data
        && Announces(old(View()), View(), Contents(parsers, d.packets))
      ensures View() == NotifyStep(parsers, old(View()), data)
    {
      var packets, rest := DecodePackets(data, rxBuffer);
      rxBuffer := rest;
      received := received + data;
      ghost var start := View();
      MergePackets(packets);
      PacketsAnnounced(parsers, start, packets);
    }

    // ----- any interleaving -----

    method Handle(a: Action)
      modifies this
      ensures a.LinkComesUp? ==> link == if task == Connecting || task == Reconnecting then Up else old(link)
      ensures a.PeerVanishes? ==> link == if old(link) == Absent then Absent else Down
      ensures View() == Next(parsers, old(View()), a)
    {
      match a
      case Start(made) => Start(made);
      case LinkComesUp => if task == Connecting || task == Reconnecting { link := Up; }
      case ConnectEnds(ok, lost) => ConnectReturned(ok, lost);
      case Wake(heartbeat) => PollDue(heartbeat);
      case Notify(data) => OnNotification(data);
      case NotifyLegacy(data) => Merge(parsers.legacy(data));
      case Issue(c) => WriteCommand(c);
      case Unsupported(name) => RefuseCommand(name);
      case CommandEnds(ok) => CommandWriteReturned(ok);
      case PeerVanishes => if link == Up { link := Down; }
      case Stop => Stop();
      case DisconnectEnds(ok) => DisconnectReturned(ok);
    }
  }

  /** An adapter driven through any interleaving is online whenever its health is ok. */
  method Drive(parsers: Parsers, actions: seq<Action>) returns (adapter: Delta2Adapter)
    ensures fresh(adapter) && adapter.parsers == parsers
    ensures adapter.View() == Execute(parsers, Initial(), actions)
    ensures adapter.health == Ok ==> Online(adapter.status)
    ensures OkFollowsOnline(adapter.events)
    ensures |adapter.rxBuffer| <= 257
  {
    adapter := new Delta2Adapter(parsers);
    for i := 0 to |actions|
      invariant fresh(adapter) && adapter.parsers == parsers
      invariant adapter.View() == Execute(parsers, Initial(), actions[..i])
    {
      assert actions[..i + 1][..i] == actions[..i];
      adapter.Handle(actions[i]);
    }
    assert actions[..|actions|] == actions;
    AlwaysInv(parsers, actions);
    RestIsBounded(adapter.received);
  }
}
