/**
 The PowerStream adapter on top of its connection: a connect, reconnect or disconnect comes to its end as the
 connection object says, and the mark that the link came up turns out to mean a client subscribed exactly once.
 */
module PowerstreamSystem {
  import opened AdapterState
  import opened PowerstreamMachine
  import opened PowerstreamGuarantees
  import opened Wrappers
  import Ble = BleConnection
  import RadioScript
  import Adapter = PowerstreamAdapter

  /** In start's own connect. */
  predicate FirstConnect(s: State) {
    s.phase == Starting && s.task == Connecting
  }

  /** What a step that neither starts nor ends a connect or disconnect leaves alone. */
  ghost predicate Unaffected(s: State, t: State) {
    && (t.link == Absent <==> s.link == Absent)
    && (FirstConnect(t) <==> FirstConnect(s))
    && (LinkUp in t.epoch ==> LinkUp in s.epoch)
    && (t.task == Connecting ==> t.epoch == [] || s.task == Connecting)
    && (t.task != Idle ==> s.task != Idle)
  }

  /** The same happens, possibly with another outcome. */
  predicate SameKind(due: Action, a: Action) {
    a == due || (a.ConnectEnds? && due.ConnectEnds?) || (a.DisconnectEnds? && due.DisconnectEnds?)
  }

  predicate Plain(s: State, a: Action) {
    && !a.Start?
    && !(a.ConnectEnds? && s.task == Connecting)
    && !(a.DisconnectEnds? && s.phase == Stopping)
  }

  lemma WriteIsPlain(p: Profile, s: State, ok: bool)
    requires Lifecycle(p, s)
    ensures Unaffected(s, WriteStep(s, ok))
  {
  }

  lemma WaitIsPlain(p: Profile, s: State)
    requires Lifecycle(p, s)
    ensures Unaffected(s, WaitStep(s)) && Unaffected(s, WakeStep(s))
  {
  }

  lemma CommandIsPlain(s: State, c: Command, ok: bool)
    ensures Unaffected(s, CommandStep(s, c)) && Unaffected(s, CommandEndStep(s, ok))
  {
  }

  lemma PlainStep(cfg: Config, s: State, a: Action)
    requires Lifecycle(cfg.profile, s) && Plain(s, a)
    ensures Unaffected(s, Next(cfg, s, a))
  {
    match a
    case WriteEnds(ok) => WriteIsPlain(cfg.profile, s, ok);
    case WaitEnds => WaitIsPlain(cfg.profile, s);
    case Wake => WaitIsPlain(cfg.profile, s);
    case RequestStatus => CommandIsPlain(s, GET_STATUS, true);
    case SetLoadPower(_) => CommandIsPlain(s, SET_LOAD_POWER, true);
    case CommandEnds(ok) => CommandIsPlain(s, GET_STATUS, ok);
    case _ =>
  }

  lemma StartLaunches(p: Profile, s: State, setup: Setup)
    requires Lifecycle(p, s)
    ensures var t := StartStep(p, s, setup);
      && (s.phase != Off ==> t == s)
      && (s.phase == Off && t.link != Absent ==> FirstConnect(t) && t.epoch == [])
      && (s.phase == Off && t.link == Absent ==> t.task != Connecting && t.epoch == s.epoch)
  {
  }

  lemma ConnectSettlesMark(p: Profile, s: State, ok: bool, lost: bool)
    requires Lifecycle(p, s) && s.task == Connecting
    ensures var t := ConnectStep(p, s, ok, lost);
      && t.link == (if ok && !lost then Up else Down) && t.task != Connecting && !FirstConnect(t)
      && (!ok ==> t.epoch == s.epoch)
  {
  }

  lemma DisconnectUnbinds(p: Profile, s: State, ok: bool)
    requires Lifecycle(p, s) && s.phase == Stopping
    ensures var t := DisconnectStep(s, ok);
            t.task == Idle && !FirstConnect(t) && (t.link == Absent <==> ok) && (ok ==> t.epoch == [])
  {
  }

  class PowerstreamSystem {
    const adapter: Adapter.PowerstreamAdapter
    const config: Ble.ValidConfig
    const radio: Ble.Radio
    const handler: Ble.Handler

    var connection: Ble.BleConnection?

    ghost function Current(): set<object>
      reads this, connection
    {
      if connection == null || connection.client == null then {} else {connection.client}
    }

    /** A client of this connection that is linked and was subscribed exactly once. */
    ghost predicate Subscribed()
      reads this, connection, Current()
    {
      connection != null && connection.handler == Some(handler) && connection.Established(true)
    }

    ghost predicate Bound()
      reads this, connection, if connection == null then {} else connection.created
    {
      connection != null ==> connection.Valid() && connection.radio == radio
    }

    /** Until start's own connect has ended the connection is untouched; afterwards it has the handler. */
    ghost predicate Agrees()
      reads this, adapter, connection, Current()
    {
      && (connection == null <==> adapter.link == Absent)
      && (FirstConnect(adapter.View()) ==>
            connection != null && connection.client == null && !connection.notificationsStarted)
      && (connection != null && !FirstConnect(adapter.View()) ==> connection.handler == Some(handler))
      && (adapter.task == Connecting || adapter.link == Absent ==> LinkUp !in adapter.epoch)
      && (adapter.task != Idle && LinkUp in adapter.epoch ==> Subscribed())
    }

    ghost predicate Valid()
      reads this, adapter, connection, Current(), if connection == null then {} else connection.created
    {
      Bound() && Agrees() && Settled(adapter.config.profile, adapter.View())
    }

    constructor (cfg: Config, config: Ble.ValidConfig, radio: Ble.Radio, handler: Ble.Handler)
      ensures Valid() && adapter.View() == Initial()
      ensures adapter.config == cfg && this.radio == radio && this.handler == handler
      ensures fresh(adapter) && connection == null
    {
      this.config, this.radio, this.handler := config, radio, handler;
      adapter := new Adapter.PowerstreamAdapter(cfg);
      connection := null;
    }

    /** A step that neither starts nor ends a connect or disconnect; a lost peer is lost to the client as well. */
    method TakePlain(a: Action)
      requires Valid() && Plain(adapter.View(), a)
      modifies adapter, Current()
      ensures Bound() && Agrees() && connection == old(connection)
      ensures a.PeerVanishes? && connection != null ==> !connection.IsConnected()
      ensures adapter.View() == Next(adapter.config, old(adapter.View()), a)
    {
      PlainStep(adapter.config, adapter.View(), a);
      if a.PeerVanishes? && connection != null && connection.client != null {
        connection.client.Vanish();
      }
      adapter.Handle(a);
    }

    /** start, and with it the connection object if it can be made. */
    method TakeStart(setup: Setup)
      requires Valid()
      modifies this`connection, adapter
      ensures Bound() && Agrees()
      ensures connection == old(connection) || (fresh(connection) && connection.client == null)
      ensures adapter.View() == StartStep(adapter.config.profile, old(adapter.View()), setup)
    {
      StartLaunches(adapter.config.profile, adapter.View(), setup);
      var off := adapter.phase == Off;
      adapter.Start(setup);
      if off && adapter.link != Absent {
        connection := new Ble.BleConnection(config, radio);
      }
    }

    /** The connect of start, or the reconnect of a failed poll, on the connection object alone. */
    method RunConnect() returns (ok: bool, lost: bool)
      requires Valid() && adapter.task == Connecting
      modifies connection, radio, Current()
      ensures Bound() && connection == old(connection) && connection != null && connection.handler == Some(handler)
      ensures connection.client == null || fresh(connection.client)
              || (adapter.phase == Starting && connection.client in old(Current()))
      ensures lost == !connection.IsConnected()
      ensures ok ==> connection.Established(true)
      ensures !ok ==> lost
    {
      var r: RadioScript.Ending;
      ghost var attempts: nat;
      if adapter.phase == Starting {
        r, attempts := connection.Connect(Some(handler));
      } else {
        r, attempts := connection.Reconnect();
      }
      ok, lost := r.Returned?, !connection.IsConnected();
    }

    /** It comes to its end as the connection says, and the link is up if and only if the client is connected. */
    method EndConnect() returns (ok: bool, lost: bool)
      requires Valid() && adapter.task == Connecting
      modifies adapter, connection, radio, Current()
      ensures Bound() && Agrees() && connection == old(connection) && connection != null
      ensures connection.client == null || fresh(connection.client) || connection.client in old(Current())
      ensures adapter.View() == ConnectStep(adapter.config.profile, old(adapter.View()), ok, lost)
      ensures adapter.link == Up <==> connection.IsConnected()
    {
      ok, lost := RunConnect();
      ConnectSettlesMark(adapter.config.profile, adapter.View(), ok, lost);
      adapter.ConnectReturned(ok, lost);
    }

    /** The disconnect of stop comes to its end as the connection says. */
    method EndDisconnect() returns (ok: bool)
      requires Valid() && adapter.phase == Stopping
      modifies this`connection, adapter, connection, radio, Current()
      ensures Bound() && Agrees()
      ensures connection == null || (connection == old(connection) && connection.client == null)
      ensures adapter.View() == DisconnectStep(old(adapter.View()), ok)
    {
      ok := connection.Disconnect();
      DisconnectUnbinds(adapter.config.profile, adapter.View(), ok);
      adapter.DisconnectReturned(ok);
      if ok {
        connection := null;
      }
    }

    /** What is due to happen, happens; where the connection decides, its outcome replaces the proposed one. */
    method Turn(due: Action) returns (ghost a: Action)
      requires Valid()
      modifies this`connection, adapter, connection, radio, Current()
      ensures Valid()
      ensures connection == old(connection) || connection == null || fresh(connection)
      ensures connection != null && connection.client != null ==>
                fresh(connection.client) || connection.client in old(Current())
      ensures SameKind(due, a) && adapter.View() == Next(adapter.config, old(adapter.View()), a)
    {
      a := due;
      ghost var cfg, s := adapter.config, adapter.View();
      if due.Start? {
        TakeStart(due.setup);
        StartIsNext(cfg, s, due.setup);
      } else if due.ConnectEnds? && adapter.task == Connecting {
        var ok, lost := EndConnect();
        a := ConnectEnds(ok, lost);
        ConnectIsNext(cfg, s, ok, lost);
      } else if due.DisconnectEnds? && adapter.phase == Stopping {
        var ok := EndDisconnect();
        a := DisconnectEnds(ok);
        DisconnectIsNext(cfg, s, ok);
      } else {
        TakePlain(due);
      }
      SettledIsKept(cfg, s, a);
    }
  }

  lemma StartIsNext(cfg: Config, s: State, setup: Setup)
    ensures Next(cfg, s, Start(setup)) == StartStep(cfg.profile, s, setup)
  {
  }

  lemma ConnectIsNext(cfg: Config, s: State, ok: bool, lost: bool)
    ensures Next(cfg, s, ConnectEnds(ok, lost)) == ConnectStep(cfg.profile, s, ok, lost)
  {
  }

  lemma DisconnectIsNext(cfg: Config, s: State, ok: bool)
    ensures Next(cfg, s, DisconnectEnds(ok)) == DisconnectStep(s, ok)
  {
  }

  lemma SettledIsKept(cfg: Config, s: State, a: Action)
    requires Settled(cfg.profile, s)
    ensures Settled(cfg.profile, Next(cfg, s, a))
  {
    if !a.Notify? {
      AdvanceSettles(cfg.profile, s, a);
    }
  }

  lemma ExecuteSnoc(cfg: Config, actions: seq<Action>, a: Action)
    ensures Execute(cfg, Initial(), actions + [a]) == Next(cfg, Execute(cfg, Initial(), actions), a)
  {
    assert (actions + [a])[..|actions|] == actions;
  }

  lemma OkShowsMark(cfg: Config, actions: seq<Action>)
    ensures var s := Execute(cfg, Initial(), actions);
            s.health == Health.Ok ==> LinkUp in s.epoch && Evidence(cfg, s.epoch)
  {
    OkIsEarned(cfg, actions);
    var s := Execute(cfg, Initial(), actions);
    if s.health == Health.Ok {
      var i :| Linked(s.epoch, i);
      assert s.epoch[i] == LinkUp;
    }
  }

  method Run(system: PowerstreamSystem, due: seq<Action>) returns (ghost taken: seq<Action>)
    requires system.Valid() && system.adapter.View() == Initial()
    requires system.connection == null
    modifies system, system.adapter, system.radio
    ensures |taken| == |due| && forall i :: 0 <= i < |due| ==> SameKind(due[i], taken[i])
    ensures system.Valid() && system.adapter.View() == Execute(system.adapter.config, Initial(), taken)
  {
    taken := [];
    for i := 0 to |due|
      invariant system.Valid()
      invariant system.connection == null || fresh(system.connection)
      invariant fresh(system.Current())
      invariant |taken| == i && forall k :: 0 <= k < i ==> SameKind(due[k], taken[k])
      invariant system.adapter.View() == Execute(system.adapter.config, Initial(), taken)
    {
      ghost var a := system.Turn(due[i]);
      ExecuteSnoc(system.adapter.config, taken, a);
      taken := taken + [a];
    }
  }

  /**
   Whatever falls due, in any order, with a radio that does anything: what really happened is one of the runs of
   the machine, and while the adapter's task lives an ok health means that the current client was linked and
   subscribed exactly once, for the adapter's handler.
   */
  method Drive(cfg: Config, config: Ble.ValidConfig, radio: Ble.Radio, handler: Ble.Handler, due: seq<Action>)
    returns (system: PowerstreamSystem, ghost taken: seq<Action>)
    modifies radio
    ensures fresh(system) && system.handler == handler
    ensures |taken| == |due| && forall i :: 0 <= i < |due| ==> SameKind(due[i], taken[i])
    ensures system.adapter.View() == Execute(cfg, Initial(), taken)
    ensures system.adapter.health == Health.Ok && system.adapter.task != Idle ==>
              system.Subscribed() && Evidence(cfg, system.adapter.epoch)
  {
    system := new PowerstreamSystem(cfg, config, radio, handler);
    taken := Run(system, due);
    OkShowsMark(cfg, taken);
  }
}
