/**
 The Delta 2 adapter between its suspension points.  One action is one stretch of code that runs without
 awaiting anything that really suspends; notifications and commands interleave with a pending connect or
 reconnect, and may arrive after the adapter was stopped.
 */
module Delta2Machine {
  import opened AdapterState
  import opened Bytes
  import opened Delta2Protocol
  import opened Merges
  import opened StreamDecoder

  /** The two payload parsers, which never fail. */
  datatype Parsers = Parsers(status: bytes -> Dict, legacy: bytes -> Dict)

  /** Where the task that starts and then maintains the connection is suspended. */
  datatype Task = Idle | Connecting | Sleeping | Reconnecting

  /** An encoded command; a refresh publishes the state once it is written. */
  datatype Command = Refresh(frame: bytes) | Setting(frame: bytes)

  /** What goes out on the bus. */
  datatype Event = StateEvent(content: Dict) | HealthEvent(health: Health)

  datatype State = State(
    task: Task, phase: Phase, link: Link,
    rx: bytes, status: Dict, health: Health,
    pending: seq<Command>,        // commands suspended in their write
    // history
    events: seq<Event>, issued: seq<bytes>, received: bytes)

  datatype Action =
    | Start(made: bool)                  // the connection factory may raise
    | LinkComesUp                        // inside connect() or reconnect()
    | ConnectEnds(ok: bool, lost: bool)  // the peer may be lost again before anyone looks
    | Wake(heartbeat: string)            // the poll interval is over
    | Notify(data: bytes)
    | NotifyLegacy(data: bytes)
    | Issue(command: Command)
    | Unsupported(name: string)
    | CommandEnds(ok: bool)              // the oldest suspended command's write
    | PeerVanishes
    | Stop
    | DisconnectEnds(ok: bool)

  predicate Online(d: Dict) {
    "online" in d && d["online"] == "True"
  }

  function Initial(): State {
    State(Idle, Off, Absent, [], map["message_type" := "delta2_status", "online" := "False"], Failed, [], [], [], [])
  }

  // ----- pieces shared by the actions -----

  function Publish(s: State, es: seq<Event>): State {
    if s.phase == Off then s else s.(events := s.events + es)
  }

  function PublishStatus(s: State): State {
    Publish(s, [StateEvent(s.status)])
  }

  /** State first, then health. */
  function Announce(s: State): State {
    Publish(s, [StateEvent(s.status), HealthEvent(s.health)])
  }

  function GoOnline(s: State): State {
    s.(status := s.status["online" := "True"], health := Ok)
  }

  function GoOffline(s: State): State {
    s.(status := s.status["online" := "False"], health := Failed)
  }

  /** A command that fails reports the health alone. */
  function Fail(s: State): State {
    Publish(s.(health := Failed), [HealthEvent(Failed)])
  }

  function Rest(s: State): State {
    s.(task := Sleeping, phase := On)
  }

  // ----- the actions -----

  /** When the factory raises, start raises with the bus already taken. */
  function StartStep(s: State, made: bool): State {
    if s.phase != Off then s
    else if !made then s.(phase := On)
    else s.(task := Connecting, phase := Starting, link := Down)
  }

  function ConnectStep(s: State, ok: bool, lost: bool): State {
    if s.task != Connecting && s.task != Reconnecting then s
    else if ok then Rest(Announce(GoOnline(s.(link := if lost then Down else Up))))
    else Rest(Announce(s.(link := Down, health := if s.task == Connecting then Degraded else Failed)))
  }

  function WakeStep(s: State, heartbeat: string): State {
    if s.task != Sleeping then s
    else
      var t := s.(status := s.status["heartbeat" := heartbeat]);
      match s.link
      case Absent => Announce(GoOffline(t))
      case Down => GoOffline(t).(task := Reconnecting)
      case Up => Announce(t)
  }

  function MergeStatus(s: State, content: Dict): State {
    Announce(GoOnline(s.(status := s.status + content)))
  }

  function HandlePacket(ps: Parsers, s: State, p: Packet): State {
    if p.kind == KIND_STATUS then MergeStatus(s, ps.status(p.payload)) else s
  }

  function HandlePackets(ps: Parsers, s: State, packets: seq<Packet>): State {
    if packets == [] then s
    else HandlePacket(ps, HandlePackets(ps, s, packets[..|packets| - 1]), packets[|packets| - 1])
  }

  /** There is no check that the adapter is running. */
  function NotifyStep(ps: Parsers, s: State, data: bytes): State {
    var d := Run(DecodeStep, s.rx + data);
    HandlePackets(ps, s.(rx := d.rest, received := s.received + data), d.packets)
  }

  function CommandStep(s: State, c: Command): State {
    match s.link
    case Absent => s
    case Down => Fail(s)
    case Up => s.(issued := s.issued + [c.frame], pending := s.pending + [c])
  }

  function UnsupportedStep(s: State, name: string): State {
    PublishStatus(s.(status := s.status["last_error" := "unsupported_command:" + name]))
  }

  function CommandEndStep(s: State, ok: bool): State {
    if s.pending == [] then s
    else
      var t := s.(pending := s.pending[1..]);
      if !ok then Fail(t) else if s.pending[0].Refresh? then PublishStatus(t) else t
  }

  /** What stop does once the connection is gone.  The buffer is kept. */
  function Stopped(s: State): State {
    Announce(GoOffline(s.(link := Absent))).(phase := Off)
  }

  function StopStep(s: State): State {
    if s.phase == Starting || s.phase == Stopping then s
    else if s.link == Absent then Stopped(s.(task := Idle))
    else s.(task := Idle, phase := Stopping)
  }

  /** stop gets no further when the disconnect raises. */
  function DisconnectStep(s: State, ok: bool): State {
    if s.phase != Stopping then s
    else if ok then Stopped(s)
    else s.(phase := On, link := Down)
  }

  function Next(ps: Parsers, s: State, a: Action): State {
    match a
    case Start(made) => StartStep(s, made)
    case LinkComesUp => if s.task == Connecting || s.task == Reconnecting then s.(link := Up) else s
    case ConnectEnds(ok, lost) => ConnectStep(s, ok, lost)
    case Wake(heartbeat) => WakeStep(s, heartbeat)
    case Notify(data) => NotifyStep(ps, s, data)
    case NotifyLegacy(data) => MergeStatus(s, ps.legacy(data))
    case Issue(c) => CommandStep(s, c)
    case Unsupported(name) => UnsupportedStep(s, name)
    case CommandEnds(ok) => CommandEndStep(s, ok)
    case PeerVanishes => if s.link == Up then s.(link := Down) else s
    case Stop => StopStep(s)
    case DisconnectEnds(ok) => DisconnectStep(s, ok)
  }

  /** Any interleaving whatever. */
  function Execute(ps: Parsers, s: State, actions: seq<Action>): State {
    if actions == [] then s else Next(ps, Execute(ps, s, actions[..|actions| - 1]), actions[|actions| - 1])
  }

  // ----- the invariant -----

  /** An ok health goes out only right behind a state that says online. */
  ghost predicate OkFollowsOnline(es: seq<Event>) {
    forall i :: 0 <= i < |es| && es[i] == HealthEvent(Ok) ==>
                  i > 0 && es[i - 1].StateEvent? && Online(es[i - 1].content)
  }

  ghost predicate Coherent(s: State) {
    && (s.health == Ok ==> Online(s.status))
    && OkFollowsOnline(s.events)
  }

  /** The buffer is what decoding leaves of everything ever received, across all reconnects. */
  ghost predicate Residual(s: State) {
    s.rx == Run(DecodeStep, s.received).rest
  }

  ghost predicate Lifecycle(s: State) {
    && (s.task != Idle ==> (s.phase == Starting || s.phase == On) && s.link != Absent)
    && (s.task == Connecting <==> s.phase == Starting)
    && (s.phase == Off ==> s.link == Absent)
    && (s.phase == Stopping ==> s.link != Absent)
  }

  ghost predicate Inv(s: State) {
    Coherent(s) && Residual(s) && Lifecycle(s)
  }

  lemma SilentKeeps(es: seq<Event>, e: Event)
    requires OkFollowsOnline(es) && e != HealthEvent(Ok)
    ensures OkFollowsOnline(es + [e])
  {
  }

  lemma AnnouncementKeeps(es: seq<Event>, d: Dict, h: Health)
    requires OkFollowsOnline(es) && (h == Ok ==> Online(d))
    ensures OkFollowsOnline(es + [StateEvent(d), HealthEvent(h)])
  {
    var out := es + [StateEvent(d), HealthEvent(h)];
    forall i | 0 <= i < |out| && out[i] == HealthEvent(Ok)
      ensures i > 0 && out[i - 1].StateEvent? && Online(out[i - 1].content)
    {
      if i < |es| {
        assert es[i] == HealthEvent(Ok);
      }
    }
  }

  lemma AnnounceKeeps(s: State)
    requires Coherent(s)
    ensures Coherent(Announce(s))
  {
    AnnouncementKeeps(s.events, s.status, s.health);
  }

  lemma PublishStatusKeeps(s: State)
    requires Coherent(s)
    ensures Coherent(PublishStatus(s))
  {
    SilentKeeps(s.events, StateEvent(s.status));
  }

  lemma FailKeeps(s: State)
    requires Coherent(s)
    ensures Coherent(Fail(s))
  {
    SilentKeeps(s.events, HealthEvent(Failed));
  }

  lemma MergeKeeps(s: State, content: Dict)
    requires Coherent(s)
    ensures Coherent(MergeStatus(s, content))
    ensures MergeStatus(s, content).rx == s.rx && MergeStatus(s, content).received == s.received
  {
    AnnounceKeeps(GoOnline(s.(status := s.status + content)));
  }

  lemma {:induction false} PacketsKeep(ps: Parsers, s: State, packets: seq<Packet>)
    requires Coherent(s)
    ensures var t := HandlePackets(ps, s, packets);
            Coherent(t) && t == s.(status := t.status, health := t.health, events := t.events)
    decreases |packets|
  {
    if packets != [] {
      var init, p := packets[..|packets| - 1], packets[|packets| - 1];
      PacketsKeep(ps, s, init);
      if p.kind == KIND_STATUS {
        MergeKeeps(HandlePackets(ps, s, init), ps.status(p.payload));
      }
    }
  }

  lemma NotifyKeeps(ps: Parsers, s: State, data: bytes)
    requires Inv(s)
    ensures Inv(NotifyStep(ps, s, data))
  {
    var d := Run(DecodeStep, s.rx + data);
    StepIsStable();
    RunAppend(DecodeStep, s.received, data);
    PacketsKeep(ps, s.(rx := d.rest, received := s.received + data), d.packets);
  }

  lemma ConnectKeeps(s: State, ok: bool, lost: bool)
    requires Coherent(s)
    ensures Coherent(ConnectStep(s, ok, lost))
  {
    AnnounceKeeps(GoOnline(s.(link := if lost then Down else Up)));
    AnnounceKeeps(s.(link := Down, health := if s.task == Connecting then Degraded else Failed));
  }

  lemma WakeKeeps(s: State, heartbeat: string)
    requires Coherent(s)
    ensures Coherent(WakeStep(s, heartbeat))
  {
    var t := s.(status := s.status["heartbeat" := heartbeat]);
    AnnounceKeeps(t);
    AnnounceKeeps(GoOffline(t));
  }

  lemma CommandKeeps(s: State, c: Command)
    requires Coherent(s)
    ensures Coherent(CommandStep(s, c))
  {
    FailKeeps(s);
  }

  lemma CommandEndKeeps(s: State, ok: bool)
    requires Coherent(s)
    ensures Coherent(CommandEndStep(s, ok))
  {
    if s.pending != [] {
      FailKeeps(s.(pending := s.pending[1..]));
      PublishStatusKeeps(s.(pending := s.pending[1..]));
    }
  }

  lemma StoppedKeeps(s: State)
    requires Coherent(s)
    ensures Coherent(Stopped(s))
  {
    AnnounceKeeps(GoOffline(s.(link := Absent)));
  }

  /** Only notifications touch the receive path. */
  lemma ReceiveFrame(ps: Parsers, s: State, a: Action)
    requires !a.Notify?
    ensures Next(ps, s, a).rx == s.rx && Next(ps, s, a).received == s.received
  {
  }

  lemma LifecycleKept(ps: Parsers, s: State, a: Action)
    requires Lifecycle(s) && !a.Notify?
    ensures Lifecycle(Next(ps, s, a))
  {
  }

  lemma NextIsCoherent(ps: Parsers, s: State, a: Action)
    requires Coherent(s) && !a.Notify?
    ensures Coherent(Next(ps, s, a))
  {
    match a
    case ConnectEnds(ok, lost) => ConnectKeeps(s, ok, lost);
    case Wake(heartbeat) => WakeKeeps(s, heartbeat);
    case NotifyLegacy(data) => MergeKeeps(s, ps.legacy(data));
    case Issue(c) => CommandKeeps(s, c);
    case Unsupported(name) =>
      PublishStatusKeeps(s.(status := s.status["last_error" := "unsupported_command:" + name]));
    case CommandEnds(ok) => CommandEndKeeps(s, ok);
    case Stop => StoppedKeeps(s.(task := Idle));
    case DisconnectEnds(ok) => StoppedKeeps(s);
    case _ =>
  }

  lemma NextKeeps(ps: Parsers, s: State, a: Action)
    requires Inv(s)
    ensures Inv(Next(ps, s, a))
  {
    if a.Notify? {
      NotifyKeeps(ps, s, a.data);
    } else {
      NextIsCoherent(ps, s, a);
      LifecycleKept(ps, s, a);
      ReceiveFrame(ps, s, a);
    }
  }

  /**
   At every suspension point of every interleaving, an ok health means the status says online, every ok
   that went out followed a state saying online, the buffer is what decoding leaves of all bytes ever
   received, and task, phase and link agree.
   */
  lemma {:induction false} AlwaysInv(ps: Parsers, actions: seq<Action>)
    ensures Inv(Execute(ps, Initial(), actions))
    decreases |actions|
  {
    if actions != [] {
      AlwaysInv(ps, actions[..|actions| - 1]);
      NextKeeps(ps, Execute(ps, Initial(), actions[..|actions| - 1]), actions[|actions| - 1]);
    }
  }
}
