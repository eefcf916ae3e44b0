/**
 The lifecycle of a BLE connection: connect with retries and exponential backoff, subscription to
 notifications, cleanup on every failure path.  Clients, and the radio behind them, may fail at any
 operation and may lose their peer at any time.
 */
module BleConnection {
  import opened Bytes
  import opened Wrappers
  import Backoff
  import opened RadioScript

  datatype Handler = Handler(id: nat)

  datatype Config = Config(
    address: string, notifyUuid: string, writeUuid: string,
    attempts: int, backoff: real, maxBackoff: real, writeWithResponse: bool)

  datatype ConfigError =
    | EmptyAddress | EmptyNotifyUuid | EmptyWriteUuid
    | TooFewAttempts | NegativeBackoff | MaxBelowBackoff

  /** The first complaint of the configuration's validation, if any. */
  function Check(c: Config): Option<ConfigError> {
    if c.address == "" then Some(EmptyAddress)
    else if c.notifyUuid == "" then Some(EmptyNotifyUuid)
    else if c.writeUuid == "" then Some(EmptyWriteUuid)
    else if c.attempts < 1 then Some(TooFewAttempts)
    else if c.backoff < 0.0 then Some(NegativeBackoff)
    else if c.maxBackoff < c.backoff then Some(MaxBelowBackoff)
    else None
  }

  /** Which configurations are accepted. */
  lemma CheckExactly(c: Config)
    ensures Check(c).None? <==>
              && c.address != "" && c.notifyUuid != "" && c.writeUuid != ""
              && c.attempts >= 1 && 0.0 <= c.backoff <= c.maxBackoff
    ensures Check(c) == Some(EmptyAddress) <==> c.address == ""
    ensures Check(c) == Some(EmptyNotifyUuid) <==> c.address != "" && c.notifyUuid == ""
    ensures Check(c) == Some(EmptyWriteUuid) <==> c.address != "" && c.notifyUuid != "" && c.writeUuid == ""
    ensures Check(c) == Some(TooFewAttempts) ==> c.attempts <= 0
    ensures Check(c) == Some(NegativeBackoff) ==> c.attempts >= 1 && c.backoff < 0.0
    ensures Check(c) == Some(MaxBelowBackoff) ==> c.attempts >= 1 && 0.0 <= c.backoff && c.maxBackoff < c.backoff
  {
  }

  type ValidConfig = c: Config | Check(c).None? witness Config("a", "n", "w", 1, 0.0, 0.0, false)

  /** The radio decides every operation.  Its script is arbitrary, so it can do anything to a run of calls. */
  class Radio {
    var script: Script
    var position: nat

    constructor (script: Script)
      ensures this.script == script && position == 0
    {
      this.script, position := script, 0;
    }

    /** The k-th outcome to come. */
    function Due(k: nat): Outcome
      reads this
    {
      Upcoming(script, position + k)
    }

    method Next() returns (o: Outcome)
      modifies this`position
      ensures o == old(Due(0)) && position == old(position) + 1
    {
      o := Due(0);
      position := position + 1;
    }
  }

  /** What has been asked of a client. */
  datatype Call =
    | ConnectCall
    | StartNotify(uuid: string)
    | WriteGattChar(uuid: string, data: bytes, response: bool)
    | StopNotify(uuid: string)
    | DisconnectCall

  /** A BLE client as the connection sees it.  Every operation may raise; the peer may vanish at any await. */
  class Client {
    const radio: Radio
    const address: string
    var linked: bool   // connect() got a link up
    var closed: bool   // disconnect() took it down
    var dropped: bool  // the peer vanished

    ghost var calls: seq<Call>

    constructor (radio: Radio, address: string)
      ensures this.radio == radio && this.address == address
      ensures !linked && !closed && !dropped && calls == []
    {
      this.radio, this.address := radio, address;
      linked, closed, dropped := false, false, false;
      calls := [];
    }

    predicate IsConnected()
      reads this
    {
      linked && !closed && !dropped
    }

    /** The peer vanishes, never to return on this client. */
    method Vanish()
      modifies this`dropped
      ensures dropped
    {
      dropped := true;
    }

    method Await() returns (o: Outcome)
      modifies this`dropped, radio`position
      ensures o == old(radio.Due(0)) && radio.position == old(radio.position) + 1
      ensures dropped == (old(dropped) || Loses(o))
    {
      o := radio.Next();
      dropped := dropped || Loses(o);
    }

    /** Even a connect that raises may have brought the link up. */
    method Connect() returns (ok: bool)
      modifies this`linked, this`dropped, this`calls, radio`position
      ensures calls == old(calls) + [ConnectCall]
      ensures var o := old(radio.Due(0));
              ok == Succeeds(o) && linked == (old(linked) || Done(o)) && dropped == (old(dropped) || Loses(o))
      ensures radio.position == old(radio.position) + 1
    {
      calls := calls + [ConnectCall];
      var o := Await();
      linked := linked || Done(o);
      ok := Succeeds(o);
    }

    /** Even a disconnect that raises may have taken the link down. */
    method Disconnect() returns (ok: bool)
      modifies this`closed, this`dropped, this`calls, radio`position
      ensures calls == old(calls) + [DisconnectCall]
      ensures var o := old(radio.Due(0));
              ok == Succeeds(o) && closed == (old(closed) || Done(o)) && dropped == (old(dropped) || Loses(o))
      ensures radio.position == old(radio.position) + 1
    {
      calls := calls + [DisconnectCall];
      var o := Await();
      closed := closed || Done(o);
      ok := Succeeds(o);
    }

    method StartNotify(uuid: string) returns (ok: bool)
      modifies this`dropped, this`calls, radio`position
      ensures calls == old(calls) + [Call.StartNotify(uuid)]
      ensures var o := old(radio.Due(0));
              ok == Succeeds(o) && dropped == (old(dropped) || Loses(o))
      ensures radio.position == old(radio.position) + 1
    {
      calls := calls + [Call.StartNotify(uuid)];
      var o := Await();
      ok := Succeeds(o);
    }

    method StopNotify(uuid: string) returns (ok: bool)
      modifies this`dropped, this`calls, radio`position
      ensures calls == old(calls) + [Call.StopNotify(uuid)]
      ensures var o := old(radio.Due(0));
              ok == Succeeds(o) && dropped == (old(dropped) || Loses(o))
      ensures radio.position == old(radio.position) + 1
    {
      calls := calls + [Call.StopNotify(uuid)];
      var o := Await();
      ok := Succeeds(o);
    }

    method WriteGattChar(uuid: string, data: bytes, response: bool) returns (ok: bool)
      modifies this`dropped, this`calls, radio`position
      ensures calls == old(calls) + [Call.WriteGattChar(uuid, data, response)]
      ensures var o := old(radio.Due(0));
              ok == Succeeds(o) && dropped == (old(dropped) || Loses(o))
      ensures radio.position == old(radio.position) + 1
    {
      calls := calls + [Call.WriteGattChar(uuid, data, response)];
      var o := Await();
      ok := Succeeds(o);
    }
  }

  datatype WriteEnding = Written | NotConnected | WriteRaised

  class BleConnection {
    const config: ValidConfig
    const radio: Radio
    var client: Client?
    var handler: Option<Handler>
    var notificationsStarted: bool

    ghost var created: set<Client>  // every client the factory ever made
    ghost var leaked: set<Client>   // those abandoned by a disconnect that raised and left the link up
    ghost var sleeps: seq<real>     // every wait so far

    /** At most the current client is connected, and subscribing needs a client. */
    ghost predicate Valid()
      reads this`client, this`notificationsStarted, this`created, this`leaked, created
    {
      && (client != null ==> client in created && client.radio == radio && client.address == config.address)
      && (notificationsStarted ==> client != null)
      && (forall c :: c in created && c.IsConnected() ==> c == client || c in leaked)
    }

    constructor (config: ValidConfig, radio: Radio)
      ensures Valid() && this.config == config && this.radio == radio
      ensures client == null && handler.None? && !notificationsStarted
      ensures created == {} && leaked == {} && sleeps == []
    {
      this.config, this.radio := config, radio;
      client, handler, notificationsStarted := null, None, false;
      created, leaked, sleeps := {}, {}, [];
    }

    predicate IsConnected()
      reads this`client, client
    {
      client != null && client.IsConnected()
    }

    method SafeDisconnect() returns (ok: bool)
      requires Valid()
      modifies this`client, this`notificationsStarted, this`leaked, client, radio`position
      ensures Valid()
      ensures client == null && !notificationsStarted
      ensures old(client) == null ==> ok && radio.position == old(radio.position)
      ensures old(client) != null ==>
                var o := old(radio.Due(0));
                && ok == Succeeds(o) && radio.position == old(radio.position) + 1
                && (old(client).IsConnected() <==> old(client != null && client.IsConnected()) && !Done(o) && !Loses(o))
      ensures leaked == old(leaked) || (!ok && leaked == old(leaked) + {old(client)})
      ensures old(client) != null ==>
                old(client).calls == old(if client == null then [] else client.calls) + [DisconnectCall]
    {
      if client == null {
        notificationsStarted := false;
        return true;
      }
      ok := client.Disconnect();
      if client.IsConnected() {
        leaked := leaked + {client};
      }
      client := null;
      notificationsStarted := false;
    }

    /** Whether a subscription is still to be issued. */
    predicate Unsubscribed()
      reads this
    {
      client != null && handler.Some? && !notificationsStarted
    }

    method EnsureNotificationsStarted() returns (ok: bool)
      requires Valid()
      modifies this`notificationsStarted, client, radio`position
      ensures Valid()
      ensures client != null ==>
                client.linked == old(client.linked) && client.closed == old(client.closed)
                && (old(client.dropped) ==> client.dropped)
      ensures !old(Unsubscribed()) ==>
                && ok && notificationsStarted == old(notificationsStarted) && radio.position == old(radio.position)
                && (client != null ==> client.calls == old(client.calls) && client.dropped == old(client.dropped))
      ensures old(Unsubscribed()) ==>
                var o := old(radio.Due(0));
                && ok == notificationsStarted == Succeeds(o) && radio.position == old(radio.position) + 1
                && client.calls == old(client.calls) + [StartNotify(config.notifyUuid)]
                && client.dropped == (old(client.dropped) || Loses(o))
    {
      if client == null || handler.None? || notificationsStarted {
        return true;
      }
      ok := client.StartNotify(config.notifyUuid);
      if ok {
        notificationsStarted := true;
      }
    }

    /** A client that was connected and, if expected, subscribed once, and asked for nothing else. */
    ghost predicate Established(subscribed: bool)
      reads this`client, this`notificationsStarted, client
    {
      && client != null && client.linked && !client.closed
      && client.calls == [ConnectCall] + (if subscribed then [StartNotify(config.notifyUuid)] else [])
      && (subscribed ==> notificationsStarted)
    }

    /** One attempt: a new client, its connection, its subscription.  The factory may raise as well. */
    method TryOnce() returns (ok: bool)
      requires Valid() && !IsConnected()
      modifies this`client, this`notificationsStarted, this`created, radio`position
      ensures Valid() && fresh(created - old(created)) && old(created) <= created
      ensures client == old(client) || (client != null && fresh(client))
      ensures ok ==> client != null && fresh(client)
      ensures ok ==> Established(handler.Some? && !old(notificationsStarted))
      ensures var subscribe := handler.Some? && !old(notificationsStarted);
        if !Succeeds(old(radio.Due(0))) then
          !ok && client == old(client) && created == old(created) && radio.position == old(radio.position) + 1
        else
          && client != null && fresh(client)
          && (if !Succeeds(old(radio.Due(1))) then !ok && radio.position == old(radio.position) + 2
              else if !subscribe then ok && radio.position == old(radio.position) + 2
              else ok == Succeeds(old(radio.Due(2))) && radio.position == old(radio.position) + 3)
      ensures ok ==>
                IsConnected() == StaysUp(radio.script, old(radio.position), handler.Some? && !old(notificationsStarted))
    {
      var made := radio.Next();
      if !Succeeds(made) {
        return false;
      }
      client := new Client(radio, config.address);
      created := created + {client};
      ok := client.Connect();
      if ok {
        ok := EnsureNotificationsStarted();
      }
    }

    /** One attempt and, if it failed, its cleanup. */
    method Attempt() returns (ok: bool, cleaned: bool)
      requires Valid() && !IsConnected()
      modifies this`client, this`notificationsStarted, this`created, this`leaked, client, radio`position
      ensures Valid() && fresh(created - old(created)) && old(created) <= created
      ensures ok ==> client != null && fresh(client) && Established(handler.Some? && !old(notificationsStarted))
      ensures !ok ==> client == null && !notificationsStarted
      ensures ok || cleaned ==> leaked == old(leaked)
      ensures var t := TryOf(radio.script, old(radio.position), handler.Some? && !old(notificationsStarted),
                             old(client) != null);
              ok == t.Connected? && (ok || cleaned) == !t.Stuck? && radio.position == old(radio.position) + t.used
      ensures ok ==>
                IsConnected() == StaysUp(radio.script, old(radio.position), handler.Some? && !old(notificationsStarted))
    {
      cleaned := true;
      ok := TryOnce();
      if !ok {
        cleaned := SafeDisconnect();
      }
    }

    /** What a series of attempts would start from. */
    ghost function Prospects(): Series
      reads this`client, this`notificationsStarted, this`handler, radio
    {
      Series(radio.script, radio.position, handler.Some? && !notificationsStarted, handler.Some?, client != null)
    }

    /** The first n attempts of a series have failed and were cleaned up after. */
    ghost predicate Between(series: Series, n: nat)
      reads this`client, this`notificationsStarted, this`handler, this`created, this`leaked, radio, created, client
    {
      && Valid() && !IsConnected() && AllCleaned(series, n)
      && radio.script == series.script && radio.position == PlaceOf(series, n)
      && if n == 0 then series == Prospects()
         else client == null && !notificationsStarted && series.wanted == handler.Some?
    }

    /** A series has ended this way, after so many attempts, and left the client and the flag accordingly. */
    ghost predicate Ended(series: Series, r: Ending, attempts: nat)
      reads this`client, this`notificationsStarted, client
    {
      && Ends(series, config.attempts, r, attempts)
      && (r.Returned? ==>
            Established(SubscribesAt(series, attempts - 1)) && IsConnected() == UpAt(series, attempts - 1))
      && (!r.Returned? ==> client == null && !notificationsStarted)
    }

    /** The j-th attempt of a series; it decides the series unless it fails cleanly. */
    method Round(ghost series: Series, ghost j: nat) returns (ok: bool, cleaned: bool)
      requires Between(series, j) && j < config.attempts
      modifies this`client, this`notificationsStarted, this`created, this`leaked, client, radio`position
      ensures Valid() && fresh(created - old(created)) && old(created) <= created
      ensures ok ==> Ended(series, Returned, j + 1) && fresh(client)
      ensures !ok && !cleaned ==> Ended(series, CleanupRaised, j + 1)
      ensures !ok && cleaned ==> Between(series, j + 1)
      ensures !ok && cleaned && j + 1 == config.attempts ==> Ended(series, Exhausted, j + 1)
      ensures !ok ==> client == null
      ensures ok || cleaned ==> leaked == old(leaked)
    {
      ok, cleaned := Attempt();
    }

    /** Before this attempt, or behind the last, what has been slept and what would be slept next. */
    ghost predicate Paced(attempt: int, backoff: real, base: seq<real>)
      reads this
    {
      && 1 <= attempt <= config.attempts + 1
      && sleeps == base + Backoff.Waits(config.backoff, config.maxBackoff, Backoff.Slept(attempt, config.attempts))
      && (attempt <= config.attempts ==> backoff == Backoff.Wait(config.backoff, config.maxBackoff, attempt - 1))
    }

    /** The wait after a failed attempt, unless it was the last. */
    method Pause(attempt: int, backoff: real, ghost base: seq<real>) returns (next: real)
      requires 1 <= attempt <= config.attempts && Paced(attempt, backoff, base)
      modifies this`sleeps
      ensures Paced(attempt + 1, next, base)
    {
      Backoff.WaitSign(config.backoff, config.maxBackoff, attempt - 1);
      next := backoff;
      if attempt < config.attempts && backoff > 0.0 {
        sleeps := sleeps + [backoff];
        next := Backoff.Min(backoff * 2.0, config.maxBackoff);
      }
    }

    /**
     Retries until a client is up and subscribed.  The subscription is issued on the new client unless
     the flag was still set from a client that had vanished and the very first attempt succeeded.  The
     script of the radio decides how it ends, and after how many attempts.
     */
    method ConnectLoop(ghost series: Series) returns (r: Ending, ghost attempts: nat)
      requires Valid() && !IsConnected() && series == Prospects()
      modifies this`client, this`notificationsStarted, this`created, this`leaked, this`sleeps, client, radio`position
      ensures Valid() && fresh(created - old(created)) && old(created) <= created
      ensures Ended(series, r, attempts)
      ensures client != null ==> fresh(client)
      ensures sleeps == old(sleeps) + Backoff.Waits(config.backoff, config.maxBackoff, attempts - 1)
      ensures !r.CleanupRaised? ==> leaked == old(leaked)
    {
      var backoff := config.backoff;
      attempts := 0;
      for attempt := 1 to config.attempts + 1
        invariant attempts == attempt - 1 && Between(series, attempts)
        invariant attempt > config.attempts ==> Ended(series, Exhausted, attempts)
        invariant old(created) <= created && fresh(created - old(created))
        invariant client == if attempt == 1 then old(client) else null
        invariant Paced(attempt, backoff, old(sleeps))
        invariant leaked == old(leaked)
      {
        var ok, cleaned := Round(series, attempts);
        attempts := attempt;
        if ok {
          return Returned, attempts;
        }
        if !cleaned {
          return CleanupRaised, attempts;
        }
        backoff := Pause(attempt, backoff, old(sleeps));
      }
      r := Exhausted;
    }

    /** connect(): an optional handler is remembered even if connecting fails. */
    method Connect(notificationHandler: Option<Handler>) returns (r: Ending, ghost attempts: nat)
      requires Valid()
      modifies this, client, radio`position
      ensures Valid() && fresh(created - old(created)) && old(created) <= created
      ensures handler == if notificationHandler.Some? then notificationHandler else old(handler)
      // already connected: only the subscription may still be missing
      ensures old(IsConnected()) ==>
                && attempts == 0 && client == old(client) && created == old(created)
                && leaked == old(leaked) && sleeps == old(sleeps)
                && var due := handler.Some? && !old(notificationsStarted);
                && r == (if due && !Succeeds(old(radio.Due(0))) then SubscribeRaised else Returned)
                && notificationsStarted == (old(notificationsStarted) || (due && r == Returned))
                && client.calls == old(client.calls) + (if due then [StartNotify(config.notifyUuid)] else [])
      // otherwise: the retry loop
      ensures !old(IsConnected()) ==>
                && !r.SubscribeRaised? && 1 <= attempts <= config.attempts
                && (r.Returned? ==> client != null && fresh(client))
                && (r.Returned? ==> Established(handler.Some? && (!old(notificationsStarted) || attempts > 1)))
                && (!r.Returned? ==> client == null && !notificationsStarted)
                && (!r.CleanupRaised? ==> leaked == old(leaked))
                && sleeps == old(sleeps) + Backoff.Waits(config.backoff, config.maxBackoff, attempts - 1)
                && var series := Series(radio.script, old(radio.position), handler.Some? && !old(notificationsStarted),
                                        handler.Some?, old(client) != null);
                && Ends(series, config.attempts, r, attempts)
                && (r.Returned? ==> IsConnected() == UpAt(series, attempts - 1))
    {
      if notificationHandler.Some? {
        handler := notificationHandler;
      }
      if IsConnected() {
        var ok := EnsureNotificationsStarted();
        return if ok then Returned else SubscribeRaised, 0;
      }
      r, attempts := ConnectLoop(Prospects());
    }

    /** disconnect(): a failing stop_notify is ignored, a failing client disconnect is not. */
    method Disconnect() returns (ok: bool)
      requires Valid()
      modifies this`client, this`notificationsStarted, this`leaked, client, radio`position
      ensures Valid()
      ensures client == null && !notificationsStarted
      ensures old(client) == null ==> ok && radio.position == old(radio.position)
      ensures old(client) != null ==>
                var k := if old(notificationsStarted) then 1 else 0;
                var o := old(radio.Due(if notificationsStarted then 1 else 0));
                && ok == Succeeds(o) && radio.position == old(radio.position) + k + 1
                && (old(client).IsConnected() <==>
                      && old(client != null && client.IsConnected()) && !Done(o) && !Loses(o)
                      && (k == 1 ==> !Loses(old(radio.Due(0)))))
                && old(client).calls == old(if client == null then [] else client.calls)
                     + (if k == 1 then [StopNotify(config.notifyUuid)] else []) + [DisconnectCall]
      ensures leaked == old(leaked) || (!ok && leaked == old(leaked) + {old(client)})
    {
      if client == null {
        notificationsStarted := false;
        return true;
      }
      if notificationsStarted {
        var ignored := client.StopNotify(config.notifyUuid);
      }
      ok := SafeDisconnect();
    }

    /** reconnect(): whenever it returns, it ends on a client of its own, connected and subscribed once. */
    method Reconnect() returns (r: Ending, ghost attempts: nat)
      requires Valid()
      modifies this, client, radio`position
      ensures Valid() && fresh(created - old(created)) && old(created) <= created
      ensures handler == old(handler)
      ensures r.Returned? ==> client != null && fresh(client) && Established(handler.Some?)
      ensures !r.Returned? ==> client == null && !notificationsStarted && !r.SubscribeRaised?
      ensures r.Returned? || r.Exhausted? ==> 1 <= attempts <= config.attempts && leaked == old(leaked)
      // the script decides whether the disconnect raises, and if not how the attempts end
      ensures var used := if old(client) == null then 0 else if old(notificationsStarted) then 2 else 1;
        if used > 0 && !Succeeds(Upcoming(radio.script, old(radio.position) + used - 1)) then r == CleanupRaised && attempts == 0
        else
          var series := Series(radio.script, old(radio.position) + used, handler.Some?, handler.Some?, false);
          && Ends(series, config.attempts, r, attempts)
          && (r.Returned? ==> IsConnected() == UpAt(series, attempts - 1))
      ensures attempts <= config.attempts
      ensures sleeps == old(sleeps)
                + Backoff.Waits(config.backoff, config.maxBackoff, if attempts == 0 then 0 else attempts - 1)
    {
      var ok := Disconnect();
      if !ok {
        return CleanupRaised, 0;
      }
      r, attempts := Connect(handler);
    }

    /** write(): a link that is down raises at once, without asking the client. */
    method Write(data: bytes, response: Option<bool>) returns (r: WriteEnding)
      requires Valid()
      modifies client, radio`position
      ensures Valid()
      ensures client != null ==> client.linked == old(client.linked) && client.closed == old(client.closed)
      ensures r == if !old(IsConnected()) then NotConnected
                   else if Succeeds(old(radio.Due(0))) then Written else WriteRaised
      ensures radio.position == old(radio.position) + if old(IsConnected()) then 1 else 0
      ensures client != null ==>
                client.calls == old(client.calls)
                  + if old(IsConnected())
                    then [WriteGattChar(config.writeUuid, data, response.GetOr(config.writeWithResponse))]
                    else []
    {
      if client == null || !client.IsConnected() {
        return NotConnected;
      }
      var ok := client.WriteGattChar(config.writeUuid, data, response.GetOr(config.writeWithResponse));
      r := if ok then Written else WriteRaised;
    }
  }

  // ----- whole histories -----

  /** What the adapters and the peer can do to a connection between two lifecycle calls. */
  datatype Op = DoConnect | DoReconnect | DoDisconnect | DoWrite(data: bytes) | PeerVanishes

  ghost predicate OneConnectedAtMost(clients: set<Client>)
    reads clients
  {
    forall c, d :: c in clients && d in clients && c.IsConnected() && d.IsConnected() ==> c == d
  }

  /**
   Any history of calls and lost peers that does not replace the handler.  It is clean if no disconnect
   raised, on its own or cleaning up.  After every clean history of a connection that began clean, and
   so at every point between two calls, at most one of all clients ever made is connected.
   */
  method RunHistory(conn: BleConnection, ops: seq<Op>) returns (clean: bool)
    requires conn.Valid()
    modifies conn, conn.client, conn.radio`position
    ensures conn.Valid() && conn.handler == old(conn.handler)
    ensures conn.client == old(conn.client) || conn.client == null || fresh(conn.client)
    ensures clean ==> conn.leaked == old(conn.leaked)
    ensures clean && old(conn.leaked) == {} ==> OneConnectedAtMost(conn.created)
  {
    clean := true;
    for i := 0 to |ops|
      invariant conn.Valid() && conn.handler == old(conn.handler)
      invariant conn.client == old(conn.client) || conn.client == null || fresh(conn.client)
      invariant clean ==> conn.leaked == old(conn.leaked)
    {
      var ok := RunOp(conn, ops[i]);
      clean := clean && ok;
    }
  }

  /** False if a disconnect raised. */
  method RunOp(conn: BleConnection, op: Op) returns (clean: bool)
    requires conn.Valid()
    modifies conn, conn.client, conn.radio`position
    ensures conn.Valid() && conn.handler == old(conn.handler)
    ensures conn.client == old(conn.client) || conn.client == null || fresh(conn.client)
    ensures clean ==> conn.leaked == old(conn.leaked)
  {
    clean := true;
    var r: Ending;
    ghost var attempts: nat;
    match op
    case DoConnect =>
      r, attempts := conn.Connect(None);
      clean := !r.CleanupRaised?;
    case DoReconnect =>
      r, attempts := conn.Reconnect();
      clean := !r.CleanupRaised?;
    case DoDisconnect => clean := conn.Disconnect();
    case DoWrite(data) => var w := conn.Write(data, None);
    case PeerVanishes => if conn.client != null { conn.client.Vanish(); }
  }

  /**
   After connect(h), whether or not it succeeded, and any such history, a reconnect that returns ends on a
   client created in that very call, linked, with exactly one subscription issued on it and h as its handler.
   */
  method ReconnectAfterAnyHistory(conn: BleConnection, h: Handler, ops: seq<Op>) returns (r: Ending, clean: bool)
    requires conn.Valid()
    modifies conn, conn.client, conn.radio`position
    ensures conn.Valid() && conn.handler == Some(h)
    ensures r.Returned? ==> conn.client != null && fresh(conn.client) && conn.Established(true)
    ensures !r.Returned? ==> conn.client == null && !conn.notificationsStarted
    ensures clean && old(conn.leaked) == {} ==> OneConnectedAtMost(conn.created)
  {
    ghost var attempts: nat;
    r, attempts := conn.Connect(Some(h));
    clean := !r.CleanupRaised?;
    var ok := RunHistory(conn, ops);
    clean := clean && ok;
    r, attempts := conn.Reconnect();
    clean := clean && !r.CleanupRaised?;
  }

  // ----- where the guarantees end -----

  /** Where nothing goes wrong, connect connects. */
  method ConnectSmoothly(conn: BleConnection, h: Option<Handler>)
    requires conn.Valid() && !conn.IsConnected() && |conn.radio.script| <= conn.radio.position
    modifies conn, conn.client, conn.radio`position
    ensures conn.Valid() && conn.IsConnected() && fresh(conn.client) && old(conn.created) <= conn.created
    ensures conn.handler == if h.Some? then h else old(conn.handler)
    ensures conn.Established(conn.handler.Some? && !old(conn.notificationsStarted))
  {
    ghost var place, flag, stale := conn.radio.position, conn.notificationsStarted, conn.client != null;
    var r: Ending;
    ghost var attempts: nat;
    r, attempts := conn.Connect(h);
    EndsAtOnce(Series(conn.radio.script, place, conn.handler.Some? && !flag, conn.handler.Some?, stale),
               conn.config.attempts, r, attempts);
  }

  method SmoothConnection(config: ValidConfig, h: Handler) returns (conn: BleConnection)
    ensures fresh(conn) && fresh(conn.radio) && conn.Valid() && conn.IsConnected() && fresh(conn.client)
    ensures conn.handler == Some(h) && conn.notificationsStarted
  {
    var radio := new Radio([]);
    conn := new BleConnection(config, radio);
    ConnectSmoothly(conn, Some(h));
  }

  /** A disconnect that raises and leaves the link up, then a connect: two clients are connected. */
  method TwoConnectedClients(config: ValidConfig, h: Handler) returns (conn: BleConnection, first: Client)
    ensures fresh(conn) && conn.Valid() && first in conn.created
    ensures first.IsConnected() && conn.IsConnected() && conn.client != first
    ensures !OneConnectedAtMost(conn.created)
  {
    conn := SmoothConnection(config, h);
    first := conn.client;
    conn.radio.script, conn.radio.position := [Fine, Raises], 0;   // stop_notify works, disconnect does not
    var ok := conn.Disconnect();
    ConnectSmoothly(conn, None);
  }

  /** The peer vanishes and connect is called directly: it returns, with a handler but no subscription. */
  method UnsubscribedClient(config: ValidConfig, h: Handler) returns (conn: BleConnection)
    ensures fresh(conn) && conn.Valid() && conn.IsConnected()
    ensures conn.handler == Some(h) && conn.client.calls == [ConnectCall]
  {
    conn := SmoothConnection(config, h);
    conn.client.Vanish();
    conn.radio.script, conn.radio.position := [], 0;
    ConnectSmoothly(conn, None);
  }
}
