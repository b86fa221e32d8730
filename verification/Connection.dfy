/**
  The connection lifecycle: connecting, disconnecting, resetting, and what happens when a websocket
  goes away.  Every section under the socket lock is one step; the goroutines that reconnect are
  counted by where they are between such steps.
 */
module Connection {
  import opened Prelude

  /**
    A NoiseSocket over its FrameSocket.  `pending` is a close callback that has been started but has
    not run, with whether the close was remote.  The last three fields are history: Disconnected
    events and reconnects it caused, and whether the client dropped it before its callback ran.
   */
  datatype Socket = Socket(connected: bool, destroyed: bool, handler: bool, pending: Option<bool>,
                           events: nat, reconnects: nat, dropped: bool)

  datatype Config = Config(autoReconnect: bool, initialAutoReconnect: bool)

  /** The client's fields; `waiting` counts the autoReconnect loops it has started that are in their delay. */
  datatype State = State(
    sockets: seq<Socket>,        // all that ever existed
    current: Option<nat>,
    expected: bool,              // expectedDisconnect
    force: bool,                 // forceAutoReconnect
    waiters: nat,                // requests waiting for a response
    hasId: bool,
    deleted: bool,
    errors: nat,                 // AutoReconnectErrors
    waiting: nat)

  predicate Valid(s: State) {
    s.current.Some? ==> s.current.value < |s.sockets|
  }

  // ---------- sockets ----------

  /** FrameSocket.Close: starts the callback if there still is a handler. */
  function Close(x: Socket, remote: bool): Socket {
    if !x.connected then x
    else x.(connected := false, pending := if x.handler then Some(remote) else None)
  }

  /** NoiseSocket.Stop: only the first call does anything. */
  function Stop(x: Socket, disconnect: bool, allow: bool): Socket {
    if x.destroyed then x
    else
      var y := x.(destroyed := true, handler := x.handler && allow);
      if disconnect then Close(y, false) else y
  }

  // ---------- sections under the lock ----------

  function Dropped(s: State): State
    requires Valid(s)
  {
    if s.current.None? then s
    else
      var i := s.current.value;
      s.(sockets := s.sockets[i := Stop(s.sockets[i], true, false).(dropped := true)], current := None, waiters := 0)
  }

  function Expect(s: State): State {
    s.(force := false, expected := true)
  }

  function ResetExpected(s: State): State {
    s.(force := false, expected := false)
  }

  function Disconnected(s: State): State
    requires Valid(s)
  {
    Dropped(Expect(s))
  }

  /** Starting autoReconnect; it ends at once when it is off or there is no session. */
  function Spawn(c: Config, s: State): State {
    if c.autoReconnect && s.hasId then s.(waiting := s.waiting + 1, errors := s.errors + 1) else s
  }

  /** After a login the next reconnect starts without a delay again. */
  function LoggedIn(s: State): State {
    s.(errors := 0)
  }

  /** Dialing and the handshake: a failure, or a socket, which may have died before its handler was set. */
  datatype Dial = Fails(retryable: bool) | Opens(dead: bool)

  datatype ConnectError = Deleted | AlreadyConnected | DialFailed(retryable: bool)

  datatype Connected = Connected(state: State, error: Option<ConnectError>)

  function Attempted(s: State, dial: Dial): Connected
    requires Valid(s)
  {
    if s.deleted then Connected(s, Some(Deleted))
    else if s.current.Some? && s.sockets[s.current.value].connected then Connected(s, Some(AlreadyConnected))
    else
      var t := ResetExpected(Dropped(s));
      match dial
      case Fails(retryable) => Connected(t, Some(DialFailed(retryable)))
      case Opens(dead) =>
        Connected(t.(sockets := t.sockets + [Socket(!dead, false, true, None, 0, 0, false)],
                     current := Some(|t.sockets|)), None)
  }

  function Forced(s: State): State
    requires Valid(s)
  {
    var t := s.(force := true);
    if t.current.None? then t
    else
      var i := t.current.value;
      t.(sockets := t.sockets[i := Stop(t.sockets[i], true, true)], waiters := 0)
  }

  /** The callback of socket i. */
  function Notified(c: Config, s: State, i: nat): State
    requires Valid(s) && i < |s.sockets| && s.sockets[i].pending.Some?
  {
    var remote := s.sockets[i].pending.value;
    var x := Stop(s.sockets[i], false, false).(pending := None);
    if s.current != Some(i) then s.(sockets := s.sockets[i := x])
    else
      var t := s.(current := None, waiters := 0);
      if s.expected then t.(sockets := s.sockets[i := x])
      else if s.force || remote then
        Spawn(c, t.(force := false,
                    sockets := s.sockets[i := x.(events := x.events + 1, reconnects := x.reconnects + 1)]))
      else t.(force := false, sockets := s.sockets[i := x])
  }

  // ---------- the client's methods ----------

  class Client {
    const config: Config
    var sockets: seq<Socket>
    var socket: Option<nat>
    var expectedDisconnect: bool
    var forceAutoReconnect: bool
    var responseWaiters: nat
    var hasId: bool
    var deleted: bool
    var autoReconnectErrors: nat
    var loops: nat

    constructor (config: Config, hasId: bool)
      ensures this.config == config
      ensures Fields() == State([], None, false, false, 0, hasId, false, 0, 0)
    {
      this.config := config;
      this.hasId := hasId;
      sockets, socket, responseWaiters := [], None, 0;
      expectedDisconnect, forceAutoReconnect, deleted := false, false, false;
      autoReconnectErrors, loops := 0, 0;
    }

    ghost function Fields(): State
      reads this
    {
      State(sockets, socket, expectedDisconnect, forceAutoReconnect, responseWaiters, hasId, deleted,
            autoReconnectErrors, loops)
    }

    method StopSocket(i: nat, disconnect: bool, allow: bool)
      requires i < |sockets|
      modifies this`sockets
      ensures sockets == old(sockets)[i := Stop(old(sockets[i]), disconnect, allow)]
    {
      if sockets[i].destroyed {
        return;
      }
      sockets := sockets[i := sockets[i].(destroyed := true)];
      if !allow {
        sockets := sockets[i := sockets[i].(handler := false)];
      }
      if disconnect {
        sockets := sockets[i := Close(sockets[i], false)];
      }
    }

    method UnlockedDisconnect()
      requires Valid(Fields())
      modifies this
      ensures Fields() == Dropped(old(Fields()))
    {
      if socket.Some? {
        var i := socket.value;
        StopSocket(i, true, false);
        sockets := sockets[i := sockets[i].(dropped := true)];
        socket := None;
        responseWaiters := 0;
      }
    }

    method Disconnect()
      requires Valid(Fields())
      modifies this
      ensures Fields() == Disconnected(old(Fields()))
    {
      forceAutoReconnect := false;
      expectedDisconnect := true;
      UnlockedDisconnect();
    }

    method UnlockedConnect(dial: Dial) returns (error: Option<ConnectError>)
      requires Valid(Fields())
      modifies this
      ensures Connected(Fields(), error) == Attempted(old(Fields()), dial)
    {
      if deleted {
        return Some(Deleted);
      }
      if socket.Some? {
        if sockets[socket.value].connected {
          return Some(AlreadyConnected);
        }
        UnlockedDisconnect();
      }
      forceAutoReconnect := false;
      expectedDisconnect := false;
      if dial.Fails? {
        return Some(DialFailed(dial.retryable));
      }
      socket := Some(|sockets|);
      sockets := sockets + [Socket(!dial.dead, false, true, None, 0, 0, false)];
      return None;
    }

    method ResetConnection()
      requires Valid(Fields())
      modifies this
      ensures Fields() == Forced(old(Fields()))
    {
      forceAutoReconnect := true;
      if socket.Some? {
        StopSocket(socket.value, true, true);
        responseWaiters := 0;
      }
    }

    method StartAutoReconnect()
      modifies this
      ensures Fields() == Spawn(config, old(Fields()))
    {
      if config.autoReconnect && hasId {
        loops := loops + 1;
        autoReconnectErrors := autoReconnectErrors + 1;
      }
    }

    method OnDisconnect(i: nat)
      requires Valid(Fields()) && i < |sockets| && sockets[i].pending.Some?
      modifies this
      ensures Fields() == Notified(config, old(Fields()), i)
    {
      var remote := sockets[i].pending.value;
      StopSocket(i, false, false);
      var x := sockets[i].(pending := None);
      if socket == Some(i) {
        socket := None;
        responseWaiters := 0;
        if !expectedDisconnect {
          var forced := forceAutoReconnect;
          forceAutoReconnect := false;
          if forced || remote {
            x := x.(events := x.events + 1, reconnects := x.reconnects + 1);
            StartAutoReconnect();
          }
        }
      }
      sockets := sockets[i := x];
    }

    /** Authenticated. */
    method HandleConnectSuccess()
      modifies this
      ensures Fields() == LoggedIn(old(Fields()))
    {
      autoReconnectErrors := 0;
    }
  }
}
