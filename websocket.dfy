/**
 * The dashboard's socket wrapper (source/ClientApp/static/js/core/websocket.js):
 * a registry of callbacks per event type, the socket handlers that emit
 * events to them, and a guarded send.  Callbacks are identified by a
 * number and calling one is recorded as a Call, in order; the browser's
 * JSON.parse is an input (the parsed message, or None when the text is not
 * JSON), and so is the socket's ready state as the browser reports it.
 */
module SocketClient {
  import opened Wrappers

  /** A registered callback, by identity. */
  type Callback = nat

  /** A parsed server message: its text and its `type` field, if any. */
  datatype Json = Json(text: string, kind: Option<string>)

  /** What a callback receives. */
  datatype Payload =
    | NoData                        // 'connected', 'disconnected'
    | Data(json: Json)              // 'message' and the message's own type
    | ParseError(message: string)   // { message: 'Parse error: ' + text }
    | SocketError                   // the socket's error event

  datatype Call = Call(callback: Callback, data: Payload)

  datatype ReadyState = Connecting | Open | Closing | Closed

  /** listeners.get(type) || []. */
  function Registered(listeners: map<string, seq<Callback>>, eventType: string): seq<Callback> {
    if eventType in listeners then listeners[eventType] else []
  }

  /** The registry after on(type, callback). */
  function Registering(listeners: map<string, seq<Callback>>, eventType: string, callback: Callback): map<string, seq<Callback>> {
    listeners[eventType := Registered(listeners, eventType) + [callback]]
  }

  /** on() for each callback in turn. */
  function RegisterAll(listeners: map<string, seq<Callback>>, eventType: string, callbacks: seq<Callback>): map<string, seq<Callback>>
    decreases |callbacks|
  {
    if callbacks == [] then listeners
    else Registering(RegisterAll(listeners, eventType, callbacks[..|callbacks| - 1]), eventType, callbacks[|callbacks| - 1])
  }

  /** Each callback called once with the data, in list order. */
  function Calls(callbacks: seq<Callback>, data: Payload): (r: seq<Call>)
    ensures |r| == |callbacks| && forall i :: 0 <= i < |r| ==> r[i] == Call(callbacks[i], data)
  {
    seq(|callbacks|, i requires 0 <= i < |callbacks| => Call(callbacks[i], data))
  }

  /** A `type` field that JavaScript treats as true: present and not empty. */
  predicate Truthy(kind: Option<string>) {
    kind.Some? && kind.value != ""
  }

  /** The calls onmessage makes for one incoming text. */
  function Dispatch(listeners: map<string, seq<Callback>>, text: string, parsed: Option<Json>): seq<Call> {
    match parsed
    case None => Calls(Registered(listeners, "error"), ParseError("Parse error: " + text))
    case Some(m) =>
      Calls(Registered(listeners, "message"), Data(m))
      + (if Truthy(m.kind) then Calls(Registered(listeners, m.kind.value), Data(m)) else [])
  }

  // ---------------------------------------------------------------- properties

  /** on() appends to its own type's list and leaves every other type's list alone. */
  lemma RegisteringKeeps(listeners: map<string, seq<Callback>>, eventType: string, callback: Callback, other: string)
    ensures Registered(Registering(listeners, eventType, callback), eventType) == Registered(listeners, eventType) + [callback]
    ensures other != eventType ==> Registered(Registering(listeners, eventType, callback), other) == Registered(listeners, other)
  {
  }

  /** Callbacks registered one after another are kept in registration order, after the earlier ones. */
  lemma {:induction false} RegistrationOrder(listeners: map<string, seq<Callback>>, eventType: string, callbacks: seq<Callback>)
    ensures Registered(RegisterAll(listeners, eventType, callbacks), eventType) == Registered(listeners, eventType) + callbacks
    decreases |callbacks|
  {
    if callbacks == [] {
      assert Registered(listeners, eventType) + [] == Registered(listeners, eventType);
    } else {
      var front := callbacks[..|callbacks| - 1];
      RegistrationOrder(listeners, eventType, front);
      assert front + [callbacks[|callbacks| - 1]] == callbacks;
    }
  }

  /** Emitting a type nobody registered for calls nothing. */
  lemma EmitUnregistered(listeners: map<string, seq<Callback>>, eventType: string, data: Payload)
    requires eventType !in listeners
    ensures Calls(Registered(listeners, eventType), data) == []
  {
  }

  /**
   * A parsed message goes first to the 'message' callbacks, then, when its
   * type is set, to that type's callbacks; text that is not JSON goes only
   * to the 'error' callbacks.
   */
  lemma DispatchOrder(listeners: map<string, seq<Callback>>, text: string, parsed: Option<Json>)
    ensures parsed.None? ==>
      Dispatch(listeners, text, parsed) == Calls(Registered(listeners, "error"), ParseError("Parse error: " + text))
    ensures parsed.Some? ==>
      var calls := Dispatch(listeners, text, parsed);
      var n := |Registered(listeners, "message")|;
      && n <= |calls|
      && (forall i :: 0 <= i < n ==> calls[i] == Call(Registered(listeners, "message")[i], Data(parsed.value)))
      && (Truthy(parsed.value.kind) ==> calls[n..] == Calls(Registered(listeners, parsed.value.kind.value), Data(parsed.value)))
      && (!Truthy(parsed.value.kind) ==> |calls| == n)
  {
    if parsed.Some? {
      var m := parsed.value;
      var first := Calls(Registered(listeners, "message"), Data(m));
      var rest := if Truthy(m.kind) then Calls(Registered(listeners, m.kind.value), Data(m)) else [];
      assert Dispatch(listeners, text, parsed) == first + rest;
      assert (first + rest)[|first|..] == rest;
    }
  }

  // ---------------------------------------------------------------- the manager

  class WebSocketManager {
    var url: string
    var socket: Option<ReadyState>          // null until connect()
    var listeners: map<string, seq<Callback>>
    var sent: seq<string>                   // what went out on the socket, in order

    constructor(url: string)
      ensures this.url == url && socket == None && listeners == map[] && sent == []
    {
      this.url := url;
      socket := None;
      listeners := map[];
      sent := [];
    }

    /** isConnected. */
    predicate IsConnected()
      reads this
    {
      socket == Some(Open)
    }

    /** connect: a new socket, still connecting. */
    method Connect()
      modifies this
      ensures socket == Some(Connecting)
      ensures url == old(url) && listeners == old(listeners) && sent == old(sent)
    {
      socket := Some(Connecting);
    }

    method On(eventType: string, callback: Callback)
      modifies this
      ensures listeners == Registering(old(listeners), eventType, callback)
      ensures url == old(url) && socket == old(socket) && sent == old(sent)
    {
      if eventType !in listeners {
        listeners := listeners[eventType := []];
      }
      listeners := listeners[eventType := listeners[eventType] + [callback]];
    }

    /** emit: each callback registered for the type, in order, with the data. */
    method Emit(eventType: string, data: Payload) returns (calls: seq<Call>)
      ensures calls == Calls(Registered(listeners, eventType), data)
    {
      var callbacks := if eventType in listeners then listeners[eventType] else [];
      calls := [];
      var i := 0;
      while i < |callbacks|
        invariant i <= |callbacks| && calls == Calls(callbacks[..i], data)
      {
        calls := calls + [Call(callbacks[i], data)];
        i := i + 1;
      }
      assert callbacks[..i] == callbacks;
    }

    /** The socket's message handler. */
    method OnMessage(text: string, parsed: Option<Json>) returns (calls: seq<Call>)
      ensures calls == Dispatch(listeners, text, parsed)
    {
      if parsed.None? {
        calls := Emit("error", ParseError("Parse error: " + text));
        return;
      }
      var data := parsed.value;
      calls := Emit("message", Data(data));
      if data.kind.Some? && data.kind.value != "" {
        var more := Emit(data.kind.value, Data(data));
        calls := calls + more;
      }
    }

    /** The socket's open handler, once the browser reports the socket open. */
    method OnOpen() returns (calls: seq<Call>)
      modifies this
      ensures socket == Some(Open) && url == old(url) && listeners == old(listeners) && sent == old(sent)
      ensures calls == Calls(Registered(listeners, "connected"), NoData)
    {
      socket := Some(Open);
      calls := Emit("connected", NoData);
    }

    /** The socket's close handler, once the browser reports the socket closed; the reconnection timer is not modelled. */
    method OnClose() returns (calls: seq<Call>)
      modifies this
      ensures socket == Some(Closed) && url == old(url) && listeners == old(listeners) && sent == old(sent)
      ensures calls == Calls(Registered(listeners, "disconnected"), NoData)
    {
      socket := Some(Closed);
      calls := Emit("disconnected", NoData);
    }

    /** The socket's error handler. */
    method OnError() returns (calls: seq<Call>)
      ensures calls == Calls(Registered(listeners, "error"), SocketError)
    {
      calls := Emit("error", SocketError);
    }

    /** send: transmitted, and true, only on an open socket. */
    method Send(command: string) returns (ok: bool)
      modifies this
      ensures ok <==> old(socket) == Some(Open)
      ensures sent == if ok then old(sent) + [command] else old(sent)
      ensures url == old(url) && socket == old(socket) && listeners == old(listeners)
    {
      if socket.Some? && socket.value == Open {
        sent := sent + [command];
        return true;
      }
      return false;
    }
  }
}
