/** Room subscriptions over a socket that drops and reconnects (sdk realtime.ts, realtime gateway main.ts). */
module Realtime {
  import opened Collections

  type Address = string

  datatype Message = Join(address: Address) | Leave(address: Address)

  /** The socket and the server's side of it: emits made while disconnected wait in `buffer`. */
  datatype Socket = Socket(connected: bool, buffer: seq<Message>, inFlight: seq<Message>, rooms: set<Address>)

  datatype Client = Client(handlers: map<Address, set<nat>>, socket: Option<Socket>)

  function Emit(s: Socket, m: Message): Socket {
    if s.connected then s.(inFlight := s.inFlight + [m]) else s.(buffer := s.buffer + [m])
  }

  const FRESH_SOCKET := Socket(false, [], [], {})

  /** `subscribe`, from the moment the socket is at hand. */
  function Subscribed(c: Client, address: Address, handler: nat): Client {
    var socket := if c.socket.Some? then c.socket.value else FRESH_SOCKET;
    if address in c.handlers then
      Client(c.handlers[address := c.handlers[address] + {handler}], Some(socket))
    else
      Client(c.handlers[address := {handler}], Some(Emit(socket, Join(address))))
  }

  /** The closure `subscribe` returns. */
  function Unsubscribed(c: Client, address: Address, handler: nat): Client {
    if address !in c.handlers then c
    else
      var left := c.handlers[address] - {handler};
      if left != {} then c.(handlers := c.handlers[address := left])
      else Client(c.handlers - {address}, if c.socket.Some? then Some(Emit(c.socket.value, Leave(address))) else None)
  }

  function Closed(c: Client): Client { Client(map[], None) }

  class RealtimeClient {
    var handlers: map<Address, set<nat>>
    var socket: Option<Socket>

    function State(): Client
      reads this
    {
      Client(handlers, socket)
    }

    constructor ()
      ensures State() == Client(map[], None)
    {
      handlers, socket := map[], None;
    }

    method Subscribe(address: Address, handler: nat)
      modifies this
      ensures State() == Subscribed(old(State()), address, handler)
    {
      if socket.None? { socket := Some(FRESH_SOCKET); }
      if address in handlers {
        handlers := handlers[address := handlers[address] + {handler}];
      } else {
        handlers := handlers[address := {handler}];
        socket := Some(Emit(socket.value, Join(address)));
      }
    }

    method Unsubscribe(address: Address, handler: nat)
      modifies this
      ensures State() == Unsubscribed(old(State()), address, handler)
    {
      if address !in handlers { return; }
      handlers := handlers[address := handlers[address] - {handler}];
      if handlers[address] == {} {
        handlers := handlers - {address};
        if socket.Some? { socket := Some(Emit(socket.value, Leave(address))); }
      }
      assert address in old(handlers) && old(handlers)[address] - {handler} == {} ==>
        handlers == old(handlers) - {address};
    }

    method Close()
      modifies this
      ensures State() == Closed(old(State()))
    {
      handlers := map[];
      socket := None;
    }
  }

  // ----- the server and the connection

  /** The gateway only joins and leaves rooms for addresses shorter than 80 characters. */
  predicate Accepted(address: Address) { |address| < 80 }

  function Serve(rooms: set<Address>, m: Message): set<Address> {
    if !Accepted(m.address) then rooms
    else match m
      case Join(address) => rooms + {address}
      case Leave(address) => rooms - {address}
  }

  function ServeAll(rooms: set<Address>, ms: seq<Message>): set<Address> {
    if ms == [] then rooms else Serve(ServeAll(rooms, ms[..|ms| - 1]), ms[|ms| - 1])
  }

  datatype Event =
    | Subscribe(address: Address, handler: nat)
    | Unsubscribe(address: Address, handler: nat)
    | Close
    | Drop
    | Connect(resubscribed: seq<Address>, bufferFirst: bool)
    | Receive

  function Joins(addresses: seq<Address>): seq<Message> {
    if addresses == [] then [] else Joins(addresses[..|addresses| - 1]) + [Join(addresses[|addresses| - 1])]
  }

  /** On connect the handler re-joins every key, in some order, before or after the buffered emits go out. */
  function Connected(s: Socket, resubscribed: seq<Address>, bufferFirst: bool): Socket {
    Socket(true, [],
           if bufferFirst then s.buffer + Joins(resubscribed) else Joins(resubscribed) + s.buffer, {})
  }

  predicate Lists(addresses: seq<Address>, keys: set<Address>) {
    (forall a | a in addresses :: a in keys) && (forall a | a in keys :: a in addresses)
  }

  function Step(c: Client, e: Event): Client {
    match e
    case Subscribe(address, handler) => Subscribed(c, address, handler)
    case Unsubscribe(address, handler) => Unsubscribed(c, address, handler)
    case Close => Closed(c)
    case Drop =>
      if c.socket.None? then c
      else c.(socket := Some(Socket(false, c.socket.value.buffer, [], {})))
    case Connect(resubscribed, bufferFirst) =>
      if c.socket.None? || c.socket.value.connected || !Lists(resubscribed, c.handlers.Keys) then c
      else c.(socket := Some(Connected(c.socket.value, resubscribed, bufferFirst)))
    case Receive =>
      if c.socket.None? || c.socket.value.inFlight == [] then c
      else
        var s := c.socket.value;
        c.(socket := Some(s.(inFlight := s.inFlight[1..], rooms := Serve(s.rooms, s.inFlight[0]))))
  }

  function Run(events: seq<Event>): Client {
    if events == [] then Client(map[], None) else Step(Run(events[..|events| - 1]), events[|events| - 1])
  }

  // ----- what a batch of messages does to one room

  /** The last thing the messages say about an address: join (true), leave (false) or nothing. */
  function LastWord(ms: seq<Message>, address: Address): Option<bool> {
    if ms == [] then None
    else if ms[|ms| - 1].address == address then Some(ms[|ms| - 1].Join?)
    else LastWord(ms[..|ms| - 1], address)
  }

  lemma {:induction false} RoomAfter(rooms: set<Address>, ms: seq<Message>, address: Address)
    ensures address in ServeAll(rooms, ms) <==>
      if Accepted(address) && LastWord(ms, address).Some? then LastWord(ms, address).value else address in rooms
  {
    if ms != [] { RoomAfter(rooms, ms[..|ms| - 1], address); }
  }

  lemma {:induction false} LastWordAppend(a: seq<Message>, b: seq<Message>, address: Address)
    ensures LastWord(a + b, address) ==
      if LastWord(b, address).Some? then LastWord(b, address) else LastWord(a, address)
  {
    if b == [] {
      assert a + b == a;
    } else {
      assert (a + b)[..|a + b| - 1] == a + b[..|b| - 1];
      LastWordAppend(a, b[..|b| - 1], address);
    }
  }

  lemma {:induction false} LastWordJoins(addresses: seq<Address>, address: Address)
    ensures LastWord(Joins(addresses), address) == if address in addresses then Some(true) else None
  {
    if addresses != [] {
      var n := |addresses| - 1;
      LastWordJoins(addresses[..n], address);
      assert Joins(addresses)[..|Joins(addresses)| - 1] == Joins(addresses[..n]);
      assert addresses == addresses[..n] + [addresses[n]];
    }
  }

  lemma {:induction false} ServeFirst(rooms: set<Address>, ms: seq<Message>)
    requires ms != []
    ensures ServeAll(Serve(rooms, ms[0]), ms[1..]) == ServeAll(rooms, ms)
  {
    var before := ms[..|ms| - 1];
    if before == [] {
      assert ms[1..] == [];
    } else {
      ServeFirst(rooms, before);
      assert ms[1..][..|ms[1..]| - 1] == before[1..];
    }
  }

  // ----- the invariant

  function Live(keys: set<Address>): set<Address> { set a | a in keys && Accepted(a) }

  /** What the buffer last says about an address is what the client wants. */
  ghost predicate BufferAgrees(buffer: seq<Message>, keys: set<Address>) {
    forall a :: LastWord(buffer, a).Some? ==> (LastWord(buffer, a).value <==> a in keys)
  }

  ghost predicate InStep(c: Client) {
    && (forall a | a in c.handlers :: c.handlers[a] != {})
    && (c.socket.None? ==> c.handlers == map[])
    && (c.socket.Some? ==>
          var s := c.socket.value;
          if s.connected then s.buffer == [] && ServeAll(s.rooms, s.inFlight) == Live(c.handlers.Keys)
          else s.inFlight == [] && s.rooms == {} && BufferAgrees(s.buffer, c.handlers.Keys))
  }

  function Changed(keys: set<Address>, m: Message): set<Address> {
    if m.Join? then keys + {m.address} else keys - {m.address}
  }

  lemma ServedChange(rooms: set<Address>, ms: seq<Message>, keys: set<Address>, m: Message)
    requires ServeAll(rooms, ms) == Live(keys)
    ensures ServeAll(rooms, ms + [m]) == Live(Changed(keys, m))
  {
    assert (ms + [m])[..|ms|] == ms;
    forall a ensures a in Serve(Live(keys), m) <==> a in Live(Changed(keys, m)) {
    }
  }

  lemma BufferedChange(buffer: seq<Message>, keys: set<Address>, m: Message)
    requires BufferAgrees(buffer, keys)
    ensures BufferAgrees(buffer + [m], Changed(keys, m))
  {
    forall a | LastWord(buffer + [m], a).Some?
      ensures LastWord(buffer + [m], a).value <==> a in Changed(keys, m)
    {
      assert (buffer + [m])[..|buffer|] == buffer;
    }
  }

  lemma EmitInStep(s: Socket, keys: set<Address>, m: Message)
    requires if s.connected then s.buffer == [] && ServeAll(s.rooms, s.inFlight) == Live(keys)
             else s.inFlight == [] && s.rooms == {} && BufferAgrees(s.buffer, keys)
    ensures var t := Emit(s, m);
      if t.connected then t.buffer == [] && ServeAll(t.rooms, t.inFlight) == Live(Changed(keys, m))
      else t.inFlight == [] && t.rooms == {} && BufferAgrees(t.buffer, Changed(keys, m))
  {
    hide ServeAll, BufferAgrees, Live, Changed;
    if s.connected {
      ServedChange(s.rooms, s.inFlight, keys, m);
    } else {
      BufferedChange(s.buffer, keys, m);
    }
  }

  lemma ConnectInStep(s: Socket, keys: set<Address>, resubscribed: seq<Address>, bufferFirst: bool)
    requires BufferAgrees(s.buffer, keys) && Lists(resubscribed, keys)
    ensures var t := Connected(s, resubscribed, bufferFirst); ServeAll(t.rooms, t.inFlight) == Live(keys)
  {
    hide ServeAll, LastWord, Joins;
    var t := Connected(s, resubscribed, bufferFirst);
    forall a ensures a in ServeAll({}, t.inFlight) <==> a in Live(keys) {
      RoomAfter({}, t.inFlight, a);
      LastWordJoins(resubscribed, a);
      LastWordAppend(s.buffer, Joins(resubscribed), a);
      LastWordAppend(Joins(resubscribed), s.buffer, a);
    }
  }

  lemma StepKeepsInStep(c: Client, e: Event)
    requires InStep(c)
    ensures InStep(Step(c, e))
  {
    hide ServeAll, Emit, BufferAgrees;
    match e {
      case Subscribe(address, handler) => SubscribeInStep(c, address, handler);
      case Unsubscribe(address, handler) => UnsubscribeInStep(c, address, handler);
      case Close =>
      case Drop => if c.socket.Some? { DropInStep(c); }
      case Connect(resubscribed, bufferFirst) =>
        if c.socket.Some? && !c.socket.value.connected && Lists(resubscribed, c.handlers.Keys) {
          ConnectInStep(c.socket.value, c.handlers.Keys, resubscribed, bufferFirst);
        }
      case Receive =>
        if c.socket.Some? && c.socket.value.inFlight != [] {
          ServeFirst(c.socket.value.rooms, c.socket.value.inFlight);
        }
    }
  }

  lemma DropInStep(c: Client)
    requires InStep(c) && c.socket.Some?
    ensures BufferAgrees(c.socket.value.buffer, c.handlers.Keys)
  {
  }

  lemma SubscribeInStep(c: Client, address: Address, handler: nat)
    requires InStep(c)
    ensures InStep(Subscribed(c, address, handler))
  {
    hide Emit;
    var after := Subscribed(c, address, handler);
    if address in c.handlers {
      assert after.handlers.Keys == c.handlers.Keys;
    } else {
      var socket := if c.socket.Some? then c.socket.value else FRESH_SOCKET;
      assert after.handlers.Keys == c.handlers.Keys + {address};
      EmitInStep(socket, c.handlers.Keys, Join(address));
    }
  }

  lemma UnsubscribeInStep(c: Client, address: Address, handler: nat)
    requires InStep(c)
    ensures InStep(Unsubscribed(c, address, handler))
  {
    hide Emit;
    var after := Unsubscribed(c, address, handler);
    if address in c.handlers {
      if c.handlers[address] - {handler} != {} {
        assert after.handlers.Keys == c.handlers.Keys;
      } else {
        assert after.handlers.Keys == c.handlers.Keys - {address};
        EmitInStep(c.socket.value, c.handlers.Keys, Leave(address));
      }
    }
  }

  lemma {:induction false} RunInStep(events: seq<Event>)
    ensures InStep(Run(events))
  {
    hide InStep, Step;
    if events == [] {
      StartInStep();
    } else {
      RunInStep(events[..|events| - 1]);
      StepKeepsInStep(Run(events[..|events| - 1]), events[|events| - 1]);
    }
  }

  lemma StartInStep()
    ensures InStep(Client(map[], None))
  {
  }

  /** The handler was subscribed to the address, and neither unsubscribed from it nor closed since. */
  predicate Wanted(events: seq<Event>, address: Address, handler: nat) {
    events != [] &&
    match events[|events| - 1]
    case Subscribe(a, h) => (a == address && h == handler) || Wanted(events[..|events| - 1], address, handler)
    case Unsubscribe(a, h) => (a != address || h != handler) && Wanted(events[..|events| - 1], address, handler)
    case Close => false
    case _ => Wanted(events[..|events| - 1], address, handler)
  }

  /** An address has exactly the handlers that are still wanted there: nobody is unsubscribed by another's leaving. */
  lemma {:induction false} HandlersAreTheWanted(events: seq<Event>, address: Address, handler: nat)
    ensures var c := Run(events);
      address in c.handlers && handler in c.handlers[address] <==> Wanted(events, address, handler)
  {
    hide Emit, Connected, Serve, Lists;
    if events != [] { HandlersAreTheWanted(events[..|events| - 1], address, handler); }
  }

  /** The gateway serves a join or leave of an address under 80 characters, and no other room changes. */
  lemma ServedRooms(rooms: set<Address>, address: Address, room: Address)
    ensures room in Serve(rooms, Join(address)) <==> room in rooms || (room == address && |address| < 80)
    ensures room in Serve(rooms, Leave(address)) <==> room in rooms && !(room == address && |address| < 80)
  {
  }

  /**
   * Over any interleaving of subscribing, unsubscribing, dropping, reconnecting and closing: whenever the
   * socket is connected and drained, the server's rooms are exactly the accepted addresses the client has
   * handlers for, and no address ever keeps an empty handler set.
   */
  lemma SubscriptionsSurvive(events: seq<Event>)
    ensures var c := Run(events);
      && (forall a | a in c.handlers :: c.handlers[a] != {})
      && (c.socket.Some? && c.socket.value.connected && c.socket.value.inFlight == [] ==>
            c.socket.value.rooms == Live(c.handlers.Keys))
  {
    RunInStep(events);
  }
}
