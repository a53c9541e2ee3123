/** The telnet console's wire, both ways: the board's queue and encoder with the
  * client's decoder, and the client's encoder with the board's decoder. The rules
  * are RFC 854's: CR NUL stands for a lone CR, and IAC IAC for a data byte 255.
  */
module Telnet {
  import opened Machines

  type Byte = b: nat | b < 256

  const NUL: Byte := 0
  const LF: Byte := 10
  const CR: Byte := 13
  const SE: Byte := 240
  const SB: Byte := 250
  const WILL: Byte := 251
  const WONT: Byte := 252
  const DO: Byte := 253
  const DONT: Byte := 254
  const IAC: Byte := 255
  const ECHO: Byte := 1
  const SUPPRESS_GO_AHEAD: Byte := 3

  predicate Negotiates(b: Byte) {
    b == WILL || b == WONT || b == DO || b == DONT
  }

  // ---- decoders ------------------------------------------------------------

  datatype State = Data | AfterCr | Command | Negotiation | Sub | SubCommand

  /** One byte at the client: where the stream stands, and the data in it. LF after
    * CR is data. */
  function ClientByte(s: State, b: Byte): (State, seq<Byte>) {
    match s
    case AfterCr => if b == NUL then (Data, []) else ClientData(b)
    case Data => ClientData(b)
    case Command =>
      if b == IAC then (Data, [IAC]) else if Negotiates(b) then (Negotiation, []) else if b == SB then (Sub, [])
        else (Data, [])
    case Negotiation => (Data, [])
    case Sub => (if b == IAC then SubCommand else Sub, [])
    case SubCommand => (if b == SE then Data else Sub, [])
  }

  function ClientData(b: Byte): (State, seq<Byte>) {
    if b == IAC then (Command, []) else (if b == CR then AfterCr else Data, [b])
  }

  /** One byte at the board: the same, but that an LF after a CR is dropped as well
    * as a NUL. */
  function BoardByte(s: State, b: Byte): (State, seq<Byte>) {
    if s == AfterCr && b == LF then (Data, []) else ClientByte(s, b)
  }

  /** A decoder run over a stream of bytes. */
  function Decode(step: (State, Byte) -> (State, seq<Byte>), s: State, wire: seq<Byte>): (State, seq<Byte>) {
    if wire == [] then (s, []) else
    var (mid, out) := Decode(step, s, wire[..|wire| - 1]);
    var (last, more) := step(mid, wire[|wire| - 1]);
    (last, out + more)
  }

  lemma {:induction false} DecodeJoin(step: (State, Byte) -> (State, seq<Byte>), s: State, a: seq<Byte>, b: seq<Byte>)
    ensures var (mid, out) := Decode(step, s, a);
            var (last, more) := Decode(step, mid, b);
            Decode(step, s, a + b) == (last, out + more)
  {
    if b == [] {
      assert a + b == a;
      assert Decode(step, s, a).1 + [] == Decode(step, s, a).1;
    } else {
      DecodeJoin(step, s, a, b[..|b| - 1]);
      assert (a + b)[..|a + b| - 1] == a + b[..|b| - 1];
      var out := Decode(step, s, a).1;
      var mid := Decode(step, s, a).0;
      var (m, o) := Decode(step, mid, b[..|b| - 1]);
      var more := step(m, b[|b| - 1]).1;
      assert (out + o) + more == out + (o + more);
    }
  }

  lemma DecodeOne(step: (State, Byte) -> (State, seq<Byte>), s: State, b: Byte)
    ensures Decode(step, s, [b]) == step(s, b)
  {
    assert [b][..0] == [];
    assert [] + step(s, b).1 == step(s, b).1;
  }

  /** What has been decoded never changes: a prefix of the wire gives a prefix of
    * the data. */
  lemma DecodedPrefix(step: (State, Byte) -> (State, seq<Byte>), s: State, wire: seq<Byte>, k: nat)
    requires k <= |wire|
    ensures Decode(step, s, wire[..k]).1 <= Decode(step, s, wire).1
  {
    DecodeJoin(step, s, wire[..k], wire[k..]);
    assert wire == wire[..k] + wire[k..];
  }

  // ---- commands ------------------------------------------------------------

  /** Everything the protocol puts between data: a command alone, a request about
    * an option, or a subnegotiation whose own bytes have IAC doubled. */
  datatype Order = Plain(op: Byte) | About(verb: Byte, option: Byte) | Subnegotiation(payload: seq<Byte>)

  predicate IsOrder(o: Order) {
    match o
    case Plain(op) => op != IAC && !Negotiates(op) && op != SB
    case About(verb, _) => Negotiates(verb)
    case Subnegotiation(_) => true
  }

  function Doubled(bytes: seq<Byte>): seq<Byte> {
    if bytes == [] then [] else
    Doubled(bytes[..|bytes| - 1]) + if bytes[|bytes| - 1] == IAC then [IAC, IAC] else [bytes[|bytes| - 1]]
  }

  function OrderWire(o: Order): seq<Byte> {
    match o
    case Plain(op) => [IAC, op]
    case About(verb, option) => [IAC, verb, option]
    case Subnegotiation(payload) => [IAC, SB] + Doubled(payload) + [IAC, SE]
  }

  /** A decoder that treats commands as both ends do. */
  ghost predicate Takes(step: (State, Byte) -> (State, seq<Byte>)) {
    && (forall b {:trigger step(Command, b)} :: step(Command, b) == ClientByte(Command, b))
    && (forall b {:trigger step(Negotiation, b)} :: step(Negotiation, b) == (Data, []))
    && (forall b {:trigger step(Sub, b)} :: step(Sub, b) == (if b == IAC then SubCommand else Sub, []))
    && (forall b {:trigger step(SubCommand, b)} :: step(SubCommand, b) == (if b == SE then Data else Sub, []))
    && step(Data, IAC) == (Command, [])
  }

  lemma DecodeTwo(step: (State, Byte) -> (State, seq<Byte>), s: State, a: Byte, b: Byte)
    ensures step(s, a).1 == [] ==> Decode(step, s, [a, b]) == step(step(s, a).0, b)
    ensures step(step(s, a).0, b).1 == [] ==> Decode(step, s, [a, b]) == (step(step(s, a).0, b).0, step(s, a).1)
  {
    DecodeJoin(step, s, [a], [b]);
    DecodeOne(step, s, a);
    DecodeOne(step, step(s, a).0, b);
    assert [a, b] == [a] + [b];
    var out, more := step(s, a).1, step(step(s, a).0, b).1;
    assert [] + more == more && out + [] == out;
  }

  lemma {:induction false} DoubledIsSkipped(step: (State, Byte) -> (State, seq<Byte>), payload: seq<Byte>)
    requires Takes(step)
    ensures Decode(step, Sub, Doubled(payload)) == (Sub, [])
  {
    if payload != [] {
      var rest, last := payload[..|payload| - 1], payload[|payload| - 1];
      DoubledIsSkipped(step, rest);
      DecodeJoin(step, Sub, Doubled(rest), if last == IAC then [IAC, IAC] else [last]);
      if last == IAC {
        DecodeTwo(step, Sub, IAC, IAC);
        assert IAC != SE;
      } else {
        DecodeOne(step, Sub, last);
      }
    }
  }

  /** No command is taken for data, and data goes on after it. */
  lemma OrderIsSkipped(step: (State, Byte) -> (State, seq<Byte>), o: Order)
    requires Takes(step) && IsOrder(o)
    ensures Decode(step, Data, OrderWire(o)) == (Data, [])
  {
    match o
    case Plain(op) =>
      DecodeTwo(step, Data, IAC, op);
      assert step(Command, op) == (Data, []);
    case About(verb, option) =>
      DecodeTwo(step, Data, IAC, verb);
      DecodeJoin(step, Data, [IAC, verb], [option]);
      DecodeOne(step, Negotiation, option);
      assert [IAC, verb, option] == [IAC, verb] + [option];
    case Subnegotiation(payload) =>
      DecodeTwo(step, Data, IAC, SB);
      DoubledIsSkipped(step, payload);
      DecodeJoin(step, Data, [IAC, SB], Doubled(payload));
      DecodeTwo(step, Sub, IAC, SE);
      DecodeJoin(step, Data, [IAC, SB] + Doubled(payload), [IAC, SE]);
  }

  lemma BothTakeOrders()
    ensures Takes(ClientByte) && Takes(BoardByte)
  {
  }

  // ---- from the client to the board ----------------------------------------

  /** What a user types, with what the client has to say in between. */
  datatype Keys = Typed(data: seq<Byte>) | Sent(order: Order)

  /** Sending keys: 0xFF doubled, and CR as CR NUL. */
  function TypeWire(data: seq<Byte>): seq<Byte> {
    if data == [] then [] else
    var b := data[|data| - 1];
    TypeWire(data[..|data| - 1]) + if b == IAC then [IAC, IAC] else if b == CR then [CR, NUL] else [b]
  }

  function KeysWire(keys: seq<Keys>): seq<Byte> {
    if keys == [] then [] else
    KeysWire(keys[..|keys| - 1])
      + match keys[|keys| - 1] case Typed(data) => TypeWire(data) case Sent(order) => OrderWire(order)
  }

  function KeysData(keys: seq<Keys>): seq<Byte> {
    if keys == [] then [] else
    KeysData(keys[..|keys| - 1]) + match keys[|keys| - 1] case Typed(data) => data case Sent(_) => []
  }

  lemma {:induction false} TypedComesThrough(data: seq<Byte>)
    ensures Decode(BoardByte, Data, TypeWire(data)) == (Data, data)
  {
    if data != [] {
      var rest, b := data[..|data| - 1], data[|data| - 1];
      TypedComesThrough(rest);
      DecodeJoin(BoardByte, Data, TypeWire(rest), if b == IAC then [IAC, IAC] else if b == CR then [CR, NUL] else [b]);
      assert data == rest + [b];
      if b == IAC {
        DecodeTwo(BoardByte, Data, IAC, IAC);
      } else if b == CR {
        DecodeTwo(BoardByte, Data, CR, NUL);
      } else {
        DecodeOne(BoardByte, Data, b);
      }
    }
  }

  /** The board's decoder undoes the client's encoder, for every byte sequence and
    * whatever commands come between the keys. */
  lemma {:induction false} KeysComeThrough(keys: seq<Keys>)
    requires forall k | k in keys && k.Sent? :: IsOrder(k.order)
    ensures Decode(BoardByte, Data, KeysWire(keys)) == (Data, KeysData(keys))
  {
    if keys != [] {
      var rest, last := keys[..|keys| - 1], keys[|keys| - 1];
      KeysComeThrough(rest);
      DecodeJoin(BoardByte, Data, KeysWire(rest),
                 match last case Typed(data) => TypeWire(data) case Sent(order) => OrderWire(order));
      match last
      case Typed(data) => TypedComesThrough(data);
      case Sent(order) =>
        BothTakeOrders();
        OrderIsSkipped(BoardByte, order);
        assert KeysData(rest) + [] == KeysData(rest);
    }
  }

  class Input {
    var state: State

    constructor ()
      ensures state == Data
    {
      state := Data;
    }

    /** One step of the board's decoder: the answer is data, if the byte completed
      * any. */
    method Feed(byte: Byte) returns (r: Option<Byte>)
      modifies this
      ensures (state, if r.None? then [] else [r.value]) == BoardByte(old(state), byte)
    {
      if state == AfterCr {
        state := Data;
        if byte == NUL || byte == LF {
          return None;
        }
      }
      match state {
        case Data =>
          if byte == IAC {
            state := Command;
            return None;
          }
          if byte == CR {
            state := AfterCr;
          }
          return Some(byte);
        case Command =>
          if byte == IAC {
            state := Data;
            return Some(IAC);
          }
          state := if Negotiates(byte) then Negotiation else if byte == SB then Sub else Data;
          return None;
        case Negotiation =>
          state := Data;
          return None;
        case Sub =>
          if byte == IAC {
            state := SubCommand;
          }
          return None;
        case SubCommand =>
          state := if byte == SE then Data else Sub;
          return None;
      }
    }
  }

  class Client {
    var state: State

    constructor ()
      ensures state == Data
    {
      state := Data;
    }

    /** One run of `Decode` over the chunk, from the state the last one left. */
    method Feed(chunk: seq<Byte>) returns (out: seq<Byte>)
      modifies this
      ensures (state, out) == Decode(ClientByte, old(state), chunk)
    {
      out := [];
      for i := 0 to |chunk|
        invariant (state, out) == Decode(ClientByte, old(state), chunk[..i])
      {
        assert chunk[..i + 1][..i] == chunk[..i];
        var byte := chunk[i];
        var now := state;
        if now == AfterCr {
          state := Data;
          if byte == NUL {
            assert out + [] == out;
            continue;
          }
          now := Data;
        }
        match now {
          case Data =>
            if byte == IAC {
              state := Command;
            } else {
              out := out + [byte];
              if byte == CR {
                state := AfterCr;
              }
            }
          case Command =>
            if byte == IAC {
              out := out + [IAC];
              state := Data;
            } else {
              state := if Negotiates(byte) then Negotiation else if byte == SB then Sub else Data;
            }
          case Negotiation => state := Data;
          case Sub =>
            if byte == IAC {
              state := SubCommand;
            }
          case SubCommand => state := if byte == SE then Data else Sub;
        }
      }
      assert chunk[..|chunk|] == chunk;
    }
  }

  // ---- from the board to the client ----------------------------------------

  /** What goes into the board's queue: a byte the terminal printed, the NUL that
    * settles a CR still waiting, or a command. */
  datatype Item = Text(byte: Byte) | Settle | Say(order: Order)

  /** The last byte queued is a CR that may turn out to be alone. */
  predicate Waiting(items: seq<Item>) {
    items != [] &&
    match items[|items| - 1]
    case Text(b) => b == CR
    case Settle => false
    case Say(_) => false
  }

  function ItemWire(waiting: bool, item: Item): seq<Byte> {
    match item
    case Text(b) => (if waiting && b != LF then [NUL] else []) + (if b == IAC then [IAC, IAC] else [b])
    case Settle => if waiting then [NUL] else []
    case Say(order) => OrderWire(order)
  }

  function Wire(items: seq<Item>): seq<Byte> {
    if items == [] then [] else
    var rest := items[..|items| - 1];
    Wire(rest) + ItemWire(Waiting(rest), items[|items| - 1])
  }

  function TextOf(items: seq<Item>): seq<Byte> {
    if items == [] then [] else
    TextOf(items[..|items| - 1]) + match items[|items| - 1] case Text(b) => [b] case Settle => [] case Say(_) => []
  }

  /** No command comes between a CR and what settles it. */
  ghost predicate Settled(items: seq<Item>) {
    forall i | 0 <= i < |items| && items[i].Say? :: IsOrder(items[i].order) && !Waiting(items[..i])
  }

  lemma ItemComesThrough(waiting: bool, item: Item)
    requires item.Say? ==> IsOrder(item.order) && !waiting
    ensures Decode(ClientByte, if waiting then AfterCr else Data, ItemWire(waiting, item))
         == (if item == Text(CR) then AfterCr else Data,
             match item case Text(b) => [b] case Settle => [] case Say(_) => [])
  {
    match item
    case Say(order) =>
      BothTakeOrders();
      OrderIsSkipped(ClientByte, order);
    case Settle =>
      if waiting {
        DecodeOne(ClientByte, AfterCr, NUL);
      }
    case Text(b) =>
      var start := if waiting then AfterCr else Data;
      if waiting && b != LF {
        DecodeOne(ClientByte, AfterCr, NUL);
        DecodeJoin(ClientByte, AfterCr, [NUL], if b == IAC then [IAC, IAC] else [b]);
        TextByte(Data, b);
      } else {
        assert [] + (if b == IAC then [IAC, IAC] else [b]) == if b == IAC then [IAC, IAC] else [b];
        TextByte(start, b);
      }
  }

  lemma TextByte(s: State, b: Byte)
    requires s == Data || (s == AfterCr && b == LF)
    ensures Decode(ClientByte, s, if b == IAC then [IAC, IAC] else [b]) == (if b == CR then AfterCr else Data, [b])
  {
    if b == IAC {
      DecodeTwo(ClientByte, s, IAC, IAC);
    } else {
      DecodeOne(ClientByte, s, b);
    }
  }

  /** The client's decoder undoes the board's encoder, for every byte sequence and
    * whatever commands come between the bytes. */
  lemma {:induction false} TextComesThrough(items: seq<Item>)
    requires Settled(items)
    ensures Decode(ClientByte, Data, Wire(items)) == (if Waiting(items) then AfterCr else Data, TextOf(items))
  {
    if items != [] {
      var rest, last := items[..|items| - 1], items[|items| - 1];
      assert Settled(rest) by {
        forall i | 0 <= i < |rest| && rest[i].Say? ensures IsOrder(rest[i].order) && !Waiting(rest[..i]) {
          assert rest[..i] == items[..i];
        }
      }
      TextComesThrough(rest);
      ItemComesThrough(Waiting(rest), last);
      DecodeJoin(ClientByte, Data, Wire(rest), ItemWire(Waiting(rest), last));
    }
  }

  /** However much of the wire has left, the client has a prefix of the text. */
  lemma SentIsAPrefix(items: seq<Item>, k: nat)
    requires Settled(items) && k <= |Wire(items)|
    ensures Decode(ClientByte, Data, Wire(items)[..k]).1 <= TextOf(items)
  {
    TextComesThrough(items);
    DecodedPrefix(ClientByte, Data, Wire(items), k);
  }
}
