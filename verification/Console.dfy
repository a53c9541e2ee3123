/** The kernel log and the queue of output on its way to a telnet connection.
  */
module Console {
  import opened Machines
  import opened Telnet
  import opened Messages

  const OUTBOX_SIZE: nat := 65536

  // ---- the log -------------------------------------------------------------

  class KernelLog {
    const data: array<Byte>
    var len: nat
    /** Bytes ever pushed, which dropping and clearing do not take back. */
    var pushed: nat
    /** The bytes themselves. */
    ghost var history: seq<Byte>

    constructor ()
      ensures Valid() && fresh(data) && history == []
    {
      data := new Byte[LOG_CAPACITY](_ => 0);
      len, pushed, history := 0, 0, [];
    }

    /** What the log holds is the end of everything printed. */
    ghost predicate Valid()
      reads this, data
    {
      && data.Length == LOG_CAPACITY && len <= LOG_CAPACITY && pushed == |history| && len <= |history|
      && data[..len] == history[|history| - len..]
    }

    function Bytes(): seq<Byte>
      reads this, data
      requires len <= data.Length
    {
      data[..len]
    }

    /** Append a message. The position returned is where it ends in everything ever
      * pushed, and the log is what the message machine says it is. */
    method Push(bytes: seq<Byte>) returns (position: nat)
      requires Valid()
      modifies this, data
      ensures Valid() && history == old(history) + bytes && position == pushed == old(pushed) + |bytes|
      ensures Bytes() == Kept(old(Bytes()), bytes)
    {
      hide Kept, Appended;
      ghost var was, log := history, data[..len];
      KeptNone(log, bytes);
      for i := 0 to |bytes|
        invariant data.Length == LOG_CAPACITY && len <= LOG_CAPACITY && len <= |history| && pushed == |was|
        invariant history == was + bytes[..i] && data[..len] == history[|history| - len..]
        invariant data[..len] == Kept(log, bytes[..i])
      {
        KeptNext(log, bytes, i);
        PushByte(bytes[i]);
        assert bytes[..i + 1] == bytes[..i] + [bytes[i]];
      }
      assert bytes[..|bytes|] == bytes;
      pushed := pushed + |bytes|;
      position := pushed;
    }

    method PushByte(byte: Byte)
      requires data.Length == LOG_CAPACITY && len <= LOG_CAPACITY && len <= |history|
               && data[..len] == history[|history| - len..]
      modifies this`len, this`history, data
      ensures len <= LOG_CAPACITY && len <= |history| && data[..len] == history[|history| - len..]
      ensures history == old(history) + [byte] && data[..len] == Appended(old(data[..len]), byte)
    {
      if len == LOG_CAPACITY {
        DropOldest();
      }
      Append(byte);
    }

    method Append(byte: Byte)
      requires data.Length == LOG_CAPACITY && len < LOG_CAPACITY && len <= |history|
               && data[..len] == history[|history| - len..]
      modifies this`len, this`history, data
      ensures len <= LOG_CAPACITY && len <= |history| && data[..len] == history[|history| - len..]
      ensures history == old(history) + [byte] && data[..len] == old(data[..len]) + [byte]
    {
      data[len] := byte;
      history := history + [byte];
      assert data[..len + 1] == data[..len] + [byte];
      len := len + 1;
    }

    method DropOldest()
      requires data.Length == LOG_CAPACITY && len == LOG_CAPACITY && len <= |history|
               && data[..len] == history[|history| - len..]
      modifies this`len, data
      ensures len == LOG_CAPACITY / 2 && data[..len] == history[|history| - len..]
      ensures data[..len] == old(data[..len])[LOG_CAPACITY - LOG_CAPACITY / 2..]
    {
      var keep := LOG_CAPACITY / 2;
      ghost var was := data[..len];
      forall i | 0 <= i < keep {
        data[i] := data[LOG_CAPACITY - keep + i];
      }
      len := keep;
      assert forall i | 0 <= i < keep :: data[..len][i] == was[LOG_CAPACITY - keep + i];
    }

    method Clear()
      requires Valid()
      modifies this`len
      ensures Valid() && Bytes() == []
    {
      len := 0;
    }
  }

  lemma KeptNone(log: seq<Byte>, bytes: seq<Byte>)
    ensures Kept(log, bytes[..0]) == log
  {
  }

  lemma KeptNext(log: seq<Byte>, bytes: seq<Byte>, i: nat)
    requires i < |bytes|
    ensures Kept(log, bytes[..i + 1]) == Appended(Kept(log, bytes[..i]), bytes[i])
  {
    assert bytes[..i + 1][..i] == bytes[..i];
  }

  // ---- the queue -----------------------------------------------------------

  datatype Stream = Detached | Attached(logSent: nat) | Overflowed

  function Slot(head: nat, i: nat): nat {
    (head + i) % OUTBOX_SIZE
  }

  lemma SlotsDiffer(head: nat, i: nat, j: nat)
    requires i < j < OUTBOX_SIZE && head < OUTBOX_SIZE
    ensures Slot(head, i) != Slot(head, j)
  {
  }

  function Texts(bytes: seq<Byte>): (items: seq<Item>)
    ensures |items| == |bytes|
  {
    seq(|bytes|, i requires 0 <= i < |bytes| => Text(bytes[i]))
  }

  /** The log as a terminal prints it: its line feeds are CR LF. */
  function Printed(bytes: seq<Byte>): seq<Byte> {
    if bytes == [] then [] else
    Printed(bytes[..|bytes| - 1]) + if bytes[|bytes| - 1] == LF then [CR, LF] else [bytes[|bytes| - 1]]
  }

  lemma ItemsNext(items: seq<Item>, item: Item)
    ensures Wire(items + [item]) == Wire(items) + ItemWire(Waiting(items), item)
    ensures TextOf(items + [item]) == TextOf(items) + match item case Text(b) => [b] case Settle => [] case Say(_) => []
    ensures Waiting(items + [item]) <==> item == Text(CR)
    ensures Settled(items) && (item.Say? ==> IsOrder(item.order) && !Waiting(items)) ==> Settled(items + [item])
  {
    var all := items + [item];
    assert all[..|all| - 1] == items;
    if Settled(items) && (item.Say? ==> IsOrder(item.order) && !Waiting(items)) {
      forall i | 0 <= i < |all| && all[i].Say? ensures IsOrder(all[i].order) && !Waiting(all[..i]) {
        assert i < |items| ==> all[..i] == items[..i];
      }
    }
  }

  /** The bytes queued, oldest first. */
  function Queued(ring: seq<Byte>, head: nat, len: nat): (q: seq<Byte>)
    requires |ring| == OUTBOX_SIZE
    ensures |q| == len
  {
    seq(len, i requires 0 <= i < len => ring[Slot(head, i)])
  }

  /** Storing past the last queued byte queues one more. */
  lemma QueueNext(ring: seq<Byte>, head: nat, len: nat, byte: Byte)
    requires |ring| == OUTBOX_SIZE && head < OUTBOX_SIZE && len < OUTBOX_SIZE
    ensures Queued(ring[Slot(head, len) := byte], head, len + 1) == Queued(ring, head, len) + [byte]
  {
    var stored := ring[Slot(head, len) := byte];
    forall i: nat | i < len ensures stored[Slot(head, i)] == ring[Slot(head, i)] {
      SlotsDiffer(head, i, len);
    }
  }

  /** Moving the head past `n` bytes leaves the rest queued. */
  lemma QueueRest(ring: seq<Byte>, head: nat, len: nat, n: nat)
    requires |ring| == OUTBOX_SIZE && head < OUTBOX_SIZE && n <= len <= OUTBOX_SIZE
    ensures Queued(ring, (head + n) % OUTBOX_SIZE, len - n) == Queued(ring, head, len)[n..]
  {
    var rest := Queued(ring, (head + n) % OUTBOX_SIZE, len - n);
    forall i: nat | i < len - n ensures rest[i] == Queued(ring, head, len)[n..][i] {
      SlotMoves(head, n, i);
    }
  }

  lemma SlotMoves(head: nat, n: nat, i: nat)
    ensures Slot((head + n) % OUTBOX_SIZE, i) == Slot(head, n + i)
  {
  }

  /** The oldest `n` bytes are at most two runs of the ring. */
  lemma QueueRuns(ring: seq<Byte>, head: nat, len: nat, n: nat)
    requires |ring| == OUTBOX_SIZE && head < OUTBOX_SIZE && n <= len <= OUTBOX_SIZE
    ensures var first := if n < OUTBOX_SIZE - head then n else OUTBOX_SIZE - head;
            Queued(ring, head, len)[..n] == ring[head..head + first] + ring[..n - first]
  {
    var first := if n < OUTBOX_SIZE - head then n else OUTBOX_SIZE - head;
    forall i: nat | i < n ensures ring[Slot(head, i)] == (ring[head..head + first] + ring[..n - first])[i] {
      if i < first {
        assert Slot(head, i) == head + i;
      } else {
        assert Slot(head, i) == i - first;
      }
    }
  }

  class Outbox {
    const ring: array<Byte>
    var head: nat
    var len: nat
    var stream: Stream
    var afterCr: bool
    /** What has been queued since the connection attached, and what of its wire
      * form has left the queue. */
    ghost var items: seq<Item>
    ghost var gone: seq<Byte>
    /** Everything meant for the connection: the log it was sent, and what has been
      * printed since that was not in that log, which goes up to `noted`. */
    ghost var due: seq<Byte>
    ghost var noted: nat

    ghost predicate Valid()
      reads this`head, this`len, this`afterCr, this`items, this`gone, ring
    {
      && ring.Length == OUTBOX_SIZE && head < OUTBOX_SIZE && len <= OUTBOX_SIZE
      && gone + Queued(ring[..], head, len) == Wire(items)
      && Settled(items) && afterCr == Waiting(items)
    }

    /** While it is attached the queue has lost nothing of what is due, and after an
      * overflow what it has is the beginning of it. */
    ghost predicate Complete()
      reads this`stream, this`items, this`due, this`noted
    {
      match stream
      case Detached => items == [] && due == []
      case Attached(logSent) => TextOf(items) == due && logSent == noted
      case Overflowed => TextOf(items) <= due
    }

    constructor ()
      ensures Valid() && Complete() && fresh(ring) && stream == Stream.Detached && items == []
    {
      ring := new Byte[OUTBOX_SIZE](_ => 0);
      head, len, stream, afterCr, items, gone, due, noted := 0, 0, Stream.Detached, false, [], [], [], 0;
    }

    /** All of `wire` goes to the end of the ring, or nothing does: which of the two
      * is decided by the room alone. */
    method Put(wire: seq<Byte>) returns (room: bool)
      requires ring.Length == OUTBOX_SIZE && head < OUTBOX_SIZE && len <= OUTBOX_SIZE
      modifies this`len, ring
      ensures room <==> old(len) + |wire| <= OUTBOX_SIZE
      ensures len == old(len) + (if room then |wire| else 0)
      ensures Queued(ring[..], head, len) == old(Queued(ring[..], head, len)) + if room then wire else []
    {
      if OUTBOX_SIZE - len < |wire| {
        assert Queued(ring[..], head, len) + [] == Queued(ring[..], head, len);
        return false;
      }
      ghost var was := Queued(ring[..], head, len);
      for i := 0 to |wire|
        invariant len == old(len) + i && Queued(ring[..], head, len) == was + wire[..i]
      {
        QueueNext(ring[..], head, len, wire[i]);
        ring[Slot(head, len)] := wire[i];
        len := len + 1;
        assert wire[..i + 1] == wire[..i] + [wire[i]];
      }
      assert wire[..|wire|] == wire;
      return true;
    }

    /** Queue an item's wire form, if there is room for it. */
    method PutItem(ghost item: Item, wire: seq<Byte>) returns (room: bool)
      requires Valid() && (item.Say? ==> IsOrder(item.order) && !afterCr) && wire == ItemWire(afterCr, item)
      modifies this`len, this`afterCr, this`items, ring
      ensures room ==> Linked(old(items) + [item]) && items == old(items) + [item]
      ensures !room ==> Valid() && items == old(items) && afterCr == old(afterCr)
      ensures room <==> old(len) + |wire| <= OUTBOX_SIZE
      ensures len == (if room then old(len) + |wire| else old(len)) && afterCr == old(afterCr)
    {
      hide Wire, Settled, ItemWire, Waiting;
      ghost var queued := Queued(ring[..], head, len);
      room := Put(wire);
      if room {
        ItemsNext(items, item);
        assert gone + (queued + wire) == (gone + queued) + wire;
        items := items + [item];
      } else {
        assert queued + [] == queued;
      }
    }

    /** The queue matches the items; only the mark for a waiting CR is out of date. */
    ghost predicate Linked(items: seq<Item>)
      reads this, ring
    {
      && ring.Length == OUTBOX_SIZE && head < OUTBOX_SIZE && len <= OUTBOX_SIZE
      && gone + Queued(ring[..], head, len) == Wire(items) && Settled(items)
    }

    /** The encoding of one byte of output goes to the end of the ring, or nothing
      * changes. */
    method PutText(byte: Byte) returns (room: bool)
      requires Valid()
      modifies this`len, this`afterCr, this`items, ring
      ensures Valid() && items == if room then old(items) + [Text(byte)] else old(items)
      ensures room <==> old(len) + |ItemWire(old(afterCr), Text(byte))| <= OUTBOX_SIZE
      ensures len == if room then old(len) + |ItemWire(old(afterCr), Text(byte))| else old(len)
    {
      hide Wire, Settled, Waiting;
      ItemsNext(items, Text(byte));
      var wire: seq<Byte> := [];
      if afterCr && byte != LF {
        wire := wire + [NUL];
      }
      wire := wire + [byte];
      if byte == IAC {
        wire := wire + [IAC];
      }
      assert wire == ItemWire(afterCr, Text(byte));
      room := PutItem(Text(byte), wire);
      if room {
        afterCr := byte == CR;
      }
    }

    /** The NUL of a CR still waiting for one. */
    method PutSettle() returns (room: bool)
      requires Valid()
      modifies this`len, this`afterCr, this`items, ring
      ensures Valid() && items == if room then old(items) + [Settle] else old(items)
      ensures room <==> old(len) + (if old(afterCr) then 1 else 0) <= OUTBOX_SIZE
      ensures len == (if room && old(afterCr) then old(len) + 1 else old(len)) && (room ==> !afterCr)
    {
      hide Wire, Settled, Waiting;
      ItemsNext(items, Settle);
      room := PutItem(Settle, if afterCr then [NUL] else []);
      if room {
        afterCr := false;
      }
    }

    /** A command goes to the end of the ring, after the NUL that an unsettled CR
      * needs, or nothing changes. */
    method PutCommand(order: Order) returns (room: bool)
      requires Valid() && IsOrder(order)
      modifies this`len, this`afterCr, this`items, ring
      ensures Valid() && (items == old(items) || items == old(items) + [Settle]
                          || items == old(items) + [Settle, Say(order)])
      ensures room ==> items == old(items) + [Settle, Say(order)] && !afterCr
      ensures room <==> old(len) + (if old(afterCr) then 1 else 0) + |OrderWire(order)| <= OUTBOX_SIZE
      ensures room ==> len == old(len) + (if old(afterCr) then 1 else 0) + |OrderWire(order)|
    {
      hide Wire, Settled, Waiting, OrderWire, Queued;
      ghost var was := items;
      ItemsNext(was + [Settle], Say(order));
      room := PutSettle();
      if room {
        room := PutItem(Say(order), OrderWire(order));
        assert was + [Settle] + [Say(order)] == was + [Settle, Say(order)];
      }
    }

    /** Bytes of a message at or before the position noted at the attach are left
      * out. The rest are due, and are queued up to the first that does not fit. */
    method Copy(bytes: seq<Byte>, loggedAt: Option<nat>)
      requires Valid() && Complete()
      modifies this`len, this`afterCr, this`items, this`stream, this`due, ring
      ensures Valid() && Complete()
      ensures due == old(due) + if old(stream).Detached? || (loggedAt.Some? && Skips(loggedAt.value, noted)) then []
              else bytes
      ensures var live := old(stream).Attached? && !(loggedAt.Some? && Skips(loggedAt.value, old(stream).logSent));
              if !live then items == old(items) && stream == old(stream)
              else exists k: nat | k <= |bytes| :: items == old(items) + Texts(bytes[..k]) && stream == if k == |bytes|
                then old(stream) else Overflowed
    {
      if !stream.Detached? && !(loggedAt.Some? && Skips(loggedAt.value, noted)) {
        due := due + bytes;
      }
      if !stream.Attached? || (loggedAt.Some? && loggedAt.value <= stream.logSent) {
        return;
      }
      CopyAll(bytes, old(due));
    }

    /** Queue the bytes up to the first that does not fit. */
    method CopyAll(bytes: seq<Byte>, ghost was: seq<Byte>)
      requires Valid() && stream.Attached? && stream.logSent == noted && TextOf(items) == was && due == was + bytes
      modifies this`len, this`afterCr, this`items, this`stream, ring
      ensures Valid() && Complete()
      ensures exists k: nat | k <= |bytes| ::
              items == old(items) + Texts(bytes[..k]) && stream == if k == |bytes| then old(stream) else Overflowed
    {
      hide Wire, Settled, Waiting, ItemWire, Texts, Queued, TextOf;
      NoTexts(bytes);
      for i := 0 to |bytes|
        invariant Valid() && stream == old(stream) && items == old(items) + Texts(bytes[..i])
        invariant TextOf(items) == was + bytes[..i]
      {
        CopiedNext(old(items), items, was, bytes, i);
        var room := PutText(bytes[i]);
        if !room {
          stream := Overflowed;
          return;
        }
      }
      assert bytes[..|bytes|] == bytes;
    }

    /** A command is no text: nothing is due for it, and it can only overflow. */
    method Command(order: Order)
      requires Valid() && Complete() && IsOrder(order)
      modifies this`len, this`afterCr, this`items, this`stream, ring
      ensures Valid() && Complete() && TextOf(items) == old(TextOf(items))
      ensures stream == old(stream) || (old(stream).Attached? && stream == Overflowed)
      ensures !old(stream).Attached? ==> items == old(items)
    {
      hide Wire, Settled, Waiting, Queued;
      if stream.Attached? {
        var room := PutCommand(order);
        CommandIsNoText(old(items), order);
        if !room {
          stream := Overflowed;
        }
      }
    }

    /** The first `most` bytes of the queue, or all of it. */
    method Peek(most: nat) returns (out: seq<Byte>)
      requires Valid()
      ensures out == Queued(ring[..], head, len)[..if most < len then most else len]
    {
      var n := if most < len then most else len;
      var first := if n < OUTBOX_SIZE - head then n else OUTBOX_SIZE - head;
      QueueRuns(ring[..], head, len, n);
      assert ring[..][head..head + first] == ring[head..head + first] && ring[..][..n - first] == ring[..n - first];
      out := ring[head..head + first] + ring[..n - first];
    }

    method Consume(most: nat)
      requires Valid() && Complete()
      modifies this`head, this`len, this`gone
      ensures Valid() && Complete()
      ensures var n := if most < old(len) then most else old(len);
              len == old(len) - n && gone == old(gone) + old(Queued(ring[..], head, len))[..n]
    {
      hide Wire, Settled, Waiting;
      var n := if most < len then most else len;
      ghost var queued := Queued(ring[..], head, len);
      QueueRest(ring[..], head, len, n);
      assert gone + queued == gone + queued[..n] + queued[n..] by {
        assert queued == queued[..n] + queued[n..];
      }
      gone := gone + queued[..n];
      head := (head + n) % OUTBOX_SIZE;
      len := len - n;
    }

    method Detach()
      requires ring.Length == OUTBOX_SIZE
      modifies this`head, this`len, this`stream, this`afterCr, this`items, this`gone, this`due
      ensures Valid() && Complete() && stream == Stream.Detached && items == []
    {
      stream, head, len, afterCr, items, gone, due := Stream.Detached, 0, 0, false, [], [], [];
    }

    /** Queue one byte of the log as the console printed it. */
    method PutLogged(byte: Byte) returns (room: bool)
      requires Valid() && len + 3 <= OUTBOX_SIZE
      modifies this`len, this`afterCr, this`items, ring
      ensures Valid() && room && len <= old(len) + 3
      ensures TextOf(items) == old(TextOf(items)) + if byte == LF then [CR, LF] else [byte]
    {
      hide Wire, Settled, Waiting, ItemWire, Queued, TextOf;
      WireSizes();
      room := true;
      ghost var was := items;
      if byte == LF {
        room := PutText(CR);
        ItemsNext(was, Text(CR));
      }
      ghost var mid := items;
      if room {
        room := PutText(byte);
        ItemsNext(mid, Text(byte));
      }
      assert byte == LF ==> TextOf(was) + [CR] + [LF] == TextOf(was) + [CR, LF];
    }

    /** From here on the connection is due the log it is sent now and what is printed
      * after it. The log always fits, with the two offers before it. */
    method Attach(log: KernelLog)
      requires ring.Length == OUTBOX_SIZE && log.Valid() && ring != log.data
      modifies this`head, this`len, this`stream, this`afterCr, this`items, this`gone, this`due, this`noted, ring
      ensures Valid() && Complete() && stream == Stream.Attached(log.pushed) && gone == []
      ensures due == Printed(log.Bytes()) && len <= 6 + 3 * |log.Bytes()|
    {
      hide Wire, Settled, Waiting, ItemWire, Queued, TextOf, Printed, OrderWire;
      var room := Offer();
      var bytes := log.data[..log.len];
      NothingPrinted();
      assert bytes[..0] == [];
      for i := 0 to |bytes|
        invariant Valid() && room && len <= 6 + 3 * i && gone == []
        invariant TextOf(items) == Printed(bytes[..i])
        invariant bytes == log.Bytes()
      {
        PrintedNext(bytes, i);
        room := PutLogged(bytes[i]);
      }
      assert bytes[..|bytes|] == bytes;
      stream := if room then Stream.Attached(log.pushed) else Overflowed;
      due, noted := TextOf(items), log.pushed;
    }

    /** Start the ring over with the board's two option offers in it. */
    method Offer() returns (room: bool)
      requires ring.Length == OUTBOX_SIZE
      modifies this`head, this`len, this`afterCr, this`items, this`gone, ring
      ensures Valid() && room && len == 6 && gone == [] && TextOf(items) == []
    {
      head, len, afterCr, items, gone := 0, 0, false, [], [];
      CommandIsNoText([], About(WILL, ECHO));
      CommandIsNoText([Settle, Say(About(WILL, ECHO))], About(WILL, SUPPRESS_GO_AHEAD));
      room := PutCommand(About(WILL, ECHO));
      assert [] + [Settle, Say(About(WILL, ECHO))] == [Settle, Say(About(WILL, ECHO))];
      if room {
        room := PutCommand(About(WILL, SUPPRESS_GO_AHEAD));
      }
    }
  }

  lemma NothingPrinted()
    ensures Printed([]) == []
  {
  }

  lemma PrintedNext(bytes: seq<Byte>, i: nat)
    requires i < |bytes|
    ensures Printed(bytes[..i + 1]) == Printed(bytes[..i]) + if bytes[i] == LF then [CR, LF] else [bytes[i]]
  {
    assert bytes[..i + 1][..i] == bytes[..i];
  }

  /** One more byte queued is one more byte of what was to be copied. */
  lemma CopiedNext(before: seq<Item>, items: seq<Item>, was: seq<Byte>, bytes: seq<Byte>, i: nat)
    requires i < |bytes| && items == before + Texts(bytes[..i]) && TextOf(items) == was + bytes[..i]
    ensures items + [Text(bytes[i])] == before + Texts(bytes[..i + 1])
    ensures TextOf(items + [Text(bytes[i])]) == was + bytes[..i + 1] && TextOf(items) <= was + bytes
  {
    hide Texts, TextOf;
    TextsNext(bytes, i);
    ItemsNext(items, Text(bytes[i]));
    GoesOn(was, bytes, i);
    Regrouped(before, Texts(bytes[..i]), Text(bytes[i]));
  }

  lemma GoesOn(was: seq<Byte>, bytes: seq<Byte>, i: nat)
    requires i < |bytes|
    ensures was + bytes[..i] + [bytes[i]] == was + bytes[..i + 1] && was + bytes[..i] <= was + bytes
  {
  }

  lemma Regrouped(a: seq<Item>, b: seq<Item>, c: Item)
    ensures a + b + [c] == a + (b + [c])
  {
  }

  lemma CommandIsNoText(items: seq<Item>, order: Order)
    ensures TextOf(items + [Settle]) == TextOf(items) && TextOf(items + [Settle, Say(order)]) == TextOf(items)
  {
    ItemsNext(items, Settle);
    ItemsNext(items + [Settle], Say(order));
    assert items + [Settle] + [Say(order)] == items + [Settle, Say(order)];
  }

  lemma NoTexts(bytes: seq<Byte>)
    ensures Texts(bytes[..0]) == []
  {
  }

  lemma WireSizes()
    ensures forall waiting, b: Byte :: |ItemWire(waiting, Text(b))| <= 3
    ensures forall waiting :: |ItemWire(waiting, Text(CR))| <= 2 && |ItemWire(waiting, Text(LF))| == 1
  {
  }

  lemma TextsNext(bytes: seq<Byte>, i: nat)
    requires i < |bytes|
    ensures Texts(bytes[..i]) + [Text(bytes[i])] == Texts(bytes[..i + 1])
  {
  }

  /** Whatever has left the queue, the client has a gap-free beginning of what it is
    * due, the log it was sent and everything printed since; and all of it, once the
    * queue of a connection that is still attached is empty. */
  lemma ClientHasPrefix(o: Outbox)
    requires o.Valid() && o.Complete() && !o.stream.Detached?
    ensures Decode(ClientByte, Data, o.gone).1 <= o.due
    ensures o.len == 0 && o.stream.Attached? ==> Decode(ClientByte, Data, o.gone).1 == o.due
  {
    hide Decode, Settled, TextOf;
    assert Wire(o.items)[..|o.gone|] == o.gone;
    SentIsAPrefix(o.items, |o.gone|);
    TextComesThrough(o.items);
    assert o.len == 0 ==> o.gone == Wire(o.items);
  }
}
