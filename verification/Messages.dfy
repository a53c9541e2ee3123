/** Kernel messages on their way to a telnet connection. A message is pushed into the
  * log and then printed on the console, as two steps, and anything else can happen
  * in between. What a connection gets is the log at its attach, and then whatever is
  * printed and ends past the attach.
  */
module Messages {
  const LOG_CAPACITY: nat := 16384

  /** The log with one more byte: when it is full the older half goes first. */
  function Appended<T>(log: seq<T>, x: T): seq<T> {
    (if |log| >= LOG_CAPACITY then log[|log| - LOG_CAPACITY / 2..] else log) + [x]
  }

  /** The log once `more` has been pushed into it. */
  function Kept<T>(log: seq<T>, more: seq<T>): seq<T> {
    if more == [] then log else Appended(Kept(log, more[..|more| - 1]), more[|more| - 1])
  }

  /** A log holds the end of everything pushed, and never more than it has room for. */
  lemma {:induction false} KeptIsTheEnd<T>(log: seq<T>, more: seq<T>, history: seq<T>)
    requires |log| <= LOG_CAPACITY && |log| <= |history| && log == history[|history| - |log|..]
    ensures var kept, all := Kept(log, more), history + more;
            |kept| <= LOG_CAPACITY && |kept| <= |all| && kept == all[|all| - |kept|..]
  {
    if more == [] {
      assert history + more == history;
    } else {
      var rest := more[..|more| - 1];
      KeptIsTheEnd(log, rest, history);
      assert more == rest + [more[|more| - 1]];
      assert history + more == (history + rest) + [more[|more| - 1]];
    }
  }

  // ---- the machine ---------------------------------------------------------

  /** One byte of one message. */
  datatype Tag = Tag(message: nat, at: nat)

  /** A connection: how many messages had been pushed when it attached, the position
    * it noted, the log it was sent, and the messages copied to it since. */
  datatype Conn = Detached | Attached(first: nat, logSent: nat, log: seq<Tag>, live: seq<nat>)

  /** The sizes of the messages pushed, the log, the count of bytes ever pushed, the
    * messages printed, and the connection. */
  datatype Line = Line(sizes: seq<nat>, log: seq<Tag>, pushed: nat, printed: set<nat>, conn: Conn)

  datatype Step = Push(size: nat) | Print(message: nat) | Attach | Detach | Clear

  function Total(sizes: seq<nat>): nat {
    if sizes == [] then 0 else Total(sizes[..|sizes| - 1]) + sizes[|sizes| - 1]
  }

  /** The position the log gave message `i`. */
  function Position(sizes: seq<nat>, i: nat): nat
    requires i < |sizes|
  {
    Total(sizes[..i + 1])
  }

  /** The live copy leaves out what the log the connection was sent had in it. */
  predicate Skips(loggedAt: nat, logSent: nat) {
    loggedAt <= logSent
  }

  function Tags(i: nat, size: nat): seq<Tag> {
    seq(size, j requires 0 <= j < size => Tag(i, j))
  }

  predicate Enabled(s: Line, step: Step) {
    step.Print? ==> step.message < |s.sizes| && step.message !in s.printed
  }

  function Apply(s: Line, step: Step): Line
    requires Enabled(s, step)
  {
    match step
    case Push(size) =>
      s.(sizes := s.sizes + [size], log := Kept(s.log, Tags(|s.sizes|, size)), pushed := s.pushed + size)
    case Print(i) =>
      var copied := s.conn.Attached? && !Skips(Position(s.sizes, i), s.conn.logSent);
      s.(printed := s.printed + {i}, conn := if copied then s.conn.(live := s.conn.live + [i]) else s.conn)
    case Attach => s.(conn := Attached(|s.sizes|, s.pushed, s.log, []))
    case Detach => s.(conn := Detached)
    case Clear => s.(log := [])
  }

  const START: Line := Line([], [], 0, {}, Detached)

  // ---- what every step keeps -----------------------------------------------

  /** Every byte ever pushed, in order. */
  ghost function History(sizes: seq<nat>): seq<Tag> {
    if sizes == [] then [] else History(sizes[..|sizes| - 1]) + Tags(|sizes| - 1, sizes[|sizes| - 1])
  }

  lemma {:induction false} HistorySize(sizes: seq<nat>)
    ensures |History(sizes)| == Total(sizes)
  {
    if sizes != [] {
      HistorySize(sizes[..|sizes| - 1]);
    }
  }

  ghost predicate EndsWith(all: seq<Tag>, log: seq<Tag>) {
    |log| <= |all| && log == all[|all| - |log|..]
  }

  ghost predicate Linked(s: Line) {
    s.conn.Attached? ==>
      && s.conn.first <= |s.sizes| && s.conn.logSent == Total(s.sizes[..s.conn.first])
      && EndsWith(History(s.sizes[..s.conn.first]), s.conn.log)
      && (forall i | i in s.conn.live ::
          i < |s.sizes| && i in s.printed && !Skips(Position(s.sizes, i), s.conn.logSent))
      && (forall i | i in s.printed && i < |s.sizes| && !Skips(Position(s.sizes, i), s.conn.logSent) ::
          i in s.conn.live)
      && (forall j, k | 0 <= j < k < |s.conn.live| :: s.conn.live[j] != s.conn.live[k])
  }

  ghost predicate Inv(s: Line) {
    && |s.log| <= LOG_CAPACITY && EndsWith(History(s.sizes), s.log) && s.pushed == Total(s.sizes)
    && (forall i | i in s.printed :: i < |s.sizes|)
    && Linked(s)
  }

  lemma StartKeeps()
    ensures Inv(START)
  {
  }

  /** Positions do not change as more is pushed, and they never fall. */
  lemma {:induction false} TotalGrows(sizes: seq<nat>, i: nat, j: nat)
    requires i <= j <= |sizes|
    ensures Total(sizes[..i]) <= Total(sizes[..j])
    ensures i < j ==> Total(sizes[..i]) + sizes[j - 1] <= Total(sizes[..j])
    decreases j - i
  {
    if i < j {
      assert sizes[..j][..j - 1] == sizes[..j - 1];
      TotalGrows(sizes, i, j - 1);
    }
  }

  lemma PushKeeps(s: Line, size: nat)
    requires Inv(s)
    ensures Inv(Apply(s, Push(size)))
  {
    var s', more := Apply(s, Push(size)), Tags(|s.sizes|, size);
    assert s'.sizes[..|s'.sizes| - 1] == s.sizes;
    assert History(s'.sizes) == History(s.sizes) + more;
    KeptIsTheEnd(s.log, more, History(s.sizes));
    if s.conn.Attached? {
      assert s'.sizes[..s.conn.first] == s.sizes[..s.conn.first];
      forall i | 0 <= i < |s.sizes| ensures Position(s'.sizes, i) == Position(s.sizes, i) {
        assert s'.sizes[..i + 1] == s.sizes[..i + 1];
      }
    }
  }

  lemma AttachKeeps(s: Line)
    requires Inv(s)
    ensures Inv(Apply(s, Attach))
  {
    assert s.sizes[..|s.sizes|] == s.sizes;
    forall i | 0 <= i < |s.sizes| ensures Skips(Position(s.sizes, i), Total(s.sizes)) {
      TotalGrows(s.sizes, i + 1, |s.sizes|);
    }
  }

  lemma StepKeeps(s: Line, step: Step)
    requires Inv(s) && Enabled(s, step)
    ensures Inv(Apply(s, step))
  {
    match step
    case Push(size) => PushKeeps(s, size);
    case Attach => AttachKeeps(s);
    case Print(i) =>
      hide History, EndsWith, Position, Total;
    case Detach =>
    case Clear =>
  }

  ghost predicate Run(s: Line, steps: seq<Step>, s': Line)
    decreases |steps|
  {
    if steps == [] then s' == s else
    Enabled(s, steps[0]) && Run(Apply(s, steps[0]), steps[1..], s')
  }

  lemma {:induction false} RunKeeps(s: Line, steps: seq<Step>, s': Line)
    requires Inv(s) && Run(s, steps, s')
    ensures Inv(s')
    decreases |steps|
  {
    hide Inv, Apply, Enabled;
    if steps != [] {
      StepKeeps(s, steps[0]);
      RunKeeps(Apply(s, steps[0]), steps[1..], s');
    }
  }

  // ---- which messages reach the connection ---------------------------------

  /** Byte `j` of message `i` is where its position says. */
  lemma {:induction false} HistoryAt(sizes: seq<nat>, i: nat, j: nat)
    requires i < |sizes| && j < sizes[i]
    ensures Total(sizes[..i]) + j < |History(sizes)| && History(sizes)[Total(sizes[..i]) + j] == Tag(i, j)
  {
    HistorySize(sizes);
    var rest := sizes[..|sizes| - 1];
    HistorySize(rest);
    if i < |rest| {
      HistoryAt(rest, i, j);
      assert rest[..i] == sizes[..i];
    } else {
      assert sizes[..i] == rest;
    }
  }

  /** And nowhere else. */
  lemma {:induction false} HistoryOnce(sizes: seq<nat>, k: nat)
    requires k < |History(sizes)|
    ensures var t := History(sizes)[k];
            t.message < |sizes| && t.at < sizes[t.message] && k == Total(sizes[..t.message]) + t.at
  {
    var rest := sizes[..|sizes| - 1];
    HistorySize(rest);
    if k < |History(rest)| {
      HistoryOnce(rest, k);
      var t := History(rest)[k];
      assert rest[..t.message] == sizes[..t.message];
    } else {
      assert sizes[..|sizes| - 1] == rest;
    }
  }

  /** No byte of the message had been dropped from the log at the attach. */
  ghost predicate WholeInLog(s: Line, i: nat)
    requires s.conn.Attached? && i < |s.sizes|
  {
    forall j: nat | j < s.sizes[i] :: Tag(i, j) in s.conn.log
  }

  /** The bytes pushed from the start of message `i` until the connection attached. */
  function Since(s: Line, i: nat): nat
    requires s.conn.Attached? && i < s.conn.first <= |s.sizes|
  {
    var all, before := Total(s.sizes[..s.conn.first]), Total(s.sizes[..i]);
    if before <= all then all - before else 0
  }

  /** A byte is in the log that was sent exactly when no more was pushed from it on
    * than the log had room for. */
  lemma InLogIffRecent(s: Line, i: nat, j: nat)
    requires Inv(s) && s.conn.Attached? && i < |s.sizes| && j < s.sizes[i]
    ensures Tag(i, j) in s.conn.log <==> i < s.conn.first && Since(s, i) - j <= |s.conn.log|
  {
    var sizes := s.sizes[..s.conn.first];
    var all, log := History(sizes), s.conn.log;
    HistorySize(sizes);
    if i < s.conn.first {
      HistoryAt(sizes, i, j);
      assert sizes[..i] == s.sizes[..i];
      TotalGrows(s.sizes, i, s.conn.first);
      var k := Total(sizes[..i]) + j;
      if Since(s, i) - j <= |log| {
        assert log[k - (|all| - |log|)] == all[k];
      }
    }
    if Tag(i, j) in log {
      var at :| 0 <= at < |log| && log[at] == Tag(i, j);
      HistoryOnce(sizes, |all| - |log| + at);
      assert sizes[..i] == s.sizes[..i];
    }
  }

  lemma LiveIsLater(s: Line, i: nat)
    requires Inv(s) && s.conn.Attached? && i < |s.sizes| && s.sizes[i] > 0
    ensures Skips(Position(s.sizes, i), s.conn.logSent) <==> i < s.conn.first
  {
    if i < s.conn.first {
      TotalGrows(s.sizes, i + 1, s.conn.first);
    } else {
      TotalGrows(s.sizes, s.conn.first, i + 1);
    }
  }

  /** No byte of any message is sent both in the log and live; and a message is sent
    * whole exactly when it was pushed after the connection attached and has been
    * printed, or was pushed before with no more bytes from its start on than the log
    * still held at the attach. */
  lemma MessageReaches(s: Line, i: nat)
    requires Inv(s) && s.conn.Attached? && i < |s.sizes| && s.sizes[i] > 0
    ensures i in s.conn.live ==> forall j: nat | j < s.sizes[i] :: Tag(i, j) !in s.conn.log
    ensures i in s.conn.live || WholeInLog(s, i) <==>
              if i < s.conn.first then Since(s, i) <= |s.conn.log| else i in s.printed
  {
    hide Since, Position, Skips;
    LiveIsLater(s, i);
    forall j: nat | j < s.sizes[i] ensures Tag(i, j) in s.conn.log
      <==> i < s.conn.first && Since(s, i) - j <= |s.conn.log| {
      InLogIffRecent(s, i, j);
    }
    assert Tag(i, 0) in s.conn.log <==> i < s.conn.first && Since(s, i) <= |s.conn.log|;
  }

  /** Over every run from the start, in any interleaving of pushes, prints, attaches
    * and clears. */
  lemma RunReaches(steps: seq<Step>, s: Line, i: nat)
    requires Run(START, steps, s) && s.conn.Attached? && i < |s.sizes| && s.sizes[i] > 0
    ensures i in s.conn.live ==> forall j: nat | j < s.sizes[i] :: Tag(i, j) !in s.conn.log
    ensures s.conn.first <= |s.sizes|
    ensures i in s.conn.live || WholeInLog(s, i) <==>
              if i < s.conn.first then Since(s, i) <= |s.conn.log| else i in s.printed
    ensures forall j, k | 0 <= j < k < |s.conn.live| :: s.conn.live[j] != s.conn.live[k]
  {
    hide Run, Since, WholeInLog, History, EndsWith;
    StartKeeps();
    RunKeeps(START, steps, s);
    MessageReaches(s, i);
  }

  // ---- a message can be lost -----------------------------------------------

  /** A task that has pushed one byte is preempted before it prints it. Enough is
    * pushed meanwhile to drop the byte from the log, a connection attaches, and the
    * task prints: the byte is neither in the log that was sent nor copied. */
  lemma LostWhenTheLogMovesOn() returns (s: Line)
    ensures Run(START, [Push(1), Push(LOG_CAPACITY), Attach, Print(0)], s)
    ensures s.conn.Attached? && 0 in s.printed && 0 !in s.conn.live && Tag(0, 0) !in s.conn.log
  {
    hide Kept;
    var s1 := Apply(START, Push(1));
    var s2 := Apply(s1, Push(LOG_CAPACITY));
    var s3 := Apply(s2, Attach);
    s := Apply(s3, Print(0));
    RunOfFour(START, s1, s2, s3, s, Push(1), Push(LOG_CAPACITY), Attach, Print(0));
    StartKeeps();
    RunKeeps(START, [Push(1), Push(LOG_CAPACITY), Attach, Print(0)], s);
    assert s.sizes == [1, LOG_CAPACITY] && s.conn.first == 2;
    InLogIffRecent(s, 0, 0);
    LiveIsLater(s, 0);
    assert s.sizes[..2] == [1, LOG_CAPACITY] && [1, LOG_CAPACITY][..1] == [1] && [1][..0] == [];
    assert Total([1, LOG_CAPACITY]) == LOG_CAPACITY + 1;
    StepKeeps(START, Push(1));
    StepKeeps(s1, Push(LOG_CAPACITY));
    assert |s.conn.log| <= LOG_CAPACITY;
  }

  /** The same when the log is cleared in between. */
  lemma LostWhenTheLogIsCleared() returns (s: Line)
    ensures Run(START, [Push(1), Clear, Attach, Print(0)], s)
    ensures s.conn.Attached? && 0 in s.printed && 0 !in s.conn.live && Tag(0, 0) !in s.conn.log
  {
    hide Kept;
    var s1 := Apply(START, Push(1));
    var s2 := Apply(s1, Clear);
    var s3 := Apply(s2, Attach);
    s := Apply(s3, Print(0));
    RunOfFour(START, s1, s2, s3, s, Push(1), Clear, Attach, Print(0));
    StartKeeps();
    RunKeeps(START, [Push(1), Clear, Attach, Print(0)], s);
    LiveIsLater(s, 0);
  }

  lemma RunOfFour(s0: Line, s1: Line, s2: Line, s3: Line, s4: Line, a: Step, b: Step, c: Step, d: Step)
    requires Enabled(s0, a) && s1 == Apply(s0, a) && Enabled(s1, b) && s2 == Apply(s1, b)
    requires Enabled(s2, c) && s3 == Apply(s2, c) && Enabled(s3, d) && s4 == Apply(s3, d)
    ensures Run(s0, [a, b, c, d], s4)
  {
    hide Apply, Enabled;
    assert [a, b, c, d][1..] == [b, c, d] && [b, c, d][1..] == [c, d] && [c, d][1..] == [d] && [d][1..] == [];
    assert Run(s4, [], s4);
    assert Run(s3, [d], s4);
    assert Run(s2, [c, d], s4);
    assert Run(s1, [b, c, d], s4);
  }
}
