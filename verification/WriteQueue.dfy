/** The write queue of a socket: one write is under way at a time, and it takes what it can. */
module WriteQueues {

  type Bytes = seq<bv8>

  datatype Option<T> = None | Some(value: T)

  /** The settings: times are in milliseconds. */
  datatype Config = Config(maxBufferSize: nat, overflowTimeout: int, disconnectTimeout: int)

  /** A socket and its stream: `pending` are the writes that the stream has been asked for and has not completed,
    * `sent` is what it has reported as written, and `accepted` what has been put into the queue. */
  datatype Socket = Socket(
    outBuf: seq<Bytes>, overflow: Option<int>, disc: Option<int>, lastWrite: Option<int>,
    pending: seq<Bytes>, shutdowns: nat, failed: bool, sent: Bytes, accepted: Bytes)

  const OPENED := Socket([], None, None, None, [], 0, false, [], [])

  /** What happens to a socket: calls by the hub, and completions of the write under way. */
  datatype Op =
    | Write(buf: Bytes, lowPrio: bool, now: int)
    | Disconnect(now: int)
    | Complete(bytes: nat, now: int)
    | Fail

  const MAX_BUFFERS: nat := 64
  const MAX_BYTES: nat := 1024
  const WRITE_TIMEOUT: int := 60000

  function Flatten(bufs: seq<Bytes>): Bytes {
    if bufs == [] then [] else bufs[0] + Flatten(bufs[1..])
  }

  function Min(a: nat, b: nat): nat { if a <= b then a else b }

  // ----- the steps -------------------------------------------------------------------------------------

  /** `getQueuedBytes` */
  function Sum(bufs: seq<Bytes>): nat {
    if bufs == [] then 0 else |bufs[0]| + Sum(bufs[1..])
  }

  /** What the stream takes from the queue: a single buffer as it is, or a limited number of bytes from a limited
    * number of buffers. */
  function Offered(bufs: seq<Bytes>): Bytes {
    if |bufs| == 1 then bufs[0]
    else
      var all := Flatten(bufs[..Min(|bufs|, MAX_BUFFERS)]);
      all[..Min(|all|, MAX_BYTES)]
  }

  function PrepareWriteStep(f: Config, s: Socket, now: int): Socket {
    if s.lastWrite == None then
      if s.outBuf != [] then s.(lastWrite := Some(now), pending := s.pending + [Offered(s.outBuf)]) else s
    else if now > s.lastWrite.value + WRITE_TIMEOUT then DisconnectStep(f, s, now)
    else s
  }

  function DisconnectStep(f: Config, s: Socket, now: int): Socket {
    if s.disc.Some? then s
    else s.(disc := Some(now + f.disconnectTimeout), shutdowns := if s.lastWrite == None then s.shutdowns + 1 else s.shutdowns)
  }

  function WriteStep(f: Config, s: Socket, buf: Bytes, lowPrio: bool, now: int): Socket {
    if buf == [] || s.disc.Some? then s
    else if f.maxBufferSize > 0 && Sum(s.outBuf) + |buf| > f.maxBufferSize then
      if lowPrio then s
      else if s.overflow.Some? && s.overflow.value + f.overflowTimeout < now then DisconnectStep(f, s, now)
      else AcceptStep(f, s.(overflow := Some(now)), buf, now)
    else AcceptStep(f, s, buf, now)
  }

  function AcceptStep(f: Config, s: Socket, buf: Bytes, now: int): Socket {
    PrepareWriteStep(f, s.(outBuf := s.outBuf + [buf], accepted := s.accepted + buf), now)
  }

  /** The queue without its first bytes. */
  function Drop(bufs: seq<Bytes>, n: nat): seq<Bytes> {
    if n == 0 || bufs == [] then bufs
    else if |bufs[0]| <= n then Drop(bufs[1..], n - |bufs[0]|)
    else [bufs[0][n..]] + bufs[1..]
  }

  function CompleteStep(f: Config, s: Socket, n: nat, now: int): Socket
    requires s.pending != [] && n <= |s.pending[0]|
  {
    var s1 := s.(lastWrite := None, pending := s.pending[1..], sent := s.sent + s.pending[0][..n], outBuf := Drop(s.outBuf, n));
    var s2 := if s1.overflow.Some? && Sum(s1.outBuf) < f.maxBufferSize then s1.(overflow := None) else s1;
    if s2.disc.Some? && s2.outBuf == [] then s2.(shutdowns := s2.shutdowns + 1) else PrepareWriteStep(f, s2, now)
  }

  function FailStep(s: Socket): Socket
    requires s.pending != []
  {
    s.(lastWrite := None, pending := s.pending[1..], failed := true)
  }

  /** Only a write that is under way completes, with no more bytes than it was given. */
  predicate Enabled(s: Socket, op: Op) {
    match op
    case Complete(n, _) => s.pending != [] && n <= |s.pending[0]|
    case Fail => s.pending != []
    case _ => true
  }

  function Step(f: Config, s: Socket, op: Op): Socket
    requires Enabled(s, op)
  {
    match op
    case Write(buf, lowPrio, now) => WriteStep(f, s, buf, lowPrio, now)
    case Disconnect(now) => DisconnectStep(f, s, now)
    case Complete(n, now) => CompleteStep(f, s, n, now)
    case Fail => FailStep(s)
  }

  /** What is not enabled does not happen. */
  function Next(f: Config, s: Socket, op: Op): Socket { if Enabled(s, op) then Step(f, s, op) else s }

  /** A run. */
  function Run(f: Config, s: Socket, ops: seq<Op>): Socket
    decreases |ops|
  {
    if ops == [] then s
    else Run(f, Next(f, s, ops[0]), ops[1..])
  }

  // ----- what every step keeps -------------------------------------------------------------------------

  ghost predicate NoneEmpty(bufs: seq<Bytes>) { forall i :: 0 <= i < |bufs| ==> bufs[i] != [] }

  /** The bytes reported as sent and the bytes in the queue are the accepted bytes, in order; there is one write
    * under way at most, of the beginning of the queue. */
  ghost predicate Conserved(s: Socket) {
    && NoneEmpty(s.outBuf)
    && s.sent + Flatten(s.outBuf) == s.accepted
    && |s.pending| <= 1 && (s.pending != [] <==> s.lastWrite.Some?)
    && (s.pending != [] ==> s.pending[0] != [] && s.pending[0] <= Flatten(s.outBuf))
  }

  /** On a run without errors a queue that is not empty is being written, so that it is never forgotten. */
  predicate Awake(s: Socket) { !s.failed ==> (s.outBuf != [] <==> s.pending != []) }

  /** The stream is shut down once, when a socket that disconnects has nothing left to write. */
  predicate ShutOnce(s: Socket) { !s.failed ==> s.shutdowns == if s.disc.Some? && s.outBuf == [] then 1 else 0 }

  /** A socket that overflows has its queue full. */
  predicate Full(f: Config, s: Socket) { s.overflow.Some? ==> 0 < f.maxBufferSize <= Sum(s.outBuf) }

  ghost predicate Inv(f: Config, s: Socket) {
    Conserved(s) && Awake(s) && ShutOnce(s) && Full(f, s)
  }

  lemma {:induction false} FlattenJoins(a: seq<Bytes>, b: seq<Bytes>)
    ensures Flatten(a + b) == Flatten(a) + Flatten(b)
  {
    if a == [] {
      assert a + b == b;
    } else {
      assert (a + b)[1..] == a[1..] + b;
      FlattenJoins(a[1..], b);
    }
  }

  lemma {:induction false} SumIsLength(bufs: seq<Bytes>)
    ensures Sum(bufs) == |Flatten(bufs)|
  {
    if bufs != [] {
      SumIsLength(bufs[1..]);
    }
  }

  lemma FlattenOne(buf: Bytes)
    ensures Flatten([buf]) == buf
  {
    assert [buf][1..] == [];
  }

  /** What is offered is the beginning of the queue, and something. */
  lemma OfferedIsFirst(bufs: seq<Bytes>)
    requires bufs != [] && NoneEmpty(bufs)
    ensures Offered(bufs) != [] && Offered(bufs) <= Flatten(bufs)
    ensures |bufs| == 1 ==> Offered(bufs) == Flatten(bufs)
    ensures |bufs| > 1 ==> |Offered(bufs)| <= 1024
    ensures |bufs| > 1 && |Offered(bufs)| < 1024 ==>
      Offered(bufs) == Flatten(bufs[..if |bufs| <= 64 then |bufs| else 64])
  {
    if |bufs| == 1 {
      FlattenOne(bufs[0]);
      hide Flatten;
      assert bufs == [bufs[0]];
    } else {
      var k := Min(|bufs|, MAX_BUFFERS);
      var some, rest := bufs[..k], bufs[k..];
      assert bufs == some + rest;
      FlattenJoins(some, rest);
      EmptyFlatten(some);
      hide Flatten, NoneEmpty;
    }
  }

  /** Exactly the first bytes leave the queue. */
  lemma {:induction false} DropIsSuffix(bufs: seq<Bytes>, n: nat)
    requires NoneEmpty(bufs) && n <= |Flatten(bufs)|
    ensures NoneEmpty(Drop(bufs, n)) && Flatten(Drop(bufs, n)) == Flatten(bufs)[n..]
  {
    if n == 0 || bufs == [] {
    } else if |bufs[0]| <= n {
      assert forall i :: 0 <= i < |bufs| - 1 ==> bufs[1..][i] == bufs[i + 1];
      DropIsSuffix(bufs[1..], n - |bufs[0]|);
    } else {
      assert ([bufs[0][n..]] + bufs[1..])[1..] == bufs[1..];
      assert (bufs[0] + Flatten(bufs[1..]))[n..] == bufs[0][n..] + Flatten(bufs[1..]);
    }
  }

  lemma PrepareKeeps(f: Config, s: Socket, now: int)
    requires Conserved(s) && Full(f, s) && ShutOnce(s)
    requires s.lastWrite.Some? ==> Awake(s)
    requires s.lastWrite == None ==> s.disc == None || s.outBuf != []
    ensures Inv(f, PrepareWriteStep(f, s, now))
  {
    hide Flatten, Offered, Sum, NoneEmpty;
    if s.outBuf != [] {
      OfferedIsFirst(s.outBuf);
    }
    EmptyFlatten(s.outBuf);
  }

  lemma EmptyFlatten(bufs: seq<Bytes>)
    requires NoneEmpty(bufs)
    ensures Flatten(bufs) == [] <==> bufs == []
  {}

  lemma DisconnectKeeps(f: Config, s: Socket, now: int)
    requires Inv(f, s)
    ensures Inv(f, DisconnectStep(f, s, now))
  {
    hide Flatten, NoneEmpty, Sum;
  }

  lemma AcceptKeeps(f: Config, s: Socket, buf: Bytes, now: int)
    requires Conserved(s) && Awake(s) && ShutOnce(s) && s.disc == None && buf != []
    requires s.overflow.Some? ==> 0 < f.maxBufferSize <= Sum(s.outBuf) + |buf|
    ensures Inv(f, AcceptStep(f, s, buf, now))
  {
    var s1 := s.(outBuf := s.outBuf + [buf], accepted := s.accepted + buf);
    FlattenJoins(s.outBuf, [buf]);
    FlattenOne(buf);
    SumIsLength(s.outBuf);
    SumIsLength(s1.outBuf);
    assert s.sent + (Flatten(s.outBuf) + buf) == s.accepted + buf;
    hide Flatten, Offered, Sum;
    PrepareKeeps(f, s1, now);
  }

  lemma WriteKeeps(f: Config, s: Socket, buf: Bytes, lowPrio: bool, now: int)
    requires Inv(f, s)
    ensures Inv(f, WriteStep(f, s, buf, lowPrio, now))
  {
    hide Conserved, AcceptStep, DisconnectStep;
    if buf != [] && s.disc == None {
      if f.maxBufferSize > 0 && Sum(s.outBuf) + |buf| > f.maxBufferSize {
        if lowPrio {
        } else if s.overflow.Some? && s.overflow.value + f.overflowTimeout < now {
          DisconnectKeeps(f, s, now);
        } else {
          ConservedKept(s, s.(overflow := Some(now)));
          AcceptKeeps(f, s.(overflow := Some(now)), buf, now);
        }
      } else {
        AcceptKeeps(f, s, buf, now);
      }
    }
  }

  lemma ConservedKept(s: Socket, s1: Socket)
    requires Conserved(s) && s1.outBuf == s.outBuf && s1.sent == s.sent && s1.accepted == s.accepted
    requires s1.pending == s.pending && s1.lastWrite == s.lastWrite
    ensures Conserved(s1)
  {}

  lemma CompleteKeeps(f: Config, s: Socket, n: nat, now: int)
    requires Inv(f, s) && s.pending != [] && n <= |s.pending[0]|
    ensures Inv(f, CompleteStep(f, s, n, now))
  {
    var s1 := s.(lastWrite := None, pending := s.pending[1..], sent := s.sent + s.pending[0][..n], outBuf := Drop(s.outBuf, n));
    var s2 := if s1.overflow.Some? && Sum(s1.outBuf) < f.maxBufferSize then s1.(overflow := None) else s1;
    var all := Flatten(s.outBuf);
    DropIsSuffix(s.outBuf, n);
    assert s.pending[0][..n] == all[..n];
    assert s.sent + all[..n] + all[n..] == s.accepted;
    EmptyFlatten(s.outBuf);
    hide Flatten, Drop, Sum, NoneEmpty, Offered;
    if !(s2.disc.Some? && s2.outBuf == []) {
      PrepareKeeps(f, s2, now);
    }
  }

  lemma StepKeeps(f: Config, s: Socket, op: Op)
    requires Inv(f, s) && Enabled(s, op)
    ensures Inv(f, Step(f, s, op))
  {
    hide WriteStep, DisconnectStep, CompleteStep;
    match op
    case Write(buf, lowPrio, now) => WriteKeeps(f, s, buf, lowPrio, now);
    case Disconnect(now) => DisconnectKeeps(f, s, now);
    case Complete(n, now) => CompleteKeeps(f, s, n, now);
    case Fail =>
  }

  /** Every run of every socket. */
  lemma {:induction false} RunKeeps(f: Config, s: Socket, ops: seq<Op>)
    requires Inv(f, s)
    ensures Inv(f, Run(f, s, ops))
    decreases |ops|
  {
    hide Inv, Step;
    if ops != [] {
      if Enabled(s, ops[0]) {
        StepKeeps(f, s, ops[0]);
      }
      RunKeeps(f, Next(f, s, ops[0]), ops[1..]);
    }
  }

  /** All runs from the start. */
  lemma Safety(f: Config, ops: seq<Op>)
    ensures var s := Run(f, OPENED, ops);
      && s.sent + Flatten(s.outBuf) == s.accepted
      && (!s.failed ==> (s.outBuf != [] <==> s.pending != []) && s.shutdowns <= 1 && (s.shutdowns == 1 <==> s.disc.Some? && s.outBuf == []))
      && |s.pending| <= 1 && (s.pending != [] ==> s.pending[0] != [] && s.pending[0] <= Flatten(s.outBuf))
  {
    assert Inv(f, OPENED);
    hide Run, Flatten;
    RunKeeps(f, OPENED, ops);
  }

  // ----- what is accepted ------------------------------------------------------------------------------

  /** Whether a buffer is put into the queue. */
  predicate Accepts(f: Config, s: Socket, buf: Bytes, lowPrio: bool, now: int) {
    && buf != [] && s.disc == None
    && (f.maxBufferSize == 0 || |Flatten(s.outBuf)| + |buf| <= f.maxBufferSize
        || (!lowPrio && (s.overflow == None || now <= s.overflow.value + f.overflowTimeout)))
  }

  /** A buffer is accepted as a whole or not at all. If it is not, although it could be written, and is not of
    * low priority, then the socket has been overflowing for too long, and disconnects. */
  lemma WriteAccepts(f: Config, s: Socket, buf: Bytes, lowPrio: bool, now: int)
    ensures var s1 := WriteStep(f, s, buf, lowPrio, now);
      if Accepts(f, s, buf, lowPrio, now)
      then s1.accepted == s.accepted + buf && s1.outBuf == s.outBuf + [buf]
      else s1.accepted == s.accepted && s1.outBuf == s.outBuf && (buf == [] || lowPrio || s1.disc.Some?)
  {
    SumIsLength(s.outBuf);
    hide Flatten, Offered, Sum;
  }

  // ----- when a socket gives up ------------------------------------------------------------------------

  function Time(op: Op): int { if op.Fail? then 0 else op.now }

  /** The queue has no room for the buffer. */
  predicate TooMuch(f: Config, s: Socket, buf: Bytes) { 0 < f.maxBufferSize < |Flatten(s.outBuf)| + |buf| }

  /** A buffer is accepted although there is no room. */
  predicate Overfills(f: Config, s: Socket, op: Op) {
    op.Write? && TooMuch(f, s, op.buf) && Accepts(f, s, op.buf, op.lowPrio, op.now)
  }

  /** The write under way ends. */
  predicate Completes(s: Socket, op: Op) { (op.Complete? || op.Fail?) && Enabled(s, op) }

  predicate Starts(f: Config, s: Socket, op: Op) {
    Next(f, s, op).pending != [] && (s.pending == [] || Completes(s, op))
  }

  /** The state before the `k`-th operation of a run. */
  function Before(f: Config, ops: seq<Op>, k: nat): Socket
    requires k <= |ops|
  {
    Run(f, OPENED, ops[..k])
  }

  /** The `k`-th operation started the write that is under way. */
  ghost predicate StartedAt(f: Config, ops: seq<Op>, k: int) {
    && 0 <= k < |ops| && Starts(f, Before(f, ops, k), ops[k])
    && forall m :: k < m < |ops| ==> !Completes(Before(f, ops, m), ops[m])
  }

  /** The `k`-th operation was the last one to overfill the queue, which has been full since. */
  ghost predicate OverfullSince(f: Config, ops: seq<Op>, k: int) {
    && 0 <= k < |ops| && Overfills(f, Before(f, ops, k), ops[k])
    && (forall m :: k < m < |ops| ==> !Overfills(f, Before(f, ops, m), ops[m]))
    && forall m :: k < m <= |ops| ==> |Flatten(Before(f, ops, m).outBuf)| >= f.maxBufferSize
  }

  lemma {:induction false} RunMore(f: Config, s: Socket, ops: seq<Op>, op: Op)
    ensures Run(f, s, ops + [op]) == Next(f, Run(f, s, ops), op)
    decreases |ops|
  {
    hide Next;
    if ops == [] {
      assert Run(f, Next(f, s, op), [op][1..]) == Next(f, s, op);
    } else {
      assert (ops + [op])[1..] == ops[1..] + [op];
      RunMore(f, Next(f, s, ops[0]), ops[1..], op);
    }
  }

  lemma PrepareClock(f: Config, s: Socket, now: int)
    ensures var s1 := PrepareWriteStep(f, s, now);
      && s1.outBuf == s.outBuf && s1.overflow == s.overflow
      && s1.lastWrite == if s.lastWrite == None && s.outBuf != [] then Some(now) else s.lastWrite
  {}

  /** What an operation does to the time of the write under way. */
  lemma WriteClock(f: Config, s: Socket, op: Op)
    requires Inv(f, s)
    ensures Next(f, s, op).lastWrite ==
      if Starts(f, s, op) then Some(Time(op)) else if Completes(s, op) then None else s.lastWrite
  {
    if Enabled(s, op) {
      StepKeeps(f, s, op);
    }
    hide Sum, Drop, Offered, Flatten, NoneEmpty;
  }

  /** What an operation does to the time of the overflow. */
  lemma OverflowClock(f: Config, s: Socket, op: Op)
    requires Inv(f, s)
    ensures var s1 := Next(f, s, op);
      && s1.overflow == (
        if Overfills(f, s, op) then Some(op.now)
        else if |Flatten(s1.outBuf)| >= f.maxBufferSize then s.overflow else None)
      && (Overfills(f, s, op) ==> |Flatten(s1.outBuf)| >= f.maxBufferSize)
  {
    var s1 := Next(f, s, op);
    SumIsLength(s.outBuf);
    SumIsLength(s1.outBuf);
    if Enabled(s, op) {
      StepKeeps(f, s, op);
    }
    if op.Write? {
      FlattenJoins(s.outBuf, [op.buf]);
      FlattenOne(op.buf);
    }
    hide Sum, Drop, Offered, Flatten, NoneEmpty;
  }

  /** The times that a socket keeps, on every run: when the write under way was started, and when the queue was
    * overfilled last. */
  lemma {:induction false} Clocks(f: Config, ops: seq<Op>)
    ensures var s := Run(f, OPENED, ops);
      && (forall k :: StartedAt(f, ops, k) ==> s.lastWrite == Some(Time(ops[k])))
      && (s.lastWrite.Some? ==> exists k :: StartedAt(f, ops, k))
      && (forall k :: OverfullSince(f, ops, k) ==> s.overflow == Some(Time(ops[k])))
      && (s.overflow.Some? ==> exists k :: OverfullSince(f, ops, k))
    decreases |ops|
  {
    if ops != [] {
      var n := |ops| - 1;
      var init, op := ops[..n], ops[n];
      assert ops == init + [op];
      RunMore(f, OPENED, init, op);
      assert Inv(f, OPENED);
      RunKeeps(f, OPENED, init);
      hide Inv, Run, Next, Starts, Completes, Overfills, Flatten;
      var s := Run(f, OPENED, init);
      WriteClock(f, s, op);
      OverflowClock(f, s, op);
      Clocks(f, init);
      StartedMore(f, init, op);
      OverfullMore(f, init, op);
      hide StartedAt, OverfullSince;
      if Run(f, OPENED, ops).lastWrite.Some? {
        if Starts(f, s, op) {
          assert StartedAt(f, ops, n);
        } else {
          var k :| StartedAt(f, init, k);
          assert StartedAt(f, ops, k);
        }
      }
      if Run(f, OPENED, ops).overflow.Some? {
        if Overfills(f, s, op) {
          assert OverfullSince(f, ops, n);
        } else {
          var k :| OverfullSince(f, init, k);
          assert OverfullSince(f, ops, k);
        }
      }
    }
  }

  lemma BeforeMore(f: Config, init: seq<Op>, op: Op)
    ensures forall m :: 0 <= m <= |init| ==> Before(f, init + [op], m) == Before(f, init, m)
    ensures forall m :: 0 <= m < |init| ==> (init + [op])[m] == init[m]
    ensures Before(f, init, |init|) == Run(f, OPENED, init)
    ensures Before(f, init + [op], |init| + 1) == Run(f, OPENED, init + [op])
  {
    var ops, n := init + [op], |init|;
    hide Run;
    assert forall m :: 0 <= m <= n ==> ops[..m] == init[..m];
    assert init[..n] == init && ops[..n + 1] == ops;
  }

  lemma StartedMore(f: Config, init: seq<Op>, op: Op)
    ensures var s := Run(f, OPENED, init);
      forall k :: StartedAt(f, init + [op], k) <==>
        if k == |init| then Starts(f, s, op) else StartedAt(f, init, k) && !Completes(s, op)
  {
    var ops, n := init + [op], |init|;
    hide Run, Before, Starts, Completes;
    BeforeMore(f, init, op);
    forall k | 0 <= k < n
      ensures StartedAt(f, ops, k) <==> StartedAt(f, init, k) && !Completes(Run(f, OPENED, init), op)
    {
      assert ops[n] == op;
    }
  }

  lemma OverfullMore(f: Config, init: seq<Op>, op: Op)
    ensures var s, s1 := Run(f, OPENED, init), Run(f, OPENED, init + [op]);
      forall k :: OverfullSince(f, init + [op], k) <==>
        && |Flatten(s1.outBuf)| >= f.maxBufferSize
        && if k == |init| then Overfills(f, s, op) else OverfullSince(f, init, k) && !Overfills(f, s, op)
  {
    var ops, n := init + [op], |init|;
    hide Run, Before, Overfills, Flatten;
    BeforeMore(f, init, op);
    forall k | 0 <= k < n
      ensures OverfullSince(f, ops, k) <==>
        && |Flatten(Run(f, OPENED, ops).outBuf)| >= f.maxBufferSize
        && OverfullSince(f, init, k) && !Overfills(f, Run(f, OPENED, init), op)
    {
      assert ops[n] == op;
    }
  }

  /** On every run, a call of `write` makes the socket disconnect if and only if the buffer would overfill the
    * queue again too long after the last time it did, or it is accepted and the write under way was started more
    * than a minute before. */
  lemma GivesUp(f: Config, ops: seq<Op>, buf: Bytes, lowPrio: bool, now: int)
    requires buf != [] && Run(f, OPENED, ops).disc == None
    ensures var s := Run(f, OPENED, ops);
      var s1 := WriteStep(f, s, buf, lowPrio, now);
      && (s1.disc.Some? <==>
        || (TooMuch(f, s, buf) && !lowPrio
            && exists k :: OverfullSince(f, ops, k) && now > Time(ops[k]) + f.overflowTimeout)
        || (Accepts(f, s, buf, lowPrio, now) && exists k :: StartedAt(f, ops, k) && now > Time(ops[k]) + 60000))
      && (s1.disc.Some? ==> s1.disc == Some(now + f.disconnectTimeout))
  {
    Clocks(f, ops);
    SumIsLength(Run(f, OPENED, ops).outBuf);
    hide Run, StartedAt, OverfullSince, Sum, Flatten, Offered;
  }

  /** Nothing else makes a socket disconnect, but the hub's own call. */
  lemma OnlyGivesUp(f: Config, s: Socket, op: Op)
    ensures s.disc.Some? ==> Next(f, s, op).disc == s.disc
    ensures s.disc == None && Next(f, s, op).disc.Some? ==> op.Disconnect? || op.Write?
  {
    hide Sum, Drop, Offered;
  }

  /** The time of the overflow is that of its last buffer, not that of its first: as long as buffers come often
    * enough, a queue may be too full for longer than the time allowed. Here it is 10, and has been so for 20. */
  lemma OverflowStartsAgain()
    ensures var f := Config(1, 10, 0);
      var first, again, last := Write([0], false, 0), Write([0], false, 10), Write([0], false, 20);
      && OverfullSince(f, [first, first], 1)
      && var s := Run(f, OPENED, [first, first] + [again] + [last]);
        s.disc == None && s.overflow == Some(20) && |Flatten(s.outBuf)| == 4
  {
    var f := Config(1, 10, 0);
    var first, again, last := Write([0], false, 0), Write([0], false, 10), Write([0], false, 20);
    var s1 := Next(f, OPENED, first);
    var s2 := Next(f, s1, first);
    var s3 := Next(f, s2, again);
    var s4 := Next(f, s3, last);
    FirstWrite(f, first);
    RunMore(f, OPENED, [], first);
    RunMore(f, OPENED, [first], first);
    RunMore(f, OPENED, [first, first], again);
    RunMore(f, OPENED, [first, first] + [again], last);
    assert [] + [first] == [first] && [first] + [first] == [first, first];
    hide Next, Flatten, Run, OPENED;
    StaysUp(f, s1, first);
    StaysUp(f, s2, again);
    StaysUp(f, s3, last);
    BeforeMore(f, [first], first);
    assert Before(f, [first, first], 2) == s2;
  }

  lemma FirstWrite(f: Config, op: Op)
    requires op.Write? && |op.buf| == f.maxBufferSize == 1
    ensures var s := Next(f, OPENED, op);
      s.disc == None && s.overflow == None && s.lastWrite == Some(op.now) && |Flatten(s.outBuf)| == 1
  {
    FlattenOne(op.buf);
    SumIsLength([op.buf]);
    assert [] + [op.buf] == [op.buf];
    hide Offered;
  }

  /** One buffer more for a queue that is too full, in time. */
  lemma StaysUp(f: Config, s: Socket, op: Op)
    requires Overfills(f, s, op) && s.lastWrite.Some? && op.now <= s.lastWrite.value + WRITE_TIMEOUT
    ensures var s1 := Next(f, s, op);
      && s1.disc == None && s1.overflow == Some(op.now) && s1.lastWrite == s.lastWrite
      && |Flatten(s1.outBuf)| == |Flatten(s.outBuf)| + |op.buf|
  {
    SumIsLength(s.outBuf);
    FlattenJoins(s.outBuf, [op.buf]);
    FlattenOne(op.buf);
    hide Flatten, Sum, Offered;
  }

  /** When every write completes, all that was accepted is sent, and a socket that disconnects is shut down. */
  function Drained(f: Config, s: Socket, now: int): Socket
    decreases Sum(s.outBuf)
  {
    if s.pending == [] then s
    else
      var s1 := CompleteStep(f, s, |s.pending[0]|, now);
      if Sum(s1.outBuf) < Sum(s.outBuf) then Drained(f, s1, now) else s1
  }

  lemma {:induction false} DrainEnds(f: Config, s: Socket, now: int)
    requires Inv(f, s) && !s.failed
    ensures var r := Drained(f, s, now);
      r.outBuf == [] && r.sent == s.accepted && r.disc == s.disc && r.shutdowns == if s.disc.Some? then 1 else 0
    decreases Sum(s.outBuf)
  {
    SumIsLength(s.outBuf);
    EmptyFlatten(s.outBuf);
    if s.pending != [] {
      var n := |s.pending[0]|;
      var s1 := CompleteStep(f, s, n, now);
      CompleteKeeps(f, s, n, now);
      CompleteSends(f, s, n, now);
      SumIsLength(s1.outBuf);
      hide Sum, Flatten, CompleteStep, Inv;
      DrainEnds(f, s1, now);
    } else {
      assert s.sent + [] == s.sent;
    }
  }

  lemma CompleteSends(f: Config, s: Socket, n: nat, now: int)
    requires Inv(f, s) && s.pending != [] && n <= |s.pending[0]|
    ensures var s1 := CompleteStep(f, s, n, now);
      |Flatten(s1.outBuf)| == |Flatten(s.outBuf)| - n && s1.disc == s.disc && s1.accepted == s.accepted && s1.failed == s.failed
  {
    DropIsSuffix(s.outBuf, n);
    hide Flatten, Drop, Sum, NoneEmpty, Offered;
  }

  // ----- the classes -----------------------------------------------------------------------------------

  lemma {:induction false} SumJoins(a: seq<Bytes>, b: seq<Bytes>)
    ensures Sum(a + b) == Sum(a) + Sum(b)
  {
    if a == [] {
      assert a + b == b;
    } else {
      assert (a + b)[1..] == a[1..] + b;
      SumJoins(a[1..], b);
    }
  }

  /** One buffer more is gathered. */
  lemma GatherMore(bufs: seq<Bytes>, i: nat)
    requires i < |bufs|
    ensures var x, y := Flatten(bufs[..i]), bufs[i];
      var z, taken := Flatten(bufs[..i + 1]), Min(|x|, MAX_BYTES);
      z[..Min(|z|, MAX_BYTES)] == x[..taken] + y[..Min(|y|, MAX_BYTES - taken)]
  {
    FlattenJoins(bufs[..i], [bufs[i]]);
    FlattenOne(bufs[i]);
    assert bufs[..i + 1] == bufs[..i] + [bufs[i]];
    hide Flatten;
  }

  /** Nothing is gathered beyond the limit. */
  lemma GatherEnough(bufs: seq<Bytes>, i: nat, n: nat)
    requires i <= n <= |bufs| && |Flatten(bufs[..i])| >= MAX_BYTES
    ensures |Flatten(bufs[..n])| >= MAX_BYTES && Flatten(bufs[..n])[..MAX_BYTES] == Flatten(bufs[..i])[..MAX_BYTES]
  {
    assert bufs[..n] == bufs[..i] + bufs[i..n];
    FlattenJoins(bufs[..i], bufs[i..n]);
    hide Flatten;
  }

  /** The stream of a socket. */
  class SocketStream {
    /** What it has been asked to write and has not completed. */
    var pending: seq<Bytes>
    var shutdowns: nat

    constructor ()
      ensures pending == [] && shutdowns == 0
    {
      pending, shutdowns := [], 0;
    }

    /** `write`: a limited number of bytes from a limited number of buffers. Another write must not be under way. */
    method Write(bufs: seq<Bytes>)
      requires bufs != [] && pending == []
      modifies this`pending
      ensures pending == [Offered(bufs)]
    {
      if |bufs| == 1 {
        pending := pending + [bufs[0]];
      } else {
        var n := Min(|bufs|, MAX_BUFFERS);
        var buffers: Bytes := [];
        var i, total := 0, 0;
        hide Flatten;
        NoneFlattened(bufs);
        while i < n && total < MAX_BYTES
          invariant i <= n && total == |buffers| <= MAX_BYTES && pending == []
          invariant buffers == Flatten(bufs[..i])[..Min(|Flatten(bufs[..i])|, MAX_BYTES)]
        {
          GatherMore(bufs, i);
          var left := MAX_BYTES - total;
          var bytes := Min(|bufs[i]|, left);
          buffers := buffers + bufs[i][..bytes];
          total := total + bytes;
          i := i + 1;
        }
        if i < n {
          GatherEnough(bufs, i, n);
        }
        pending := pending + [buffers];
      }
    }

    method Shutdown()
      modifies this`shutdowns
      ensures shutdowns == old(shutdowns) + 1
    {
      shutdowns := shutdowns + 1;
    }
  }

  lemma ConservedInv(f: Config, s: Socket)
    requires Inv(f, s)
    ensures |s.pending| <= 1 && (s.pending != [] <==> s.lastWrite.Some?)
  {}

  lemma PendingFits(f: Config, s: Socket)
    requires Inv(f, s)
    ensures s.pending != [] ==> |s.pending[0]| <= Sum(s.outBuf)
  {
    SumIsLength(s.outBuf);
  }

  lemma NoneFlattened(bufs: seq<Bytes>)
    ensures Flatten(bufs[..0]) == []
  {}

  class ManagedSocket {
    const f: Config
    const sock: SocketStream
    var outBuf: seq<Bytes>
    var overflow: Option<int>
    var disc: Option<int>
    var lastWrite: Option<int>
    var failed: bool
    ghost var sent: Bytes
    ghost var accepted: Bytes

    ghost function Value(): Socket
      reads this, sock
    {
      Socket(outBuf, overflow, disc, lastWrite, sock.pending, sock.shutdowns, failed, sent, accepted)
    }

    /** A write is under way if and only if its time is known, and there is one at most. */
    ghost predicate OneWrite()
      reads this, sock
    {
      |sock.pending| <= 1 && (sock.pending != [] <==> lastWrite.Some?)
    }

    constructor (f: Config)
      ensures Value() == OPENED && this.f == f && fresh(sock)
    {
      this.f := f;
      sock := new SocketStream();
      outBuf, overflow, disc, lastWrite, failed, sent, accepted := [], None, None, None, false, [], [];
    }

    /** `getQueuedBytes` */
    method GetQueuedBytes() returns (bytes: nat)
      ensures bytes == Sum(outBuf) == |Flatten(outBuf)|
    {
      bytes := 0;
      for i := 0 to |outBuf|
        invariant bytes == Sum(outBuf[..i])
      {
        assert outBuf[..i + 1] == outBuf[..i] + [outBuf[i]];
        SumJoins(outBuf[..i], [outBuf[i]]);
        bytes := bytes + |outBuf[i]|;
      }
      assert outBuf[..|outBuf|] == outBuf;
      SumIsLength(outBuf);
    }

    /** `write` */
    method Write(buf: Bytes, lowPrio: bool, now: int)
      requires OneWrite()
      modifies this`outBuf, this`overflow, this`disc, this`lastWrite, this`accepted, sock
      ensures OneWrite()
      ensures Value() == WriteStep(f, old(Value()), buf, lowPrio, now)
    {
      hide Sum, Flatten, Offered;
      if |buf| == 0 || disc.Some? {
        return;
      }
      var queued := GetQueuedBytes();
      if f.maxBufferSize > 0 && queued + |buf| > f.maxBufferSize {
        if lowPrio {
          return;
        }
        if overflow.Some? && overflow.value + f.overflowTimeout < now {
          Disconnect(now);
          return;
        }
        overflow := Some(now);
      }
      outBuf := outBuf + [buf];
      accepted := accepted + buf;
      PrepareWrite(now);
    }

    /** `prepareWrite`: a write that has been under way for too long is the end. */
    method PrepareWrite(now: int)
      requires OneWrite()
      modifies this`lastWrite, this`disc, sock
      ensures OneWrite()
      ensures Value() == PrepareWriteStep(f, old(Value()), now)
    {
      if lastWrite == None {
        if outBuf != [] {
          lastWrite := Some(now);
          sock.Write(outBuf);
        }
      } else if now > lastWrite.value + WRITE_TIMEOUT {
        Disconnect(now);
      }
    }

    /** `disconnect` */
    method Disconnect(now: int)
      requires OneWrite()
      modifies this`disc, sock
      ensures OneWrite()
      ensures Value() == DisconnectStep(f, old(Value()), now)
    {
      if disc.Some? {
        return;
      }
      disc := Some(now + f.disconnectTimeout);
      if lastWrite == None {
        sock.Shutdown();
      }
    }

    /** `completeWrite` without an error. */
    method CompleteWrite(n: nat, now: int)
      requires OneWrite() && sock.pending != [] && n <= |sock.pending[0]| && n <= Sum(outBuf)
      modifies this`lastWrite, this`outBuf, this`overflow, this`disc, this`sent, sock
      ensures OneWrite()
      ensures Value() == CompleteStep(f, old(Value()), n, now)
    {
      hide Sum, Flatten, Offered, Drop;
      sent := sent + sock.pending[0][..n];
      sock.pending := sock.pending[1..];
      lastWrite := None;
      EraseSent(n);
      if overflow.Some? {
        var left := GetQueuedBytes();
        if left < f.maxBufferSize {
          overflow := None;
        }
      }
      if disc.Some? && outBuf == [] {
        sock.Shutdown();
      } else {
        PrepareWrite(now);
      }
    }

    /** The loop of `completeWrite`: the bytes written leave the queue. */
    method EraseSent(n: nat)
      requires n <= Sum(outBuf)
      modifies this`outBuf
      ensures outBuf == Drop(old(outBuf), n)
    {
      var bytes := n;
      while bytes > 0
        invariant 0 <= bytes <= Sum(outBuf) && Drop(outBuf, bytes) == Drop(old(outBuf), n)
        decreases |outBuf|, bytes
      {
        if |outBuf[0]| <= bytes {
          bytes := bytes - |outBuf[0]|;
          outBuf := outBuf[1..];
        } else {
          outBuf := [outBuf[0][bytes..]] + outBuf[1..];
          bytes := 0;
        }
      }
    }

    /** `completeWrite` with an error: the failure is reported. */
    method CompleteFailed()
      requires sock.pending != []
      modifies this`lastWrite, this`failed, sock
      ensures Value() == FailStep(old(Value()))
    {
      sock.pending := sock.pending[1..];
      lastWrite := None;
      failed := true;
    }

    /** Any sequence of calls and completions: the socket goes through the steps of the run. */
    method Runs(ops: seq<Op>)
      modifies this, sock
      requires Inv(f, Value())
      ensures Value() == Run(f, old(Value()), ops) && Inv(f, Value())
    {
      hide Inv, WriteStep, CompleteStep, DisconnectStep, FailStep;
      var i := 0;
      while i < |ops|
        invariant i <= |ops| && Inv(f, Value()) && Run(f, Value(), ops[i..]) == Run(f, old(Value()), ops)
      {
        assert ops[i..][1..] == ops[i + 1..];
        PendingFits(f, Value());
        assert OneWrite() by { ConservedInv(f, Value()); }
        if Enabled(Value(), ops[i]) {
          StepKeeps(f, Value(), ops[i]);
        }
        match ops[i] {
          case Write(buf, lowPrio, now) => Write(buf, lowPrio, now);
          case Disconnect(now) => Disconnect(now);
          case Complete(n, now) =>
            if sock.pending != [] && n <= |sock.pending[0]| {
              CompleteWrite(n, now);
            }
          case Fail =>
            if sock.pending != [] {
              CompleteFailed();
            }
        }
        i := i + 1;
      }
    }
  }
}
