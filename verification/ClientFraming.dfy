/** A client of the hub: the stream of bytes is cut into commands and data, however it arrives. */
module ClientFraming {
  import opened AdcCommands

  datatype Reason = MaxCommandSize | InvalidSid | Handler

  /** What a client tells the rest of the hub. An empty line is not told to anyone, but it is an event here. */
  datatype Event =
    | Received(line: Bytes, command: Command)
    | BadLine(line: Bytes)
    | Skipped
    | Data(byte: bv8)
    | Disconnected(reason: Reason)

  /** What the hub does with the client when it is told of a line. */
  datatype Reaction = Reaction(disconnect: bool, dataMode: Option<int>)

  /** What does not change: the hub's limit on the size of a command, the client's identifier, and the hub's
    * reaction, which may depend on all that it has been told. */
  datatype Config = Config(maxSize: nat, sid: Bytes, react: seq<Event> -> Reaction)

  datatype State = State(buffer: Bytes, dataBytes: int, disconnecting: bool, log: seq<Event>)

  const FRESH := State([], 0, false, [])

  // ----- one byte at a time ----------------------------------------------------------------------------

  ghost function Feed(f: Config, s: State, b: bv8): State {
    if s.disconnecting then s
    else if s.dataBytes > 0 then s.(dataBytes := s.dataBytes - 1, log := s.log + [Data(b)])
    else if b != LF then s.(buffer := s.buffer + [b])
    else LineEnd(f, s.(buffer := s.buffer + [b]))
  }

  /** The buffer holds a line. */
  ghost function LineEnd(f: Config, s: State): State {
    if f.maxSize > 0 && |s.buffer| > f.maxSize then Cut(s, MaxCommandSize)
    else if |s.buffer| == 1 then s.(buffer := [], log := s.log + [Skipped])
    else
      match ParseLine(BLANK, s.buffer)
      case Err(_) => Told(f, s, BadLine(s.buffer)).(buffer := [])
      case Ok(c) =>
        if c.kind == TYPE_HUB then Told(f, s, Received(s.buffer, c.(from := f.sid))).(buffer := [])
        else if c.from != f.sid then Cut(s, InvalidSid)
        else Told(f, s, Received(s.buffer, c)).(buffer := [])
  }

  function Cut(s: State, reason: Reason): State {
    if s.disconnecting then s else s.(disconnecting := true, log := s.log + [Disconnected(reason)])
  }

  /** The hub is told of a line, and reacts. */
  function Told(f: Config, s: State, e: Event): State {
    var log := s.log + [e];
    var r := f.react(log);
    var s1 := s.(log := log, dataBytes := if r.dataMode.Some? then r.dataMode.value else s.dataBytes);
    if r.disconnect then Cut(s1, Handler) else s1
  }

  ghost function FeedAll(f: Config, s: State, data: Bytes): State
    decreases |data|
  {
    if data == [] then s else FeedAll(f, Feed(f, s, data[0]), data[1..])
  }

  // ----- how the stream is cut does not matter ---------------------------------------------------------

  lemma {:induction false} FeedJoins(f: Config, s: State, a: Bytes, b: Bytes)
    ensures FeedAll(f, FeedAll(f, s, a), b) == FeedAll(f, s, a + b)
    decreases |a|
  {
    if a == [] {
      assert a + b == b;
    } else {
      assert (a + b)[1..] == a[1..] + b;
      FeedJoins(f, Feed(f, s, a[0]), a[1..], b);
    }
  }

  function Flatten(chunks: seq<Bytes>): Bytes {
    if chunks == [] then [] else chunks[0] + Flatten(chunks[1..])
  }

  lemma {:induction false} FeedIgnored(f: Config, s: State, a: Bytes)
    requires s.disconnecting || a == []
    ensures FeedAll(f, s, a) == s
    decreases |a|
  {
    if a != [] {
      FeedIgnored(f, s, a[1..]);
    }
  }

  /** Within a line bytes only pile up. The limit on the size is not tested before the line ends. */
  lemma {:induction false} FeedWithinLine(f: Config, s: State, a: Bytes)
    requires !s.disconnecting && s.dataBytes <= 0 && LF !in a
    ensures FeedAll(f, s, a) == s.(buffer := s.buffer + a)
    decreases |a|
  {
    if a == [] {
      assert s.buffer + a == s.buffer;
    } else {
      assert a == [a[0]] + a[1..];
      FeedWithinLine(f, Feed(f, s, a[0]), a[1..]);
      assert s.buffer + [a[0]] + a[1..] == s.buffer + a;
    }
  }

  /** The limit on the size holds for the bytes kept of a line if and only if they were few enough: nothing else
    * sees to it. */
  lemma SizeWithinLine(f: Config, s: State, a: Bytes)
    requires !s.disconnecting && s.dataBytes <= 0 && LF !in a
    ensures var s1 := FeedAll(f, s, a);
      !s1.disconnecting && (|s1.buffer| <= f.maxSize <==> |s.buffer| + |a| <= f.maxSize)
  {
    FeedWithinLine(f, s, a);
    hide FeedAll;
  }

  /** With a limit of one byte, two are kept. */
  lemma LongLineKept(f: Config)
    requires f.maxSize == 1
    ensures |FeedAll(f, FRESH, [0x42, 0x42]).buffer| > f.maxSize
  {
    SizeWithinLine(f, FRESH, [0x42, 0x42]);
  }

  function DataEvents(a: Bytes): (r: seq<Event>)
    ensures |r| == |a|
  {
    if a == [] then [] else [Data(a[0])] + DataEvents(a[1..])
  }

  lemma {:induction false} FeedData(f: Config, s: State, a: Bytes)
    requires !s.disconnecting && |a| <= s.dataBytes
    ensures FeedAll(f, s, a) == s.(dataBytes := s.dataBytes - |a|, log := s.log + DataEvents(a))
    decreases |a|
  {
    if a == [] {
      assert s.log + [] == s.log;
    } else {
      hide LineEnd;
      FeedData(f, Feed(f, s, a[0]), a[1..]);
      LogMore(s.log, Data(a[0]), DataEvents(a[1..]));
    }
  }

  lemma LogMore(log: seq<Event>, e: Event, rest: seq<Event>)
    ensures log + [e] + rest == log + ([e] + rest)
  {}

  // ----- what holds on every run -----------------------------------------------------------------------

  /** The bytes that an event stands for. */
  function RawOf(e: Event): Bytes {
    match e
    case Received(line, _) => line
    case BadLine(line) => line
    case Skipped => [LF]
    case Data(b) => [b]
    case Disconnected(_) => []
  }

  function Raw(log: seq<Event>): Bytes
    decreases |log|
  {
    if log == [] then [] else Raw(log[..|log| - 1]) + RawOf(log[|log| - 1])
  }

  /** A line of the stream: it ends at its only line feed. */
  predicate Line(line: Bytes) { line != [] && line[|line| - 1] == LF && LF !in line[..|line| - 1] }

  /** Lines that are told to the hub: neither empty nor too long, and read as the parser reads them; a command
    * always bears the client's identifier. */
  ghost predicate Proper(f: Config, e: Event) {
    match e
    case Received(line, c) =>
      && Line(line) && 1 < |line| && (f.maxSize > 0 ==> |line| <= f.maxSize)
      && c.from == f.sid
      && ParseLine(BLANK, line).Ok?
      && var d := ParseLine(BLANK, line).value; c == d || (d.kind == TYPE_HUB && c == d.(from := f.sid))
    case BadLine(line) => Line(line) && 1 < |line| && (f.maxSize > 0 ==> |line| <= f.maxSize) && ParseLine(BLANK, line).Err?
    case _ => true
  }

  /** A disconnection is the last event, and there is one exactly if the client is disconnecting. */
  predicate EndsOnce(s: State) {
    && (forall i :: 0 <= i < |s.log| - 1 ==> !s.log[i].Disconnected?)
    && (s.disconnecting <==> s.log != [] && s.log[|s.log| - 1].Disconnected?)
  }

  predicate IsTold(e: Event) { e.Received? || e.BadLine? }

  /** What the client is disconnected for: the line in the buffer, which is too long or bears the identifier of
    * another, or else the hub's reaction to the last line it was told of. */
  ghost predicate Deserved(f: Config, s: State, reason: Reason) {
    match reason
    case MaxCommandSize => Line(s.buffer) && 0 < f.maxSize < |s.buffer|
    case InvalidSid =>
      && Line(s.buffer) && 1 < |s.buffer| && (f.maxSize > 0 ==> |s.buffer| <= f.maxSize)
      && ParseLine(BLANK, s.buffer).Ok?
      && var c := ParseLine(BLANK, s.buffer).value; c.kind != TYPE_HUB && c.from != f.sid
    case Handler =>
      && |s.log| >= 2 && IsTold(s.log[|s.log| - 2]) && f.react(s.log[..|s.log| - 1]).disconnect
  }

  /** The hub wants the client disconnected, having been told of the `i`-th event. */
  predicate Wanted(f: Config, log: seq<Event>, i: int) {
    0 <= i < |log| && IsTold(log[i]) && f.react(log[..i + 1]).disconnect
  }

  /** How many data bytes are still to come, after these events: what the hub asked for last, less those that
    * came. */
  function ToCome(f: Config, log: seq<Event>): int
    decreases |log|
  {
    if log == [] then 0
    else
      var before, e := ToCome(f, log[..|log| - 1]), log[|log| - 1];
      if e.Data? then before - 1
      else if IsTold(e) && f.react(log).dataMode.Some? then f.react(log).dataMode.value
      else before
  }

  /** Bytes are told as data exactly while data are to come. */
  predicate InMode(f: Config, log: seq<Event>, i: int)
    requires 0 <= i < |log|
  {
    && (log[i].Data? ==> ToCome(f, log[..i]) > 0)
    && (IsTold(log[i]) || log[i] == Skipped ==> ToCome(f, log[..i]) <= 0)
  }

  ghost predicate DataInMode(f: Config, s: State) {
    && s.dataBytes == ToCome(f, s.log)
    && forall i :: 0 <= i < |s.log| ==> InMode(f, s.log, i)
  }

  /** The client is disconnected only for a reason, and at once if the hub wants it. */
  ghost predicate Justified(f: Config, s: State) {
    && (s.log != [] && s.log[|s.log| - 1].Disconnected? ==> Deserved(f, s, s.log[|s.log| - 1].reason))
    && forall i :: Wanted(f, s.log, i) ==> i + 2 == |s.log| && s.log[i + 1] == Disconnected(Handler)
  }

  ghost predicate AllProper(f: Config, log: seq<Event>) { forall i :: 0 <= i < |log| ==> Proper(f, log[i]) }

  /** The buffer holds the beginning of a line, and no line is begun in data mode. */
  predicate Begun(s: State) { !s.disconnecting ==> LF !in s.buffer && (s.dataBytes > 0 ==> s.buffer == []) }

  /** What has been told and what is in the buffer are the bytes that came, in order, each once; after a
    * disconnection, the first of them. */
  ghost predicate Conserved(s: State, fed: Bytes) {
    Raw(s.log) + s.buffer <= fed && (!s.disconnecting ==> Raw(s.log) + s.buffer == fed)
  }

  ghost predicate Inv(f: Config, s: State, fed: Bytes) {
    AllProper(f, s.log) && EndsOnce(s) && Justified(f, s) && DataInMode(f, s) && Begun(s) && Conserved(s, fed)
  }

  lemma RawMore(log: seq<Event>, e: Event)
    ensures Raw(log + [e]) == Raw(log) + RawOf(e)
  {
    assert (log + [e])[..|log|] == log;
  }

  lemma EndOfLine(buffer: Bytes)
    requires LF !in buffer
    ensures Line(buffer + [LF])
  {
    assert (buffer + [LF])[..|buffer|] == buffer;
  }

  lemma ProperMore(f: Config, log: seq<Event>, e: Event)
    requires AllProper(f, log) && Proper(f, e)
    ensures AllProper(f, log + [e])
  {
    hide Proper;
  }

  lemma TellProper(f: Config, s: State, e: Event)
    requires AllProper(f, s.log) && Proper(f, e)
    ensures AllProper(f, Told(f, s, e).log)
  {
    ProperMore(f, s.log, e);
    ProperMore(f, s.log + [e], Disconnected(Handler));
    hide AllProper, Proper;
  }

  lemma FeedProper(f: Config, s: State, b: bv8)
    requires AllProper(f, s.log) && Begun(s)
    ensures AllProper(f, Feed(f, s, b).log)
  {
    hide AllProper, Told, ParseLine;
    if !s.disconnecting && s.dataBytes > 0 {
      ProperMore(f, s.log, Data(b));
    } else if !s.disconnecting && b == LF {
      var line := s.buffer + [LF];
      EndOfLine(s.buffer);
      hide Line;
      ProperMore(f, s.log, Disconnected(MaxCommandSize));
      ProperMore(f, s.log, Disconnected(InvalidSid));
      ProperMore(f, s.log, Skipped);
      if |line| > 1 && !(f.maxSize > 0 && |line| > f.maxSize) {
        match ParseLine(BLANK, line)
        case Err(_) => TellProper(f, s.(buffer := line), BadLine(line));
        case Ok(c) =>
          if c.kind == TYPE_HUB {
            TellProper(f, s.(buffer := line), Received(line, c.(from := f.sid)));
          } else if c.from == f.sid {
            TellProper(f, s.(buffer := line), Received(line, c));
          }
      }
    }
  }

  lemma FeedEndsOnce(f: Config, s: State, b: bv8)
    requires EndsOnce(s)
    ensures EndsOnce(Feed(f, s, b))
  {
    hide ParseLine;
  }

  /** An event that asks for nothing. */
  lemma QuietJustified(f: Config, s: State, s1: State, e: Event)
    requires Justified(f, s) && EndsOnce(s) && !s.disconnecting && s1.log == s.log + [e] && !IsTold(e)
    requires e.Disconnected? ==> e.reason != Handler && Deserved(f, s1, e.reason)
    ensures Justified(f, s1)
  {
    hide Deserved;
    forall i | Wanted(f, s1.log, i)
      ensures Wanted(f, s.log, i)
    {
      assert s1.log[..i + 1] == s.log[..i + 1];
    }
  }

  lemma TellJustified(f: Config, s: State, e: Event)
    requires Justified(f, s) && EndsOnce(s) && !s.disconnecting && IsTold(e)
    ensures Justified(f, Told(f, s, e).(buffer := []))
  {
    var s1, log := Told(f, s, e), s.log + [e];
    forall i | Wanted(f, s1.log, i)
      ensures i + 2 == |s1.log| && s1.log[i + 1] == Disconnected(Handler)
    {
      if i < |s.log| {
        assert s1.log[..i + 1] == s.log[..i + 1];
        assert Wanted(f, s.log, i);
      } else {
        assert s1.log[..|log|] == log;
      }
    }
    assert s1.log[..|log|] == log;
  }

  lemma FeedJustified(f: Config, s: State, b: bv8)
    requires Justified(f, s) && EndsOnce(s) && Begun(s)
    ensures Justified(f, Feed(f, s, b))
  {
    hide Justified, EndsOnce, Told, ParseLine;
    if !s.disconnecting && s.dataBytes > 0 {
      QuietJustified(f, s, Feed(f, s, b), Data(b));
    } else if !s.disconnecting {
      SameJustified(f, s, s.buffer + [b]);
      if b == LF {
        EndOfLine(s.buffer);
        LineJustified(f, s.(buffer := s.buffer + [LF]));
      }
    }
  }

  lemma SameJustified(f: Config, s: State, buffer: Bytes)
    requires Justified(f, s) && EndsOnce(s) && !s.disconnecting
    ensures Justified(f, s.(buffer := buffer)) && EndsOnce(s.(buffer := buffer))
  {}

  lemma LineJustified(f: Config, s: State)
    requires Justified(f, s) && EndsOnce(s) && !s.disconnecting && Line(s.buffer)
    ensures Justified(f, LineEnd(f, s))
  {
    hide Justified, EndsOnce, Told, ParseLine, Line;
    var s1 := LineEnd(f, s);
    if f.maxSize > 0 && |s.buffer| > f.maxSize {
      QuietJustified(f, s, s1, Disconnected(MaxCommandSize));
    } else if |s.buffer| == 1 {
      QuietJustified(f, s, s1, Skipped);
    } else {
      assert |s.buffer| > 1 by { assert s.buffer != [] by { LineNotEmpty(s.buffer); } }
      match ParseLine(BLANK, s.buffer)
      case Err(_) => TellJustified(f, s, BadLine(s.buffer));
      case Ok(c) =>
        if c.kind == TYPE_HUB {
          TellJustified(f, s, Received(s.buffer, c.(from := f.sid)));
        } else if c.from != f.sid {
          QuietJustified(f, s, s1, Disconnected(InvalidSid));
        } else {
          TellJustified(f, s, Received(s.buffer, c));
        }
    }
  }

  lemma LineNotEmpty(line: Bytes)
    requires Line(line)
    ensures line != []
  {}

  lemma ModeMore(f: Config, log: seq<Event>, e: Event)
    requires forall i :: 0 <= i < |log| ==> InMode(f, log, i)
    requires e.Data? ==> ToCome(f, log) > 0
    requires IsTold(e) || e == Skipped ==> ToCome(f, log) <= 0
    ensures forall i :: 0 <= i < |log| + 1 ==> InMode(f, log + [e], i)
    ensures ToCome(f, log + [e]) ==
      if e.Data? then ToCome(f, log) - 1
      else if IsTold(e) && f.react(log + [e]).dataMode.Some? then f.react(log + [e]).dataMode.value
      else ToCome(f, log)
  {
    var log1 := log + [e];
    assert log1[..|log1| - 1] == log;
    forall i | 0 <= i < |log1|
      ensures InMode(f, log1, i)
    {
      assert log1[..i] == log[..i];
      if i < |log| { assert InMode(f, log, i); } else { assert log[..i] == log; }
    }
  }

  lemma TellInMode(f: Config, s: State, e: Event)
    requires DataInMode(f, s) && s.dataBytes <= 0 && IsTold(e)
    ensures DataInMode(f, Told(f, s, e).(buffer := []))
  {
    ModeMore(f, s.log, e);
    ModeMore(f, s.log + [e], Disconnected(Handler));
    hide ToCome, InMode;
  }

  lemma QuietInMode(f: Config, s: State, e: Event)
    requires DataInMode(f, s) && (e == Skipped ==> s.dataBytes <= 0) && (e == Skipped || e.Disconnected?)
    ensures DataInMode(f, s.(log := s.log + [e]))
  {
    ModeMore(f, s.log, e);
    hide ToCome, InMode;
  }

  lemma DataTold(f: Config, s: State, b: bv8)
    requires DataInMode(f, s) && s.dataBytes > 0
    ensures DataInMode(f, s.(dataBytes := s.dataBytes - 1, log := s.log + [Data(b)]))
  {
    ModeMore(f, s.log, Data(b));
    hide ToCome, InMode;
  }

  lemma OnlyThese(f: Config, s: State, s1: State)
    requires DataInMode(f, s) && s1.log == s.log && s1.dataBytes == s.dataBytes
    ensures DataInMode(f, s1)
  {}

  lemma LineInMode(f: Config, s: State)
    requires DataInMode(f, s) && s.dataBytes <= 0 && !s.disconnecting
    ensures DataInMode(f, LineEnd(f, s))
  {
    hide DataInMode, Told, ParseLine;
    var line := s.buffer;
    QuietInMode(f, s, Disconnected(MaxCommandSize));
    QuietInMode(f, s, Disconnected(InvalidSid));
    QuietInMode(f, s, Skipped);
    OnlyThese(f, s.(log := s.log + [Disconnected(MaxCommandSize)]), Cut(s, MaxCommandSize));
    OnlyThese(f, s.(log := s.log + [Disconnected(InvalidSid)]), Cut(s, InvalidSid));
    OnlyThese(f, s.(log := s.log + [Skipped]), s.(buffer := [], log := s.log + [Skipped]));
    if |line| != 1 && !(f.maxSize > 0 && |line| > f.maxSize) {
      match ParseLine(BLANK, line)
      case Err(_) => TellInMode(f, s, BadLine(line));
      case Ok(c) =>
        if c.kind == TYPE_HUB {
          TellInMode(f, s, Received(line, c.(from := f.sid)));
        } else if c.from == f.sid {
          TellInMode(f, s, Received(line, c));
        }
    }
  }

  lemma FeedInMode(f: Config, s: State, b: bv8)
    requires DataInMode(f, s)
    ensures DataInMode(f, Feed(f, s, b))
  {
    hide DataInMode, LineEnd;
    var s1 := s.(buffer := s.buffer + [b]);
    OnlyThese(f, s, s1);
    if s.disconnecting {
    } else if s.dataBytes > 0 {
      DataTold(f, s, b);
    } else if b == LF {
      LineInMode(f, s1);
    }
  }

  /** On every run: when the hub asks for `n` bytes of data, and does not disconnect, the next `n` bytes are data,
    * and are told one by one before anything else is told. */
  lemma {:induction false} DataFollow(f: Config, s: State, i: nat, n: nat, j: nat)
    requires DataInMode(f, s) && EndsOnce(s) && i < j < |s.log| && j <= i + n
    requires IsTold(s.log[i]) && f.react(s.log[..i + 1]).dataMode == Some(n)
    ensures s.log[j].Data? || s.log[j].Disconnected?
    ensures s.log[j].Data? ==> ToCome(f, s.log[..j + 1]) == n - (j - i)
    decreases j
  {
    assert InMode(f, s.log, j);
    assert s.log[..j + 1][..j] == s.log[..j];
    if j == i + 1 {
      assert s.log[..j][..i] == s.log[..i];
    } else {
      DataFollow(f, s, i, n, j - 1);
    }
  }

  /** The hub asks for as many bytes as come next: all of them are told as data. */
  lemma DataAskedFor(f: Config, s: State, e: Event, a: Bytes)
    requires !s.disconnecting && !f.react(s.log + [e]).disconnect && f.react(s.log + [e]).dataMode == Some(|a|)
    ensures var s1 := FeedAll(f, Told(f, s, e), a);
      s1.log == s.log + [e] + DataEvents(a) && s1.dataBytes == 0 && s1.buffer == s.buffer
  {
    FeedData(f, Told(f, s, e), a);
    hide FeedAll;
  }

  lemma FeedBegun(f: Config, s: State, b: bv8)
    requires Begun(s)
    ensures Begun(Feed(f, s, b))
  {
    hide ParseLine;
  }

  lemma TellRaw(f: Config, s: State, e: Event)
    ensures Raw(Told(f, s, e).log) == Raw(s.log) + RawOf(e)
  {
    RawMore(s.log, e);
    RawMore(s.log + [e], Disconnected(Handler));
    hide Raw;
  }

  lemma FeedConserved(f: Config, s: State, b: bv8, fed: Bytes)
    requires Conserved(s, fed) && Begun(s)
    ensures Conserved(Feed(f, s, b), fed + [b])
  {
    hide ParseLine, Raw, Told;
    if !s.disconnecting && s.dataBytes > 0 {
      RawMore(s.log, Data(b));
      assert Raw(s.log) + [] == Raw(s.log) && Raw(s.log) + [b] + [] == Raw(s.log) + [b];
    } else if !s.disconnecting {
      var line := s.buffer + [b];
      assert Raw(s.log) + line == fed + [b];
      if b == LF {
        LineConserved(f, s.(buffer := line), fed + [b]);
      }
    }
  }

  lemma TellConserved(f: Config, s: State, e: Event, fed: Bytes)
    requires Raw(s.log) + RawOf(e) == fed
    ensures Conserved(Told(f, s, e).(buffer := []), fed)
  {
    TellRaw(f, s, e);
    assert fed + [] == fed;
    hide Raw, Told;
  }

  lemma CutConserved(s: State, reason: Reason, fed: Bytes)
    requires Raw(s.log) + s.buffer == fed
    ensures Conserved(Cut(s, reason), fed)
  {
    RawMore(s.log, Disconnected(reason));
    assert Raw(s.log) + [] == Raw(s.log);
    hide Raw;
  }

  lemma LineConserved(f: Config, s: State, fed: Bytes)
    requires Raw(s.log) + s.buffer == fed && s.buffer != [] && (|s.buffer| == 1 ==> s.buffer == [LF])
    ensures Conserved(LineEnd(f, s), fed)
  {
    var line := s.buffer;
    hide ParseLine, Raw, Told, Cut;
    if f.maxSize > 0 && |line| > f.maxSize {
      CutConserved(s, MaxCommandSize, fed);
    } else if |line| == 1 {
      RawMore(s.log, Skipped);
      assert fed + [] == fed;
    } else {
      hide Conserved;
      match ParseLine(BLANK, line)
      case Err(_) => TellConserved(f, s, BadLine(line), fed);
      case Ok(c) =>
        if c.kind == TYPE_HUB {
          TellConserved(f, s, Received(line, c.(from := f.sid)), fed);
        } else if c.from != f.sid {
          CutConserved(s, InvalidSid, fed);
        } else {
          TellConserved(f, s, Received(line, c), fed);
        }
    }
  }

  /** Every byte keeps the invariant. */
  lemma FeedKeeps(f: Config, s: State, b: bv8, fed: Bytes)
    requires Inv(f, s, fed)
    ensures Inv(f, Feed(f, s, b), fed + [b])
  {
    hide AllProper, EndsOnce, Justified, DataInMode, Begun, Conserved, Feed;
    FeedProper(f, s, b);
    FeedEndsOnce(f, s, b);
    FeedJustified(f, s, b);
    FeedInMode(f, s, b);
    FeedBegun(f, s, b);
    FeedConserved(f, s, b, fed);
  }

  lemma {:induction false} FeedAllKeeps(f: Config, s: State, data: Bytes, fed: Bytes)
    requires Inv(f, s, fed)
    ensures Inv(f, FeedAll(f, s, data), fed + data)
    decreases |data|
  {
    hide Inv, Feed;
    if data == [] {
      assert fed + [] == fed;
    } else {
      FeedKeeps(f, s, data[0], fed);
      FeedAllKeeps(f, Feed(f, s, data[0]), data[1..], fed + [data[0]]);
      assert fed + [data[0]] + data[1..] == fed + data;
    }
  }

  /** A line that comes as a whole, or whose end comes, is handled as a line. */
  lemma FeedLine(f: Config, s: State, start: Bytes)
    requires !s.disconnecting && s.dataBytes <= 0 && LF !in start
    ensures FeedAll(f, s, start + [LF]) == LineEnd(f, s.(buffer := s.buffer + start + [LF]))
  {
    FeedWithinLine(f, s, start);
    FeedJoins(f, s, start, [LF]);
    assert [LF][1..] == [];
  }

  /** A part of the data, and the rest. */
  lemma FeedPart(f: Config, s: State, buf: Bytes, i: nat, k: nat)
    requires i <= k <= |buf|
    ensures FeedAll(f, s, buf[i..]) == FeedAll(f, FeedAll(f, s, buf[i..k]), buf[k..])
  {
    assert buf[i..] == buf[i..k] + buf[k..];
    FeedJoins(f, s, buf[i..k], buf[k..]);
  }

  // ----- the class -------------------------------------------------------------------------------------

  class Client {
    const f: Config
    var disconnecting: bool
    var buffer: Option<Bytes>
    var dataBytes: int
    /** What has been told so far. */
    var log: seq<Event>

    ghost predicate Valid()
      reads this
    {
      |f.sid| == 4 && (buffer.Some? ==> buffer.value != [])
    }

    ghost function Now(): State
      reads this
    {
      State(if buffer.Some? then buffer.value else [], dataBytes, disconnecting, log)
    }

    constructor (f: Config)
      requires |f.sid| == 4
      ensures Valid() && Now() == FRESH && this.f == f
    {
      this.f, disconnecting, buffer, dataBytes, log := f, false, None, 0, [];
    }

    /** `disconnect` */
    method Disconnect(reason: Reason)
      modifies this`disconnecting, this`log
      ensures Now() == Cut(old(Now()), reason) && disconnecting
    {
      if !disconnecting {
        disconnecting := true;
        log := log + [Disconnected(reason)];
      }
    }

    /** The hub is told of a line; it may disconnect the client or set its data mode. */
    method Tell(e: Event)
      modifies this`disconnecting, this`dataBytes, this`log
      ensures Now() == Told(f, old(Now()), e)
    {
      log := log + [e];
      var r := f.react(log);
      if r.dataMode.Some? {
        dataBytes := r.dataMode.value;
      }
      if r.disconnect {
        Disconnect(Handler);
      }
    }

    /** What `onData` does with a line: whether it stops there. */
    method OnLine() returns (stop: bool)
      requires Valid() && buffer.Some? && !disconnecting
      modifies this`disconnecting, this`buffer, this`dataBytes, this`log
      ensures Valid() && Now() == LineEnd(f, old(Now())) && (stop ==> disconnecting)
    {
      hide ParseLine, Told, Cut, Print;
      if f.maxSize > 0 && |buffer.value| > f.maxSize {
        Disconnect(MaxCommandSize);
        return true;
      }
      if |buffer.value| == 1 {
        buffer := None;
        log := log + [Skipped];
        return false;
      }
      var cmd := new AdcCommand(buffer);
      var error := cmd.Parse(buffer.value);
      ParsedKind(buffer.value);
      if error == None {
        if cmd.kind == TYPE_HUB {
          cmd.SetFrom(f.sid);
        } else if cmd.from != f.sid {
          Disconnect(InvalidSid);
          return true;
        }
        Tell(Received(buffer.value, cmd.Value()));
      } else {
        Tell(BadLine(buffer.value));
      }
      buffer := None;
      return false;
    }

    /** `onData`: what it does is what happens byte by byte. */
    method OnData(buf: Bytes)
      requires Valid()
      modifies this`disconnecting, this`buffer, this`dataBytes, this`log
      ensures Valid() && Now() == FeedAll(f, old(Now()), buf)
    {
      hide LineEnd, FeedAll;
      var done, len := 0, |buf|;
      while !disconnecting && done < len
        invariant 0 <= done <= len && Valid() && FeedAll(f, Now(), buf[done..]) == FeedAll(f, old(Now()), buf)
      {
        ghost var was := Now();
        if dataBytes > 0 {
          var n := if dataBytes <= len - done then dataBytes else len - done;
          FeedPart(f, was, buf, done, done + n);
          FeedData(f, was, buf[done..done + n]);
          log := log + DataEvents(buf[done..done + n]);
          dataBytes := dataBytes - n;
          done := done + n;
        } else {
          var j := FindLineEnd(buf, done);
          Append(buf, done, if j == len then len else j + 1);
          if j == len {
            FeedWithinLine(f, was, buf[done..]);
            assert buf[done..j] == buf[done..];
            return;
          }
          FeedPart(f, was, buf, done, j + 1);
          assert buf[done..j + 1] == buf[done..j] + [LF];
          FeedLine(f, was, buf[done..j]);
          Associates(was.buffer, buf[done..j], [LF]);
          done := j + 1;
          var stop := OnLine();
          if stop {
            FeedIgnored(f, Now(), buf[done..]);
            return;
          }
        }
      }
      FeedIgnored(f, Now(), buf[done..]);
    }

    /** The next line feed, or the end of the data. */
    method FindLineEnd(buf: Bytes, done: nat) returns (j: nat)
      requires done <= |buf|
      ensures done <= j <= |buf| && LF !in buf[done..j] && (j < |buf| ==> buf[j] == LF)
    {
      j := done;
      while j < |buf| && buf[j] != LF
        invariant done <= j <= |buf| && LF !in buf[done..j]
      {
        j := j + 1;
      }
    }

    /** Bytes for the line; data that is all of it is not copied. */
    method Append(buf: Bytes, done: nat, end: nat)
      requires Valid() && done < end <= |buf|
      modifies this`buffer
      ensures Valid() && buffer == Some(old(Now()).buffer + buf[done..end])
    {
      assert old(Now()).buffer + buf[done..end] ==
        (if buffer == None then buf[done..end] else buffer.value + buf[done..end]);
      if buffer == None {
        if done == 0 && end == |buf| {
          buffer := Some(buf);
          assert buf[done..end] == buf;
        } else {
          buffer := Some(buf[done..end]);
        }
      } else {
        buffer := Some(buffer.value + buf[done..end]);
      }
    }

    /** Any way to cut the stream: the lines, bad lines, data bytes, disconnections and what is left are those
      * of the whole stream, and what was told is the stream. */
    method OnStream(chunks: seq<Bytes>)
      requires Valid()
      modifies this`disconnecting, this`buffer, this`dataBytes, this`log
      ensures Valid() && Now() == FeedAll(f, old(Now()), Flatten(chunks))
      ensures old(Now()) == FRESH ==> Inv(f, Now(), Flatten(chunks))
    {
      var i := 0;
      while i < |chunks|
        invariant i <= |chunks| && Valid()
        invariant FeedAll(f, Now(), Flatten(chunks[i..])) == FeedAll(f, old(Now()), Flatten(chunks))
      {
        FeedJoins(f, Now(), chunks[i], Flatten(chunks[i..][1..]));
        assert chunks[i..][1..] == chunks[i + 1..];
        OnData(chunks[i]);
        i := i + 1;
      }
      FreshInv(f);
      FeedAllKeeps(f, FRESH, Flatten(chunks), []);
      assert [] + Flatten(chunks) == Flatten(chunks);
    }
  }

  lemma ParsedKind(line: Bytes)
    ensures ParseLine(BLANK, line).Ok? ==> KnownType(ParseLine(BLANK, line).value.kind)
  {
    if |line| > 5 {
      BodyKeeps(line[5..|line| - 1], Parsing(Header(BLANK, line), false, false, false));
    }
  }

  lemma Associates(x: Bytes, y: Bytes, z: Bytes)
    ensures x + (y + z) == x + y + z
  {}

  lemma FreshInv(f: Config)
    ensures Inv(f, FRESH, [])
  {}
}
