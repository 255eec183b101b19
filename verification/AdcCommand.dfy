/** ADC commands: one line of text, parsed and printed. */
module AdcCommands {
  import Utf8

  type Bytes = seq<bv8>

  const SPACE: bv8 := 0x20
  const LF: bv8 := 0x0A
  const BACKSLASH: bv8 := 0x5C
  const LOWER_S: bv8 := 0x73
  const LOWER_N: bv8 := 0x6E

  const TYPE_BROADCAST: bv8 := 0x42
  const TYPE_CLIENT: bv8 := 0x43
  const TYPE_DIRECT: bv8 := 0x44
  const TYPE_ECHO: bv8 := 0x45
  const TYPE_FEATURE: bv8 := 0x46
  const TYPE_HUB: bv8 := 0x48
  const TYPE_INFO: bv8 := 0x49
  const TYPE_UDP: bv8 := 0x55

  /** Session identifiers are four bytes in the order of the machine, taken to be little-endian. */
  const HUB_SID: Bytes := [0xFF, 0xFF, 0xFF, 0xFF]
  const INVALID_SID: Bytes := [0xFE, 0xFF, 0xFF, 0xFF]

  datatype Option<T> = None | Some(value: T)

  datatype Error =
    | TooShort | InvalidType | MissingSpace | EscapeAtEol | UnknownEscape
    | SidLength | FeatureLength | InvalidUtf8 | MissingFrom | MissingFeature | MissingTo

  datatype Result<T> = Ok(value: T) | Err(error: Error)

  /** The fields of a command; `cmd` holds three characters and a zero byte. */
  datatype Command = Command(kind: bv8, cmd: Bytes, from: Bytes, to: Bytes, features: Bytes, params: seq<Bytes>)

  predicate WellFormed(c: Command) { |c.cmd| == 4 && c.cmd[3] == 0 && |c.from| == 4 && |c.to| == 4 }

  predicate KnownType(kind: bv8) {
    kind == TYPE_BROADCAST || kind == TYPE_CLIENT || kind == TYPE_DIRECT || kind == TYPE_ECHO ||
    kind == TYPE_FEATURE || kind == TYPE_INFO || kind == TYPE_HUB || kind == TYPE_UDP
  }

  predicate HasFrom(kind: bv8) {
    kind == TYPE_BROADCAST || kind == TYPE_DIRECT || kind == TYPE_ECHO || kind == TYPE_FEATURE
  }

  predicate HasTo(kind: bv8) { kind == TYPE_DIRECT || kind == TYPE_ECHO }

  predicate HasFeatures(kind: bv8) { kind == TYPE_FEATURE }

  // ----- printing --------------------------------------------------------------------------------------

  function EscapeByte(b: bv8): Bytes {
    if b == SPACE then [BACKSLASH, LOWER_S]
    else if b == LF then [BACKSLASH, LOWER_N]
    else if b == BACKSLASH then [BACKSLASH, BACKSLASH]
    else [b]
  }

  function Escape(s: Bytes): Bytes {
    if s == [] then [] else EscapeByte(s[0]) + Escape(s[1..])
  }

  function EscapeAll(params: seq<Bytes>): (r: seq<Bytes>)
    ensures |r| == |params|
  {
    if params == [] then [] else [Escape(params[0])] + EscapeAll(params[1..])
  }

  /** Text up to a zero byte. */
  function CString(s: Bytes): Bytes {
    if s == [] || s[0] == 0 then [] else [s[0]] + CString(s[1..])
  }

  /** The printed fields in front of the parameters. */
  function Targets(c: Command): seq<Bytes> {
    (if HasFrom(c.kind) then [c.from] else []) + (if HasTo(c.kind) then [c.to] else []) + (if HasFeatures(c.kind) then [c.features] else [])
  }

  function Fields(c: Command): seq<Bytes> { Targets(c) + EscapeAll(c.params) }

  /** Each field comes after a space. */
  function Spaced(fields: seq<Bytes>): Bytes {
    if fields == [] then [] else [SPACE] + fields[0] + Spaced(fields[1..])
  }

  function Print(c: Command): Bytes { [c.kind] + CString(c.cmd) + Spaced(Fields(c)) + [LF] }

  // ----- parsing ---------------------------------------------------------------------------------------

  /** The parser between two fields: which of the targets it has seen. */
  datatype Parsing = Parsing(c: Command, fromSet: bool, toSet: bool, featureSet: bool)

  ghost predicate ValidUtf8(s: Bytes) { exists w :: Utf8.AllScalar(w) && Utf8.Encode(w) == s }

  /** What becomes of a field. */
  ghost function Store(p: Parsing, cur: Bytes): Result<Parsing> {
    if HasFrom(p.c.kind) && !p.fromSet then
      if |cur| != 4 then Err(SidLength) else Ok(p.(c := p.c.(from := cur), fromSet := true))
    else if HasTo(p.c.kind) && !p.toSet then
      if |cur| != 4 then Err(SidLength) else Ok(p.(c := p.c.(to := cur), toSet := true))
    else if HasFeatures(p.c.kind) && !p.featureSet then
      if |cur| % 5 != 0 then Err(FeatureLength) else Ok(p.(c := p.c.(features := cur), featureSet := true))
    else
      if !ValidUtf8(cur) then Err(InvalidUtf8) else Ok(p.(c := p.c.(params := p.c.params + [cur])))
  }

  /** The fields of a line, from the place where `cur` has been read of the current one. */
  ghost function Scan(rest: Bytes, cur: Bytes, p: Parsing): Result<(Bytes, Parsing)>
    decreases |rest|
  {
    if rest == [] then Ok((cur, p))
    else if rest[0] == BACKSLASH then
      if |rest| == 1 then Err(EscapeAtEol)
      else if rest[1] == LOWER_S then Scan(rest[2..], cur + [SPACE], p)
      else if rest[1] == LOWER_N then Scan(rest[2..], cur + [LF], p)
      else if rest[1] == BACKSLASH then Scan(rest[2..], cur + [BACKSLASH], p)
      else Err(UnknownEscape)
    else if rest[0] == SPACE then
      match Store(p, cur)
      case Err(e) => Err(e)
      case Ok(p1) => Scan(rest[1..], [], p1)
    else Scan(rest[1..], cur + [rest[0]], p)
  }

  /** The last field counts if it is not empty; then nothing that the type needs may be missing. */
  ghost function Finish(cur: Bytes, p: Parsing): Result<Command> {
    if cur != [] then
      match Store(p, cur)
      case Err(e) => Err(e)
      case Ok(p1) => Complete(p1)
    else Complete(p)
  }

  function Complete(p: Parsing): Result<Command> {
    if HasFrom(p.c.kind) && !p.fromSet then Err(MissingFrom)
    else if HasFeatures(p.c.kind) && !p.featureSet then Err(MissingFeature)
    else if HasTo(p.c.kind) && !p.toSet then Err(MissingTo)
    else Ok(p.c)
  }

  ghost function Body(rest: Bytes, p: Parsing): Result<Command> {
    match Scan(rest, [], p)
    case Err(e) => Err(e)
    case Ok((cur, p1)) => Finish(cur, p1)
  }

  /** The command when the header has been read. */
  function Header(c: Command, buf: Bytes): Command
    requires |buf| >= 4 && |c.cmd| == 4
  {
    c.(kind := buf[0], cmd := [buf[1], buf[2], buf[3], c.cmd[3]], to := if buf[0] == TYPE_HUB then HUB_SID else c.to)
  }

  /** A line with its line feed, read into a command. */
  ghost function ParseLine(c: Command, buf: Bytes): Result<Command>
    requires |c.cmd| == 4
  {
    if |buf| < 5 then Err(TooShort)
    else if !KnownType(buf[0]) then Err(InvalidType)
    else if buf[4] != SPACE then Err(MissingSpace)
    else if |buf| == 5 then Complete(Parsing(Header(c, buf), false, false, false))
    else Body(buf[5..|buf| - 1], Parsing(Header(c, buf), false, false, false))
  }

  const BLANK := Command(0, [0, 0, 0, 0], INVALID_SID, INVALID_SID, [], [])

  // ----- what printing shows ---------------------------------------------------------------------------

  /** What the line of a command tells about it. */
  function Shown(c: Command): Command {
    Command(c.kind, c.cmd,
            if HasFrom(c.kind) then c.from else INVALID_SID,
            if HasTo(c.kind) then c.to else if c.kind == TYPE_HUB then HUB_SID else INVALID_SID,
            if HasFeatures(c.kind) then c.features else [],
            c.params)
  }

  /** Text that can stand in a line as it is. */
  predicate Plain(s: Bytes) { forall i :: 0 <= i < |s| ==> s[i] != SPACE && s[i] != BACKSLASH }

  /** The last field is not empty. */
  predicate EndsInField(c: Command) { Fields(c) != [] && Fields(c)[|Fields(c)| - 1] != [] }

  /** The commands that survive printing: their identifiers and features are not escaped, an empty field at
    * the end is not seen, and neither is a command without any field. */
  ghost predicate Printable(c: Command)
    requires |c.cmd| == 4
  {
    && KnownType(c.kind)
    && (forall i :: 0 <= i < 3 ==> c.cmd[i] != 0)
    && (HasFrom(c.kind) ==> Plain(c.from))
    && (HasTo(c.kind) ==> Plain(c.to))
    && (HasFeatures(c.kind) ==> Plain(c.features) && |c.features| % 5 == 0)
    && (forall i :: 0 <= i < |c.params| ==> ValidUtf8(c.params[i]))
    && EndsInField(c)
  }

  // ----- one field -------------------------------------------------------------------------------------

  lemma ScanByte(b: bv8, rest: Bytes, cur: Bytes, p: Parsing)
    ensures Scan(EscapeByte(b) + rest, cur, p) == Scan(rest, cur + [b], p)
  {
    assert (EscapeByte(b) + rest)[|EscapeByte(b)|..] == rest;
  }

  /** Escaped text is read as the text. */
  lemma {:induction false} ScanEscaped(s: Bytes, rest: Bytes, cur: Bytes, p: Parsing)
    ensures Scan(Escape(s) + rest, cur, p) == Scan(rest, cur + s, p)
    decreases |s|
  {
    hide Scan, EscapeByte;
    if s == [] {
      assert Escape(s) + rest == rest && cur + s == cur;
    } else {
      var b, t := EscapeByte(s[0]), Escape(s[1..]) + rest;
      assert Escape(s) + rest == b + t;
      ScanByte(s[0], t, cur, p);
      ScanEscaped(s[1..], rest, cur + [s[0]], p);
      assert cur + [s[0]] + s[1..] == cur + s;
    }
  }

  /** Plain text is read as it is. */
  lemma {:induction false} ScanPlain(s: Bytes, rest: Bytes, cur: Bytes, p: Parsing)
    requires Plain(s)
    ensures Scan(s + rest, cur, p) == Scan(rest, cur + s, p)
    decreases |s|
  {
    if s == [] {
      assert s + rest == rest && cur + s == cur;
    } else {
      assert (s + rest)[1..] == s[1..] + rest;
      ScanPlain(s[1..], rest, cur + [s[0]], p);
      assert cur + [s[0]] + s[1..] == cur + s;
    }
  }

  /** Text that is not plain is read as something shorter, if it is read at all: `t` is what has been read when
    * the field ends, at the end of the line or at a space with `more` behind it. */
  lemma {:induction false} ScanShrinks(s: Bytes, rest: Bytes, cur: Bytes, p: Parsing)
    returns (t: Bytes, more: Option<Bytes>)
    requires !Plain(s) && (rest != [] ==> rest[0] == SPACE)
    ensures Scan(s + rest, cur, p).Ok? ==> |t| < |cur| + |s| && Scan(s + rest, cur, p) == FieldEnd(t, more, p)
    decreases |s|, 0
  {
    t, more := [], None;
    var line := s + rest;
    if s[0] == SPACE {
      t, more := cur, Some(line[1..]);
    } else if s[0] != BACKSLASH {
      assert line[1..] == s[1..] + rest && !Plain(s[1..]);
      t, more := ScanShrinks(s[1..], rest, cur + [s[0]], p);
    } else if |s| > 1 {
      var b := if s[1] == LOWER_S then SPACE else if s[1] == LOWER_N then LF else BACKSLASH;
      assert line[2..] == s[2..] + rest && line[1] == s[1];
      t, more := ScanToEnd(s[2..], rest, cur + [b], p);
    }
  }

  /** Whatever it is, it is not read as anything longer. */
  lemma {:induction false} ScanToEnd(s: Bytes, rest: Bytes, cur: Bytes, p: Parsing)
    returns (t: Bytes, more: Option<Bytes>)
    requires rest != [] ==> rest[0] == SPACE
    ensures Scan(s + rest, cur, p).Ok? ==> |t| <= |cur| + |s| && Scan(s + rest, cur, p) == FieldEnd(t, more, p)
    decreases |s|, 1
  {
    if Plain(s) {
      ScanPlain(s, rest, cur, p);
      t, more := cur + s, if rest == [] then None else Some(rest[1..]);
    } else {
      t, more := ScanShrinks(s, rest, cur, p);
    }
  }

  /** What follows when a field has been read. */
  ghost function FieldEnd(t: Bytes, more: Option<Bytes>, p: Parsing): Result<(Bytes, Parsing)> {
    match more
    case None => Ok((t, p))
    case Some(rest) =>
      match Store(p, t)
      case Err(e) => Err(e)
      case Ok(p1) => Scan(rest, [], p1)
  }

  // ----- all the fields --------------------------------------------------------------------------------

  /** The raw text stands for the field. */
  ghost predicate Reads(raw: Bytes, field: Bytes) { raw == Escape(field) || (Plain(field) && raw == field) }

  ghost predicate AllRead(raws: seq<Bytes>, fields: seq<Bytes>) {
    |raws| == |fields| && forall i :: 0 <= i < |raws| ==> Reads(raws[i], fields[i])
  }

  lemma ScanReads(raw: Bytes, field: Bytes, rest: Bytes, cur: Bytes, p: Parsing)
    requires Reads(raw, field)
    ensures Scan(raw + rest, cur, p) == Scan(rest, cur + field, p)
  {
    if raw == Escape(field) {
      ScanEscaped(field, rest, cur, p);
    } else {
      ScanPlain(field, rest, cur, p);
    }
  }

  /** The fields are stored one after the other. */
  ghost function StoreAll(p: Parsing, fields: seq<Bytes>): Result<Command>
    decreases |fields|
  {
    if fields == [] then Complete(p)
    else
      match Store(p, fields[0])
      case Err(e) => Err(e)
      case Ok(p1) => StoreAll(p1, fields[1..])
  }

  /** An empty field at the end is not seen. */
  function Seen(fields: seq<Bytes>): seq<Bytes> {
    if fields != [] && fields[|fields| - 1] == [] then fields[..|fields| - 1] else fields
  }

  /** One field is read and stored, and the parser goes on with the next one. */
  lemma BodyNext(raw: Bytes, field: Bytes, rest: Bytes, p: Parsing)
    requires Reads(raw, field)
    ensures Body(raw + ([SPACE] + rest), p) == match Store(p, field) case Err(e) => Err(e) case Ok(p1) => Body(rest, p1)
  {
    var more := [SPACE] + rest;
    ScanReads(raw, field, more, [], p);
    assert more[1..] == rest && [] + field == field;
  }

  lemma BodyLast(raw: Bytes, field: Bytes, p: Parsing)
    requires Reads(raw, field)
    ensures Body(raw, p) == Finish(field, p)
  {
    ScanReads(raw, field, [], [], p);
    assert raw + [] == raw && [] + field == field;
  }

  /** The line of some fields is parsed into them. */
  lemma {:induction false} BodyReads(raws: seq<Bytes>, fields: seq<Bytes>, p: Parsing)
    requires raws != [] && AllRead(raws, fields)
    ensures Body(raws[0] + Spaced(raws[1..]), p) == StoreAll(p, Seen(fields))
    decreases |raws|
  {
    hide Body, Store, Complete, Reads;
    if |raws| == 1 {
      assert Spaced(raws[1..]) == [] && raws[0] + [] == raws[0];
      BodyLast(raws[0], fields[0], p);
      FinishStores(fields[0], p);
      assert fields == [fields[0]];
    } else {
      var rest, tail := raws[1] + Spaced(raws[2..]), fields[1..];
      assert raws[1..][1..] == raws[2..] && Spaced(raws[1..]) == [SPACE] + rest;
      BodyNext(raws[0], fields[0], rest, p);
      assert Seen(fields)[0] == fields[0] && Seen(fields)[1..] == Seen(tail);
      match Store(p, fields[0])
      case Err(_) =>
      case Ok(p1) => BodyReads(raws[1..], tail, p1);
    }
  }

  lemma FinishStores(field: Bytes, p: Parsing)
    ensures Finish(field, p) == StoreAll(p, if field == [] then [] else [field])
  {}

  // ----- the round trip --------------------------------------------------------------------------------

  /** The parser when it has seen all the targets of a command. */
  ghost function Targeted(c: Command, h: Command): Parsing {
    Parsing(h.(from := if HasFrom(c.kind) then c.from else h.from, to := if HasTo(c.kind) then c.to else h.to,
               features := if HasFeatures(c.kind) then c.features else h.features),
            HasFrom(c.kind), HasTo(c.kind), HasFeatures(c.kind))
  }

  lemma StoreTargets(c: Command, h: Command, params: seq<Bytes>)
    requires |c.from| == 4 && |c.to| == 4 && h.kind == c.kind
    ensures StoreAll(Parsing(h, false, false, false), Targets(c) + params) ==
      if HasFeatures(c.kind) && |c.features| % 5 != 0 then Err(FeatureLength) else StoreAll(Targeted(c, h), params)
  {
    var p0, all := Parsing(h, false, false, false), Targets(c) + params;
    if HasFrom(c.kind) {
      assert all[0] == c.from;
      var p1 := Parsing(h.(from := c.from), true, false, false);
      assert Store(p0, c.from) == Ok(p1);
      if HasTo(c.kind) {
        assert all[1..][0] == c.to && all[1..][1..] == params;
      } else if HasFeatures(c.kind) {
        assert all[1..][0] == c.features && all[1..][1..] == params;
      } else {
        assert all[1..] == params;
      }
    } else {
      assert all == params;
    }
  }

  /** With its targets known, a command takes all that is left as parameters. */
  lemma {:induction false} StoreParams(p: Parsing, params: seq<Bytes>)
    requires p.fromSet == HasFrom(p.c.kind) && p.toSet == HasTo(p.c.kind) && p.featureSet == HasFeatures(p.c.kind)
    ensures var r := StoreAll(p, params);
      if forall i :: 0 <= i < |params| ==> ValidUtf8(params[i]) then r == Ok(p.c.(params := p.c.params + params))
      else r == Err(InvalidUtf8)
    decreases |params|
  {
    hide ValidUtf8, HasFrom, HasTo, HasFeatures;
    if params == [] {
      assert p.c.params + [] == p.c.params;
    } else if ValidUtf8(params[0]) {
      var p1 := p.(c := p.c.(params := p.c.params + [params[0]]));
      assert Store(p, params[0]) == Ok(p1);
      StoreParams(p1, params[1..]);
      assert p1.c.params + params[1..] == p.c.params + params;
      assert forall i :: 0 < i < |params| ==> params[i] == params[1..][i - 1];
    }
  }

  /** What the fields that follow do not change. */
  ghost predicate Keeps(p: Parsing, c: Command) {
    c.kind == p.c.kind && c.cmd == p.c.cmd && (p.featureSet ==> c.features == p.c.features)
  }

  lemma {:induction false} ScanKeeps(rest: Bytes, cur: Bytes, p: Parsing)
    ensures var r := Scan(rest, cur, p); r.Ok? ==> Keeps(p, r.value.1.c) && (p.featureSet ==> r.value.1.featureSet)
    decreases |rest|
  {
    if rest != [] {
      if rest[0] == BACKSLASH {
        if |rest| > 1 {
          ScanKeeps(rest[2..],
                    cur + [if rest[1] == LOWER_S then SPACE else if rest[1] == LOWER_N then LF else BACKSLASH], p);
        }
      } else if rest[0] == SPACE {
        match Store(p, cur)
        case Err(_) =>
        case Ok(p1) => ScanKeeps(rest[1..], [], p1);
      } else {
        ScanKeeps(rest[1..], cur + [rest[0]], p);
      }
    }
  }

  lemma FinishKeeps(cur: Bytes, p: Parsing)
    ensures Finish(cur, p).Ok? ==> Keeps(p, Finish(cur, p).value)
  {}

  lemma BodyKeeps(rest: Bytes, p: Parsing)
    ensures Body(rest, p).Ok? ==> Keeps(p, Body(rest, p).value)
  {
    ScanKeeps(rest, [], p);
    match Scan(rest, [], p)
    case Err(_) =>
    case Ok((cur, p1)) => FinishKeeps(cur, p1);
  }

  // Targets that are not plain.

  /** A session identifier with an escape in it has the wrong length. */
  lemma SidNotPlain(raw: Bytes, rest: Bytes, p: Parsing)
    requires |raw| == 4 && !Plain(raw) && (rest != [] ==> rest[0] == SPACE)
    requires (HasFrom(p.c.kind) && !p.fromSet) || (HasTo(p.c.kind) && !p.toSet)
    ensures Body(raw + rest, p).Err?
  {
    var t, more := ScanShrinks(raw, rest, [], p);
  }

  /** Features with an escape in them are not the same when they are read. */
  lemma FeaturesNotPlain(raw: Bytes, rest: Bytes, p: Parsing)
    requires !Plain(raw) && (rest != [] ==> rest[0] == SPACE)
    requires p.c.kind == TYPE_FEATURE && p.fromSet && !p.featureSet
    ensures Body(raw + rest, p).Ok? ==> Body(raw + rest, p).value.features != raw
  {
    var t, more := ScanShrinks(raw, rest, [], p);
    if more.Some? && Store(p, t).Ok? {
      BodyKeeps(more.value, Store(p, t).value);
    }
  }

  /** All the printed targets can stand in a line as they are. */
  predicate PlainTargets(c: Command) {
    && (HasFrom(c.kind) ==> Plain(c.from))
    && (HasTo(c.kind) ==> Plain(c.to))
    && (HasFeatures(c.kind) ==> Plain(c.features))
  }

  lemma NotPlain(c: Command, h: Command)
    requires |c.from| == 4 && |c.to| == 4 && h.kind == c.kind && !PlainTargets(c)
    ensures Fields(c) != []
    ensures var r := Body(Fields(c)[0] + Spaced(Fields(c)[1..]), Parsing(h, false, false, false));
      r.Ok? ==> r.value.features != c.features && HasFeatures(c.kind)
  {
    var fields, p0 := Fields(c), Parsing(h, false, false, false);
    var tail := Spaced(fields[1..]);
    assert fields[0] == c.from;
    assert tail != [] ==> tail[0] == SPACE;
    if !Plain(c.from) {
      SidNotPlain(c.from, tail, p0);
    } else {
      var p1 := Parsing(h.(from := c.from), true, false, false);
      var second := fields[1];
      var rest := Spaced(fields[2..]);
      assert second == if HasTo(c.kind) then c.to else c.features;
      assert fields[1..][1..] == fields[2..] && tail == [SPACE] + (second + rest);
      assert rest != [] ==> rest[0] == SPACE;
      BodyNext(c.from, c.from, second + rest, p0);
      assert Store(p0, c.from) == Ok(p1);
      if HasTo(c.kind) {
        SidNotPlain(c.to, rest, p1);
      } else {
        FeaturesNotPlain(c.features, rest, p1);
      }
    }
  }

  // The header.

  lemma {:induction false} CStringIs(s: Bytes, n: nat)
    requires n < |s| && s[n] == 0 && forall i :: 0 <= i < n ==> s[i] != 0
    ensures CString(s) == s[..n]
  {
    if n > 0 {
      CStringIs(s[1..], n - 1);
      assert s[..n] == [s[0]] + s[1..][..n - 1];
    }
  }

  /** A zero byte in the command code cuts the header short: it is not read back. */
  lemma ZeroNotRead(c: Command, n: nat)
    requires WellFormed(c) && n < 3 && c.cmd[n] == 0 && forall i :: 0 <= i < n ==> c.cmd[i] != 0
    ensures ParseLine(BLANK, Print(c)) != Ok(Shown(c))
  {
    hide Body, Spaced, Print, Complete;
    ZeroCuts(c, n);
    var buf := Print(c);
    if |buf| > 5 {
      BodyKeeps(buf[5..|buf| - 1], Parsing(Header(BLANK, buf), false, false, false));
    } else if |buf| == 5 {
      CompleteKeeps(Parsing(Header(BLANK, buf), false, false, false));
    }
  }

  lemma CompleteKeeps(p: Parsing)
    ensures Complete(p).Ok? ==> Complete(p).value == p.c
  {}

  lemma ZeroCuts(c: Command, n: nat)
    requires WellFormed(c) && n < 3 && c.cmd[n] == 0 && forall i :: 0 <= i < n ==> c.cmd[i] != 0
    ensures |Print(c)| > 1 + n && Print(c)[1 + n] != 0
  {
    CStringIs(c.cmd, n);
    var rest := Spaced(Fields(c)) + [LF];
    assert rest[0] == SPACE || rest[0] == LF;
    hide Spaced, Fields, CString;
    assert Print(c) == [c.kind] + c.cmd[..n] + rest;
  }

  /** The parser reaches the fields of a printed line. */
  lemma FieldsReached(c: Command)
    requires WellFormed(c) && KnownType(c.kind) && (forall i :: 0 <= i < 3 ==> c.cmd[i] != 0) && Fields(c) != []
    ensures ParseLine(BLANK, Print(c)) == Body(Fields(c)[0] + Spaced(Fields(c)[1..]), Parsing(Opened(c), false, false, false))
  {
    hide Body, Print, Fields, Spaced;
    var body := Fields(c)[0] + Spaced(Fields(c)[1..]);
    PrintedLine(c);
    Sliced(Print(c), [c.kind, c.cmd[0], c.cmd[1], c.cmd[2], SPACE], body);
    assert Header(BLANK, Print(c)) == Opened(c);
  }

  lemma PrintedLine(c: Command)
    requires WellFormed(c) && (forall i :: 0 <= i < 3 ==> c.cmd[i] != 0) && Fields(c) != []
    ensures Print(c) == [c.kind, c.cmd[0], c.cmd[1], c.cmd[2], SPACE] + (Fields(c)[0] + Spaced(Fields(c)[1..])) + [LF]
  {
    CStringIs(c.cmd, 3);
    var body := Fields(c)[0] + Spaced(Fields(c)[1..]);
    assert Spaced(Fields(c)) == [SPACE] + body;
    hide CString, Fields, Spaced;
    HeaderLine(c.kind, CString(c.cmd), body);
  }

  lemma HeaderLine(kind: bv8, code: Bytes, body: Bytes)
    requires |code| == 3
    ensures [kind] + code + ([SPACE] + body) + [LF] == [kind, code[0], code[1], code[2], SPACE] + body + [LF]
  {
    assert [kind] + code + [SPACE] == [kind, code[0], code[1], code[2], SPACE];
    assert [kind] + code + ([SPACE] + body) == ([kind] + code + [SPACE]) + body;
  }

  lemma Sliced(buf: Bytes, header: Bytes, body: Bytes)
    requires |header| == 5 && buf == header + body + [LF]
    ensures |buf| > 5 && buf[..5] == header && buf[5..|buf| - 1] == body
    ensures forall i :: 0 <= i < 5 ==> buf[i] == header[i]
  {}

  /** The command when the header of its line has been read. */
  function Opened(c: Command): Command {
    BLANK.(kind := c.kind, cmd := c.cmd, to := if c.kind == TYPE_HUB then HUB_SID else INVALID_SID)
  }

  lemma NothingReached(c: Command)
    requires WellFormed(c) && (forall i :: 0 <= i < 3 ==> c.cmd[i] != 0) && Fields(c) == []
    ensures ParseLine(BLANK, Print(c)).Err?
  {
    CStringIs(c.cmd, 3);
    assert Print(c) == [c.kind] + c.cmd[..3] + [LF];
  }

  // The fields.

  lemma {:induction false} EscapedAll(params: seq<Bytes>)
    ensures AllRead(EscapeAll(params), params)
  {
    if params != [] {
      EscapedAll(params[1..]);
      assert forall i :: 0 < i < |params| ==>
        EscapeAll(params)[i] == EscapeAll(params[1..])[i - 1] && params[i] == params[1..][i - 1];
    }
  }

  lemma FieldsRead(c: Command)
    requires PlainTargets(c)
    ensures AllRead(Fields(c), Targets(c) + c.params)
  {
    EscapedAll(c.params);
    assert forall i :: 0 <= i < |Targets(c)| ==> Plain(Targets(c)[i]);
  }

  lemma ReadsEmpty(raw: Bytes, field: Bytes)
    requires Reads(raw, field)
    ensures raw == [] <==> field == []
  {}

  /** What the parser makes of a printed line if the targets are plain. */
  lemma PlainParsed(c: Command)
    requires WellFormed(c) && PlainTargets(c) && Fields(c) != []
    ensures var r := Body(Fields(c)[0] + Spaced(Fields(c)[1..]), Parsing(Opened(c), false, false, false));
      r == Ok(Shown(c)) <==>
        EndsInField(c) && (HasFeatures(c.kind) ==> |c.features| % 5 == 0) && forall i :: 0 <= i < |c.params| ==>
          ValidUtf8(c.params[i])
  {
    hide ValidUtf8, Body, Fields, Targets, AllRead, Reads, StoreAll, Complete, Targeted, PlainTargets, Spaced, Shown,
      Opened;
    var fields := Targets(c) + c.params;
    FieldsRead(c);
    BodyReads(Fields(c), fields, Parsing(Opened(c), false, false, false));
    LastField(c);
    if EndsInField(c) {
      AllStored(c);
    } else {
      LastUnseen(c);
    }
  }

  /** What is stored of the fields. */
  lemma AllStored(c: Command)
    requires |c.from| == 4 && |c.to| == 4
    ensures var r := StoreAll(Parsing(Opened(c), false, false, false), Targets(c) + c.params);
      r == Ok(Shown(c)) <==>
        (HasFeatures(c.kind) ==> |c.features| % 5 == 0) && forall i :: 0 <= i < |c.params| ==> ValidUtf8(c.params[i])
  {
    hide ValidUtf8, Targets, StoreAll, Complete, Targeted;
    StoreTargets(c, Opened(c), c.params);
    TargetedIs(c);
    StoreParams(Targeted(c, Opened(c)), c.params);
    assert [] + c.params == c.params;
  }

  lemma LastField(c: Command)
    requires Fields(c) != [] && AllRead(Fields(c), Targets(c) + c.params)
    ensures var fields := Targets(c) + c.params;
      |fields| == |Fields(c)| && (EndsInField(c) <==> fields[|fields| - 1] != [])
  {
    var fields := Targets(c) + c.params;
    ReadsEmpty(Fields(c)[|fields| - 1], fields[|fields| - 1]);
  }

  /** Without its last field a line is something else. */
  lemma LastUnseen(c: Command)
    requires |c.from| == 4 && |c.to| == 4 && Targets(c) + c.params != []
    requires (Targets(c) + c.params)[|Targets(c) + c.params| - 1] == []
    ensures StoreAll(Parsing(Opened(c), false, false, false), Seen(Targets(c) + c.params)) != Ok(Shown(c))
  {
    var h, fields := Opened(c), Targets(c) + c.params;
    if c.params != [] {
      var fewer := c.params[..|c.params| - 1];
      assert Seen(fields) == Targets(c) + fewer;
      StoreTargets(c, h, fewer);
      hide ValidUtf8, Targets, StoreAll, Complete, Targeted;
      TargetedIs(c);
      StoreParams(Targeted(c, h), fewer);
    } else {
      assert fields == Targets(c);
      assert Seen(fields) == [c.from] && HasFeatures(c.kind);
    }
  }

  lemma TargetedIs(c: Command)
    ensures var p := Targeted(c, Opened(c));
      && p.c.(params := c.params) == Shown(c) && p.c.kind == c.kind && p.c.params == []
      && p.fromSet == HasFrom(c.kind) && p.toSet == HasTo(c.kind) && p.featureSet == HasFeatures(c.kind)
  {}

  /** Printed and parsed, a command shows the same if and only if it is printable. */
  lemma RoundTrip(c: Command)
    requires WellFormed(c)
    ensures ParseLine(BLANK, Print(c)) == Ok(Shown(c)) <==> Printable(c)
  {
    hide Body, Print, Spaced, Fields, Targets, ValidUtf8, CString;
    if c.cmd[0] == 0 {
      ZeroNotRead(c, 0);
    } else if c.cmd[1] == 0 {
      ZeroNotRead(c, 1);
    } else if c.cmd[2] == 0 {
      ZeroNotRead(c, 2);
    } else if Fields(c) == [] {
      NothingReached(c);
    } else if KnownType(c.kind) {
      FieldsReached(c);
      if PlainTargets(c) {
        PlainParsed(c);
      } else {
        NotPlain(c, Opened(c));
      }
    } else {
      PrintedKind(c);
    }
  }

  lemma PrintedKind(c: Command)
    ensures Print(c)[0] == c.kind
  {}

  /** What the parser leaves alone has not been set. */
  predicate Unset(c: Command) {
    && WellFormed(c)
    && (HasFrom(c.kind) || c.from == INVALID_SID)
    && (HasTo(c.kind) || c.to == if c.kind == TYPE_HUB then HUB_SID else INVALID_SID)
    && (HasFeatures(c.kind) || c.features == [])
  }

  lemma {:induction false} ScanUnset(rest: Bytes, cur: Bytes, p: Parsing)
    requires Unset(p.c)
    ensures var r := Scan(rest, cur, p); r.Ok? ==> Unset(r.value.1.c)
    decreases |rest|
  {
    if rest != [] {
      if rest[0] == BACKSLASH {
        if |rest| > 1 {
          ScanUnset(rest[2..],
                    cur + [if rest[1] == LOWER_S then SPACE else if rest[1] == LOWER_N then LF else BACKSLASH], p);
        }
      } else if rest[0] == SPACE {
        match Store(p, cur)
        case Err(_) =>
        case Ok(p1) => ScanUnset(rest[1..], [], p1);
      } else {
        ScanUnset(rest[1..], cur + [rest[0]], p);
      }
    }
  }

  /** A line that was accepted, printed again from what was read, is accepted with the same meaning if and only
    * if the command is printable. */
  lemma Reprinted(buf: Bytes)
    requires ParseLine(BLANK, buf).Ok?
    ensures var c := ParseLine(BLANK, buf).value;
      WellFormed(c) && (ParseLine(BLANK, Print(c)) == Ok(c) <==> Printable(c))
  {
    hide ParseLine, Print, Printable;
    ParsedUnset(buf);
    RoundTrip(ParseLine(BLANK, buf).value);
  }

  lemma ParsedUnset(buf: Bytes)
    requires ParseLine(BLANK, buf).Ok?
    ensures var c := ParseLine(BLANK, buf).value; Unset(c) && Shown(c) == c
  {
    hide Scan;
    if |buf| > 5 {
      ScanUnset(buf[5..|buf| - 1], [], Parsing(Header(BLANK, buf), false, false, false));
    }
    assert Unset(ParseLine(BLANK, buf).value);
  }

  /** A command whose last parameter is empty comes back without it. */
  lemma EmptyFieldLost()
    ensures var c := Command(TYPE_HUB, [0x53, 0x55, 0x50, 0], INVALID_SID, HUB_SID, [], [[]]);
      WellFormed(c) && ParseLine(BLANK, Print(c)) != Ok(Shown(c))
  {
    var c := Command(TYPE_HUB, [0x53, 0x55, 0x50, 0], INVALID_SID, HUB_SID, [], [[]]);
    assert EscapeAll([[]]) == [Escape([])] && Fields(c) == [[]] && !EndsInField(c);
    hide Print, ParseLine, Shown, EndsInField;
    RoundTrip(c);
  }

  /** A kept line of a broadcast command that goes on to name the former sender. */
  lemma FormerSenderShown()
    ensures var c := Command(TYPE_BROADCAST, [0x4D, 0x53, 0x47, 0], [0x41, 0x41, 0x41, 0x41], INVALID_SID, [], [[0x68]]);
      Print(c.(from := [0x41, 0x41, 0x41, 0x42])) != Print(c)
  {
    var c := Command(TYPE_BROADCAST, [0x4D, 0x53, 0x47, 0], [0x41, 0x41, 0x41, 0x41], INVALID_SID, [], [[0x68]]);
    assert c.from[3] != [0x41, 0x41, 0x41, 0x42 as bv8][3];
    hide Print;
    SenderShows(c, [0x41, 0x41, 0x41, 0x42]);
  }

  // ----- the class -------------------------------------------------------------------------------------

  lemma EscapeMore(s: Bytes, i: nat)
    requires i < |s|
    ensures Escape(s[..i + 1]) == Escape(s[..i]) + EscapeByte(s[i])
  {
    EscapeJoins(s[..i], [s[i]]);
    assert s[..i + 1] == s[..i] + [s[i]];
    assert Escape([s[i]]) == EscapeByte(s[i]) + Escape([]);
  }

  lemma {:induction false} EscapeJoins(s: Bytes, t: Bytes)
    ensures Escape(s + t) == Escape(s) + Escape(t)
  {
    if s == [] {
      assert s + t == t;
    } else {
      assert (s + t)[1..] == s[1..] + t;
      EscapeJoins(s[1..], t);
    }
  }

  lemma {:induction false} SpacedJoins(s: seq<Bytes>, t: seq<Bytes>)
    ensures Spaced(s + t) == Spaced(s) + Spaced(t)
  {
    if s == [] {
      assert s + t == t;
    } else {
      assert (s + t)[1..] == s[1..] + t;
      SpacedJoins(s[1..], t);
      assert [SPACE] + s[0] + (Spaced(s[1..]) + Spaced(t)) == [SPACE] + s[0] + Spaced(s[1..]) + Spaced(t);
    }
  }

  lemma {:induction false} EscapeAllJoins(s: seq<Bytes>, t: seq<Bytes>)
    ensures EscapeAll(s + t) == EscapeAll(s) + EscapeAll(t)
  {
    if s == [] {
      assert s + t == t;
    } else {
      assert (s + t)[1..] == s[1..] + t;
      EscapeAllJoins(s[1..], t);
    }
  }

  /** One more parameter in the line. */
  lemma SpacedMore(params: seq<Bytes>, i: nat)
    requires i < |params|
    ensures Spaced(EscapeAll(params[..i + 1])) == Spaced(EscapeAll(params[..i])) + [SPACE] + Escape(params[i])
  {
    var one := [params[i]];
    assert params[..i + 1] == params[..i] + one;
    EscapeAllJoins(params[..i], one);
    assert EscapeAll(one) == [Escape(params[i])];
    SpacedJoins(EscapeAll(params[..i]), [Escape(params[i])]);
    assert Spaced([Escape(params[i])]) == [SPACE] + Escape(params[i]);
    assert Spaced(EscapeAll(params[..i])) + ([SPACE] + Escape(params[i])) ==
      Spaced(EscapeAll(params[..i])) + [SPACE] + Escape(params[i]);
  }

  /** `escape`, which appends to a string. */
  method EscapeOnto(s: Bytes, out: Bytes) returns (r: Bytes)
    ensures r == out + Escape(s)
  {
    hide Escape;
    r := out;
    NoneEscaped(s);
    for i := 0 to |s|
      invariant r == out + Escape(s[..i])
    {
      EscapeMore(s, i);
      ghost var was := r;
      if s[i] == SPACE {
        r := r + [BACKSLASH];
        r := r + [LOWER_S];
      } else if s[i] == LF {
        r := r + [BACKSLASH];
        r := r + [LOWER_N];
      } else if s[i] == BACKSLASH {
        r := r + [BACKSLASH];
        r := r + [BACKSLASH];
      } else {
        r := r + [s[i]];
      }
      assert r == was + EscapeByte(s[i]);
      hide EscapeByte;
    }
    assert s[..|s|] == s;
  }

  lemma NoneEscaped(s: Bytes)
    ensures Escape(s[..0]) == []
  {}

  lemma ValidIsValid(s: Bytes, valid: bool)
    requires valid <==> 0 >= |s| || exists w :: Utf8.AllScalar(w) && Utf8.Encode(w) == s[0..]
    ensures valid <==> ValidUtf8(s)
  {
    assert s[0..] == s;
    if s == [] {
      assert Utf8.AllScalar([]) && Utf8.Encode([]) == s;
    }
  }

  class AdcCommand {
    var kind: bv8
    var cmd: Bytes
    var from: Bytes
    var to: Bytes
    var features: Bytes
    var parameters: seq<Bytes>
    /** The printed line, if it is kept. */
    var buffer: Option<Bytes>

    function Value(): Command
      reads this
    {
      Command(kind, cmd, from, to, features, parameters)
    }

    ghost predicate Valid()
      reads this
    {
      WellFormed(Value())
    }

    /** A command before its line is parsed; the line is kept if it came as a buffer. */
    constructor (buffer: Option<Bytes>)
      ensures Valid() && Value() == BLANK && this.buffer == buffer
    {
      kind, cmd, from, to, features, parameters := 0, [0, 0, 0, 0], INVALID_SID, INVALID_SID, [], [];
      this.buffer := buffer;
    }

    /** What `parse` does when it has read a field. */
    method StoreField(cur: Bytes, fromWas: bool, toWas: bool, featureWas: bool)
      returns (error: Option<Error>, fromSet: bool, toSet: bool, featureSet: bool)
      modifies this`from, this`to, this`features, this`parameters
      ensures (match Store(Parsing(old(Value()), fromWas, toWas, featureWas), cur)
        case Err(e) => error == Some(e)
        case Ok(p) => error == None && p == Parsing(Value(), fromSet, toSet, featureSet))
      ensures |old(from)| == 4 && |old(to)| == 4 ==> |from| == 4 && |to| == 4
    {
      error, fromSet, toSet, featureSet := None, fromWas, toWas, featureWas;
      if HasFrom(kind) && !fromSet {
        if |cur| != 4 {
          error := Some(SidLength);
          return;
        }
        from, fromSet := cur, true;
      } else if HasTo(kind) && !toSet {
        if |cur| != 4 {
          error := Some(SidLength);
          return;
        }
        to, toSet := cur, true;
      } else if HasFeatures(kind) && !featureSet {
        if |cur| % 5 != 0 {
          error := Some(FeatureLength);
          return;
        }
        features, featureSet := cur, true;
      } else {
        var valid := Utf8.ValidateUtf8(cur, 0);
        ValidIsValid(cur, valid);
        hide ValidUtf8;
        if !valid {
          error := Some(InvalidUtf8);
          return;
        }
        parameters := parameters + [cur];
      }
    }

    /** `parse`: what the line says, or what is wrong with it first. */
    method Parse(buf: Bytes) returns (error: Option<Error>)
      requires Valid()
      modifies this`kind, this`cmd, this`from, this`to, this`features, this`parameters
      ensures Valid()
      ensures match ParseLine(old(Value()), buf)
        case Err(e) => error == Some(e)
        case Ok(c) => error == None && Value() == c
    {
      if |buf| < 5 {
        return Some(TooShort);
      }
      kind := buf[0];
      if kind != TYPE_BROADCAST && kind != TYPE_CLIENT && kind != TYPE_DIRECT && kind != TYPE_ECHO &&
         kind != TYPE_FEATURE && kind != TYPE_INFO && kind != TYPE_HUB && kind != TYPE_UDP {
        return Some(InvalidType);
      }
      if kind == TYPE_HUB {
        to := HUB_SID;
      }
      cmd := [buf[1], buf[2], buf[3], cmd[3]];
      if buf[4] != SPACE {
        return Some(MissingSpace);
      }
      error := ParseFields(buf, |buf| - 1);
    }

    /** The loop of `parse`. */
    method ParseFields(buf: Bytes, len: nat) returns (error: Option<Error>)
      requires Valid() && len == |buf| - 1
      modifies this`from, this`to, this`features, this`parameters
      ensures Valid()
      ensures match Body(if len < 5 then [] else buf[5..len], Parsing(old(Value()), false, false, false))
        case Err(e) => error == Some(e)
        case Ok(c) => error == None && Value() == c
    {
      hide Store, Scan, Rest, Finish;
      ghost var line, p0 := if len < 5 then [] else buf[5..len], Parsing(Value(), false, false, false);
      var cur: Bytes := [];
      var toSet, featureSet, fromSet := false, false, false;
      var i := 5;
      RestStart(buf, len);
      while i < len
        invariant Valid() && kind == old(kind) && cmd == old(cmd)
        invariant 5 <= i && (len < 5 || i <= len)
        invariant Scan(Rest(buf, i, len), cur, Parsing(Value(), fromSet, toSet, featureSet)) == Scan(line, [], p0)
      {
        ScanAt(buf, i, len, cur, Parsing(Value(), fromSet, toSet, featureSet));
        if buf[i] == BACKSLASH {
          i := i + 1;
          if i == len {
            return Some(EscapeAtEol);
          }
          if buf[i] == LOWER_S {
            cur := cur + [SPACE];
          } else if buf[i] == LOWER_N {
            cur := cur + [LF];
          } else if buf[i] == BACKSLASH {
            cur := cur + [BACKSLASH];
          } else {
            return Some(UnknownEscape);
          }
        } else if buf[i] == SPACE {
          error, fromSet, toSet, featureSet := StoreField(cur, fromSet, toSet, featureSet);
          if error != None {
            return;
          }
          cur := [];
        } else {
          cur := cur + [buf[i]];
        }
        i := i + 1;
      }
      ScanDone(buf, i, len, cur, Parsing(Value(), fromSet, toSet, featureSet));
      error := FinishFields(cur, fromSet, toSet, featureSet);
    }

    /** The end of `parse`: the last field, and whether there have been enough. */
    method FinishFields(cur: Bytes, fromWas: bool, toWas: bool, featureWas: bool) returns (error: Option<Error>)
      requires Valid()
      modifies this`from, this`to, this`features, this`parameters
      ensures Valid()
      ensures match Finish(cur, Parsing(old(Value()), fromWas, toWas, featureWas))
        case Err(e) => error == Some(e)
        case Ok(c) => error == None && Value() == c
    {
      hide Store;
      var fromSet, toSet, featureSet := fromWas, toWas, featureWas;
      if cur != [] {
        error, fromSet, toSet, featureSet := StoreField(cur, fromSet, toSet, featureSet);
        if error != None {
          return;
        }
      }
      if HasFrom(kind) && !fromSet {
        return Some(MissingFrom);
      }
      if kind == TYPE_FEATURE && !featureSet {
        return Some(MissingFeature);
      }
      if HasTo(kind) && !toSet {
        return Some(MissingTo);
      }
      return None;
    }

    /** `toString`: the kept line, or the command as it prints. */
    method ToString() returns (r: Bytes)
      ensures r == if buffer.Some? then buffer.value else Print(Value())
    {
      if buffer.Some? {
        return buffer.value;
      }
      r := [kind];
      r := r + CString(cmd);
      PrintedParts(Value());
      hide Spaced, Print;
      r := PrintTargets(r);
      r := PrintParameters(r);
      r := r + [LF];
    }

    /** The parameters, each after a space. */
    method PrintParameters(tmp: Bytes) returns (r: Bytes)
      ensures r == tmp + Spaced(EscapeAll(parameters))
    {
      r := tmp;
      NoneSpaced();
      hide Escape, EscapeAll, Spaced;
      for i := 0 to |parameters|
        invariant r == tmp + Spaced(EscapeAll(parameters[..i]))
      {
        SpacedMore(parameters, i);
        r := r + [SPACE];
        r := EscapeOnto(parameters[i], r);
      }
      assert parameters[..|parameters|] == parameters;
    }

    /** The targets, each after a space. */
    method PrintTargets(tmp: Bytes) returns (r: Bytes)
      ensures r == tmp + Spaced(Targets(Value()))
    {
      hide Spaced;
      r := tmp;
      ghost var seen: seq<Bytes> := [];
      NoneSpaced();
      if HasFrom(kind) {
        SpacedOne(seen, from);
        r := r + [SPACE];
        r := r + from;
        seen := seen + [from];
      }
      if HasTo(kind) {
        SpacedOne(seen, to);
        r := r + [SPACE];
        r := r + to;
        seen := seen + [to];
      }
      if kind == TYPE_FEATURE {
        SpacedOne(seen, features);
        r := r + [SPACE];
        r := r + features;
        seen := seen + [features];
      }
      assert seen == Targets(Value());
    }

    /** The kept line says what the command says. */
    ghost predicate UpToDate()
      reads this
    {
      buffer.Some? ==> buffer.value == Print(Value())
    }

    /** `getBuffer` prints the line once and keeps it. */
    method GetBuffer() returns (r: Bytes)
      modifies this`buffer
      ensures buffer == Some(r) && r == if old(buffer).Some? then old(buffer).value else Print(Value())
      ensures old(UpToDate()) ==> UpToDate() && r == Print(Value())
    {
      if buffer == None {
        var line := ToString();
        buffer := Some(line);
      }
      r := buffer.value;
    }

    /** `addParam` throws the kept line away. */
    method AddParam(param: Bytes)
      requires Valid()
      modifies this`parameters, this`buffer
      ensures Valid() && UpToDate() && parameters == old(parameters) + [param]
    {
      parameters := parameters + [param];
      buffer := None;
    }

    /** `setFrom` does not: the line is up to date after it only if it does not show the sender, there is none,
      * or nothing has changed. */
    method SetFrom(aFrom: Bytes)
      requires Valid() && |aFrom| == 4
      modifies this`from
      ensures Valid() && from == aFrom
      ensures old(UpToDate()) ==> (UpToDate() <==> buffer == None || !HasFrom(kind) || aFrom == old(from))
    {
      SenderShows(Value(), aFrom);
      from := aFrom;
    }
  }

  /** The bytes not yet read. */
  function Rest(buf: Bytes, i: nat, len: nat): Bytes { if i < len <= |buf| then buf[i..len] else [] }

  lemma RestNext(buf: Bytes, i: nat, len: nat)
    requires i < len <= |buf|
    ensures Rest(buf, i, len)[0] == buf[i] && Rest(buf, i, len)[1..] == Rest(buf, i + 1, len)
    ensures i + 1 < len ==> Rest(buf, i, len)[2..] == Rest(buf, i + 2, len) && Rest(buf, i, len)[1] == buf[i + 1]
    ensures |Rest(buf, i, len)| == len - i
  {}

  lemma RestStart(buf: Bytes, len: nat)
    requires len == |buf| - 1
    ensures Rest(buf, 5, len) == if len < 5 then [] else buf[5..len]
  {}

  /** One turn of the loop. */
  lemma ScanAt(buf: Bytes, i: nat, len: nat, cur: Bytes, p: Parsing)
    requires i < len <= |buf|
    ensures Scan(Rest(buf, i, len), cur, p) ==
      (if buf[i] == BACKSLASH then
         if i + 1 == len then Err(EscapeAtEol)
         else if buf[i + 1] == LOWER_S then Scan(Rest(buf, i + 2, len), cur + [SPACE], p)
         else if buf[i + 1] == LOWER_N then Scan(Rest(buf, i + 2, len), cur + [LF], p)
         else if buf[i + 1] == BACKSLASH then Scan(Rest(buf, i + 2, len), cur + [BACKSLASH], p)
         else Err(UnknownEscape)
       else if buf[i] == SPACE then
         match Store(p, cur)
         case Err(e) => Err(e)
         case Ok(p1) => Scan(Rest(buf, i + 1, len), [], p1)
       else Scan(Rest(buf, i + 1, len), cur + [buf[i]], p))
  {
    RestNext(buf, i, len);
    hide Rest, Store;
  }

  lemma ScanDone(buf: Bytes, i: nat, len: nat, cur: Bytes, p: Parsing)
    requires i >= len
    ensures Scan(Rest(buf, i, len), cur, p) == Ok((cur, p))
  {}

  lemma PrintedParts(c: Command)
    ensures Print(c) == [c.kind] + CString(c.cmd) + Spaced(Targets(c)) + Spaced(EscapeAll(c.params)) + [LF]
  {
    SpacedJoins(Targets(c), EscapeAll(c.params));
    hide Spaced, Targets;
    var start := [c.kind] + CString(c.cmd);
    assert start + (Spaced(Targets(c)) + Spaced(EscapeAll(c.params))) ==
      start + Spaced(Targets(c)) + Spaced(EscapeAll(c.params));
  }

  lemma NoneSpaced()
    ensures Spaced([]) == [] && Spaced(EscapeAll([])) == []
  {}

  lemma SpacedOne(fields: seq<Bytes>, field: Bytes)
    ensures Spaced(fields + [field]) == Spaced(fields) + [SPACE] + field
  {
    SpacedJoins(fields, [field]);
    assert Spaced([field]) == [SPACE] + field;
    assert Spaced(fields) + ([SPACE] + field) == Spaced(fields) + [SPACE] + field;
  }

  /** Whether the line of a command depends on its sender. */
  lemma SenderShows(c: Command, aFrom: Bytes)
    requires |c.from| == 4 && |aFrom| == 4
    ensures Print(c.(from := aFrom)) == Print(c) <==> !HasFrom(c.kind) || aFrom == c.from
  {
    var c1 := c.(from := aFrom);
    if HasFrom(c.kind) {
      var start := [c.kind] + CString(c.cmd) + [SPACE];
      SenderFirst(c);
      SenderFirst(c1);
      hide Print, CString;
      if Print(c1) == Print(c) {
        SamePart(start, c.from, aFrom, Spaced(Fields(c)[1..]) + [LF], Spaced(Fields(c1)[1..]) + [LF]);
      }
    }
  }

  lemma SenderFirst(c: Command)
    requires HasFrom(c.kind)
    ensures Print(c) == [c.kind] + CString(c.cmd) + [SPACE] + c.from + (Spaced(Fields(c)[1..]) + [LF])
  {
    var fields := Fields(c);
    assert fields[0] == c.from;
    hide Fields, CString;
    var start, rest := [c.kind] + CString(c.cmd), Spaced(fields[1..]);
    assert Spaced(fields) == [SPACE] + c.from + rest;
    hide Spaced;
    assert start + ([SPACE] + c.from + rest) + [LF] == start + [SPACE] + c.from + (rest + [LF]);
  }

  lemma SamePart(start: Bytes, x: Bytes, y: Bytes, rest: Bytes, rest1: Bytes)
    requires |x| == |y| && start + x + rest == start + y + rest1
    ensures x == y
  {
    var line := start + x + rest;
    assert line[|start|..|start| + |x|] == x && line[|start|..|start| + |x|] == y;
  }
}
