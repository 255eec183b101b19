/** What a line of the ADC protocol says, field by field: which field is what depends on the first byte alone. Bytes are
  * written as numbers here: 0x20 is the space, 0x5C the backslash, and 0x42 to 0x55 are the letters of the types. */
module AdcLines {
  import opened AdcCommands

  /** The parts of a text between spaces. */
  function Cut(text: Bytes): (raws: seq<Bytes>)
    ensures raws != []
    decreases |text|
  {
    if text == [] then [[]]
    else
      var rest := Cut(text[1..]);
      if text[0] == 0x20 then [[]] + rest else [[text[0]] + rest[0]] + rest[1..]
  }

  /** What a field stands for; the last one of a line is not followed by a space. */
  function Text(raw: Bytes, last: bool): Result<Bytes>
    decreases |raw|
  {
    if raw == [] then Ok([])
    else if raw[0] != 0x5C then
      match Text(raw[1..], last)
      case Err(e) => Err(e)
      case Ok(t) => Ok([raw[0]] + t)
    else if |raw| == 1 then Err(if last then EscapeAtEol else UnknownEscape)
    else if raw[1] !in [0x73, 0x6E, 0x5C] then Err(UnknownEscape)
    else
      match Text(raw[2..], last)
      case Err(e) => Err(e)
      case Ok(t) => Ok([if raw[1] == 0x73 then 0x20 else if raw[1] == 0x6E then 0x0A else 0x5C] + t)
  }

  datatype Role = Sender | Target | FeatureList | Parameter

  /** What the `i`-th field is: in broadcast (B), direct (D), echo (E) and feature (F) commands the first one is the
    * sender; in direct and echo commands the second one is the target; in feature commands it is the features. */
  function RoleOf(kind: bv8, i: nat): Role {
    if kind == 0x42 then if i == 0 then Sender else Parameter
    else if kind == 0x44 || kind == 0x45 then if i == 0 then Sender else if i == 1 then Target else Parameter
    else if kind == 0x46 then if i == 0 then Sender else if i == 1 then FeatureList else Parameter
    else Parameter
  }

  /** What is wrong with a field. */
  ghost function Wrong(role: Role, t: Bytes): Option<Error> {
    match role
    case Sender => if |t| == 4 then None else Some(SidLength)
    case Target => if |t| == 4 then None else Some(SidLength)
    case FeatureList => if |t| % 5 == 0 then None else Some(FeatureLength)
    case Parameter => if ValidUtf8(t) then None else Some(InvalidUtf8)
  }

  /** How many fields a type needs before the parameters. */
  function Needed(kind: bv8): nat {
    if kind == 0x42 then 1 else if kind == 0x44 || kind == 0x45 || kind == 0x46 then 2 else 0
  }

  /** The command that these fields make. The hub is the target of its own commands (H). */
  function Made(kind: bv8, code: Bytes, texts: seq<Bytes>): Command {
    Command(
      kind, code,
      if Needed(kind) > 0 && |texts| > 0 then texts[0] else [0xFE, 0xFF, 0xFF, 0xFF],
      if (kind == 0x44 || kind == 0x45) && |texts| > 1 then texts[1]
      else if kind == 0x48 then [0xFF, 0xFF, 0xFF, 0xFF] else [0xFE, 0xFF, 0xFF, 0xFF],
      if kind == 0x46 && |texts| > 1 then texts[1] else [],
      if |texts| > Needed(kind) then texts[Needed(kind)..] else [])
  }

  function Ended(kind: bv8, code: Bytes, texts: seq<Bytes>): Result<Command> {
    if |texts| >= Needed(kind) then Ok(Made(kind, code, texts))
    else if texts == [] then Err(MissingFrom)
    else Err(if kind == 0x46 then MissingFeature else MissingTo)
  }

  /** The fields of a line, in order, until something is wrong; an empty one at the end does not count. */
  ghost function ReadFields(kind: bv8, code: Bytes, texts: seq<Bytes>, raws: seq<Bytes>): Result<Command>
    requires raws != []
    decreases |raws|
  {
    match Text(raws[0], |raws| == 1)
    case Err(e) => Err(e)
    case Ok(t) =>
      if |raws| == 1 && t == [] then Ended(kind, code, texts)
      else
        match Wrong(RoleOf(kind, |texts|), t)
        case Some(e) => Err(e)
        case None =>
          if |raws| == 1 then Ended(kind, code, texts + [t]) else ReadFields(kind, code, texts + [t], raws[1..])
  }

  ghost function ReadLine(buf: Bytes): Result<Command> {
    if |buf| < 5 then Err(TooShort)
    else if buf[0] !in [0x42, 0x43, 0x44, 0x45, 0x46, 0x48, 0x49, 0x55] then Err(InvalidType)
    else if buf[4] != 0x20 then Err(MissingSpace)
    else ReadFields(buf[0], [buf[1], buf[2], buf[3], 0], [], Cut(if |buf| == 5 then [] else buf[5..|buf| - 1]))
  }

  // ----- the parser reads lines so ---------------------------------------------------------------------

  /** The parser when it has stored these fields. */
  function Stored(kind: bv8, code: Bytes, texts: seq<Bytes>): Parsing {
    Parsing(Made(kind, code, texts), Needed(kind) > 0 && |texts| > 0,
            (kind == 0x44 || kind == 0x45) && |texts| > 1, kind == 0x46 && |texts| > 1)
  }

  lemma StoresByRole(kind: bv8, code: Bytes, texts: seq<Bytes>, t: Bytes)
    ensures Store(Stored(kind, code, texts), t) ==
      match Wrong(RoleOf(kind, |texts|), t)
      case Some(e) => Err(e)
      case None => Ok(Stored(kind, code, texts + [t]))
  {
    hide ValidUtf8;
    assert |texts| > Needed(kind) ==> (texts + [t])[Needed(kind)..] == texts[Needed(kind)..] + [t];
    assert |texts| == Needed(kind) ==> (texts + [t])[Needed(kind)..] == [] + [t];
    assert |texts| > 0 ==> (texts + [t])[0] == texts[0];
    assert |texts| > 1 ==> (texts + [t])[1] == texts[1];
  }

  lemma CompletesSo(kind: bv8, code: Bytes, texts: seq<Bytes>)
    ensures Complete(Stored(kind, code, texts)) == Ended(kind, code, texts)
  {}

  /** One field is read, with `cur` in front of it. */
  lemma {:induction false} ScansField(raw: Bytes, rest: Bytes, cur: Bytes, p: Parsing)
    requires 0x20 !in raw && (rest != [] ==> rest[0] == 0x20)
    ensures Scan(raw + rest, cur, p) ==
      match Text(raw, rest == [])
      case Err(e) => Err(e)
      case Ok(t) => FieldEnd(cur + t, if rest == [] then None else Option.Some(rest[1..]), p)
    decreases |raw|
  {
    hide Store;
    var line := raw + rest;
    if raw == [] {
      assert line == rest && cur + [] == cur;
    } else if raw[0] != 0x5C {
      assert line[1..] == raw[1..] + rest;
      ScansField(raw[1..], rest, cur + [raw[0]], p);
      Joined(cur, raw[0], Text(raw[1..], rest == []));
    } else if |raw| > 1 {
      assert line[2..] == raw[2..] + rest && line[1] == raw[1] && raw[1] in raw;
      var b: bv8 := if raw[1] == 0x73 then 0x20 else if raw[1] == 0x6E then 0x0A else 0x5C;
      ScansField(raw[2..], rest, cur + [b], p);
      Joined(cur, b, Text(raw[2..], rest == []));
    } else if rest != [] {
      assert line[1] == 0x20;
    }
  }

  lemma Joined(cur: Bytes, b: bv8, r: Result<Bytes>)
    ensures r.Ok? ==> cur + [b] + r.value == cur + ([b] + r.value)
  {}

  /** The first part and what is behind it. */
  lemma {:induction false} CutFirst(text: Bytes)
    ensures var raws := Cut(text);
      && 0x20 !in raws[0] && raws[0] <= text
      && if |raws| == 1 then raws[0] == text
         else |raws[0]| < |text| && text[|raws[0]|] == 0x20 && Cut(text[|raws[0]| + 1..]) == raws[1..]
    decreases |text|
  {
    if text != [] {
      CutFirst(text[1..]);
      var raws, rest := Cut(text), Cut(text[1..]);
      if text[0] == 0x20 {
        assert text[|raws[0]| + 1..] == text[1..];
      } else if |raws| > 1 {
        assert text[|raws[0]| + 1..] == text[1..][|rest[0]| + 1..];
      }
    }
  }

  lemma {:induction false} BodyIsFields(kind: bv8, code: Bytes, texts: seq<Bytes>, text: Bytes)
    ensures Body(text, Stored(kind, code, texts)) == ReadFields(kind, code, texts, Cut(text))
    decreases |text|
  {
    hide Store, Scan, Stored, Cut, Wrong, RoleOf, Complete, Ended, Text, Needed, Made;
    var raws, p := Cut(text), Stored(kind, code, texts);
    CutFirst(text);
    var rest := text[|raws[0]|..];
    assert text == raws[0] + rest;
    ScansField(raws[0], rest, [], p);
    var r := Text(raws[0], |raws| == 1);
    if r.Ok? {
      var t := r.value;
      assert [] + t == t;
      StoresByRole(kind, code, texts, t);
      CompletesSo(kind, code, texts);
      CompletesSo(kind, code, texts + [t]);
      if |raws| > 1 && Wrong(RoleOf(kind, |texts|), t) == None {
        assert rest[1..] == text[|raws[0]| + 1..];
        BodyIsFields(kind, code, texts + [t], rest[1..]);
      }
    }
  }

  /** Every line is read field by field, and refused for the first thing that is wrong with it. */
  lemma LineIsFields(buf: Bytes)
    ensures ParseLine(BLANK, buf) == ReadLine(buf)
  {
    if |buf| >= 5 {
      var code := [buf[1], buf[2], buf[3], 0];
      if |buf| == 5 {
        assert Text([], true) == Ok([]) && Cut([]) == [[]];
        CompletesSo(buf[0], code, []);
      } else {
        BodyIsFields(buf[0], code, [], buf[5..|buf| - 1]);
      }
      hide ReadFields, Body, Cut, Complete;
    }
  }

  // ----- what an accepted line says --------------------------------------------------------------------

  /** The texts of the fields, an empty one at the end left out. */
  ghost predicate AreTexts(raws: seq<Bytes>, texts: seq<Bytes>) {
    && (|raws| == |texts| || (|raws| == |texts| + 1 && Text(raws[|texts|], true) == Ok([])))
    && (forall i :: 0 <= i < |texts| ==> Text(raws[i], i == |raws| - 1) == Ok(texts[i]))
    && (texts != [] && |raws| == |texts| ==> texts[|texts| - 1] != [])
  }

  lemma {:induction false} AcceptedFields(kind: bv8, code: Bytes, done: seq<Bytes>, raws: seq<Bytes>)
    returns (texts: seq<Bytes>)
    requires raws != [] && ReadFields(kind, code, done, raws).Ok?
    ensures AreTexts(raws, texts) && |done| + |texts| >= Needed(kind)
    ensures forall i :: 0 <= i < |texts| ==> Wrong(RoleOf(kind, |done| + i), texts[i]) == None
    ensures ReadFields(kind, code, done, raws) == Ok(Made(kind, code, done + texts))
    decreases |raws|
  {
    hide Text, Wrong, RoleOf, Made;
    var t := Text(raws[0], |raws| == 1).value;
    if |raws| == 1 && t == [] {
      texts := [];
      assert done + [] == done;
    } else if |raws| == 1 {
      texts := [t];
    } else {
      var more := AcceptedFields(kind, code, done + [t], raws[1..]);
      texts := [t] + more;
      assert done + [t] + more == done + texts;
      forall i | 0 <= i < |texts|
        ensures Wrong(RoleOf(kind, |done| + i), texts[i]) == None && Text(raws[i], i == |raws| - 1) == Ok(texts[i])
      {
        if i > 0 {
          assert texts[i] == more[i - 1] && raws[i] == raws[1..][i - 1];
        }
      }
      assert |texts| < |raws| ==> raws[|texts|] == raws[1..][|more|];
    }
  }

  /** A command and its fields, by its type: in direct (D) and echo (E) commands the first two fields are the sender and
    * the target, in broadcasts (B) the first is the sender, in feature commands (F) the first two are the sender and
    * the features, and all other fields are parameters, as are all those of the other types. */
  predicate ByType(c: Command, texts: seq<Bytes>) {
    && (c.kind == 0x44 || c.kind == 0x45 ==>
          |texts| >= 2 && c.from == texts[0] && c.to == texts[1] && c.features == [] && c.params == texts[2..])
    && (c.kind == 0x46 ==> |texts| >= 2 && c.from == texts[0] && c.features == texts[1] && c.params == texts[2..])
    && (c.kind == 0x42 ==> |texts| >= 1 && c.from == texts[0] && c.features == [] && c.params == texts[1..])
    && (c.kind in [0x43, 0x48, 0x49, 0x55] ==> c.features == [] && c.params == texts)
    && c.kind in [0x42, 0x43, 0x44, 0x45, 0x46, 0x48, 0x49, 0x55]
    && (c.kind == 0x48 ==> c.to == [0xFF, 0xFF, 0xFF, 0xFF])
  }

  /** What an accepted line says. */
  lemma AcceptedLine(buf: Bytes) returns (texts: seq<Bytes>)
    requires ParseLine(BLANK, buf).Ok?
    ensures |buf| >= 5 && buf[4] == 0x20 && AreTexts(Cut(if |buf| == 5 then [] else buf[5..|buf| - 1]), texts)
    ensures var c := ParseLine(BLANK, buf).value;
      && c.kind == buf[0] && c.cmd == [buf[1], buf[2], buf[3], 0] && ByType(c, texts)
      && |c.from| == 4 && |c.to| == 4 && |c.features| % 5 == 0
      && forall i :: 0 <= i < |c.params| ==> ValidUtf8(c.params[i])
  {
    hide ReadFields, ValidUtf8, ParseLine, Cut, AreTexts, ByType;
    LineIsFields(buf);
    texts := AcceptedBody(buf[0], [buf[1], buf[2], buf[3], 0], Cut(if |buf| == 5 then [] else buf[5..|buf| - 1]));
  }

  lemma AcceptedBody(kind: bv8, code: Bytes, raws: seq<Bytes>) returns (texts: seq<Bytes>)
    requires kind in [0x42, 0x43, 0x44, 0x45, 0x46, 0x48, 0x49, 0x55]
    requires raws != [] && ReadFields(kind, code, [], raws).Ok?
    ensures AreTexts(raws, texts)
    ensures var c := ReadFields(kind, code, [], raws).value;
      && c.kind == kind && c.cmd == code && ByType(c, texts)
      && |c.from| == 4 && |c.to| == 4 && |c.features| % 5 == 0
      && forall i :: 0 <= i < |c.params| ==> ValidUtf8(c.params[i])
  {
    hide ReadFields, ValidUtf8, AreTexts, Made, Wrong, RoleOf, ByType, Needed;
    texts := AcceptedFields(kind, code, [], raws);
    assert [] + texts == texts;
    ParametersValid(kind, code, texts);
    MadeByType(kind, code, texts);
  }

  lemma MadeByType(kind: bv8, code: Bytes, texts: seq<Bytes>)
    requires |texts| >= Needed(kind) && kind in [0x42, 0x43, 0x44, 0x45, 0x46, 0x48, 0x49, 0x55]
    ensures var c := Made(kind, code, texts); c.kind == kind && c.cmd == code && ByType(c, texts)
  {}

  lemma ParametersValid(kind: bv8, code: Bytes, texts: seq<Bytes>)
    requires |texts| >= Needed(kind) && forall i :: 0 <= i < |texts| ==> Wrong(RoleOf(kind, i), texts[i]) == None
    ensures var c := Made(kind, code, texts);
      && |c.from| == 4 && |c.to| == 4 && |c.features| % 5 == 0
      && forall i :: 0 <= i < |c.params| ==> ValidUtf8(c.params[i])
  {
    hide ValidUtf8;
    forall i | Needed(kind) <= i < |texts|
      ensures ValidUtf8(texts[i])
    {
      assert Wrong(RoleOf(kind, i), texts[i]) == None;
    }
  }

  /** What is printed, by the type: the targets as they are, and the parameters with space, line feed and backslash
    * escaped. */
  lemma PrintedByType(c: Command)
    ensures Fields(c) ==
      (if c.kind == 0x44 || c.kind == 0x45 then [c.from, c.to]
       else if c.kind == 0x46 then [c.from, c.features]
       else if c.kind == 0x42 then [c.from] else []) + EscapeAll(c.params)
  {
    hide EscapeAll;
  }

  lemma {:induction false} EscapedText(s: Bytes, last: bool)
    ensures 0x20 !in Escape(s) && 0x0A !in Escape(s) && Text(Escape(s), last) == Ok(s)
    decreases |s|
  {
    if s != [] {
      EscapedText(s[1..], last);
      var rest := Escape(s[1..]);
      assert EscapeByte(s[0]) + rest == Escape(s);
      assert (EscapeByte(s[0]) + rest)[|EscapeByte(s[0])|..] == rest;
      assert [s[0]] + s[1..] == s;
    }
  }
}
