/** UTF-8: the decoder and the encoder of the hub, against the definition in RFC 3629. */
module Utf8 {

  const ERROR_CHAR: bv32 := 0xFFFD

  // ----- RFC 3629 --------------------------------------------------------------------------------------

  /** A Unicode scalar value: a code point that is not a surrogate. */
  predicate Scalar(c: bv32) { c < 0x110000 && !(0xD800 <= c <= 0xDFFF) }

  predicate AllScalar(w: seq<bv32>) { forall i :: 0 <= i < |w| ==> Scalar(w[i]) }

  predicate Tail(b: bv8) { b & 0xC0 == 0x80 }

  // The rows of the table in section 3 of RFC 3629: the form of the octets, and the number in their free bits.

  predicate Lead1(a: bv8) { a & 0x80 == 0 }

  predicate Lead2(a: bv8) { a & 0xE0 == 0xC0 }

  predicate Lead3(a: bv8) { a & 0xF0 == 0xE0 }

  predicate Lead4(a: bv8) { a & 0xF8 == 0xF0 }

  function Bits1(a: bv8): bv32 { a as bv32 }

  function Bits2(a: bv8, b: bv8): bv32 { ((a & 0x1F) as bv32 << 6) | (b & 0x3F) as bv32 }

  function Bits3(a: bv8, b: bv8, d: bv8): bv32 {
    ((a & 0xF) as bv32 << 12) | ((b & 0x3F) as bv32 << 6) | (d & 0x3F) as bv32
  }

  function Bits4(a: bv8, b: bv8, d: bv8, e: bv8): bv32 {
    ((a & 0x7) as bv32 << 18) | ((b & 0x3F) as bv32 << 12) | ((d & 0x3F) as bv32 << 6) | (e & 0x3F) as bv32
  }

  /** The octets are those of the row that the character belongs to. */
  predicate Represents(c: bv32, s: seq<bv8>) {
    Scalar(c) &&
    if c <= 0x7F then |s| == 1 && Lead1(s[0]) && c == Bits1(s[0])
    else if c <= 0x7FF then |s| == 2 && Lead2(s[0]) && Tail(s[1]) && c == Bits2(s[0], s[1])
    else if c <= 0xFFFF then |s| == 3 && Lead3(s[0]) && Tail(s[1]) && Tail(s[2]) && c == Bits3(s[0], s[1], s[2])
    else |s| == 4 && Lead4(s[0]) && Tail(s[1]) && Tail(s[2]) && Tail(s[3]) && c == Bits4(s[0], s[1], s[2], s[3])
  }

  // The syntax of a character in section 4 of RFC 3629.

  predicate Char1(a: bv8) { a <= 0x7F }

  predicate Char2(a: bv8, b: bv8) { 0xC2 <= a <= 0xDF && 0x80 <= b <= 0xBF }

  predicate Char3(a: bv8, b: bv8, d: bv8) {
    0x80 <= d <= 0xBF &&
    ( || (a == 0xE0 && 0xA0 <= b <= 0xBF)
      || (0xE1 <= a <= 0xEC && 0x80 <= b <= 0xBF)
      || (a == 0xED && 0x80 <= b <= 0x9F)
      || (0xEE <= a <= 0xEF && 0x80 <= b <= 0xBF))
  }

  predicate Char4(a: bv8, b: bv8, d: bv8, e: bv8) {
    0x80 <= d <= 0xBF && 0x80 <= e <= 0xBF &&
    ( || (a == 0xF0 && 0x90 <= b <= 0xBF)
      || (0xF1 <= a <= 0xF3 && 0x80 <= b <= 0xBF)
      || (a == 0xF4 && 0x80 <= b <= 0x8F))
  }

  predicate Utf8Char(s: seq<bv8>) {
    || (|s| == 1 && Char1(s[0]))
    || (|s| == 2 && Char2(s[0], s[1]))
    || (|s| == 3 && Char3(s[0], s[1], s[2]))
    || (|s| == 4 && Char4(s[0], s[1], s[2], s[3]))
  }

  /** `UTF8-octets`: any number of characters, one after the other. */
  ghost predicate Utf8Octets(s: seq<bv8>)
    decreases |s|
  {
    s == [] || exists n :: 0 < n <= |s| && Utf8Char(s[..n]) && Utf8Octets(s[n..])
  }

  // ----- one character ---------------------------------------------------------------------------------

  // The bytes that are written: the lead bytes, and six bits from the place `n` on.

  function First1(c: bv32): bv8
    requires c < 0x80
  {
    c as bv8
  }

  function First2(c: bv32): bv8
    requires c < 0x800
  {
    (0xC0 | (c >> 6)) as bv8
  }

  function First3(c: bv32): bv8
    requires c < 0x10000
  {
    (0xE0 | (c >> 12)) as bv8
  }

  function First4(c: bv32): bv8
    requires c < 0x110000
  {
    (0xF0 | (c >> 18)) as bv8
  }

  function Next0(c: bv32): bv8 { (0x80 | (c & 0x3F)) as bv8 }

  function Next6(c: bv32): bv8 { (0x80 | ((c >> 6) & 0x3F)) as bv8 }

  function Next12(c: bv32): bv8 { (0x80 | ((c >> 12) & 0x3F)) as bv8 }

  /** `wcToUtf8` */
  function WcToUtf8(value: bv32): (s: seq<bv8>)
    requires value < 0x110000
    ensures 1 <= |s| <= 4 && !Tail(s[0])
  {
    if value < 0x80 then [First1(value)]
    else if value < 0x800 then [First2(value), Next0(value)]
    else if value < 0x10000 then [First3(value), Next6(value), Next0(value)]
    else [First4(value), Next12(value), Next6(value), Next0(value)]
  }

  /** What `utf8ToWc` finds: a character and its size, or the number of bytes to skip. */
  datatype Decoded = Good(size: nat, wc: bv32) | Bad(skip: nat)

  /** The first bits of a character of four octets, which are tested before the others are there. */
  function High4(a: bv8): bv32 { (a & 0x7) as bv32 << 18 }

  function Mid4(a: bv8, b: bv8): bv32 { High4(a) | ((b & 0x3F) as bv32 << 12) }

  function Low4(a: bv8, b: bv8, d: bv8, e: bv8): bv32 { Mid4(a, b) | (((d & 0x3F) as bv32 << 6) | (e & 0x3F) as bv32) }

  /** `utf8ToWc` */
  function Utf8ToWc(s: seq<bv8>, pos: nat): (r: Decoded)
    requires pos < |s|
  {
    if Lead1(s[pos]) then Good(1, Bits1(s[pos]))
    else if Tail(s[pos]) then Bad(1)
    else if Lead2(s[pos]) then
      if |s| - pos < 2 || !Tail(s[pos + 1]) then Bad(1)
      else
        var wc := Bits2(s[pos], s[pos + 1]);
        if wc < 0x80 then Bad(1) else Good(2, wc)
    else if Lead3(s[pos]) then
      if |s| - pos < 2 || !Tail(s[pos + 1]) then Bad(1)
      else if |s| - pos < 3 || !Tail(s[pos + 2]) then Bad(2)
      else
        var wc := Bits3(s[pos], s[pos + 1], s[pos + 2]);
        if wc < 0x800 then Bad(2)
        else if wc >= 0xD800 && wc <= 0xDFFF then Bad(2)
        else Good(3, wc)
    else if Lead4(s[pos]) then
      if |s| - pos < 2 || !Tail(s[pos + 1]) then Bad(1)
      else
        var wc := High4(s[pos]);
        if wc > 0x10FFFF then Bad(1)
        else if |s| - pos < 3 || !Tail(s[pos + 2]) then Bad(2)
        else
          var wc := Mid4(s[pos], s[pos + 1]);
          if wc > 0x10FFFF || wc < 0x10000 then Bad(2)
          else if |s| - pos < 4 || !Tail(s[pos + 3]) then Bad(3)
          else Good(4, Low4(s[pos], s[pos + 1], s[pos + 2], s[pos + 3]))
    else Bad(1)
  }

  // Bit by bit, for one row of the table at a time.

  lemma Fits1(a: bv8)
    requires Lead1(a)
    ensures Bits1(a) <= 0x7F
  {}

  lemma Fits2(a: bv8, b: bv8)
    ensures Bits2(a, b) <= 0x7FF
  {}

  lemma Fits3(a: bv8, b: bv8, d: bv8)
    ensures Bits3(a, b, d) <= 0xFFFF
  {}

  /** The decoder tests the high bits before it has the low ones. */
  lemma Fits4(a: bv8, b: bv8, d: bv8, e: bv8)
    ensures Bits4(a, b, d, e) == Low4(a, b, d, e)
    ensures 0x10000 <= Bits4(a, b, d, e) <= 0x10FFFF <==> High4(a) <= 0x10FFFF && 0x10000 <= Mid4(a, b) <= 0x10FFFF
  {}

  /** One lead byte, one row. */
  lemma Leads(a: bv8)
    ensures Lead1(a) ==> !Lead2(a) && !Lead3(a) && !Lead4(a) && !Tail(a)
    ensures Lead2(a) ==> !Lead3(a) && !Lead4(a) && !Tail(a)
    ensures Lead3(a) ==> !Lead4(a) && !Tail(a)
    ensures Lead4(a) ==> !Tail(a)
  {}

  /** The decoder finds the characters of the table, and only those. */
  lemma DecoderIsTable(s: seq<bv8>, n: nat, c: bv32)
    requires s != []
    ensures Utf8ToWc(s, 0) == Good(n, c) <==> n <= |s| && Represents(c, s[..n])
  {
    if Utf8ToWc(s, 0) == Good(n, c) {
      DecodedIsRow(s, n, c);
      var t := s[..n];
      assert forall i :: 0 <= i < n ==> t[i] == s[i];
    } else if n <= |s| && Represents(c, s[..n]) {
      RowIsDecoded(s, n, c);
    }
  }

  lemma DecodedIsRow(s: seq<bv8>, n: nat, c: bv32)
    requires s != [] && Utf8ToWc(s, 0) == Good(n, c)
    ensures n <= |s| && Represents(c, s[..n])
  {
    hide Lead1, Lead2, Lead3, Lead4, Tail, Bits1, Bits2, Bits3, Bits4, High4, Mid4, Low4;
    var a := s[0];
    Leads(a);
    if n == 1 {
      Fits1(a);
    } else if n == 2 {
      Fits2(a, s[1]);
    } else if n == 3 {
      Fits3(a, s[1], s[2]);
    } else {
      Fits4(a, s[1], s[2], s[3]);
    }
  }

  lemma RowIsDecoded(s: seq<bv8>, n: nat, c: bv32)
    requires s != [] && n <= |s| && Represents(c, s[..n])
    ensures Utf8ToWc(s, 0) == Good(n, c)
  {
    hide Lead1, Lead2, Lead3, Lead4, Tail, Bits1, Bits2, Bits3, Bits4, High4, Mid4, Low4;
    var t := s[..n];
    assert forall i :: 0 <= i < n ==> t[i] == s[i];
    Leads(t[0]);
    if n == 4 {
      Fits4(s[0], s[1], s[2], s[3]);
    }
  }

  /** How far the decoder moves on. */
  function Step(r: Decoded): nat { match r case Good(n, _) => n case Bad(k) => k }

  /** The decoder stays in the string. */
  lemma StepFits(s: seq<bv8>, pos: nat)
    requires pos < |s|
    ensures 1 <= Step(Utf8ToWc(s, pos)) && pos + Step(Utf8ToWc(s, pos)) <= |s|
  {
    hide Lead1, Lead2, Lead3, Lead4, Tail, Bits1, Bits2, Bits3, High4, Mid4, Low4;
  }

  /** What is skipped is there, and no character starts in the middle of it. */
  lemma SkipsNoCharacter(s: seq<bv8>, pos: nat)
    requires pos < |s|
    ensures match Utf8ToWc(s, pos)
      case Good(n, c) => 1 <= n <= 4 && pos + n <= |s| && Scalar(c) && !Tail(s[pos]) && forall j :: pos < j < pos + n ==> Tail(s[j])
      case Bad(k) => 1 <= k <= 3 && pos + k <= |s| && forall j :: pos < j < pos + k ==> Tail(s[j])
  {
  }

  /** There is a byte 10xxxxxx. */
  predicate Continues(s: seq<bv8>, i: nat) { i < |s| && 0x80 <= s[i] <= 0xBF }

  /** How many bytes one error character stands for: a byte that begins no character, or the beginning of one, up to
    * where it is seen to go wrong. */
  function ErrorLength(s: seq<bv8>, pos: nat): nat
    requires pos < |s|
  {
    var a := s[pos];
    if !(0xE0 <= a <= 0xF4) || !Continues(s, pos + 1) then 1
    else if a < 0xF0 || !Continues(s, pos + 2) then 2
    else if (a == 0xF0 && s[pos + 1] < 0x90) || (a == 0xF4 && s[pos + 1] > 0x8F) then 2
    else 3
  }

  lemma LeadRanges(a: bv8)
    ensures (Lead1(a) <==> a <= 0x7F) && (Lead2(a) <==> 0xC0 <= a <= 0xDF)
    ensures (Lead3(a) <==> 0xE0 <= a <= 0xEF) && (Lead4(a) <==> 0xF0 <= a <= 0xF7)
  {}

  lemma FourTooHigh(a: bv8, b: bv8)
    requires Lead4(a)
    ensures High4(a) > 0x10FFFF <==> a > 0xF4
    ensures Tail(b) && a <= 0xF4 ==>
      (Mid4(a, b) > 0x10FFFF || Mid4(a, b) < 0x10000 <==> (a == 0xF0 && b < 0x90) || (a == 0xF4 && b > 0x8F))
  {}

  /** An invalid part of a string is skipped in these steps, with an error character for each. */
  lemma SkipsErrors(s: seq<bv8>, pos: nat)
    requires pos < |s| && Utf8ToWc(s, pos).Bad?
    ensures Utf8ToWc(s, pos).skip == ErrorLength(s, pos)
    ensures DecodeFrom(s, pos) == [ERROR_CHAR] + DecodeFrom(s, pos + ErrorLength(s, pos))
  {
    hide Lead1, Lead2, Lead3, Lead4, Tail, Bits1, Bits2, Bits3, High4, Mid4, Low4, DecodeFrom;
    var a := s[pos];
    LeadRanges(a);
    forall i | 0 <= i < |s| ensures Tail(s[i]) <==> 0x80 <= s[i] <= 0xBF { TailRange(s[i]); }
    if Lead4(a) {
      FourTooHigh(a, if pos + 1 < |s| then s[pos + 1] else 0);
    }
    Advance(s, pos);
  }

  /** The encoder writes the octets of the table. */
  lemma EncoderIsTable(c: bv32, s: seq<bv8>)
    requires Scalar(c)
    ensures Represents(c, s) <==> s == WcToUtf8(c)
  {
    hide Lead1, Lead2, Lead3, Lead4, Tail, Bits1, Bits2, Bits3, Bits4, First1, First2, First3, First4, Next0, Next6,
      Next12;
    if c < 0x80 {
      if |s| == 1 { Encodes1(s[0], c); }
    } else if c < 0x800 {
      if |s| == 2 { Encodes2(s[0], s[1], c); }
    } else if c < 0x10000 {
      if |s| == 3 { Encodes3(s[0], s[1], s[2], c); }
    } else {
      if |s| == 4 { Encodes4(s[0], s[1], s[2], s[3], c); }
    }
  }

  lemma Encodes1(a: bv8, c: bv32)
    requires c < 0x80
    ensures Lead1(a) && c == Bits1(a) <==> a == First1(c)
  {}

  lemma Encodes2(a: bv8, b: bv8, c: bv32)
    requires 0x80 <= c < 0x800
    ensures Lead2(a) && Tail(b) && c == Bits2(a, b) <==> a == First2(c) && b == Next0(c)
  {}

  lemma Encodes3(a: bv8, b: bv8, d: bv8, c: bv32)
    requires 0x800 <= c < 0x10000
    ensures Lead3(a) && Tail(b) && Tail(d) && c == Bits3(a, b, d) <==> a == First3(c) && b == Next6(c) && d == Next0(c)
  {
    hide Lead3, Tail, Bits3, First3, Next6, Next0;
    BitsOf3(a, b, d, c);
    WrittenBits(c);
    First3Is(c);
  }

  lemma WrittenBits(c: bv32)
    ensures Next0(c) == (0x80 | (c & 0x3F)) as bv8 && Next6(c) == (0x80 | ((c >> 6) & 0x3F)) as bv8
    ensures Next12(c) == (0x80 | ((c >> 12) & 0x3F)) as bv8
  {}

  lemma First3Is(c: bv32)
    requires c < 0x10000
    ensures First3(c) == (0xE0 | (c >> 12)) as bv8
  {}

  lemma First4Is(c: bv32)
    requires c < 0x110000
    ensures First4(c) == (0xF0 | (c >> 18)) as bv8
  {}

  lemma BitsOf3(a: bv8, b: bv8, d: bv8, c: bv32)
    requires 0x800 <= c < 0x10000
    ensures var is3 := Lead3(a) && Tail(b) && Tail(d) && c == Bits3(a, b, d);
      is3 <==>
        a == (0xE0 | (c >> 12)) as bv8 && b == (0x80 | ((c >> 6) & 0x3F)) as bv8 && d == (0x80 | (c & 0x3F)) as bv8
  {}

  lemma Encodes4(a: bv8, b: bv8, d: bv8, e: bv8, c: bv32)
    requires 0x10000 <= c < 0x110000
    ensures var is4 := Lead4(a) && Tail(b) && Tail(d) && Tail(e) && c == Bits4(a, b, d, e);
      is4 <==> a == First4(c) && b == Next12(c) && d == Next6(c) && e == Next0(c)
  {
    hide Lead4, Tail, Bits4, First4, Next12, Next6, Next0;
    BitsOf4(a, b, d, e, c);
    WrittenBits(c);
    First4Is(c);
  }

  lemma BitsOf4(a: bv8, b: bv8, d: bv8, e: bv8, c: bv32)
    requires 0x10000 <= c < 0x110000
    ensures var is4 := Lead4(a) && Tail(b) && Tail(d) && Tail(e) && c == Bits4(a, b, d, e);
      var high := a == (0xF0 | (c >> 18)) as bv8 && b == (0x80 | ((c >> 12) & 0x3F)) as bv8;
      is4 <==> high && d == (0x80 | ((c >> 6) & 0x3F)) as bv8 && e == (0x80 | (c & 0x3F)) as bv8
  {}

  /** The two definitions in RFC 3629 agree. */
  lemma TableIsSyntax(s: seq<bv8>)
    ensures Utf8Char(s) <==> exists c :: Represents(c, s)
  {
    if |s| == 1 {
      Syntax1(s[0]);
      if Utf8Char(s) { assert Represents(Bits1(s[0]), s); }
    } else if |s| == 2 {
      Syntax2(s[0], s[1]);
      if Utf8Char(s) { assert Represents(Bits2(s[0], s[1]), s); }
    } else if |s| == 3 {
      Syntax3(s[0], s[1], s[2]);
      if Utf8Char(s) { assert Represents(Bits3(s[0], s[1], s[2]), s); }
    } else if |s| == 4 {
      Syntax4(s[0], s[1], s[2], s[3]);
      if Utf8Char(s) { assert Represents(Bits4(s[0], s[1], s[2], s[3]), s); }
    }
    hide Lead1, Lead2, Lead3, Lead4, Tail, Bits1, Bits2, Bits3, Bits4;
  }

  lemma Syntax1(a: bv8)
    ensures Char1(a) <==> Lead1(a)
    ensures Lead1(a) ==> Bits1(a) <= 0x7F
  {}

  lemma Syntax2(a: bv8, b: bv8)
    ensures Char2(a, b) <==> Lead2(a) && Tail(b) && 0x80 <= Bits2(a, b)
    ensures Bits2(a, b) <= 0x7FF
  {}

  lemma Syntax3(a: bv8, b: bv8, d: bv8)
    ensures Char3(a, b, d) <==> Lead3(a) && Tail(b) && Tail(d) && 0x800 <= Bits3(a, b, d) && Scalar(Bits3(a, b, d))
    ensures Bits3(a, b, d) <= 0xFFFF
  {}

  lemma Syntax4(a: bv8, b: bv8, d: bv8, e: bv8)
    ensures Char4(a, b, d, e) <==>
      Lead4(a) && Tail(b) && Tail(d) && Tail(e) && 0x10000 <= Bits4(a, b, d, e) && Scalar(Bits4(a, b, d, e))
  {
    Fits4(a, b, d, e);
    Start4(a, b);
    TailRange(d);
    TailRange(e);
    hide Lead4, Tail, Bits4, High4, Mid4;
  }

  lemma Start4(a: bv8, b: bv8)
    ensures Char4(a, b, 0x80, 0x80) <==>
      Lead4(a) && Tail(b) && High4(a) <= 0x10FFFF && 0x10000 <= Mid4(a, b) <= 0x10FFFF
  {}

  lemma TailRange(b: bv8)
    ensures Tail(b) <==> 0x80 <= b <= 0xBF
  {}

  // ----- strings ---------------------------------------------------------------------------------------

  /** What `utf8ToWide` makes of a string. */
  function Decode(s: seq<bv8>): seq<bv32> { DecodeFrom(s, 0) }

  function DecodeFrom(s: seq<bv8>, pos: nat): seq<bv32>
    requires pos <= |s|
    decreases |s| - pos
  {
    if pos == |s| then []
    else
      StepFits(s, pos);
      match Utf8ToWc(s, pos)
      case Good(n, c) => [c] + DecodeFrom(s, pos + n)
      case Bad(k) => [ERROR_CHAR] + DecodeFrom(s, pos + k)
  }

  /** No part of the string is bad. */
  predicate AllGood(s: seq<bv8>, pos: nat)
    requires pos <= |s|
    decreases |s| - pos
  {
    pos == |s| ||
    (StepFits(s, pos);
     Utf8ToWc(s, pos).Good? && AllGood(s, pos + Utf8ToWc(s, pos).size))
  }

  /** What `wideToUtf8` makes of a string: whatever is not a code point becomes an error character. */
  function Encode(w: seq<bv32>): seq<bv8> {
    if w == [] then [] else WcToUtf8(CodePoint(w[0])) + Encode(w[1..])
  }

  function CodePoint(value: bv32): (c: bv32)
    ensures c < 0x110000
  {
    if value < 0x110000 then value else ERROR_CHAR
  }

  // ----- what the strings mean -------------------------------------------------------------------------

  lemma WcOfSuffix(s: seq<bv8>, pos: nat)
    requires pos < |s|
    ensures Utf8ToWc(s, pos) == Utf8ToWc(s[pos..], 0)
  {
    hide Lead1, Lead2, Lead3, Lead4, Tail, Bits1, Bits2, Bits3, High4, Mid4, Low4;
    var t := s[pos..];
    assert |t| == |s| - pos && forall i :: 0 <= i < |t| ==> t[i] == s[pos + i];
  }

  /** Only the bytes from `pos` on matter. */
  lemma {:induction false} FromSuffix(s: seq<bv8>, pos: nat)
    requires pos <= |s|
    ensures DecodeFrom(s, pos) == Decode(s[pos..]) && (AllGood(s, pos) <==> AllGood(s[pos..], 0))
    decreases |s| - pos
  {
    hide Utf8ToWc, DecodeFrom, AllGood;
    if pos == |s| {
      AtEnd(s);
      AtEnd(s[pos..]);
    } else {
      var t := s[pos..];
      WcOfSuffix(s, pos);
      Advance(s, pos);
      Advance(t, 0);
      var n := Step(Utf8ToWc(s, pos));
      FromSuffix(s, pos + n);
      FromSuffix(t, n);
      assert t[n..] == s[pos + n..];
    }
  }

  lemma Advance(s: seq<bv8>, pos: nat)
    requires pos < |s|
    ensures var r := Utf8ToWc(s, pos);
      && 1 <= Step(r) && pos + Step(r) <= |s|
      && DecodeFrom(s, pos) == [if r.Good? then r.wc else ERROR_CHAR] + DecodeFrom(s, pos + Step(r))
      && (AllGood(s, pos) <==> r.Good? && AllGood(s, pos + Step(r)))
  {
    hide Utf8ToWc;
    StepFits(s, pos);
  }

  /** A string cut before a byte that can begin a character is decoded in two parts: after any garbage, the
    * decoder finds every character that follows. */
  lemma {:induction false} Resynchronizes(s: seq<bv8>, t: seq<bv8>)
    requires t != [] ==> !Tail(t[0])
    ensures Decode(s + t) == Decode(s) + Decode(t)
    decreases |s|
  {
    if s == [] {
      assert s + t == t;
    } else {
      hide Utf8ToWc, Tail, DecodeFrom, Decode, AllGood, Step;
      CutBefore(s, t);
      var n := Step(Utf8ToWc(s, 0));
      DecodeFirst(s);
      DecodeFirst(s + t);
      assert (s + t)[n..] == s[n..] + t;
      Resynchronizes(s[n..], t);
      Associates(FirstOf(Utf8ToWc(s, 0)), Decode(s[n..]), Decode(t));
    }
  }

  /** What the first step of the decoder puts out. */
  function FirstOf(r: Decoded): seq<bv32> { [if r.Good? then r.wc else ERROR_CHAR] }

  lemma DecodeFirst(s: seq<bv8>)
    requires s != []
    ensures var r := Utf8ToWc(s, 0); 1 <= Step(r) <= |s| && Decode(s) == FirstOf(r) + Decode(s[Step(r)..])
  {
    hide Utf8ToWc, DecodeFrom, AllGood;
    Advance(s, 0);
    FromSuffix(s, Step(Utf8ToWc(s, 0)));
  }

  lemma Associates(x: seq<bv32>, y: seq<bv32>, z: seq<bv32>)
    ensures x + (y + z) == (x + y) + z
  {}

  lemma CutBefore(s: seq<bv8>, t: seq<bv8>)
    requires s != [] && (t != [] ==> !Tail(t[0]))
    ensures Utf8ToWc(s + t, 0) == Utf8ToWc(s, 0)
  {
    hide Utf8ToWc, Tail;
    SameStart(s, s + t);
  }

  lemma SameStart(s: seq<bv8>, u: seq<bv8>)
    requires 0 < |s| <= |u| && (forall i :: 0 <= i < |s| ==> u[i] == s[i]) && (|s| < |u| ==> !Tail(u[|s|]))
    ensures Utf8ToWc(u, 0) == Utf8ToWc(s, 0)
  {
    hide Lead1, Lead2, Lead3, Lead4, Tail, Bits1, Bits2, Bits3, High4, Mid4, Low4;
  }

  /** One encoded character at the front. */
  lemma EncodedFirst(c: bv32, t: seq<bv8>)
    requires Scalar(c)
    ensures Utf8ToWc(WcToUtf8(c) + t, 0) == Good(|WcToUtf8(c)|, c)
  {
    var s := WcToUtf8(c);
    hide WcToUtf8, Utf8ToWc, Represents;
    EncoderIsTable(c, s);
    assert (s + t)[..|s|] == s;
    DecoderIsTable(s + t, |s|, c);
  }

  /** Encoded scalar values are valid, and decoded to themselves. */
  lemma {:induction false} DecodeEncoded(w: seq<bv32>)
    requires AllScalar(w)
    ensures AllGood(Encode(w), 0) && Decode(Encode(w)) == w
  {
    if w != [] {
      var c, t := w[0], Encode(w[1..]);
      DecodeEncoded(w[1..]);
      EncodedFirst(c, t);
      var s := WcToUtf8(c) + t;
      hide WcToUtf8, Utf8ToWc;
      assert s[|WcToUtf8(c)|..] == t;
      FromSuffix(s, |WcToUtf8(c)|);
      assert w == [c] + w[1..];
    }
  }

  /** What has been decoded is made of scalar values; encoded again, a valid string is as before. */
  lemma {:induction false} EncodeDecoded(s: seq<bv8>)
    ensures AllScalar(Decode(s)) && (AllGood(s, 0) ==> Encode(Decode(s)) == s)
    decreases |s|
  {
    if s != [] {
      StepFits(s, 0);
      var r := Utf8ToWc(s, 0);
      var n := match r case Good(n, _) => n case Bad(k) => k;
      var rest := Decode(s[n..]);
      if r.Good? {
        DecoderIsTable(s, n, r.wc);
        EncoderIsTable(r.wc, s[..n]);
      }
      hide Utf8ToWc, WcToUtf8, Represents;
      FromSuffix(s, n);
      EncodeDecoded(s[n..]);
      assert s == s[..n] + s[n..];
      assert r.Good? ==> Decode(s) == [r.wc] + rest && Decode(s)[1..] == rest;
      assert r.Bad? ==> Decode(s) == [ERROR_CHAR] + rest;
    }
  }

  /** `validateUtf8` accepts the encodings of sequences of scalar values, each of one sequence only. */
  lemma ValidIsEncoded(s: seq<bv8>)
    ensures AllGood(s, 0) <==> exists w :: AllScalar(w) && Encode(w) == s
    ensures forall w, v :: AllScalar(w) && AllScalar(v) && Encode(w) == s && Encode(v) == s ==> w == v
  {
    hide Encode, Decode, AllGood, AllScalar;
    EncodeDecoded(s);
    forall w | AllScalar(w) && Encode(w) == s ensures AllGood(s, 0) && w == Decode(s) {
      DecodeEncoded(w);
    }
    if AllGood(s, 0) {
      assert AllScalar(Decode(s)) && Encode(Decode(s)) == s;
    }
  }

  /** And those are the strings of the syntax in section 4 of RFC 3629. */
  lemma {:induction false} ValidIsSyntax(s: seq<bv8>)
    ensures AllGood(s, 0) <==> Utf8Octets(s)
    decreases |s|
  {
    if s != [] {
      StepFits(s, 0);
      forall n | 0 < n <= |s| ensures Utf8Char(s[..n]) <==> Utf8ToWc(s, 0).Good? && Utf8ToWc(s, 0).size == n {
        OneCharacter(s, n);
      }
      forall n | 0 < n <= |s|
        ensures (AllGood(s[n..], 0) <==> Utf8Octets(s[n..])) && (AllGood(s, n) <==> AllGood(s[n..], 0))
      {
        ValidIsSyntax(s[n..]);
        FromSuffix(s, n);
      }
      hide Utf8ToWc, Utf8Char;
    }
  }

  lemma OneCharacter(s: seq<bv8>, n: nat)
    requires 0 < n <= |s|
    ensures Utf8Char(s[..n]) <==> Utf8ToWc(s, 0).Good? && Utf8ToWc(s, 0).size == n
  {
    hide Utf8ToWc, Utf8Char, Represents;
    TableIsSyntax(s[..n]);
    forall c ensures Utf8ToWc(s, 0) == Good(n, c) <==> Represents(c, s[..n]) {
      DecoderIsTable(s, n, c);
    }
    var r := Utf8ToWc(s, 0);
    if r.Good? && r.size == n {
      assert Represents(r.wc, s[..n]);
    }
  }

  /** To wide characters and back: nothing changes exactly if the string is valid. */
  lemma NarrowRoundTrip(s: seq<bv8>)
    ensures Encode(Decode(s)) == s <==> AllGood(s, 0)
  {
    hide Encode, Decode, AllGood;
    EncodeDecoded(s);
    DecodeEncoded(Decode(s));
  }

  /** From wide characters and back: nothing changes exactly if all are scalar values. */
  lemma WideRoundTrip(w: seq<bv32>)
    ensures Decode(Encode(w)) == w <==> AllScalar(w)
  {
    hide Encode, Decode, AllScalar;
    EncodeDecoded(Encode(w));
    if AllScalar(w) {
      DecodeEncoded(w);
    }
  }

  /** A byte that is not part of any character is lost. */
  lemma NarrowLost()
    ensures Encode(Decode([0xFF])) != [0xFF]
  {
    assert Utf8ToWc([0xFF], 0) == Bad(1);
    hide Utf8ToWc, Encode, Decode;
    NarrowRoundTrip([0xFF]);
  }

  /** A surrogate is lost. */
  lemma WideLost()
    ensures Decode(Encode([0xD800])) != [0xD800]
  {
    assert [0xD800 as bv32][0] == 0xD800 && !AllScalar([0xD800]);
    hide Encode, Decode, AllScalar;
    WideRoundTrip([0xD800]);
  }

  // ----- the loops -------------------------------------------------------------------------------------

  /** `validateUtf8` */
  method ValidateUtf8(data: seq<bv8>, start: nat) returns (valid: bool)
    ensures valid <==> start >= |data| || exists w :: AllScalar(w) && Encode(w) == data[start..]
  {
    var pos := start;
    hide Utf8ToWc, AllScalar, Encode;
    if start < |data| {
      FromSuffix(data, start);
      ValidIsEncoded(data[start..]);
    }
    while pos < |data|
      invariant pos <= |data| || pos == start
      invariant start <= |data| ==> (AllGood(data, start) <==> AllGood(data, pos))
    {
      StepFits(data, pos);
      var b := Utf8ToWc(data, pos);
      if b.Bad? {
        return false;
      }
      pos := pos + b.size;
    }
    return true;
  }

  /** `utf8ToWide`: the first pass finds the size, the second one fills the buffer. */
  method Utf8ToWide(str: seq<bv8>) returns (tgt: array<bv32>)
    ensures tgt[..] == Decode(str)
  {
    hide Utf8ToWc, DecodeFrom;
    var outSize, i := 0, 0;
    while i < |str|
      invariant i <= |str| && outSize + |DecodeFrom(str, i)| == |Decode(str)|
    {
      Advance(str, i);
      i := i + Step(Utf8ToWc(str, i));
      outSize := outSize + 1;
    }
    AtEnd(str);
    if outSize == 0 {
      tgt := new bv32[0];
      return;
    }
    tgt := new bv32[outSize];
    var out := 0;
    i := 0;
    while i < |str|
      invariant i <= |str| && 0 <= out && out + |DecodeFrom(str, i)| == outSize == tgt.Length
      invariant tgt[..out] + DecodeFrom(str, i) == Decode(str)
    {
      Advance(str, i);
      ghost var done := tgt[..out];
      var result := Utf8ToWc(str, i);
      match result {
        case Bad(k) =>
          i := i + k;
          tgt[out] := ERROR_CHAR;
        case Good(n, wc) =>
          i := i + n;
          tgt[out] := wc;
      }
      assert tgt[..out + 1] == done + [tgt[out]];
      MovedOver(done, tgt[out], DecodeFrom(str, i));
      out := out + 1;
    }
    assert tgt[..] == tgt[..out];
  }

  lemma MovedOver(done: seq<bv32>, c: bv32, rest: seq<bv32>)
    ensures done + [c] + rest == done + ([c] + rest)
  {}

  lemma AtEnd(s: seq<bv8>)
    ensures DecodeFrom(s, |s|) == [] && AllGood(s, |s|)
  {}

  /** `wcToUtf8` into a buffer. */
  method WriteUtf8(value: bv32, out: array<bv8>, at: nat) returns (n: nat)
    requires value < 0x110000 && at + |WcToUtf8(value)| <= out.Length
    modifies out
    ensures n == |WcToUtf8(value)| && out[at..at + n] == WcToUtf8(value)
    ensures out[..at] == old(out[..at]) && out[at + n..] == old(out[at + n..])
  {
    if value < 0x80 {
      out[at] := value as bv8;
      n := 1;
    } else if value < 0x800 {
      out[at] := (0xC0 | (value >> 6)) as bv8;
      out[at + 1] := (0x80 | (value & 0x3F)) as bv8;
      n := 2;
    } else if value < 0x10000 {
      out[at] := (0xE0 | (value >> 12)) as bv8;
      out[at + 1] := (0x80 | ((value >> 6) & 0x3F)) as bv8;
      out[at + 2] := (0x80 | (value & 0x3F)) as bv8;
      n := 3;
    } else {
      out[at] := (0xF0 | (value >> 18)) as bv8;
      out[at + 1] := (0x80 | ((value >> 12) & 0x3F)) as bv8;
      out[at + 2] := (0x80 | ((value >> 6) & 0x3F)) as bv8;
      out[at + 3] := (0x80 | (value & 0x3F)) as bv8;
      n := 4;
    }
  }

  lemma EncodeStep(w: seq<bv32>, i: nat)
    requires i < |w|
    ensures Encode(w[i..]) == WcToUtf8(CodePoint(w[i])) + Encode(w[i + 1..])
  {
    assert w[i..][1..] == w[i + 1..];
  }

  lemma Written(s: seq<bv8>, was: seq<bv8>, more: seq<bv8>, out: nat)
    requires |was| == out && |s| == out + |more| && s[..out] == was && s[out..] == more
    ensures s == was + more
  {}

  lemma EncodeEnds(w: seq<bv32>)
    ensures w[0..] == w && Encode(w[|w|..]) == []
  {}

  /** `wideToUtf8`: the first pass encodes into a scratch buffer to find the size. */
  method WideToUtf8(str: seq<bv32>) returns (tgt: array<bv8>)
    ensures tgt[..] == Encode(str)
  {
    hide WcToUtf8, Encode;
    EncodeEnds(str);
    var ubuf := new bv8[4];
    var outSize := 0;
    for i := 0 to |str|
      invariant outSize + |Encode(str[i..])| == |Encode(str)|
    {
      EncodeStep(str, i);
      var n := WriteUtf8(CodePoint(str[i]), ubuf, 0);
      outSize := outSize + n;
    }
    if outSize == 0 {
      tgt := new bv8[0];
      return;
    }
    tgt := new bv8[outSize];
    var out := 0;
    for i := 0 to |str|
      invariant 0 <= out <= tgt.Length && out + |Encode(str[i..])| == outSize == tgt.Length
      invariant tgt[..out] + Encode(str[i..]) == Encode(str)
    {
      EncodeStep(str, i);
      ghost var was := tgt[..out];
      var n := WriteUtf8(CodePoint(str[i]), tgt, out);
      Written(tgt[..out + n], was, WcToUtf8(CodePoint(str[i])), out);
      out := out + n;
    }
    assert tgt[..] == tgt[..out];
  }
}
