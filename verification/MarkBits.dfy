/** The bits of `marked`: the macros of the collector do to them what the collector's steps do to colours. */
module MarkBits {
  import opened GcHeap

  const WHITE0BIT: bv8 := 0x01
  const WHITE1BIT: bv8 := 0x02
  const BLACKBIT: bv8 := 0x04
  const FIXEDBIT: bv8 := 0x20
  const SFIXEDBIT: bv8 := 0x40
  const WHITEBITS: bv8 := WHITE0BIT | WHITE1BIT
  const COLOURBITS: bv8 := WHITEBITS | BLACKBIT

  /** At most one of the three colour bits is set. */
  predicate OneColour(m: bv8) {
    m & COLOURBITS == 0 || m & COLOURBITS == WHITE0BIT || m & COLOURBITS == WHITE1BIT || m & COLOURBITS == BLACKBIT
  }

  function ColourOf(m: bv8): Colour
    requires OneColour(m)
  {
    if m & WHITE0BIT != 0 then White(false)
    else if m & WHITE1BIT != 0 then White(true)
    else if m & BLACKBIT != 0 then Black
    else Gray
  }

  predicate IsFixed(m: bv8) { m & FIXEDBIT != 0 }

  /** `currentwhite`: one of the whites, and the bit that saves fixed objects from the sweep. */
  predicate IsCurrent(cw: bv8) { cw == WHITE0BIT | FIXEDBIT || cw == WHITE1BIT | FIXEDBIT }

  function CurrentOf(cw: bv8): bool { cw & WHITE1BIT != 0 }

  /** Only the colour has changed. */
  predicate SameRest(m: bv8, m1: bv8) { m & !COLOURBITS == m1 & !COLOURBITS }

  // ----- lgc.h -----------------------------------------------------------------------------------------

  predicate IsWhite(m: bv8)
    ensures OneColour(m) ==> (IsWhite(m) <==> ColourOf(m).White?)
  {
    m & WHITEBITS != 0
  }

  predicate IsBlack(m: bv8)
    ensures OneColour(m) ==> (IsBlack(m) <==> ColourOf(m) == Black)
  {
    m & BLACKBIT != 0
  }

  predicate IsGray(m: bv8)
    ensures OneColour(m) ==> (IsGray(m) <==> ColourOf(m) == Gray)
  {
    !IsBlack(m) && !IsWhite(m)
  }

  /** Flipping the whites; the bit for fixed objects stays. */
  function OtherWhite(cw: bv8): (r: bv8)
    ensures IsCurrent(cw) ==> IsCurrent(r) && CurrentOf(r) == !CurrentOf(cw)
  {
    cw ^ WHITEBITS
  }

  predicate IsDead(cw: bv8, m: bv8)
    ensures IsCurrent(cw) && OneColour(m) ==> (IsDead(cw, m) <==> ColourOf(m) == White(!CurrentOf(cw)))
  {
    m & OtherWhite(cw) & WHITEBITS != 0
  }

  /** `changewhite`: what was dead lives, and the other way round. */
  function ChangeWhite(m: bv8): (r: bv8)
    ensures OneColour(m) && ColourOf(m).White? ==>
      OneColour(r) && ColourOf(r) == White(!ColourOf(m).bit) && SameRest(m, r)
  {
    m ^ WHITEBITS
  }

  function Gray2Black(m: bv8): (r: bv8)
    ensures OneColour(m) && ColourOf(m) == Gray ==> OneColour(r) && ColourOf(r) == Black && SameRest(m, r)
  {
    m | BLACKBIT
  }

  /** `luaC_white`: new objects are in the current white, and not fixed. */
  function LuaCWhite(cw: bv8): (r: bv8)
    ensures IsCurrent(cw) ==> OneColour(r) && ColourOf(r) == White(CurrentOf(cw)) && !IsFixed(r)
  {
    cw & WHITEBITS
  }

  // ----- lgc.c -----------------------------------------------------------------------------------------

  /** `makewhite`, whatever the colour was. */
  function MakeWhite(cw: bv8, m: bv8): (r: bv8)
    ensures IsCurrent(cw) ==> OneColour(r) && ColourOf(r) == White(CurrentOf(cw)) && SameRest(m, r)
  {
    (m & !COLOURBITS) | LuaCWhite(cw)
  }

  /** `white2gray`, which is also `stringmark`. */
  function White2Gray(m: bv8): (r: bv8)
    ensures OneColour(m) && ColourOf(m) != Black ==> OneColour(r) && ColourOf(r) == Gray && SameRest(m, r)
  {
    m & !WHITEBITS
  }

  function Black2Gray(m: bv8): (r: bv8)
    ensures OneColour(m) && !ColourOf(m).White? ==> OneColour(r) && ColourOf(r) == Gray && SameRest(m, r)
  {
    m & !BLACKBIT
  }

  /** The test of `sweeplist`: an object survives. */
  predicate Survives(cw: bv8, m: bv8) { (m ^ WHITEBITS) & OtherWhite(cw) != 0 }

  /** Exactly what is in the other white and not fixed is swept. */
  lemma SweepTest(cw: bv8, m: bv8)
    requires IsCurrent(cw) && OneColour(m)
    ensures Survives(cw, m) <==> ColourOf(m) != White(!CurrentOf(cw)) || IsFixed(m)
  {
    assert Survives(cw, m) <==> m & OtherWhite(cw) & WHITEBITS == 0 || m & FIXEDBIT != 0;
  }

  /** When the state is closed, only the main thread survives, whatever the colours. */
  lemma FreeAllTest(m: bv8)
    ensures Survives(WHITEBITS | SFIXEDBIT, m) <==> m & SFIXEDBIT != 0
  {
    assert OtherWhite(WHITEBITS | SFIXEDBIT) == SFIXEDBIT;
  }

  /** A colour survives a cycle of the collector: what is made white is not dead until the whites are flipped,
    * and then it is. */
  lemma MadeWhiteThenFlipped(cw: bv8, m: bv8)
    requires IsCurrent(cw)
    ensures !IsDead(cw, MakeWhite(cw, m)) && IsDead(OtherWhite(cw), MakeWhite(cw, m))
    ensures Survives(cw, MakeWhite(cw, m)) && (Survives(OtherWhite(cw), MakeWhite(cw, m)) <==> IsFixed(m))
  {
    SweepTest(cw, MakeWhite(cw, m));
    SweepTest(OtherWhite(cw), MakeWhite(cw, m));
  }
}
