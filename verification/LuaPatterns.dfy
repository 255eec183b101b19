/** Lua patterns: what the backtracking matcher computes, on values. */
module LuaPatterns {

  const ESC := '%'
  const END := '\0'
  const MAXCAPTURES: nat := 32

  datatype Length = Unfinished | Position | Len(n: nat)

  datatype Capture = Capture(init: nat, len: Length)

  /** Errors are raised by malformed patterns only; they end the whole search. */
  datatype Result = Error | Fail | Match(e: nat, caps: seq<Capture>)

  /** Subject, pattern, and the character classes of the C library: `cls(c, k)` says that `c` is in the class that the
    * small letter `k` stands for. */
  datatype Search = Search(src: string, pat: string, cls: (char, char) -> bool)

  /** The character at a place; both strings end in a NUL. */
  function At(t: string, i: nat): char { if i < |t| then t[i] else END }

  predicate Digit(c: char) { '0' <= c <= '9' }

  // ----- single items ------------------------------------------------------------------------------

  datatype Place = Malformed | Place(i: nat)

  /** The end of the set whose characters begin at `q`: a bracket at its very beginning belongs to it. */
  function SetEnd(pat: string, q: nat): (r: Place)
    ensures r.Place? ==> q + 1 < r.i <= |pat|
    decreases |pat| - q
  {
    if At(pat, q) == END then Malformed
    else
      var q1 := if pat[q] == ESC && At(pat, q + 1) != END then q + 2 else q + 1;
      if At(pat, q1) == ']' then Place(q1 + 1) else SetEnd(pat, q1)
  }

  /** `classend`. */
  function ClassEnd(pat: string, p: nat): (r: Place)
    requires p < |pat|
    ensures r.Place? ==> p < r.i <= |pat|
  {
    if pat[p] == ESC then if At(pat, p + 1) == END then Malformed else Place(p + 2)
    else if pat[p] == '[' then SetEnd(pat, if At(pat, p + 1) == '^' then p + 2 else p + 1)
    else Place(p + 1)
  }

  function Lower(l: char): char { if 'A' <= l <= 'Z' then (l as int + 32) as char else l }

  /** `match_class`: a capital letter stands for the complement of a class, and what is no letter of a class for
    * itself. */
  predicate InClass(x: Search, c: char, l: char) {
    var k, small := Lower(l), 'a' <= l <= 'z';
    if k in "acdlpsuwx" then x.cls(c, k) == small
    else if k == 'z' then (c == END) == small
    else l == c
  }

  /** Membership in the set between `q` and `ec`: classes, ranges and single characters. */
  function InSet(x: Search, c: char, q: nat, ec: nat): bool
    decreases ec - q
  {
    if q >= ec then false
    else if At(x.pat, q) == ESC then InClass(x, c, At(x.pat, q + 1)) || InSet(x, c, q + 2, ec)
    else if At(x.pat, q + 1) == '-' && q + 2 < ec then At(x.pat, q) <= c <= At(x.pat, q + 2) || InSet(x, c, q + 3, ec)
    else At(x.pat, q) == c || InSet(x, c, q + 1, ec)
  }

  /** `matchbracketclass`. */
  function BracketMatch(x: Search, c: char, p: nat, ec: nat): bool {
    if At(x.pat, p + 1) == '^' then !InSet(x, c, p + 2, ec) else InSet(x, c, p + 1, ec)
  }

  /** `singlematch`. */
  function SingleMatch(x: Search, c: char, p: nat, ep: nat): bool
    requires ep > 0
  {
    var i := At(x.pat, p);
    if i == '.' then true
    else if i == ESC then InClass(x, c, At(x.pat, p + 1))
    else if i == '[' then BracketMatch(x, c, p, ep - 1)
    else i == c
  }

  /** The character at `s` exists and matches the item. */
  predicate Fits(x: Search, s: nat, p: nat, ep: nat)
    requires ep > 0
  {
    s < |x.src| && SingleMatch(x, x.src[s], p, ep)
  }

  /** How often the item matches from `s` on. */
  function Repeats(x: Search, s: nat, p: nat, ep: nat): (n: nat)
    requires ep > 0 && s <= |x.src|
    ensures s + n <= |x.src|
    decreases |x.src| - s
  {
    if Fits(x, s, p, ep) then 1 + Repeats(x, s + 1, p, ep) else 0
  }

  /** The end of the balanced string that is open `cont` times before `s`. */
  function BalanceEnd(src: string, s: nat, b: char, e: char, cont: nat): (r: Place)
    requires cont > 0
    ensures r.Place? ==> s < r.i <= |src|
    decreases |src| - s
  {
    if s >= |src| then Malformed
    else if src[s] == e then if cont == 1 then Place(s + 1) else BalanceEnd(src, s + 1, b, e, cont - 1)
    else BalanceEnd(src, s + 1, b, e, if src[s] == b then cont + 1 else cont)
  }

  function Previous(src: string, s: nat): char
    requires s <= |src|
  {
    if s == 0 then END else src[s - 1]
  }

  // ----- captures ----------------------------------------------------------------------------------

  /** `capture_to_close`: the last capture that is not finished. */
  function ToClose(caps: seq<Capture>): (r: Place)
    ensures r.Place? ==> r.i < |caps| && caps[r.i].len == Unfinished
    ensures r.Place? ==> forall i :: r.i < i < |caps| ==> caps[i].len != Unfinished
    ensures r == Malformed ==> forall i :: 0 <= i < |caps| ==> caps[i].len != Unfinished
  {
    if caps == [] then Malformed
    else
      var l := |caps| - 1;
      if caps[l].len == Unfinished then Place(l) else ToClose(caps[..l])
  }

  /** The capture `l` with its text closed at `s`. */
  function Closed(caps: seq<Capture>, l: nat, s: nat): seq<Capture>
    requires l < |caps| && caps[l].init <= s
  {
    caps[l := Capture(caps[l].init, Len(s - caps[l].init))]
  }

  /** `check_capture`: the capture that a back-reference names. */
  function Named(caps: seq<Capture>, c: char): (r: Place)
    ensures r.Place? ==> r.i < |caps| && caps[r.i].len != Unfinished
  {
    var l := c as int - '1' as int;
    if l < 0 || l >= |caps| || caps[l].len == Unfinished then Malformed else Place(l)
  }

  /** Captures begin, and end if they are finished, before `s`. */
  predicate Before(caps: seq<Capture>, s: nat) {
    forall i :: 0 <= i < |caps| ==> caps[i].init + (if caps[i].len.Len? then caps[i].len.n else 0) <= s
  }

  /** The captured text is found again at `s`. */
  predicate SameText(src: string, cap: Capture, s: nat) {
    && cap.len.Len? && s + cap.len.n <= |src| && cap.init + cap.len.n <= s
    && src[cap.init..cap.init + cap.len.n] == src[s..s + cap.len.n]
  }

  // ----- the matcher -------------------------------------------------------------------------------

  function MatchFrom(x: Search, s: nat, p: nat, caps: seq<Capture>): (r: Result)
    requires s <= |x.src| && p <= |x.pat| && Before(caps, s)
    ensures r.Match? ==> s <= r.e <= |x.src| && Before(r.caps, r.e)
    decreases |x.pat| - p, 3, 0
  {
    var c, d := At(x.pat, p), At(x.pat, p + 1);
    if c == END then Match(s, caps)
    else if c == '(' then
      if d == ')' then StartCapture(x, s, p + 2, caps, Position) else StartCapture(x, s, p + 1, caps, Unfinished)
    else if c == ')' then EndCapture(x, s, p + 1, caps)
    else if c == ESC && d == 'b' then
      if At(x.pat, p + 2) == END || At(x.pat, p + 3) == END then Error
      else if At(x.src, s) != x.pat[p + 2] then Fail
      else
        var r := BalanceEnd(x.src, s + 1, x.pat[p + 2], x.pat[p + 3], 1);
        if r == Malformed then Fail else MatchFrom(x, r.i, p + 4, caps)
    else if c == ESC && d == 'f' then
      if At(x.pat, p + 2) != '[' then Error
      else
        var ep := ClassEnd(x.pat, p + 2);
        if ep == Malformed then Error
        else if BracketMatch(x, Previous(x.src, s), p + 2, ep.i - 1) || !BracketMatch(x, At(x.src, s), p + 2, ep.i - 1) then Fail
        else MatchFrom(x, s, ep.i, caps)
    else if c == ESC && Digit(d) then
      var l := Named(caps, d);
      if l == Malformed then Error
      else if SameText(x.src, caps[l.i], s) then MatchFrom(x, s + caps[l.i].len.n, p + 2, caps)
      else Fail
    else if c == '$' && d == END then if s == |x.src| then Match(s, caps) else Fail
    else MatchItem(x, s, p, caps)
  }

  /** A pattern item with its suffix. */
  function MatchItem(x: Search, s: nat, p: nat, caps: seq<Capture>): (r: Result)
    requires s <= |x.src| && p < |x.pat| && Before(caps, s)
    ensures r.Match? ==> s <= r.e <= |x.src| && Before(r.caps, r.e)
    decreases |x.pat| - p, 2, 0
  {
    var end := ClassEnd(x.pat, p);
    if end == Malformed then Error
    else
      var ep := end.i;
      var m, suffix := Fits(x, s, p, ep), At(x.pat, ep);
      if suffix == '?' then
        var r := if m then MatchFrom(x, s + 1, ep + 1, caps) else Fail;
        if r == Fail then MatchFrom(x, s, ep + 1, caps) else r
      else if suffix == '*' then MaxExpand(x, s, ep, caps, Repeats(x, s, p, ep))
      else if suffix == '+' then if m then MaxExpand(x, s + 1, ep, caps, Repeats(x, s + 1, p, ep)) else Fail
      else if suffix == '-' then MinExpand(x, s, p, ep, caps)
      else if m then MatchFrom(x, s + 1, ep, caps)
      else Fail
  }

  /** `max_expand`, from `i` repetitions down. */
  function MaxExpand(x: Search, s: nat, ep: nat, caps: seq<Capture>, i: nat): (r: Result)
    requires s + i <= |x.src| && ep < |x.pat| && Before(caps, s)
    ensures r.Match? ==> s <= r.e <= |x.src| && Before(r.caps, r.e)
    decreases |x.pat| - ep, 1, i
  {
    var r := MatchFrom(x, s + i, ep + 1, caps);
    if r == Fail && i > 0 then MaxExpand(x, s, ep, caps, i - 1) else r
  }

  /** `min_expand`. */
  function MinExpand(x: Search, s: nat, p: nat, ep: nat, caps: seq<Capture>): (r: Result)
    requires s <= |x.src| && 0 < ep < |x.pat| && Before(caps, s)
    ensures r.Match? ==> s <= r.e <= |x.src| && Before(r.caps, r.e)
    decreases |x.pat| - ep, 1, |x.src| - s
  {
    var r := MatchFrom(x, s, ep + 1, caps);
    if r == Fail && Fits(x, s, p, ep) then MinExpand(x, s + 1, p, ep, caps) else r
  }

  function StartCapture(x: Search, s: nat, p: nat, caps: seq<Capture>, what: Length): (r: Result)
    requires s <= |x.src| && 0 < p <= |x.pat| && Before(caps, s) && !what.Len?
    ensures r.Match? ==> s <= r.e <= |x.src| && Before(r.caps, r.e)
    decreases |x.pat| - p, 4, 0
  {
    if |caps| >= MAXCAPTURES then Error else MatchFrom(x, s, p, caps + [Capture(s, what)])
  }

  function EndCapture(x: Search, s: nat, p: nat, caps: seq<Capture>): (r: Result)
    requires s <= |x.src| && 0 < p <= |x.pat| && Before(caps, s)
    ensures r.Match? ==> s <= r.e <= |x.src| && Before(r.caps, r.e)
    decreases |x.pat| - p, 4, 0
  {
    var l := ToClose(caps);
    if l == Malformed then Error
    else MatchFrom(x, s, p, Closed(caps, l.i, s))
  }
}
