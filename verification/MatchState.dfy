/** The pattern matcher as it works: recursive functions that set captures in place, and undo them when
  * the match fails. */
module PatternMatcher {
  import opened LuaPatterns
  import opened PatternMeaning
  import opened PatternSyntax

  datatype Outcome = Raised | NoMatch | Matched(e: nat)

  /** The end of a round of `match`, or the arguments of the next one. */
  datatype Turn = Done(o: Outcome) | Again(s: nat, p: nat)

  lemma BeforeLater(caps: seq<Capture>, s: nat, t: nat)
    requires Before(caps, s) && s <= t
    ensures Before(caps, t)
  {}

  class MatchState {
    const x: Search
    var level: nat
    const capture: array<Capture>

    constructor (x: Search)
      ensures this.x == x && level == 0 && Valid() && fresh(capture)
    {
      this.x, level, capture := x, 0, new Capture[MAXCAPTURES](_ => Capture(0, Unfinished));
    }

    ghost predicate Valid()
      reads this
    {
      capture.Length == MAXCAPTURES && level <= MAXCAPTURES
    }

    /** The captures so far; those above `level` are left over from failed attempts. */
    ghost function Captures(): (c: seq<Capture>)
      requires Valid()
      reads this, capture
    {
      capture[..level]
    }

    /** The method did what the functional matcher says; if there is no match, the captures are as they
      * were. */
    twostate predicate Did(o: Outcome, r: Result)
      reads this, capture
    {
      match r
      case Error => o == Raised
      case Fail => o == NoMatch && Valid() && old(Valid()) && Captures() == old(Captures())
      case Match(e, caps) => o == Matched(e) && Valid() && Captures() == caps
    }

    // ----- reading the pattern -----------------------------------------------------------------------

    /** `classend`; the loop skips the characters of a set. */
    method ClassEnd(p: nat) returns (r: Place)
      requires p < |x.pat|
      ensures r == LuaPatterns.ClassEnd(x.pat, p)
    {
      var q := p + 1;
      if x.pat[p] == ESC {
        return if At(x.pat, q) == END then Malformed else Place(q + 1);
      }
      if x.pat[p] != '[' {
        return Place(q);
      }
      if At(x.pat, q) == '^' {
        q := q + 1;
      }
      while true
        invariant SetEnd(x.pat, q) == LuaPatterns.ClassEnd(x.pat, p)
        decreases |x.pat| - q
      {
        if At(x.pat, q) == END {
          return Malformed;
        }
        q := q + 1;
        if x.pat[q - 1] == ESC && At(x.pat, q) != END {
          q := q + 1;
        }
        if At(x.pat, q) == ']' {
          return Place(q + 1);
        }
      }
    }

    /** `match_class`. */
    method MatchClass(c: char, cl: char) returns (m: bool)
      ensures m == InClass(x, c, cl)
    {
      var res;
      match Lower(cl) {
        case 'a' => res := x.cls(c, 'a');
        case 'c' => res := x.cls(c, 'c');
        case 'd' => res := x.cls(c, 'd');
        case 'l' => res := x.cls(c, 'l');
        case 'p' => res := x.cls(c, 'p');
        case 's' => res := x.cls(c, 's');
        case 'u' => res := x.cls(c, 'u');
        case 'w' => res := x.cls(c, 'w');
        case 'x' => res := x.cls(c, 'x');
        case 'z' => res := c == END;
        case _ => return cl == c;
      }
      return if 'a' <= cl <= 'z' then res else !res;
    }

    /** `matchbracketclass`. */
    method MatchBracketClass(c: char, p: nat, ec: nat) returns (m: bool)
      ensures m == BracketMatch(x, c, p, ec)
    {
      var sig, q := true, p;
      if At(x.pat, p + 1) == '^' {
        sig, q := false, q + 1;
      }
      q := q + 1;
      while q < ec
        invariant BracketMatch(x, c, p, ec) == (InSet(x, c, q, ec) == sig)
        decreases ec - q
      {
        if At(x.pat, q) == ESC {
          q := q + 1;
          var m1 := MatchClass(c, At(x.pat, q));
          if m1 {
            return sig;
          }
        } else if At(x.pat, q + 1) == '-' && q + 2 < ec {
          q := q + 2;
          if At(x.pat, q - 2) <= c <= At(x.pat, q) {
            return sig;
          }
        } else if At(x.pat, q) == c {
          return sig;
        }
        q := q + 1;
      }
      return !sig;
    }

    /** `singlematch`. */
    method Single(c: char, p: nat, ep: nat) returns (m: bool)
      requires p < |x.pat| && ep > 0
      ensures m == SingleMatch(x, c, p, ep)
    {
      match x.pat[p]
      case '.' => return true;
      case '%' => m := MatchClass(c, At(x.pat, p + 1));
      case '[' => m := MatchBracketClass(c, p, ep - 1);
      case i => return i == c;
    }

    method FitsAt(s: nat, p: nat, ep: nat) returns (m: bool)
      requires p < |x.pat| && ep > 0
      ensures m == Fits(x, s, p, ep)
    {
      if s >= |x.src| {
        return false;
      }
      m := Single(x.src[s], p, ep);
    }

    /** `matchbalance`, for a pattern that names two characters. */
    method MatchBalance(s: nat, p: nat) returns (r: Place)
      requires s <= |x.src| && At(x.pat, p) != END && At(x.pat, p + 1) != END
      ensures r ==
        if At(x.src, s) != At(x.pat, p) then Malformed else BalanceEnd(x.src, s + 1, At(x.pat, p), At(x.pat, p + 1), 1)
    {
      if At(x.src, s) != At(x.pat, p) {
        return Malformed;
      }
      var b, e, cont, t := At(x.pat, p), At(x.pat, p + 1), 1, s + 1;
      while t < |x.src|
        invariant cont > 0 && BalanceEnd(x.src, t, b, e, cont) == BalanceEnd(x.src, s + 1, b, e, 1)
      {
        if x.src[t] == e {
          cont := cont - 1;
          if cont == 0 {
            return Place(t + 1);
          }
        } else if x.src[t] == b {
          cont := cont + 1;
        }
        t := t + 1;
      }
      return Malformed;
    }

    // ----- captures ----------------------------------------------------------------------------------

    /** `capture_to_close`. */
    method CaptureToClose() returns (r: Place)
      requires Valid()
      ensures r == ToClose(Captures())
    {
      var l := level;
      while l > 0
        invariant 0 <= l <= level && ToClose(capture[..l]) == ToClose(Captures())
      {
        l := l - 1;
        assert capture[..l + 1][..l] == capture[..l];
        if capture[l].len == Unfinished {
          return Place(l);
        }
      }
      return Malformed;
    }

    /** `match_capture`, for a capture that is finished. */
    method MatchCapture(s: nat, l: nat) returns (e: Place)
      requires Valid() && l < level && s <= |x.src| && Before(Captures(), s)
      ensures if SameText(x.src, Captures()[l], s) then e == Place(s + Captures()[l].len.n) else e == Malformed
    {
      var cap := capture[l];
      assert cap == Captures()[l];
      match cap.len {
        case Len(n) =>
          if |x.src| - s >= n && x.src[cap.init..cap.init + n] == x.src[s..s + n] {
            return Place(s + n);
          }
        case _ =>
      }
      return Malformed;
    }

    // ----- matching ----------------------------------------------------------------------------------

    /** What one round of `match` led to: its outcome, or a jump back to its beginning. */
    twostate predicate Round(t: Turn, s: nat, p: nat)
      requires s <= |x.src| && p <= |x.pat| && old(Valid()) && Before(old(Captures()), s)
      reads this, capture
    {
      match t
      case Done(o) => Did(o, MatchFrom(x, s, p, old(Captures())))
      case Again(s1, p1) =>
        && Valid() && Captures() == old(Captures()) && s <= s1 <= |x.src| && p < p1 <= |x.pat|
        && MatchFrom(x, s1, p1, old(Captures())) == MatchFrom(x, s, p, old(Captures()))
    }

    /** `match`; the loop stands for the jumps back to its beginning. */
    method Match(s0: nat, p0: nat) returns (o: Outcome)
      requires Valid() && s0 <= |x.src| && p0 <= |x.pat| && Before(Captures(), s0)
      modifies this`level, capture
      ensures Did(o, MatchFrom(x, s0, p0, old(Captures())))
      decreases |x.pat| - p0, 3, 0
    {
      ghost var caps := Captures();
      var s, p, t: Turn := s0, p0, Again(s0, p0);
      while t.Again?
        invariant t.Done? ==> Did(t.o, MatchFrom(x, s0, p0, caps))
        invariant t.Again? ==> Valid() && Captures() == caps && s0 <= t.s <= |x.src| && p0 <= t.p <= |x.pat|
        invariant t.Again? ==> MatchFrom(x, t.s, t.p, caps) == MatchFrom(x, s0, p0, caps)
        decreases if t.Again? then |x.pat| - t.p else -1
      {
        s, p := t.s, t.p;
        hide MatchFrom;
        var c, d := At(x.pat, p), At(x.pat, p + 1);
        if c == '(' || c == ')' {
          var r := MatchParenthesis(s, p);
          t := Done(r);
        } else if c == ESC && (d == 'b' || d == 'f' || Digit(d)) {
          t := MatchSpecial(s, p);
        } else if c == END || (c == '$' && d == END) {
          t := MatchEnd(s, p);
        } else {
          t := MatchItem(s, p);
        }
      }
      return t.o;
    }

    method MatchParenthesis(s: nat, p: nat) returns (o: Outcome)
      requires Valid() && s <= |x.src| && p < |x.pat| && (x.pat[p] == '(' || x.pat[p] == ')') && Before(Captures(), s)
      modifies this`level, capture
      ensures Did(o, MatchFrom(x, s, p, old(Captures())))
      decreases |x.pat| - p, 2, 0
    {
      hide LuaPatterns.StartCapture, LuaPatterns.EndCapture;
      if x.pat[p] == ')' {
        o := EndCapture(s, p + 1);
      } else if At(x.pat, p + 1) == ')' {
        o := StartCapture(s, p + 2, Position);
      } else {
        o := StartCapture(s, p + 1, Unfinished);
      }
    }

    method MatchEnd(s: nat, p: nat) returns (t: Turn)
      requires Valid() && s <= |x.src| && p <= |x.pat| && Before(Captures(), s)
      requires At(x.pat, p) == END || (At(x.pat, p) == '$' && At(x.pat, p + 1) == END)
      ensures Round(t, s, p)
    {
      if At(x.pat, p) == END {
        return Done(Matched(s));
      }
      return Done(if s == |x.src| then Matched(s) else NoMatch);
    }

    /** `%b`, `%f` and back-references. */
    method MatchSpecial(s: nat, p: nat) returns (t: Turn)
      requires Valid() && s <= |x.src| && p < |x.pat| && Before(Captures(), s)
      requires x.pat[p] == ESC && var d := At(x.pat, p + 1); d == 'b' || d == 'f' || Digit(d)
      ensures Round(t, s, p)
    {
      var d := At(x.pat, p + 1);
      if d == 'b' {
        if At(x.pat, p + 2) == END || At(x.pat, p + 3) == END {
          return Done(Raised);
        }
        var r := MatchBalance(s, p + 2);
        return if r == Malformed then Done(NoMatch) else Again(r.i, p + 4);
      } else if d == 'f' {
        if At(x.pat, p + 2) != '[' {
          return Done(Raised);
        }
        var ep := ClassEnd(p + 2);
        if ep == Malformed {
          return Done(Raised);
        }
        var before := MatchBracketClass(Previous(x.src, s), p + 2, ep.i - 1);
        var here := MatchBracketClass(At(x.src, s), p + 2, ep.i - 1);
        return if before || !here then Done(NoMatch) else Again(s, ep.i);
      } else {
        var l := Named(capture[..level], d);
        if l == Malformed {
          return Done(Raised);
        }
        var r := MatchCapture(s, l.i);
        return if r == Malformed then Done(NoMatch) else Again(r.i, p + 2);
      }
    }

    /** A pattern item and its suffix. */
    method MatchItem(s: nat, p: nat) returns (t: Turn)
      requires Valid() && s <= |x.src| && p < |x.pat| && Before(Captures(), s) && x.pat[p] != END
      requires x.pat[p] != '(' && x.pat[p] != ')'
      requires x.pat[p] == ESC ==> var d := At(x.pat, p + 1); d != 'b' && d != 'f' && !Digit(d)
      requires x.pat[p] == '$' ==> At(x.pat, p + 1) != END
      modifies this`level, capture
      ensures Round(t, s, p)
      decreases |x.pat| - p, 2, 0
    {
      assert MatchFrom(x, s, p, Captures()) == LuaPatterns.MatchItem(x, s, p, Captures());
      hide MatchFrom, LuaPatterns.MaxExpand, LuaPatterns.MinExpand, Before;
      var end := ClassEnd(p);
      if end == Malformed {
        return Done(Raised);
      }
      var ep := end.i;
      var m := FitsAt(s, p, ep);
      var suffix := At(x.pat, ep);
      if suffix == '?' {
        if m {
          BeforeLater(Captures(), s, s + 1);
          var o := Match(s + 1, ep + 1);
          if o != NoMatch {
            return Done(o);
          }
        }
        return Again(s, ep + 1);
      } else if suffix == '*' {
        var o := MaxExpand(s, p, ep);
        return Done(o);
      } else if suffix == '+' {
        if m {
          BeforeLater(Captures(), s, s + 1);
          var o := MaxExpand(s + 1, p, ep);
          return Done(o);
        }
        return Done(NoMatch);
      } else if suffix == '-' {
        var o := MinExpand(s, p, ep);
        return Done(o);
      }
      return if m then Again(s + 1, ep) else Done(NoMatch);
    }

    /** `max_expand`: the most repetitions first. */
    method MaxExpand(s: nat, p: nat, ep: nat) returns (o: Outcome)
      requires Valid() && s <= |x.src| && p < ep < |x.pat| && Before(Captures(), s)
      modifies this`level, capture
      ensures Did(o, LuaPatterns.MaxExpand(x, s, ep, old(Captures()), Repeats(x, s, p, ep)))
      decreases |x.pat| - ep, 1, 0
    {
      ghost var caps := Captures();
      var i: int := 0;
      var m := FitsAt(s, p, ep);
      while m
        invariant Valid() && Captures() == caps && 0 <= i && s + i <= |x.src| && m == Fits(x, s + i, p, ep)
        invariant Repeats(x, s, p, ep) == i + Repeats(x, s + i, p, ep)
        decreases |x.src| - s - i
      {
        i := i + 1;
        m := FitsAt(s + i, p, ep);
      }
      while i >= 0
        invariant -1 <= i && s + i <= |x.src| && Valid() && Captures() == caps && Before(caps, s)
        invariant LuaPatterns.MaxExpand(x, s, ep, caps, Repeats(x, s, p, ep)) ==
          if i >= 0 then LuaPatterns.MaxExpand(x, s, ep, caps, i) else Fail
      {
        o := Match(s + i, ep + 1);
        if o != NoMatch {
          return;
        }
        i := i - 1;
      }
      return NoMatch;
    }

    /** `min_expand`: the fewest repetitions first. */
    method MinExpand(s0: nat, p: nat, ep: nat) returns (o: Outcome)
      requires Valid() && s0 <= |x.src| && p < ep < |x.pat| && Before(Captures(), s0)
      modifies this`level, capture
      ensures Did(o, LuaPatterns.MinExpand(x, s0, p, ep, old(Captures())))
      decreases |x.pat| - ep, 1, 0
    {
      ghost var caps := Captures();
      var s := s0;
      while true
        invariant s <= |x.src| && Valid() && Captures() == caps && Before(caps, s)
        invariant LuaPatterns.MinExpand(x, s, p, ep, caps) == LuaPatterns.MinExpand(x, s0, p, ep, caps)
        decreases |x.src| - s
      {
        o := Match(s, ep + 1);
        if o != NoMatch {
          return;
        }
        var m := FitsAt(s, p, ep);
        if !m {
          return NoMatch;
        }
        s := s + 1;
      }
    }

    /** `start_capture`. */
    method StartCapture(s: nat, p: nat, what: Length) returns (o: Outcome)
      requires Valid() && s <= |x.src| && 0 < p <= |x.pat| && Before(Captures(), s) && !what.Len?
      modifies this`level, capture
      ensures Did(o, LuaPatterns.StartCapture(x, s, p, old(Captures()), what))
      decreases |x.pat| - p, 4, 0
    {
      if level >= MAXCAPTURES {
        return Raised;
      }
      ghost var caps := Captures();
      capture[level] := Capture(s, what);
      level := level + 1;
      assert Captures() == caps + [Capture(s, what)];
      o := Match(s, p);
      if o == NoMatch {
        level := level - 1;
        assert Captures() == (caps + [Capture(s, what)])[..level] == caps;
      }
    }

    /** `end_capture`. */
    method EndCapture(s: nat, p: nat) returns (o: Outcome)
      requires Valid() && s <= |x.src| && 0 < p <= |x.pat| && Before(Captures(), s)
      modifies this`level, capture
      ensures Did(o, LuaPatterns.EndCapture(x, s, p, old(Captures())))
      decreases |x.pat| - p, 4, 0
    {
      var l := CaptureToClose();
      if l == Malformed {
        return Raised;
      }
      ghost var caps := Captures();
      assert caps[l.i] == capture[l.i];
      capture[l.i] := capture[l.i].(len := Len(s - capture[l.i].init));
      assert Captures() == Closed(caps, l.i, s);
      o := Match(s, p);
      if o == NoMatch {
        capture[l.i] := capture[l.i].(len := Unfinished);
        assert Captures() == caps;
      }
    }

    // ----- searching ---------------------------------------------------------------------------------

    /** The search of `str_find_aux` for a pattern, from `init` on: it finds the first place where the
      * pattern matches, or the only place allowed if the pattern is anchored, if and only if there is one. An
      * error is raised for a pattern that is not well formed only. */
    method Find(init: nat) returns (r: Finding)
      requires Valid() && init <= |x.src|
      modifies this`level, capture
      ensures r != Failed ==> Valid()
      ensures r.Found? ==> init <= r.s <= r.e <= |x.src| && Matches(x, r.s, Start(x), [], r.e, Captures())
      ensures r.Found? ==> forall t :: init <= t < r.s ==> NoMatchAt(x, t) && !Anchored(x)
      ensures !r.Found? ==>
        NoMatchAt(x, init) && (!Anchored(x) ==> forall t :: init <= t <= |x.src| ==> NoMatchAt(x, t))
      ensures r == Failed ==> !WellFormed(x.pat, Start(x), [])
    {
      var anchor := Anchored(x);
      var s1 := init;
      while true
        invariant Valid() && init <= s1 <= |x.src| && (s1 > init ==> !anchor)
        invariant forall t :: init <= t < s1 ==> NoMatchAt(x, t)
        decreases |x.src| - s1
      {
        level := 0;
        assert Captures() == [];
        MatcherIsRight(x, s1, Start(x), []);
        MatcherDecides(x, s1, Start(x), []);
        assert Opened([]) == [];
        var o := Match(s1, Start(x));
        match o {
          case Raised =>
            forall t | init <= t <= |x.src| ensures NoMatchAt(x, t) { MatcherDecides(x, t, Start(x), []); }
            return Failed;
          case Matched(e) => return Found(s1, e);
          case NoMatch => assert NoMatchAt(x, s1);
        }
        if s1 == |x.src| || anchor {
          return NotFound;
        }
        s1 := s1 + 1;
      }
    }
  }

  datatype Finding = Failed | NotFound | Found(s: nat, e: nat)

  predicate Anchored(x: Search) { At(x.pat, 0) == '^' }

  function Start(x: Search): (p: nat)
    ensures p <= |x.pat|
  {
    if Anchored(x) then 1 else 0
  }

  ghost predicate NoMatchAt(x: Search, s: nat)
    requires s <= |x.src|
  {
    forall e, c :: !Matches(x, s, Start(x), [], e, c)
  }
}
