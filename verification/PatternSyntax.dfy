/** Which patterns are well formed; and that the matcher decides, for every pattern, whether there is a match. */
module PatternSyntax {
  import opened LuaPatterns
  import opened PatternMeaning

  /** What the pattern itself tells of the captures: which of them are open. */
  function Opened(caps: seq<Capture>): seq<bool> {
    seq(|caps|, i requires 0 <= i < |caps| => caps[i].len == Unfinished)
  }

  /** The last one that is open. */
  function LastOf(open: seq<bool>): (r: Place)
    ensures r.Place? ==> r.i < |open| && open[r.i] && forall i :: r.i < i < |open| ==> !open[i]
    ensures r == Malformed ==> forall i :: 0 <= i < |open| ==> !open[i]
  {
    if open == [] then Malformed
    else if open[|open| - 1] then Place(|open| - 1)
    else LastOf(open[..|open| - 1])
  }

  predicate Suffix(c: char) { c == '?' || c == '*' || c == '+' || c == '-' }

  /** The pattern from `p` on is well formed, when captures have been opened and closed as in `open`: it has
    * no more captures than there can be, closes none that is not open, refers back to none that is not
    * closed, and ends in the middle of no item. Subject and character classes play no part. */
  predicate WellFormed(pat: string, p: nat, open: seq<bool>)
    requires p <= |pat|
    decreases |pat| - p
  {
    var c, d := At(pat, p), At(pat, p + 1);
    if c == END then true
    else if c == '(' then
      |open| < MAXCAPTURES && if d == ')' then WellFormed(pat, p + 2, open + [false]) else WellFormed(pat, p + 1, open + [true])
    else if c == ')' then LastOf(open).Place? && WellFormed(pat, p + 1, open[LastOf(open).i := false])
    else if c == ESC && d == 'b' then At(pat, p + 2) != END && At(pat, p + 3) != END && WellFormed(pat, p + 4, open)
    else if c == ESC && d == 'f' then
      At(pat, p + 2) == '[' && ClassEnd(pat, p + 2).Place? && WellFormed(pat, ClassEnd(pat, p + 2).i, open)
    else if c == ESC && Digit(d) then
      var l := d as int - '1' as int;
      0 <= l < |open| && !open[l] && WellFormed(pat, p + 2, open)
    else if c == '$' && d == END then true
    else
      var end := ClassEnd(pat, p);
      end.Place? && WellFormed(pat, if Suffix(At(pat, end.i)) then end.i + 1 else end.i, open)
  }

  lemma OpenedMore(caps: seq<Capture>, cap: Capture)
    ensures Opened(caps + [cap]) == Opened(caps) + [cap.len == Unfinished]
  {}

  lemma OpenedClosed(caps: seq<Capture>, s: nat)
    ensures ToClose(caps) == LastOf(Opened(caps))
    ensures var l := ToClose(caps);
      l.Place? && caps[l.i].init <= s ==> Opened(Closed(caps, l.i, s)) == Opened(caps)[l.i := false]
  {
    var l := ToClose(caps);
    assert forall i :: 0 <= i < |caps| ==> (Opened(caps)[i] <==> caps[i].len == Unfinished);
    if l.Place? && caps[l.i].init <= s {
      assert forall i :: 0 <= i < |caps| ==> Opened(Closed(caps, l.i, s))[i] == Opened(caps)[l.i := false][i];
    }
  }

  lemma OpenedNamed(caps: seq<Capture>, c: char)
    ensures var l := c as int - '1' as int; Named(caps, c).Place? <==> 0 <= l < |caps| && !Opened(caps)[l]
  {}

  // ----- well-formed patterns raise no error -----------------------------------------------------------

  lemma {:induction false} NoError(x: Search, s: nat, p: nat, caps: seq<Capture>)
    requires s <= |x.src| && p <= |x.pat| && Before(caps, s) && WellFormed(x.pat, p, Opened(caps))
    ensures MatchFrom(x, s, p, caps) != Error
    decreases |x.pat| - p, 1
  {
    var c, d := At(x.pat, p), At(x.pat, p + 1);
    if c == END {
    } else if c == '(' {
      if d == ')' {
        OpenedMore(caps, Capture(s, Position));
        NoError(x, s, p + 2, caps + [Capture(s, Position)]);
      } else {
        OpenedMore(caps, Capture(s, Unfinished));
        NoError(x, s, p + 1, caps + [Capture(s, Unfinished)]);
      }
    } else if c == ')' {
      OpenedClosed(caps, s);
      NoError(x, s, p + 1, Closed(caps, ToClose(caps).i, s));
    } else if c == ESC && d == 'b' {
      var r := BalanceEnd(x.src, s + 1, x.pat[p + 2], x.pat[p + 3], 1);
      if r.Place? {
        NoError(x, r.i, p + 4, caps);
      }
    } else if c == ESC && d == 'f' {
      NoError(x, s, ClassEnd(x.pat, p + 2).i, caps);
    } else if c == ESC && Digit(d) {
      OpenedNamed(caps, d);
      var l := Named(caps, d);
      if SameText(x.src, caps[l.i], s) {
        NoError(x, s + caps[l.i].len.n, p + 2, caps);
      }
    } else if c == '$' && d == END {
    } else {
      ItemNoError(x, s, p, caps);
    }
  }

  lemma {:induction false} ItemNoError(x: Search, s: nat, p: nat, caps: seq<Capture>)
    requires s <= |x.src| && p < |x.pat| && Before(caps, s) && ClassEnd(x.pat, p).Place?
    requires var ep := ClassEnd(x.pat, p).i;
      WellFormed(x.pat, if Suffix(At(x.pat, ep)) then ep + 1 else ep, Opened(caps))
    ensures MatchItem(x, s, p, caps) != Error
    decreases |x.pat| - p, 0
  {
    var ep := ClassEnd(x.pat, p).i;
    var suffix := At(x.pat, ep);
    if Suffix(suffix) {
      forall k: nat | s + k <= |x.src| ensures After(x, s, ep, caps, k) != Error {
        NoError(x, s + k, ep + 1, caps);
      }
      hide MatchFrom;
      SuffixNoError(x, s, p, ep, caps);
    } else if Fits(x, s, p, ep) {
      NoError(x, s + 1, ep, caps);
    }
  }

  lemma SuffixNoError(x: Search, s: nat, p: nat, ep: nat, caps: seq<Capture>)
    requires s <= |x.src| && p < ep < |x.pat| && Before(caps, s) && ClassEnd(x.pat, p) == Place(ep)
    requires Suffix(At(x.pat, ep))
    requires forall k: nat | s + k <= |x.src| :: After(x, s, ep, caps, k) != Error
    ensures MatchItem(x, s, p, caps) != Error
  {
    hide MatchFrom, MaxExpand, MinExpand, ClassEnd, Repeats, Fits, Before;
    var suffix := At(x.pat, ep);
    if suffix == '?' {
      OnceOrNot(x, s, p, ep, caps);
    } else if suffix == '*' {
      var n := Greedy(x, s, ep, caps, Repeats(x, s, p, ep));
    } else if suffix == '+' {
      OnceOrMore(x, s, p, ep, caps);
    } else {
      var n := Lazy(x, s, p, ep, caps);
    }
  }

  lemma OnceOrNot(x: Search, s: nat, p: nat, ep: nat, caps: seq<Capture>)
    requires s <= |x.src| && p < ep < |x.pat| && Before(caps, s)
    requires forall k: nat | s + k <= |x.src| :: After(x, s, ep, caps, k) != Error
    ensures MatchFrom(x, s, ep + 1, caps) != Error
    ensures Fits(x, s, p, ep) ==> Before(caps, s + 1) && MatchFrom(x, s + 1, ep + 1, caps) != Error
  {
    assert MatchFrom(x, s, ep + 1, caps) == After(x, s, ep, caps, 0);
    assert Fits(x, s, p, ep) ==> MatchFrom(x, s + 1, ep + 1, caps) == After(x, s, ep, caps, 1);
    hide MatchFrom;
  }

  lemma OnceOrMore(x: Search, s: nat, p: nat, ep: nat, caps: seq<Capture>)
    requires s <= |x.src| && p < ep < |x.pat| && Before(caps, s)
    requires forall k: nat | s + k <= |x.src| :: After(x, s, ep, caps, k) != Error
    ensures Fits(x, s, p, ep) ==>
      Before(caps, s + 1) && MaxExpand(x, s + 1, ep, caps, Repeats(x, s + 1, p, ep)) != Error
  {
    if Fits(x, s, p, ep) {
      hide MatchFrom, MaxExpand;
      var n := Greedy(x, s + 1, ep, caps, Repeats(x, s + 1, p, ep));
      assert s + 1 + n <= |x.src| ==> After(x, s + 1, ep, caps, n) == After(x, s, ep, caps, n + 1);
    }
  }

  // ----- the others match nothing ----------------------------------------------------------------------

  lemma {:induction false} NoMatch(x: Search, s: nat, p: nat, caps: seq<Capture>, e: nat, caps1: seq<Capture>)
    requires s <= |x.src| && p <= |x.pat| && Before(caps, s) && Matches(x, s, p, caps, e, caps1)
    ensures WellFormed(x.pat, p, Opened(caps))
    decreases |x.pat| - p, 1
  {
    var c, d := At(x.pat, p), At(x.pat, p + 1);
    if c == END {
    } else if c == '(' {
      if d == ')' {
        OpenedMore(caps, Capture(s, Position));
        NoMatch(x, s, p + 2, caps + [Capture(s, Position)], e, caps1);
      } else {
        OpenedMore(caps, Capture(s, Unfinished));
        NoMatch(x, s, p + 1, caps + [Capture(s, Unfinished)], e, caps1);
      }
    } else if c == ')' {
      var l :| LastOpen(caps, l) && Matches(x, s, p + 1, Closed(caps, l, s), e, caps1);
      assert ToClose(caps) == Place(l);
      OpenedClosed(caps, s);
      NoMatch(x, s, p + 1, Closed(caps, l, s), e, caps1);
    } else if c == ESC && d == 'b' {
      var t :| BalancedThen(x, s, t, p, caps, e, caps1);
      NoMatch(x, t, p + 4, caps, e, caps1);
    } else if c == ESC && d == 'f' {
      NoMatch(x, s, ClassEnd(x.pat, p + 2).i, caps, e, caps1);
    } else if c == ESC && Digit(d) {
      OpenedNamed(caps, d);
      NoMatch(x, s + caps[Named(caps, d).i].len.n, p + 2, caps, e, caps1);
    } else if c == '$' && d == END {
    } else {
      ItemMatched(x, s, p, caps, e, caps1);
    }
  }

  lemma {:induction false} ItemMatched(x: Search, s: nat, p: nat, caps: seq<Capture>, e: nat, caps1: seq<Capture>)
    requires s <= |x.src| && p < |x.pat| && Before(caps, s)
    requires ClassEnd(x.pat, p).Place? && MatchesItem(x, s, p, ClassEnd(x.pat, p).i, caps, e, caps1)
    ensures var ep := ClassEnd(x.pat, p).i;
      WellFormed(x.pat, if Suffix(At(x.pat, ep)) then ep + 1 else ep, Opened(caps))
    decreases |x.pat| - p, 0
  {
    hide ClassEnd, WellFormed, Opened;
    var ep := ClassEnd(x.pat, p).i;
    if Suffix(At(x.pat, ep)) {
      assert exists n :: Repeated(x, s, p, ep, n, caps, e, caps1);
      var n :| Repeated(x, s, p, ep, n, caps, e, caps1);
      NoMatch(x, s + n, ep + 1, caps, e, caps1);
    } else {
      NoMatch(x, s + 1, ep, caps, e, caps1);
    }
  }

  /** For every pattern the matcher finds a match if and only if there is one; if the pattern is well formed, it
    * also raises no error, so that it fails if and only if there is none. */
  lemma MatcherDecides(x: Search, s: nat, p: nat, caps: seq<Capture>)
    requires s <= |x.src| && p <= |x.pat| && Before(caps, s)
    ensures MatchFrom(x, s, p, caps).Match? <==> exists e, c :: Matches(x, s, p, caps, e, c)
    ensures MatchFrom(x, s, p, caps) == Error ==> !WellFormed(x.pat, p, Opened(caps))
    ensures !WellFormed(x.pat, p, Opened(caps)) ==> forall e, c :: !Matches(x, s, p, caps, e, c)
  {
    MatcherIsRight(x, s, p, caps);
    var r := MatchFrom(x, s, p, caps);
    assert r.Match? ==> Matches(x, s, p, caps, r.e, r.caps);
    hide MatchFrom, Matches, WellFormed;
    if WellFormed(x.pat, p, Opened(caps)) {
      NoError(x, s, p, caps);
    } else {
      forall e, c | Matches(x, s, p, caps, e, c) ensures false {
        NoMatch(x, s, p, caps, e, c);
      }
    }
  }
}
