/** When a pattern matches, as a relation with no search in it; and what the search finds. */
module PatternMeaning {
  import opened LuaPatterns

  // ----- balanced strings --------------------------------------------------------------------------

  /** How many strings opened by `b` and closed by `e` are open at `t`, one having been opened at `s`. */
  ghost function Depth(src: string, s: nat, t: nat, b: char, e: char): int
    requires s < t <= |src|
    decreases t
  {
    if t == s + 1 then 1
    else Depth(src, s, t - 1, b, e) + if src[t - 1] == e then -1 else if src[t - 1] == b then 1 else 0
  }

  /** The string from `s` to `t` begins with `b` and is balanced for the first time at `t`. */
  ghost predicate Balanced(src: string, s: nat, t: nat, b: char, e: char) {
    && s < t <= |src| && src[s] == b && Depth(src, s, t, b, e) == 0
    && forall i :: s < i < t ==> Depth(src, s, i, b, e) > 0
  }

  lemma {:induction false} BalanceFrom(src: string, s: nat, i: nat, b: char, e: char, t: nat)
    requires s < i <= |src| && src[s] == b && Depth(src, s, i, b, e) > 0
    requires forall j :: s < j < i ==> Depth(src, s, j, b, e) > 0
    ensures BalanceEnd(src, i, b, e, Depth(src, s, i, b, e)) == Place(t) <==> Balanced(src, s, t, b, e)
    decreases |src| - i
  {
    if i < |src| {
      var d := Depth(src, s, i + 1, b, e);
      if d > 0 {
        BalanceFrom(src, s, i + 1, b, e, t);
      } else {
        assert d == 0 && Balanced(src, s, i + 1, b, e);
      }
    } else {
      assert !Balanced(src, s, t, b, e);
    }
  }

  // ----- the relation --------------------------------------------------------------------------------

  /** The item matches `n` characters in a row. */
  ghost predicate Row(x: Search, s: nat, p: nat, ep: nat, n: nat)
    requires ep > 0
  {
    s + n <= |x.src| && forall k :: s <= k < s + n ==> Fits(x, k, p, ep)
  }

  /** The last capture that is open. */
  ghost predicate LastOpen(caps: seq<Capture>, l: nat) {
    l < |caps| && caps[l].len == Unfinished && forall i :: l < i < |caps| ==> caps[i].len != Unfinished
  }

  /** The pattern from `p` on matches the subject from `s` to `e`, and turns the captures `caps` into
    * `caps1`. */
  ghost predicate Matches(x: Search, s: nat, p: nat, caps: seq<Capture>, e: nat, caps1: seq<Capture>)
    requires s <= |x.src| && p <= |x.pat| && Before(caps, s)
    decreases |x.pat| - p, 1
  {
    var c, d := At(x.pat, p), At(x.pat, p + 1);
    if c == END then e == s && caps1 == caps
    else if c == '(' then
      && |caps| < MAXCAPTURES
      && if d == ')' then Matches(x, s, p + 2, caps + [Capture(s, Position)], e, caps1)
         else Matches(x, s, p + 1, caps + [Capture(s, Unfinished)], e, caps1)
    else if c == ')' then exists l :: LastOpen(caps, l) && Matches(x, s, p + 1, Closed(caps, l, s), e, caps1)
    else if c == ESC && d == 'b' then
      && At(x.pat, p + 2) != END && At(x.pat, p + 3) != END
      && exists t :: BalancedThen(x, s, t, p, caps, e, caps1)
    else if c == ESC && d == 'f' then
      && At(x.pat, p + 2) == '['
      && var ep := ClassEnd(x.pat, p + 2);
         ep.Place? && !BracketMatch(x, Previous(x.src, s), p + 2, ep.i - 1) && BracketMatch(x, At(x.src, s), p + 2, ep.i - 1)
         && Matches(x, s, ep.i, caps, e, caps1)
    else if c == ESC && Digit(d) then
      var l := Named(caps, d);
      l.Place? && SameText(x.src, caps[l.i], s) && Matches(x, s + caps[l.i].len.n, p + 2, caps, e, caps1)
    else if c == '$' && d == END then s == |x.src| && e == s && caps1 == caps
    else ClassEnd(x.pat, p).Place? && MatchesItem(x, s, p, ClassEnd(x.pat, p).i, caps, e, caps1)
  }

  ghost predicate MatchesItem(x: Search, s: nat, p: nat, ep: nat, caps: seq<Capture>, e: nat, caps1: seq<Capture>)
    requires s <= |x.src| && p < ep <= |x.pat| && Before(caps, s)
    decreases |x.pat| - ep, 2
  {
    var suffix := At(x.pat, ep);
    if suffix == '?' then exists n :: Repeated(x, s, p, ep, n, caps, e, caps1) && n <= 1
    else if suffix == '*' || suffix == '-' then exists n :: Repeated(x, s, p, ep, n, caps, e, caps1)
    else if suffix == '+' then exists n :: Repeated(x, s, p, ep, n, caps, e, caps1) && n >= 1
    else Fits(x, s, p, ep) && Matches(x, s + 1, ep, caps, e, caps1)
  }

  /** A balanced string up to `t`, and then the rest of the pattern. */
  ghost predicate BalancedThen(x: Search, s: nat, t: nat, p: nat, caps: seq<Capture>, e: nat, caps1: seq<Capture>)
    requires p + 4 <= |x.pat| && Before(caps, s)
    decreases |x.pat| - p, 0
  {
    Balanced(x.src, s, t, x.pat[p + 2], x.pat[p + 3]) && Matches(x, t, p + 4, caps, e, caps1)
  }

  /** The item matches `n` times, and what follows it matches after that. */
  ghost predicate Repeated(x: Search, s: nat, p: nat, ep: nat, n: nat, caps: seq<Capture>, e: nat, caps1: seq<Capture>)
    requires s <= |x.src| && p < ep < |x.pat| && Before(caps, s)
    decreases |x.pat| - ep, 1
  {
    Row(x, s, p, ep, n) && Matches(x, s + n, ep + 1, caps, e, caps1)
  }

  // ----- repetitions -----------------------------------------------------------------------------------

  lemma {:induction false} RepeatsIs(x: Search, s: nat, p: nat, ep: nat, n: nat)
    requires ep > 0 && s <= |x.src|
    ensures Row(x, s, p, ep, n) <==> n <= Repeats(x, s, p, ep)
    decreases |x.src| - s
  {
    if Fits(x, s, p, ep) && n > 0 {
      RepeatsIs(x, s + 1, p, ep, n - 1);
    }
  }

  /** What the search does with the rest of the pattern, for a number of repetitions. */
  function After(x: Search, s: nat, ep: nat, caps: seq<Capture>, n: nat): Result
    requires s + n <= |x.src| && ep < |x.pat| && Before(caps, s)
  {
    MatchFrom(x, s + n, ep + 1, caps)
  }

  /** `n` is the largest number of repetitions, up to `i`, for which the rest does not fail. */
  ghost predicate LargestOf(x: Search, s: nat, ep: nat, caps: seq<Capture>, i: nat, n: nat, r: Result)
    requires s + i <= |x.src| && ep < |x.pat| && Before(caps, s)
  {
    n <= i && After(x, s, ep, caps, n) == r && forall k :: n < k <= i ==> After(x, s, ep, caps, k) == Fail
  }

  ghost predicate SmallestOf(x: Search, s: nat, ep: nat, caps: seq<Capture>, i: nat, n: nat, r: Result)
    requires s + i <= |x.src| && ep < |x.pat| && Before(caps, s)
  {
    n <= i && After(x, s, ep, caps, n) == r && forall k :: 0 <= k < n ==> After(x, s, ep, caps, k) == Fail
  }

  ghost predicate NoneOf(x: Search, s: nat, ep: nat, caps: seq<Capture>, i: nat)
    requires s + i <= |x.src| && ep < |x.pat| && Before(caps, s)
  {
    forall n :: 0 <= n <= i ==> After(x, s, ep, caps, n) == Fail
  }

  /** `*` and `+` take the largest number of repetitions for which the rest matches. */
  lemma {:induction false} Greedy(x: Search, s: nat, ep: nat, caps: seq<Capture>, i: nat) returns (n: nat)
    requires s + i <= |x.src| && ep < |x.pat| && Before(caps, s)
    ensures var r := MaxExpand(x, s, ep, caps, i);
      if r == Fail then NoneOf(x, s, ep, caps, i) else LargestOf(x, s, ep, caps, i, n, r)
  {
    hide MatchFrom;
    n := i;
    if After(x, s, ep, caps, i) == Fail && i > 0 {
      n := Greedy(x, s, ep, caps, i - 1);
    }
  }

  /** `-` takes the smallest. */
  lemma {:induction false} Lazy(x: Search, s: nat, p: nat, ep: nat, caps: seq<Capture>) returns (n: nat)
    requires s <= |x.src| && p < ep < |x.pat| && Before(caps, s)
    ensures var r, i := MinExpand(x, s, p, ep, caps), Repeats(x, s, p, ep);
      if r == Fail then NoneOf(x, s, ep, caps, i) else SmallestOf(x, s, ep, caps, i, n, r)
    decreases |x.src| - s
  {
    hide MatchFrom;
    n := 0;
    if After(x, s, ep, caps, 0) == Fail && Fits(x, s, p, ep) {
      n := Lazy(x, s + 1, p, ep, caps);
      var i := Repeats(x, s, p, ep);
      assert forall k :: 1 <= k <= i ==> After(x, s, ep, caps, k) == After(x, s + 1, ep, caps, k - 1);
      n := n + 1;
    }
  }

  // ----- the search finds a match if and only if there is one ------------------------------------------

  /** A match that is reported exists, and if failure is reported none does. */
  ghost predicate Right(x: Search, s: nat, p: nat, caps: seq<Capture>)
    requires s <= |x.src| && p <= |x.pat| && Before(caps, s)
  {
    var r := MatchFrom(x, s, p, caps);
    (r.Match? ==> Matches(x, s, p, caps, r.e, r.caps)) && (r == Fail ==> forall e, c :: !Matches(x, s, p, caps, e, c))
  }

  ghost predicate RightAfter(x: Search, s: nat, ep: nat, caps: seq<Capture>, k: nat)
    requires s + k <= |x.src| && ep < |x.pat| && Before(caps, s)
  {
    Right(x, s + k, ep + 1, caps)
  }

  /** The matcher is sound and complete for the relation. */
  lemma {:induction false} MatcherIsRight(x: Search, s: nat, p: nat, caps: seq<Capture>)
    requires s <= |x.src| && p <= |x.pat| && Before(caps, s)
    ensures Right(x, s, p, caps)
    decreases |x.pat| - p, 1
  {
    var c, d := At(x.pat, p), At(x.pat, p + 1);
    if c == END {
    } else if c == '(' {
      if |caps| < MAXCAPTURES {
        if d == ')' { MatcherIsRight(x, s, p + 2, caps + [Capture(s, Position)]); }
        else { MatcherIsRight(x, s, p + 1, caps + [Capture(s, Unfinished)]); }
      }
    } else if c == ')' {
      CloseIsRight(x, s, p, caps);
    } else if c == ESC && d == 'b' {
      BalanceIsRight(x, s, p, caps);
    } else if c == ESC && d == 'f' {
      if At(x.pat, p + 2) == '[' && ClassEnd(x.pat, p + 2).Place? {
        MatcherIsRight(x, s, ClassEnd(x.pat, p + 2).i, caps);
      }
    } else if c == ESC && Digit(d) {
      var l := Named(caps, d);
      if l.Place? && SameText(x.src, caps[l.i], s) {
        MatcherIsRight(x, s + caps[l.i].len.n, p + 2, caps);
      }
    } else if c == '$' && d == END {
    } else if ClassEnd(x.pat, p).Place? {
      ItemIsRight(x, s, p, caps);
    }
  }

  lemma {:induction false} CloseIsRight(x: Search, s: nat, p: nat, caps: seq<Capture>)
    requires s <= |x.src| && p < |x.pat| && Before(caps, s) && At(x.pat, p) == ')'
    ensures Right(x, s, p, caps)
    decreases |x.pat| - p, 0
  {
    var l := ToClose(caps);
    if l.Place? {
      MatcherIsRight(x, s, p + 1, Closed(caps, l.i, s));
      assert forall i :: LastOpen(caps, i) <==> i == l.i;
    }
  }

  lemma {:induction false} BalanceIsRight(x: Search, s: nat, p: nat, caps: seq<Capture>)
    requires s <= |x.src| && p < |x.pat| && Before(caps, s) && At(x.pat, p) == ESC && At(x.pat, p + 1) == 'b'
    ensures Right(x, s, p, caps)
    decreases |x.pat| - p, 0
  {
    if At(x.pat, p + 2) != END && At(x.pat, p + 3) != END && At(x.src, s) == x.pat[p + 2] {
      var b, e := x.pat[p + 2], x.pat[p + 3];
      var r := BalanceEnd(x.src, s + 1, b, e, 1);
      forall t ensures r == Place(t) <==> Balanced(x.src, s, t, b, e) { BalanceFrom(x.src, s, s + 1, b, e, t); }
      if r.Place? {
        MatcherIsRight(x, r.i, p + 4, caps);
        var m := MatchFrom(x, r.i, p + 4, caps);
        assert m.Match? ==> BalancedThen(x, s, r.i, p, caps, m.e, m.caps);
        forall t, e1, c1 | m == Fail ensures !BalancedThen(x, s, t, p, caps, e1, c1) {
          assert r == Place(t) <==> Balanced(x.src, s, t, b, e);
        }
      }
    }
  }

  lemma {:induction false} ItemIsRight(x: Search, s: nat, p: nat, caps: seq<Capture>)
    requires s <= |x.src| && p < |x.pat| && Before(caps, s) && ClassEnd(x.pat, p).Place?
    ensures var ep, r := ClassEnd(x.pat, p).i, MatchItem(x, s, p, caps);
      && (r.Match? ==> MatchesItem(x, s, p, ep, caps, r.e, r.caps))
      && (r == Fail ==> forall e, c :: !MatchesItem(x, s, p, ep, caps, e, c))
    decreases |x.pat| - p, 0
  {
    var ep := ClassEnd(x.pat, p).i;
    var suffix := At(x.pat, ep);
    if ep < |x.pat| && (suffix == '?' || suffix == '*' || suffix == '+' || suffix == '-') {
      forall n: nat | s + n <= |x.src| ensures RightAfter(x, s, ep, caps, n) { MatcherIsRight(x, s + n, ep + 1, caps); }
      hide MatchFrom, Matches;
      SuffixIsRight(x, s, p, ep, caps);
    } else if Fits(x, s, p, ep) {
      MatcherIsRight(x, s + 1, ep, caps);
    }
  }

  /** The outcome `r` of a search over numbers of repetitions is right for the numbers from `low` on. */
  lemma RepeatedIsRight(x: Search, s: nat, p: nat, ep: nat, caps: seq<Capture>, low: nat, high: nat, n: nat, r: Result)
    requires s <= |x.src| && p < ep < |x.pat| && Before(caps, s) && s + high <= |x.src|
    requires forall k: nat | s + k <= |x.src| :: RightAfter(x, s, ep, caps, k)
    requires forall k: nat :: Row(x, s, p, ep, k) && k >= low ==> k <= high
    requires if r == Fail then forall k :: low <= k <= high ==> After(x, s, ep, caps, k) == Fail
             else low <= n <= high && Row(x, s, p, ep, n) && After(x, s, ep, caps, n) == r
    ensures r.Match? ==> Repeated(x, s, p, ep, n, caps, r.e, r.caps) && n >= low
    ensures r == Fail ==> forall k, e, c :: k >= low ==> !Repeated(x, s, p, ep, k, caps, e, c)
  {
    hide MatchFrom, Matches, Row;
    if r == Fail {
      forall k: nat, e, c | k >= low ensures !Repeated(x, s, p, ep, k, caps, e, c) {
        if k <= high {
          assert After(x, s, ep, caps, k) == Fail && RightAfter(x, s, ep, caps, k);
        }
      }
    } else {
      assert RightAfter(x, s, ep, caps, n);
    }
  }

  lemma SuffixIsRight(x: Search, s: nat, p: nat, ep: nat, caps: seq<Capture>)
    requires s <= |x.src| && p < ep < |x.pat| && Before(caps, s) && ClassEnd(x.pat, p) == Place(ep)
    requires var suffix := At(x.pat, ep); suffix == '?' || suffix == '*' || suffix == '+' || suffix == '-'
    requires forall k: nat | s + k <= |x.src| :: RightAfter(x, s, ep, caps, k)
    ensures var r := MatchItem(x, s, p, caps);
      && (r.Match? ==> MatchesItem(x, s, p, ep, caps, r.e, r.caps))
      && (r == Fail ==> forall e, c :: !MatchesItem(x, s, p, ep, caps, e, c))
  {
    var suffix, r, i := At(x.pat, ep), MatchItem(x, s, p, caps), Repeats(x, s, p, ep);
    forall k: nat ensures Row(x, s, p, ep, k) <==> k <= i { RepeatsIs(x, s, p, ep, k); }
    hide MatchFrom, Matches, Row, Right, RightAfter, Repeated, LargestOf, SmallestOf;
    if suffix == '?' {
      var n := if i > 0 && After(x, s, ep, caps, 1) != Fail then 1 else 0;
      OptionalIsRight(x, s, p, ep, caps);
    } else if suffix == '*' {
      StarIsRight(x, s, p, ep, caps);
    } else if suffix == '+' {
      PlusIsRight(x, s, p, ep, caps);
    } else {
      MinusIsRight(x, s, p, ep, caps);
    }
  }

  lemma StarIsRight(x: Search, s: nat, p: nat, ep: nat, caps: seq<Capture>)
    requires s <= |x.src| && p < ep < |x.pat| && Before(caps, s)
    requires forall k: nat | s + k <= |x.src| :: RightAfter(x, s, ep, caps, k)
    requires forall k: nat :: Row(x, s, p, ep, k) <==> k <= Repeats(x, s, p, ep)
    ensures var r := MaxExpand(x, s, ep, caps, Repeats(x, s, p, ep));
      && (r.Match? ==> exists n :: Repeated(x, s, p, ep, n, caps, r.e, r.caps))
      && (r == Fail ==> forall k, e, c :: !Repeated(x, s, p, ep, k, caps, e, c))
  {
    hide MatchFrom, Matches, Row, Right, RightAfter, Repeated, MaxExpand;
    var n := Greedy(x, s, ep, caps, Repeats(x, s, p, ep));
    RepeatedIsRight(x, s, p, ep, caps, 0, Repeats(x, s, p, ep), n, MaxExpand(x, s, ep, caps, Repeats(x, s, p, ep)));
  }

  lemma MinusIsRight(x: Search, s: nat, p: nat, ep: nat, caps: seq<Capture>)
    requires s <= |x.src| && p < ep < |x.pat| && Before(caps, s)
    requires forall k: nat | s + k <= |x.src| :: RightAfter(x, s, ep, caps, k)
    requires forall k: nat :: Row(x, s, p, ep, k) <==> k <= Repeats(x, s, p, ep)
    ensures var r := MinExpand(x, s, p, ep, caps);
      && (r.Match? ==> exists n :: Repeated(x, s, p, ep, n, caps, r.e, r.caps))
      && (r == Fail ==> forall k, e, c :: !Repeated(x, s, p, ep, k, caps, e, c))
  {
    hide MatchFrom, Matches, Row, Right, RightAfter, Repeated, MinExpand;
    var n := Lazy(x, s, p, ep, caps);
    RepeatedIsRight(x, s, p, ep, caps, 0, Repeats(x, s, p, ep), n, MinExpand(x, s, p, ep, caps));
  }

  lemma PlusIsRight(x: Search, s: nat, p: nat, ep: nat, caps: seq<Capture>)
    requires s <= |x.src| && p < ep < |x.pat| && Before(caps, s)
    requires forall k: nat | s + k <= |x.src| :: RightAfter(x, s, ep, caps, k)
    requires forall k: nat :: Row(x, s, p, ep, k) <==> k <= Repeats(x, s, p, ep)
    ensures var r := if Fits(x, s, p, ep) then MaxExpand(x, s + 1, ep, caps, Repeats(x, s + 1, p, ep)) else Fail;
      && (r.Match? ==> exists n :: Repeated(x, s, p, ep, n, caps, r.e, r.caps) && n >= 1)
      && (r == Fail ==> forall k, e, c :: k >= 1 ==> !Repeated(x, s, p, ep, k, caps, e, c))
  {
    hide MatchFrom, Matches, Row, Right, RightAfter, Repeated, MaxExpand;
    var i := Repeats(x, s, p, ep);
    if Fits(x, s, p, ep) {
      assert Repeats(x, s + 1, p, ep) == i - 1;
      var n := Greedy(x, s + 1, ep, caps, i - 1);
      assert forall k :: 1 <= k <= i ==> After(x, s, ep, caps, k) == After(x, s + 1, ep, caps, k - 1);
      RepeatedIsRight(x, s, p, ep, caps, 1, i, n + 1, MaxExpand(x, s + 1, ep, caps, i - 1));
    } else {
      RepeatedIsRight(x, s, p, ep, caps, 1, i, 0, Fail);
    }
  }

  lemma OptionalIsRight(x: Search, s: nat, p: nat, ep: nat, caps: seq<Capture>)
    requires s <= |x.src| && p < ep < |x.pat| && Before(caps, s)
    requires forall k: nat | s + k <= |x.src| :: RightAfter(x, s, ep, caps, k)
    requires forall k: nat :: Row(x, s, p, ep, k) <==> k <= Repeats(x, s, p, ep)
    ensures var r1 := if Fits(x, s, p, ep) then MatchFrom(x, s + 1, ep + 1, caps) else Fail;
      var r := if r1 == Fail then MatchFrom(x, s, ep + 1, caps) else r1;
      && (r.Match? ==> exists n :: Repeated(x, s, p, ep, n, caps, r.e, r.caps) && n <= 1)
      && (r == Fail ==> forall k, e, c :: k <= 1 ==> !Repeated(x, s, p, ep, k, caps, e, c))
  {
    hide MatchFrom, Matches, Row;
    var i := Repeats(x, s, p, ep);
    assert i >= 1 <==> Fits(x, s, p, ep);
    assert RightAfter(x, s, ep, caps, 0);
    assert Fits(x, s, p, ep) ==> RightAfter(x, s, ep, caps, 1);
    var r1 := if Fits(x, s, p, ep) then MatchFrom(x, s + 1, ep + 1, caps) else Fail;
    var r := if r1 == Fail then MatchFrom(x, s, ep + 1, caps) else r1;
    var n := if r1 == Fail then 0 else 1;
    if r.Match? {
      assert Repeated(x, s, p, ep, n, caps, r.e, r.caps);
    }
  }

  /** No more than `n` repetitions can be followed by a match of the rest: what `*` and `+` find is the
    * largest number that can. */
  lemma GreedyIsLargest(x: Search, s: nat, p: nat, ep: nat, caps: seq<Capture>) returns (n: nat)
    requires s <= |x.src| && p < ep < |x.pat| && Before(caps, s)
    requires MaxExpand(x, s, ep, caps, Repeats(x, s, p, ep)).Match?
    ensures var r := MaxExpand(x, s, ep, caps, Repeats(x, s, p, ep)); Repeated(x, s, p, ep, n, caps, r.e, r.caps)
    ensures forall k: nat, e, c :: k > n ==> !Repeated(x, s, p, ep, k, caps, e, c)
  {
    var i := Repeats(x, s, p, ep);
    n := Greedy(x, s, ep, caps, i);
    RepeatsIs(x, s, p, ep, n);
    MatcherIsRight(x, s + n, ep + 1, caps);
    hide MatchFrom, Matches, Row;
    forall k: nat, e, c | k > n ensures !Repeated(x, s, p, ep, k, caps, e, c) {
      RepeatsIs(x, s, p, ep, k);
      if k <= i {
        assert After(x, s, ep, caps, k) == Fail;
        MatcherIsRight(x, s + k, ep + 1, caps);
      }
    }
  }

  /** What `-` finds is the smallest number of repetitions that can be followed by a match of the rest. */
  lemma LazyIsSmallest(x: Search, s: nat, p: nat, ep: nat, caps: seq<Capture>) returns (n: nat)
    requires s <= |x.src| && p < ep < |x.pat| && Before(caps, s)
    requires MinExpand(x, s, p, ep, caps).Match?
    ensures var r := MinExpand(x, s, p, ep, caps); Repeated(x, s, p, ep, n, caps, r.e, r.caps)
    ensures forall k: nat, e, c :: k < n ==> !Repeated(x, s, p, ep, k, caps, e, c)
  {
    n := Lazy(x, s, p, ep, caps);
    RepeatsIs(x, s, p, ep, n);
    MatcherIsRight(x, s + n, ep + 1, caps);
    hide MatchFrom, Matches, Row;
    forall k: nat, e, c | k < n ensures !Repeated(x, s, p, ep, k, caps, e, c) {
      assert After(x, s, ep, caps, k) == Fail;
      MatcherIsRight(x, s + k, ep + 1, caps);
    }
  }
}
