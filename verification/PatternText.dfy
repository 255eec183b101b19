/** Patterns as they are meant and as they are written: what the text of a pattern matches is what the manual says of
  * its parts. The meaning here knows of no places in a text, and the text of no search. */
module PatternText {
  import opened LuaPatterns
  import opened PatternMeaning
  import opened PatternSyntax
  import opened PatternMatcher

  // ----- what is meant ---------------------------------------------------------------------------------

  /** A class by its small letter, or its complement; a character by itself, quoted or not; a range. */
  datatype Member = Class(k: char, complement: bool) | Quoted(c: char) | Range(lo: char, hi: char) | One(c: char)

  /** A single-character item. */
  datatype Single = Any | Just(m: Member) | OneOf(members: seq<Member>) | NoneOf(members: seq<Member>)

  datatype Times = Once | Optional | Greedily | GreedilyOnce | Lazily

  datatype Element =
    | Item(what: Single, times: Times)
    | Open
    | Close
    | Here
    | Between(b: char, e: char)
    | Frontier(what: Single)
    | Again(digit: char)

  /** The elements of a pattern, and whether it ends where the subject does. */
  datatype Pattern = Pattern(elements: seq<Element>, toEnd: bool)

  predicate Holds(cls: (char, char) -> bool, m: Member, c: char) {
    match m
    case Class(k, complement) => (if k == 'z' then c == '\0' else cls(c, k)) != complement
    case Quoted(d) => c == d
    case Range(lo, hi) => lo <= c <= hi
    case One(d) => c == d
  }

  predicate InSome(cls: (char, char) -> bool, ms: seq<Member>, c: char) {
    exists i :: 0 <= i < |ms| && Holds(cls, ms[i], c)
  }

  predicate Accepts(cls: (char, char) -> bool, what: Single, c: char) {
    match what
    case Any => true
    case Just(m) => Holds(cls, m, c)
    case OneOf(ms) => InSome(cls, ms, c)
    case NoneOf(ms) => !InSome(cls, ms, c)
  }

  /** How often an item may match in a row. */
  predicate Allowed(times: Times, n: nat) {
    match times
    case Once => n == 1
    case Optional => n <= 1
    case Greedily => true
    case GreedilyOnce => n >= 1
    case Lazily => true
  }

  ghost predicate AllAccepted(cls: (char, char) -> bool, what: Single, src: string, s: nat, n: nat) {
    s + n <= |src| && forall k :: s <= k < s + n ==> Accepts(cls, what, src[k])
  }

  /** The elements match the subject from `s` to `e`, and turn the captures `caps` into `caps1`. */
  ghost predicate Means(cls: (char, char) -> bool, src: string, s: nat, pat: Pattern, caps: seq<Capture>, e: nat,
                        caps1: seq<Capture>)
    requires s <= |src| && Before(caps, s)
    decreases |pat.elements|
  {
    if pat.elements == [] then e == s && caps1 == caps && (pat.toEnd ==> s == |src|)
    else
      var rest := Pattern(pat.elements[1..], pat.toEnd);
      match pat.elements[0]
      case Item(what, times) =>
        exists n: nat :: Allowed(times, n) && AllAccepted(cls, what, src, s, n) && Means(cls, src, s + n, rest, caps, e, caps1)
      case Open => |caps| < 32 && Means(cls, src, s, rest, caps + [Capture(s, Unfinished)], e, caps1)
      case Here => |caps| < 32 && Means(cls, src, s, rest, caps + [Capture(s, Position)], e, caps1)
      case Close =>
        exists l: nat :: LastOpen(caps, l) &&
          Means(cls, src, s, rest, caps[l := Capture(caps[l].init, Len(s - caps[l].init))], e, caps1)
      case Between(b, c) => exists t: nat :: Balanced(src, s, t, b, c) && Means(cls, src, t, rest, caps, e, caps1)
      case Frontier(what) =>
        && !Accepts(cls, what, if s == 0 then '\0' else src[s - 1])
        && Accepts(cls, what, if s == |src| then '\0' else src[s])
        && Means(cls, src, s, rest, caps, e, caps1)
      case Again(digit) =>
        var l := digit as int - '1' as int;
        && 0 <= l < |caps| && caps[l].len.Len?
        && var n := caps[l].len.n;
        && s + n <= |src| && src[caps[l].init..caps[l].init + n] == src[s..s + n]
        && Means(cls, src, s + n, rest, caps, e, caps1)
  }

  // ----- what is written -------------------------------------------------------------------------------

  function Capital(k: char): char { if 'a' <= k <= 'z' then (k as int - 32) as char else k }

  function MemberText(m: Member): (t: string)
    ensures t != ""
  {
    match m
    case Class(k, complement) => ['%', if complement then Capital(k) else k]
    case Quoted(c) => ['%', c]
    case Range(lo, hi) => [lo, '-', hi]
    case One(c) => [c]
  }

  function MembersText(ms: seq<Member>): (t: string)
    ensures ms != [] ==> t != ""
  {
    if ms == [] then "" else MemberText(ms[0]) + MembersText(ms[1..])
  }

  function SingleText(what: Single): string {
    match what
    case Any => "."
    case Just(m) => MemberText(m)
    case OneOf(ms) => "[" + MembersText(ms) + "]"
    case NoneOf(ms) => "[^" + MembersText(ms) + "]"
  }

  function TimesText(times: Times): string {
    match times case Once => "" case Optional => "?" case Greedily => "*" case GreedilyOnce => "+" case Lazily => "-"
  }

  function ElementText(element: Element): string {
    match element
    case Item(what, times) => SingleText(what) + TimesText(times)
    case Open => "("
    case Close => ")"
    case Here => "()"
    case Between(b, e) => ['%', 'b', b, e]
    case Frontier(what) => "%f" + SingleText(what)
    case Again(digit) => ['%', digit]
  }

  function PatternText(pat: Pattern): string
    decreases |pat.elements|
  {
    if pat.elements == [] then if pat.toEnd then "$" else ""
    else ElementText(pat.elements[0]) + PatternText(Pattern(pat.elements[1..], pat.toEnd))
  }

  // What can be written so: no character may be taken for something else where it stands.

  predicate MemberOk(m: Member) {
    match m
    case Class(k, _) => k in "acdlpsuwxz"
    case Quoted(c) => c != '\0' && c !in "acdlpsuwxz" && c !in "ACDLPSUWXZ"
    case Range(lo, hi) => lo !in "%\0" && hi !in "%]\0"
    case One(c) => c !in "%\0"
  }

  /** Members behind the first one; a bracket would end the set, and a hyphen in front of something makes a range. */
  predicate MembersOk(ms: seq<Member>, first: bool) {
    ms != [] ==>
      && MemberOk(ms[0]) && (!first ==> MemberText(ms[0])[0] != ']')
      && (ms[0].One? && |ms| > 1 ==> MembersText(ms[1..])[0] != '-' || MembersText(ms[1..]) == "-")
      && MembersOk(ms[1..], false)
  }

  predicate SetOk(what: Single) {
    match what
    case OneOf(ms) => ms != [] && MembersOk(ms, true) && MembersText(ms)[0] != '^'
    case NoneOf(ms) => ms != [] && MembersOk(ms, true)
    case _ => false
  }

  predicate SingleOk(what: Single) {
    match what
    case Any => true
    case Just(Class(k, _)) => k in "acdlpsuwxz"
    case Just(Quoted(c)) => MemberOk(Quoted(c)) && c !in "bf0123456789"
    case Just(One(c)) => c !in "%.[()\0"
    case Just(_) => false
    case _ => SetOk(what)
  }

  /** The element can be written, with the text `rest` behind it. */
  predicate ElementOk(element: Element, rest: string) {
    match element
    case Item(what, times) =>
      && SingleOk(what)
      && (times == Once && rest != "" ==> rest[0] !in "?*+-")
      && (what == Just(One('$')) && times == Once ==> rest != "")
    case Open => rest != "" ==> rest[0] != ')'
    case Between(b, e) => b != '\0' && e != '\0'
    case Frontier(what) => SetOk(what)
    case Again(digit) => '0' <= digit <= '9'
    case _ => true
  }

  predicate PatternOk(pat: Pattern)
    decreases |pat.elements|
  {
    pat.elements != [] ==>
      var rest := Pattern(pat.elements[1..], pat.toEnd);
      ElementOk(pat.elements[0], PatternText(rest)) && PatternOk(rest)
  }

  // ----- reading a text --------------------------------------------------------------------------------

  /** The text stands in the pattern at `p`. */
  predicate StandsAt(pat: string, p: nat, t: string) { p + |t| <= |pat| && pat[p..p + |t|] == t }

  lemma StandsParts(pat: string, p: nat, a: string, b: string)
    requires StandsAt(pat, p, a + b)
    ensures StandsAt(pat, p, a) && StandsAt(pat, p + |a|, b)
  {
    assert pat[p..p + |a|] == (a + b)[..|a|];
    assert pat[p + |a|..p + |a| + |b|] == (a + b)[|a|..];
  }

  lemma StandsChars(pat: string, p: nat, t: string)
    requires StandsAt(pat, p, t)
    ensures forall i :: 0 <= i < |t| ==> At(pat, p + i) == t[i]
  {
    forall i | 0 <= i < |t| ensures At(pat, p + i) == t[i] {
      assert pat[p..p + |t|][i] == pat[p + i];
    }
  }

  lemma ClassLetter(x: Search, c: char, m: Member)
    requires MemberOk(m) && (m.Class? || m.Quoted?)
    ensures InClass(x, c, MemberText(m)[1]) == Holds(x.cls, m, c)
  {}

  /** The first member and the others. */
  lemma MembersParts(pat: string, q: nat, ms: seq<Member>, first: bool)
    requires ms != [] && MembersOk(ms, first) && StandsAt(pat, q, MembersText(ms) + "]")
    ensures var t, more := MemberText(ms[0]), MembersText(ms[1..]);
      && MembersText(ms) == t + more && MemberOk(ms[0]) && MembersOk(ms[1..], false)
      && StandsAt(pat, q, t) && StandsAt(pat, q + |t|, more + "]")
      && (more == "" <==> |ms| == 1) && (more != "" ==> more[0] != ']')
      && (ms[0].One? && more != "" ==> more[0] != '-' || more == "-")
  {
    hide StandsAt, MemberOk, MemberText;
    var t, more := MemberText(ms[0]), MembersText(ms[1..]);
    assert t + (more + "]") == MembersText(ms) + "]";
    StandsParts(pat, q, t, more + "]");
    if |ms| > 1 {
      FirstChar(ms[1..]);
    }
  }

  /** The members of a set, read one after the other. */
  lemma {:induction false} MembersRead(x: Search, c: char, q: nat, ms: seq<Member>, first: bool)
    requires ms != [] && MembersOk(ms, first) && StandsAt(x.pat, q, MembersText(ms) + "]")
    ensures InSet(x, c, q, q + |MembersText(ms)|) == InSome(x.cls, ms, c)
    ensures SetEnd(x.pat, q) == Place(q + |MembersText(ms)| + 1)
    decreases |ms|
  {
    hide InClass, Holds, InSome, InSet, SetEnd, StandsAt, MembersOk, MemberOk, MembersText;
    var m, t, more := ms[0], MemberText(ms[0]), MembersText(ms[1..]);
    MembersParts(x.pat, q, ms, first);
    SomeFirst(x.cls, ms, c);
    if m.Class? || m.Quoted? { ClassLetter(x, c, m); }
    MemberInSet(x, c, q, q + |t| + |more|, m, more);
    MemberToEnd(x.pat, q, m, more);
    if |ms| > 1 {
      MembersRead(x, c, q + |t|, ms[1..], false);
    } else {
      SetIsOver(x, c, q + |t|);
    }
  }

  lemma SetIsOver(x: Search, c: char, q: nat)
    ensures !InSet(x, c, q, q)
  {}

  lemma FirstChar(ms: seq<Member>)
    requires ms != []
    ensures MembersText(ms)[0] == MemberText(ms[0])[0]
  {}

  lemma SomeFirst(cls: (char, char) -> bool, ms: seq<Member>, c: char)
    requires ms != []
    ensures InSome(cls, ms, c) <==> Holds(cls, ms[0], c) || (|ms| > 1 && InSome(cls, ms[1..], c))
  {
    if InSome(cls, ms[1..], c) {
      var i :| 0 <= i < |ms[1..]| && Holds(cls, ms[1..][i], c);
      assert Holds(cls, ms[i + 1], c);
    }
    if i :| 0 < i < |ms| && Holds(cls, ms[i], c) {
      assert Holds(cls, ms[1..][i - 1], c);
    }
  }

  lemma MemberChars(pat: string, q: nat, m: Member)
    requires MemberOk(m) && forall i :: 0 <= i < |MemberText(m)| ==> At(pat, q + i) == MemberText(m)[i]
    ensures match m
      case Class(_, _) => At(pat, q) == '%' && At(pat, q + 1) == MemberText(m)[1] != '\0'
      case Quoted(c) => At(pat, q) == '%' && At(pat, q + 1) == c != '\0'
      case Range(lo, hi) => At(pat, q) == lo && At(pat, q + 1) == '-' && At(pat, q + 2) == hi
      case One(c) => At(pat, q) == c
  {
    assert At(pat, q + 0) == MemberText(m)[0];
    assert !m.One? ==> At(pat, q + 1) == MemberText(m)[1];
    assert m.Range? ==> At(pat, q + 2) == MemberText(m)[2];
  }

  lemma MemberInSet(x: Search, c: char, q: nat, ec: nat, m: Member, more: string)
    requires MemberOk(m) && StandsAt(x.pat, q, MemberText(m)) && StandsAt(x.pat, q + |MemberText(m)|, more + "]")
    requires ec == q + |MemberText(m)| + |more|
    requires m.Class? || m.Quoted? ==> InClass(x, c, MemberText(m)[1]) == Holds(x.cls, m, c)
    requires m.One? && more != "" ==> more[0] != '-' || more == "-"
    ensures InSet(x, c, q, ec) <==> Holds(x.cls, m, c) || InSet(x, c, q + |MemberText(m)|, ec)
  {
    hide InClass, StandsAt;
    StandsChars(x.pat, q, MemberText(m));
    StandsChars(x.pat, q + |MemberText(m)|, more + "]");
    MemberChars(x.pat, q, m);
    if m.One? {
      assert At(x.pat, q + 1) == (more + "]")[0];
      assert At(x.pat, q + 1) == '-' ==> more == "-";
    }
  }

  lemma MemberLength(m: Member)
    requires MemberOk(m)
    ensures |MemberText(m)| == match m case Range(_, _) => 3 case One(_) => 1 case _ => 2
    ensures m.One? ==> m.c != '%' && m.c != '\0'
    ensures m.Range? ==> m.lo != '%' && m.lo != '\0' && m.hi != '%' && m.hi != '\0' && m.hi != ']'
  {}

  /** A member is passed over, up to what is behind it. */
  lemma MemberToEnd(pat: string, q: nat, m: Member, more: string)
    requires MemberOk(m) && StandsAt(pat, q, MemberText(m)) && StandsAt(pat, q + |MemberText(m)|, more + "]")
    ensures SetEnd(pat, q) ==
      var q1 := q + |MemberText(m)|;
      if more == "" || more[0] == ']' then Place(q1 + 1) else SetEnd(pat, q1)
  {
    StandsChars(pat, q, MemberText(m));
    StandsChars(pat, q + |MemberText(m)|, more + "]");
    assert At(pat, q + |MemberText(m)|) == (more + "]")[0];
    hide StandsAt, MemberText, MemberOk;
    MemberChars(pat, q, m);
    MemberLength(m);
    if m.Range? {
      assert SetEnd(pat, q) == SetEnd(pat, q + 1);
      assert SetEnd(pat, q + 1) == SetEnd(pat, q + 2);
    }
  }

  /** Where the members of a set begin. */
  function MembersAt(what: Single): nat { if what.NoneOf? then 2 else 1 }

  lemma SetBegins(pat: string, p: nat, what: Single)
    requires SetOk(what) && StandsAt(pat, p, SingleText(what))
    ensures p < |pat| && pat[p] == '[' && (At(pat, p + 1) == '^' <==> what.NoneOf?)
    ensures StandsAt(pat, p + MembersAt(what), MembersText(what.members) + "]")
    ensures |SingleText(what)| == MembersAt(what) + |MembersText(what.members)| + 1
  {
    var head, ms := if what.OneOf? then "[" else "[^", what.members;
    assert SingleText(what) == head + (MembersText(ms) + "]");
    StandsParts(pat, p, head, MembersText(ms) + "]");
    StandsChars(pat, p, head);
    StandsChars(pat, p + |head|, MembersText(ms) + "]");
    assert At(pat, p) == head[0] && (|head| == 2 ==> At(pat, p + 1) == head[1]);
    hide MembersOk, MembersText;
    assert |head| == 1 ==> At(pat, p + 1) == (MembersText(ms) + "]")[0];
  }

  /** A set is read as it is meant. */
  lemma SetRead(x: Search, c: char, p: nat, what: Single)
    requires SetOk(what) && StandsAt(x.pat, p, SingleText(what))
    ensures ClassEnd(x.pat, p) == Place(p + |SingleText(what)|)
    ensures BracketMatch(x, c, p, p + |SingleText(what)| - 1) == Accepts(x.cls, what, c)
  {
    hide InSet, SetEnd, InSome, MembersOk, StandsAt, MembersText, SingleText;
    SetBegins(x.pat, p, what);
    MembersRead(x, c, p + MembersAt(what), what.members, true);
  }

  lemma JustRead(x: Search, c: char, p: nat, m: Member)
    requires SingleOk(Just(m)) && StandsAt(x.pat, p, MemberText(m))
    ensures ClassEnd(x.pat, p) == Place(p + |MemberText(m)|)
    ensures SingleMatch(x, c, p, p + |MemberText(m)|) == Holds(x.cls, m, c)
  {
    hide InClass, BracketMatch, SetEnd;
    StandsChars(x.pat, p, MemberText(m));
    if m.Class? || m.Quoted? {
      ClassLetter(x, c, m);
      assert At(x.pat, p) == '%' && At(x.pat, p + 1) == MemberText(m)[1];
    } else {
      assert At(x.pat, p) == m.c;
    }
  }

  /** So is every single-character item. */
  lemma SingleRead(x: Search, c: char, p: nat, what: Single)
    requires SingleOk(what) && StandsAt(x.pat, p, SingleText(what))
    ensures ClassEnd(x.pat, p) == Place(p + |SingleText(what)|)
    ensures SingleMatch(x, c, p, p + |SingleText(what)|) == Accepts(x.cls, what, c)
  {
    match what
    case Any => StandsChars(x.pat, p, ".");
    case Just(m) => JustRead(x, c, p, m);
    case _ =>
      hide StandsAt, SingleText, Accepts, BracketMatch;
      SetBegins(x.pat, p, what);
      SetRead(x, c, p, what);
  }

  // ----- a written pattern matches what it means -------------------------------------------------------

  /** The rest of the pattern is `a` and then `b`. */
  lemma Behind(pat: string, p: nat, a: string, b: string)
    requires p <= |pat| && pat[p..] == a + b
    ensures StandsAt(pat, p, a) && p + |a| <= |pat| && pat[p + |a|..] == b
    ensures At(pat, p + |a|) == if b == "" then END else b[0]
  {
    assert pat[p..p + |a|] == (a + b)[..|a|];
    assert pat[p + |a|..] == (a + b)[|a|..];
    assert b != "" ==> pat[p + |a|] == pat[p + |a|..][0];
  }

  lemma FirstMember(ms: seq<Member>)
    requires ms != []
    ensures MembersText(ms)[0] == MemberText(ms[0])[0]
  {}

  /** No text begins with a NUL. */
  lemma TextBegins(pat: Pattern)
    requires PatternOk(pat) && PatternText(pat) != ""
    ensures PatternText(pat)[0] != '\0'
  {
    if pat.elements != [] {
      var rest := PatternText(Pattern(pat.elements[1..], pat.toEnd));
      ElementBegins(pat.elements[0], rest);
      hide ElementText, ElementOk;
      assert PatternText(pat) == ElementText(pat.elements[0]) + rest;
    }
  }

  lemma ElementBegins(element: Element, rest: string)
    requires ElementOk(element, rest)
    ensures ElementText(element) != "" && ElementText(element)[0] != '\0'
  {
    if element.Item? {
      SingleBegins(element.what);
    }
  }

  lemma SingleBegins(what: Single)
    requires SingleOk(what)
    ensures var t := SingleText(what);
      && t != "" && t[0] != '(' && t[0] != ')' && t[0] != '\0'
      && (t[0] == '%' ==> |t| == 2 && t[1] != 'b' && t[1] != 'f' && !Digit(t[1]))
    ensures SingleText(what)[0] == '$' ==> what == Just(One('$')) && |SingleText(what)| == 1
  {}

  /** The item is not taken for anything else. */
  lemma ItemStands(pat: string, p: nat, what: Single, times: Times, rest: string)
    requires p <= |pat| && pat[p..] == SingleText(what) + TimesText(times) + rest
    requires ElementOk(Item(what, times), rest) && (rest != "" ==> rest[0] != '\0')
    ensures var c, d, ep := At(pat, p), At(pat, p + 1), p + |SingleText(what)|;
      && StandsAt(pat, p, SingleText(what)) && p < ep <= |pat|
      && c != '(' && c != ')' && c != END && !(c == '%' && (d == 'b' || d == 'f' || Digit(d)))
      && !(c == '$' && d == END)
      && pat[ep + |TimesText(times)|..] == rest && ep + |TimesText(times)| <= |pat|
      && (times != Once ==> At(pat, ep) == TimesText(times)[0])
      && (times == Once ==> !Suffix(At(pat, ep)))
  {
    hide SingleText, SingleOk, MemberText, StandsAt, ElementOk;
    var t, u := SingleText(what), TimesText(times);
    assert t + u + rest == t + (u + rest);
    Behind(pat, p, t, u + rest);
    Behind(pat, p + |t|, u, rest);
    ItemFits(what, times, rest);
    SingleBegins(what);
    TextHere(pat, p, t);
  }

  lemma ItemFits(what: Single, times: Times, rest: string)
    requires ElementOk(Item(what, times), rest)
    ensures SingleOk(what) && (times == Once && rest != "" ==> !Suffix(rest[0]))
    ensures what == Just(One('$')) ==> TimesText(times) + rest != ""
    ensures times != Once ==> TimesText(times) != ""
  {
    hide SingleOk;
  }

  lemma RowIs(x: Search, s: nat, p: nat, ep: nat, what: Single, n: nat)
    requires SingleOk(what) && StandsAt(x.pat, p, SingleText(what)) && ep == p + |SingleText(what)| > 0
    ensures Row(x, s, p, ep, n) <==> AllAccepted(x.cls, what, x.src, s, n)
  {
    hide SingleMatch, Accepts, StandsAt, SingleText, SingleOk;
    if s + n <= |x.src| {
      forall k | s <= k < s + n ensures Fits(x, k, p, ep) <==> Accepts(x.cls, what, x.src[k]) {
        SingleRead(x, x.src[k], p, what);
      }
    }
  }

  /** From `s` on, the rest of the pattern, which stands at `p1`, matches what it means. */
  ghost predicate RestAgrees(x: Search, s: nat, p1: nat, rest: Pattern, e: nat, caps1: seq<Capture>) {
    && s <= |x.src| && p1 <= |x.pat|
    && forall s1: nat, caps2 :: s <= s1 <= |x.src| && Before(caps2, s1) ==>
      (Matches(x, s1, p1, caps2, e, caps1) <==> Means(x.cls, x.src, s1, rest, caps2, e, caps1))
  }

  lemma OnceMeans(x: Search, s: nat, p: nat, ep: nat, what: Single, rest: Pattern, caps: seq<Capture>, e: nat,
                  caps1: seq<Capture>)
    requires s <= |x.src| && Before(caps, s) && p < ep <= |x.pat| && !Suffix(At(x.pat, ep))
    requires SingleOk(what) && StandsAt(x.pat, p, SingleText(what)) && ep == p + |SingleText(what)|
    requires RestAgrees(x, s, ep, rest, e, caps1)
    ensures MatchesItem(x, s, p, ep, caps, e, caps1) <==>
      AllAccepted(x.cls, what, x.src, s, 1) && Means(x.cls, x.src, s + 1, rest, caps, e, caps1)
  {
    hide SingleOk, StandsAt, SingleText, Matches, Means, Row, AllAccepted, MatchesItem, RestAgrees;
    RowIs(x, s, p, ep, what, 1);
    RowOfOne(x, s, p, ep);
    OnceItem(x, s, p, ep, caps, e, caps1);
    hide Fits;
    if Row(x, s, p, ep, 1) {
      BeforeLater(caps, s, s + 1);
      Agrees(x, s, ep, rest, e, caps1, s + 1, caps);
    }
  }

  lemma RowOfOne(x: Search, s: nat, p: nat, ep: nat)
    requires ep > 0
    ensures Row(x, s, p, ep, 1) <==> Fits(x, s, p, ep)
    ensures Fits(x, s, p, ep) ==> s + 1 <= |x.src|
  {
    hide SingleMatch;
  }

  lemma OnceItem(x: Search, s: nat, p: nat, ep: nat, caps: seq<Capture>, e: nat, caps1: seq<Capture>)
    requires s <= |x.src| && Before(caps, s) && p < ep <= |x.pat| && !Suffix(At(x.pat, ep))
    ensures MatchesItem(x, s, p, ep, caps, e, caps1) <==> Fits(x, s, p, ep) && Matches(x, s + 1, ep, caps, e, caps1)
  {
    hide Matches, SingleMatch;
  }

  lemma TimesMean(x: Search, s: nat, p: nat, ep: nat, what: Single, times: Times, rest: Pattern,
                  caps: seq<Capture>, e: nat, caps1: seq<Capture>)
    requires s <= |x.src| && Before(caps, s) && p < ep < |x.pat| && times != Once
    requires SingleOk(what) && StandsAt(x.pat, p, SingleText(what)) && ep == p + |SingleText(what)|
    requires At(x.pat, ep) == TimesText(times)[0] && RestAgrees(x, s, ep + 1, rest, e, caps1)
    ensures MatchesItem(x, s, p, ep, caps, e, caps1) <==>
      exists n: nat ::
        Allowed(times, n) && AllAccepted(x.cls, what, x.src, s, n) && Means(x.cls, x.src, s + n, rest, caps, e, caps1)
  {
    hide SingleOk, StandsAt, SingleText, Accepts, Matches, Means, SingleMatch, Fits, RestAgrees;
    if MatchesItem(x, s, p, ep, caps, e, caps1) {
      var n: nat := TimesTaken(x, s, p, ep, times, caps, e, caps1);
      RowIs(x, s, p, ep, what, n);
      BeforeLater(caps, s, s + n);
      Agrees(x, s, ep + 1, rest, e, caps1, s + n, caps);
    }
    if n: nat :|
      Allowed(times, n) && AllAccepted(x.cls, what, x.src, s, n) && Means(x.cls, x.src, s + n, rest, caps, e, caps1) {
      RowIs(x, s, p, ep, what, n);
      BeforeLater(caps, s, s + n);
      Agrees(x, s, ep + 1, rest, e, caps1, s + n, caps);
      TimesGiven(x, s, p, ep, times, n, caps, e, caps1);
    }
  }

  lemma Agrees(x: Search, s: nat, p1: nat, rest: Pattern, e: nat, caps1: seq<Capture>, s1: nat, caps: seq<Capture>)
    requires RestAgrees(x, s, p1, rest, e, caps1) && s <= s1 <= |x.src| && Before(caps, s1)
    ensures p1 <= |x.pat| && (Matches(x, s1, p1, caps, e, caps1) <==> Means(x.cls, x.src, s1, rest, caps, e, caps1))
  {
    hide Matches, Means;
  }

  lemma TimesTaken(x: Search, s: nat, p: nat, ep: nat, times: Times, caps: seq<Capture>, e: nat, caps1: seq<Capture>)
    returns (n: nat)
    requires s <= |x.src| && Before(caps, s) && p < ep < |x.pat| && times != Once
    requires At(x.pat, ep) == TimesText(times)[0]
    requires MatchesItem(x, s, p, ep, caps, e, caps1)
    ensures Allowed(times, n) && Row(x, s, p, ep, n) && Before(caps, s + n) && Matches(x, s + n, ep + 1, caps, e, caps1)
  {
    hide Row, Matches;
    n :| Repeated(x, s, p, ep, n, caps, e, caps1) && Allowed(times, n);
  }

  lemma TimesGiven(x: Search, s: nat, p: nat, ep: nat, times: Times, n: nat, caps: seq<Capture>, e: nat,
                   caps1: seq<Capture>)
    requires s <= |x.src| && Before(caps, s) && p < ep < |x.pat| && times != Once
    requires At(x.pat, ep) == TimesText(times)[0]
    requires Allowed(times, n) && Row(x, s, p, ep, n) && Before(caps, s + n)
    requires Matches(x, s + n, ep + 1, caps, e, caps1)
    ensures MatchesItem(x, s, p, ep, caps, e, caps1)
  {
    assert Repeated(x, s, p, ep, n, caps, e, caps1) by { hide Matches; }
    hide Row, Matches;
  }

  lemma ItemMatches(x: Search, s: nat, p: nat, what: Single, times: Times, rest: Pattern, caps: seq<Capture>, e: nat,
                    caps1: seq<Capture>)
    requires s <= |x.src| && Before(caps, s) && p <= |x.pat|
    requires x.pat[p..] == SingleText(what) + TimesText(times) + PatternText(rest)
    requires ElementOk(Item(what, times), PatternText(rest))
    requires (PatternText(rest) != "" ==> PatternText(rest)[0] != '\0')
    requires RestAgrees(x, s, p + |SingleText(what)| + |TimesText(times)|, rest, e, caps1)
    ensures Matches(x, s, p, caps, e, caps1) <==>
      exists n: nat ::
        Allowed(times, n) && AllAccepted(x.cls, what, x.src, s, n) && Means(x.cls, x.src, s + n, rest, caps, e, caps1)
  {
    hide StandsAt, SingleText, PatternText, SingleOk, SingleMatch, RestAgrees, ClassEnd, Matches, Accepts;
    ItemStands(x.pat, p, what, times, PatternText(rest));
    SingleRead(x, END, p, what);
    var ep := p + |SingleText(what)|;
    ByItem(x, s, p, ep, caps, e, caps1);
    if times == Once {
      OnceMeans(x, s, p, ep, what, rest, caps, e, caps1);
      OnlyOnce(x.cls, x.src, s, what, rest, caps, e, caps1);
    } else {
      TimesMean(x, s, p, ep, what, times, rest, caps, e, caps1);
    }
  }

  lemma OnlyOnce(cls: (char, char) -> bool, src: string, s: nat, what: Single, rest: Pattern, caps: seq<Capture>,
                 e: nat,
                 caps1: seq<Capture>)
    requires s <= |src| && Before(caps, s)
    ensures AllAccepted(cls, what, src, s, 1) && Means(cls, src, s + 1, rest, caps, e, caps1) <==>
      exists n: nat ::
        Allowed(Once, n) && AllAccepted(cls, what, src, s, n) && Means(cls, src, s + n, rest, caps, e, caps1)
  {
    hide Accepts, Means;
    assert Allowed(Once, 1);
  }

  lemma ByItem(x: Search, s: nat, p: nat, ep: nat, caps: seq<Capture>, e: nat, caps1: seq<Capture>)
    requires s <= |x.src| && Before(caps, s) && p < |x.pat| && ClassEnd(x.pat, p) == Place(ep)
    requires var c, d := At(x.pat, p), At(x.pat, p + 1);
      c != '(' && c != ')' && c != END && !(c == '%' && (d == 'b' || d == 'f' || Digit(d))) && !(c == '$' && d == END)
    ensures Matches(x, s, p, caps, e, caps1) <==> MatchesItem(x, s, p, ep, caps, e, caps1)
  {
    hide MatchesItem, ClassEnd;
  }

  lemma CaptureMatches(x: Search, s: nat, p: nat, here: bool, rest: Pattern, caps: seq<Capture>, e: nat,
                       caps1: seq<Capture>)
    requires s <= |x.src| && Before(caps, s) && p + (if here then 2 else 1) <= |x.pat| && At(x.pat, p) == '('
    requires here <==> At(x.pat, p + 1) == ')'
    requires RestAgrees(x, s, p + (if here then 2 else 1), rest, e, caps1)
    ensures Before(caps + [Capture(s, if here then Position else Unfinished)], s)
    ensures Matches(x, s, p, caps, e, caps1) <==>
      |caps| < 32 && Means(x.cls, x.src, s, rest, caps + [Capture(s, if here then Position else Unfinished)], e, caps1)
  {
    hide Means, MatchesItem, ClassEnd;
  }

  lemma CloseMatches(x: Search, s: nat, p: nat, rest: Pattern, caps: seq<Capture>, e: nat, caps1: seq<Capture>)
    requires s <= |x.src| && Before(caps, s) && p + 1 <= |x.pat| && At(x.pat, p) == ')'
    requires RestAgrees(x, s, p + 1, rest, e, caps1)
    ensures Matches(x, s, p, caps, e, caps1) <==>
      exists l :: LastOpen(caps, l) && Means(x.cls, x.src, s, rest, Closed(caps, l, s), e, caps1)
  {
    hide Means, MatchesItem, ClassEnd, RestAgrees;
    if Matches(x, s, p, caps, e, caps1) {
      var l :| LastOpen(caps, l) && Matches(x, s, p + 1, Closed(caps, l, s), e, caps1);
      Agrees(x, s, p + 1, rest, e, caps1, s, Closed(caps, l, s));
    }
    if l :| LastOpen(caps, l) && Means(x.cls, x.src, s, rest, Closed(caps, l, s), e, caps1) {
      Agrees(x, s, p + 1, rest, e, caps1, s, Closed(caps, l, s));
    }
  }

  lemma BetweenMatches(x: Search, s: nat, p: nat, b: char, c: char, rest: Pattern, caps: seq<Capture>, e: nat,
                       caps1: seq<Capture>)
    requires s <= |x.src| && Before(caps, s) && p + 4 <= |x.pat| && At(x.pat, p) == '%' && At(x.pat, p + 1) == 'b'
    requires At(x.pat, p + 2) == b != '\0' && At(x.pat, p + 3) == c != '\0'
    requires RestAgrees(x, s, p + 4, rest, e, caps1)
    ensures Matches(x, s, p, caps, e, caps1) <==>
      exists t: nat :: Balanced(x.src, s, t, b, c) && Means(x.cls, x.src, t, rest, caps, e, caps1)
  {
    hide Means, MatchesItem, ClassEnd, RestAgrees;
    if Matches(x, s, p, caps, e, caps1) {
      var t := BetweenTaken(x, s, p, caps, e, caps1);
      Agrees(x, s, p + 4, rest, e, caps1, t, caps);
    }
    if t: nat :| Balanced(x.src, s, t, b, c) && Means(x.cls, x.src, t, rest, caps, e, caps1) {
      BeforeLater(caps, s, t);
      Agrees(x, s, p + 4, rest, e, caps1, t, caps);
      assert BalancedThen(x, s, t, p, caps, e, caps1);
    }
  }

  lemma BetweenTaken(x: Search, s: nat, p: nat, caps: seq<Capture>, e: nat, caps1: seq<Capture>) returns (t: nat)
    requires s <= |x.src| && Before(caps, s) && p + 4 <= |x.pat| && At(x.pat, p) == '%' && At(x.pat, p + 1) == 'b'
    requires Matches(x, s, p, caps, e, caps1)
    ensures Balanced(x.src, s, t, At(x.pat, p + 2), At(x.pat, p + 3)) && Before(caps, t)
    ensures Matches(x, t, p + 4, caps, e, caps1)
  {
    hide MatchesItem, ClassEnd;
    assert exists t :: BalancedThen(x, s, t, p, caps, e, caps1);
    t :| BalancedThen(x, s, t, p, caps, e, caps1);
    BeforeLater(caps, s, t);
  }

  lemma FrontierMatches(x: Search, s: nat, p: nat, what: Single, rest: Pattern, caps: seq<Capture>, e: nat,
                        caps1: seq<Capture>)
    requires s <= |x.src| && Before(caps, s) && SetOk(what) && StandsAt(x.pat, p, "%f" + SingleText(what))
    requires RestAgrees(x, s, p + 2 + |SingleText(what)|, rest, e, caps1)
    ensures p <= |x.pat| && (Matches(x, s, p, caps, e, caps1) <==>
      && !Accepts(x.cls, what, if s == 0 then '\0' else x.src[s - 1])
      && Accepts(x.cls, what, if s == |x.src| then '\0' else x.src[s])
      && Means(x.cls, x.src, s, rest, caps, e, caps1))
  {
    hide Means, MatchesItem, ClassEnd, Accepts, BracketMatch, SingleText, StandsAt, SetOk;
    FrontierRead(x, s, p, what);
  }

  lemma AgainMatches(x: Search, s: nat, p: nat, digit: char, rest: Pattern, caps: seq<Capture>, e: nat,
                     caps1: seq<Capture>)
    requires s <= |x.src| && Before(caps, s) && p + 2 <= |x.pat| && At(x.pat, p) == '%' && At(x.pat, p + 1) == digit
    requires '0' <= digit <= '9' && RestAgrees(x, s, p + 2, rest, e, caps1)
    ensures Matches(x, s, p, caps, e, caps1) <==>
      var l := digit as int - '1' as int;
      && 0 <= l < |caps| && caps[l].len != Unfinished && SameText(x.src, caps[l], s)
      && Means(x.cls, x.src, s + caps[l].len.n, rest, caps, e, caps1)
  {
    hide Means, MatchesItem, ClassEnd;
  }

  /** What the text of a pattern matches is what the pattern means. */
  lemma {:induction false} TextMatches(x: Search, s: nat, p: nat, pat: Pattern, caps: seq<Capture>, e: nat,
                                       caps1: seq<Capture>)
    requires s <= |x.src| && Before(caps, s) && p <= |x.pat| && PatternOk(pat) && x.pat[p..] == PatternText(pat)
    ensures Matches(x, s, p, caps, e, caps1) <==> Means(x.cls, x.src, s, pat, caps, e, caps1)
    decreases |pat.elements|
  {
    hide Matches, Means, ElementText, ElementOk;
    if pat.elements == [] {
      EndMatches(x, s, p, pat, caps, e, caps1);
    } else {
      var element, rest := pat.elements[0], Pattern(pat.elements[1..], pat.toEnd);
      var p1 := p + |ElementText(element)|;
      Behind(x.pat, p, ElementText(element), PatternText(rest));
      if PatternText(rest) != "" { TextBegins(rest); }
      forall s1: nat, caps2 | s <= s1 <= |x.src| && Before(caps2, s1)
        ensures Matches(x, s1, p1, caps2, e, caps1) <==> Means(x.cls, x.src, s1, rest, caps2, e, caps1)
      {
        TextMatches(x, s1, p1, rest, caps2, e, caps1);
      }
      ElementMatches(x, s, p, element, rest, pat, caps, e, caps1);
    }
  }

  lemma EndMatches(x: Search, s: nat, p: nat, pat: Pattern, caps: seq<Capture>, e: nat, caps1: seq<Capture>)
    requires s <= |x.src| && Before(caps, s) && p <= |x.pat| && pat.elements == [] && x.pat[p..] == PatternText(pat)
    ensures Matches(x, s, p, caps, e, caps1) <==> Means(x.cls, x.src, s, pat, caps, e, caps1)
  {
    hide MatchesItem, ClassEnd;
    if pat.toEnd {
      assert x.pat[p..][0] == x.pat[p] == '$' && |x.pat| == p + 1;
    }
  }

  lemma ElementMatches(x: Search, s: nat, p: nat, element: Element, rest: Pattern, pat: Pattern, caps: seq<Capture>,
                       e: nat, caps1: seq<Capture>)
    requires s <= |x.src| && Before(caps, s) && p <= |x.pat|
    requires pat.elements != [] && element == pat.elements[0] && rest == Pattern(pat.elements[1..], pat.toEnd)
    requires ElementOk(element, PatternText(rest)) && x.pat[p..] == ElementText(element) + PatternText(rest)
    requires PatternText(rest) != "" ==> PatternText(rest)[0] != '\0'
    requires RestAgrees(x, s, p + |ElementText(element)|, rest, e, caps1)
    ensures Matches(x, s, p, caps, e, caps1) <==> Means(x.cls, x.src, s, pat, caps, e, caps1)
  {
    hide Matches, Means, RestAgrees, PatternText, SingleText, SetOk, SingleOk, Chars;
    Behind(x.pat, p, ElementText(element), PatternText(rest));
    match element
    case Item(what, times) =>
      assert |ElementText(element)| == |SingleText(what)| + |TimesText(times)|;
      ItemMatches(x, s, p, what, times, rest, caps, e, caps1);
      ItemMeans(x.cls, x.src, s, pat, what, times, caps, e, caps1);
    case Frontier(what) =>
      FrontierMatches(x, s, p, what, rest, caps, e, caps1);
      FrontierMeans(x.cls, x.src, s, pat, what, caps, e, caps1);
    case _ =>
      CharsStand(x.pat, p, element, PatternText(rest));
      SimpleMatches(x, s, p, element, rest, pat, caps, e, caps1);
  }

  lemma ItemMeans(cls: (char, char) -> bool, src: string, s: nat, pat: Pattern, what: Single, times: Times,
                  caps: seq<Capture>, e: nat, caps1: seq<Capture>)
    requires s <= |src| && Before(caps, s) && pat.elements != [] && pat.elements[0] == Item(what, times)
    ensures var rest := Pattern(pat.elements[1..], pat.toEnd);
      Means(cls, src, s, pat, caps, e, caps1) <==>
        exists n: nat ::
          Allowed(times, n) && AllAccepted(cls, what, src, s, n) && Means(cls, src, s + n, rest, caps, e, caps1)
  {
    hide Accepts;
  }

  lemma FrontierMeans(cls: (char, char) -> bool, src: string, s: nat, pat: Pattern, what: Single, caps: seq<Capture>,
                      e: nat, caps1: seq<Capture>)
    requires s <= |src| && Before(caps, s) && pat.elements != [] && pat.elements[0] == Frontier(what)
    ensures var rest := Pattern(pat.elements[1..], pat.toEnd);
      Means(cls, src, s, pat, caps, e, caps1) <==>
        && !Accepts(cls, what, if s == 0 then '\0' else src[s - 1])
        && Accepts(cls, what, if s == |src| then '\0' else src[s])
        && Means(cls, src, s, rest, caps, e, caps1)
  {
    hide Accepts;
  }

  lemma SimpleMatches(x: Search, s: nat, p: nat, element: Element, rest: Pattern, pat: Pattern, caps: seq<Capture>,
                      e: nat, caps1: seq<Capture>)
    requires s <= |x.src| && Before(caps, s) && p + |ElementText(element)| <= |x.pat|
    requires pat.elements != [] && element == pat.elements[0] && rest == Pattern(pat.elements[1..], pat.toEnd)
    requires Chars(x.pat, p, element) && RestAgrees(x, s, p + |ElementText(element)|, rest, e, caps1)
    ensures Matches(x, s, p, caps, e, caps1) <==> Means(x.cls, x.src, s, pat, caps, e, caps1)
  {
    hide Matches, RestAgrees, LastOpen, Balanced;
    match element
    case Open => CaptureMatches(x, s, p, false, rest, caps, e, caps1);
    case Here => CaptureMatches(x, s, p, true, rest, caps, e, caps1);
    case Close => CloseMatches(x, s, p, rest, caps, e, caps1);
    case Between(b, c) => BetweenMatches(x, s, p, b, c, rest, caps, e, caps1);
    case Again(digit) => AgainMatches(x, s, p, digit, rest, caps, e, caps1);
  }

  /** The characters that the elements without items begin with. */
  predicate Chars(text: string, p: nat, element: Element) {
    match element
    case Open => At(text, p) == '(' && At(text, p + 1) != ')'
    case Here => At(text, p) == '(' && At(text, p + 1) == ')'
    case Close => At(text, p) == ')'
    case Between(b, e) =>
      && At(text, p) == '%' && At(text, p + 1) == 'b'
      && At(text, p + 2) == b != END && At(text, p + 3) == e != END
    case Again(digit) => At(text, p) == '%' && At(text, p + 1) == digit && Digit(digit)
    case _ => false
  }

  lemma CharsStand(text: string, p: nat, element: Element, rest: string)
    requires ElementOk(element, rest) && !element.Item? && !element.Frontier?
    requires StandsAt(text, p, ElementText(element))
    requires At(text, p + |ElementText(element)|) == if rest == "" then END else rest[0]
    ensures Chars(text, p, element)
  {
    hide StandsAt;
    TextHere(text, p, ElementText(element));
  }

  lemma TextHere(pat: string, p: nat, t: string)
    requires StandsAt(pat, p, t)
    ensures (|t| > 0 ==> At(pat, p) == t[0]) && (|t| > 1 ==> At(pat, p + 1) == t[1])
    ensures (|t| > 2 ==> At(pat, p + 2) == t[2]) && (|t| > 3 ==> At(pat, p + 3) == t[3])
  {
    StandsChars(pat, p, t);
    hide StandsAt;
    assert |t| > 0 ==> At(pat, p + 0) == t[0];
  }

  lemma FrontierRead(x: Search, s: nat, p: nat, what: Single)
    requires s <= |x.src| && SetOk(what) && StandsAt(x.pat, p, "%f" + SingleText(what))
    ensures At(x.pat, p) == '%' && At(x.pat, p + 1) == 'f' && At(x.pat, p + 2) == '[' && p + 2 < |x.pat|
    ensures ClassEnd(x.pat, p + 2) == Place(p + 2 + |SingleText(what)|) && SingleText(what) != ""
    ensures BracketMatch(x, Previous(x.src, s), p + 2, p + 2 + |SingleText(what)| - 1) ==
      Accepts(x.cls, what, if s == 0 then '\0' else x.src[s - 1])
    ensures BracketMatch(x, At(x.src, s), p + 2, p + 2 + |SingleText(what)| - 1) ==
      Accepts(x.cls, what, if s == |x.src| then '\0' else x.src[s])
  {
    hide StandsAt, SingleText, BracketMatch, Accepts, SetOk, ClassEnd, MembersText;
    var f := "%f";
    StandsParts(x.pat, p, f, SingleText(what));
    TextHere(x.pat, p, f);
    SetBegins(x.pat, p + 2, what);
    SetRead(x, Previous(x.src, s), p + 2, what);
    SetRead(x, At(x.src, s), p + 2, what);
  }

  // ----- searching for what is meant -------------------------------------------------------------------

  /** The text of a pattern for a search, which may be for the beginning of the subject only. */
  predicate WrittenAs(x: Search, pat: Pattern, anchored: bool) {
    && PatternOk(pat) && x.pat == (if anchored then "^" else "") + PatternText(pat)
    && (!anchored && PatternText(pat) != "" ==> PatternText(pat)[0] != '^')
  }

  /** So the search looks for what is meant, whatever the subject and the classes: `MatchState.Find` finds the first
    * place at which the pattern means a match, if and only if there is one. */
  lemma SearchMeans(x: Search, pat: Pattern, anchored: bool, s: nat, e: nat, caps: seq<Capture>)
    requires WrittenAs(x, pat, anchored) && s <= |x.src|
    ensures Anchored(x) <==> anchored
    ensures Matches(x, s, Start(x), [], e, caps) <==> Means(x.cls, x.src, s, pat, [], e, caps)
  {
    hide PatternOk, PatternText, Matches, Means;
    assert x.pat[Start(x)..] == PatternText(pat);
    TextMatches(x, s, Start(x), pat, [], e, caps);
  }

  /** A range between brackets holds the characters from one end to the other. */
  lemma RangeMeans(x: Search, c: char, lo: char, hi: char)
    requires x.pat == ['[', lo, '-', hi, ']'] && lo !in "^%\0" && hi !in "%]\0"
    ensures SingleMatch(x, c, 0, 5) <==> lo <= c <= hi
  {
    var what := OneOf([Range(lo, hi)]);
    assert [Range(lo, hi)][1..] == [] && MembersText([]) == "" && MembersOk([], false);
    assert MembersText([Range(lo, hi)]) == [lo, '-', hi];
    assert MembersOk([Range(lo, hi)], true);
    assert SingleText(what) == x.pat && x.pat[0..5] == x.pat;
    assert InSome(x.cls, [Range(lo, hi)], c) <==> Holds(x.cls, Range(lo, hi), c);
    SingleRead(x, c, 0, what);
  }

  // ----- which patterns are well formed ----------------------------------------------------------------

  /** The captures of a pattern are opened and closed in order, and referred back to when they are closed. */
  predicate CapturesOk(elements: seq<Element>, open: seq<bool>)
    decreases |elements|
  {
    elements == [] ||
      match elements[0]
      case Open => |open| < 32 && CapturesOk(elements[1..], open + [true])
      case Here => |open| < 32 && CapturesOk(elements[1..], open + [false])
      case Close => LastOf(open).Place? && CapturesOk(elements[1..], open[LastOf(open).i := false])
      case Again(digit) =>
        var l := digit as int - '1' as int;
        0 <= l < |open| && !open[l] && CapturesOk(elements[1..], open)
      case _ => CapturesOk(elements[1..], open)
  }

  /** The text of a pattern is well formed exactly if its captures are in order. */
  lemma {:induction false} TextWellFormed(text: string, p: nat, pat: Pattern, open: seq<bool>)
    requires p <= |text| && PatternOk(pat) && text[p..] == PatternText(pat)
    ensures WellFormed(text, p, open) <==> CapturesOk(pat.elements, open)
    decreases |pat.elements|
  {
    hide ElementText, ElementOk, SingleText, ClassEnd, LastOf;
    if pat.elements == [] {
      if pat.toEnd {
        assert text[p..][0] == text[p] == '$' && |text| == p + 1;
      }
    } else {
      var element, rest := pat.elements[0], Pattern(pat.elements[1..], pat.toEnd);
      Behind(text, p, ElementText(element), PatternText(rest));
      if PatternText(rest) != "" { TextBegins(rest); }
      ElementWellFormed(text, p, element, PatternText(rest), open);
      hide WellFormed, PatternText;
      var p1 := p + |ElementText(element)|;
      TextWellFormed(text, p1, rest, open);
      TextWellFormed(text, p1, rest, open + [true]);
      TextWellFormed(text, p1, rest, open + [false]);
      if LastOf(open).Place? { TextWellFormed(text, p1, rest, open[LastOf(open).i := false]); }
    }
  }

  /** The pattern is well formed behind the element. */
  predicate WellFormedBehind(text: string, p1: nat, element: Element, open: seq<bool>)
    requires p1 <= |text|
  {
    match element
    case Open => |open| < 32 && WellFormed(text, p1, open + [true])
    case Here => |open| < 32 && WellFormed(text, p1, open + [false])
    case Close => LastOf(open).Place? && WellFormed(text, p1, open[LastOf(open).i := false])
    case Again(digit) =>
      var l := digit as int - '1' as int;
      0 <= l < |open| && !open[l] && WellFormed(text, p1, open)
    case _ => WellFormed(text, p1, open)
  }

  lemma ElementWellFormed(text: string, p: nat, element: Element, rest: string, open: seq<bool>)
    requires p <= |text| && text[p..] == ElementText(element) + rest && ElementOk(element, rest)
    requires rest != "" ==> rest[0] != '\0'
    ensures var p1 := p + |ElementText(element)|;
      p1 <= |text| && (WellFormed(text, p, open) <==> WellFormedBehind(text, p1, element, open))
  {
    hide StandsAt, SetOk, SingleOk, SingleText, ClassEnd, LastOf, WellFormed;
    Behind(text, p, ElementText(element), rest);
    match element
    case Item(what, times) => ItemWellFormed(text, p, what, times, rest, open);
    case Frontier(what) => FrontierWellFormed(text, p, what, open);
    case _ =>
      CharsStand(text, p, element, rest);
      hide Chars, WellFormedBehind;
      SimpleWellFormed(text, p, element, open);
  }

  lemma SimpleWellFormed(text: string, p: nat, element: Element, open: seq<bool>)
    requires Chars(text, p, element) && p + |ElementText(element)| <= |text|
    ensures WellFormed(text, p, open) <==> WellFormedBehind(text, p + |ElementText(element)|, element, open)
  {
    hide LastOf, WellFormed, ClassEnd;
    match element
    case Close => CloseWellFormed(text, p, open);
    case Between(_, _) => QuotedWellFormed(text, p, open);
    case Again(_) => QuotedWellFormed(text, p, open);
    case _ => OpenWellFormed(text, p, open);
  }

  lemma FrontierWellFormed(text: string, p: nat, what: Single, open: seq<bool>)
    requires SetOk(what) && StandsAt(text, p, "%f" + SingleText(what))
    ensures p + 2 + |SingleText(what)| <= |text|
    ensures WellFormed(text, p, open) <==> WellFormed(text, p + 2 + |SingleText(what)|, open)
  {
    hide StandsAt, SetOk, SingleText, ClassEnd, LastOf, WellFormed, BracketMatch, Accepts;
    FrontierRead(Search("", text, (c, k) => false), 0, p, what);
    QuotedWellFormed(text, p, open);
  }

  lemma OpenWellFormed(text: string, p: nat, open: seq<bool>)
    requires At(text, p) == '('
    ensures WellFormed(text, p, open) <==>
      |open| < 32 && if At(text, p + 1) == ')' then WellFormed(text, p + 2, open + [false]) else WellFormed(text, p + 1, open + [true])
  {}

  lemma CloseWellFormed(text: string, p: nat, open: seq<bool>)
    requires At(text, p) == ')'
    ensures WellFormed(text, p, open) <==>
      LastOf(open).Place? && WellFormed(text, p + 1, open[LastOf(open).i := false])
  {
    hide LastOf;
  }

  lemma QuotedWellFormed(text: string, p: nat, open: seq<bool>)
    requires At(text, p) == '%'
    ensures At(text, p + 1) == 'b' && At(text, p + 2) != END && At(text, p + 3) != END ==>
      (WellFormed(text, p, open) <==> WellFormed(text, p + 4, open))
    ensures At(text, p + 1) == 'f' && At(text, p + 2) == '[' && p + 2 < |text| && ClassEnd(text, p + 2).Place? ==>
      (WellFormed(text, p, open) <==> WellFormed(text, ClassEnd(text, p + 2).i, open))
    ensures var l := At(text, p + 1) as int - '1' as int;
      Digit(At(text, p + 1)) ==>
        (WellFormed(text, p, open) <==> 0 <= l < |open| && !open[l] && WellFormed(text, p + 2, open))
  {
    hide LastOf, ClassEnd;
  }

  lemma ItemWellFormed(text: string, p: nat, what: Single, times: Times, rest: string, open: seq<bool>)
    requires p <= |text| && text[p..] == SingleText(what) + TimesText(times) + rest
    requires ElementOk(Item(what, times), rest) && (rest != "" ==> rest[0] != '\0')
    ensures var p1 := p + |SingleText(what)| + |TimesText(times)|;
      p1 <= |text| && (WellFormed(text, p, open) <==> WellFormed(text, p1, open))
  {
    hide StandsAt, SetOk, SingleText, ClassEnd, SingleMatch, Accepts, LastOf, SingleOk;
    ItemStands(text, p, what, times, rest);
    SingleRead(Search("", text, (c, k) => false), END, p, what);
  }

  /** A character, or one that is quoted. */
  predicate Token(t: string) { (|t| == 1 && t[0] !in "%\0") || (|t| == 2 && t[0] == '%' && t[1] != '\0') }

  function Joined(tokens: seq<string>): string { if tokens == [] then "" else tokens[0] + Joined(tokens[1..]) }

  /** From `q` on there are characters, of which only the first may be a bracket that is not quoted, and then the
    * bracket that ends the set. */
  predicate EndsAt(pat: string, q: nat, tokens: seq<string>, e: nat) {
    && tokens != [] && (forall i :: 0 <= i < |tokens| ==> Token(tokens[i]))
    && (forall i :: 0 < i < |tokens| ==> tokens[i] != "]")
    && StandsAt(pat, q, Joined(tokens) + "]") && e == q + |Joined(tokens)| + 1
  }

  /** Where any set ends, and whether it does: it is malformed exactly if it has no such end. */
  lemma {:induction false} SetEndIs(pat: string, q: nat, e: nat)
    ensures SetEnd(pat, q) == Place(e) <==> exists tokens :: EndsAt(pat, q, tokens, e)
    decreases |pat| - q
  {
    if SetEnd(pat, q) == Place(e) {
      var tokens := TokensOf(pat, q, e);
    }
    if tokens :| EndsAt(pat, q, tokens, e) {
      TokensEnd(pat, q, tokens, e);
    }
  }

  lemma {:induction false} TokensOf(pat: string, q: nat, e: nat) returns (tokens: seq<string>)
    requires SetEnd(pat, q) == Place(e)
    ensures EndsAt(pat, q, tokens, e)
    decreases |pat| - q
  {
    var n := if pat[q] == ESC && At(pat, q + 1) != END then 2 else 1;
    var t := pat[q..q + n];
    if At(pat, q + n) == ']' {
      tokens := [t];
      assert Joined([t]) == t + Joined([]) == t;
      assert pat[q..q + n + 1] == t + "]";
    } else {
      assert SetEnd(pat, q) == SetEnd(pat, q + n);
      if pat[q] == ESC && n == 1 { LoneEscape(pat, q); }
      assert Token(t);
      var more := TokensOf(pat, q + n, e);
      tokens := [t] + more;
      TokenMore(pat, q, t, more, e);
    }
  }

  lemma TokenMore(pat: string, q: nat, t: string, more: seq<string>, e: nat)
    requires Token(t) && StandsAt(pat, q, t) && EndsAt(pat, q + |t|, more, e) && At(pat, q + |t|) != ']'
    ensures EndsAt(pat, q, [t] + more, e)
  {
    hide StandsAt, Joined, Token;
    var tokens, q1 := [t] + more, q + |t|;
    JoinedMore(t, more);
    assert Joined(tokens) + "]" == t + (Joined(more) + "]");
    StandsTogether(pat, q, t, Joined(more) + "]");
    StandsParts(pat, q1, Joined(more), "]");
    FirstToken(pat, q1, more);
    assert forall i :: 0 < i < |tokens| ==> tokens[i] == more[i - 1];
    assert forall i :: 0 <= i < |tokens| ==> Token(tokens[i]);
  }

  lemma JoinedMore(t: string, more: seq<string>)
    ensures Joined([t] + more) == t + Joined(more)
  {}

  lemma StandsTogether(pat: string, p: nat, a: string, b: string)
    requires StandsAt(pat, p, a) && StandsAt(pat, p + |a|, b)
    ensures StandsAt(pat, p, a + b)
  {
    var n, m := p + |a|, p + |a| + |b|;
    assert pat[p..m] == pat[p..n] + pat[n..m];
  }

  lemma FirstToken(pat: string, q: nat, tokens: seq<string>)
    requires tokens != [] && StandsAt(pat, q, Joined(tokens)) && Token(tokens[0])
    ensures At(pat, q) == tokens[0][0]
  {
    TextHere(pat, q, Joined(tokens));
    assert Joined(tokens)[0] == tokens[0][0];
  }

  lemma LoneEscape(pat: string, q: nat)
    requires At(pat, q + 1) == END
    ensures SetEnd(pat, q + 1) == Malformed
  {}

  lemma NoBracket(t: string)
    requires Token(t) && t != "]"
    ensures t[0] != ']'
  {
    if |t| == 1 {
      assert t == [t[0]];
    }
  }

  lemma {:induction false} TokensEnd(pat: string, q: nat, tokens: seq<string>, e: nat)
    requires EndsAt(pat, q, tokens, e)
    ensures SetEnd(pat, q) == Place(e)
    decreases |tokens|
  {
    var t, more := tokens[0], Joined(tokens[1..]);
    assert Joined(tokens) + "]" == t + (more + "]");
    StandsParts(pat, q, t, more + "]");
    TextHere(pat, q, t);
    TextHere(pat, q + |t|, more + "]");
    if |tokens| > 1 {
      assert Joined(tokens[1..])[0] == tokens[1][0];
      assert forall i :: 0 <= i < |tokens| - 1 ==> tokens[1..][i] == tokens[i + 1];
      TokensEnd(pat, q + |t|, tokens[1..], e);
      NoBracket(tokens[1]);
    }
  }

  // ----- which of several matches is found -------------------------------------------------------------

  /** `k` repetitions are tried before `n`. */
  predicate TriedBefore(times: Times, k: nat, n: nat) { if times == Lazily then k < n else k > n }

  /** With `n` repetitions of the item the rest of the pattern, at `p1`, does not fail, but gives `r`; all that are tried
    * before fail. */
  ghost predicate FirstTried(x: Search, s: nat, p1: nat, what: Single, times: Times, caps: seq<Capture>, r: Result,
                             n: nat)
    requires s <= |x.src| && p1 <= |x.pat| && Before(caps, s)
  {
    && Allowed(times, n) && AllAccepted(x.cls, what, x.src, s, n) && MatchFrom(x, s + n, p1, caps) == r
    && forall k: nat :: Allowed(times, k) && AllAccepted(x.cls, what, x.src, s, k) && TriedBefore(times, k, n) ==>
      MatchFrom(x, s + k, p1, caps) == Fail
  }

  ghost predicate AllFail(x: Search, s: nat, p1: nat, what: Single, times: Times, caps: seq<Capture>)
    requires s <= |x.src| && p1 <= |x.pat| && Before(caps, s)
  {
    forall k: nat :: Allowed(times, k) && AllAccepted(x.cls, what, x.src, s, k) ==>
      MatchFrom(x, s + k, p1, caps) == Fail
  }

  /** An item takes the first number of repetitions for which the rest matches: from the largest one down, but for the
    * hyphen, which goes from none upwards. */
  lemma ItemPrefers(x: Search, s: nat, p: nat, what: Single, times: Times, rest: string, caps: seq<Capture>)
    returns (n: nat)
    requires s <= |x.src| && Before(caps, s) && p <= |x.pat|
    requires x.pat[p..] == SingleText(what) + TimesText(times) + rest
    requires ElementOk(Item(what, times), rest) && (rest != "" ==> rest[0] != '\0')
    ensures var r, p1 := MatchFrom(x, s, p, caps), p + |SingleText(what)| + |TimesText(times)|;
      && p1 <= |x.pat|
      && if r == Fail then AllFail(x, s, p1, what, times, caps) else FirstTried(x, s, p1, what, times, caps, r, n)
  {
    hide StandsAt, SingleText, SingleOk, SingleMatch, Accepts, ClassEnd, MatchFrom, MatchItem, AllFail, FirstTried,
      TimesText;
    ItemStands(x.pat, p, what, times, rest);
    SingleRead(x, END, p, what);
    var ep := p + |SingleText(what)|;
    FromItem(x, s, p, ep, caps);
    TimesLength(times);
    if times == Lazily {
      n := LazyPrefers(x, s, p, ep, what, caps);
    } else if times == Greedily {
      n := GreedyPrefers(x, s, p, ep, what, caps);
    } else if times == GreedilyOnce {
      n := PlusPrefers(x, s, p, ep, what, caps);
    } else if times == Optional {
      n := OptionalPrefers(x, s, p, ep, what, caps);
    } else {
      n := 1;
      OncePrefers(x, s, p, ep, what, caps);
    }
  }

  lemma TimesLength(times: Times)
    ensures |TimesText(times)| == if times == Once then 0 else 1
    ensures times != Once ==>
      TimesText(times)[0] == match times case Optional => '?' case Greedily => '*' case GreedilyOnce => '+' case _ => '-'
  {}

  lemma FromItem(x: Search, s: nat, p: nat, ep: nat, caps: seq<Capture>)
    requires s <= |x.src| && Before(caps, s) && p < |x.pat| && ClassEnd(x.pat, p) == Place(ep)
    requires var c, d := At(x.pat, p), At(x.pat, p + 1);
      c != '(' && c != ')' && c != END && !(c == '%' && (d == 'b' || d == 'f' || Digit(d))) && !(c == '$' && d == END)
    ensures MatchFrom(x, s, p, caps) == MatchItem(x, s, p, caps)
  {
    hide MatchItem, ClassEnd;
  }

  /** The item at `p` and what follows. */
  predicate ItemAt(x: Search, s: nat, p: nat, ep: nat, what: Single, caps: seq<Capture>) {
    && s <= |x.src| && Before(caps, s) && p < ep <= |x.pat| && ClassEnd(x.pat, p) == Place(ep)
    && SingleOk(what) && StandsAt(x.pat, p, SingleText(what)) && ep == p + |SingleText(what)|
  }

  lemma RowsUpTo(x: Search, s: nat, p: nat, ep: nat, what: Single, caps: seq<Capture>)
    requires ItemAt(x, s, p, ep, what, caps)
    ensures forall k: nat :: AllAccepted(x.cls, what, x.src, s, k) <==> k <= Repeats(x, s, p, ep)
  {
    hide SingleMatch, Accepts, StandsAt, SingleText, SingleOk, AllAccepted, Row;
    forall k: nat
      ensures AllAccepted(x.cls, what, x.src, s, k) <==> k <= Repeats(x, s, p, ep)
    {
      RowIs(x, s, p, ep, what, k);
      RepeatsIs(x, s, p, ep, k);
    }
  }

  /** Of the repetitions there are, those tried before `n` fail. */
  ghost predicate BestOf(x: Search, s: nat, ep: nat, times: Times, caps: seq<Capture>, i: nat, r: Result, n: nat)
    requires s + i <= |x.src| && ep < |x.pat| && Before(caps, s)
  {
    && n <= i && Allowed(times, n) && After(x, s, ep, caps, n) == r
    && forall k: nat :: k <= i && Allowed(times, k) && TriedBefore(times, k, n) ==> After(x, s, ep, caps, k) == Fail
  }

  lemma BestIsFirst(x: Search, s: nat, p: nat, ep: nat, what: Single, times: Times, caps: seq<Capture>, r: Result,
                    n: nat)
    requires ItemAt(x, s, p, ep, what, caps) && ep < |x.pat|
    requires BestOf(x, s, ep, times, caps, Repeats(x, s, p, ep), r, n)
    ensures FirstTried(x, s, ep + 1, what, times, caps, r, n)
  {
    RowsUpTo(x, s, p, ep, what, caps);
    hide StandsAt, SingleText, SingleOk, Accepts, AllAccepted, ClassEnd, MatchFrom, Repeats, Allowed, TriedBefore;
    forall k: nat | Allowed(times, k) && AllAccepted(x.cls, what, x.src, s, k) && TriedBefore(times, k, n)
      ensures MatchFrom(x, s + k, ep + 1, caps) == Fail
    {
      assert After(x, s, ep, caps, k) == Fail;
    }
  }

  lemma NoneIsFirst(x: Search, s: nat, p: nat, ep: nat, what: Single, times: Times, caps: seq<Capture>)
    requires ItemAt(x, s, p, ep, what, caps) && ep < |x.pat|
    requires forall k: nat :: k <= Repeats(x, s, p, ep) && Allowed(times, k) ==> After(x, s, ep, caps, k) == Fail
    ensures AllFail(x, s, ep + 1, what, times, caps)
  {
    RowsUpTo(x, s, p, ep, what, caps);
    hide StandsAt, SingleText, SingleOk, Accepts, AllAccepted, ClassEnd, MatchFrom, Repeats, Allowed;
    forall k: nat | Allowed(times, k) && AllAccepted(x.cls, what, x.src, s, k)
      ensures MatchFrom(x, s + k, ep + 1, caps) == Fail
    {
      assert After(x, s, ep, caps, k) == Fail;
    }
  }

  lemma GreedyPrefers(x: Search, s: nat, p: nat, ep: nat, what: Single, caps: seq<Capture>) returns (n: nat)
    requires ItemAt(x, s, p, ep, what, caps) && At(x.pat, ep) == '*' && ep < |x.pat|
    ensures var r := MatchItem(x, s, p, caps);
      if r == Fail then AllFail(x, s, ep + 1, what, Greedily, caps)
      else FirstTried(x, s, ep + 1, what, Greedily, caps, r, n)
  {
    hide StandsAt, SingleText, SingleOk, Fits, ClassEnd, MatchFrom, MaxExpand, FirstTried, AllFail, After, Repeats;
    n := Greedy(x, s, ep, caps, Repeats(x, s, p, ep));
    var r := MatchItem(x, s, p, caps);
    if r == Fail {
      NoneIsFirst(x, s, p, ep, what, Greedily, caps);
    } else {
      BestIsFirst(x, s, p, ep, what, Greedily, caps, r, n);
    }
  }

  lemma LazyPrefers(x: Search, s: nat, p: nat, ep: nat, what: Single, caps: seq<Capture>) returns (n: nat)
    requires ItemAt(x, s, p, ep, what, caps) && At(x.pat, ep) == '-' && ep < |x.pat|
    ensures var r := MatchItem(x, s, p, caps);
      if r == Fail then AllFail(x, s, ep + 1, what, Lazily, caps)
      else FirstTried(x, s, ep + 1, what, Lazily, caps, r, n)
  {
    hide StandsAt, SingleText, SingleOk, Fits, ClassEnd, MatchFrom, MinExpand, FirstTried, AllFail, After, Repeats;
    n := Lazy(x, s, p, ep, caps);
    var r := MatchItem(x, s, p, caps);
    if r == Fail {
      NoneIsFirst(x, s, p, ep, what, Lazily, caps);
    } else {
      BestIsFirst(x, s, p, ep, what, Lazily, caps, r, n);
    }
  }

  /** One repetition is taken, and then as for any number. */
  lemma OneMore(x: Search, s: nat, p: nat, ep: nat, caps: seq<Capture>, k: nat)
    requires 0 < ep < |x.pat| && 1 <= k && s + k <= |x.src| && Before(caps, s)
    ensures Before(caps, s + 1) && After(x, s, ep, caps, k) == After(x, s + 1, ep, caps, k - 1)
  {
    hide MatchFrom;
    BeforeLater(caps, s, s + 1);
    assert s + 1 + (k - 1) == s + k;
  }

  lemma PlusPrefers(x: Search, s: nat, p: nat, ep: nat, what: Single, caps: seq<Capture>) returns (n: nat)
    requires ItemAt(x, s, p, ep, what, caps) && At(x.pat, ep) == '+' && ep < |x.pat|
    ensures var r := MatchItem(x, s, p, caps);
      if r == Fail then AllFail(x, s, ep + 1, what, GreedilyOnce, caps)
      else FirstTried(x, s, ep + 1, what, GreedilyOnce, caps, r, n)
  {
    hide StandsAt, SingleText, SingleOk, Fits, ClassEnd, MatchFrom, MaxExpand, FirstTried, AllFail, After;
    n := 0;
    var r := MatchItem(x, s, p, caps);
    if Fits(x, s, p, ep) {
      var i := Repeats(x, s + 1, p, ep);
      assert i + 1 == Repeats(x, s, p, ep);
      hide Repeats;
      BeforeLater(caps, s, s + 1);
      n := Greedy(x, s + 1, ep, caps, i);
      forall k: nat | 1 <= k <= i + 1 ensures After(x, s, ep, caps, k) == After(x, s + 1, ep, caps, k - 1) {
        OneMore(x, s, p, ep, caps, k);
      }
      n := n + 1;
      if r != Fail {
        BestIsFirst(x, s, p, ep, what, GreedilyOnce, caps, r, n);
      }
    }
    if r == Fail {
      NoneIsFirst(x, s, p, ep, what, GreedilyOnce, caps);
    }
  }

  lemma OptionalPrefers(x: Search, s: nat, p: nat, ep: nat, what: Single, caps: seq<Capture>) returns (n: nat)
    requires ItemAt(x, s, p, ep, what, caps) && At(x.pat, ep) == '?' && ep < |x.pat|
    ensures var r := MatchItem(x, s, p, caps);
      if r == Fail then AllFail(x, s, ep + 1, what, Optional, caps)
      else FirstTried(x, s, ep + 1, what, Optional, caps, r, n)
  {
    hide StandsAt, SingleText, SingleOk, Fits, ClassEnd, MatchFrom, FirstTried, AllFail;
    assert Fits(x, s, p, ep) <==> Repeats(x, s, p, ep) >= 1;
    assert After(x, s, ep, caps, 0) == MatchFrom(x, s, ep + 1, caps);
    hide Repeats;
    n := 0;
    if Fits(x, s, p, ep) {
      BeforeLater(caps, s, s + 1);
      assert After(x, s, ep, caps, 1) == MatchFrom(x, s + 1, ep + 1, caps);
      n := if After(x, s, ep, caps, 1) == Fail then 0 else 1;
    }
    hide After;
    var r := MatchItem(x, s, p, caps);
    if r == Fail {
      NoneIsFirst(x, s, p, ep, what, Optional, caps);
    } else {
      BestIsFirst(x, s, p, ep, what, Optional, caps, r, n);
    }
  }

  lemma OnceResult(x: Search, s: nat, p: nat, ep: nat, caps: seq<Capture>)
    requires s <= |x.src| && Before(caps, s) && p < ep <= |x.pat| && ClassEnd(x.pat, p) == Place(ep)
    requires !Suffix(At(x.pat, ep))
    ensures Fits(x, s, p, ep) ==> s + 1 <= |x.src| && Before(caps, s + 1)
    ensures MatchItem(x, s, p, caps) == if Fits(x, s, p, ep) then MatchFrom(x, s + 1, ep, caps) else Fail
  {
    hide ClassEnd, MatchFrom, SingleMatch, MaxExpand, MinExpand, Repeats;
    if Fits(x, s, p, ep) { BeforeLater(caps, s, s + 1); }
  }

  lemma OncePrefers(x: Search, s: nat, p: nat, ep: nat, what: Single, caps: seq<Capture>)
    requires ItemAt(x, s, p, ep, what, caps) && !Suffix(At(x.pat, ep))
    ensures var r := MatchItem(x, s, p, caps);
      if r == Fail then AllFail(x, s, ep, what, Once, caps) else FirstTried(x, s, ep, what, Once, caps, r, 1)
  {
    hide StandsAt, SingleText, SingleOk, Fits, ClassEnd, MatchFrom, MatchItem, AllAccepted, Suffix, SingleMatch, Row;
    OnceResult(x, s, p, ep, caps);
    RowIs(x, s, p, ep, what, 1);
    RowOfOne(x, s, p, ep);
  }
}
