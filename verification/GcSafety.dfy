/** What the collector's state promises between two steps, whatever the phase. */
module GcSafety {
  import opened GcHeap

  predicate Alive(mark: Marks, cur: bool, r: Ref) { r in mark && mark[r] != White(!cur) }

  /** `sweeplist` frees the objects in the other white, unless they are fixed. */
  predicate Dies(objs: Objs, mark: Marks, cur: bool, r: Ref)
    requires r in objs && r in mark
  {
    mark[r] == White(!cur) && !objs[r].fixed
  }

  ghost predicate ValuesAlive(mark: Marks, cur: bool, vs: seq<Value>) {
    forall v :: v in vs && v.Collectable? ==> Alive(mark, cur, v.ref)
  }

  /** Nothing that could still be used is in the other white. */
  ghost predicate Safe(objs: Objs, mark: Marks, cur: bool, roots: seq<Value>) {
    && mark.Keys == objs.Keys
    && ValuesAlive(mark, cur, roots)
    && forall a, b :: a in objs && Alive(mark, cur, a) && Edge(objs, a, b) ==> Alive(mark, cur, b)
  }

  function RootSet(roots: seq<Value>): set<Ref> { set v | v in roots && v.Collectable? :: v.ref }

  /** Every object that can be reached from the roots is allocated and will not be freed. */
  lemma ReachableIsAlive(objs: Objs, mark: Marks, cur: bool, roots: seq<Value>, r: Ref)
    requires Safe(objs, mark, cur, roots) && Reachable(objs, RootSet(roots), r)
    ensures r in objs && Alive(mark, cur, r)
  {
    var among := set o | o in objs && Alive(mark, cur, o);
    forall o | o in RootSet(roots)
      ensures o in among
    {
      var v :| v in roots && v.Collectable? && v.ref == o;
      assert Alive(mark, cur, v.ref);
    }
    ReachableStaysInside(objs, RootSet(roots), among, r);
  }

  // ----- the lists -----------------------------------------------------------------------------

  /** `rootgc` chains every object but strings and open upvalues (and `except` those being freed). */
  ghost predicate RootListOk(objs: Objs, rootgc: seq<Ref>, except: set<Ref>) {
    && NoDup(rootgc)
    && (forall r :: r in rootgc ==> r in objs && objs[r].kind != String && !IsOpen(objs[r]) && r !in except)
    && (forall r :: r in objs && objs[r].kind != String && !IsOpen(objs[r]) && r !in except ==> r in rootgc)
  }

  function Bucket(hash: string -> nat, text: string, size: nat): (i: nat)
    requires size > 0
    ensures i < size
  {
    hash(text) % size
  }

  /** Every string is in the bucket of its hash, and no two strings have the same text. */
  ghost predicate StringsOk(objs: Objs, strt: seq<seq<Ref>>, hash: string -> nat) {
    && |strt| > 0
    && (forall i :: 0 <= i < |strt| ==> NoDup(strt[i]))
    && (forall i, r :: 0 <= i < |strt| && r in strt[i] ==>
          r in objs && objs[r].kind == String && Bucket(hash, objs[r].text, |strt|) == i)
    && (forall r :: r in objs && objs[r].kind == String ==> r in strt[Bucket(hash, objs[r].text, |strt|)])
    && Interned(objs)
  }

  /** Graphs with the same strings have the same string tables. */
  lemma StringsSame(objs: Objs, objs1: Objs, strt: seq<seq<Ref>>, hash: string -> nat)
    requires StringsOk(objs, strt, hash)
    requires forall r :: (r in objs && objs[r].kind == String) <==> (r in objs1 && objs1[r].kind == String)
    requires forall r :: r in objs && objs[r].kind == String && r in objs1 ==> objs1[r].text == objs[r].text
    ensures StringsOk(objs1, strt, hash)
  {
  }

  ghost predicate Interned(objs: Objs) {
    forall a, b ::
      (a in objs && b in objs && objs[a].kind == String && objs[b].kind == String && objs[a].text == objs[b].text)
      ==> a == b
  }

  /** The open upvalues of a thread are chained from the top of its stack down, one per slot. */
  ghost predicate OpenListOk(objs: Objs, t: Ref)
    requires t in objs
  {
    && (forall u :: u in objs[t].open ==> u in objs && IsOpen(objs[u]) && objs[u].place.thread == t)
    && (forall i, j :: 0 <= i < j < |objs[t].open| ==>
          objs[objs[t].open[i]].place.index > objs[objs[t].open[j]].place.index)
  }

  ghost predicate OpenOk(objs: Objs) {
    && (forall t :: t in objs ==> OpenListOk(objs, t))
    && (forall u :: u in objs && IsOpen(objs[u]) ==>
          objs[u].place.thread in objs && u in objs[objs[u].place.thread].open)
  }

  ghost predicate UvheadOk(objs: Objs, uvhead: seq<Ref>) {
    && NoDup(uvhead)
    && (forall u :: u in uvhead ==> u in objs && IsOpen(objs[u]))
    && (forall u :: u in objs && IsOpen(objs[u]) ==> u in uvhead)
  }

  /** Only strings and the main thread are ever fixed. */
  ghost predicate FixedOk(objs: Objs, mainthread: Ref) {
    forall r :: r in objs && objs[r].fixed ==> objs[r].kind == String || r == mainthread
  }

  // ----- the phases ----------------------------------------------------------------------------

  ghost predicate IdleOk(mark: Marks, cur: bool) {
    forall r :: r in mark ==> mark[r] == White(cur)
  }

  ghost predicate MarkingOk(objs: Objs, mark: Marks, cur: bool, gray: seq<Ref>, again: seq<Ref>, start: seq<Value>) {
    && (forall r :: r in mark ==> mark[r] != White(!cur))
    && TriColour(objs, mark, gray, again, {})
    && ValuesMarked(mark, start)
  }

  ghost predicate StringsSwept(mark: Marks, cur: bool, strt: seq<seq<Ref>>, n: nat) {
    forall i, r :: 0 <= i < n && i < |strt| && r in strt[i] && r in mark ==> mark[r] == White(cur)
  }

  /** A swept object is in the current white, and so are the open upvalues of a swept thread. */
  ghost predicate RootSwept(objs: Objs, mark: Marks, cur: bool, r: Ref) {
    && r in objs && r in mark && mark[r] == White(cur)
    && (forall u :: u in objs[r].open && u in mark ==> mark[u] == White(cur))
  }

  ghost predicate RootsSwept(objs: Objs, mark: Marks, cur: bool, rootgc: seq<Ref>, n: nat) {
    && n <= |rootgc|
    && forall i :: 0 <= i < n ==> RootSwept(objs, mark, cur, rootgc[i])
  }

  /** With the sweep over, the collector is back to a single white. */
  lemma SweptMeansIdle(objs: Objs, mark: Marks, cur: bool, rootgc: seq<Ref>, strt: seq<seq<Ref>>, hash: string -> nat)
    requires mark.Keys == objs.Keys && RootListOk(objs, rootgc, {}) && StringsOk(objs, strt, hash)
    requires OpenOk(objs) && Shaped(objs)
    requires RootsSwept(objs, mark, cur, rootgc, |rootgc|) && StringsSwept(mark, cur, strt, |strt|)
    ensures IdleOk(mark, cur)
  {
    forall r | r in mark
      ensures mark[r] == White(cur)
    {
      if objs[r].kind == String {
        assert r in strt[Bucket(hash, objs[r].text, |strt|)];
      } else if IsOpen(objs[r]) {
        var t := objs[r].place.thread;
        assert r in objs[t].open && objs[t].kind == Thread;
        assert t in rootgc;
        var i :| 0 <= i < |rootgc| && rootgc[i] == t;
        assert RootSwept(objs, mark, cur, rootgc[i]);
      } else {
        assert r in rootgc;
        var i :| 0 <= i < |rootgc| && rootgc[i] == r;
        assert RootSwept(objs, mark, cur, rootgc[i]);
      }
    }
  }

  // ----- freeing -------------------------------------------------------------------------------

  /** What sweeping a plain list (a string bucket, or the open upvalues of a thread) leaves of it. */
  function Survivors(objs: Objs, mark: Marks, cur: bool, list: seq<Ref>): (kept: seq<Ref>)
    requires forall r :: r in list ==> r in objs && r in mark
    ensures forall r :: r in kept <==> r in list && !Dies(objs, mark, cur, r)
  {
    if list == [] then []
    else if Dies(objs, mark, cur, list[0]) then Survivors(objs, mark, cur, list[1..])
    else [list[0]] + Survivors(objs, mark, cur, list[1..])
  }

  /** The sweep keeps the order of the list. */
  lemma {:induction false} SurvivorsEmbed(objs: Objs, mark: Marks, cur: bool, list: seq<Ref>) returns (at: seq<nat>)
    requires forall r :: r in list ==> r in objs && r in mark
    ensures |at| == |Survivors(objs, mark, cur, list)|
    ensures forall i :: 0 <= i < |at| ==> at[i] < |list| && list[at[i]] == Survivors(objs, mark, cur, list)[i]
    ensures forall i, j :: 0 <= i < j < |at| ==> at[i] < at[j]
  {
    hide Dies;
    at := [];
    if list != [] {
      var rest := SurvivorsEmbed(objs, mark, cur, list[1..]);
      var kept := Survivors(objs, mark, cur, list[1..]);
      at := EmbedsLater(list, kept, rest);
      if !Dies(objs, mark, cur, list[0]) {
        assert Survivors(objs, mark, cur, list) == [list[0]] + kept;
        at := EmbedsFirst(list, kept, at);
      }
    }
  }

  /** The elements of `kept` are found in `list` at the places `at`, in this order. */
  ghost predicate Embeds(list: seq<Ref>, kept: seq<Ref>, at: seq<nat>) {
    && |at| == |kept|
    && (forall i :: 0 <= i < |at| ==> at[i] < |list| && list[at[i]] == kept[i])
    && forall i, j :: 0 <= i < j < |at| ==> at[i] < at[j]
  }

  lemma EmbedsLater(list: seq<Ref>, kept: seq<Ref>, rest: seq<nat>) returns (at: seq<nat>)
    requires list != [] && Embeds(list[1..], kept, rest)
    ensures Embeds(list, kept, at) && forall i :: 0 <= i < |at| ==> at[i] > 0
  {
    at := seq(|rest|, i requires 0 <= i < |rest| => rest[i] + 1);
  }

  lemma EmbedsFirst(list: seq<Ref>, kept: seq<Ref>, rest: seq<nat>) returns (at: seq<nat>)
    requires list != [] && Embeds(list, kept, rest) && forall i :: 0 <= i < |rest| ==> rest[i] > 0
    ensures Embeds(list, [list[0]] + kept, at)
  {
    at := [0] + rest;
  }

  lemma {:induction false} SurvivorsConcat(objs: Objs, mark: Marks, cur: bool, a: seq<Ref>, b: seq<Ref>)
    requires forall i :: 0 <= i < |a| ==> a[i] in objs && a[i] in mark
    requires forall i :: 0 <= i < |b| ==> b[i] in objs && b[i] in mark
    ensures forall r :: r in a + b ==> r in objs && r in mark
    ensures Survivors(objs, mark, cur, a + b) == Survivors(objs, mark, cur, a) + Survivors(objs, mark, cur, b)
  {
    hide Survivors;
    if a == [] {
      assert a + b == b;
      NoSurvivors(objs, mark, cur);
    } else {
      assert (a + b)[0] == a[0] && (a + b)[1..] == a[1..] + b;
      forall r | r in a + b ensures r in objs && r in mark {}
      SurvivorsConcat(objs, mark, cur, a[1..], b);
      FirstSurvivor(objs, mark, cur, a);
      FirstSurvivor(objs, mark, cur, a + b);
    }
  }

  lemma NoSurvivors(objs: Objs, mark: Marks, cur: bool)
    ensures Survivors(objs, mark, cur, []) == []
  {
  }

  lemma FirstSurvivor(objs: Objs, mark: Marks, cur: bool, list: seq<Ref>)
    requires list != [] && forall r :: r in list ==> r in objs && r in mark
    ensures Survivors(objs, mark, cur, list) ==
      (if Dies(objs, mark, cur, list[0]) then [] else [list[0]]) + Survivors(objs, mark, cur, list[1..])
  {
  }

  function DeadOf(objs: Objs, mark: Marks, cur: bool, list: seq<Ref>): set<Ref> {
    set r | r in list && r in objs && r in mark && Dies(objs, mark, cur, r)
  }

  /** The marks once the objects of `list` have been swept: the dead ones gone, the others white. */
  function SweptMarks(objs: Objs, mark: Marks, cur: bool, list: seq<Ref>): Marks {
    map r | r in mark && r !in DeadOf(objs, mark, cur, list) :: if r in list then White(cur) else mark[r]
  }

  lemma SweepListStart(objs: Objs, mark: Marks, cur: bool, list: seq<Ref>)
    requires mark.Keys == objs.Keys
    ensures objs - DeadOf(objs, mark, cur, []) == objs && SweptMarks(objs, mark, cur, []) == mark
    ensures Survivors(objs, mark, cur, []) == []
  {
  }

  /** One object of a list is swept. */
  lemma SweepListStep(objs0: Objs, mark0: Marks, cur: bool, list: seq<Ref>, q: nat)
    requires mark0.Keys == objs0.Keys && NoDup(list) && q < |list|
    requires forall r :: r in list ==> r in objs0
    ensures forall r :: r in list[..q] || r in list[..q + 1] ==> r in list
    ensures var objs, mark := objs0 - DeadOf(objs0, mark0, cur, list[..q]), SweptMarks(objs0, mark0, cur, list[..q]);
      var objs1 := objs0 - DeadOf(objs0, mark0, cur, list[..q + 1]);
      var mark1 := SweptMarks(objs0, mark0, cur, list[..q + 1]);
      var kept, kept1 := Survivors(objs0, mark0, cur, list[..q]), Survivors(objs0, mark0, cur, list[..q + 1]);
      && list[q] in objs && list[q] in mark
      && (if Dies(objs, mark, cur, list[q]) then
            objs1 == objs - {list[q]} && mark1 == mark - {list[q]} && kept1 == kept
          else
            objs1 == objs && mark1 == mark[list[q] := White(cur)] && kept1 == kept + [list[q]])
  {
    var curr := list[q];
    assert list[..q + 1] == list[..q] + [curr];
    assert curr !in list[..q];
    SurvivorsConcat(objs0, mark0, cur, list[..q], [curr]);
    hide Survivors, NoDup;
    SweepListMaps(objs0, mark0, cur, list[..q], curr);
    SurvivorsOne(objs0, mark0, cur, curr);
  }

  lemma SurvivorsOne(objs: Objs, mark: Marks, cur: bool, r: Ref)
    requires r in objs && r in mark
    ensures Survivors(objs, mark, cur, [r]) == if Dies(objs, mark, cur, r) then [] else [r]
  {
  }

  lemma SweepListMaps(objs0: Objs, mark0: Marks, cur: bool, done: seq<Ref>, curr: Ref)
    requires mark0.Keys == objs0.Keys && curr in objs0 && curr !in done
    ensures var objs, mark := objs0 - DeadOf(objs0, mark0, cur, done), SweptMarks(objs0, mark0, cur, done);
      var objs1 := objs0 - DeadOf(objs0, mark0, cur, done + [curr]);
      var mark1 := SweptMarks(objs0, mark0, cur, done + [curr]);
      && curr in objs && curr in mark && (Dies(objs, mark, cur, curr) <==> Dies(objs0, mark0, cur, curr))
      && (if Dies(objs0, mark0, cur, curr) then
            objs1 == objs - {curr} && mark1 == mark - {curr}
          else
            objs1 == objs && mark1 == mark[curr := White(cur)])
  {
    var more := done + [curr];
    var dead, dead1 := DeadOf(objs0, mark0, cur, done), DeadOf(objs0, mark0, cur, more);
    if Dies(objs0, mark0, cur, curr) {
      assert dead1 == dead + {curr};
      assert SweptMarks(objs0, mark0, cur, more) == SweptMarks(objs0, mark0, cur, done) - {curr};
    } else {
      assert dead1 == dead;
      assert SweptMarks(objs0, mark0, cur, more) == SweptMarks(objs0, mark0, cur, done)[curr := White(cur)];
    }
  }

  function Unlink(s: seq<Ref>, r: Ref): seq<Ref> {
    if s == [] then [] else if s[0] == r then s[1..] else [s[0]] + Unlink(s[1..], r)
  }

  lemma {:induction false} UnlinkElements(s: seq<Ref>, r: Ref)
    requires NoDup(s)
    ensures NoDup(Unlink(s, r))
    ensures forall x :: x in Unlink(s, r) <==> x in s && x != r
  {
    if s != [] {
      assert NoDup(s[1..]);
      assert s == [s[0]] + s[1..];
      UnlinkElements(s[1..], r);
      if s[0] != r {
        assert s[0] !in s[1..];
      }
    }
  }

  lemma UnlinkFreed(objs: Objs, uvhead: seq<Ref>, r: Ref)
    requires UvheadOk(objs, uvhead) && r in objs
    ensures UvheadOk(objs - {r}, if IsOpen(objs[r]) then Unlink(uvhead, r) else uvhead)
  {
    UnlinkElements(uvhead, r);
  }

  // ----- what sweeping does to the graph ---------------------------------------------------------

  /** Sweeping frees only dead objects, whitens others, and leaves every object it keeps as it was,
    * except that upvalues may get closed: then they keep their value. */
  ghost predicate SweepEffect(objs0: Objs, mark0: Marks, objs1: Objs, mark1: Marks, cur: bool) {
    && mark0.Keys == objs0.Keys && mark1.Keys == objs1.Keys && objs1.Keys <= objs0.Keys
    && Shaped(objs0) && Shaped(objs1)
    && (forall r :: r in objs0 && r !in objs1 ==> Dies(objs0, mark0, cur, r))
    && (forall r :: r in objs1 ==> KeptObject(objs0, mark0, objs1, mark1, cur, r))
  }

  ghost predicate KeptObject(objs0: Objs, mark0: Marks, objs1: Objs, mark1: Marks, cur: bool, r: Ref)
    requires r in objs0 && r in mark0 && r in objs1 && r in mark1 && Shaped(objs0) && Shaped(objs1)
  {
    && (mark1[r] == mark0[r] || (mark1[r] == White(cur) && !Dies(objs0, mark0, cur, r)))
    && SameContents(objs0, objs1, r)
  }

  /** The object is the same to the program; an open upvalue may have been closed on its value. */
  ghost predicate SameContents(objs0: Objs, objs1: Objs, r: Ref)
    requires r in objs0 && r in objs1 && Shaped(objs0) && Shaped(objs1)
  {
    && objs1[r].kind == objs0[r].kind && objs1[r].fixed == objs0[r].fixed && objs1[r].text == objs0[r].text
    && (objs0[r].kind != Upval ==> objs1[r].slots == objs0[r].slots)
    && (objs0[r].kind == Upval ==> ValueOf(objs1, r) == ValueOf(objs0, r))
    && (objs0[r].place == objs1[r].place || objs1[r].place == Closed)
  }

  /** Open upvalues stay open while their thread is there. */
  ghost predicate OpenStays(objs0: Objs, objs1: Objs) {
    forall u :: u in objs0 && u in objs1 && objs1[u].place != objs0[u].place ==>
      objs0[u].place.Open? && objs1[u].place == Closed && objs0[u].place.thread !in objs1
  }

  lemma OpenStaysTrans(objs0: Objs, objs1: Objs, objs2: Objs)
    requires OpenStays(objs0, objs1) && OpenStays(objs1, objs2) && objs2.Keys <= objs1.Keys
    ensures OpenStays(objs0, objs2)
  {
  }

  lemma OpenStaysRefl(objs: Objs)
    ensures OpenStays(objs, objs)
  {
  }

  lemma OpenStaysWithout(objs: Objs, dead: set<Ref>)
    ensures OpenStays(objs, objs - dead)
  {
  }

  lemma FewerObjects(objs: Objs, dead: set<Ref>)
    ensures Count(objs - dead) <= Count(objs)
  {
    assert (objs - dead).Keys == objs.Keys - dead;
    assert |objs.Keys - dead| <= |objs.Keys|;
  }

  lemma OpenStaysSwept(objs: Objs, dead: set<Ref>, t: Ref, open: seq<Ref>)
    requires t in objs
    ensures OpenStays(objs, (objs - dead)[t := objs[t].(open := open)])
  {
  }

  lemma SweptKeys(objs0: Objs, mark0: Marks, objs1: Objs, mark1: Marks, cur: bool)
    requires SweepEffect(objs0, mark0, objs1, mark1, cur)
    ensures objs1.Keys <= objs0.Keys
  {
  }

  /** Open on the stack of `t`, at `level` or above. */
  predicate OpenAbove(o: Obj, t: Ref, level: nat) { IsOpen(o) && o.place.thread == t && o.place.index >= level }

  lemma IsAbove(o: Obj, t: Ref, level: nat)
    requires IsOpen(o) && o.place.thread == t && o.place.index >= level
    ensures OpenAbove(o, t, level)
  {
  }

  /** No upvalues but those of `t` at or above `level` have been closed or freed. */
  ghost predicate ClosedAbove(objs0: Objs, objs1: Objs, t: Ref, level: nat) {
    && (forall u :: u in objs0 && u !in objs1 ==> OpenAbove(objs0[u], t, level))
    && forall u :: u in objs1 ==>
      && u in objs0 && objs1[u].kind == objs0[u].kind
      && (objs1[u].place == objs0[u].place || (OpenAbove(objs0[u], t, level) && objs1[u].place == Closed))
  }

  lemma ClosedAboveTrans(objs0: Objs, objs1: Objs, objs2: Objs, t: Ref, level: nat)
    requires ClosedAbove(objs0, objs1, t, level) && ClosedAbove(objs1, objs2, t, level)
    ensures ClosedAbove(objs0, objs2, t, level)
  {
  }

  lemma ClosedAboveRefl(objs: Objs, t: Ref, level: nat)
    ensures ClosedAbove(objs, objs, t, level)
  {
  }

  /** Exactly the upvalues of `t` at or above `level` have been closed; only dead ones among them are gone. */
  ghost predicate ClosedFrom(objs0: Objs, objs1: Objs, t: Ref, level: nat) {
    && (forall u :: u in objs0 && u !in objs1 ==> OpenAbove(objs0[u], t, level))
    && forall u :: u in objs1 ==>
      && u in objs0 && objs1[u].kind == objs0[u].kind
      && objs1[u].place == if OpenAbove(objs0[u], t, level) then Closed else objs0[u].place
  }

  lemma ClosedExactly(objs0: Objs, objs1: Objs, t: Ref, level: nat)
    requires ClosedAbove(objs0, objs1, t, level)
    requires forall u :: u in objs1 && IsOpen(objs1[u]) && objs1[u].place.thread == t ==> objs1[u].place.index < level
    ensures ClosedFrom(objs0, objs1, t, level)
  {
  }

  lemma NothingCloses(objs: Objs, t: Ref)
    requires NothingOpenOn(objs, t)
    ensures ClosedFrom(objs, objs, t, 0)
  {
  }

  lemma ClosedNoneAbove(objs0: Objs, objs1: Objs, t: Ref, level: nat)
    requires ClosedFrom(objs0, objs1, t, level)
    ensures forall u :: u in objs1 && IsOpen(objs1[u]) && objs1[u].place.thread == t ==> objs1[u].place.index < level
  {
  }

  lemma ClosedToBottom(objs0: Objs, objs1: Objs, t: Ref)
    requires ClosedFrom(objs0, objs1, t, 0)
    ensures NothingOpenOn(objs1, t)
  {
  }

  lemma ClosedAndGone(objs0: Objs, objs1: Objs, t: Ref)
    requires ClosedFrom(objs0, objs1, t, 0)
    ensures OpenStays(objs0, objs1 - {t})
  {
  }

  lemma EdgeByValue(objs: Objs, r: Ref, b: Ref)
    requires Shaped(objs) && r in objs
    ensures Edge(objs, r, b) <==>
      Collectable(b) in (if objs[r].kind == Upval then [ValueOf(objs, r)] else objs[r].slots)
  {
  }

  lemma SameContentsEdges(objs0: Objs, objs1: Objs, r: Ref, b: Ref)
    requires Shaped(objs0) && Shaped(objs1) && r in objs0 && r in objs1 && SameContents(objs0, objs1, r)
    ensures Edge(objs0, r, b) <==> Edge(objs1, r, b)
  {
    hide Shaped, Edge;
    EdgeByValue(objs0, r, b);
    EdgeByValue(objs1, r, b);
  }

  lemma KeptEdges(objs0: Objs, mark0: Marks, objs1: Objs, mark1: Marks, cur: bool, r: Ref, b: Ref)
    requires SweepEffect(objs0, mark0, objs1, mark1, cur) && r in objs1
    ensures Edge(objs0, r, b) <==> Edge(objs1, r, b)
  {
    assert KeptObject(objs0, mark0, objs1, mark1, cur, r);
    hide Shaped, Edge, SameContents;
    SameContentsEdges(objs0, objs1, r, b);
  }

  lemma SweepEffectRefl(objs: Objs, mark: Marks, cur: bool)
    requires mark.Keys == objs.Keys && Shaped(objs)
    ensures SweepEffect(objs, mark, objs, mark, cur)
  {
  }

  lemma SweepEffectTrans(objs0: Objs, mark0: Marks, objs1: Objs, mark1: Marks, objs2: Objs, mark2: Marks, cur: bool)
    requires SweepEffect(objs0, mark0, objs1, mark1, cur) && SweepEffect(objs1, mark1, objs2, mark2, cur)
    ensures SweepEffect(objs0, mark0, objs2, mark2, cur)
  {
    hide Shaped, ValueOf;
    forall r | r in objs0 && r !in objs2
      ensures Dies(objs0, mark0, cur, r)
    {
      if r in objs1 {
        assert KeptObject(objs0, mark0, objs1, mark1, cur, r);
      }
    }
    forall r | r in objs2
      ensures KeptObject(objs0, mark0, objs2, mark2, cur, r)
    {
      assert KeptObject(objs0, mark0, objs1, mark1, cur, r);
      assert KeptObject(objs1, mark1, objs2, mark2, cur, r);
    }
  }

  /** Sweeping keeps the state safe: what can be used stays allocated and alive. */
  lemma SweepEffectSafe(objs0: Objs, mark0: Marks, objs1: Objs, mark1: Marks, cur: bool, roots: seq<Value>)
    requires SweepEffect(objs0, mark0, objs1, mark1, cur) && Safe(objs0, mark0, cur, roots)
    requires forall r :: r in objs0 && objs0[r].fixed && mark0[r] == White(!cur) ==>
      objs0[r].slots == [] && !IsOpen(objs0[r])
    ensures Safe(objs1, mark1, cur, roots)
  {
    hide Shaped, Edge;
    forall r | Alive(mark0, cur, r)
      ensures Alive(mark1, cur, r)
    {
      if r in objs1 {
        assert KeptObject(objs0, mark0, objs1, mark1, cur, r);
      }
    }
    forall a, b | a in objs1 && Alive(mark1, cur, a) && Edge(objs1, a, b)
      ensures Alive(mark1, cur, b)
    {
      KeptEdges(objs0, mark0, objs1, mark1, cur, a, b);
      assert KeptObject(objs0, mark0, objs1, mark1, cur, a);
      if !Alive(mark0, cur, a) {
        NoEdgeFromLeaf(objs0, a, b);
      }
    }
  }

  lemma NoEdgeFromLeaf(objs: Objs, a: Ref, b: Ref)
    requires a in objs && objs[a].slots == [] && !IsOpen(objs[a])
    ensures !Edge(objs, a, b)
  {
  }

  // ----- the graph and its lists -----------------------------------------------------------------

  /** Everything that does not depend on colours or phase. */
  ghost predicate GraphOk(objs: Objs, rootgc: seq<Ref>, strt: seq<seq<Ref>>, hash: string -> nat, uvhead: seq<Ref>,
                          mainthread: Ref, registry: Ref, running: Ref, except: set<Ref>)
  {
    && Shaped(objs) && RootListOk(objs, rootgc, except) && StringsOk(objs, strt, hash)
    && OpenOk(objs) && UvheadOk(objs, uvhead) && FixedOk(objs, mainthread)
    && mainthread in objs && objs[mainthread].kind == Thread
    && running in objs && objs[running].kind == Thread
    && registry in objs && objs[registry].kind == Table
  }

  /** A bucket of strings has been swept. */
  lemma BucketSwept(objs: Objs, mark: Marks, cur: bool, rootgc: seq<Ref>, strt: seq<seq<Ref>>, hash: string -> nat,
                    uvhead: seq<Ref>, mainthread: Ref, registry: Ref, running: Ref, i: nat)
    requires GraphOk(objs, rootgc, strt, hash, uvhead, mainthread, registry, running, {})
    requires i < |strt| && mark.Keys == objs.Keys
    ensures NoDup(strt[i])
    ensures forall r :: r in strt[i] ==> r in objs && r in mark && objs[r].kind == String
    ensures forall r :: r in objs && r in objs - DeadOf(objs, mark, cur, strt[i]) ==>
      (objs - DeadOf(objs, mark, cur, strt[i]))[r] == objs[r]
    ensures var objs1 := objs - DeadOf(objs, mark, cur, strt[i]);
      && GraphOk(objs1, rootgc, strt[i := Survivors(objs, mark, cur, strt[i])], hash, uvhead, mainthread, registry, running, {})
      && SweepEffect(objs, mark, objs1, SweptMarks(objs, mark, cur, strt[i]), cur)
  {
    var list := strt[i];
    BucketElements(objs, strt, hash, i);
    var dead := DeadOf(objs, mark, cur, list);
    hide Shaped, OpenOk, RootListOk, UvheadOk, FixedOk, StringsOk, SweptMarks, SweepEffect;
    StringsFreedShape(objs, dead, mainthread);
    StringsFreedLists(objs, rootgc, uvhead, dead);
    StringsFreedBuckets(objs, mark, cur, strt, hash, i);
    StringsFreedEffect(objs, mark, cur, list);
  }

  lemma BucketElements(objs: Objs, strt: seq<seq<Ref>>, hash: string -> nat, i: nat)
    requires StringsOk(objs, strt, hash) && i < |strt|
    ensures NoDup(strt[i])
    ensures forall r :: r in strt[i] ==> r in objs && objs[r].kind == String
  {
  }

  lemma StringsFreedLists(objs: Objs, rootgc: seq<Ref>, uvhead: seq<Ref>, dead: set<Ref>)
    requires RootListOk(objs, rootgc, {}) && UvheadOk(objs, uvhead)
    requires forall r :: r in dead && r in objs ==> objs[r].kind == String
    ensures RootListOk(objs - dead, rootgc, {}) && UvheadOk(objs - dead, uvhead)
  {
  }

  lemma StringsFreedBuckets(objs: Objs, mark: Marks, cur: bool, strt: seq<seq<Ref>>, hash: string -> nat, i: nat)
    requires StringsOk(objs, strt, hash) && i < |strt| && mark.Keys == objs.Keys
    ensures forall r :: r in strt[i] ==> r in objs && r in mark
    ensures StringsOk(objs - DeadOf(objs, mark, cur, strt[i]), strt[i := Survivors(objs, mark, cur, strt[i])], hash)
  {
    BucketElements(objs, strt, hash, i);
    var kept, dead := Survivors(objs, mark, cur, strt[i]), DeadOf(objs, mark, cur, strt[i]);
    var at := SurvivorsEmbed(objs, mark, cur, strt[i]);
    assert NoDup(kept);
    assert forall r :: r in kept <==> r in strt[i] && r !in dead;
    assert forall r :: r in dead ==> r in strt[i];
    hide Survivors, DeadOf, Dies;
    BucketReplaced(objs, strt, hash, i, kept, dead);
  }

  lemma BucketReplaced(objs: Objs, strt: seq<seq<Ref>>, hash: string -> nat, i: nat, kept: seq<Ref>, dead: set<Ref>)
    requires StringsOk(objs, strt, hash) && i < |strt| && NoDup(kept)
    requires forall r :: r in kept <==> r in strt[i] && r !in dead
    requires forall r :: r in dead ==> r in strt[i]
    ensures StringsOk(objs - dead, strt[i := kept], hash)
  {
    var objs1, strt1 := objs - dead, strt[i := kept];
    forall j | 0 <= j < |strt1| ensures NoDup(strt1[j]) {
      assert j != i ==> strt1[j] == strt[j] && NoDup(strt[j]);
    }
    forall j, r | 0 <= j < |strt1| && r in strt1[j]
      ensures r in objs1 && objs1[r].kind == String && Bucket(hash, objs1[r].text, |strt1|) == j
    {
      BucketMember(objs, strt, hash, i, dead, j, r);
    }
    forall r | r in objs1 && objs1[r].kind == String ensures r in strt1[Bucket(hash, objs1[r].text, |strt1|)] {
      var b := Bucket(hash, objs[r].text, |strt|);
      assert r in strt[b];
      assert if b == i then r in kept else strt1[b] == strt[b];
    }
  }

  /** What is left in a bucket is a string that belongs there, and not among the dead of another bucket. */
  lemma BucketMember(objs: Objs, strt: seq<seq<Ref>>, hash: string -> nat, i: nat, dead: set<Ref>, j: nat, r: Ref)
    requires StringsOk(objs, strt, hash) && i < |strt| && j < |strt| && r in strt[j] && (j == i ==> r !in dead)
    requires forall x :: x in dead ==> x in strt[i]
    ensures r in objs && r !in dead && objs[r].kind == String && Bucket(hash, objs[r].text, |strt|) == j
  {
    var b := Bucket(hash, objs[r].text, |strt|);
    assert b == j;
    assert r in strt[i] ==> b == i;
  }

  lemma StringsFreedEffect(objs: Objs, mark: Marks, cur: bool, list: seq<Ref>)
    requires mark.Keys == objs.Keys && Shaped(objs)
    requires forall r :: r in list ==> r in objs && objs[r].kind == String
    requires Shaped(objs - DeadOf(objs, mark, cur, list))
    ensures SweepEffect(objs, mark, objs - DeadOf(objs, mark, cur, list), SweptMarks(objs, mark, cur, list), cur)
  {
    var objs1, mark1 := objs - DeadOf(objs, mark, cur, list), SweptMarks(objs, mark, cur, list);
    forall r | r in objs1
      ensures KeptObject(objs, mark, objs1, mark1, cur, r)
    {
    }
  }

  lemma StringsFreedShape(objs: Objs, dead: set<Ref>, mainthread: Ref)
    requires Shaped(objs) && OpenOk(objs) && FixedOk(objs, mainthread)
    requires forall r :: r in dead && r in objs ==> objs[r].kind == String
    ensures Shaped(objs - dead) && OpenOk(objs - dead) && FixedOk(objs - dead, mainthread)
  {
    StringsFreedOpen(objs, dead);
    hide OpenOk;
    assert Shaped(objs - dead);
  }

  lemma StringsFreedOpen(objs: Objs, dead: set<Ref>)
    requires Shaped(objs) && OpenOk(objs) && forall r :: r in dead && r in objs ==> objs[r].kind == String
    ensures OpenOk(objs - dead)
  {
    forall t | t in objs - dead
      ensures OpenListOk(objs - dead, t)
    {
      assert OpenListOk(objs, t);
    }
  }

  // ----- open upvalues swept, freed and closed -----------------------------------------------------

  /** Thread `t` keeps only `kept` of its open upvalues; the rest are freed. */
  function WithOpen(objs: Objs, t: Ref, kept: seq<Ref>, freed: set<Ref>): Objs
    requires t in objs
  {
    (objs - freed)[t := objs[t].(open := kept)]
  }

  /** `kept` is what is left of a list when the members of `freed` are taken out, in order. */
  ghost predicate Sublist(list: seq<Ref>, kept: seq<Ref>, freed: set<Ref>, at: seq<nat>) {
    && |at| == |kept|
    && (forall i :: 0 <= i < |at| ==> at[i] < |list| && list[at[i]] == kept[i])
    && (forall i, j :: 0 <= i < j < |at| ==> at[i] < at[j])
    && (forall r :: r in list ==> (r in kept <==> r !in freed))
    && (forall r :: r in freed ==> r in list)
  }

  lemma OpenFreedGraph(objs: Objs, rootgc: seq<Ref>, strt: seq<seq<Ref>>, hash: string -> nat, uvhead: seq<Ref>,
                       mainthread: Ref, registry: Ref, running: Ref, except: set<Ref>,
                       t: Ref, kept: seq<Ref>, freed: set<Ref>, at: seq<nat>, uvhead1: seq<Ref>)
    requires GraphOk(objs, rootgc, strt, hash, uvhead, mainthread, registry, running, except)
    requires t in objs && objs[t].kind == Thread && Sublist(objs[t].open, kept, freed, at)
    requires UvheadOk(objs - freed, uvhead1)
    ensures GraphOk(WithOpen(objs, t, kept, freed), rootgc, strt, hash, uvhead1, mainthread, registry, running, except)
  {
    hide Shaped, RootListOk, StringsOk, OpenOk, UvheadOk, FixedOk, Sublist;
    FreedAreOpen(objs, t, kept, freed, at);
    OpenFreedShape(objs, t, kept, freed, mainthread);
    OpenFreedLists(objs, rootgc, strt, hash, uvhead1, except, t, kept, freed);
    OpenFreedOpen(objs, t, kept, freed, at);
  }

  lemma OpenElements(objs: Objs, t: Ref)
    requires OpenOk(objs) && t in objs
    ensures forall u :: u in objs[t].open ==> u in objs && IsOpen(objs[u]) && objs[u].place.thread == t
    ensures NoDup(objs[t].open)
  {
    assert OpenListOk(objs, t);
    forall i, j | 0 <= i < j < |objs[t].open|
      ensures objs[t].open[i] != objs[t].open[j]
    {
      assert objs[objs[t].open[i]].place.index > objs[objs[t].open[j]].place.index;
    }
  }

  lemma FreedAreOpen(objs: Objs, t: Ref, kept: seq<Ref>, freed: set<Ref>, at: seq<nat>)
    requires OpenOk(objs) && t in objs && objs[t].kind == Thread && Sublist(objs[t].open, kept, freed, at)
    ensures forall r :: r in freed ==> r in objs && IsOpen(objs[r])
    ensures t !in freed
  {
    OpenElements(objs, t);
  }

  lemma OpenFreedShape(objs: Objs, t: Ref, kept: seq<Ref>, freed: set<Ref>, mainthread: Ref)
    requires Shaped(objs) && FixedOk(objs, mainthread) && t in objs && objs[t].kind == Thread && t !in freed
    requires forall r :: r in freed ==> r in objs && IsOpen(objs[r])
    ensures Shaped(WithOpen(objs, t, kept, freed)) && FixedOk(WithOpen(objs, t, kept, freed), mainthread)
  {
  }

  lemma OpenFreedLists(objs: Objs, rootgc: seq<Ref>, strt: seq<seq<Ref>>, hash: string -> nat, uvhead1: seq<Ref>,
                       except: set<Ref>, t: Ref, kept: seq<Ref>, freed: set<Ref>)
    requires t in objs && objs[t].kind == Thread && t !in freed
    requires forall r :: r in freed ==> r in objs && IsOpen(objs[r])
    requires RootListOk(objs, rootgc, except) && StringsOk(objs, strt, hash) && UvheadOk(objs - freed, uvhead1)
    ensures RootListOk(WithOpen(objs, t, kept, freed), rootgc, except)
    ensures StringsOk(WithOpen(objs, t, kept, freed), strt, hash)
    ensures UvheadOk(WithOpen(objs, t, kept, freed), uvhead1)
  {
    hide StringsOk, RootListOk, UvheadOk;
    StringsSame(objs, WithOpen(objs, t, kept, freed), strt, hash);
    OpenFreedRootList(objs, rootgc, except, t, kept, freed);
    OpenFreedUvhead(objs, uvhead1, t, kept, freed);
  }

  lemma OpenFreedRootList(objs: Objs, rootgc: seq<Ref>, except: set<Ref>, t: Ref, kept: seq<Ref>, freed: set<Ref>)
    requires t in objs && objs[t].kind == Thread && t !in freed && RootListOk(objs, rootgc, except)
    requires forall r :: r in freed ==> r in objs && IsOpen(objs[r])
    ensures RootListOk(WithOpen(objs, t, kept, freed), rootgc, except)
  {
  }

  lemma OpenFreedUvhead(objs: Objs, uvhead1: seq<Ref>, t: Ref, kept: seq<Ref>, freed: set<Ref>)
    requires t in objs && objs[t].kind == Thread && t !in freed && UvheadOk(objs - freed, uvhead1)
    ensures UvheadOk(WithOpen(objs, t, kept, freed), uvhead1)
  {
  }

  lemma OpenFreedOpen(objs: Objs, t: Ref, kept: seq<Ref>, freed: set<Ref>, at: seq<nat>)
    requires Shaped(objs) && OpenOk(objs)
    requires t in objs && objs[t].kind == Thread && Sublist(objs[t].open, kept, freed, at)
    ensures OpenOk(WithOpen(objs, t, kept, freed))
  {
    var objs1 := WithOpen(objs, t, kept, freed);
    FreedAreOpen(objs, t, kept, freed, at);
    forall x | x in objs1
      ensures OpenListOk(objs1, x)
    {
      OpenFreedOne(objs, t, kept, freed, at, x);
    }
    forall u | u in objs1 && IsOpen(objs1[u])
      ensures objs1[u].place.thread in objs1 && u in objs1[objs1[u].place.thread].open
    {
      assert u in objs && IsOpen(objs[u]) && objs1[u] == objs[u];
      assert PointsInto(objs, u);
    }
  }

  lemma OpenFreedOne(objs: Objs, t: Ref, kept: seq<Ref>, freed: set<Ref>, at: seq<nat>, x: Ref)
    requires OpenOk(objs) && t in objs && objs[t].kind == Thread && Sublist(objs[t].open, kept, freed, at)
    requires x in WithOpen(objs, t, kept, freed)
    ensures OpenListOk(WithOpen(objs, t, kept, freed), x)
  {
    FreedAreOpen(objs, t, kept, freed, at);
    OpenElements(objs, t);
    hide OpenOk, IsOpen;
    if x == t {
      OpenListFreed(objs, t, kept, freed, at);
    } else {
      OpenElements(objs, x);
      OpenListKept(objs, t, kept, freed, x);
    }
  }

  lemma OpenListKept(objs: Objs, t: Ref, kept: seq<Ref>, freed: set<Ref>, x: Ref)
    requires x in objs && OpenListOk(objs, x) && x !in freed && x != t
    requires forall u :: u in freed ==> u in objs && IsOpen(objs[u]) && objs[u].place.thread == t
    requires t in objs && t !in freed
    ensures OpenListOk(WithOpen(objs, t, kept, freed), x)
  {
  }

  lemma OpenListFreed(objs: Objs, t: Ref, kept: seq<Ref>, freed: set<Ref>, at: seq<nat>)
    requires t in objs && OpenListOk(objs, t) && Sublist(objs[t].open, kept, freed, at) && t !in freed
    requires NoDup(objs[t].open)
    ensures OpenListOk(WithOpen(objs, t, kept, freed), t)
  {
    forall u | u in kept
      ensures u in objs[t].open && u !in freed
    {
      var i :| 0 <= i < |kept| && kept[i] == u;
      assert objs[t].open[at[i]] == u;
    }
  }

  lemma OpenFreedEffect(objs: Objs, mark: Marks, cur: bool, t: Ref, kept: seq<Ref>, freed: set<Ref>, mark1: Marks)
    requires mark.Keys == objs.Keys && Shaped(objs)
    requires t in objs && objs[t].kind == Thread && t !in freed
    requires forall r :: r in freed ==> r in objs && Dies(objs, mark, cur, r)
    requires Shaped(WithOpen(objs, t, kept, freed))
    requires mark1.Keys == mark.Keys - freed
    requires forall r :: r in mark1 ==> mark1[r] == mark[r] || (mark1[r] == White(cur) && !Dies(objs, mark, cur, r))
    ensures SweepEffect(objs, mark, WithOpen(objs, t, kept, freed), mark1, cur)
  {
    var objs1 := WithOpen(objs, t, kept, freed);
    assert objs1.Keys == objs.Keys - freed;
    forall r | r in objs1
      ensures KeptObject(objs, mark, objs1, mark1, cur, r)
    {
      SameValue(objs, objs1, r);
    }
  }

  /** An upvalue reads the same value in two graphs that agree on it and on the slots of threads. */
  lemma SameValue(objs: Objs, objs1: Objs, r: Ref)
    requires Shaped(objs) && Shaped(objs1) && r in objs && r in objs1
    requires objs1[r].slots == objs[r].slots && objs1[r].place == objs[r].place && objs1[r].kind == objs[r].kind
    requires IsOpen(objs[r]) ==> objs1[objs[r].place.thread].slots == objs[objs[r].place.thread].slots
    ensures objs[r].kind == Upval ==> ValueOf(objs1, r) == ValueOf(objs, r)
  {
  }

  /** The upvalue at the head of thread `t`'s list gets its own cell, holding the value it read. */
  function WithClosed(objs: Objs, t: Ref): Objs
    requires Shaped(objs) && t in objs && objs[t].open != []
    requires objs[t].open[0] in objs && objs[objs[t].open[0]].kind == Upval
  {
    var uv := objs[t].open[0];
    objs[t := objs[t].(open := objs[t].open[1..])][uv := objs[uv].(slots := [ValueOf(objs, uv)], place := Closed)]
  }

  lemma ClosedGraph(objs: Objs, rootgc: seq<Ref>, strt: seq<seq<Ref>>, hash: string -> nat, uvhead: seq<Ref>,
                    mainthread: Ref, registry: Ref, running: Ref, except: set<Ref>, t: Ref)
    requires GraphOk(objs, rootgc, strt, hash, uvhead, mainthread, registry, running, except)
    requires t in objs && objs[t].kind == Thread && objs[t].open != []
    requires forall r :: r in except && r in objs ==> !IsOpen(objs[r])
    ensures objs[t].open[0] in objs && IsOpen(objs[objs[t].open[0]])
    ensures GraphOk(WithClosed(objs, t), [objs[t].open[0]] + rootgc, strt, hash, Unlink(uvhead, objs[t].open[0]),
                    mainthread, registry, running, except)
  {
    hide Shaped, RootListOk, StringsOk, OpenOk, UvheadOk, FixedOk, Unlink;
    OpenElements(objs, t);
    ClosedShape(objs, t, mainthread);
    ClosedRootList(objs, rootgc, except, t);
    ClosedStrings(objs, strt, hash, t);
    ClosedUvhead(objs, uvhead, t);
    ClosedOpen(objs, t);
  }

  lemma ClosedShape(objs: Objs, t: Ref, mainthread: Ref)
    requires Shaped(objs) && FixedOk(objs, mainthread) && t in objs && objs[t].kind == Thread && objs[t].open != []
    requires objs[t].open[0] in objs && IsOpen(objs[objs[t].open[0]])
    ensures Shaped(WithClosed(objs, t)) && FixedOk(WithClosed(objs, t), mainthread)
  {
  }

  lemma ClosedRootList(objs: Objs, rootgc: seq<Ref>, except: set<Ref>, t: Ref)
    requires Shaped(objs) && t in objs && objs[t].kind == Thread && objs[t].open != []
    requires objs[t].open[0] in objs && IsOpen(objs[objs[t].open[0]])
    requires forall r :: r in except && r in objs ==> !IsOpen(objs[r])
    requires RootListOk(objs, rootgc, except)
    ensures RootListOk(WithClosed(objs, t), [objs[t].open[0]] + rootgc, except)
  {
    hide Shaped;
    assert objs[t].open[0] !in rootgc;
  }

  lemma ClosedStrings(objs: Objs, strt: seq<seq<Ref>>, hash: string -> nat, t: Ref)
    requires Shaped(objs) && t in objs && objs[t].kind == Thread && objs[t].open != []
    requires objs[t].open[0] in objs && IsOpen(objs[objs[t].open[0]])
    requires StringsOk(objs, strt, hash)
    ensures StringsOk(WithClosed(objs, t), strt, hash)
  {
    hide Shaped, StringsOk, ValueOf;
    StringsSame(objs, WithClosed(objs, t), strt, hash);
  }

  lemma ClosedUvhead(objs: Objs, uvhead: seq<Ref>, t: Ref)
    requires Shaped(objs) && t in objs && objs[t].kind == Thread && objs[t].open != []
    requires objs[t].open[0] in objs && IsOpen(objs[objs[t].open[0]])
    requires UvheadOk(objs, uvhead)
    ensures UvheadOk(WithClosed(objs, t), Unlink(uvhead, objs[t].open[0]))
  {
    hide Shaped, Unlink;
    UnlinkElements(uvhead, objs[t].open[0]);
  }

  lemma ClosedOpen(objs: Objs, t: Ref)
    requires Shaped(objs) && OpenOk(objs) && t in objs && objs[t].kind == Thread && objs[t].open != []
    requires objs[t].open[0] in objs && IsOpen(objs[objs[t].open[0]])
    ensures OpenOk(WithClosed(objs, t))
  {
    hide Shaped, ValueOf, OpenListOk;
    ClosedKeys(objs, t);
    var objs1 := WithClosed(objs, t);
    hide WithClosed;
    forall x | x in objs1
      ensures OpenListOk(objs1, x)
    {
      ClosedOpenOne(objs, t, x);
    }
    forall u | u in objs1 && IsOpen(objs1[u])
      ensures objs1[u].place.thread in objs1 && u in objs1[objs1[u].place.thread].open
    {
      ClosedOpenBack(objs, t, u);
    }
  }

  lemma ClosedKeys(objs: Objs, t: Ref)
    requires Shaped(objs) && t in objs && objs[t].open != []
    requires objs[t].open[0] in objs && objs[objs[t].open[0]].kind == Upval
    ensures WithClosed(objs, t).Keys == objs.Keys
  {
    hide Shaped, ValueOf;
  }

  lemma ClosedOpenBack(objs: Objs, t: Ref, u: Ref)
    requires Shaped(objs) && OpenOk(objs) && t in objs && objs[t].kind == Thread && objs[t].open != []
    requires objs[t].open[0] in objs && IsOpen(objs[objs[t].open[0]])
    requires u in WithClosed(objs, t) && IsOpen(WithClosed(objs, t)[u])
    ensures var objs1 := WithClosed(objs, t);
      objs1[u].place.thread in objs1 && u in objs1[objs1[u].place.thread].open
  {
    hide Shaped, ValueOf, OpenListOk;
    assert u in objs && IsOpen(objs[u]) && u != objs[t].open[0];
    assert objs[t].open == [objs[t].open[0]] + objs[t].open[1..];
  }

  lemma ClosedOpenOne(objs: Objs, t: Ref, x: Ref)
    requires Shaped(objs) && OpenOk(objs) && t in objs && objs[t].kind == Thread && objs[t].open != []
    requires objs[t].open[0] in objs && IsOpen(objs[objs[t].open[0]]) && x in objs
    ensures OpenListOk(WithClosed(objs, t), x)
  {
    var uv := objs[t].open[0];
    if x == uv {
      assert objs[uv].open == [];
    } else {
      OtherPlaces(objs, t, x);
      hide Shaped, ValueOf, WithClosed, OpenListOk;
      OpenElements(objs, t);
      assert OpenListOk(objs, x);
      ClosedOpenIndexes(objs, t, x, uv, WithClosed(objs, t));
    }
  }

  /** Closing an upvalue moves no other. */
  lemma OtherPlaces(objs: Objs, t: Ref, x: Ref)
    requires Shaped(objs) && t in objs && objs[t].kind == Thread && objs[t].open != []
    requires objs[t].open[0] in objs && IsOpen(objs[objs[t].open[0]]) && x in objs && x != objs[t].open[0]
    ensures var uv, objs1 := objs[t].open[0], WithClosed(objs, t);
      && x in objs1 && objs1[x].open == (if x == t then objs[t].open[1..] else objs[x].open)
      && forall r :: r in objs && r != uv ==> r in objs1 && objs1[r].place == objs[r].place && objs1[r].kind == objs[r].kind
  {
    hide Shaped, ValueOf;
  }

  lemma ClosedOpenIndexes(objs: Objs, t: Ref, x: Ref, uv: Ref, objs1: Objs)
    requires x in objs && OpenListOk(objs, x) && x in objs1
    requires t in objs && objs[t].open != [] && objs[t].open[0] == uv
    requires objs1[x].open == if x == t then objs[t].open[1..] else objs[x].open
    requires uv in objs && IsOpen(objs[uv]) && objs[uv].place.thread == t && NoDup(objs[t].open)
    requires forall r :: r in objs && r != uv ==>
      r in objs1 && objs1[r].place == objs[r].place && objs1[r].kind == objs[r].kind
    ensures OpenListOk(objs1, x)
  {
    var d := if x == t then 1 else 0;
    var open, open1 := objs[x].open, objs1[x].open;
    assert forall i :: 0 <= i < |open1| ==> open1[i] == open[i + d];
    forall u | u in open1
      ensures u in objs1 && IsOpen(objs1[u]) && objs1[u].place.thread == x && u != uv
    {
      var i :| 0 <= i < |open1| && open1[i] == u;
      assert open[i + d] in open;
    }
    forall i, j | 0 <= i < j < |open1|
      ensures open1[i] in objs1 && open1[j] in objs1 && objs1[open1[i]].place.Open? && objs1[open1[j]].place.Open?
      ensures objs1[open1[i]].place.index > objs1[open1[j]].place.index
    {
      assert open1[i] in open1 && open1[j] in open1;
      assert open[i + d] in open && open[j + d] in open;
    }
  }

  lemma ClosedEffect(objs: Objs, mark: Marks, cur: bool, t: Ref)
    requires mark.Keys == objs.Keys && Shaped(objs)
    requires t in objs && objs[t].kind == Thread && objs[t].open != []
    requires objs[t].open[0] in objs && IsOpen(objs[objs[t].open[0]])
    requires Shaped(WithClosed(objs, t))
    ensures SweepEffect(objs, mark, WithClosed(objs, t), mark, cur)
  {
    var uv := objs[t].open[0];
    var objs1 := WithClosed(objs, t);
    assert objs1.Keys == objs.Keys;
    forall r | r in objs1
      ensures KeptObject(objs, mark, objs1, mark, cur, r)
    {
      if r != uv {
        assert objs1[r].slots == objs[r].slots && objs1[r].place == objs[r].place;
        SameValue(objs, objs1, r);
      }
    }
  }

  // ----- colours and phases of the whole state -----------------------------------------------------

  datatype Phase = Pause | Propagate | SweepString | Sweep | Finalize

  /** What each phase promises about colours. */
  ghost predicate PhaseOk(phase: Phase, objs: Objs, mark: Marks, cur: bool, gray: seq<Ref>, again: seq<Ref>,
                          strt: seq<seq<Ref>>, sweepstrgc: nat, rootgc: seq<Ref>, sweepgc: nat, start: seq<Value>)
  {
    match phase
    case Pause => IdleOk(mark, cur)
    case Finalize => IdleOk(mark, cur)
    case Propagate => MarkingOk(objs, mark, cur, gray, again, start)
    case SweepString =>
      ColoursFit(objs, mark) && sweepstrgc < |strt| && StringsSwept(mark, cur, strt, sweepstrgc) && sweepgc == 0
    case Sweep =>
      ColoursFit(objs, mark) && StringsSwept(mark, cur, strt, |strt|) && RootsSwept(objs, mark, cur, rootgc, sweepgc)
  }

  /** While nothing is in the other white, every allocated object is alive and no reference dangles. */
  lemma AllAlive(objs: Objs, mark: Marks, cur: bool, roots: seq<Value>)
    requires Safe(objs, mark, cur, roots)
    requires forall r :: r in mark ==> mark[r] != White(!cur)
    ensures NoDangling(objs) && Inside(objs, roots, objs.Keys) && EdgeClosed(objs, objs.Keys)
  {
    forall v | v in roots && v.Collectable?
      ensures v.ref in objs
    {
      assert Alive(mark, cur, v.ref);
    }
    forall a, b | a in objs && Edge(objs, a, b)
      ensures b in objs
    {
      assert Alive(mark, cur, a);
      assert Alive(mark, cur, b);
    }
  }

  /** After the flip of the whites, what is marked is alive and the rest is dead. */
  lemma FlipIsSafe(objs: Objs, mark: Marks, cur: bool, roots: seq<Value>)
    requires mark.Keys == objs.Keys && MarkedClosed(objs, mark) && ValuesMarked(mark, roots)
    requires forall r :: IsWhite(mark, r) ==> mark[r] == White(cur)
    ensures Safe(objs, mark, !cur, roots)
    ensures forall r :: r in mark ==> (Alive(mark, !cur, r) <==> Marked(mark, r))
  {
    forall a, b | a in objs && Alive(mark, !cur, a) && Edge(objs, a, b)
      ensures Alive(mark, !cur, b)
    {
      assert ChildrenMarked(objs, mark, a);
    }
  }

  lemma SafeKeys(objs: Objs, mark: Marks, cur: bool, roots: seq<Value>)
    requires Safe(objs, mark, cur, roots)
    ensures mark.Keys == objs.Keys
  {
  }

  /** A fixed object in the other white is a string: it refers to nothing. */
  lemma FixedLeaves(objs: Objs, mark: Marks, cur: bool, mainthread: Ref, roots: seq<Value>)
    requires Safe(objs, mark, cur, roots) && FixedOk(objs, mainthread) && Shaped(objs)
    requires Collectable(mainthread) in roots
    ensures mark.Keys == objs.Keys
    ensures forall r :: r in objs && objs[r].fixed && mark[r] == White(!cur) ==> objs[r].slots == [] && !IsOpen(objs[r])
  {
    assert Alive(mark, cur, mainthread);
  }

  lemma SweepEffectColours(objs0: Objs, mark0: Marks, objs1: Objs, mark1: Marks, cur: bool)
    requires SweepEffect(objs0, mark0, objs1, mark1, cur) && ColoursFit(objs0, mark0)
    requires forall r :: r in objs0 && r in objs1 && r in mark1 ==> objs1[r].place == objs0[r].place || mark1[r].White?
    ensures ColoursFit(objs1, mark1)
  {
    hide Shaped;
    forall r | r in objs1
      ensures ColourFits(objs1[r], mark1[r])
    {
      assert KeptObject(objs0, mark0, objs1, mark1, cur, r);
      assert ColourFits(objs0[r], mark0[r]);
    }
  }

  lemma StringsSweptMore(objs: Objs, mark: Marks, cur: bool, strt: seq<seq<Ref>>, hash: string -> nat, n: nat)
    requires StringsOk(objs, strt, hash) && mark.Keys == objs.Keys && n < |strt|
    requires StringsSwept(mark, cur, strt, n)
    requires forall r :: r in strt[n] ==> r in objs && r in mark
    ensures StringsSwept(SweptMarks(objs, mark, cur, strt[n]), cur, strt[n := Survivors(objs, mark, cur, strt[n])], n + 1)
  {
  }

  lemma NothingSwept(objs: Objs, mark: Marks, cur: bool, rootgc: seq<Ref>)
    ensures RootsSwept(objs, mark, cur, rootgc, 0)
  {
  }

  /** A string bucket swept, in terms of the whole state. */
  lemma StringStepKeeps(objs: Objs, mark: Marks, cur: bool, rootgc: seq<Ref>, strt: seq<seq<Ref>>, hash: string -> nat,
                        uvhead: seq<Ref>, mainthread: Ref, registry: Ref, running: Ref, roots: seq<Value>, n: nat,
                        uvhead1: seq<Ref>)
    requires GraphOk(objs, rootgc, strt, hash, uvhead, mainthread, registry, running, {})
    requires Safe(objs, mark, cur, roots) && Collectable(mainthread) in roots
    requires n < |strt| && ColoursFit(objs, mark) && StringsSwept(mark, cur, strt, n)
    requires UvheadOk(objs - DeadOf(objs, mark, cur, strt[n]), uvhead1)
    ensures mark.Keys == objs.Keys && (forall r :: r in strt[n] ==> r in objs && r in mark)
    ensures var objs1 := objs - DeadOf(objs, mark, cur, strt[n]);
      var mark1 := SweptMarks(objs, mark, cur, strt[n]);
      var strt1 := strt[n := Survivors(objs, mark, cur, strt[n])];
      && GraphOk(objs1, rootgc, strt1, hash, uvhead1, mainthread, registry, running, {})
      && Safe(objs1, mark1, cur, roots) && SweepEffect(objs, mark, objs1, mark1, cur)
      && ColoursFit(objs1, mark1) && StringsSwept(mark1, cur, strt1, n + 1)
      && RootsSwept(objs1, mark1, cur, rootgc, 0)
      && OpenStays(objs, objs1) && Count(objs1) <= Count(objs)
  {
    hide Safe, SweepEffect, ColoursFit, StringsSwept, RootsSwept, Survivors, DeadOf, SweptMarks, Shaped, RootListOk,
      StringsOk, OpenOk, UvheadOk, FixedOk;
    FixedLeaves(objs, mark, cur, mainthread, roots);
    BucketSwept(objs, mark, cur, rootgc, strt, hash, uvhead, mainthread, registry, running, n);
    var objs1 := objs - DeadOf(objs, mark, cur, strt[n]);
    var mark1 := SweptMarks(objs, mark, cur, strt[n]);
    SweepEffectSafe(objs, mark, objs1, mark1, cur, roots);
    SweepEffectColours(objs, mark, objs1, mark1, cur);
    StringsSweptMore(objs, mark, cur, strt, hash, n);
    NothingSwept(objs1, mark1, cur, rootgc);
    OpenStaysWithout(objs, DeadOf(objs, mark, cur, strt[n]));
    FewerObjects(objs, DeadOf(objs, mark, cur, strt[n]));
  }

  lemma GraphUvhead(objs: Objs, rootgc: seq<Ref>, strt: seq<seq<Ref>>, hash: string -> nat, uvhead: seq<Ref>,
                    mainthread: Ref, registry: Ref, running: Ref, except: set<Ref>)
    requires GraphOk(objs, rootgc, strt, hash, uvhead, mainthread, registry, running, except)
    ensures UvheadOk(objs, uvhead) && Shaped(objs)
  {
  }

  // ----- closing an upvalue, in every phase --------------------------------------------------------

  /** Where the sweep stands after an object is put in front of `rootgc`: a sweep that has not
    * started will still meet it. */
  function Shifted(sweepgc: nat): nat { if sweepgc == 0 then 0 else sweepgc + 1 }

  /** The colour `luaC_linkupval` leaves outside the propagate phase. */
  function LinkedMarks(mark: Marks, cur: bool, uv: Ref): Marks
    requires uv in mark
  {
    if mark[uv] == Gray then mark[uv := White(cur)] else mark
  }

  lemma RootsSweptParts(objs: Objs, mark: Marks, cur: bool, rootgc: seq<Ref>, n: nat)
    requires RootsSwept(objs, mark, cur, rootgc, n)
    ensures n <= |rootgc| && forall i :: 0 <= i < n ==> RootSwept(objs, mark, cur, rootgc[i])
  {
  }

  lemma ClosedRootsSwept(objs: Objs, mark: Marks, cur: bool, rootgc: seq<Ref>, sweepgc: nat, t: Ref)
    requires Shaped(objs) && OpenOk(objs) && mark.Keys == objs.Keys && RootsSwept(objs, mark, cur, rootgc, sweepgc)
    requires t in objs && objs[t].kind == Thread && objs[t].open != []
    requires objs[t].open[0] in objs && IsOpen(objs[objs[t].open[0]]) && ColoursFit(objs, mark)
    requires Alive(mark, cur, objs[t].open[0])
    ensures RootsSwept(WithClosed(objs, t), LinkedMarks(mark, cur, objs[t].open[0]), cur,
                       [objs[t].open[0]] + rootgc, Shifted(sweepgc))
  {
    var uv := objs[t].open[0];
    var objs1, mark1 := WithClosed(objs, t), LinkedMarks(mark, cur, uv);
    hide Shaped, ColoursFit, OpenOk, WithClosed, LinkedMarks, RootSwept, RootsSwept, IsOpen, Shifted, Alive;
    ClosedSweptHead(objs, mark, cur, t);
    forall r | RootSwept(objs, mark, cur, r)
      ensures RootSwept(objs1, mark1, cur, r)
    {
      ClosedSweptOther(objs, mark, cur, t, r);
    }
    RootsSweptShift(objs, mark, objs1, mark1, cur, uv, rootgc, sweepgc);
  }

  /** An object that counts as swept is put in front of the list. */
  lemma RootsSweptShift(objs: Objs, mark: Marks, objs1: Objs, mark1: Marks, cur: bool, uv: Ref, rootgc: seq<Ref>,
                        sweepgc: nat)
    requires RootsSwept(objs, mark, cur, rootgc, sweepgc) && RootSwept(objs1, mark1, cur, uv)
    requires forall r :: RootSwept(objs, mark, cur, r) ==> RootSwept(objs1, mark1, cur, r)
    ensures RootsSwept(objs1, mark1, cur, [uv] + rootgc, Shifted(sweepgc))
  {
    hide RootSwept;
    RootsSweptParts(objs, mark, cur, rootgc, sweepgc);
  }

  lemma ClosedSweptHead(objs: Objs, mark: Marks, cur: bool, t: Ref)
    requires Shaped(objs) && mark.Keys == objs.Keys && ColoursFit(objs, mark)
    requires t in objs && objs[t].kind == Thread && objs[t].open != []
    requires objs[t].open[0] in objs && IsOpen(objs[objs[t].open[0]]) && Alive(mark, cur, objs[t].open[0])
    ensures RootSwept(WithClosed(objs, t), LinkedMarks(mark, cur, objs[t].open[0]), cur, objs[t].open[0])
  {
    var uv := objs[t].open[0];
    assert ColourFits(objs[uv], mark[uv]);
    assert objs[uv].open == [];
  }

  lemma ClosedSweptOther(objs: Objs, mark: Marks, cur: bool, t: Ref, r: Ref)
    requires Shaped(objs) && t in objs && objs[t].kind == Thread && objs[t].open != []
    requires objs[t].open[0] in objs && IsOpen(objs[objs[t].open[0]]) && objs[t].open[0] in mark
    requires RootSwept(objs, mark, cur, r)
    ensures RootSwept(WithClosed(objs, t), LinkedMarks(mark, cur, objs[t].open[0]), cur, r)
  {
    assert objs[objs[t].open[0]].open == [];
    hide Shaped, ValueOf;
    var rest := objs[t].open[1..];
    forall u | u in rest
      ensures u in objs[t].open
    {
    }
  }

  /** Closing a live upvalue outside the propagate phase keeps every promise. */
  lemma CloseKeeps(phase: Phase, objs: Objs, mark: Marks, cur: bool, gray: seq<Ref>, again: seq<Ref>,
                   strt: seq<seq<Ref>>, hash: string -> nat, sweepstrgc: nat, rootgc: seq<Ref>, sweepgc: nat,
                   start: seq<Value>, roots: seq<Value>, t: Ref)
    requires PhaseOk(phase, objs, mark, cur, gray, again, strt, sweepstrgc, rootgc, sweepgc, start)
    requires phase != Propagate
    requires Shaped(objs) && OpenOk(objs) && Safe(objs, mark, cur, roots) && StringsOk(objs, strt, hash)
    requires t in objs && objs[t].kind == Thread && objs[t].open != []
    requires objs[t].open[0] in objs && IsOpen(objs[objs[t].open[0]]) && Alive(mark, cur, objs[t].open[0])
    requires Shaped(WithClosed(objs, t))
    ensures mark.Keys == objs.Keys
    ensures var uv, objs1 := objs[t].open[0], WithClosed(objs, t);
      var mark1 := LinkedMarks(mark, cur, uv);
      && PhaseOk(phase, objs1, mark1, cur, gray, again, strt, sweepstrgc, [uv] + rootgc, Shifted(sweepgc), start)
      && Safe(objs1, mark1, cur, roots) && SweepEffect(objs, mark, objs1, mark1, cur)
  {
    var uv, objs1 := objs[t].open[0], WithClosed(objs, t);
    var mark1 := LinkedMarks(mark, cur, uv);
    hide Shaped, OpenOk, RootsSwept, ColoursFit, StringsSwept, IdleOk, SweepEffect;
    SafeKeys(objs, mark, cur, roots);
    ClosedEffect(objs, mark, cur, t);
    CloseEffectMarks(objs, mark, cur, t, uv);
    CloseSafe(objs, mark, cur, roots, t);
    if phase == SweepString || phase == Sweep {
      CloseColours(objs, mark, cur, t);
      CloseStringsSwept(objs, mark, cur, strt, hash, if phase == Sweep then |strt| else sweepstrgc, uv);
    }
    if phase == Sweep {
      ClosedRootsSwept(objs, mark, cur, rootgc, sweepgc, t);
    }
    CloseIdle(mark, cur, uv);
  }

  lemma CloseIdle(mark: Marks, cur: bool, uv: Ref)
    requires uv in mark
    ensures IdleOk(mark, cur) ==> IdleOk(LinkedMarks(mark, cur, uv), cur)
  {
  }

  lemma CloseStringsSwept(objs: Objs, mark: Marks, cur: bool, strt: seq<seq<Ref>>, hash: string -> nat, n: nat, uv: Ref)
    requires StringsSwept(mark, cur, strt, n) && uv in mark
    ensures StringsSwept(LinkedMarks(mark, cur, uv), cur, strt, n)
  {
  }

  lemma CloseColours(objs: Objs, mark: Marks, cur: bool, t: Ref)
    requires Shaped(objs) && ColoursFit(objs, mark) && mark.Keys == objs.Keys
    requires t in objs && objs[t].kind == Thread && objs[t].open != []
    requires objs[t].open[0] in objs && IsOpen(objs[objs[t].open[0]])
    ensures ColoursFit(WithClosed(objs, t), LinkedMarks(mark, cur, objs[t].open[0]))
  {
    hide Shaped;
    var uv, objs1 := objs[t].open[0], WithClosed(objs, t);
    var mark1 := LinkedMarks(mark, cur, uv);
    forall r | r in objs1
      ensures ColourFits(objs1[r], mark1[r])
    {
      assert ColourFits(objs[r], mark[r]);
    }
  }

  lemma CloseEffectMarks(objs: Objs, mark: Marks, cur: bool, t: Ref, uv: Ref)
    requires Shaped(objs) && t in objs && objs[t].open != [] && objs[t].open[0] == uv
    requires uv in objs && uv in mark && objs[uv].kind == Upval
    requires SweepEffect(objs, mark, WithClosed(objs, t), mark, cur)
    ensures SweepEffect(objs, mark, WithClosed(objs, t), LinkedMarks(mark, cur, uv), cur)
  {
    hide Shaped, SameContents;
    var objs1, mark1 := WithClosed(objs, t), LinkedMarks(mark, cur, uv);
    forall r | r in objs1
      ensures KeptObject(objs, mark, objs1, mark1, cur, r)
    {
      assert KeptObject(objs, mark, objs1, mark, cur, r);
    }
  }

  lemma CloseSafe(objs: Objs, mark: Marks, cur: bool, roots: seq<Value>, t: Ref)
    requires Shaped(objs) && Safe(objs, mark, cur, roots)
    requires t in objs && objs[t].open != [] && objs[t].open[0] in objs && objs[objs[t].open[0]].kind == Upval
    requires SweepEffect(objs, mark, WithClosed(objs, t), mark, cur)
    ensures Safe(WithClosed(objs, t), LinkedMarks(mark, cur, objs[t].open[0]), cur, roots)
  {
    hide Shaped, SweepEffect, Edge;
    var objs1, mark1 := WithClosed(objs, t), LinkedMarks(mark, cur, objs[t].open[0]);
    assert objs1.Keys == objs.Keys;
    assert forall r :: Alive(mark, cur, r) <==> Alive(mark1, cur, r);
    forall a, b | a in objs1 && Alive(mark1, cur, a) && Edge(objs1, a, b)
      ensures Alive(mark1, cur, b)
    {
      KeptEdges(objs, mark, objs1, mark, cur, a, b);
    }
  }

  // ----- closing an upvalue while marking ----------------------------------------------------------

  lemma SameChildren(objs: Objs, objs1: Objs, mark: Marks, r: Ref)
    requires r in objs && r in objs1 && (forall b :: Edge(objs, r, b) <==> Edge(objs1, r, b))
    ensures ChildrenMarked(objs, mark, r) <==> ChildrenMarked(objs1, mark, r)
  {
  }

  /** The graph after closing has the same edges, so only the closed upvalue's colour is in question. */
  lemma ClosePropagate(objs: Objs, mark: Marks, cur: bool, gray: seq<Ref>, again: seq<Ref>, t: Ref)
    requires Shaped(objs) && TriColour(objs, mark, gray, again, {})
    requires t in objs && objs[t].kind == Thread && objs[t].open != []
    requires objs[t].open[0] in objs && IsOpen(objs[objs[t].open[0]])
    requires SweepEffect(objs, mark, WithClosed(objs, t), mark, cur)
    ensures TriColour(WithClosed(objs, t), mark, gray, again, {objs[t].open[0]})
    ensures objs[t].open[0] in mark && objs[t].open[0] !in gray && objs[t].open[0] !in again
    ensures mark[objs[t].open[0]] != Black
    ensures mark[objs[t].open[0]].White? ==> TriColour(WithClosed(objs, t), mark, gray, again, {})
  {
    hide Shaped, SweepEffect, Edge;
    var uv, objs1 := objs[t].open[0], WithClosed(objs, t);
    assert Painted(objs, mark, gray, again, uv);
    assert objs1.Keys == objs.Keys;
    forall r | r in objs1 && r != uv
      ensures Painted(objs1, mark, gray, again, r)
    {
      assert Painted(objs, mark, gray, again, r);
      forall b ensures Edge(objs, r, b) <==> Edge(objs1, r, b) {
        KeptEdges(objs, mark, objs1, mark, cur, r, b);
      }
      SameChildren(objs, objs1, mark, r);
    }
  }

  lemma RepaintBusy(objs: Objs, mark: Marks, gray: seq<Ref>, again: seq<Ref>, o: Ref, c: Colour)
    requires TriColour(objs, mark, gray, again, {o}) && o in mark && o !in gray && o !in again && !c.White?
    ensures TriColour(objs, mark[o := c], gray, again, {o})
  {
    forall r | r in objs && r != o
      ensures Painted(objs, mark[o := c], gray, again, r)
    {
      assert Painted(objs, mark, gray, again, r);
    }
  }

  /** A black object whose references have all been marked is no longer being worked on. */
  lemma BlackDone(objs: Objs, mark: Marks, gray: seq<Ref>, again: seq<Ref>, o: Ref)
    requires TriColour(objs, mark, gray, again, {o}) && o in objs && mark[o] == Black
    requires objs[o].kind != String && objs[o].kind != Thread && !IsOpen(objs[o])
    requires ChildrenMarked(objs, mark, o)
    ensures TriColour(objs, mark, gray, again, {})
  {
    forall r | r in objs
      ensures Painted(objs, mark, gray, again, r)
    {
    }
  }

  /** Colours only move from white to marked; what stays white keeps its bit. */
  ghost predicate Advances(m0: Marks, m1: Marks) {
    && m1.Keys == m0.Keys
    && (forall r :: Marked(m0, r) ==> Marked(m1, r))
    && (forall r :: IsWhite(m0, r) && IsWhite(m1, r) ==> m1[r] == m0[r])
  }

  lemma ProgressAdvances(objs: Objs, m0: Marks, m1: Marks)
    requires Progress(objs, m0, m1)
    ensures Advances(m0, m1)
  {
  }

  lemma MarkingStaysSafe(objs: Objs, m0: Marks, m1: Marks, cur: bool, roots: seq<Value>, start: seq<Value>)
    requires Safe(objs, m0, cur, roots) && (forall r :: r in m0 ==> m0[r] != White(!cur))
    requires Advances(m0, m1)
    ensures Safe(objs, m1, cur, roots) && (forall r :: r in m1 ==> m1[r] != White(!cur))
    ensures ValuesMarked(m0, start) ==> ValuesMarked(m1, start)
  {
    forall r | r in m1
      ensures m1[r] != White(!cur)
    {
      if IsWhite(m1, r) && !IsWhite(m0, r) {
        assert Marked(m0, r);
      }
    }
    assert forall r :: Alive(m0, cur, r) <==> Alive(m1, cur, r);
  }

  lemma AllEdgesInside(objs: Objs)
    requires NoDangling(objs)
    ensures EdgeClosed(objs, objs.Keys)
  {
  }

  lemma UpvalEdge(objs: Objs, uv: Ref)
    requires Shaped(objs) && uv in objs && objs[uv].kind == Upval && objs[uv].place == Closed
    ensures |objs[uv].slots| == 1
    ensures forall b :: Edge(objs, uv, b) <==> objs[uv].slots[0] == Collectable(b)
  {
  }

  lemma NoDanglingValue(objs: Objs, uv: Ref)
    requires NoDangling(objs) && uv in objs && |objs[uv].slots| == 1
    requires forall b :: Edge(objs, uv, b) <==> objs[uv].slots[0] == Collectable(b)
    ensures objs[uv].slots[0].Collectable? ==> objs[uv].slots[0].ref in objs
  {
    if objs[uv].slots[0].Collectable? {
      assert Edge(objs, uv, objs[uv].slots[0].ref);
    }
  }

  lemma BlackenedAdvances(objs: Objs, m0: Marks, m1: Marks, uv: Ref)
    requires uv in m0 && m0[uv] == Gray && Progress(objs, m0[uv := Black], m1)
    ensures Advances(m0, m1)
  {
    var m := m0[uv := Black];
    assert forall r :: Marked(m0, r) <==> Marked(m, r);
    assert forall r :: IsWhite(m0, r) <==> IsWhite(m, r);
  }

  // ----- freeing a dead upvalue --------------------------------------------------------------------

  /** Graphs with the same contents as far as the program can tell: only dead objects are gone. */
  ghost predicate KeepsContents(objs0: Objs, mark0: Marks, objs1: Objs, cur: bool) {
    && Shaped(objs0) && Shaped(objs1) && objs0.Keys == mark0.Keys && objs1.Keys <= objs0.Keys
    && (forall r :: r in objs0 && r !in objs1 ==> Dies(objs0, mark0, cur, r))
    && (forall r :: r in objs1 ==> SameContents(objs0, objs1, r))
  }

  lemma SweepKeepsContents(objs0: Objs, mark0: Marks, objs1: Objs, mark1: Marks, cur: bool)
    requires SweepEffect(objs0, mark0, objs1, mark1, cur)
    ensures KeepsContents(objs0, mark0, objs1, cur)
  {
    hide Shaped, SameContents;
    forall r | r in objs1
      ensures SameContents(objs0, objs1, r)
    {
      assert KeptObject(objs0, mark0, objs1, mark1, cur, r);
    }
  }

  /** The dead upvalue at the head of a thread's list is freed, by `luaF_close`. */
  lemma FreeHeadKeeps(phase: Phase, objs: Objs, mark: Marks, cur: bool, gray: seq<Ref>, again: seq<Ref>,
                      strt: seq<seq<Ref>>, hash: string -> nat, sweepstrgc: nat, rootgc: seq<Ref>, sweepgc: nat,
                      uvhead: seq<Ref>, mainthread: Ref, registry: Ref, running: Ref, except: set<Ref>,
                      start: seq<Value>, roots: seq<Value>, t: Ref)
    requires GraphOk(objs, rootgc, strt, hash, uvhead, mainthread, registry, running, except)
    requires Safe(objs, mark, cur, roots) && Collectable(mainthread) in roots
    requires PhaseOk(phase, objs, mark, cur, gray, again, strt, sweepstrgc, rootgc, sweepgc, start)
    requires t in objs && objs[t].kind == Thread && objs[t].open != []
    requires objs[t].open[0] in mark && mark[objs[t].open[0]] == White(!cur)
    requires forall r :: r in except && r in objs ==> !IsOpen(objs[r])
    ensures var uv := objs[t].open[0];
      var objs1, mark1 := WithOpen(objs, t, objs[t].open[1..], {uv}), mark - {uv};
      && GraphOk(objs1, rootgc, strt, hash, Unlink(uvhead, uv), mainthread, registry, running, except)
      && Safe(objs1, mark1, cur, roots) && SweepEffect(objs, mark, objs1, mark1, cur)
      && PhaseOk(phase, objs1, mark1, cur, gray, again, strt, sweepstrgc, rootgc, sweepgc, start)
      && TakenOff(objs, mark, objs1, cur, t)
      && (forall r :: r in except && r in objs1 ==> !IsOpen(objs1[r]))
  {
    hide GraphOk, Shaped, OpenOk, Unlink, Safe, SweepEffect, ColoursFit, RootsSwept, StringsSwept, MarkingOk, IdleOk,
      KeepsContents;
    var uv := objs[t].open[0];
    DeadMeansSweeping(phase, objs, mark, cur, gray, again, strt, sweepstrgc, rootgc, sweepgc, start, uv);
    FreeHeadGraph(objs, mark, cur, rootgc, strt, hash, uvhead, mainthread, registry, running, except, roots, t);
    FreeHeadEffect(objs, mark, cur, mainthread, roots, t);
    FreedSwept(objs, mark, cur, strt, if phase == Sweep then |strt| else sweepstrgc, rootgc, sweepgc, t, uv);
    SweepKeepsContents(objs, mark, WithOpen(objs, t, objs[t].open[1..], {uv}), mark - {uv}, cur);
    FreedFewer(objs, t, uv);
  }

  lemma FreeHeadGraph(objs: Objs, mark: Marks, cur: bool, rootgc: seq<Ref>, strt: seq<seq<Ref>>, hash: string -> nat,
                      uvhead: seq<Ref>, mainthread: Ref, registry: Ref, running: Ref, except: set<Ref>,
                      roots: seq<Value>, t: Ref)
    requires GraphOk(objs, rootgc, strt, hash, uvhead, mainthread, registry, running, except)
    requires Safe(objs, mark, cur, roots) && Collectable(mainthread) in roots
    requires t in objs && objs[t].kind == Thread && objs[t].open != []
    ensures var uv := objs[t].open[0];
      var objs1 := WithOpen(objs, t, objs[t].open[1..], {uv});
      && GraphOk(objs1, rootgc, strt, hash, Unlink(uvhead, uv), mainthread, registry, running, except)
      && Shaped(objs) && Shaped(objs1) && FixedOk(objs, mainthread) && uv in objs && IsOpen(objs[uv]) && !objs[uv].fixed
      && t != uv
  {
    var uv := objs[t].open[0];
    hide Shaped, RootListOk, StringsOk, OpenOk, UvheadOk, Unlink, Safe, Sublist, FixedOk, WithOpen;
    OpenElements(objs, t);
    UnlinkFreed(objs, uvhead, uv);
    var at := TailSublist(objs[t].open);
    OpenFreedGraph(objs, rootgc, strt, hash, uvhead, mainthread, registry, running, except, t,
                   objs[t].open[1..], {uv}, at, Unlink(uvhead, uv));
    NotFixed(objs, mainthread, uv);
  }

  lemma FreeHeadEffect(objs: Objs, mark: Marks, cur: bool, mainthread: Ref, roots: seq<Value>, t: Ref)
    requires Safe(objs, mark, cur, roots) && Collectable(mainthread) in roots
    requires t in objs && objs[t].kind == Thread && objs[t].open != [] && FixedOk(objs, mainthread)
    requires Shaped(objs) && Shaped(WithOpen(objs, t, objs[t].open[1..], {objs[t].open[0]}))
    requires objs[t].open[0] in mark && mark[objs[t].open[0]] == White(!cur) && t != objs[t].open[0]
    requires objs[t].open[0] in objs && IsOpen(objs[objs[t].open[0]]) && !objs[objs[t].open[0]].fixed
    ensures var uv := objs[t].open[0];
      var objs1, mark1 := WithOpen(objs, t, objs[t].open[1..], {uv}), mark - {uv};
      && Safe(objs1, mark1, cur, roots) && SweepEffect(objs, mark, objs1, mark1, cur)
      && (ColoursFit(objs, mark) ==> ColoursFit(objs1, mark1))
  {
    hide Shaped, Safe, SweepEffect, ColoursFit, FixedOk;
    var uv := objs[t].open[0];
    var objs1, mark1 := WithOpen(objs, t, objs[t].open[1..], {uv}), mark - {uv};
    SafeKeys(objs, mark, cur, roots);
    FixedLeaves(objs, mark, cur, mainthread, roots);
    OpenFreedEffect(objs, mark, cur, t, objs[t].open[1..], {uv}, mark1);
    SweepEffectSafe(objs, mark, objs1, mark1, cur, roots);
    if ColoursFit(objs, mark) {
      SweepEffectColours(objs, mark, objs1, mark1, cur);
    }
  }

  lemma NotFixed(objs: Objs, mainthread: Ref, uv: Ref)
    requires FixedOk(objs, mainthread) && uv in objs && IsOpen(objs[uv])
    requires mainthread in objs && objs[mainthread].kind == Thread
    ensures !objs[uv].fixed
  {
  }

  lemma DeadMeansSweeping(phase: Phase, objs: Objs, mark: Marks, cur: bool, gray: seq<Ref>, again: seq<Ref>,
                          strt: seq<seq<Ref>>, sweepstrgc: nat, rootgc: seq<Ref>, sweepgc: nat, start: seq<Value>,
                          r: Ref)
    requires PhaseOk(phase, objs, mark, cur, gray, again, strt, sweepstrgc, rootgc, sweepgc, start)
    requires r in mark && mark[r] == White(!cur)
    ensures phase == SweepString || phase == Sweep
  {
  }

  lemma TailSublist(list: seq<Ref>) returns (at: seq<nat>)
    requires list != [] && NoDup(list)
    ensures Sublist(list, list[1..], {list[0]}, at)
  {
    at := seq(|list| - 1, i => i + 1);
    TailElements(list);
  }

  lemma TailElements(list: seq<Ref>)
    requires list != [] && NoDup(list)
    ensures forall r :: r in list ==> (r in list[1..] <==> r != list[0])
  {
    var rest := list[1..];
    assert forall i :: 0 <= i < |rest| ==> rest[i] == list[i + 1];
    forall r | r in list
      ensures r in rest <==> r != list[0]
    {
      var i :| 0 <= i < |list| && list[i] == r;
      if i > 0 {
        assert rest[i - 1] == r;
      }
    }
  }

  lemma FreedSwept(objs: Objs, mark: Marks, cur: bool, strt: seq<seq<Ref>>, n: nat, rootgc: seq<Ref>, sweepgc: nat,
                   t: Ref, uv: Ref)
    requires t in objs && objs[t].open != [] && objs[t].open[0] == uv && uv in mark && mark[uv] == White(!cur)
    ensures StringsSwept(mark, cur, strt, n) ==> StringsSwept(mark - {uv}, cur, strt, n)
    ensures RootsSwept(objs, mark, cur, rootgc, sweepgc) ==>
      RootsSwept(WithOpen(objs, t, objs[t].open[1..], {uv}), mark - {uv}, cur, rootgc, sweepgc)
  {
    if RootsSwept(objs, mark, cur, rootgc, sweepgc) {
      forall i | 0 <= i < sweepgc
        ensures RootSwept(WithOpen(objs, t, objs[t].open[1..], {uv}), mark - {uv}, cur, rootgc[i])
      {
        assert RootSwept(objs, mark, cur, rootgc[i]);
      }
    }
  }

  lemma HeadIsOpen(objs: Objs, rootgc: seq<Ref>, strt: seq<seq<Ref>>, hash: string -> nat, uvhead: seq<Ref>,
                   mainthread: Ref, registry: Ref, running: Ref, except: set<Ref>, mark: Marks, cur: bool,
                   roots: seq<Value>,
                   t: Ref)
    requires GraphOk(objs, rootgc, strt, hash, uvhead, mainthread, registry, running, except)
    requires Safe(objs, mark, cur, roots) && t in objs && objs[t].kind == Thread && objs[t].open != []
    ensures objs[t].open[0] in objs && IsOpen(objs[objs[t].open[0]]) && objs[t].open[0] in mark && objs[t].open[0] != t
    ensures Shaped(objs) && OpenOk(objs) && StringsOk(objs, strt, hash) && mark.Keys == objs.Keys
  {
    OpenElements(objs, t);
  }

  /** While marking, a just closed upvalue is the only object whose colour is in question. */
  ghost predicate MarkingReady(objs: Objs, mark: Marks, cur: bool, gray: seq<Ref>, again: seq<Ref>, uv: Ref,
                               start: seq<Value>, roots: seq<Value>)
  {
    && TriColour(objs, mark, gray, again, {uv}) && uv !in gray && uv !in again
    && (uv in mark && mark[uv].White? ==> TriColour(objs, mark, gray, again, {}))
    && NoDangling(objs) && Safe(objs, mark, cur, roots) && ValuesMarked(mark, start)
    && (forall r :: r in mark ==> mark[r] != White(!cur))
  }

  lemma MarkingReadyParts(objs: Objs, mark: Marks, cur: bool, gray: seq<Ref>, again: seq<Ref>, uv: Ref,
                          start: seq<Value>, roots: seq<Value>)
    requires MarkingReady(objs, mark, cur, gray, again, uv, start, roots)
    ensures TriColour(objs, mark, gray, again, {uv}) && NoDangling(objs) && uv !in gray && uv !in again
    ensures uv in mark && mark[uv].White? ==> TriColour(objs, mark, gray, again, {})
  {
  }

  lemma CloseMarkingStart(objs: Objs, mark: Marks, cur: bool, gray: seq<Ref>, again: seq<Ref>, strt: seq<seq<Ref>>,
                          sweepstrgc: nat, rootgc: seq<Ref>, sweepgc: nat, start: seq<Value>, roots: seq<Value>, t: Ref)
    requires PhaseOk(Propagate, objs, mark, cur, gray, again, strt, sweepstrgc, rootgc, sweepgc, start)
    requires Safe(objs, mark, cur, roots) && Shaped(objs)
    requires t in objs && objs[t].kind == Thread && objs[t].open != []
    requires objs[t].open[0] in objs && IsOpen(objs[objs[t].open[0]])
    requires SweepEffect(objs, mark, WithClosed(objs, t), mark, cur)
    ensures MarkingReady(WithClosed(objs, t), mark, cur, gray, again, objs[t].open[0], start, roots)
  {
    hide Shaped, SweepEffect, TriColour, ValuesMarked;
    ClosePropagate(objs, mark, cur, gray, again, t);
    var objs1 := WithClosed(objs, t);
    assert objs1.Keys == objs.Keys;
    SweepSameMarksSafe(objs, objs1, mark, cur, roots);
    AllAlive(objs1, mark, cur, roots);
  }

  /** What taking the head off a thread's list of open upvalues does to the graph. */
  ghost predicate TakenOff(objs0: Objs, mark0: Marks, objs1: Objs, cur: bool, t: Ref) {
    && KeepsContents(objs0, mark0, objs1, cur)
    && t in objs0 && t in objs1 && objs0[t].open != []
    && objs1[t] == objs0[t].(open := objs0[t].open[1..])
    && Count(objs1) <= Count(objs0)
    && (forall u :: u in objs1 && u != objs0[t].open[0] ==> objs1[u].place == objs0[u].place)
    && (objs0[t].open[0] in objs1 ==> objs1[objs0[t].open[0]].place == Closed)
    && (forall u :: u in objs0 && u !in objs1 ==> u == objs0[t].open[0])
  }

  /** All that is needed to close the head of thread `t`'s list, and what comes of it. */
  lemma CloseReady(phase: Phase, objs: Objs, mark: Marks, cur: bool, gray: seq<Ref>, again: seq<Ref>,
                   strt: seq<seq<Ref>>, hash: string -> nat, sweepstrgc: nat, rootgc: seq<Ref>, sweepgc: nat,
                   uvhead: seq<Ref>, mainthread: Ref, registry: Ref, running: Ref, except: set<Ref>,
                   start: seq<Value>, roots: seq<Value>, t: Ref)
    requires GraphOk(objs, rootgc, strt, hash, uvhead, mainthread, registry, running, except)
    requires forall r :: r in except && r in objs ==> !IsOpen(objs[r])
    requires Safe(objs, mark, cur, roots)
    requires PhaseOk(phase, objs, mark, cur, gray, again, strt, sweepstrgc, rootgc, sweepgc, start)
    requires t in objs && objs[t].kind == Thread && objs[t].open != []
    requires objs[t].open[0] in mark && mark[objs[t].open[0]] != White(!cur)
    ensures Shaped(objs) && objs[t].open[0] in objs && objs[objs[t].open[0]].kind == Upval
    ensures mark[objs[t].open[0]] != Black
    ensures var uv, objs1 := objs[t].open[0], WithClosed(objs, t);
      && Shaped(objs1) && uv in objs1 && objs1[uv].kind == Upval && objs1[uv].place == Closed
      && GraphOk(objs1, [uv] + rootgc, strt, hash, Unlink(uvhead, uv), mainthread, registry, running, except)
      && (forall r :: r in except && r in objs1 ==> !IsOpen(objs1[r]))
      && TakenOff(objs, mark, objs1, cur, t)
      && (if phase == Propagate then
            MarkingReady(objs1, mark, cur, gray, again, uv, start, roots)
          else
            var mark1 := LinkedMarks(mark, cur, uv);
            && PhaseOk(phase, objs1, mark1, cur, gray, again, strt, sweepstrgc, [uv] + rootgc, Shifted(sweepgc), start)
            && Safe(objs1, mark1, cur, roots) && SweepEffect(objs, mark, objs1, mark1, cur))
  {
    hide GraphOk, Safe, PhaseOk, SweepEffect, KeepsContents, Shaped, OpenOk, StringsOk, Unlink, LinkedMarks,
      MarkingReady, TakenOff, WithClosed;
    HeadIsOpen(objs, rootgc, strt, hash, uvhead, mainthread, registry, running, except, mark, cur, roots, t);
    var uv := objs[t].open[0];
    ClosedGraph(objs, rootgc, strt, hash, uvhead, mainthread, registry, running, except, t);
    GraphUvhead(WithClosed(objs, t), [uv] + rootgc, strt, hash, Unlink(uvhead, uv), mainthread, registry, running,
                except);
    ClosedEffect(objs, mark, cur, t);
    SweepKeepsContents(objs, mark, WithClosed(objs, t), mark, cur);
    ClosedSame(objs, t);
    ClosedTakenOff(objs, mark, cur, t);
    NotBlack(phase, objs, mark, cur, gray, again, strt, sweepstrgc, rootgc, sweepgc, start, uv);
    if phase == Propagate {
      CloseMarkingStart(objs, mark, cur, gray, again, strt, sweepstrgc, rootgc, sweepgc, start, roots, t);
    } else {
      CloseKeeps(phase, objs, mark, cur, gray, again, strt, hash, sweepstrgc, rootgc, sweepgc, start, roots, t);
    }
  }

  lemma ClosedTakenOff(objs: Objs, mark: Marks, cur: bool, t: Ref)
    requires Shaped(objs) && t in objs && objs[t].kind == Thread && objs[t].open != []
    requires objs[t].open[0] in objs && IsOpen(objs[objs[t].open[0]])
    requires KeepsContents(objs, mark, WithClosed(objs, t), cur)
    ensures TakenOff(objs, mark, WithClosed(objs, t), cur, t)
    ensures forall r :: r in WithClosed(objs, t) && IsOpen(WithClosed(objs, t)[r]) ==> r in objs && IsOpen(objs[r])
  {
    hide KeepsContents, Shaped, ValueOf;
    ClosedSame(objs, t);
    ClosedKeys(objs, t);
  }

  lemma SweepSameMarksSafe(objs: Objs, objs1: Objs, mark: Marks, cur: bool, roots: seq<Value>)
    requires SweepEffect(objs, mark, objs1, mark, cur) && Safe(objs, mark, cur, roots) && objs1.Keys == objs.Keys
    ensures Safe(objs1, mark, cur, roots)
  {
    hide Shaped, Edge, SweepEffect;
    forall a, b | a in objs1 && Alive(mark, cur, a) && Edge(objs1, a, b)
      ensures Alive(mark, cur, b)
    {
      KeptEdges(objs, mark, objs1, mark, cur, a, b);
    }
  }

  lemma CloseMarkingEnd(objs: Objs, mark: Marks, mark1: Marks, cur: bool, gray: seq<Ref>, again: seq<Ref>,
                        strt: seq<seq<Ref>>, sweepstrgc: nat, rootgc: seq<Ref>, sweepgc: nat,
                        uv: Ref, gray0: seq<Ref>, start: seq<Value>, roots: seq<Value>)
    requires MarkingReady(objs, mark, cur, gray0, again, uv, start, roots)
    requires TriColour(objs, mark1, gray, again, {}) && Advances(mark, mark1)
    ensures PhaseOk(Propagate, objs, mark1, cur, gray, again, strt, sweepstrgc, rootgc, sweepgc, start)
    ensures Safe(objs, mark1, cur, roots)
  {
    hide TriColour, Safe, ValuesMarked, Advances;
    MarkingStaysSafe(objs, mark, mark1, cur, roots, start);
  }

  lemma FreedFewer(objs: Objs, t: Ref, uv: Ref)
    requires t in objs && objs[t].open != [] && uv in objs && uv != t
    ensures Count(WithOpen(objs, t, objs[t].open[1..], {uv})) <= Count(objs)
  {
    assert WithOpen(objs, t, objs[t].open[1..], {uv}).Keys == objs.Keys - {uv};
  }

  lemma ClosedSame(objs: Objs, t: Ref)
    requires Shaped(objs) && t in objs && objs[t].kind == Thread && objs[t].open != []
    requires objs[t].open[0] in objs && IsOpen(objs[objs[t].open[0]])
    ensures t in WithClosed(objs, t) && WithClosed(objs, t)[t] == objs[t].(open := objs[t].open[1..])
    ensures objs[t].open[0] in WithClosed(objs, t)
    ensures WithClosed(objs, t)[objs[t].open[0]].kind == Upval && WithClosed(objs, t)[objs[t].open[0]].place == Closed
    ensures Count(WithClosed(objs, t)) == Count(objs)
  {
    assert WithClosed(objs, t).Keys == objs.Keys;
  }

  /** Open upvalues are never black. */
  lemma NotBlack(phase: Phase, objs: Objs, mark: Marks, cur: bool, gray: seq<Ref>, again: seq<Ref>,
                 strt: seq<seq<Ref>>, sweepstrgc: nat, rootgc: seq<Ref>, sweepgc: nat, start: seq<Value>, uv: Ref)
    requires PhaseOk(phase, objs, mark, cur, gray, again, strt, sweepstrgc, rootgc, sweepgc, start)
    requires uv in objs && uv in mark && IsOpen(objs[uv])
    ensures mark[uv] != Black
  {
    if phase == Propagate {
      assert Painted(objs, mark, gray, again, uv);
    } else if phase == SweepString || phase == Sweep {
      assert ColourFits(objs[uv], mark[uv]);
    }
  }

  lemma KeepsContentsRefl(objs: Objs, mark: Marks, cur: bool)
    requires Shaped(objs) && objs.Keys == mark.Keys
    ensures KeepsContents(objs, mark, objs, cur)
  {
  }

  /** No object is dead after a step that was not dead before. */
  ghost predicate NoNewDead(objs0: Objs, mark0: Marks, objs1: Objs, mark1: Marks, cur: bool) {
    forall r :: r in objs1 && r in mark1 && Dies(objs1, mark1, cur, r) ==>
      r in objs0 && r in mark0 && Dies(objs0, mark0, cur, r)
  }

  lemma SweepNoNewDead(objs0: Objs, mark0: Marks, objs1: Objs, mark1: Marks, cur: bool)
    requires SweepEffect(objs0, mark0, objs1, mark1, cur)
    ensures NoNewDead(objs0, mark0, objs1, mark1, cur)
  {
    hide Shaped;
    forall r | r in objs1 && r in mark1 && Dies(objs1, mark1, cur, r)
      ensures Dies(objs0, mark0, cur, r)
    {
      assert KeptObject(objs0, mark0, objs1, mark1, cur, r);
    }
  }

  lemma KeepsContentsTrans(objs0: Objs, mark0: Marks, objs1: Objs, mark1: Marks, objs2: Objs, cur: bool)
    requires KeepsContents(objs0, mark0, objs1, cur) && KeepsContents(objs1, mark1, objs2, cur)
    requires NoNewDead(objs0, mark0, objs1, mark1, cur)
    ensures KeepsContents(objs0, mark0, objs2, cur)
  {
    hide Shaped, ValueOf;
    forall r | r in objs2
      ensures SameContents(objs0, objs2, r)
    {
      assert SameContents(objs0, objs1, r) && SameContents(objs1, objs2, r);
    }
  }

  lemma NoneDead(objs: Objs, mark: Marks, cur: bool, gray: seq<Ref>, again: seq<Ref>, strt: seq<seq<Ref>>,
                 sweepstrgc: nat, rootgc: seq<Ref>, sweepgc: nat, start: seq<Value>, objs0: Objs, mark0: Marks)
    requires PhaseOk(Propagate, objs, mark, cur, gray, again, strt, sweepstrgc, rootgc, sweepgc, start)
    ensures NoNewDead(objs0, mark0, objs, mark, cur)
  {
  }

  lemma OpenBelow(objs: Objs, t: Ref, level: nat)
    requires OpenOk(objs) && t in objs
    requires objs[t].open == [] ||
      (objs[t].open[0] in objs && IsOpen(objs[objs[t].open[0]]) && objs[objs[t].open[0]].place.index < level)
    ensures forall u :: u in objs && IsOpen(objs[u]) && objs[u].place.thread == t ==> objs[u].place.index < level
  {
    assert OpenListOk(objs, t);
    forall u | u in objs && IsOpen(objs[u]) && objs[u].place.thread == t
      ensures objs[u].place.index < level
    {
      assert u in objs[t].open;
      var i :| 0 <= i < |objs[t].open| && objs[t].open[i] == u;
    }
  }

  lemma TakenOffParts(objs0: Objs, mark0: Marks, objs1: Objs, cur: bool, t: Ref, level: nat)
    requires TakenOff(objs0, mark0, objs1, cur, t)
    requires objs0[t].open[0] in objs0 && OpenAbove(objs0[objs0[t].open[0]], t, level)
    ensures KeepsContents(objs0, mark0, objs1, cur) && t in objs0 && t in objs1 && Count(objs1) <= Count(objs0)
    ensures objs1[t].kind == objs0[t].kind && objs1[t].slots == objs0[t].slots && |objs1[t].open| < |objs0[t].open|
    ensures ClosedAbove(objs0, objs1, t, level)
  {
    hide Shaped, ValueOf;
  }

  // ----- sweeping one object of `rootgc` -----------------------------------------------------------

  ghost predicate OpenAreWhite(objs: Objs, mark: Marks, cur: bool, t: Ref) {
    t in objs && forall u :: u in objs[t].open ==> u in mark && mark[u] == White(cur)
  }

  lemma ThreadOpenSwept(objs: Objs, mark: Marks, cur: bool, rootgc: seq<Ref>, strt: seq<seq<Ref>>, hash: string -> nat,
                        uvhead: seq<Ref>, mainthread: Ref, registry: Ref, running: Ref, t: Ref, uvhead1: seq<Ref>)
    requires GraphOk(objs, rootgc, strt, hash, uvhead, mainthread, registry, running, {}) && mark.Keys == objs.Keys
    requires t in objs && objs[t].kind == Thread
    requires UvheadOk(objs - DeadOf(objs, mark, cur, objs[t].open), uvhead1)
    ensures forall r :: r in objs[t].open ==> r in objs && r in mark
    ensures var objs1 := WithOpen(objs, t, Survivors(objs, mark, cur, objs[t].open), DeadOf(objs, mark, cur, objs[t].open));
      var mark1 := SweptMarks(objs, mark, cur, objs[t].open);
      && GraphOk(objs1, rootgc, strt, hash, uvhead1, mainthread, registry, running, {})
      && SweepEffect(objs, mark, objs1, mark1, cur) && OpenAreWhite(objs1, mark1, cur, t)
      && t in mark1 && mark1[t] == mark[t] && Count(objs1) <= Count(objs)
      && objs1[t].kind == objs[t].kind && objs1[t].fixed == objs[t].fixed
      && (forall r :: r in objs1 && r in objs ==> objs1[r].place == objs[r].place)
      && (forall r :: r in objs && r != t && !IsOpen(objs[r]) ==> SameOpen(objs, objs1, r))
  {
    hide Shaped, RootListOk, StringsOk, OpenOk, UvheadOk, FixedOk, Sublist, SweepEffect, Survivors, DeadOf, SweptMarks,
      WithOpen,
      OpenAreWhite, SameOpen, Count;
    OpenElements(objs, t);
    var list := objs[t].open;
    var kept, dead := Survivors(objs, mark, cur, list), DeadOf(objs, mark, cur, list);
    var at := SurvivorsEmbed(objs, mark, cur, list);
    SurvivorsSublist(objs, mark, cur, list, at);
    OpenFreedGraph(objs, rootgc, strt, hash, uvhead, mainthread, registry, running, {}, t, kept, dead, at, uvhead1);
    GraphUvhead(WithOpen(objs, t, kept, dead), rootgc, strt, hash, uvhead1, mainthread, registry, running, {});
    ThreadOpenEffect(objs, mark, cur, t);
  }

  lemma ThreadOpenEffect(objs: Objs, mark: Marks, cur: bool, t: Ref)
    requires Shaped(objs) && mark.Keys == objs.Keys && t in objs && objs[t].kind == Thread && t !in objs[t].open
    requires forall r :: r in objs[t].open ==> r in objs && r in mark && IsOpen(objs[r])
    requires Shaped(WithOpen(objs, t, Survivors(objs, mark, cur, objs[t].open), DeadOf(objs, mark, cur, objs[t].open)))
    ensures var objs1 := WithOpen(objs, t, Survivors(objs, mark, cur, objs[t].open), DeadOf(objs, mark, cur, objs[t].open));
      var mark1 := SweptMarks(objs, mark, cur, objs[t].open);
      && SweepEffect(objs, mark, objs1, mark1, cur) && OpenAreWhite(objs1, mark1, cur, t)
      && t in mark1 && mark1[t] == mark[t] && Count(objs1) <= Count(objs)
      && objs1[t].kind == objs[t].kind && objs1[t].fixed == objs[t].fixed
      && (forall r :: r in objs1 && r in objs ==> objs1[r].place == objs[r].place)
      && (forall r :: r in objs && r != t && !IsOpen(objs[r]) ==> SameOpen(objs, objs1, r))
  {
    hide Shaped, SweepEffect, Survivors;
    var list := objs[t].open;
    var kept, dead := Survivors(objs, mark, cur, list), DeadOf(objs, mark, cur, list);
    ThreadOpenMarks(objs, mark, cur, list);
    OpenFreedEffect(objs, mark, cur, t, kept, dead, SweptMarks(objs, mark, cur, list));
    hide SweptMarks, Dies, DeadOf;
    assert WithOpen(objs, t, kept, dead).Keys == objs.Keys - dead;
  }

  lemma ThreadOpenMarks(objs: Objs, mark: Marks, cur: bool, list: seq<Ref>)
    requires forall r :: r in list ==> r in objs && r in mark
    ensures var dead, mark1 := DeadOf(objs, mark, cur, list), SweptMarks(objs, mark, cur, list);
      && (forall r :: r in dead ==> r in list && r in objs && r in mark && Dies(objs, mark, cur, r))
      && mark1.Keys == mark.Keys - dead
      && (forall r :: r in mark1 ==> mark1[r] == mark[r] || (r in list && mark1[r] == White(cur)))
      && (forall r :: r in mark1 && r in objs ==> mark1[r] == mark[r] || !Dies(objs, mark, cur, r))
      && (forall u :: u in Survivors(objs, mark, cur, list) ==> u in mark1 && mark1[u] == White(cur))
      && (forall r :: r in mark && r !in list ==> r in mark1 && mark1[r] == mark[r])
  {
  }

  lemma SurvivorsSublist(objs: Objs, mark: Marks, cur: bool, list: seq<Ref>, at: seq<nat>)
    requires forall r :: r in list ==> r in objs && r in mark
    requires |at| == |Survivors(objs, mark, cur, list)|
    requires forall i :: 0 <= i < |at| ==> at[i] < |list| && list[at[i]] == Survivors(objs, mark, cur, list)[i]
    requires forall i, j :: 0 <= i < j < |at| ==> at[i] < at[j]
    ensures Sublist(list, Survivors(objs, mark, cur, list), DeadOf(objs, mark, cur, list), at)
  {
  }

  ghost predicate SameOpen(objs: Objs, objs1: Objs, r: Ref) {
    r in objs && r in objs1 && objs1[r].open == objs[r].open
  }

  lemma ThreadStepKeeps(objs: Objs, mark: Marks, cur: bool, rootgc: seq<Ref>, strt: seq<seq<Ref>>, hash: string -> nat,
                        sweepgc: nat, mainthread: Ref, roots: seq<Value>, objs1: Objs, mark1: Marks)
    requires Safe(objs, mark, cur, roots) && Collectable(mainthread) in roots
    requires Shaped(objs) && FixedOk(objs, mainthread) && StringsOk(objs, strt, hash)
    requires ColoursFit(objs, mark) && StringsSwept(mark, cur, strt, |strt|)
    requires RootsSwept(objs, mark, cur, rootgc, sweepgc)
    requires SweepEffect(objs, mark, objs1, mark1, cur)
    requires forall r :: r in objs1 && r in objs ==> objs1[r].place == objs[r].place
    requires forall i :: 0 <= i < sweepgc && i < |rootgc| ==> SameOpen(objs, objs1, rootgc[i])
    ensures Safe(objs1, mark1, cur, roots) && ColoursFit(objs1, mark1)
    ensures StringsSwept(mark1, cur, strt, |strt|) && RootsSwept(objs1, mark1, cur, rootgc, sweepgc)
  {
    hide Shaped, FixedOk, Safe, SweepEffect, ColoursFit, RootsSwept, StringsSwept, StringsOk;
    FixedLeaves(objs, mark, cur, mainthread, roots);
    SweepEffectSafe(objs, mark, objs1, mark1, cur, roots);
    SweepEffectColours(objs, mark, objs1, mark1, cur);
    SweepEffectWhite(objs, mark, objs1, mark1, cur);
    StillSwept(objs, mark, objs1, mark1, cur, strt, rootgc, sweepgc);
  }

  /** What is in the current white stays so. */
  lemma SweepEffectWhite(objs0: Objs, mark0: Marks, objs1: Objs, mark1: Marks, cur: bool)
    requires SweepEffect(objs0, mark0, objs1, mark1, cur)
    ensures forall r :: r in mark1 ==> r in mark0 && (mark0[r] == White(cur) ==> mark1[r] == White(cur))
    ensures mark1.Keys == objs1.Keys
  {
    hide Shaped;
    forall r | r in mark1
      ensures r in mark0 && (mark0[r] == White(cur) ==> mark1[r] == White(cur))
    {
      assert KeptObject(objs0, mark0, objs1, mark1, cur, r);
    }
  }

  lemma StillSwept(objs: Objs, mark: Marks, objs1: Objs, mark1: Marks, cur: bool, strt: seq<seq<Ref>>, rootgc: seq<Ref>,
                   sweepgc: nat)
    requires StringsSwept(mark, cur, strt, |strt|) && RootsSwept(objs, mark, cur, rootgc, sweepgc)
    requires mark1.Keys == objs1.Keys
    requires forall r :: r in mark1 ==> r in mark && (mark[r] == White(cur) ==> mark1[r] == White(cur))
    requires forall i :: 0 <= i < sweepgc && i < |rootgc| ==> SameOpen(objs, objs1, rootgc[i])
    ensures StringsSwept(mark1, cur, strt, |strt|) && RootsSwept(objs1, mark1, cur, rootgc, sweepgc)
  {
    forall i | 0 <= i < sweepgc
      ensures RootSwept(objs1, mark1, cur, rootgc[i])
    {
      assert RootSwept(objs, mark, cur, rootgc[i]);
    }
  }

  /** The swept object survives: it is whitened and the sweep moves on. */
  lemma KeepRoot(objs: Objs, mark: Marks, cur: bool, rootgc: seq<Ref>, strt: seq<seq<Ref>>, sweepgc: nat,
                 roots: seq<Value>, mainthread: Ref)
    requires Safe(objs, mark, cur, roots) && ColoursFit(objs, mark) && Shaped(objs)
    requires StringsSwept(mark, cur, strt, |strt|) && RootsSwept(objs, mark, cur, rootgc, sweepgc)
    requires FixedOk(objs, mainthread) && Collectable(mainthread) in roots
    requires sweepgc < |rootgc| && rootgc[sweepgc] in objs && objs[rootgc[sweepgc]].kind != String
    requires rootgc[sweepgc] in mark && !Dies(objs, mark, cur, rootgc[sweepgc])
    requires OpenAreWhite(objs, mark, cur, rootgc[sweepgc])
    ensures var mark1 := mark[rootgc[sweepgc] := White(cur)];
      && Safe(objs, mark1, cur, roots) && ColoursFit(objs, mark1) && StringsSwept(mark1, cur, strt, |strt|)
      && RootsSwept(objs, mark1, cur, rootgc, sweepgc + 1) && SweepEffect(objs, mark, objs, mark1, cur)
  {
    var r := rootgc[sweepgc];
    var mark1 := mark[r := White(cur)];
    assert Alive(mark, cur, mainthread);
    assert forall x :: Alive(mark, cur, x) <==> Alive(mark1, cur, x);
    assert SweepEffect(objs, mark, objs, mark1, cur);
    forall i | 0 <= i < sweepgc + 1
      ensures RootSwept(objs, mark1, cur, rootgc[i])
    {
      if i < sweepgc {
        assert RootSwept(objs, mark, cur, rootgc[i]);
      }
    }
  }

  /** Thread `t` is about to be swept: its open upvalues have been. */
  lemma ThreadSweptFirst(objs: Objs, mark: Marks, cur: bool, rootgc: seq<Ref>, strt: seq<seq<Ref>>, hash: string -> nat,
                         uvhead: seq<Ref>, mainthread: Ref, registry: Ref, running: Ref, sweepgc: nat,
                         roots: seq<Value>,
                         uvhead1: seq<Ref>)
    requires GraphOk(objs, rootgc, strt, hash, uvhead, mainthread, registry, running, {})
    requires Safe(objs, mark, cur, roots) && Collectable(mainthread) in roots
    requires ColoursFit(objs, mark) && StringsSwept(mark, cur, strt, |strt|)
    requires RootsSwept(objs, mark, cur, rootgc, sweepgc)
    requires sweepgc < |rootgc| && rootgc[sweepgc] in objs && objs[rootgc[sweepgc]].kind == Thread
    requires UvheadOk(objs - DeadOf(objs, mark, cur, objs[rootgc[sweepgc]].open), uvhead1)
    ensures forall r :: r in objs[rootgc[sweepgc]].open ==> r in objs && r in mark
    ensures var t := rootgc[sweepgc];
      var objs1 := WithOpen(objs, t, Survivors(objs, mark, cur, objs[t].open), DeadOf(objs, mark, cur, objs[t].open));
      var mark1 := SweptMarks(objs, mark, cur, objs[t].open);
      && GraphOk(objs1, rootgc, strt, hash, uvhead1, mainthread, registry, running, {})
      && Safe(objs1, mark1, cur, roots) && ColoursFit(objs1, mark1) && StringsSwept(mark1, cur, strt, |strt|)
      && RootsSwept(objs1, mark1, cur, rootgc, sweepgc)
      && SweepEffect(objs, mark, objs1, mark1, cur) && OpenAreWhite(objs1, mark1, cur, t)
      && objs1[t].kind == objs[t].kind && Count(objs1) <= Count(objs)
  {
    hide Shaped, RootListOk, StringsOk, OpenOk, UvheadOk, FixedOk, Safe, ColoursFit, RootsSwept, StringsSwept,
      SweepEffect,
      Survivors, DeadOf, SweptMarks, WithOpen, OpenAreWhite;
    SafeKeys(objs, mark, cur, roots);
    var t := rootgc[sweepgc];
    ThreadOpenSwept(objs, mark, cur, rootgc, strt, hash, uvhead, mainthread, registry, running, t, uvhead1);
    RootsBefore(objs, rootgc, {}, sweepgc);
    ThreadStepKeeps(objs, mark, cur, rootgc, strt, hash, sweepgc, mainthread, roots,
      WithOpen(objs, t, Survivors(objs, mark, cur, objs[t].open), DeadOf(objs, mark, cur, objs[t].open)),
      SweptMarks(objs, mark, cur, objs[t].open));
  }

  lemma RootsBefore(objs: Objs, rootgc: seq<Ref>, except: set<Ref>, k: nat)
    requires RootListOk(objs, rootgc, except) && k < |rootgc|
    ensures forall i :: 0 <= i < k ==> rootgc[i] in objs && rootgc[i] != rootgc[k] && !IsOpen(objs[rootgc[i]])
    ensures rootgc[k] in objs && objs[rootgc[k]].kind != String && !IsOpen(objs[rootgc[k]])
  {
    assert forall i :: 0 <= i < |rootgc| ==> rootgc[i] in rootgc;
  }

  /** The dead object at the sweep position leaves `rootgc`. */
  lemma UnlinkRoot(objs: Objs, mark: Marks, cur: bool, rootgc: seq<Ref>, k: nat)
    requires RootListOk(objs, rootgc, {}) && RootsSwept(objs, mark, cur, rootgc, k) && k < |rootgc|
    ensures RootListOk(objs, rootgc[..k] + rootgc[k + 1..], {rootgc[k]})
    ensures RootsSwept(objs, mark, cur, rootgc[..k] + rootgc[k + 1..], k)
  {
    var rest := rootgc[..k] + rootgc[k + 1..];
    assert rootgc == rootgc[..k] + [rootgc[k]] + rootgc[k + 1..];
    forall r | r in rest
      ensures r in rootgc && r != rootgc[k]
    {
    }
    forall i | 0 <= i < k
      ensures RootSwept(objs, mark, cur, rest[i])
    {
      assert RootSwept(objs, mark, cur, rootgc[i]);
    }
  }

  /** A dead object that is on no list any more, and on whose stack no upvalue is open, is freed. */
  ghost predicate NothingOpenOn(objs: Objs, t: Ref) {
    forall u :: u in objs && IsOpen(objs[u]) ==> objs[u].place.thread != t
  }

  lemma FreeRootGraph(objs: Objs, rootgc: seq<Ref>, strt: seq<seq<Ref>>, hash: string -> nat, uvhead: seq<Ref>,
                      mainthread: Ref, registry: Ref, running: Ref, r: Ref)
    requires GraphOk(objs, rootgc, strt, hash, uvhead, mainthread, registry, running, {r})
    requires r in objs && objs[r].kind != String && !IsOpen(objs[r]) && r !in {mainthread, registry, running}
    requires NothingOpenOn(objs, r)
    ensures GraphOk(objs - {r}, rootgc, strt, hash, uvhead, mainthread, registry, running, {})
  {
    hide Shaped, RootListOk, StringsOk, OpenOk, UvheadOk, FixedOk;
    FreeRootShape(objs, mainthread, r);
    FreeRootLists(objs, rootgc, strt, hash, uvhead, r);
    FreeRootOpen(objs, r);
  }

  lemma FreeRootShape(objs: Objs, mainthread: Ref, r: Ref)
    requires Shaped(objs) && FixedOk(objs, mainthread)
    requires NothingOpenOn(objs, r)
    ensures Shaped(objs - {r}) && FixedOk(objs - {r}, mainthread)
  {
  }

  lemma FreeRootLists(objs: Objs, rootgc: seq<Ref>, strt: seq<seq<Ref>>, hash: string -> nat, uvhead: seq<Ref>, r: Ref)
    requires RootListOk(objs, rootgc, {r}) && StringsOk(objs, strt, hash) && UvheadOk(objs, uvhead)
    requires r in objs && objs[r].kind != String && !IsOpen(objs[r])
    ensures RootListOk(objs - {r}, rootgc, {}) && StringsOk(objs - {r}, strt, hash) && UvheadOk(objs - {r}, uvhead)
  {
    hide RootListOk, StringsOk, UvheadOk;
    FreeRootList(objs, rootgc, uvhead, r);
    StringsSame(objs, objs - {r}, strt, hash);
  }

  lemma FreeRootList(objs: Objs, rootgc: seq<Ref>, uvhead: seq<Ref>, r: Ref)
    requires RootListOk(objs, rootgc, {r}) && UvheadOk(objs, uvhead) && r in objs && objs[r].kind != String
    requires !IsOpen(objs[r])
    ensures RootListOk(objs - {r}, rootgc, {}) && UvheadOk(objs - {r}, uvhead)
  {}

  lemma FreeRootOpen(objs: Objs, r: Ref)
    requires OpenOk(objs) && r in objs && !IsOpen(objs[r])
    requires NothingOpenOn(objs, r)
    ensures OpenOk(objs - {r})
  {
    forall t | t in objs - {r}
      ensures OpenListOk(objs - {r}, t)
    {
      assert OpenListOk(objs, t);
    }
  }

  lemma FreeRootEffect(objs: Objs, mark: Marks, cur: bool, rootgc: seq<Ref>, strt: seq<seq<Ref>>, sweepgc: nat,
                       roots: seq<Value>, mainthread: Ref, r: Ref)
    requires Safe(objs, mark, cur, roots) && ColoursFit(objs, mark) && Shaped(objs) && Shaped(objs - {r})
    requires StringsSwept(mark, cur, strt, |strt|) && RootsSwept(objs, mark, cur, rootgc, sweepgc)
    requires FixedOk(objs, mainthread) && Collectable(mainthread) in roots
    requires r in objs && r in mark && Dies(objs, mark, cur, r) && r !in rootgc
    requires NothingOpenOn(objs, r)
    ensures Safe(objs - {r}, mark - {r}, cur, roots) && ColoursFit(objs - {r}, mark - {r})
    ensures StringsSwept(mark - {r}, cur, strt, |strt|) && RootsSwept(objs - {r}, mark - {r}, cur, rootgc, sweepgc)
    ensures SweepEffect(objs, mark, objs - {r}, mark - {r}, cur)
  {
    hide Shaped, Safe, SweepEffect, ColoursFit, FixedOk;
    SafeKeys(objs, mark, cur, roots);
    var objs1, mark1 := objs - {r}, mark - {r};
    FreeOneEffect(objs, mark, cur, r);
    FixedLeaves(objs, mark, cur, mainthread, roots);
    SweepEffectSafe(objs, mark, objs1, mark1, cur, roots);
    SweepEffectColours(objs, mark, objs1, mark1, cur);
    forall i | 0 <= i < sweepgc
      ensures RootSwept(objs1, mark1, cur, rootgc[i])
    {
      assert RootSwept(objs, mark, cur, rootgc[i]);
    }
  }

  lemma FreeOneEffect(objs: Objs, mark: Marks, cur: bool, r: Ref)
    requires Shaped(objs) && Shaped(objs - {r}) && mark.Keys == objs.Keys
    requires r in objs && r in mark && Dies(objs, mark, cur, r)
    requires NothingOpenOn(objs, r)
    ensures SweepEffect(objs, mark, objs - {r}, mark - {r}, cur)
  {
    var objs1, mark1 := objs - {r}, mark - {r};
    forall x | x in objs1
      ensures KeptObject(objs, mark, objs1, mark1, cur, x)
    {
      SameValue(objs, objs1, x);
    }
  }

  lemma DeadIsNoRoot(objs: Objs, mark: Marks, cur: bool, roots: seq<Value>, r: Ref)
    requires Safe(objs, mark, cur, roots) && r in mark && mark[r] == White(!cur)
    ensures Collectable(r) !in roots
  {
  }

  lemma GraphOpen(objs: Objs, rootgc: seq<Ref>, strt: seq<seq<Ref>>, hash: string -> nat, uvhead: seq<Ref>,
                  mainthread: Ref, registry: Ref, running: Ref, t: Ref, mark: Marks, cur: bool)
    requires GraphOk(objs, rootgc, strt, hash, uvhead, mainthread, registry, running, {}) && t in objs
    ensures t !in DeadOf(objs, mark, cur, objs[t].open)
    ensures UvheadOk(objs, uvhead) && NoDup(objs[t].open)
    ensures forall u :: u in objs[t].open ==> u in objs && u != t
  {
    OpenElements(objs, t);
  }

  lemma UnlinkFirst(objs: Objs, mark: Marks, cur: bool, rootgc: seq<Ref>, strt: seq<seq<Ref>>, hash: string -> nat,
                    uvhead: seq<Ref>, mainthread: Ref, registry: Ref, running: Ref, k: nat, roots: seq<Value>)
    requires GraphOk(objs, rootgc, strt, hash, uvhead, mainthread, registry, running, {})
    requires Safe(objs, mark, cur, roots) && RootsSwept(objs, mark, cur, rootgc, k) && k < |rootgc|
    requires {Collectable(mainthread), Collectable(registry), Collectable(running)} <= set v | v in roots
    requires rootgc[k] in objs && rootgc[k] in mark && Dies(objs, mark, cur, rootgc[k])
    ensures GraphOk(objs, rootgc[..k] + rootgc[k + 1..], strt, hash, uvhead, mainthread, registry, running, {rootgc[k]})
    ensures RootsSwept(objs, mark, cur, rootgc[..k] + rootgc[k + 1..], k)
    ensures Shaped(objs) && mark.Keys == objs.Keys && rootgc[k] !in {mainthread, registry, running}
    ensures objs[rootgc[k]].kind != String && !IsOpen(objs[rootgc[k]])
    ensures objs[rootgc[k]].kind != Thread ==> NothingOpenOn(objs, rootgc[k])
  {
    hide RootListOk, StringsOk, OpenOk, UvheadOk, FixedOk, RootsSwept;
    UnlinkRoot(objs, mark, cur, rootgc, k);
    RootsBefore(objs, rootgc, {}, k);
    DeadIsNoRoot(objs, mark, cur, roots, rootgc[k]);
  }

  lemma StillDead(objs0: Objs, mark0: Marks, objs1: Objs, mark1: Marks, cur: bool, r: Ref)
    requires SweepEffect(objs0, mark0, objs1, mark1, cur) && r in objs0 && r in mark0 && r in objs1
    requires Dies(objs0, mark0, cur, r)
    ensures r in mark1 && Dies(objs1, mark1, cur, r)
    ensures objs1[r].kind == objs0[r].kind
    ensures objs0[r].kind != Upval ==> !IsOpen(objs1[r])
    ensures !IsOpen(objs0[r]) ==> !IsOpen(objs1[r])
  {
    assert KeptObject(objs0, mark0, objs1, mark1, cur, r);
  }

  lemma FreeRootKeeps(objs: Objs, mark: Marks, cur: bool, rootgc: seq<Ref>, strt: seq<seq<Ref>>, hash: string -> nat,
                      uvhead: seq<Ref>, mainthread: Ref, registry: Ref, running: Ref, sweepgc: nat, roots: seq<Value>,
                      r: Ref)
    requires GraphOk(objs, rootgc, strt, hash, uvhead, mainthread, registry, running, {r})
    requires Safe(objs, mark, cur, roots) && ColoursFit(objs, mark) && Collectable(mainthread) in roots
    requires StringsSwept(mark, cur, strt, |strt|) && RootsSwept(objs, mark, cur, rootgc, sweepgc)
    requires r in objs && r in mark && Dies(objs, mark, cur, r) && r !in {mainthread, registry, running}
    requires objs[r].kind != String && !IsOpen(objs[r])
    requires NothingOpenOn(objs, r)
    ensures GraphOk(objs - {r}, rootgc, strt, hash, uvhead, mainthread, registry, running, {})
    ensures Safe(objs - {r}, mark - {r}, cur, roots) && ColoursFit(objs - {r}, mark - {r})
    ensures StringsSwept(mark - {r}, cur, strt, |strt|) && RootsSwept(objs - {r}, mark - {r}, cur, rootgc, sweepgc)
    ensures SweepEffect(objs, mark, objs - {r}, mark - {r}, cur) && Count(objs - {r}) < Count(objs)
  {
    hide Shaped, StringsOk, OpenOk, UvheadOk, FixedOk, Safe, ColoursFit, StringsSwept, RootsSwept, SweepEffect;
    FreeRootGraph(objs, rootgc, strt, hash, uvhead, mainthread, registry, running, r);
    GraphUvhead(objs - {r}, rootgc, strt, hash, uvhead, mainthread, registry, running, {});
    FreeRootEffect(objs, mark, cur, rootgc, strt, sweepgc, roots, mainthread, r);
    assert (objs - {r}).Keys == objs.Keys - {r};
  }

  // ----- whole steps -------------------------------------------------------------------------------

  lemma {:induction false} DistinctAtMost(s: seq<Ref>, keys: set<Ref>)
    requires NoDup(s) && (forall r :: r in s ==> r in keys)
    ensures |s| <= |keys|
  {
    if s != [] {
      var last := s[|s| - 1];
      var rest := s[..|s| - 1];
      assert last in s;
      assert forall r :: r in rest ==> r in s;
      DistinctAtMost(rest, keys - {last});
    }
  }

  lemma GraphFixed(objs: Objs, rootgc: seq<Ref>, strt: seq<seq<Ref>>, hash: string -> nat, uvhead: seq<Ref>,
                   mainthread: Ref, registry: Ref, running: Ref, except: set<Ref>)
    requires GraphOk(objs, rootgc, strt, hash, uvhead, mainthread, registry, running, except)
    ensures FixedOk(objs, mainthread) && Shaped(objs)
  {}

  lemma SweepParts0(objs: Objs, mark: Marks, cur: bool, gray: seq<Ref>, again: seq<Ref>,
                    strt: seq<seq<Ref>>, sweepstrgc: nat, rootgc: seq<Ref>, sweepgc: nat, start: seq<Value>)
    ensures PhaseOk(Sweep, objs, mark, cur, gray, again, strt, sweepstrgc, rootgc, sweepgc, start) <==>
      ColoursFit(objs, mark) && StringsSwept(mark, cur, strt, |strt|) && RootsSwept(objs, mark, cur, rootgc, sweepgc)
  {}

  lemma GraphRootList(objs: Objs, rootgc: seq<Ref>, strt: seq<seq<Ref>>, hash: string -> nat, uvhead: seq<Ref>,
                      mainthread: Ref, registry: Ref, running: Ref, except: set<Ref>)
    requires GraphOk(objs, rootgc, strt, hash, uvhead, mainthread, registry, running, except)
    ensures RootListOk(objs, rootgc, except)
  {}

  lemma SweepPositionBound(objs: Objs, rootgc: seq<Ref>, except: set<Ref>)
    requires RootListOk(objs, rootgc, except)
    ensures |rootgc| <= Count(objs)
  {
    DistinctAtMost(rootgc, objs.Keys);
    assert |objs.Keys| == Count(objs);
  }

  /** Resetting the sweep before anything was flipped only returns objects to the current white. */
  lemma ResetIsFine(phase: Phase, objs: Objs, mark: Marks, cur: bool, gray: seq<Ref>, again: seq<Ref>,
                    strt: seq<seq<Ref>>, sweepstrgc: nat, rootgc: seq<Ref>, sweepgc: nat, start: seq<Value>)
    requires PhaseOk(phase, objs, mark, cur, gray, again, strt, sweepstrgc, rootgc, sweepgc, start)
    requires phase == Pause || phase == Propagate
    requires mark.Keys == objs.Keys && |strt| > 0
    ensures PhaseOk(SweepString, objs, mark, cur, [], [], strt, 0, rootgc, 0, start)
  {
    if phase == Propagate {
      forall r | r in objs
        ensures ColourFits(objs[r], mark[r])
      {
        assert Painted(objs, mark, gray, again, r);
      }
    }
  }

  lemma AtomicFlips(objs: Objs, m0: Marks, mark: Marks, cur: bool, gray: seq<Ref>, again: seq<Ref>, roots: seq<Value>,
                    start: seq<Value>, strt: seq<seq<Ref>>, rootgc: seq<Ref>, among: set<Ref>)
    requires MarkingOk(objs, m0, cur, gray, again, start)
    requires Progress(objs, m0, mark) && MarkedInside(mark, among) && mark.Keys == objs.Keys
    requires MarkedClosed(objs, mark) && ValuesMarked(mark, roots) && ColoursFit(objs, mark) && |strt| > 0
    ensures Safe(objs, mark, !cur, roots)
    ensures PhaseOk(SweepString, objs, mark, !cur, [], [], strt, 0, rootgc, 0, start)
    ensures forall r :: Alive(mark, !cur, r) ==> r in among
  {
    ProgressAdvances(objs, m0, mark);
    forall r | IsWhite(mark, r)
      ensures mark[r] == White(cur)
    {
      assert !Marked(m0, r);
    }
    FlipIsSafe(objs, mark, cur, roots);
  }

  /** Neither what the program can reach nor a fixed object is freed, and what is left has the same contents. */
  ghost predicate Usable(objs0: Objs, objs1: Objs, roots: seq<Value>) {
    && Shaped(objs0) && Shaped(objs1) && objs1.Keys <= objs0.Keys
    && (forall r :: r in objs1 ==> SameContents(objs0, objs1, r))
    && (forall r :: r in objs0 && objs0[r].fixed ==> r in objs1)
    && (forall r :: Reachable(objs0, RootSet(roots), r) <==> Reachable(objs1, RootSet(roots), r))
    && (forall r :: Reachable(objs0, RootSet(roots), r) ==> r in objs1)
  }

  /** The collector neither frees nor alters anything the program can reach, nor a fixed object; variables shared
    * through an open upvalue stay shared. */
  ghost predicate Survival(objs0: Objs, objs1: Objs, roots: seq<Value>) {
    Usable(objs0, objs1, roots) && OpenStays(objs0, objs1)
  }

  lemma SurvivalRefl(objs: Objs, mark: Marks, cur: bool, roots: seq<Value>)
    requires Shaped(objs) && Safe(objs, mark, cur, roots)
    ensures Survival(objs, objs, roots)
  {
    forall r | Reachable(objs, RootSet(roots), r)
      ensures r in objs
    {
      ReachableIsAlive(objs, mark, cur, roots, r);
    }
  }

  lemma SurvivalTrans(objs0: Objs, objs1: Objs, objs2: Objs, roots: seq<Value>)
    requires Survival(objs0, objs1, roots) && Survival(objs1, objs2, roots)
    ensures Survival(objs0, objs2, roots)
  {
    hide Shaped, ValueOf, Reachable, OpenStays;
    OpenStaysTrans(objs0, objs1, objs2);
    forall r | r in objs2
      ensures SameContents(objs0, objs2, r)
    {
      assert SameContents(objs0, objs1, r) && SameContents(objs1, objs2, r);
    }
    forall r | r in objs0 && objs0[r].fixed
      ensures r in objs2
    {
      assert SameContents(objs0, objs1, r);
    }
  }

  lemma SweepSurvival(objs0: Objs, mark0: Marks, objs1: Objs, mark1: Marks, cur: bool, roots: seq<Value>)
    requires SweepEffect(objs0, mark0, objs1, mark1, cur) && Safe(objs0, mark0, cur, roots) && OpenStays(objs0, objs1)
    ensures Survival(objs0, objs1, roots)
  {
    hide SweepEffect, OpenStays, KeepsContents, Usable;
    SweepKeepsContents(objs0, mark0, objs1, mark1, cur);
    ContentsUsable(objs0, mark0, objs1, cur, roots);
  }

  lemma ContentsUsable(objs0: Objs, mark0: Marks, objs1: Objs, cur: bool, roots: seq<Value>)
    requires KeepsContents(objs0, mark0, objs1, cur) && Safe(objs0, mark0, cur, roots)
    ensures Usable(objs0, objs1, roots)
  {
    hide Shaped, SameContents, Reachable;
    forall r
      ensures Reachable(objs0, RootSet(roots), r) <==> Reachable(objs1, RootSet(roots), r)
      ensures Reachable(objs0, RootSet(roots), r) ==> r in objs1
    {
      ContentsReachable(objs0, mark0, objs1, cur, roots, r);
    }
  }

  /** Nothing reachable is freed, and what is reachable stays so. */
  lemma ContentsReachable(objs0: Objs, mark0: Marks, objs1: Objs, cur: bool, roots: seq<Value>, r: Ref)
    requires KeepsContents(objs0, mark0, objs1, cur) && Safe(objs0, mark0, cur, roots)
    ensures Reachable(objs0, RootSet(roots), r) <==> Reachable(objs1, RootSet(roots), r)
    ensures Reachable(objs0, RootSet(roots), r) ==> r in objs1
  {
    var among := set o | o in objs0 && Alive(mark0, cur, o);
    hide Shaped, SameContents, Edge, Reachable;
    forall o | o in RootSet(roots)
      ensures o in among
    {
      var v :| v in roots && v.Collectable? && v.ref == o;
    }
    forall o | o in among
      ensures o in objs1
    {
    }
    forall a, b | a in among
      ensures Edge(objs0, a, b) <==> Edge(objs1, a, b)
    {
      SameContentsEdges(objs0, objs1, a, b);
    }
    SameEdgesSameReach(objs0, objs1, RootSet(roots), among, r);
    if Reachable(objs0, RootSet(roots), r) {
      ReachableStaysInside(objs0, RootSet(roots), among, r);
    }
  }

  function Strings(objs: Objs): set<Ref> { set r | r in objs && objs[r].kind == String }

  // ----- resizing the string table -----------------------------------------------------------------

  /** `table` holds the strings of `done`, each in the bucket of its hash. */
  ghost predicate Rehashed(objs: Objs, hash: string -> nat, table: seq<seq<Ref>>, done: set<Ref>) {
    && |table| > 0 && done <= Strings(objs)
    && (forall i :: 0 <= i < |table| ==> NoDup(table[i]))
    && (forall i, r :: 0 <= i < |table| && r in table[i] ==>
          r in done && r in objs && Bucket(hash, objs[r].text, |table|) == i)
    && (forall r :: r in done && r in objs ==> r in table[Bucket(hash, objs[r].text, |table|)])
  }

  lemma RehashOne(objs: Objs, hash: string -> nat, table: seq<seq<Ref>>, done: set<Ref>, p: Ref)
    requires Rehashed(objs, hash, table, done) && p in Strings(objs) && p !in done
    ensures var h := Bucket(hash, objs[p].text, |table|);
      Rehashed(objs, hash, table[h := [p] + table[h]], done + {p})
  {
    var h := Bucket(hash, objs[p].text, |table|);
    assert p !in table[h];
    assert NoDup([p] + table[h]);
  }

  lemma RehashDone(objs: Objs, hash: string -> nat, strt: seq<seq<Ref>>, table: seq<seq<Ref>>)
    requires StringsOk(objs, strt, hash) && Rehashed(objs, hash, table, Strings(objs))
    ensures StringsOk(objs, table, hash)
  {
  }

  /** The strings of the first `i` buckets, and the first `j` of the next one. */
  function Visited(strt: seq<seq<Ref>>, i: nat, j: nat): set<Ref>
    requires i <= |strt| && (j > 0 ==> i < |strt| && j <= |strt[i]|)
  {
    (set b, k | 0 <= b < i && 0 <= k < |strt[b]| :: strt[b][k]) + (if j > 0 then set k | 0 <= k < j :: strt[i][k] else {})
  }

  lemma VisitNext(objs: Objs, strt: seq<seq<Ref>>, hash: string -> nat, i: nat, j: nat)
    requires StringsOk(objs, strt, hash) && i < |strt| && j < |strt[i]|
    ensures strt[i][j] in Strings(objs) && strt[i][j] !in Visited(strt, i, j)
    ensures Visited(strt, i, j + 1) == Visited(strt, i, j) + {strt[i][j]}
  {
    var r := strt[i][j];
    assert r in strt[i];
    if r in Visited(strt, i, j) {
      if b, k :| 0 <= b < i && 0 <= k < |strt[b]| && strt[b][k] == r {
        assert r in strt[b];
      }
    }
  }

  lemma VisitBucket(strt: seq<seq<Ref>>, i: nat)
    requires i < |strt|
    ensures Visited(strt, i + 1, 0) == Visited(strt, i, |strt[i]|)
  {
    var a, b := Visited(strt, i + 1, 0), Visited(strt, i, |strt[i]|);
    forall r | r in a
      ensures r in b
    {
      var c, k :| 0 <= c < i + 1 && 0 <= k < |strt[c]| && strt[c][k] == r;
    }
  }

  lemma VisitedAll(objs: Objs, strt: seq<seq<Ref>>, hash: string -> nat)
    requires StringsOk(objs, strt, hash)
    ensures Visited(strt, |strt|, 0) == Strings(objs)
  {
    forall r | r in Strings(objs)
      ensures r in Visited(strt, |strt|, 0)
    {
      var b := Bucket(hash, objs[r].text, |strt|);
      assert r in strt[b];
      var k :| 0 <= k < |strt[b]| && strt[b][k] == r;
    }
    forall r | r in Visited(strt, |strt|, 0)
      ensures r in Strings(objs)
    {
      var b, k :| 0 <= b < |strt| && 0 <= k < |strt[b]| && strt[b][k] == r;
      assert r in strt[b];
    }
  }

  lemma RehashStart(objs: Objs, hash: string -> nat, table: seq<seq<Ref>>, strt: seq<seq<Ref>>)
    requires |table| > 0 && (forall i :: 0 <= i < |table| ==> table[i] == [])
    ensures Rehashed(objs, hash, table, Visited(strt, 0, 0))
  {
  }

  lemma SweptStrings(objs: Objs, mark: Marks, cur: bool, strt: seq<seq<Ref>>, strt1: seq<seq<Ref>>, hash: string -> nat)
    requires StringsOk(objs, strt, hash) && StringsOk(objs, strt1, hash) && mark.Keys == objs.Keys
    requires StringsSwept(mark, cur, strt, |strt|)
    ensures StringsSwept(mark, cur, strt1, |strt1|)
  {
    forall i, r | 0 <= i < |strt1| && r in strt1[i] && r in mark
      ensures mark[r] == White(cur)
    {
      assert r in strt[Bucket(hash, objs[r].text, |strt|)];
    }
  }

  // ----- a full collection -------------------------------------------------------------------------

  /** Objects that are not about to be freed are in `among` or fixed. */
  ghost predicate Kept(objs: Objs, mark: Marks, cur: bool, among: set<Ref>) {
    forall r :: r in objs && Alive(mark, cur, r) ==> r in among || objs[r].fixed
  }

  lemma KeptFromFlip(objs: Objs, mark: Marks, cur: bool, among: set<Ref>)
    requires forall r :: Alive(mark, cur, r) ==> r in among
    ensures Kept(objs, mark, cur, among)
  {
  }

  lemma KeptThroughSweep(objs0: Objs, mark0: Marks, objs1: Objs, mark1: Marks, cur: bool, among: set<Ref>)
    requires SweepEffect(objs0, mark0, objs1, mark1, cur) && Kept(objs0, mark0, cur, among)
    ensures Kept(objs1, mark1, cur, among)
  {
    hide Shaped;
    forall r | r in objs1 && Alive(mark1, cur, r)
      ensures r in among || objs1[r].fixed
    {
      assert KeptObject(objs0, mark0, objs1, mark1, cur, r);
    }
  }

  lemma KeptAtEnd(objs: Objs, mark: Marks, cur: bool, among: set<Ref>, roots: seq<Value>)
    requires Safe(objs, mark, cur, roots) && IdleOk(mark, cur) && Kept(objs, mark, cur, among)
    ensures forall r :: r in objs ==> r in among || objs[r].fixed
  {
    forall r | r in objs
      ensures r in among || objs[r].fixed
    {
      assert Alive(mark, cur, r);
    }
  }

  lemma ReachableSet(objs: Objs, mark: Marks, cur: bool, roots: seq<Value>, among: set<Ref>)
    requires Safe(objs, mark, cur, roots)
    requires forall r :: r in among <==> r in objs && Reachable(objs, RootSet(roots), r)
    ensures EdgeClosed(objs, among) && Inside(objs, roots, among)
    ensures forall r :: Reachable(objs, RootSet(roots), r) ==> r in among
  {
    forall a, b | a in among && a in objs && Edge(objs, a, b)
      ensures b in among
    {
      EdgeKeepsReachable(objs, RootSet(roots), a, b);
      ReachableIsAlive(objs, mark, cur, roots, b);
    }
    forall v | v in roots && v.Collectable?
      ensures v.ref in objs && v.ref in among
    {
      assert v.ref in RootSet(roots);
      RootsAreReachable(objs, RootSet(roots), v.ref);
      ReachableIsAlive(objs, mark, cur, roots, v.ref);
    }
    forall r | Reachable(objs, RootSet(roots), r)
      ensures r in among
    {
      ReachableIsAlive(objs, mark, cur, roots, r);
    }
  }

  lemma Exactly(objs0: Objs, objs1: Objs, objs2: Objs, roots: seq<Value>, among: set<Ref>)
    requires Survival(objs0, objs1, roots) && Survival(objs1, objs2, roots) && Survival(objs0, objs2, roots)
    requires forall r :: r in among <==> r in objs1 && Reachable(objs1, RootSet(roots), r)
    requires forall r :: r in objs2 ==> r in among || objs2[r].fixed
    ensures forall r :: r in objs2 <==> r in objs0 && (Reachable(objs0, RootSet(roots), r) || objs0[r].fixed)
  {
    hide Shaped, Reachable;
    forall r | r in objs2
      ensures r in objs0 && (Reachable(objs0, RootSet(roots), r) || objs0[r].fixed)
    {
      assert SameContents(objs0, objs2, r);
    }
  }
}
