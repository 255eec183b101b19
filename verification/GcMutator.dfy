/** What the steps of the running program do to the graph and to the collector's promises. */
module GcMutator {
  import opened GcHeap
  import opened GcSafety

  // ----- storing into an object --------------------------------------------------------------------

  function WithSlots(objs: Objs, o: Ref, slots: seq<Value>): Objs
    requires o in objs
  {
    objs[o := objs[o].(slots := slots)]
  }

  /** Slots that may replace those of an object: each is what it was, or holds something alive. */
  ghost predicate SlotsFrom(mark: Marks, cur: bool, before: seq<Value>, after: seq<Value>) {
    forall i :: 0 <= i < |after| ==>
      (i < |before| && after[i] == before[i]) || (after[i].Collectable? ==> Alive(mark, cur, after[i].ref))
  }

  /** The object keeps its shape with the new slots. */
  ghost predicate FitsShape(objs: Objs, o: Ref, slots: seq<Value>)
    requires o in objs
  {
    && objs[o].kind != String && !IsOpen(objs[o])
    && (objs[o].kind == Upval ==> |slots| == 1)
    && (objs[o].kind == Thread ==> slots != [])
    && (forall u :: u in objs && IsOpen(objs[u]) && objs[u].place.thread == o ==> objs[u].place.index < |slots|)
  }

  lemma StoreGraph(objs: Objs, rootgc: seq<Ref>, strt: seq<seq<Ref>>, hash: string -> nat, uvhead: seq<Ref>,
                   mainthread: Ref, registry: Ref, running: Ref, o: Ref, slots: seq<Value>)
    requires GraphOk(objs, rootgc, strt, hash, uvhead, mainthread, registry, running, {})
    requires o in objs && FitsShape(objs, o, slots)
    ensures GraphOk(WithSlots(objs, o, slots), rootgc, strt, hash, uvhead, mainthread, registry, running, {})
  {
    hide Shaped, RootListOk, StringsOk, OpenOk, UvheadOk, FixedOk;
    StoreShape(objs, o, slots);
    StoreLists(objs, rootgc, uvhead, mainthread, o, slots);
    StoreStrings(objs, strt, hash, o, slots);
    StoreOpen(objs, o, slots);
  }

  lemma StoreShape(objs: Objs, o: Ref, slots: seq<Value>)
    requires Shaped(objs) && o in objs && FitsShape(objs, o, slots)
    ensures Shaped(WithSlots(objs, o, slots))
  {
  }

  lemma StoreLists(objs: Objs, rootgc: seq<Ref>, uvhead: seq<Ref>, mainthread: Ref, o: Ref, slots: seq<Value>)
    requires RootListOk(objs, rootgc, {}) && UvheadOk(objs, uvhead) && FixedOk(objs, mainthread) && o in objs
    ensures RootListOk(WithSlots(objs, o, slots), rootgc, {}) && UvheadOk(WithSlots(objs, o, slots), uvhead)
    ensures FixedOk(WithSlots(objs, o, slots), mainthread)
  {
  }

  lemma StoreStrings(objs: Objs, strt: seq<seq<Ref>>, hash: string -> nat, o: Ref, slots: seq<Value>)
    requires StringsOk(objs, strt, hash) && o in objs
    ensures StringsOk(WithSlots(objs, o, slots), strt, hash)
  {
  }

  lemma StoreOpen(objs: Objs, o: Ref, slots: seq<Value>)
    requires OpenOk(objs) && o in objs
    ensures OpenOk(WithSlots(objs, o, slots))
  {
    SameOpen(objs, WithSlots(objs, o, slots));
  }

  /** The lists of open upvalues do not depend on what the slots hold. */
  lemma SameOpen(objs: Objs, objs1: Objs)
    requires OpenOk(objs) && objs1.Keys == objs.Keys
    requires forall r :: r in objs ==>
      objs1[r].open == objs[r].open && objs1[r].place == objs[r].place && objs1[r].kind == objs[r].kind
    ensures OpenOk(objs1)
  {
    forall t | t in objs1
      ensures OpenListOk(objs1, t)
    {
      SameOpenList(objs, objs1, t);
    }
    hide OpenListOk;
  }

  lemma SameOpenList(objs: Objs, objs1: Objs, t: Ref)
    requires t in objs && OpenListOk(objs, t) && objs1.Keys == objs.Keys
    requires forall r :: r in objs ==>
      objs1[r].open == objs[r].open && objs1[r].place == objs[r].place && objs1[r].kind == objs[r].kind
    ensures OpenListOk(objs1, t)
  {
  }

  lemma StoreSafe(objs: Objs, mark: Marks, cur: bool, roots: seq<Value>, o: Ref, slots: seq<Value>)
    requires Safe(objs, mark, cur, roots) && Shaped(objs) && o in objs && FitsShape(objs, o, slots)
    requires SlotsFrom(mark, cur, objs[o].slots, slots)
    ensures Safe(WithSlots(objs, o, slots), mark, cur, roots)
  {
    var objs1 := WithSlots(objs, o, slots);
    assert objs1.Keys == objs.Keys;
    forall a, b | a in objs1 && Alive(mark, cur, a) && Edge(objs1, a, b)
      ensures Alive(mark, cur, b)
    {
      if a == o {
        var i :| 0 <= i < |slots| && slots[i] == Collectable(b);
        if i < |objs[o].slots| && slots[i] == objs[o].slots[i] {
          assert Edge(objs, o, b);
        }
      } else if IsOpen(objs[a]) && objs[a].place.thread == o {
        var i := objs[a].place.index;
        if i < |objs[o].slots| && slots[i] == objs[o].slots[i] {
          assert Edge(objs, a, b);
        }
      } else {
        assert Edge(objs, a, b);
      }
    }
  }

  /** Outside the propagate phase no promise depends on references. */
  lemma StorePhase(phase: Phase, objs: Objs, mark: Marks, cur: bool, gray: seq<Ref>, again: seq<Ref>,
                   strt: seq<seq<Ref>>, sweepstrgc: nat, rootgc: seq<Ref>, sweepgc: nat, start: seq<Value>,
                   o: Ref, slots: seq<Value>)
    requires PhaseOk(phase, objs, mark, cur, gray, again, strt, sweepstrgc, rootgc, sweepgc, start)
    requires phase != Propagate && o in objs
    ensures PhaseOk(phase, WithSlots(objs, o, slots), mark, cur, gray, again, strt, sweepstrgc, rootgc, sweepgc, start)
  {
    var objs1 := WithSlots(objs, o, slots);
    hide StringsSwept, IdleOk;
    if phase == SweepString || phase == Sweep {
      forall r | r in objs1 && r in mark
        ensures ColourFits(objs1[r], mark[r])
      {
        assert ColourFits(objs[r], mark[r]);
      }
    }
    if phase == Sweep {
      forall i | 0 <= i < sweepgc
        ensures RootSwept(objs1, mark, cur, rootgc[i])
      {
        assert RootSwept(objs, mark, cur, rootgc[i]);
      }
    }
  }

  /** While marking, a store puts only the object stored into in question. */
  lemma StoreMarking(objs: Objs, mark: Marks, gray: seq<Ref>, again: seq<Ref>, o: Ref, slots: seq<Value>)
    requires TriColour(objs, mark, gray, again, {}) && o in objs && FitsShape(objs, o, slots)
    ensures TriColour(WithSlots(objs, o, slots), mark, gray, again, {o})
    ensures o in mark && (mark[o] == Black ==> o !in gray && o !in again && objs[o].kind != Thread)
    ensures mark[o] != Black ==> TriColour(WithSlots(objs, o, slots), mark, gray, again, {})
    ensures mark[o] == Black ==>
      forall i :: 0 <= i < |objs[o].slots| && objs[o].slots[i].Collectable? ==> Marked(mark, objs[o].slots[i].ref)
  {
    var objs1 := WithSlots(objs, o, slots);
    assert objs1.Keys == objs.Keys;
    assert Painted(objs, mark, gray, again, o);
    forall r | r in objs1 && r != o
      ensures Painted(objs1, mark, gray, again, r)
    {
      assert Painted(objs, mark, gray, again, r);
      if !IsOpen(objs[r]) {
        SameChildren(objs, objs1, mark, r);
      }
    }
    if mark[o] == Black {
      forall i | 0 <= i < |objs[o].slots| && objs[o].slots[i].Collectable?
        ensures Marked(mark, objs[o].slots[i].ref)
      {
        assert Edge(objs, o, objs[o].slots[i].ref);
      }
    }
  }

  /** `luaC_barrierback` while marking: the table is to be traversed again. */
  lemma BackToGray(objs: Objs, mark: Marks, gray: seq<Ref>, again: seq<Ref>, o: Ref)
    requires TriColour(objs, mark, gray, again, {o}) && o in objs && objs[o].kind == Table
    requires o !in gray && o !in again && o in mark && mark[o] == Black
    ensures TriColour(objs, mark[o := Gray], gray, [o] + again, {}) && Advances(mark, mark[o := Gray])
  {
    var m := mark[o := Gray];
    forall r | r in objs
      ensures Painted(objs, m, gray, [o] + again, r)
    {
      if r != o {
        assert Painted(objs, mark, gray, again, r);
      }
    }
  }

  /** Black objects are on no gray list. */
  lemma BlackUnlisted(objs: Objs, mark: Marks, gray: seq<Ref>, again: seq<Ref>, busy: set<Ref>, o: Ref)
    requires TriColour(objs, mark, gray, again, busy) && o in mark && mark[o] == Black
    ensures o !in gray && o !in again
  {
    hide Painted;
  }

  /** A black object gives up its colour while sweeping. */
  lemma RecolourBlack(phase: Phase, objs: Objs, mark: Marks, cur: bool, gray: seq<Ref>, again: seq<Ref>,
                      gray1: seq<Ref>,
                      again1: seq<Ref>, strt: seq<seq<Ref>>, sweepstrgc: nat, rootgc: seq<Ref>, sweepgc: nat,
                      start: seq<Value>, roots: seq<Value>, o: Ref, c: Colour)
    requires PhaseOk(phase, objs, mark, cur, gray, again, strt, sweepstrgc, rootgc, sweepgc, start)
    requires phase != Propagate
    requires Safe(objs, mark, cur, roots) && o in objs && o in mark && mark[o] == Black
    requires c == White(cur) || (c == Gray && objs[o].kind == Table)
    ensures phase == SweepString || phase == Sweep
    ensures PhaseOk(phase, objs, mark[o := c], cur, gray1, again1, strt, sweepstrgc, rootgc, sweepgc, start)
    ensures Safe(objs, mark[o := c], cur, roots)
  {
    var m := mark[o := c];
    assert phase == SweepString || phase == Sweep;
    assert forall r :: Alive(mark, cur, r) <==> Alive(m, cur, r);
    forall r | r in objs && r in m
      ensures ColourFits(objs[r], m[r])
    {
      assert ColourFits(objs[r], mark[r]);
    }
    if phase == Sweep {
      forall i | 0 <= i < sweepgc
        ensures RootSwept(objs, m, cur, rootgc[i])
      {
        assert RootSwept(objs, mark, cur, rootgc[i]);
      }
    }
  }

  /** Storing one value adds at most the edge to it. */
  lemma OneNewEdge(objs: Objs, mark: Marks, o: Ref, slots: seq<Value>, v: Value)
    requires o in objs && !IsOpen(objs[o])
    requires forall i :: 0 <= i < |slots| ==> slots[i] == v || (i < |objs[o].slots| && slots[i] == objs[o].slots[i])
    requires forall i :: 0 <= i < |objs[o].slots| && objs[o].slots[i].Collectable? ==>
      Marked(mark, objs[o].slots[i].ref)
    ensures forall b :: Edge(WithSlots(objs, o, slots), o, b) ==> Marked(mark, b) || v == Collectable(b)
  {
  }

  // ----- new objects -------------------------------------------------------------------------------

  function Inserted(s: seq<Ref>, at: nat, r: Ref): seq<Ref>
    requires at <= |s|
  {
    s[..at] + [r] + s[at..]
  }

  /** Where the sweep stands after an insertion: an object put exactly at its position is still met. */
  function ShiftedAt(sweepgc: nat, at: nat): nat { if sweepgc <= at then sweepgc else sweepgc + 1 }

  /** A new object: nothing is open on it, it is not fixed, and its references are alive. */
  ghost predicate Fresh(mark: Marks, cur: bool, obj: Obj) {
    && obj.kind != String && obj.place == Closed && obj.open == [] && !obj.fixed
    && (obj.kind == Upval ==> |obj.slots| == 1) && (obj.kind == Thread ==> obj.slots != [])
    && ValuesAlive(mark, cur, obj.slots)
  }

  lemma AddGraph(objs: Objs, rootgc: seq<Ref>, strt: seq<seq<Ref>>, hash: string -> nat, uvhead: seq<Ref>,
                 mainthread: Ref, registry: Ref, running: Ref, r: Ref, obj: Obj, at: nat, mark: Marks, cur: bool)
    requires GraphOk(objs, rootgc, strt, hash, uvhead, mainthread, registry, running, {})
    requires r !in objs && Fresh(mark, cur, obj) && at <= |rootgc|
    ensures GraphOk(objs[r := obj], Inserted(rootgc, at, r), strt, hash, uvhead, mainthread, registry, running, {})
  {
    hide Shaped, RootListOk, StringsOk, OpenOk, UvheadOk, FixedOk;
    AddShape(objs, mainthread, r, obj);
    AddRootList(objs, rootgc, r, obj, at);
    AddOtherLists(objs, strt, hash, uvhead, r, obj);
    AddOpen(objs, r, obj);
  }

  lemma AddShape(objs: Objs, mainthread: Ref, r: Ref, obj: Obj)
    requires Shaped(objs) && FixedOk(objs, mainthread) && r !in objs
    requires obj.kind != String && obj.place == Closed && obj.open == [] && !obj.fixed
    requires (obj.kind == Upval ==> |obj.slots| == 1) && (obj.kind == Thread ==> obj.slots != [])
    ensures Shaped(objs[r := obj]) && FixedOk(objs[r := obj], mainthread)
  {
  }

  lemma AddRootList(objs: Objs, rootgc: seq<Ref>, r: Ref, obj: Obj, at: nat)
    requires RootListOk(objs, rootgc, {}) && r !in objs && at <= |rootgc|
    requires obj.kind != String && obj.place == Closed
    ensures RootListOk(objs[r := obj], Inserted(rootgc, at, r), {})
  {
    var list := Inserted(rootgc, at, r);
    assert r !in rootgc;
    forall x
      ensures x in list <==> x in rootgc || x == r
    {
      InsertedElement(rootgc, at, r, x);
    }
    assert NoDup(list);
  }

  lemma InsertedElement(s: seq<Ref>, at: nat, r: Ref, x: Ref)
    requires at <= |s|
    ensures x in Inserted(s, at, r) <==> x in s || x == r
  {
    assert s == s[..at] + s[at..];
  }

  lemma AddOtherLists(objs: Objs, strt: seq<seq<Ref>>, hash: string -> nat, uvhead: seq<Ref>, r: Ref, obj: Obj)
    requires StringsOk(objs, strt, hash) && UvheadOk(objs, uvhead) && r !in objs
    requires obj.kind != String && obj.place == Closed
    ensures StringsOk(objs[r := obj], strt, hash) && UvheadOk(objs[r := obj], uvhead)
  {
  }

  lemma AddOpen(objs: Objs, r: Ref, obj: Obj)
    requires OpenOk(objs) && r !in objs && obj.kind != String && obj.place == Closed && obj.open == []
    ensures OpenOk(objs[r := obj])
  {
    var objs1 := objs[r := obj];
    forall t | t in objs1
      ensures OpenListOk(objs1, t)
    {
      if t != r {
        assert OpenListOk(objs, t);
      }
    }
  }

  lemma AddSafe(objs: Objs, mark: Marks, cur: bool, roots: seq<Value>, r: Ref, obj: Obj)
    requires Safe(objs, mark, cur, roots) && Shaped(objs) && r !in objs
    requires obj.place == Closed && ValuesAlive(mark, cur, obj.slots)
    ensures Safe(objs[r := obj], mark[r := White(cur)], cur, roots)
  {
    var objs1, mark1 := objs[r := obj], mark[r := White(cur)];
    assert forall x :: Alive(mark, cur, x) ==> Alive(mark1, cur, x);
    forall a, b | a in objs1 && Alive(mark1, cur, a) && Edge(objs1, a, b)
      ensures Alive(mark1, cur, b)
    {
      if a != r {
        SameEdge(objs, objs1, r, a, b);
      }
    }
  }

  /** Adding an object leaves the references of all others as they are. */
  lemma SameEdge(objs: Objs, objs1: Objs, r: Ref, a: Ref, b: Ref)
    requires Shaped(objs) && r !in objs && a in objs && objs1.Keys == objs.Keys + {r}
    requires forall x :: x in objs ==>
      objs1[x].slots == objs[x].slots && objs1[x].kind == objs[x].kind && objs1[x].place == objs[x].place
    ensures Edge(objs, a, b) <==> Edge(objs1, a, b)
  {
  }

  lemma AddPhase(phase: Phase, objs: Objs, mark: Marks, cur: bool, gray: seq<Ref>, again: seq<Ref>,
                 strt: seq<seq<Ref>>, hash: string -> nat, sweepstrgc: nat, rootgc: seq<Ref>, sweepgc: nat,
                 start: seq<Value>, r: Ref, obj: Obj, at: nat)
    requires PhaseOk(phase, objs, mark, cur, gray, again, strt, sweepstrgc, rootgc, sweepgc, start)
    requires mark.Keys == objs.Keys && Shaped(objs) && r !in objs && at <= |rootgc| && obj.place == Closed
    requires obj.open == []
    requires OpenOk(objs) && StringsOk(objs, strt, hash)
    ensures PhaseOk(phase, objs[r := obj], mark[r := White(cur)], cur, gray, again, strt, sweepstrgc,
                    Inserted(rootgc, at, r), ShiftedAt(sweepgc, at), start)
  {
    hide StringsOk, OpenOk, Shaped, StringsSwept, RootsSwept, TriColour, ColoursFit;
    var objs1, mark1 := objs[r := obj], mark[r := White(cur)];
    if phase == Propagate {
      AddMarking(objs, objs1, mark, cur, gray, again, r);
    }
    if phase == SweepString || phase == Sweep {
      AddColours(objs, mark, cur, strt, hash, if phase == Sweep then |strt| else sweepstrgc, r, obj);
    }
    if phase == Sweep {
      AddRootsSwept(objs, mark, cur, rootgc, sweepgc, r, obj, at);
    }
  }

  lemma AddMarking(objs: Objs, objs1: Objs, mark: Marks, cur: bool, gray: seq<Ref>, again: seq<Ref>, r: Ref)
    requires Shaped(objs) && TriColour(objs, mark, gray, again, {}) && r !in objs && objs1.Keys == objs.Keys + {r}
    requires forall x :: x in objs ==>
      objs1[x].slots == objs[x].slots && objs1[x].kind == objs[x].kind && objs1[x].place == objs[x].place
    ensures TriColour(objs1, mark[r := White(cur)], gray, again, {})
  {
    var mark1 := mark[r := White(cur)];
    hide Shaped, Edge;
    forall x | x in objs1
      ensures Painted(objs1, mark1, gray, again, x)
    {
      if x != r {
        assert Painted(objs, mark, gray, again, x);
        forall b ensures Edge(objs, x, b) <==> Edge(objs1, x, b) {
          SameEdge(objs, objs1, r, x, b);
        }
        if mark[x] == Black {
          forall b | Edge(objs1, x, b)
            ensures Marked(mark1, b)
          {
            assert Marked(mark, b);
          }
        }
      }
    }
  }

  lemma AddColours(objs: Objs, mark: Marks, cur: bool, strt: seq<seq<Ref>>, hash: string -> nat, n: nat, r: Ref,
                   obj: Obj)
    requires ColoursFit(objs, mark) && StringsSwept(mark, cur, strt, n) && StringsOk(objs, strt, hash) && r !in objs
    ensures ColoursFit(objs[r := obj], mark[r := White(cur)]) && StringsSwept(mark[r := White(cur)], cur, strt, n)
  {
    var objs1, mark1 := objs[r := obj], mark[r := White(cur)];
    forall x | x in objs1 && x in mark1
      ensures ColourFits(objs1[x], mark1[x])
    {
      if x != r {
        assert x in objs && x in mark;
      }
    }
  }

  lemma AddRootsSwept(objs: Objs, mark: Marks, cur: bool, rootgc: seq<Ref>, sweepgc: nat, r: Ref, obj: Obj, at: nat)
    requires RootsSwept(objs, mark, cur, rootgc, sweepgc) && OpenOk(objs) && r !in objs && at <= |rootgc|
    requires obj.open == []
    ensures RootsSwept(objs[r := obj], mark[r := White(cur)], cur, Inserted(rootgc, at, r), ShiftedAt(sweepgc, at))
  {
    hide RootSwept, OpenOk;
    forall i | 0 <= i < ShiftedAt(sweepgc, at)
      ensures RootSwept(objs[r := obj], mark[r := White(cur)], cur, Inserted(rootgc, at, r)[i])
    {
      AddRootSwept(objs, mark, cur, rootgc, sweepgc, r, obj, at, i);
    }
  }

  lemma AddRootSwept(objs: Objs, mark: Marks, cur: bool, rootgc: seq<Ref>, sweepgc: nat, r: Ref, obj: Obj, at: nat,
                     i: nat)
    requires RootsSwept(objs, mark, cur, rootgc, sweepgc) && OpenOk(objs) && r !in objs && at <= |rootgc|
    requires obj.open == []
    requires i < ShiftedAt(sweepgc, at)
    ensures RootSwept(objs[r := obj], mark[r := White(cur)], cur, Inserted(rootgc, at, r)[i])
  {
    var list := Inserted(rootgc, at, r);
    if i != at {
      var k := if i < at then i else i - 1;
      assert list[i] == rootgc[k];
      assert RootSwept(objs, mark, cur, rootgc[k]);
      assert OpenListOk(objs, rootgc[k]);
      hide OpenOk, RootsSwept, Inserted;
    }
  }

  // ----- strings -----------------------------------------------------------------------------------

  function StringObj(text: string): Obj { Obj(String, false, [], Closed, [], text) }

  lemma AddStringGraph(objs: Objs, rootgc: seq<Ref>, strt: seq<seq<Ref>>, hash: string -> nat, uvhead: seq<Ref>,
                       mainthread: Ref, registry: Ref, running: Ref, r: Ref, text: string)
    requires GraphOk(objs, rootgc, strt, hash, uvhead, mainthread, registry, running, {})
    requires r !in objs && (forall x :: x in objs && objs[x].kind == String ==> objs[x].text != text)
    ensures |strt| > 0
    ensures var h := Bucket(hash, text, |strt|);
      GraphOk(objs[r := StringObj(text)], rootgc, strt[h := [r] + strt[h]], hash, uvhead, mainthread, registry, running, {})
  {
    hide Shaped, RootListOk, OpenOk, UvheadOk, FixedOk, StringsOk;
    AddStringLists(objs, rootgc, uvhead, mainthread, r, text);
    AddStringBuckets(objs, strt, hash, r, text);
    AddOpenString(objs, r, text);
  }

  lemma AddStringLists(objs: Objs, rootgc: seq<Ref>, uvhead: seq<Ref>, mainthread: Ref, r: Ref, text: string)
    requires Shaped(objs) && RootListOk(objs, rootgc, {}) && UvheadOk(objs, uvhead) && FixedOk(objs, mainthread)
    requires r !in objs
    ensures Shaped(objs[r := StringObj(text)]) && RootListOk(objs[r := StringObj(text)], rootgc, {})
    ensures UvheadOk(objs[r := StringObj(text)], uvhead) && FixedOk(objs[r := StringObj(text)], mainthread)
  {
  }

  lemma AddStringBuckets(objs: Objs, strt: seq<seq<Ref>>, hash: string -> nat, r: Ref, text: string)
    requires StringsOk(objs, strt, hash) && r !in objs
    requires forall x :: x in objs && objs[x].kind == String ==> objs[x].text != text
    ensures |strt| > 0
    ensures var h := Bucket(hash, text, |strt|); StringsOk(objs[r := StringObj(text)], strt[h := [r] + strt[h]], hash)
  {
    var h := Bucket(hash, text, |strt|);
    var objs1, strt1 := objs[r := StringObj(text)], strt[h := [r] + strt[h]];
    assert r !in strt[h];
    assert NoDup([r] + strt[h]);
    assert Interned(objs1) by { InternedMore(objs, r, text); }
    forall i | 0 <= i < |strt1| ensures NoDup(strt1[i]) {
      assert i != h ==> strt1[i] == strt[i];
    }
    forall i, x | 0 <= i < |strt1| && x in strt1[i]
      ensures x in objs1 && objs1[x].kind == String && Bucket(hash, objs1[x].text, |strt1|) == i
    {
      assert x == r || x in strt[i];
    }
    hide Interned, NoDup;
  }

  lemma InternedMore(objs: Objs, r: Ref, text: string)
    requires Interned(objs) && r !in objs && forall x :: x in objs && objs[x].kind == String ==> objs[x].text != text
    ensures Interned(objs[r := StringObj(text)])
  {}

  lemma AddOpenString(objs: Objs, r: Ref, text: string)
    requires OpenOk(objs) && r !in objs
    ensures OpenOk(objs[r := StringObj(text)])
  {
    var objs1 := objs[r := StringObj(text)];
    forall t | t in objs1
      ensures OpenListOk(objs1, t)
    {
      if t != r {
        assert OpenListOk(objs, t);
      }
    }
  }

  lemma AddStringPhase(phase: Phase, objs: Objs, mark: Marks, cur: bool, gray: seq<Ref>, again: seq<Ref>,
                       strt: seq<seq<Ref>>, hash: string -> nat, sweepstrgc: nat, rootgc: seq<Ref>, sweepgc: nat,
                       start: seq<Value>, r: Ref, text: string)
    requires PhaseOk(phase, objs, mark, cur, gray, again, strt, sweepstrgc, rootgc, sweepgc, start)
    requires mark.Keys == objs.Keys && Shaped(objs) && r !in objs
    requires RootListOk(objs, rootgc, {}) && StringsOk(objs, strt, hash) && OpenOk(objs)
    ensures |strt| > 0
    ensures var h := Bucket(hash, text, |strt|);
      PhaseOk(phase, objs[r := StringObj(text)], mark[r := White(cur)], cur, gray, again, strt[h := [r] + strt[h]],
              sweepstrgc, rootgc, sweepgc, start)
  {
    hide StringsOk, OpenOk, Shaped, RootListOk, StringsSwept, RootsSwept, TriColour, ColoursFit;
    var objs1, mark1 := objs[r := StringObj(text)], mark[r := White(cur)];
    StringsNonEmpty(objs, strt, hash);
    if phase == Propagate {
      AddMarking(objs, objs1, mark, cur, gray, again, r);
    }
    if phase == SweepString || phase == Sweep {
      var n := if phase == Sweep then |strt| else sweepstrgc;
      AddColours(objs, mark, cur, strt, hash, n, r, StringObj(text));
      AddStringSwept(mark1, cur, strt, n, Bucket(hash, text, |strt|), r);
    }
    if phase == Sweep {
      AddStringRootsSwept(objs, mark, cur, rootgc, sweepgc, r, text);
    }
  }

  lemma StringsNonEmpty(objs: Objs, strt: seq<seq<Ref>>, hash: string -> nat)
    requires StringsOk(objs, strt, hash)
    ensures |strt| > 0
  {
  }

  lemma AddStringSwept(mark: Marks, cur: bool, strt: seq<seq<Ref>>, n: nat, h: nat, r: Ref)
    requires StringsSwept(mark, cur, strt, n) && h < |strt| && r in mark && mark[r] == White(cur)
    ensures StringsSwept(mark, cur, strt[h := [r] + strt[h]], n)
  {
  }

  lemma AddStringRootsSwept(objs: Objs, mark: Marks, cur: bool, rootgc: seq<Ref>, sweepgc: nat, r: Ref, text: string)
    requires RootsSwept(objs, mark, cur, rootgc, sweepgc) && OpenOk(objs) && r !in objs
    ensures RootsSwept(objs[r := StringObj(text)], mark[r := White(cur)], cur, rootgc, sweepgc)
  {
    forall i | 0 <= i < sweepgc
      ensures RootSwept(objs[r := StringObj(text)], mark[r := White(cur)], cur, rootgc[i])
    {
      assert RootSwept(objs, mark, cur, rootgc[i]);
    }
  }

  /** A dead string or upvalue found by a lookup is brought back into the current white. */
  lemma Resurrect(phase: Phase, objs: Objs, mark: Marks, cur: bool, gray: seq<Ref>, again: seq<Ref>,
                  strt: seq<seq<Ref>>, sweepstrgc: nat, rootgc: seq<Ref>, sweepgc: nat, start: seq<Value>,
                  roots: seq<Value>, r: Ref)
    requires PhaseOk(phase, objs, mark, cur, gray, again, strt, sweepstrgc, rootgc, sweepgc, start)
    requires Safe(objs, mark, cur, roots) && r in objs && r in mark && mark[r] == White(!cur)
    requires forall b :: Edge(objs, r, b) ==> Alive(mark, cur, b)
    ensures PhaseOk(phase, objs, mark[r := White(cur)], cur, gray, again, strt, sweepstrgc, rootgc, sweepgc, start)
    ensures Safe(objs, mark[r := White(cur)], cur, roots)
  {
    var m := mark[r := White(cur)];
    assert phase == SweepString || phase == Sweep;
    assert forall x :: Alive(mark, cur, x) ==> Alive(m, cur, x);
    if phase == Sweep {
      forall i | 0 <= i < sweepgc
        ensures RootSwept(objs, m, cur, rootgc[i])
      {
        assert RootSwept(objs, mark, cur, rootgc[i]);
      }
    }
    assert StringsSwept(m, cur, strt, if phase == Sweep then |strt| else sweepstrgc);
  }

  // ----- fixed strings -------------------------------------------------------------------------

  /** The string `o` is never collected from now on. */
  function WithFixed(objs: Objs, o: Ref): Objs
    requires o in objs
  {
    objs[o := objs[o].(fixed := true)]
  }

  lemma FixGraph(objs: Objs, rootgc: seq<Ref>, strt: seq<seq<Ref>>, hash: string -> nat, uvhead: seq<Ref>,
                 mainthread: Ref, registry: Ref, running: Ref, o: Ref)
    requires GraphOk(objs, rootgc, strt, hash, uvhead, mainthread, registry, running, {})
    requires o in objs && objs[o].kind == String
    ensures GraphOk(WithFixed(objs, o), rootgc, strt, hash, uvhead, mainthread, registry, running, {})
  {
    hide RootListOk, StringsOk, OpenOk, UvheadOk, Shaped, FixedOk, OpenListOk;
    FixStrings(objs, strt, hash, o);
    FixOpen(objs, o);
    FixLists(objs, rootgc, uvhead, o);
    FixShape(objs, mainthread, o);
  }

  lemma FixStrings(objs: Objs, strt: seq<seq<Ref>>, hash: string -> nat, o: Ref)
    requires StringsOk(objs, strt, hash) && o in objs && objs[o].kind == String
    ensures StringsOk(WithFixed(objs, o), strt, hash)
  {
    hide StringsOk;
    StringsSame(objs, WithFixed(objs, o), strt, hash);
  }

  lemma FixLists(objs: Objs, rootgc: seq<Ref>, uvhead: seq<Ref>, o: Ref)
    requires RootListOk(objs, rootgc, {}) && UvheadOk(objs, uvhead) && o in objs && objs[o].kind == String
    ensures RootListOk(WithFixed(objs, o), rootgc, {}) && UvheadOk(WithFixed(objs, o), uvhead)
  {}

  lemma FixShape(objs: Objs, mainthread: Ref, o: Ref)
    requires Shaped(objs) && FixedOk(objs, mainthread) && o in objs && objs[o].kind == String
    ensures Shaped(WithFixed(objs, o)) && FixedOk(WithFixed(objs, o), mainthread)
  {}

  lemma FixOpen(objs: Objs, o: Ref)
    requires OpenOk(objs) && o in objs && objs[o].kind == String
    ensures OpenOk(WithFixed(objs, o))
  {
    var objs1 := WithFixed(objs, o);
    forall t | t in objs1 ensures OpenListOk(objs1, t) {
      assert OpenListOk(objs, t);
    }
  }

  lemma FixEdges(objs: Objs, o: Ref)
    requires o in objs && objs[o].kind == String
    ensures forall a, b :: a in objs ==> (Edge(WithFixed(objs, o), a, b) <==> Edge(objs, a, b))
  {}

  lemma FixKeeps(phase: Phase, objs: Objs, mark: Marks, cur: bool, gray: seq<Ref>, again: seq<Ref>,
                 strt: seq<seq<Ref>>, sweepstrgc: nat, rootgc: seq<Ref>, sweepgc: nat, start: seq<Value>,
                 roots: seq<Value>, o: Ref)
    requires PhaseOk(phase, objs, mark, cur, gray, again, strt, sweepstrgc, rootgc, sweepgc, start)
    requires Safe(objs, mark, cur, roots) && o in objs && objs[o].kind == String
    ensures PhaseOk(phase, WithFixed(objs, o), mark, cur, gray, again, strt, sweepstrgc, rootgc, sweepgc, start)
    ensures Safe(WithFixed(objs, o), mark, cur, roots)
  {
    var objs1 := WithFixed(objs, o);
    FixEdges(objs, o);
    assert objs1.Keys == objs.Keys;
    if phase == Propagate {
      FixMarking(objs, mark, gray, again, o);
    } else if phase == Sweep {
      forall i | 0 <= i < sweepgc ensures RootSwept(objs1, mark, cur, rootgc[i]) {
        assert RootSwept(objs, mark, cur, rootgc[i]);
      }
    }
    hide TriColour, RootSwept, Edge;
  }

  lemma FixMarking(objs: Objs, mark: Marks, gray: seq<Ref>, again: seq<Ref>, o: Ref)
    requires TriColour(objs, mark, gray, again, {}) && o in objs && objs[o].kind == String
    ensures TriColour(WithFixed(objs, o), mark, gray, again, {})
  {
    var objs1 := WithFixed(objs, o);
    FixEdges(objs, o);
    assert objs1.Keys == objs.Keys;
    forall r | r in objs1 ensures Painted(objs1, mark, gray, again, r) {
      assert Painted(objs, mark, gray, again, r);
    }
  }

  // ----- new open upvalues -------------------------------------------------------------------------

  function OpenUpval(t: Ref, index: nat): Obj { Obj(Upval, false, [], Open(t, index), [], "") }

  /** A new open upvalue on slot `index` of thread `t`, chained at position `at` of its list. */
  function WithUpval(objs: Objs, t: Ref, index: nat, at: nat, r: Ref): Objs
    requires t in objs && at <= |objs[t].open|
  {
    objs[t := objs[t].(open := Inserted(objs[t].open, at, r))][r := OpenUpval(t, index)]
  }

  /** Position `at` is where an upvalue on slot `index` belongs, and none is there yet. */
  ghost predicate BelongsAt(objs: Objs, t: Ref, index: nat, at: nat)
    requires t in objs
  {
    && at <= |objs[t].open|
    && (forall i :: 0 <= i < |objs[t].open| ==> objs[t].open[i] in objs && IsOpen(objs[objs[t].open[i]]))
    && (forall i :: 0 <= i < at ==> objs[objs[t].open[i]].place.index > index)
    && (forall i :: at <= i < |objs[t].open| ==> objs[objs[t].open[i]].place.index < index)
  }

  lemma AddUpvalGraph(objs: Objs, rootgc: seq<Ref>, strt: seq<seq<Ref>>, hash: string -> nat, uvhead: seq<Ref>,
                      mainthread: Ref, registry: Ref, running: Ref, t: Ref, index: nat, at: nat, r: Ref)
    requires GraphOk(objs, rootgc, strt, hash, uvhead, mainthread, registry, running, {})
    requires r !in objs && t in objs && objs[t].kind == Thread && index < |objs[t].slots|
    requires BelongsAt(objs, t, index, at)
    ensures GraphOk(WithUpval(objs, t, index, at, r), rootgc, strt, hash, [r] + uvhead, mainthread, registry, running, {})
  {
    hide Shaped, RootListOk, OpenOk, UvheadOk, FixedOk, StringsOk, BelongsAt;
    BelongsBound(objs, t, index, at);
    AddUpvalShape(objs, mainthread, t, index, at, r);
    AddUpvalLists(objs, rootgc, strt, hash, uvhead, t, index, at, r);
    AddUpvalOpen(objs, t, index, at, r);
  }

  lemma BelongsBound(objs: Objs, t: Ref, index: nat, at: nat)
    requires t in objs && BelongsAt(objs, t, index, at)
    ensures at <= |objs[t].open|
  {
  }

  lemma AddUpvalShape(objs: Objs, mainthread: Ref, t: Ref, index: nat, at: nat, r: Ref)
    requires Shaped(objs) && FixedOk(objs, mainthread) && r !in objs
    requires t in objs && objs[t].kind == Thread && index < |objs[t].slots| && at <= |objs[t].open|
    ensures Shaped(WithUpval(objs, t, index, at, r)) && FixedOk(WithUpval(objs, t, index, at, r), mainthread)
  {
  }

  lemma AddUpvalLists(objs: Objs, rootgc: seq<Ref>, strt: seq<seq<Ref>>, hash: string -> nat, uvhead: seq<Ref>,
                      t: Ref, index: nat, at: nat, r: Ref)
    requires RootListOk(objs, rootgc, {}) && StringsOk(objs, strt, hash) && UvheadOk(objs, uvhead) && r !in objs
    requires t in objs && objs[t].kind == Thread && at <= |objs[t].open|
    ensures RootListOk(WithUpval(objs, t, index, at, r), rootgc, {})
    ensures StringsOk(WithUpval(objs, t, index, at, r), strt, hash)
    ensures UvheadOk(WithUpval(objs, t, index, at, r), [r] + uvhead)
  {
    hide RootListOk, StringsOk, UvheadOk, WithUpval;
    AddUpvalRootList(objs, rootgc, t, index, at, r);
    AddUpvalStrings(objs, strt, hash, t, index, at, r);
    AddUpvalHead(objs, uvhead, t, index, at, r);
  }

  lemma AddUpvalRootList(objs: Objs, rootgc: seq<Ref>, t: Ref, index: nat, at: nat, r: Ref)
    requires RootListOk(objs, rootgc, {}) && r !in objs && t in objs && objs[t].kind == Thread && at <= |objs[t].open|
    ensures RootListOk(WithUpval(objs, t, index, at, r), rootgc, {})
  {}

  lemma AddUpvalStrings(objs: Objs, strt: seq<seq<Ref>>, hash: string -> nat, t: Ref, index: nat, at: nat, r: Ref)
    requires StringsOk(objs, strt, hash) && r !in objs && t in objs && objs[t].kind == Thread && at <= |objs[t].open|
    ensures StringsOk(WithUpval(objs, t, index, at, r), strt, hash)
  {
    hide StringsOk;
    StringsSame(objs, WithUpval(objs, t, index, at, r), strt, hash);
  }

  lemma AddUpvalHead(objs: Objs, uvhead: seq<Ref>, t: Ref, index: nat, at: nat, r: Ref)
    requires UvheadOk(objs, uvhead) && r !in objs && t in objs && objs[t].kind == Thread && at <= |objs[t].open|
    ensures UvheadOk(WithUpval(objs, t, index, at, r), [r] + uvhead)
  {
    assert r !in uvhead;
  }

  lemma AddUpvalOpen(objs: Objs, t: Ref, index: nat, at: nat, r: Ref)
    requires OpenOk(objs) && r !in objs && t in objs && BelongsAt(objs, t, index, at)
    ensures OpenOk(WithUpval(objs, t, index, at, r))
  {
    var objs1 := WithUpval(objs, t, index, at, r);
    forall x | x in objs1
      ensures OpenListOk(objs1, x)
    {
      AddUpvalOpenOne(objs, t, index, at, r, x);
    }
    forall u | u in objs1 && IsOpen(objs1[u])
      ensures objs1[u].place.thread in objs1 && u in objs1[objs1[u].place.thread].open
    {
      InsertedElement(objs[t].open, at, r, u);
      if u != r {
        assert u in objs && IsOpen(objs[u]);
      }
    }
  }

  lemma AddUpvalOpenOne(objs: Objs, t: Ref, index: nat, at: nat, r: Ref, x: Ref)
    requires OpenOk(objs) && r !in objs && t in objs && BelongsAt(objs, t, index, at)
    requires x in WithUpval(objs, t, index, at, r)
    ensures OpenListOk(WithUpval(objs, t, index, at, r), x)
  {
    if x == t {
      AddUpvalOwnList(objs, t, index, at, r);
    } else if x != r {
      assert OpenListOk(objs, x);
    }
  }

  lemma AddUpvalOwnList(objs: Objs, t: Ref, index: nat, at: nat, r: Ref)
    requires OpenOk(objs) && r !in objs && t in objs && BelongsAt(objs, t, index, at)
    ensures t in WithUpval(objs, t, index, at, r) && OpenListOk(WithUpval(objs, t, index, at, r), t)
  {
    assert OpenListOk(objs, t);
    hide OpenOk;
    var objs1 := WithUpval(objs, t, index, at, r);
    forall u | u in objs1[t].open
      ensures u in objs1 && IsOpen(objs1[u]) && objs1[u].place.thread == t
    {
      InsertedElement(objs[t].open, at, r, u);
    }
    OwnIndexes(objs, t, index, at, r);
    hide IsOpen, WithUpval, BelongsAt;
    IndexesDescend(objs, objs[t].open, index, at);
  }

  lemma OwnIndexes(objs: Objs, t: Ref, index: nat, at: nat, r: Ref)
    requires t in objs && OpenListOk(objs, t) && r !in objs && BelongsAt(objs, t, index, at)
    ensures var objs1 := WithUpval(objs, t, index, at, r);
      t in objs1 && |objs1[t].open| == |objs[t].open| + 1 &&
      forall i :: 0 <= i < |objs1[t].open| ==>
        && objs1[t].open[i] in objs1 && objs1[objs1[t].open[i]].place.Open?
        && objs1[objs1[t].open[i]].place.index == IndexAfter(objs, objs[t].open, index, at, i)
  {
    var objs1, before := WithUpval(objs, t, index, at, r), objs[t].open;
    forall i | 0 <= i < |objs1[t].open|
      ensures objs1[t].open[i] in objs1 && objs1[objs1[t].open[i]].place.Open?
      ensures objs1[objs1[t].open[i]].place.index == IndexAfter(objs, before, index, at, i)
    {
      assert objs1[t].open[i] == if i < at then before[i] else if i == at then r else before[i - 1];
    }
  }

  function IndexAfter(objs: Objs, before: seq<Ref>, index: nat, at: nat, i: nat): nat
    requires at <= |before| && i <= |before|
    requires forall k :: 0 <= k < |before| ==> before[k] in objs && objs[before[k]].place.Open?
  {
    if i < at then objs[before[i]].place.index else if i == at then index else objs[before[i - 1]].place.index
  }

  lemma IndexesDescend(objs: Objs, before: seq<Ref>, index: nat, at: nat)
    requires at <= |before|
    requires forall k :: 0 <= k < |before| ==> before[k] in objs && objs[before[k]].place.Open?
    requires forall i, j :: 0 <= i < j < |before| ==> objs[before[i]].place.index > objs[before[j]].place.index
    requires forall i :: 0 <= i < at ==> objs[before[i]].place.index > index
    requires forall i :: at <= i < |before| ==> objs[before[i]].place.index < index
    ensures forall i, j :: 0 <= i < j <= |before| ==>
      IndexAfter(objs, before, index, at, i) > IndexAfter(objs, before, index, at, j)
  {
  }

  lemma AddUpvalSafe(objs: Objs, mark: Marks, cur: bool, roots: seq<Value>, t: Ref, index: nat, at: nat, r: Ref)
    requires Safe(objs, mark, cur, roots) && Shaped(objs) && r !in objs
    requires t in objs && objs[t].kind == Thread && index < |objs[t].slots| && at <= |objs[t].open|
    requires Alive(mark, cur, t)
    ensures Safe(WithUpval(objs, t, index, at, r), mark[r := White(cur)], cur, roots)
  {
    var objs1, mark1 := WithUpval(objs, t, index, at, r), mark[r := White(cur)];
    assert objs1.Keys == objs.Keys + {r};
    assert forall x :: Alive(mark, cur, x) ==> Alive(mark1, cur, x);
    forall a, b | a in objs1 && Alive(mark1, cur, a) && Edge(objs1, a, b)
      ensures Alive(mark1, cur, b)
    {
      if a != r {
        SameEdge(objs, objs1, r, a, b);
      } else {
        assert Edge(objs, t, b);
      }
    }
  }

  lemma AddUpvalPhase(phase: Phase, objs: Objs, mark: Marks, cur: bool, gray: seq<Ref>, again: seq<Ref>,
                      strt: seq<seq<Ref>>, hash: string -> nat, sweepstrgc: nat, rootgc: seq<Ref>, sweepgc: nat,
                      start: seq<Value>, t: Ref, index: nat, at: nat, r: Ref)
    requires PhaseOk(phase, objs, mark, cur, gray, again, strt, sweepstrgc, rootgc, sweepgc, start)
    requires mark.Keys == objs.Keys && Shaped(objs) && StringsOk(objs, strt, hash) && r !in objs && OpenOk(objs)
    requires t in objs && objs[t].kind == Thread && at <= |objs[t].open|
    ensures PhaseOk(phase, WithUpval(objs, t, index, at, r), mark[r := White(cur)], cur, gray, again, strt, sweepstrgc,
                    rootgc, sweepgc, start)
  {
    hide StringsOk, Shaped, StringsSwept, RootsSwept, TriColour, ColoursFit, OpenOk;
    var objs1, mark1 := WithUpval(objs, t, index, at, r), mark[r := White(cur)];
    assert objs1.Keys == objs.Keys + {r};
    if phase == Propagate {
      AddMarking(objs, objs1, mark, cur, gray, again, r);
    }
    if phase == SweepString || phase == Sweep {
      AddUpvalColours(objs, mark, cur, strt, hash, if phase == Sweep then |strt| else sweepstrgc, t, index, at, r);
    }
    if phase == Sweep {
      AddUpvalRootsSwept(objs, mark, cur, rootgc, sweepgc, t, index, at, r);
    }
  }

  lemma AddUpvalColours(objs: Objs, mark: Marks, cur: bool, strt: seq<seq<Ref>>, hash: string -> nat, n: nat,
                        t: Ref, index: nat, at: nat, r: Ref)
    requires ColoursFit(objs, mark) && StringsSwept(mark, cur, strt, n) && StringsOk(objs, strt, hash) && r !in objs
    requires t in objs && at <= |objs[t].open|
    ensures ColoursFit(WithUpval(objs, t, index, at, r), mark[r := White(cur)])
    ensures StringsSwept(mark[r := White(cur)], cur, strt, n)
  {
    var objs1, mark1 := WithUpval(objs, t, index, at, r), mark[r := White(cur)];
    forall x | x in objs1 && x in mark1
      ensures ColourFits(objs1[x], mark1[x])
    {
      if x != r {
        assert x in objs && x in mark && ColourFits(objs[x], mark[x]);
      }
    }
  }

  lemma AddUpvalRootsSwept(objs: Objs, mark: Marks, cur: bool, rootgc: seq<Ref>, sweepgc: nat,
                           t: Ref, index: nat, at: nat, r: Ref)
    requires RootsSwept(objs, mark, cur, rootgc, sweepgc) && OpenOk(objs) && r !in objs
    requires t in objs && at <= |objs[t].open|
    ensures RootsSwept(WithUpval(objs, t, index, at, r), mark[r := White(cur)], cur, rootgc, sweepgc)
  {
    var objs1, mark1 := WithUpval(objs, t, index, at, r), mark[r := White(cur)];
    forall i | 0 <= i < sweepgc
      ensures RootSwept(objs1, mark1, cur, rootgc[i])
    {
      var x := rootgc[i];
      assert RootSwept(objs, mark, cur, x);
      forall u | u in objs1[x].open && u in mark1
        ensures mark1[u] == White(cur)
      {
        if x == t {
          InsertedElement(objs[t].open, at, r, u);
        }
        OpenElements(objs, x);
      }
    }
  }

  lemma AdvancesRefl(mark: Marks)
    ensures Advances(mark, mark)
  {
  }

  lemma StoreSlotsFrom(objs: Objs, mark: Marks, cur: bool, o: Ref, slots: seq<Value>, v: Value)
    requires o in objs && (v.Collectable? ==> Alive(mark, cur, v.ref))
    requires forall i :: 0 <= i < |slots| ==> slots[i] == v || (i < |objs[o].slots| && slots[i] == objs[o].slots[i])
    ensures SlotsFrom(mark, cur, objs[o].slots, slots)
  {
  }

  /** What a store while marking leaves to be done. */
  lemma StoreMarkingReady(objs: Objs, mark: Marks, cur: bool, gray: seq<Ref>, again: seq<Ref>, roots: seq<Value>,
                          o: Ref, slots: seq<Value>, v: Value)
    requires TriColour(objs, mark, gray, again, {}) && o in objs && FitsShape(objs, o, slots)
    requires forall r :: r in mark ==> mark[r] != White(!cur)
    requires Safe(WithSlots(objs, o, slots), mark, cur, roots)
    requires v.Collectable? ==> Alive(mark, cur, v.ref)
    requires forall i :: 0 <= i < |slots| ==> slots[i] == v || (i < |objs[o].slots| && slots[i] == objs[o].slots[i])
    ensures o in mark && (v.Collectable? ==> v.ref in mark && v.ref in WithSlots(objs, o, slots))
    ensures NoDangling(WithSlots(objs, o, slots))
    ensures mark[o] != Black ==> TriColour(WithSlots(objs, o, slots), mark, gray, again, {})
    ensures mark[o] == Black ==>
      && TriColour(WithSlots(objs, o, slots), mark, gray, again, {o}) && o !in gray && o !in again
      && objs[o].kind != String && objs[o].kind != Thread && !IsOpen(WithSlots(objs, o, slots)[o])
      && (forall b :: Edge(WithSlots(objs, o, slots), o, b) ==> Marked(mark, b) || v == Collectable(b))
      && ((v.Collectable? ==> Marked(mark, v.ref)) ==> ChildrenMarked(WithSlots(objs, o, slots), mark, o))
  {
    hide TriColour, Safe, NoDangling;
    StoreMarking(objs, mark, gray, again, o, slots);
    AllAlive(WithSlots(objs, o, slots), mark, cur, roots);
    SafeKeys(WithSlots(objs, o, slots), mark, cur, roots);
    if mark[o] == Black {
      OneNewEdge(objs, mark, o, slots, v);
    }
  }

  lemma AdvancesAlive(m0: Marks, m1: Marks, cur: bool)
    requires Advances(m0, m1)
    ensures forall r :: Alive(m0, cur, r) ==> Alive(m1, cur, r)
  {
    forall r | Alive(m0, cur, r)
      ensures Alive(m1, cur, r)
    {
      assert Marked(m0, r) || IsWhite(m0, r);
    }
  }

  lemma ValuesOfAlive(objs: Objs, mark: Marks, cur: bool, roots: seq<Value>, o: Ref)
    requires Safe(objs, mark, cur, roots) && Shaped(objs) && o in objs && Alive(mark, cur, o)
    ensures ValuesAlive(mark, cur, if objs[o].kind == Upval then [ValueOf(objs, o)] else objs[o].slots)
  {
    var vs := if objs[o].kind == Upval then [ValueOf(objs, o)] else objs[o].slots;
    forall v | v in vs && v.Collectable?
      ensures Alive(mark, cur, v.ref)
    {
      assert Edge(objs, o, v.ref);
    }
  }

  lemma ThreadSlotsFit(objs: Objs, t: Ref, slots: seq<Value>)
    requires Shaped(objs) && t in objs && objs[t].kind == Thread && |slots| >= |objs[t].slots|
    ensures FitsShape(objs, t, slots)
  {
    forall u | u in objs && IsOpen(objs[u]) && objs[u].place.thread == t
      ensures objs[u].place.index < |objs[t].slots|
    {
      assert PointsInto(objs, u);
    }
  }

  lemma UpvalTarget(objs: Objs, u: Ref)
    requires Shaped(objs) && u in objs && IsOpen(objs[u])
    ensures PointsInto(objs, u)
  {
  }

  lemma FieldFits(objs: Objs, o: Ref, slots: seq<Value>)
    requires Shaped(objs) && o in objs && objs[o].kind != String && !IsOpen(objs[o])
    requires |slots| >= |objs[o].slots| && (objs[o].kind == Upval ==> |slots| == |objs[o].slots|)
    ensures FitsShape(objs, o, slots)
  {
    forall u | u in objs && IsOpen(objs[u]) && objs[u].place.thread == o
      ensures objs[u].place.index < |slots|
    {
      assert PointsInto(objs, u);
    }
  }

  /** A new object, linked and in the current white, in terms of the whole state. */
  lemma AddKeeps(phase: Phase, objs: Objs, mark: Marks, cur: bool, gray: seq<Ref>, again: seq<Ref>,
                 strt: seq<seq<Ref>>, hash: string -> nat, sweepstrgc: nat, rootgc: seq<Ref>, sweepgc: nat,
                 uvhead: seq<Ref>, mainthread: Ref, registry: Ref, running: Ref, start: seq<Value>, roots: seq<Value>,
                 r: Ref, obj: Obj, at: nat)
    requires GraphOk(objs, rootgc, strt, hash, uvhead, mainthread, registry, running, {})
    requires Safe(objs, mark, cur, roots)
    requires PhaseOk(phase, objs, mark, cur, gray, again, strt, sweepstrgc, rootgc, sweepgc, start)
    requires r !in objs && Fresh(mark, cur, obj) && at <= |rootgc|
    ensures GraphOk(objs[r := obj], Inserted(rootgc, at, r), strt, hash, uvhead, mainthread, registry, running, {})
    ensures Safe(objs[r := obj], mark[r := White(cur)], cur, roots)
    ensures PhaseOk(phase, objs[r := obj], mark[r := White(cur)], cur, gray, again, strt, sweepstrgc,
                    Inserted(rootgc, at, r), ShiftedAt(sweepgc, at), start)
  {
    hide Safe, PhaseOk, RootListOk, StringsOk, OpenOk, UvheadOk, FixedOk, Shaped, Inserted, ShiftedAt;
    SafeKeys(objs, mark, cur, roots);
    AddGraph(objs, rootgc, strt, hash, uvhead, mainthread, registry, running, r, obj, at, mark, cur);
    AddSafe(objs, mark, cur, roots, r, obj);
    AddPhase(phase, objs, mark, cur, gray, again, strt, hash, sweepstrgc, rootgc, sweepgc, start, r, obj, at);
  }

  lemma StringHasNoEdge(objs: Objs, o: Ref)
    requires Shaped(objs) && o in objs && objs[o].kind == String
    ensures forall b :: !Edge(objs, o, b)
  {
  }

  lemma AddStringKeeps(phase: Phase, objs: Objs, mark: Marks, cur: bool, gray: seq<Ref>, again: seq<Ref>,
                       strt: seq<seq<Ref>>, hash: string -> nat, sweepstrgc: nat, rootgc: seq<Ref>, sweepgc: nat,
                       uvhead: seq<Ref>, mainthread: Ref, registry: Ref, running: Ref, start: seq<Value>,
                       roots: seq<Value>,
                       r: Ref, text: string)
    requires GraphOk(objs, rootgc, strt, hash, uvhead, mainthread, registry, running, {})
    requires Safe(objs, mark, cur, roots)
    requires PhaseOk(phase, objs, mark, cur, gray, again, strt, sweepstrgc, rootgc, sweepgc, start)
    requires r !in objs && (forall x :: x in objs && objs[x].kind == String ==> objs[x].text != text)
    ensures |strt| > 0
    ensures var h := Bucket(hash, text, |strt|);
      var objs1, mark1, strt1 := objs[r := StringObj(text)], mark[r := White(cur)], strt[h := [r] + strt[h]];
      && GraphOk(objs1, rootgc, strt1, hash, uvhead, mainthread, registry, running, {})
      && Safe(objs1, mark1, cur, roots)
      && PhaseOk(phase, objs1, mark1, cur, gray, again, strt1, sweepstrgc, rootgc, sweepgc, start)
  {
    hide Safe, PhaseOk, RootListOk, StringsOk, OpenOk, UvheadOk, FixedOk, Shaped;
    SafeKeys(objs, mark, cur, roots);
    AddStringGraph(objs, rootgc, strt, hash, uvhead, mainthread, registry, running, r, text);
    AddSafe(objs, mark, cur, roots, r, StringObj(text));
    AddStringPhase(phase, objs, mark, cur, gray, again, strt, hash, sweepstrgc, rootgc, sweepgc, start, r, text);
  }

  lemma AddUpvalKeeps(phase: Phase, objs: Objs, mark: Marks, cur: bool, gray: seq<Ref>, again: seq<Ref>,
                      strt: seq<seq<Ref>>, hash: string -> nat, sweepstrgc: nat, rootgc: seq<Ref>, sweepgc: nat,
                      uvhead: seq<Ref>, mainthread: Ref, registry: Ref, running: Ref, start: seq<Value>,
                      roots: seq<Value>,
                      index: nat, at: nat, r: Ref)
    requires GraphOk(objs, rootgc, strt, hash, uvhead, mainthread, registry, running, {})
    requires Safe(objs, mark, cur, roots)
    requires PhaseOk(phase, objs, mark, cur, gray, again, strt, sweepstrgc, rootgc, sweepgc, start)
    requires r !in objs && Alive(mark, cur, running) && index < |objs[running].slots|
    requires BelongsAt(objs, running, index, at)
    ensures at <= |objs[running].open|
    ensures var objs1, mark1 := WithUpval(objs, running, index, at, r), mark[r := White(cur)];
      && GraphOk(objs1, rootgc, strt, hash, [r] + uvhead, mainthread, registry, running, {})
      && Safe(objs1, mark1, cur, roots)
      && PhaseOk(phase, objs1, mark1, cur, gray, again, strt, sweepstrgc, rootgc, sweepgc, start)
  {
    hide Safe, PhaseOk, RootListOk, StringsOk, OpenOk, UvheadOk, FixedOk, Shaped, BelongsAt;
    SafeKeys(objs, mark, cur, roots);
    BelongsBound(objs, running, index, at);
    AddUpvalGraph(objs, rootgc, strt, hash, uvhead, mainthread, registry, running, running, index, at, r);
    AddUpvalSafe(objs, mark, cur, roots, running, index, at, r);
    AddUpvalPhase(phase, objs, mark, cur, gray, again, strt, hash, sweepstrgc, rootgc, sweepgc, start, running, index,
                  at, r);
  }

  /** An open upvalue reads a slot of its thread's stack. */
  lemma OpenUpvalEdge(objs: Objs, u: Ref, t: Ref, b: Ref)
    requires Shaped(objs) && u in objs && IsOpen(objs[u]) && objs[u].place.thread == t && Edge(objs, u, b)
    ensures t in objs && Edge(objs, t, b)
  {
    assert PointsInto(objs, u);
  }

  lemma PopFits(objs: Objs, t: Ref, n: nat)
    requires t in objs && objs[t].kind == Thread && 0 < n < |objs[t].slots|
    requires forall u :: u in objs && IsOpen(objs[u]) && objs[u].place.thread == t ==> objs[u].place.index < n
    ensures FitsShape(objs, t, objs[t].slots[..n])
  {
  }

  ghost predicate NoneOn(objs: Objs, t: Ref, index: nat) {
    forall u :: u in objs && objs[u].kind == Upval ==> objs[u].place != Open(t, index)
  }
}
