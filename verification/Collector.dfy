module Collector {
  import opened GcHeap
  import opened GcSafety
  import opened GcMutator
  import opened GcProgram

  /** `MINSTRTABSIZE` */
  const MINSTRTABSIZE: nat := 32

  const NUM_TAGS: nat := 9

  const GCSWEEPMAX: nat := 40

  /** The objects of a new state. */
  function Newborn(main: Ref, globals: Ref, registry: Ref): Objs {
    map[main := Obj(Thread, true, [Collectable(globals), Plain], Closed, [], ""),
        globals := Obj(Table, false, [], Closed, [], ""),
        registry := Obj(Table, false, [], Closed, [], "")]
  }

  lemma NewbornOk(hash: string -> nat, main: Ref, globals: Ref, registry: Ref, strt: seq<seq<Ref>>)
    requires main != globals && globals != registry && registry != main
    requires |strt| > 0 && forall i :: 0 <= i < |strt| ==> strt[i] == []
    ensures GraphOk(Newborn(main, globals, registry), [registry, globals, main], strt, hash, [], main, registry, main, {})
  {
    hide RootListOk, StringsOk, OpenOk, UvheadOk, Shaped, FixedOk;
    NewbornShape(main, globals, registry);
    NewbornLists(main, globals, registry);
    NewbornStrings(hash, main, globals, registry, strt);
  }

  lemma NewbornShape(main: Ref, globals: Ref, registry: Ref)
    requires main != globals && globals != registry && registry != main
    ensures Shaped(Newborn(main, globals, registry)) && FixedOk(Newborn(main, globals, registry), main)
  {}

  lemma NewbornLists(main: Ref, globals: Ref, registry: Ref)
    requires main != globals && globals != registry && registry != main
    ensures RootListOk(Newborn(main, globals, registry), [registry, globals, main], {})
    ensures OpenOk(Newborn(main, globals, registry)) && UvheadOk(Newborn(main, globals, registry), [])
  {}

  lemma NewbornStrings(hash: string -> nat, main: Ref, globals: Ref, registry: Ref, strt: seq<seq<Ref>>)
    requires |strt| > 0 && forall i :: 0 <= i < |strt| ==> strt[i] == []
    ensures StringsOk(Newborn(main, globals, registry), strt, hash)
  {}

  lemma NewbornSafe(main: Ref, globals: Ref, registry: Ref, mark: Marks, roots: seq<Value>)
    requires main != globals && globals != registry && registry != main
    requires mark.Keys == {main, globals, registry} && forall r :: r in mark ==> mark[r] == White(false)
    requires forall v :: v in roots && v.Collectable? ==> v.ref in mark
    ensures Safe(Newborn(main, globals, registry), mark, false, roots)
  {
    var objs := Newborn(main, globals, registry);
    assert objs.Keys == mark.Keys;
    assert objs[main].slots[0] == Collectable(globals);
  }

  class GlobalState {
    var objs: Objs
    var mark: Marks
    var currentwhite: bool
    var phase: Phase
    var gray: seq<Ref>
    var grayagain: seq<Ref>
    var uvhead: seq<Ref>
    var strt: seq<seq<Ref>>
    var sweepstrgc: nat
    var rootgc: seq<Ref>
    var sweepgc: nat
    var mainthread: Ref
    var registry: Ref
    var running: Ref
    var mt: seq<Value>
    const hash: string -> nat

    /** `lua_newstate`: the main thread, which is fixed, with its table of globals and the function entry of its
      * stack; the registry; and an empty string table. */
    constructor (hash: string -> nat, main: Ref, globals: Ref, registry: Ref)
      requires main != globals && globals != registry && registry != main
      ensures Valid() && phase == Pause && mainthread == running == main && this.registry == registry
      ensures objs == Newborn(main, globals, registry) && |mt| == NUM_TAGS && this.hash == hash
    {
      hide GraphOk, Safe, Newborn;
      objs := Newborn(main, globals, registry);
      currentwhite := false;
      mark := map[main := White(false), globals := White(false), registry := White(false)];
      phase, gray, grayagain, uvhead := Pause, [], [], [];
      strt, sweepstrgc := seq(MINSTRTABSIZE, _ => []), 0;
      rootgc, sweepgc := [registry, globals, main], 0;
      mainthread, running, this.registry := main, main, registry;
      mt := seq(NUM_TAGS, _ => Plain);
      this.hash := hash;
      new;
      NewbornOk(hash, main, globals, registry, strt);
      NewbornSafe(main, globals, registry, mark, Roots());
    }

    method ReallyMarkObject(o: Ref, ghost busy: set<Ref>, ghost among: set<Ref>)
      requires Shaped(objs) && NoDangling(objs) && TriColour(objs, mark, gray, grayagain, busy)
      requires IsWhite(mark, o) && o in objs && (forall b :: b in busy ==> Marked(mark, b))
      requires o in among && EdgeClosed(objs, among)
      modifies this`mark, this`gray
      ensures Marked(mark, o)
      ensures MarkStep(objs, old(mark), old(gray), mark, gray, grayagain, busy, among)
      decreases Whites(mark), 0, 0
    {
      hide Shaped, NoDangling, TriColour, EdgeClosed, MarkStep, Inside, ValuesMarked;
      FieldsInside(objs, among, o);
      match objs[o].kind {
        case String =>
          VisitString(objs, mark, gray, grayagain, busy, among, o);
          mark := mark[o := Gray];
        case Userdata =>
          Begin(objs, mark, gray, grayagain, busy, o, Black);
          mark := mark[o := Black];
          MarkValues(objs[o].slots, busy + {o}, among);
          VisitUserdata(objs, old(mark), old(gray), mark, gray, grayagain, busy, among, o);
        case Upval =>
          Begin(objs, mark, gray, grayagain, busy, o, Gray);
          mark := mark[o := Gray];
          MarkValues([ValueOf(objs, o)], busy + {o}, among);
          VisitUpval(objs, old(mark), old(gray), mark, gray, grayagain, busy, among, o);
          if objs[o].place.Closed? {
            mark := mark[o := Black];
          }
        case _ =>
          PushGray(objs, mark, gray, grayagain, busy, among, o);
          mark := mark[o := Gray];
          gray := [o] + gray;
      }
    }

    method MarkValues(vs: seq<Value>, ghost busy: set<Ref>, ghost among: set<Ref>)
      requires Shaped(objs) && NoDangling(objs) && TriColour(objs, mark, gray, grayagain, busy)
      requires forall b :: b in busy ==> Marked(mark, b)
      requires EdgeClosed(objs, among) && Inside(objs, vs, among)
      modifies this`mark, this`gray
      ensures ValuesMarked(mark, vs)
      ensures MarkStep(objs, old(mark), old(gray), mark, gray, grayagain, busy, among)
      decreases Whites(mark), 1, |vs|
    {
      hide Shaped, NoDangling, TriColour, EdgeClosed, MarkStep;
      MarkStepRefl(objs, mark, gray, grayagain, busy, among);
      for i := 0 to |vs|
        invariant forall k :: 0 <= k < i && vs[k].Collectable? ==> Marked(mark, vs[k].ref)
        invariant MarkStep(objs, old(mark), old(gray), mark, gray, grayagain, busy, among)
      {
        MarkStepParts(objs, old(mark), old(gray), mark, gray, grayagain, busy, among);
        if vs[i].Collectable? {
          assert vs[i] in vs;
          InMarks(objs, mark, gray, grayagain, busy, vs[i].ref);
          if mark[vs[i].ref].White? {
            ghost var m, g := mark, gray;
            ReallyMarkObject(vs[i].ref, busy, among);
            MarkStepParts(objs, m, g, mark, gray, grayagain, busy, among);
            MarkStepTrans(objs, old(mark), old(gray), m, g, mark, gray, grayagain, busy, among);
          }
        }
      }
    }

    method PropagateMark(ghost among: set<Ref>)
      requires Marking(objs, mark, gray, grayagain, among) && gray != []
      modifies this`mark, this`gray, this`grayagain
      ensures Marking(objs, mark, gray, grayagain, among) && Marched(objs, old(mark), old(grayagain), mark, grayagain)
      ensures |Whites(mark)| + |gray| < |Whites(old(mark))| + |old(gray)|
    {
      hide Shaped, NoDangling, TriColour, EdgeClosed, MarkStep, Progress, GrayUpvalsDone, AgainDone, ChildrenMarked,
        MarkedInside;
      var o := gray[0];
      TakeGray(objs, mark, gray, grayagain, among);
      mark := mark[o := Black];
      gray := gray[1..];
      if objs[o].kind == Thread {
        grayagain := [o] + grayagain;
        mark := mark[o := Gray];
        assert mark == old(mark);
        TraverseFields(o, {}, among);
        AgainDoneMore(objs, old(mark), mark, old(grayagain), o);
      } else {
        TraverseFields(o, {o}, among);
        DoneGray(objs, old(mark), mark, gray, grayagain, o);
      }
    }

    /** Marks everything `o` refers to. */
    method TraverseFields(o: Ref, ghost busy: set<Ref>, ghost among: set<Ref>)
      requires Shaped(objs) && NoDangling(objs) && TriColour(objs, mark, gray, grayagain, busy)
      requires EdgeClosed(objs, among) && MarkedInside(mark, among)
      requires forall b :: b in busy ==> Marked(mark, b)
      requires o in objs && o in among && ListKind(objs[o].kind)
      modifies this`mark, this`gray
      ensures TriColour(objs, mark, gray, grayagain, busy)
      ensures ChildrenMarked(objs, mark, o) && MarkedInside(mark, among) && Progress(objs, old(mark), mark)
      ensures GrayUpvalsDone(objs, old(mark), busy) ==> GrayUpvalsDone(objs, mark, busy)
      ensures AgainDone(objs, old(mark), grayagain) ==> AgainDone(objs, mark, grayagain)
      ensures forall b :: b in busy ==> mark[b] == old(mark)[b]
      ensures |Whites(mark)| + |gray| <= |Whites(old(mark))| + |old(gray)|
    {
      hide Shaped, NoDangling, TriColour, EdgeClosed, MarkStep, Progress, GrayUpvalsDone, AgainDone, ChildrenMarked,
        MarkedInside, Inside, ValuesMarked;
      FieldsInside(objs, among, o);
      MarkValues(objs[o].slots, busy, among);
      FieldsMarked(objs, mark, o);
      MarkStepIsProgress(objs, old(mark), old(gray), mark, gray, grayagain, busy, among);
      MarkStepParts(objs, old(mark), old(gray), mark, gray, grayagain, busy, among);
    }

    method PropagateAll(ghost among: set<Ref>)
      requires Marking(objs, mark, gray, grayagain, among)
      modifies this`mark, this`gray, this`grayagain
      ensures Marking(objs, mark, gray, grayagain, among) && gray == []
      ensures Marched(objs, old(mark), old(grayagain), mark, grayagain)
    {
      hide Marking, Marched;
      MarchedRefl(objs, mark, grayagain);
      while gray != []
        invariant Marking(objs, mark, gray, grayagain, among)
        invariant Marched(objs, old(mark), old(grayagain), mark, grayagain)
        decreases |Whites(mark)| + |gray|
      {
        ghost var m, a := mark, grayagain;
        PropagateMark(among);
        MarchedTrans(objs, old(mark), old(grayagain), m, a, mark, grayagain);
      }
    }

    method RemarkUpvals(ghost among: set<Ref>)
      requires Marking(objs, mark, gray, grayagain, among)
      requires UvheadOk(objs, uvhead)
      modifies this`mark, this`gray
      ensures Marking(objs, mark, gray, grayagain, among) && Progress(objs, old(mark), mark)
      ensures GrayUpvalsDone(objs, mark, {})
    {
      hide Shaped, NoDangling, TriColour, EdgeClosed, Progress, GrayUpvalsDone, ChildrenMarked, MarkStep,
        MarkedInside, Inside, ValuesMarked, NewUpvalsDone;
      ProgressRefl(objs, mark);
      NewUpvalsRefl(objs, mark);
      AllInMarks(objs, mark, gray, grayagain);
      for i := 0 to |uvhead|
        invariant Marking(objs, mark, gray, grayagain, among) && Progress(objs, old(mark), mark)
        invariant mark.Keys == objs.Keys
        invariant NewUpvalsDone(objs, old(mark), mark, {})
        invariant forall k :: 0 <= k < i && mark[uvhead[k]] == Gray ==> ChildrenMarked(objs, mark, uvhead[k])
      {
        var uv := uvhead[i];
        if mark[uv] == Gray {
          ghost var m, g := mark, gray;
          InAmong(mark, among, uv);
          FieldsInside(objs, among, uv);
          MarkValues([ValueOf(objs, uv)], {}, among);
          FieldsMarked(objs, mark, uv);
          MarkStepParts(objs, m, g, mark, gray, grayagain, {}, among);
          MarkStepIsProgress(objs, m, g, mark, gray, grayagain, {}, among);
          RemarkStep(objs, old(mark), m, g, mark, gray, grayagain, among, uvhead, i);
        }
      }
      RemarkEnd(objs, old(mark), mark, uvhead);
    }

    /** Marks values other than those of an object under way: the roots. */
    method MarkRoots(vs: seq<Value>, ghost among: set<Ref>)
      requires Marking(objs, mark, gray, grayagain, among) && Inside(objs, vs, among)
      modifies this`mark, this`gray
      ensures Marking(objs, mark, gray, grayagain, among) && Marched(objs, old(mark), grayagain, mark, grayagain)
      ensures ValuesMarked(mark, vs)
    {
      hide Shaped, NoDangling, TriColour, EdgeClosed, Progress, GrayUpvalsDone, AgainDone, MarkStep,
        MarkedInside, Inside, ValuesMarked;
      MarkValues(vs, {}, among);
      MarkStepParts(objs, old(mark), old(gray), mark, gray, grayagain, {}, among);
      MarkStepIsProgress(objs, old(mark), old(gray), mark, gray, grayagain, {}, among);
    }

    /** What the collector starts from: the main thread, the registry, the running thread and the
      * metatables of the basic types. */
    function Roots(): (r: seq<Value>)
      reads this`mainthread, this`registry, this`running, this`mt
    {
      [Collectable(mainthread), Collectable(registry), Collectable(running)] + mt
    }

    lemma RootMembers()
      ensures Collectable(mainthread) in Roots() && Collectable(registry) in Roots() && Collectable(running) in Roots()
    {
      var roots := Roots();
      assert roots[0] in roots && roots[1] in roots && roots[2] in roots;
    }

    method MarkRoot(ghost among: set<Ref>)
      requires Shaped(objs) && NoDangling(objs) && EdgeClosed(objs, among)
      requires mark.Keys == objs.Keys && (forall r :: r in mark ==> mark[r].White?)
      requires Inside(objs, Roots(), among) && mainthread in objs && objs[mainthread].kind == Thread
      modifies this`mark, this`gray, this`grayagain, this`phase
      ensures Marking(objs, mark, gray, grayagain, among) && phase == Propagate && Progress(objs, old(mark), mark)
      ensures ValuesMarked(mark, [Collectable(mainthread), Collectable(registry)])
    {
      hide Shaped, NoDangling, TriColour, EdgeClosed, Progress, GrayUpvalsDone, AgainDone, MarkedInside,
        Inside, ValuesMarked;
      gray, grayagain := [], [];
      FreshCycle(objs, mark, among);
      StartValues(objs, among, mainthread, registry, running, mt);
      ghost var vs := [Collectable(mainthread), objs[mainthread].slots[0], Collectable(registry)] + mt;
      MarkRoots([Collectable(mainthread), objs[mainthread].slots[0], Collectable(registry)] + mt, among);
      PartMarked(mark, vs, [Collectable(mainthread), Collectable(registry)]);
      phase := Propagate;
    }

    method Atomic(ghost among: set<Ref>)
      requires Marking(objs, mark, gray, grayagain, among) && gray == [] && UvheadOk(objs, uvhead)
      requires Inside(objs, Roots(), among) && mainthread in objs && objs[mainthread].kind == Thread
      requires ValuesMarked(mark, [Collectable(mainthread), Collectable(registry)])
      modifies this`mark, this`gray, this`grayagain, this`phase, this`currentwhite, this`sweepstrgc, this`sweepgc
      ensures Progress(objs, old(mark), mark) && MarkedInside(mark, among) && mark.Keys == objs.Keys
      ensures MarkedClosed(objs, mark) && ValuesMarked(mark, Roots()) && ColoursFit(objs, mark)
      ensures currentwhite == !old(currentwhite) && phase == SweepString && sweepstrgc == 0 && sweepgc == 0
    {
      hide Marking, Inside, ValuesMarked, MarkedClosed, ColoursFit, MarkedInside, UvheadOk, Progress;
      MarkRest(among);
      currentwhite := !currentwhite;
      sweepstrgc := 0;
      sweepgc := 0;
      phase := SweepString;
    }

    /** The marking done by `atomic`: upvalues again, then the running thread and the metatables,
      * then the objects caught by a barrier and the threads. */
    method MarkRest(ghost among: set<Ref>)
      requires Marking(objs, mark, gray, grayagain, among) && gray == [] && UvheadOk(objs, uvhead)
      requires Inside(objs, Roots(), among) && mainthread in objs && objs[mainthread].kind == Thread
      requires ValuesMarked(mark, [Collectable(mainthread), Collectable(registry)])
      modifies this`mark, this`gray, this`grayagain
      ensures Progress(objs, old(mark), mark) && MarkedInside(mark, among) && mark.Keys == objs.Keys
      ensures MarkedClosed(objs, mark) && ValuesMarked(mark, Roots()) && ColoursFit(objs, mark)
    {
      hide Marking, Inside, ValuesMarked, MarkedClosed, ColoursFit, MarkedInside, UvheadOk, GrayUpvalsDone, Marched,
        AgainDone, Progress, Shaped, NoDangling, EdgeClosed, Whites;
      MarkingParts(objs, mark, gray, grayagain, among);
      StartValues(objs, among, mainthread, registry, running, mt);
      RemarkUpvals(among);
      ghost var m1, a1 := mark, grayagain;
      PropagateAll(among);
      ghost var m2, a2 := mark, grayagain;
      MarkRoots([Collectable(running)] + mt, among);
      ghost var m3 := mark;
      PropagateAll(among);
      ghost var m4, a4 := mark, grayagain;
      Regray(objs, mark, grayagain, among);
      gray, grayagain := grayagain, [];
      PropagateAll(among);
      RestMarked(objs, old(mark), m1, a1, m2, a2, m3, m4, a4, mark, grayagain, among,
                 [Collectable(mainthread), Collectable(registry)], [Collectable(running)] + mt);
      RootsMarked(mark, mainthread, registry, running, mt);
    }

    /** Sweeps all of a string bucket or of a thread's open upvalues, and returns what is left of it. */
    method SweepWholeList(list: seq<Ref>) returns (kept: seq<Ref>)
      requires NoDup(list) && mark.Keys == objs.Keys && UvheadOk(objs, uvhead)
      requires forall r :: r in list ==> r in objs
      modifies this`objs, this`mark, this`uvhead
      ensures forall r :: r in list ==> r in old(objs) && r in old(mark)
      ensures kept == Survivors(old(objs), old(mark), currentwhite, list)
      ensures objs == old(objs) - DeadOf(old(objs), old(mark), currentwhite, list)
      ensures mark == SweptMarks(old(objs), old(mark), currentwhite, list)
      ensures UvheadOk(objs, uvhead)
    {
      hide UvheadOk, NoDup, Survivors, DeadOf, SweptMarks;
      SweepListStart(old(objs), old(mark), currentwhite, list);
      kept := list;
      var p := 0;
      ghost var q := 0;
      while p < |kept|
        invariant q <= |list| && p <= |kept| && |kept| - p == |list| - q
        invariant kept[p..] == list[q..]
        invariant kept[..p] == Survivors(old(objs), old(mark), currentwhite, list[..q])
        invariant objs == old(objs) - DeadOf(old(objs), old(mark), currentwhite, list[..q])
        invariant mark == SweptMarks(old(objs), old(mark), currentwhite, list[..q])
        invariant UvheadOk(objs, uvhead)
        decreases |list| - q
      {
        var curr := kept[p];
        assert curr == kept[p..][0] == list[q];
        SweepListStep(old(objs), old(mark), currentwhite, list, q);
        if !Dies(objs, mark, currentwhite, curr) {
          mark := mark[curr := White(currentwhite)];
          p := p + 1;
        } else {
          kept := kept[..p] + kept[p + 1..];
          UnlinkFreed(objs, uvhead, curr);
          if IsOpen(objs[curr]) {
            uvhead := Unlink(uvhead, curr);
          }
          objs := objs - {curr};
          mark := mark - {curr};
        }
        q := q + 1;
      }
      assert list[..q] == list;
      assert kept[..p] == kept;
    }

    /** What holds between two steps, for every phase. */
    ghost predicate Valid()
      reads this
    {
      && GraphOk(objs, rootgc, strt, hash, uvhead, mainthread, registry, running, {})
      && Safe(objs, mark, currentwhite, Roots())
      && PhaseOk(phase, objs, mark, currentwhite, gray, grayagain, strt, sweepstrgc, rootgc, sweepgc, Start())
    }

    /** The roots that are marked when a cycle starts and never change. */
    function Start(): seq<Value>
      reads this`mainthread, this`registry
    {
      [Collectable(mainthread), Collectable(registry)]
    }

    /** Sweeps the next bucket of strings. */
    method SweepStringStep()
      requires Valid() && phase == SweepString
      modifies this`objs, this`mark, this`uvhead, this`strt, this`sweepstrgc, this`phase
      ensures Valid() && |strt| == old(|strt|)
      ensures SweepEffect(old(objs), old(mark), objs, mark, currentwhite)
      ensures OpenStays(old(objs), objs) && Count(objs) <= Count(old(objs))
      ensures if old(sweepstrgc) + 1 < |strt| then phase == SweepString && sweepstrgc == old(sweepstrgc) + 1 else phase == Sweep
    {
      hide GraphOk, Safe, SweepEffect, ColoursFit, StringsSwept, RootsSwept, Survivors, DeadOf, SweptMarks, UvheadOk,
        NoDup, Roots, Start, Shaped, IsOpen, OpenStays, Count;
      RootMembers();
      SafeKeys(objs, mark, currentwhite, Roots());
      GraphUvhead(objs, rootgc, strt, hash, uvhead, mainthread, registry, running, {});
      BucketSwept(objs, mark, currentwhite, rootgc, strt, hash, uvhead, mainthread, registry, running, sweepstrgc);
      var kept := SweepWholeList(strt[sweepstrgc]);
      StringStepKeeps(old(objs), old(mark), currentwhite, rootgc, strt, hash, old(uvhead), mainthread, registry, running,
                      Roots(), sweepstrgc, uvhead);
      strt := strt[sweepstrgc := kept];
      sweepstrgc := sweepstrgc + 1;
      if sweepstrgc >= |strt| {
        phase := Sweep;
      }
    }

    /** Restores the invariant after a black object got a reference to a white one: by marking that
      * one while marking goes on, by giving up the black colour while sweeping. */
    method BarrierF(o: Ref, v: Ref)
      requires o in mark && mark[o] == Black && IsWhite(mark, v)
      requires phase != Pause && phase != Finalize
      requires phase == Propagate ==>
        Shaped(objs) && NoDangling(objs) && TriColour(objs, mark, gray, grayagain, {o}) && v in objs
      requires phase == Propagate ==>
        o in objs && objs[o].kind != String && objs[o].kind != Thread && !IsOpen(objs[o]) && forall b :: Edge(objs, o, b) ==> Marked(mark, b) || b == v
      modifies this`mark, this`gray
      ensures phase == Propagate ==>
        Marked(mark, v) && TriColour(objs, mark, gray, grayagain, {}) && MarkStep(objs, old(mark), old(gray), mark, gray, grayagain, {o}, objs.Keys)
      ensures phase != Propagate ==> mark == old(mark)[o := White(currentwhite)] && gray == old(gray)
    {
      if phase == Propagate {
        hide NoDangling, Shaped, TriColour, MarkStep;
        AllEdgesInside(objs);
        ReallyMarkObject(v, {o}, objs.Keys);
        MarkStepParts(objs, old(mark), old(gray), mark, gray, grayagain, {o}, objs.Keys);
        MarkStepIsProgress(objs, old(mark), old(gray), mark, gray, grayagain, {o}, objs.Keys);
        assert Marked(old(mark), o);
        BlackDone(objs, mark, gray, grayagain, o);
      } else {
        mark := mark[o := White(currentwhite)];
      }
    }

    /** Marks on behalf of a black object with a new reference, and puts things right again. */
    method KeepBlack(o: Ref, v: Value)
      requires Shaped(objs) && NoDangling(objs) && TriColour(objs, mark, gray, grayagain, {o})
      requires o in objs && mark[o] == Black && phase == Propagate
      requires objs[o].kind != String && objs[o].kind != Thread && !IsOpen(objs[o])
      requires v.Collectable? ==> v.ref in objs
      requires forall b :: Edge(objs, o, b) ==> Marked(mark, b) || v == Collectable(b)
      modifies this`mark, this`gray
      ensures TriColour(objs, mark, gray, grayagain, {})
      ensures Progress(objs, old(mark), mark) && mark.Keys == old(mark).Keys
    {
      hide NoDangling, Shaped, TriColour, MarkStep, Progress;
      InMarks(objs, mark, gray, grayagain, {o}, o);
      ProgressRefl(objs, mark);
      if v.Collectable? {
        InMarks(objs, mark, gray, grayagain, {o}, v.ref);
        if mark[v.ref].White? {
          BarrierF(o, v.ref);
          MarkStepParts(objs, old(mark), old(gray), mark, gray, grayagain, {o}, objs.Keys);
          MarkStepIsProgress(objs, old(mark), old(gray), mark, gray, grayagain, {o}, objs.Keys);
          return;
        }
      }
      BlackDone(objs, mark, gray, grayagain, o);
    }

    /** Links an upvalue that was just closed into `rootgc`, and gives it a colour that suits. */
    method LinkUpval(uv: Ref)
      requires uv in objs && objs[uv].kind == Upval && objs[uv].place == Closed && uv in mark && mark[uv] != Black
      requires Shaped(objs)
      requires phase == Propagate ==>
        uv !in gray && uv !in grayagain && NoDangling(objs) && TriColour(objs, mark, gray, grayagain, {uv})
      requires phase == Propagate && mark[uv].White? ==> TriColour(objs, mark, gray, grayagain, {})
      modifies this`rootgc, this`sweepgc, this`mark, this`gray
      ensures rootgc == [uv] + old(rootgc) && sweepgc == Shifted(old(sweepgc))
      ensures phase == Propagate ==> TriColour(objs, mark, gray, grayagain, {})
      ensures phase == Propagate ==> Advances(old(mark), mark)
      ensures phase != Propagate ==> mark == LinkedMarks(old(mark), currentwhite, uv) && gray == old(gray)
    {
      rootgc := [uv] + rootgc;
      sweepgc := Shifted(sweepgc);
      if mark[uv] == Gray {
        if phase == Propagate {
          hide NoDangling, Shaped, TriColour, Progress;
          RepaintBusy(objs, mark, gray, grayagain, uv, Black);
          mark := mark[uv := Black];
          UpvalEdge(objs, uv);
          NoDanglingValue(objs, uv);
          KeepBlack(uv, objs[uv].slots[0]);
          BlackenedAdvances(objs, old(mark), mark, uv);
        } else {
          mark := mark[uv := White(currentwhite)];
        }
      }
    }

    /** Valid(), but for threads that have left `rootgc` to be freed. */
    ghost predicate ValidExcept(except: set<Ref>)
      reads this
    {
      && GraphOk(objs, rootgc, strt, hash, uvhead, mainthread, registry, running, except)
      && Safe(objs, mark, currentwhite, Roots())
      && PhaseOk(phase, objs, mark, currentwhite, gray, grayagain, strt, sweepstrgc, rootgc, sweepgc, Start())
      && forall r :: r in except && r in objs ==> !IsOpen(objs[r])
    }

    /** Takes the topmost open upvalue off thread `t`: frees it if it is dead, else closes it. */
    method CloseFirst(t: Ref, ghost except: set<Ref>)
      requires ValidExcept(except) && t in objs && objs[t].kind == Thread && objs[t].open != []
      modifies this`objs, this`mark, this`gray, this`uvhead, this`rootgc, this`sweepgc
      ensures ValidExcept(except) && TakenOff(old(objs), old(mark), objs, currentwhite, t)
      ensures phase != Propagate ==> SweepEffect(old(objs), old(mark), objs, mark, currentwhite)
      ensures sweepgc >= old(sweepgc)
    {
      hide ValidExcept, SweepEffect, TakenOff;
      OpenHead(t, except);
      if mark[objs[t].open[0]] == White(!currentwhite) {
        FreeHead(t, except);
      } else {
        CloseHead(t, except);
      }
    }

    lemma OpenHead(t: Ref, except: set<Ref>)
      requires ValidExcept(except) && t in objs && objs[t].kind == Thread && objs[t].open != []
      ensures objs[t].open[0] in mark
    {
      hide GraphOk, Safe, PhaseOk, Roots, Start;
      RootMembers();
      HeadIsOpen(objs, rootgc, strt, hash, uvhead, mainthread, registry, running, except, mark, currentwhite, Roots(),
                 t);
    }

    method FreeHead(t: Ref, ghost except: set<Ref>)
      requires ValidExcept(except) && t in objs && objs[t].kind == Thread && objs[t].open != []
      requires objs[t].open[0] in mark && mark[objs[t].open[0]] == White(!currentwhite)
      modifies this`objs, this`mark, this`uvhead
      ensures ValidExcept(except) && TakenOff(old(objs), old(mark), objs, currentwhite, t)
      ensures phase != Propagate ==> SweepEffect(old(objs), old(mark), objs, mark, currentwhite)
    {
      hide GraphOk, Safe, PhaseOk, SweepEffect, TakenOff, Unlink, WithOpen, IsOpen, Roots, Start, Shaped, OpenOk,
        StringsOk;
      RootMembers();
      var uv := objs[t].open[0];
      HeadIsOpen(objs, rootgc, strt, hash, uvhead, mainthread, registry, running, except, mark, currentwhite, Roots(),
                 t);
      FreeHeadKeeps(phase, objs, mark, currentwhite, gray, grayagain, strt, hash, sweepstrgc, rootgc, sweepgc,
                    uvhead, mainthread, registry, running, except, Start(), Roots(), t);
      uvhead := Unlink(uvhead, uv);
      objs := WithOpen(objs, t, objs[t].open[1..], {uv});
      mark := mark - {uv};
    }

    method CloseHead(t: Ref, ghost except: set<Ref>)
      requires ValidExcept(except) && t in objs && objs[t].kind == Thread && objs[t].open != []
      requires objs[t].open[0] in mark && mark[objs[t].open[0]] != White(!currentwhite)
      modifies this`objs, this`mark, this`gray, this`uvhead, this`rootgc, this`sweepgc
      ensures ValidExcept(except) && TakenOff(old(objs), old(mark), objs, currentwhite, t)
      ensures phase != Propagate ==> SweepEffect(old(objs), old(mark), objs, mark, currentwhite)
      ensures sweepgc >= old(sweepgc)
    {
      hide GraphOk, Safe, PhaseOk, SweepEffect, TriColour, NoDangling, Advances, Shaped, Unlink, WithClosed, TakenOff,
        LinkedMarks, MarkingReady, Roots, Start, OpenOk, StringsOk, IsOpen, ValuesMarked;
      RootMembers();
      CloseReady(phase, objs, mark, currentwhite, gray, grayagain, strt, hash, sweepstrgc, rootgc, sweepgc,
                 uvhead, mainthread, registry, running, except, Start(), Roots(), t);
      var uv := objs[t].open[0];
      uvhead := Unlink(uvhead, uv);
      objs := WithClosed(objs, t);
      if phase == Propagate {
        MarkingReadyParts(objs, mark, currentwhite, gray, grayagain, uv, Start(), Roots());
      }
      LinkUpval(uv);
      if phase == Propagate {
        CloseMarkingEnd(objs, old(mark), mark, currentwhite, gray, grayagain, strt, sweepstrgc, rootgc, sweepgc,
                        uv, old(gray), Start(), Roots());
      }
    }

    /** Closes the open upvalues of thread `t` at or above `level` (a slot index). */
    method Close(t: Ref, level: nat, ghost except: set<Ref>)
      requires ValidExcept(except) && t in objs && objs[t].kind == Thread
      modifies this`objs, this`mark, this`gray, this`uvhead, this`rootgc, this`sweepgc
      ensures ValidExcept(except) && KeepsContents(old(objs), old(mark), objs, currentwhite)
      ensures t in objs && objs[t].kind == Thread && objs[t].slots == old(objs)[t].slots
      ensures ClosedFrom(old(objs), objs, t, level)
      ensures phase != Propagate ==> SweepEffect(old(objs), old(mark), objs, mark, currentwhite)
      ensures Count(objs) <= Count(old(objs)) && sweepgc >= old(sweepgc)
    {
      hide GraphOk, Safe, PhaseOk, KeepsContents, SweepEffect, NoNewDead, Shaped, OpenOk, UvheadOk, Roots, Start,
        ClosedAbove, ClosedFrom, OpenAbove;
      RootMembers();
      CloseStart(t, except);
      KeepsContentsRefl(objs, mark, currentwhite);
      SweepEffectRefl(objs, mark, currentwhite);
      ClosedAboveRefl(objs, t, level);
      while objs[t].open != [] && objs[objs[t].open[0]].place.index >= level
        invariant ValidExcept(except) && KeepsContents(old(objs), old(mark), objs, currentwhite)
        invariant t in objs && objs[t].kind == Thread && objs[t].slots == old(objs)[t].slots
        invariant forall u :: u in objs[t].open ==> u in objs && IsOpen(objs[u]) && objs[u].place.thread == t
        invariant ClosedAbove(old(objs), objs, t, level)
        invariant phase != Propagate ==> SweepEffect(old(objs), old(mark), objs, mark, currentwhite)
        invariant Count(objs) <= Count(old(objs)) && sweepgc >= old(sweepgc)
        decreases |objs[t].open|
      {
        ghost var o, m := objs, mark;
        if phase == Propagate {
          NoneDead(objs, mark, currentwhite, gray, grayagain, strt, sweepstrgc, rootgc, sweepgc, Start(), old(objs),
                   old(mark));
        } else {
          SweepNoNewDead(old(objs), old(mark), objs, mark, currentwhite);
        }
        IsAbove(objs[objs[t].open[0]], t, level);
        CloseFirst(t, except);
        TakenOffParts(o, m, objs, currentwhite, t, level);
        ClosedAboveTrans(old(objs), o, objs, t, level);
        KeepsContentsTrans(old(objs), old(mark), o, m, objs, currentwhite);
        if phase != Propagate {
          SweepEffectTrans(old(objs), old(mark), o, m, objs, mark, currentwhite);
        }
        CloseStart(t, except);
      }
      CloseStart(t, except);
      OpenBelow(objs, t, level);
      ClosedExactly(old(objs), objs, t, level);
    }

    lemma CloseStart(t: Ref, except: set<Ref>)
      requires ValidExcept(except) && t in objs
      ensures Shaped(objs) && OpenOk(objs) && objs.Keys == mark.Keys
      ensures forall u :: u in objs[t].open ==> u in objs && IsOpen(objs[u]) && objs[u].place.thread == t
    {
      OpenElements(objs, t);
    }

    /** Sweeps the next object of `rootgc`, and before it, if it is a thread, its open upvalues. */
    method SweepOne()
      requires Valid() && phase == Sweep && sweepgc < |rootgc|
      modifies this`objs, this`mark, this`gray, this`uvhead, this`rootgc, this`sweepgc
      ensures Valid() && SweepEffect(old(objs), old(mark), objs, mark, currentwhite)
      ensures OpenStays(old(objs), objs)
      ensures Count(objs) - sweepgc < Count(old(objs)) - old(sweepgc)
    {
      hide OpenStays, SweepEffect, OpenAreWhite, Count, Dies, GraphOk, Safe, PhaseOk, Roots, Start;
      SweepParts();
      if objs[rootgc[sweepgc]].kind == Thread {
        SweepThread();
      } else {
        OpenStaysRefl(objs);
      }
      ghost var o, m := objs, mark;
      OpenStaysRefl(objs);
      SweepParts();
      if !Dies(objs, mark, currentwhite, rootgc[sweepgc]) {
        KeepHere();
        mark := mark[rootgc[sweepgc] := White(currentwhite)];
        sweepgc := sweepgc + 1;
      } else {
        FreeRoot();
      }
      SweepEffectTrans(old(objs), old(mark), o, m, objs, mark, currentwhite);
      SweptKeys(o, m, objs, mark, currentwhite);
      OpenStaysTrans(old(objs), o, objs);
    }

    lemma SweepParts()
      requires Valid() && phase == Sweep && sweepgc < |rootgc|
      ensures rootgc[sweepgc] in objs && objs[rootgc[sweepgc]].kind != String && !IsOpen(objs[rootgc[sweepgc]])
      ensures mark.Keys == objs.Keys && SweepEffect(objs, mark, objs, mark, currentwhite)
      ensures objs[rootgc[sweepgc]].kind != Thread ==> OpenAreWhite(objs, mark, currentwhite, rootgc[sweepgc])
    {
      RootsBefore(objs, rootgc, {}, sweepgc);
      SweepEffectRefl(objs, mark, currentwhite);
    }

    lemma KeepHere()
      requires Valid() && phase == Sweep && sweepgc < |rootgc|
      requires rootgc[sweepgc] in objs && objs[rootgc[sweepgc]].kind != String && rootgc[sweepgc] in mark
      requires !Dies(objs, mark, currentwhite, rootgc[sweepgc])
      requires OpenAreWhite(objs, mark, currentwhite, rootgc[sweepgc])
      ensures var mark1 := mark[rootgc[sweepgc] := White(currentwhite)];
        && SweepEffect(objs, mark, objs, mark1, currentwhite)
        && Safe(objs, mark1, currentwhite, Roots())
        && PhaseOk(Sweep, objs, mark1, currentwhite, gray, grayagain, strt, sweepstrgc, rootgc, sweepgc + 1, Start())
    {
      hide GraphOk, PhaseOk, Safe, ColoursFit, StringsSwept, RootsSwept, SweepEffect, OpenAreWhite, Roots, Start,
        Shaped, FixedOk, Dies, UvheadOk;
      RootMembers();
      GraphFixed(objs, rootgc, strt, hash, uvhead, mainthread, registry, running, {});
      SweepParts0(objs, mark, currentwhite, gray, grayagain, strt, sweepstrgc, rootgc, sweepgc, Start());
      SweepParts0(objs, mark[rootgc[sweepgc] := White(currentwhite)], currentwhite, gray, grayagain, strt, sweepstrgc,
                  rootgc, sweepgc + 1, Start());
      GraphUvhead(objs, rootgc, strt, hash, uvhead, mainthread, registry, running, {});
      KeepRoot(objs, mark, currentwhite, rootgc, strt, sweepgc, Roots(), mainthread);
    }

    /** Sweeps the open upvalues of the thread at the sweep position. */
    method SweepThread()
      requires Valid() && phase == Sweep && sweepgc < |rootgc|
      requires rootgc[sweepgc] in objs && objs[rootgc[sweepgc]].kind == Thread
      modifies this`objs, this`mark, this`uvhead
      ensures Valid() && SweepEffect(old(objs), old(mark), objs, mark, currentwhite)
      ensures OpenStays(old(objs), objs)
      ensures OpenAreWhite(objs, mark, currentwhite, rootgc[sweepgc]) && Count(objs) <= Count(old(objs))
      ensures rootgc[sweepgc] in objs && objs[rootgc[sweepgc]].kind == Thread
    {
      hide GraphOk, Safe, ColoursFit, StringsSwept, RootsSwept, SweepEffect, OpenAreWhite, Survivors, DeadOf,
        SweptMarks, UvheadOk, Shaped, OpenOk, NoDup, Roots, Start, OpenStays;
      RootMembers();
      var t := rootgc[sweepgc];
      SafeKeys(objs, mark, currentwhite, Roots());
      GraphOpen(objs, rootgc, strt, hash, uvhead, mainthread, registry, running, t, mark, currentwhite);
      var kept := SweepWholeList(objs[t].open);
      ThreadSweptFirst(old(objs), old(mark), currentwhite, rootgc, strt, hash, old(uvhead), mainthread, registry, running,
                       sweepgc, Roots(), uvhead);
      OpenStaysSwept(old(objs), DeadOf(old(objs), old(mark), currentwhite, old(objs)[t].open), t, kept);
      objs := objs[t := objs[t].(open := kept)];
    }

    /** Unlinks and frees the dead object at the sweep position. */
    method FreeRoot()
      requires Valid() && phase == Sweep && sweepgc < |rootgc|
      requires rootgc[sweepgc] in objs && rootgc[sweepgc] in mark
      requires Dies(objs, mark, currentwhite, rootgc[sweepgc])
      modifies this`objs, this`mark, this`gray, this`uvhead, this`rootgc, this`sweepgc
      ensures Valid() && SweepEffect(old(objs), old(mark), objs, mark, currentwhite)
      ensures OpenStays(old(objs), objs)
      ensures Count(objs) - sweepgc < Count(old(objs)) - old(sweepgc)
    {
      hide GraphOk, Safe, ColoursFit, StringsSwept, RootsSwept, SweepEffect, Shaped, Roots, Start;
      RootMembers();
      var curr := rootgc[sweepgc];
      UnlinkFirst(objs, mark, currentwhite, rootgc, strt, hash, uvhead, mainthread, registry, running, sweepgc,
                  Roots());
      rootgc := rootgc[..sweepgc] + rootgc[sweepgc + 1..];
      FreeObj(curr);
    }

    /** Frees an object that has left `rootgc`; a thread first closes what is open on its stack. */
    method FreeObj(r: Ref)
      requires ValidExcept({r}) && phase == Sweep && r in objs && r in mark
      requires Dies(objs, mark, currentwhite, r) && r !in {mainthread, registry, running}
      requires objs[r].kind != String && !IsOpen(objs[r])
      requires objs[r].kind != Thread ==> NothingOpenOn(objs, r)
      modifies this`objs, this`mark, this`gray, this`uvhead, this`rootgc, this`sweepgc
      ensures Valid() && SweepEffect(old(objs), old(mark), objs, mark, currentwhite)
      ensures OpenStays(old(objs), objs)
      ensures Count(objs) - sweepgc < Count(old(objs)) - old(sweepgc)
    {
      hide GraphOk, Safe, ColoursFit, StringsSwept, RootsSwept, SweepEffect, Shaped, KeepsContents, Roots, Start,
        Count, Dies, IsOpen, NothingOpenOn, ClosedFrom, OpenStays;
      RootMembers();
      CloseAll(r);
      ClosedAndGone(old(objs), objs, r);
      ghost var o, m := objs, mark;
      StillDead(old(objs), old(mark), objs, mark, currentwhite, r);
      FreeRootKeeps(objs, mark, currentwhite, rootgc, strt, hash, uvhead, mainthread, registry, running, sweepgc,
                    Roots(), r);
      objs := objs - {r};
      mark := mark - {r};
      SweepEffectTrans(old(objs), old(mark), o, m, objs, mark, currentwhite);
    }

    /** Closes what is open on an object, if it is a thread. */
    method CloseAll(t: Ref)
      requires ValidExcept({t}) && phase == Sweep && t in objs && (objs[t].kind != Thread ==> NothingOpenOn(objs, t))
      modifies this`objs, this`mark, this`gray, this`uvhead, this`rootgc, this`sweepgc
      ensures ValidExcept({t}) && SweepEffect(old(objs), old(mark), objs, mark, currentwhite)
      ensures t in objs && NothingOpenOn(objs, t) && ClosedFrom(old(objs), objs, t, 0)
      ensures Count(objs) <= Count(old(objs)) && sweepgc >= old(sweepgc)
    {
      hide ValidExcept, SweepEffect, KeepsContents, Count, ClosedFrom, NothingOpenOn, Shaped, OpenOk;
      if objs[t].kind == Thread {
        Close(t, 0, {t});
        ClosedToBottom(old(objs), objs, t);
      } else {
        CloseStart(t, {t});
        SweepEffectRefl(objs, mark, currentwhite);
        NothingCloses(objs, t);
      }
    }

    /** What `SingleStep` needs of the set that marking is to stay in (for a plain step: any object). */
    ghost predicate Confines(among: set<Ref>)
      reads this
    {
      && (phase == Pause || phase == Propagate ==> EdgeClosed(objs, among) && Inside(objs, Roots(), among))
      && (phase == Propagate ==> MarkedInside(mark, among))
    }

    /** Distance to the end of the cycle. */
    ghost function Rank(): nat
      reads this
    {
      match phase case Pause => 0 case Finalize => 1 case Sweep => 2 case SweepString => 3 case Propagate => 4
    }

    ghost function Work(): int
      reads this
    {
      match phase
      case Propagate => |Whites(mark)| + |gray|
      case SweepString => |strt| - sweepstrgc
      case Sweep => Count(objs) - sweepgc
      case _ => 0
    }

    /** A bound on the number of steps to the end of the cycle. */
    function Left(): int
      reads this
    {
      match phase
      case Pause => 0
      case Finalize => 1
      case Sweep => 2 + Count(objs) - sweepgc
      case SweepString => 2 + Count(objs) + |strt| - sweepstrgc
      case Propagate => 3 + Count(objs) + |strt| + |Whites(mark)| + |gray|
    }

    lemma IsSettled()
      requires Valid()
      ensures Settled(Now())
    {
      hide GraphOk, Safe, RootListOk, ColoursFit, StringsSwept, RootsSwept, MarkingOk;
      WorkIsBounded();
      SafeKeys(objs, mark, currentwhite, Roots());
    }

    lemma WorkIsBounded()
      requires Valid()
      ensures Work() >= 0
    {
      hide GraphOk, Safe, RootListOk, ColoursFit, StringsSwept;
      if phase == Sweep {
        GraphRootList(objs, rootgc, strt, hash, uvhead, mainthread, registry, running, {});
        SweepPositionBound(objs, rootgc, {});
      }
    }

    method StartCycle(ghost among: set<Ref>)
      requires Valid() && (phase == Pause || phase == Finalize)
      requires EdgeClosed(objs, among) && Inside(objs, Roots(), among)
      modifies this`mark, this`gray, this`grayagain, this`phase
      ensures Valid() && phase == Propagate && MarkedInside(mark, among)
    {
      hide GraphOk, Safe, EdgeClosed, Inside, NoDangling, TriColour, Progress, MarkedInside, ValuesMarked, Roots,
        Shaped, UvheadOk, ColoursFit, GrayUpvalsDone, AgainDone;
      RootMembers();
      SafeKeys(objs, mark, currentwhite, Roots());
      AllAlive(objs, mark, currentwhite, Roots());
      GraphUvhead(objs, rootgc, strt, hash, uvhead, mainthread, registry, running, {});
      ValidMain();
      MarkRoot(among);
      ProgressAdvances(objs, old(mark), mark);
      MarkingStaysSafe(objs, old(mark), mark, currentwhite, Roots(), Start());
    }

    lemma ValidMain()
      requires GraphOk(objs, rootgc, strt, hash, uvhead, mainthread, registry, running, {})
      ensures mainthread in objs && objs[mainthread].kind == Thread && |strt| > 0
    {
    }

    method PropagateStep(ghost among: set<Ref>)
      requires Valid() && phase == Propagate && gray != [] && Confines(among)
      modifies this`mark, this`gray, this`grayagain
      ensures Valid() && MarkedInside(mark, among)
      ensures |Whites(mark)| + |gray| < |Whites(old(mark))| + |old(gray)|
    {
      hide Valid, Marking, Progress, GrayUpvalsDone, AgainDone, Whites, Confines, Safe, GraphOk, MarkingOk, Marched,
        MarkedInside, Roots, Start;
      ReadyToMark(among);
      ghost var m, g, a := mark, gray, grayagain;
      PropagateMark(among);
      MarkedOn(m, g, a, among);
    }

    lemma ReadyToMark(among: set<Ref>)
      requires Valid() && phase == Propagate && Confines(among)
      ensures Marking(objs, mark, gray, grayagain, among) && Safe(objs, mark, currentwhite, Roots())
      ensures MarkingOk(objs, mark, currentwhite, gray, grayagain, Start())
      ensures GraphOk(objs, rootgc, strt, hash, uvhead, mainthread, registry, running, {})
    {
      hide Safe, EdgeClosed, Inside, NoDangling, TriColour, MarkedInside, ValuesMarked;
      AllAlive(objs, mark, currentwhite, Roots());
      GraphUvhead(objs, rootgc, strt, hash, uvhead, mainthread, registry, running, {});
    }

    lemma MarkedOn(m: Marks, g: seq<Ref>, a: seq<Ref>, among: set<Ref>)
      requires GraphOk(objs, rootgc, strt, hash, uvhead, mainthread, registry, running, {}) && phase == Propagate
      requires Safe(objs, m, currentwhite, Roots()) && MarkingOk(objs, m, currentwhite, g, a, Start())
      requires Marking(objs, mark, gray, grayagain, among) && Marched(objs, m, a, mark, grayagain)
      ensures Valid() && MarkedInside(mark, among)
    {
      hide GraphOk, Safe, EdgeClosed, Inside, NoDangling, TriColour, Progress, ValuesMarked, GrayUpvalsDone, AgainDone;
      ProgressAdvances(objs, m, mark);
      MarkingStaysSafe(objs, m, mark, currentwhite, Roots(), Start());
    }

    method AtomicStep(ghost among: set<Ref>)
      requires Valid() && phase == Propagate && gray == [] && Confines(among)
      modifies this`mark, this`gray, this`grayagain, this`phase, this`currentwhite, this`sweepstrgc, this`sweepgc
      ensures Valid() && phase == SweepString && currentwhite == !old(currentwhite)
      ensures forall r :: Alive(mark, currentwhite, r) ==> r in among
    {
      hide GraphOk, Safe, EdgeClosed, Inside, NoDangling, TriColour, Progress, MarkedInside, ValuesMarked, MarkedClosed,
        ColoursFit, UvheadOk, Shaped, GrayUpvalsDone, AgainDone;
      AllAlive(objs, mark, currentwhite, Roots());
      GraphUvhead(objs, rootgc, strt, hash, uvhead, mainthread, registry, running, {});
      ValidMain();
      Atomic(among);
      AtomicFlips(objs, old(mark), mark, old(currentwhite), old(gray), old(grayagain), Roots(), Start(), strt, rootgc,
                  among);
    }

    /** Sweeps up to `GCSWEEPMAX` objects of `rootgc`. */
    method SweepList()
      requires Valid() && phase == Sweep
      modifies this`objs, this`mark, this`gray, this`uvhead, this`rootgc, this`sweepgc
      ensures Valid() && SweepEffect(old(objs), old(mark), objs, mark, currentwhite)
      ensures OpenStays(old(objs), objs)
      ensures sweepgc == |rootgc| || Count(objs) - sweepgc + GCSWEEPMAX <= Count(old(objs)) - old(sweepgc)
    {
      hide OpenStays, Safe, SweepEffect, GraphOk, ColoursFit, StringsSwept, Roots, Start;
      RootMembers();
      SafeKeys(objs, mark, currentwhite, Roots());
      GraphUvhead(objs, rootgc, strt, hash, uvhead, mainthread, registry, running, {});
      SweepEffectRefl(objs, mark, currentwhite);
      OpenStaysRefl(objs);
      var count := GCSWEEPMAX;
      while sweepgc < |rootgc| && count > 0
        invariant Valid() && SweepEffect(old(objs), old(mark), objs, mark, currentwhite) && OpenStays(old(objs), objs)
        invariant Count(objs) - sweepgc + (GCSWEEPMAX - count) <= Count(old(objs)) - old(sweepgc)
        invariant 0 <= count <= GCSWEEPMAX
        decreases count
      {
        ghost var o, m := objs, mark;
        SweepOne();
        SweepEffectTrans(old(objs), old(mark), o, m, objs, mark, currentwhite);
        SweptKeys(o, m, objs, mark, currentwhite);
        OpenStaysTrans(old(objs), o, objs);
        count := count - 1;
      }
    }

    /** Moves every string to the bucket it has in a table of the new size. */
    method ResizeStrings(newsize: nat)
      requires newsize > 0 && StringsOk(objs, strt, hash)
      modifies this`strt
      ensures StringsOk(objs, strt, hash)
      ensures |strt| == if phase == SweepString then old(|strt|) else newsize
      ensures phase == SweepString ==> strt == old(strt)
    {
      if phase == SweepString {
        return;
      }
      hide StringsOk, Rehashed, Visited;
      var tb := strt;
      var newhash: seq<seq<Ref>> := seq(newsize, i => []);
      RehashStart(objs, hash, newhash, tb);
      for i := 0 to |tb|
        invariant |newhash| == newsize && Rehashed(objs, hash, newhash, Visited(tb, i, 0))
      {
        for j := 0 to |tb[i]|
          invariant |newhash| == newsize && Rehashed(objs, hash, newhash, Visited(tb, i, j))
        {
          var p := tb[i][j];
          VisitNext(objs, tb, hash, i, j);
          RehashOne(objs, hash, newhash, Visited(tb, i, j), p);
          var h := Bucket(hash, objs[p].text, newsize);
          newhash := newhash[h := [p] + newhash[h]];
        }
        VisitBucket(tb, i);
      }
      VisitedAll(objs, tb, hash);
      RehashDone(objs, hash, tb, newhash);
      strt := newhash;
    }

    /** Halves a string table that has become too big. */
    method CheckSizes()
      requires Valid() && phase == Sweep && sweepgc == |rootgc|
      modifies this`strt
      ensures Valid()
      ensures |strt| == if |Strings(objs)| < old(|strt|) / 4 && old(|strt|) > 2 * MINSTRTABSIZE
        then old(|strt|) / 2 else old(|strt|)
    {
      hide Shaped, RootListOk, StringsOk, OpenOk, UvheadOk, FixedOk, Safe, ColoursFit, RootsSwept, StringsSwept;
      ValidMain();
      if |Strings(objs)| < |strt| / 4 && |strt| > 2 * MINSTRTABSIZE {
        ResizeStrings(|strt| / 2);
        SafeKeys(objs, mark, currentwhite, Roots());
        SweptStrings(objs, mark, currentwhite, old(strt), strt, hash);
      }
    }

    /** One step of the collector. */
    method SingleStep(ghost among: set<Ref>)
      requires Valid() && Confines(among)
      modifies this
      ensures Valid()
      ensures mainthread == old(mainthread) && registry == old(registry) && running == old(running) && mt == old(mt)
      ensures currentwhite ==
        if old(phase) == Propagate && phase == SweepString then !old(currentwhite) else old(currentwhite)
      ensures old(phase) in {SweepString, Sweep} ==>
        SweepEffect(old(objs), old(mark), objs, mark, currentwhite) && OpenStays(old(objs), objs)
      ensures old(phase) !in {SweepString, Sweep} ==> objs == old(objs)
      ensures phase == Propagate ==> MarkedInside(mark, among)
      ensures old(phase) == Propagate && phase == SweepString ==> forall r :: Alive(mark, currentwhite, r) ==> r in among
      ensures match old(phase)
        case Pause => phase == Propagate
        case Propagate => phase in {Propagate, SweepString}
        case SweepString => phase in {SweepString, Sweep}
        case Sweep => phase in {Sweep, Finalize}
        case Finalize => phase == Pause && mark == old(mark)
      ensures phase == old(phase) ==> Work() < old(Work())
      ensures old(phase) != Pause ==> Left() < old(Left())
    {
      hide GraphOk, Safe, SweepEffect, MarkedInside, EdgeClosed, Inside, Whites, TriColour, ColoursFit, ValuesMarked;
      match phase {
        case Pause =>
          StartCycle(among);
        case Propagate =>
          if gray != [] {
            PropagateStep(among);
          } else {
            AtomicStep(among);
          }
        case SweepString =>
          SweepStringStep();
        case Sweep =>
          WorkIsBounded();
          SweepStep();
        case Finalize =>
          phase := Pause;
      }
    }

    method SweepStep()
      requires Valid() && phase == Sweep
      modifies this`objs, this`mark, this`gray, this`uvhead, this`rootgc, this`sweepgc, this`phase, this`strt
      ensures Valid() && SweepEffect(old(objs), old(mark), objs, mark, currentwhite)
      ensures OpenStays(old(objs), objs)
      ensures phase == Finalize || (phase == Sweep && Count(objs) - sweepgc + GCSWEEPMAX <= Count(old(objs)) - old(sweepgc))
    {
      hide GraphOk, Safe, SweepEffect, ColoursFit, StringsSwept, IdleOk;
      SweepList();
      if sweepgc == |rootgc| {
        CheckSizes();
        SweptAll();
        phase := Finalize;
      }
    }

    lemma SweptAll()
      requires Valid() && phase == Sweep && sweepgc == |rootgc|
      ensures IdleOk(mark, currentwhite)
    {
      SweptMeansIdle(objs, mark, currentwhite, rootgc, strt, hash);
    }

    /** A full collection. Whatever the state it starts in, it ends, and leaves exactly the objects
      * that are reachable or fixed: as they were, and all in the current white. */
    method FullGC()
      requires Valid()
      modifies this
      ensures Valid() && phase == Pause && IdleOk(mark, currentwhite)
      ensures mainthread == old(mainthread) && registry == old(registry) && running == old(running) && mt == old(mt)
      ensures Survival(old(objs), objs, Roots())
      ensures forall r :: r in objs <==>
        r in old(objs) && (Reachable(old(objs), RootSet(Roots()), r) || old(objs)[r].fixed)
    {
      hide GraphOk, Safe, SweepEffect, MarkedInside, EdgeClosed, Inside, Survival, Whites, IdleOk, PhaseOk, Reachable;
      FinishSweep();
      ghost var o := objs;
      ghost var among := set r | r in objs && Reachable(objs, RootSet(Roots()), r);
      ReachableSet(objs, mark, currentwhite, Roots(), among);
      StartCycle(among);
      FinishCycle(among);
      PauseIsIdle();
      SurvivalTrans(old(objs), o, objs, Roots());
      Exactly(old(objs), o, objs, Roots(), among);
    }

    /** Brings any sweep under way to its end; a mark phase under way is dropped. */
    method FinishSweep()
      requires Valid()
      modifies this
      ensures Valid() && phase == Finalize
      ensures mainthread == old(mainthread) && registry == old(registry) && running == old(running) && mt == old(mt)
      ensures Survival(old(objs), objs, Roots())
    {
      hide GraphOk, Safe, SweepEffect, Survival, Whites, PhaseOk, Confines;
      SurvivesSoFar();
      if phase == Pause || phase == Propagate {
        DropMarking();
      }
      while phase != Finalize
        invariant Valid() && phase in {SweepString, Sweep, Finalize}
        invariant mainthread == old(mainthread) && registry == old(registry) && running == old(running) && mt == old(mt)
        invariant Survival(old(objs), objs, Roots())
        decreases Rank(), Work()
      {
        ghost var o, m := objs, mark;
        WorkIsBounded();
        SweepConfines();
        SingleStep({});
        WorkIsBounded();
        SweepSurvival(o, m, objs, mark, currentwhite, Roots());
        SurvivalTrans(old(objs), o, objs, Roots());
      }
    }

    lemma SurvivesSoFar()
      requires Valid()
      ensures Survival(objs, objs, Roots())
    {
      SurvivalRefl(objs, mark, currentwhite, Roots());
    }

    /** Resets the sweep to pass over all objects, returning them to the current white. */
    method DropMarking()
      requires Valid() && (phase == Pause || phase == Propagate)
      modifies this`sweepstrgc, this`sweepgc, this`gray, this`grayagain, this`phase
      ensures Valid() && phase == SweepString
    {
      hide GraphOk, Safe, PhaseOk, Roots, Start, RootListOk, StringsOk;
      RootMembers();
      SafeKeys(objs, mark, currentwhite, Roots());
      ValidMain();
      ResetIsFine(phase, objs, mark, currentwhite, gray, grayagain, strt, sweepstrgc, rootgc, sweepgc, Start());
      sweepstrgc := 0;
      sweepgc := 0;
      gray, grayagain := [], [];
      phase := SweepString;
    }

    lemma SweepConfines()
      requires phase in {SweepString, Sweep, Finalize}
      ensures Confines({})
    {
    }

    /** Marks, and sweeps what was not marked: only members of `among` and fixed objects are left. */
    method FinishCycle(ghost among: set<Ref>)
      requires Valid() && phase == Propagate && Confines(among)
      modifies this
      ensures Valid() && phase == Pause
      ensures mainthread == old(mainthread) && registry == old(registry) && running == old(running) && mt == old(mt)
      ensures Survival(old(objs), objs, Roots())
      ensures forall r :: r in objs ==> r in among || objs[r].fixed
    {
      hide GraphOk, Safe, SweepEffect, MarkedInside, EdgeClosed, Inside, Survival, Whites, PhaseOk, Kept;
      GraphUvhead(objs, rootgc, strt, hash, uvhead, mainthread, registry, running, {});
      SurvivalRefl(objs, mark, currentwhite, Roots());
      while phase != Pause
        invariant Valid()
        invariant mainthread == old(mainthread) && registry == old(registry) && running == old(running) && mt == old(mt)
        invariant Survival(old(objs), objs, Roots())
        invariant phase == Propagate ==> Confines(among)
        invariant phase != Propagate ==> Kept(objs, mark, currentwhite, among)
        decreases Rank(), Work()
      {
        ghost var o, m, before := objs, mark, phase;
        WorkIsBounded();
        SafeKeys(objs, mark, currentwhite, Roots());
        SingleStep(among);
        WorkIsBounded();
        if before in {SweepString, Sweep} {
          SweepSurvival(o, m, objs, mark, currentwhite, Roots());
          SurvivalTrans(old(objs), o, objs, Roots());
          KeptThroughSweep(o, m, objs, mark, currentwhite, among);
        } else if phase == SweepString {
          SafeKeys(objs, mark, currentwhite, Roots());
          KeptFromFlip(objs, mark, currentwhite, among);
        }
      }
      PauseIsIdle();
      KeptAtEnd(objs, mark, currentwhite, among, Roots());
    }

    lemma PauseIsIdle()
      requires Valid() && phase == Pause
      ensures IdleOk(mark, currentwhite)
    {
    }

    // ----- the running program -----------------------------------------------------------------
    // It works on the stack of the running thread: slot 0 is its table of globals.

    /** What the program sees. */
    function Now(): View
      reads this
    {
      View(objs, mark, currentwhite, phase, Left(), mainthread, registry, running, mt)
    }

    /** The value in slot `i` of the running thread. */
    function Slot(i: nat): Value
      requires running in objs
      reads this
    {
      SlotOf(Now(), i)
    }

    /** Replaces the slots of `o` by slots that hold one new value, and keeps the marking invariant as
      * the barrier macros do. */
    method Store(o: Ref, slots: seq<Value>, v: Value)
      requires Valid() && o in objs && FitsShape(objs, o, slots)
      requires forall i :: 0 <= i < |slots| ==> slots[i] == v || (i < |objs[o].slots| && slots[i] == objs[o].slots[i])
      requires v.Collectable? ==> Alive(mark, currentwhite, v.ref)
      modifies this`objs, this`mark, this`gray, this`grayagain
      ensures Valid() && objs == old(objs)[o := old(objs)[o].(slots := slots)]
      ensures forall r :: Alive(old(mark), currentwhite, r) ==> Alive(mark, currentwhite, r)
    {
      hide GraphOk, Safe, PhaseOk, FitsShape, TriColour, Shaped;
      StoreSlotsFrom(objs, mark, currentwhite, o, slots, v);
      GraphUvhead(objs, rootgc, strt, hash, uvhead, mainthread, registry, running, {});
      StoreGraph(objs, rootgc, strt, hash, uvhead, mainthread, registry, running, o, slots);
      StoreSafe(objs, mark, currentwhite, Roots(), o, slots);
      GraphUvhead(WithSlots(objs, o, slots), rootgc, strt, hash, uvhead, mainthread, registry, running, {});
      if phase == Propagate {
        StoreWhileMarking(o, slots, v);
        AdvancesAlive(old(mark), mark, currentwhite);
      } else {
        StoreOtherwise(o, slots, v);
      }
    }

    method StoreWhileMarking(o: Ref, slots: seq<Value>, v: Value)
      requires Valid() && phase == Propagate && o in objs && FitsShape(objs, o, slots)
      requires forall i :: 0 <= i < |slots| ==> slots[i] == v || (i < |objs[o].slots| && slots[i] == objs[o].slots[i])
      requires v.Collectable? ==> Alive(mark, currentwhite, v.ref)
      requires Shaped(WithSlots(objs, o, slots)) && Safe(WithSlots(objs, o, slots), mark, currentwhite, Roots())
      requires GraphOk(WithSlots(objs, o, slots), rootgc, strt, hash, uvhead, mainthread, registry, running, {})
      modifies this`objs, this`mark, this`gray, this`grayagain
      ensures Valid() && objs == WithSlots(old(objs), o, slots) && Advances(old(mark), mark)
    {
      hide GraphOk, Safe, FitsShape, TriColour, Advances, Shaped, NoDangling, ValuesMarked, Progress, IsOpen;
      StoreMarkingReady(objs, mark, currentwhite, gray, grayagain, Roots(), o, slots, v);
      objs := objs[o := objs[o].(slots := slots)];
      AdvancesRefl(mark);
      if mark[o] == Black {
        if objs[o].kind == Table {
          if v.Collectable? && mark[v.ref].White? {
            BarrierBack(o);
          } else {
            BlackDone(objs, mark, gray, grayagain, o);
          }
        } else {
          KeepBlack(o, v);
          ProgressAdvances(objs, old(mark), mark);
        }
      }
      MarkingStaysSafe(objs, old(mark), mark, currentwhite, Roots(), Start());
    }

    /** Puts a black table that got a reference to a white object back among the objects to traverse: while
      * marking goes on, the tri-colour invariant needs no exception for it any more. */
    method BarrierBack(t: Ref)
      requires t in objs && objs[t].kind == Table && t in mark && mark[t] == Black
      requires phase != Pause && phase != Finalize
      requires phase == Propagate ==> TriColour(objs, mark, gray, grayagain, {t})
      modifies this`mark, this`grayagain
      ensures mark == old(mark)[t := Gray] && grayagain == [t] + old(grayagain)
      ensures phase == Propagate ==> TriColour(objs, mark, gray, grayagain, {}) && Advances(old(mark), mark)
    {
      if phase == Propagate {
        BlackUnlisted(objs, mark, gray, grayagain, {t}, t);
        BackToGray(objs, mark, gray, grayagain, t);
      }
      hide TriColour, Advances;
      mark := mark[t := Gray];
      grayagain := [t] + grayagain;
    }

    method StoreOtherwise(o: Ref, slots: seq<Value>, v: Value)
      requires Valid() && phase != Propagate && o in objs && FitsShape(objs, o, slots)
      requires v.Collectable? ==> Alive(mark, currentwhite, v.ref)
      requires Shaped(WithSlots(objs, o, slots)) && Safe(WithSlots(objs, o, slots), mark, currentwhite, Roots())
      requires GraphOk(WithSlots(objs, o, slots), rootgc, strt, hash, uvhead, mainthread, registry, running, {})
      modifies this`objs, this`mark, this`gray, this`grayagain
      ensures Valid() && objs == WithSlots(old(objs), o, slots)
      ensures forall r :: Alive(old(mark), currentwhite, r) ==> Alive(mark, currentwhite, r)
    {
      hide GraphOk, Safe, FitsShape, PhaseOk, Shaped;
      SafeKeys(objs, mark, currentwhite, Roots());
      StorePhase(phase, objs, mark, currentwhite, gray, grayagain, strt, sweepstrgc, rootgc, sweepgc, Start(), o,
                 slots);
      objs := objs[o := objs[o].(slots := slots)];
      if mark[o] == Black && v.Collectable? && mark[v.ref].White? {
        var c := if objs[o].kind == Table then Gray else White(currentwhite);
        RecolourBlack(phase, objs, mark, currentwhite, gray, grayagain, gray, if objs[o].kind == Table then [o] + grayagain else grayagain,
                      strt, sweepstrgc, rootgc, sweepgc, Start(), Roots(), o, c);
        if objs[o].kind == Table {
          BarrierBack(o);
        } else {
          BarrierF(o, v.ref);
        }
      }
    }

    lemma RunningAlive()
      requires Valid()
      ensures running in objs && objs[running].kind == Thread && Alive(mark, currentwhite, running)
      ensures mainthread in objs
      ensures objs[running].slots != [] && mark.Keys == objs.Keys
      ensures forall i :: 0 <= i < |objs[running].slots| && objs[running].slots[i].Collectable? ==>
        objs[running].slots[i].ref in objs && Alive(mark, currentwhite, objs[running].slots[i].ref)
    {
      assert Collectable(running) in Roots();
      assert Alive(mark, currentwhite, running);
      forall i | 0 <= i < |objs[running].slots| && objs[running].slots[i].Collectable?
        ensures Alive(mark, currentwhite, objs[running].slots[i].ref)
      {
        assert Edge(objs, running, objs[running].slots[i].ref);
      }
    }

    lemma FieldsAlive(o: Ref)
      requires Valid() && o in objs && Alive(mark, currentwhite, o)
      ensures Shaped(objs)
      ensures ValuesAlive(mark, currentwhite, if objs[o].kind == Upval then [ValueOf(objs, o)] else objs[o].slots)
    {
      GraphUvhead(objs, rootgc, strt, hash, uvhead, mainthread, registry, running, {});
      ValuesOfAlive(objs, mark, currentwhite, Roots(), o);
    }

    /** Pushes a value on the stack of the running thread. */
    method Push(v: Value)
      requires Valid() && (v.Collectable? ==> Alive(mark, currentwhite, v.ref))
      modifies this`objs, this`mark, this`gray, this`grayagain
      ensures Valid() && running in old(objs) && objs == Pushed(old(objs), running, v)
    {
      hide Valid, FitsShape;
      RunningAlive();
      StackFits(objs[running].slots + [v]);
      Store(running, objs[running].slots + [v], v);
    }

    lemma StackFits(slots: seq<Value>)
      requires Valid() && running in objs && objs[running].kind == Thread && |slots| >= |objs[running].slots|
      ensures FitsShape(objs, running, slots)
    {
      GraphUvhead(objs, rootgc, strt, hash, uvhead, mainthread, registry, running, {});
      ThreadSlotsFit(objs, running, slots);
    }

    /** Overwrites slot `i` of the running thread; the stack needs no barrier. */
    method SetSlot(i: nat, j: nat)
      requires Valid()
      modifies this`objs, this`mark, this`gray, this`grayagain
      ensures Valid() && Effect(SetLocal(i, j), old(Now()), Now())
    {
      hide Left, Advanced, Survival;
      hide Valid, FitsShape, Shaped;
      RunningAlive();
      ValidShaped();
      if i < |objs[running].slots| {
        StackFits(objs[running].slots[i := Slot(j)]);
        Store(running, objs[running].slots[i := Slot(j)], Slot(j));
      }
    }

    /** Pushes a field of an object. */
    method Load(i: nat, k: nat)
      requires Valid()
      modifies this`objs, this`mark, this`gray, this`grayagain
      ensures Valid() && Effect(Get(i, k), old(Now()), Now())
    {
      hide Left, Advanced, Survival;
      hide Valid, Shaped;
      RunningAlive();
      ValidShaped();
      if Slot(i).Collectable? {
        FieldsAlive(Slot(i).ref);
      }
      var found := FieldOf(Now(), i, k);
      if found != [] {
        Push(found[0]);
      }
    }

    /** Stores the value of slot `j` in field `k` of the object in slot `i`. */
    method StoreField(i: nat, k: nat, j: nat)
      requires Valid()
      modifies this`objs, this`mark, this`gray, this`grayagain
      ensures Valid() && Effect(Set(i, k, j), old(Now()), Now())
    {
      hide Left, Advanced, Survival;
      hide Valid, FitsShape;
      RunningAlive();
      ValidShaped();
      if Slot(i).Collectable? {
        var o := Slot(i).ref;
        if IsOpen(objs[o]) {
          var p := objs[o].place;
          UpvalTarget(objs, o);
          ThreadSlotsFit(objs, p.thread, objs[p.thread].slots[p.index := Slot(j)]);
          Store(p.thread, objs[p.thread].slots[p.index := Slot(j)], Slot(j));
        } else if objs[o].kind != String && k <= |objs[o].slots| && (k < |objs[o].slots| || objs[o].kind == Table) {
          var slots := if k < |objs[o].slots| then objs[o].slots[k := Slot(j)] else objs[o].slots + [Slot(j)];
          FieldFits(objs, o, slots);
          Store(o, slots, Slot(j));
        }
      }
    }

    lemma ValidShaped()
      requires Valid()
      ensures Shaped(objs) && mark.Keys == objs.Keys
    {
      GraphUvhead(objs, rootgc, strt, hash, uvhead, mainthread, registry, running, {});
    }

    /** Allocates an object at the free address `r`, with fields taken from the stack, links it and
      * pushes it; a new thread shares the globals. Userdata go behind the main thread in `rootgc`, all
      * others in front. */
    method New(kind: Kind, at: seq<nat>, r: Ref)
      requires Valid()
      modifies this`objs, this`mark, this`gray, this`grayagain, this`rootgc, this`sweepgc
      ensures Valid() && Effect(Allocate(kind, at, r), old(Now()), Now())
    {
      hide Left, Advanced, Survival;
      hide Valid, Shaped, NewObj, Fresh, Pushed;
      RunningAlive();
      ValidShaped();
      if CanAllocate(Now(), kind, at, r) {
        NewIsFresh(kind, at, r);
        LinkNew(NewObj(Now(), kind, at), r);
        Push(Collectable(r));
      }
    }

    lemma NewIsFresh(kind: Kind, at: seq<nat>, r: Ref)
      requires Valid() && running in objs && CanAllocate(Now(), kind, at, r)
      ensures Fresh(mark, currentwhite, NewObj(Now(), kind, at))
    {
      hide Valid;
      RunningAlive();
    }

    method LinkNew(obj: Obj, r: Ref)
      requires Valid() && r !in objs && Fresh(mark, currentwhite, obj)
      modifies this`objs, this`mark, this`rootgc, this`sweepgc
      ensures Valid() && objs == old(objs)[r := obj] && Alive(mark, currentwhite, r)
    {
      hide GraphOk, Safe, PhaseOk, Fresh;
      var at := 0;
      if obj.kind == Userdata {
        MainInRoots();
        while rootgc[at] != mainthread
          invariant at < |rootgc| && mainthread in rootgc[at..]
          decreases |rootgc| - at
        {
          at := at + 1;
        }
        at := at + 1;
      }
      AddKeeps(phase, objs, mark, currentwhite, gray, grayagain, strt, hash, sweepstrgc, rootgc, sweepgc, uvhead,
               mainthread, registry, running, Start(), Roots(), r, obj, at);
      objs := objs[r := obj];
      mark := mark[r := White(currentwhite)];
      rootgc := Inserted(rootgc, at, r);
      sweepgc := ShiftedAt(sweepgc, at);
    }

    lemma MainInRoots()
      requires GraphOk(objs, rootgc, strt, hash, uvhead, mainthread, registry, running, {})
      ensures mainthread in rootgc
    {
    }

    /** The string object with these characters, in the bucket of their hash. */
    method FindString(text: string) returns (found: bool, o: Ref)
      requires GraphOk(objs, rootgc, strt, hash, uvhead, mainthread, registry, running, {})
      ensures found ==> o in objs && objs[o].kind == String && objs[o].text == text
      ensures found ==> forall x :: x in objs && objs[x].kind == String && objs[x].text == text ==> x == o
      ensures !found ==> forall x :: x in objs && objs[x].kind == String ==> objs[x].text != text
    {
      hide Shaped, RootListOk, OpenOk, UvheadOk, FixedOk;
      var bucket := strt[Bucket(hash, text, |strt|)];
      found, o := false, 0;
      for n := 0 to |bucket|
        invariant !found && forall m :: 0 <= m < n ==> bucket[m] in objs && objs[bucket[m]].text != text
      {
        assert bucket[n] in bucket;
        if objs[bucket[n]].text == text {
          return true, bucket[n];
        }
      }
    }

    /** Pushes the string with these characters: the one there is (brought back if it was about to be
      * swept), or a new one at the free address `r`. The table is doubled when it gets too crowded. */
    method NewString(text: string, r: Ref)
      requires Valid()
      modifies this`objs, this`mark, this`gray, this`grayagain, this`strt
      ensures Valid() && Effect(Intern(text, r), old(Now()), Now())
    {
      hide Left, Advanced, Survival;
      hide Safe, PhaseOk, GraphOk, Shaped, StringPushed, Pushed, StringObj, Roots, Start;
      RunningAlive();
      ValidShaped();
      var found, o := FindString(text);
      if found {
        Revive(o);
        Push(Collectable(o));
        FoundInterned(old(Now()), Now(), text, r, o);
      } else {
        if r !in objs {
          AddString(text, r);
        }
        NewInterned(old(Now()), Now(), text, r);
      }
    }

    method AddString(text: string, r: Ref)
      requires Valid() && r !in objs && running in objs
      requires forall x :: x in objs && objs[x].kind == String ==> objs[x].text != text
      modifies this`objs, this`mark, this`gray, this`grayagain, this`strt
      ensures Valid() && running in old(objs)
      ensures objs == Pushed(old(objs)[r := StringObj(text)], running, Collectable(r))
    {
      hide Valid, Pushed, StringObj;
      LinkString(text, r);
      if |Strings(objs)| > |strt| {
        GrowStrings();
      }
      Push(Collectable(r));
    }

    /** `luaS_fix`: the string in slot `i` is never collected, as the reserved words are not. */
    method FixString(i: nat)
      requires Valid()
      modifies this`objs
      ensures Valid() && Effect(Fix(i), old(Now()), Now())
    {
      hide Left, Advanced, Survival;
      hide GraphOk, PhaseOk, Safe, WithFixed, Shaped;
      RunningAlive();
      ValidShaped();
      if IsString(objs, Slot(i)) {
        var o := Slot(i).ref;
        FixGraph(objs, rootgc, strt, hash, uvhead, mainthread, registry, running, o);
        FixKeeps(phase, objs, mark, currentwhite, gray, grayagain, strt, sweepstrgc, rootgc, sweepgc, Start(), Roots(),
                 o);
        objs := WithFixed(objs, o);
      }
    }

    /** A dead string found by a lookup is made alive. */
    method Revive(o: Ref)
      requires Valid() && o in objs && objs[o].kind == String
      modifies this`mark
      ensures Valid() && Alive(mark, currentwhite, o)
    {
      hide GraphOk, PhaseOk, Shaped, Safe;
      ValidShaped();
      if mark[o] == White(!currentwhite) {
        StringHasNoEdge(objs, o);
        Resurrect(phase, objs, mark, currentwhite, gray, grayagain, strt, sweepstrgc, rootgc, sweepgc, Start(), Roots(),
                  o);
        mark := mark[o := White(currentwhite)];
      }
    }

    method LinkString(text: string, r: Ref)
      requires Valid() && r !in objs && running in objs
      requires forall x :: x in objs && objs[x].kind == String ==> objs[x].text != text
      modifies this`objs, this`mark, this`strt
      ensures Valid() && objs == old(objs)[r := StringObj(text)] && Alive(mark, currentwhite, r)
    {
      hide GraphOk, PhaseOk, Safe;
      AddStringKeeps(phase, objs, mark, currentwhite, gray, grayagain, strt, hash, sweepstrgc, rootgc, sweepgc, uvhead,
                     mainthread, registry, running, Start(), Roots(), r, text);
      var h := Bucket(hash, text, |strt|);
      objs := objs[r := StringObj(text)];
      mark := mark[r := White(currentwhite)];
      strt := strt[h := [r] + strt[h]];
    }

    method GrowStrings()
      requires Valid()
      modifies this`strt
      ensures Valid() && |strt| == if phase == SweepString then old(|strt|) else 2 * old(|strt|)
    {
      hide Shaped, RootListOk, StringsOk, OpenOk, UvheadOk, FixedOk, Safe, ColoursFit, RootsSwept, StringsSwept,
        MarkingOk, IdleOk;
      ValidMain();
      SafeKeys(objs, mark, currentwhite, Roots());
      ResizeStrings(|strt| * 2);
      if phase == Sweep {
        SweptStrings(objs, mark, currentwhite, old(strt), strt, hash);
      }
    }

    /** Where an upvalue on slot `level` is, or belongs, in the list of the running thread. */
    method SearchUpval(level: nat) returns (found: bool, at: nat)
      requires Valid() && running in objs
      ensures at <= |objs[running].open| && forall u :: u in objs[running].open ==> u in objs && IsOpen(objs[u])
      ensures found ==> at < |objs[running].open| && objs[objs[running].open[at]].place == Open(running, level)
      ensures !found ==> BelongsAt(objs, running, level, at)
    {
      hide Valid, OpenOk;
      ValidOpenList();
      at := 0;
      while at < |objs[running].open| && objs[objs[running].open[at]].place.index > level
        invariant at <= |objs[running].open|
        invariant forall i :: 0 <= i < at ==> objs[objs[running].open[i]].place.index > level
        decreases |objs[running].open| - at
      {
        at := at + 1;
      }
      found := at < |objs[running].open| && objs[objs[running].open[at]].place.index == level;
    }

    /** The upvalue on slot `level` of the running thread: the one there is (brought back if it was about
      * to be swept), or a new one at the free address `r`, chained where it belongs. */
    method FindUpval(level: nat, r: Ref) returns (uv: Ref, ghost at: nat)
      requires Valid() && r !in objs && running in objs && 0 < level < |objs[running].slots|
      modifies this`objs, this`mark, this`uvhead
      ensures Valid() && Alive(mark, currentwhite, uv) && running in old(objs)
      ensures uv in old(objs) ==> objs == old(objs) && objs[uv].kind == Upval && objs[uv].place == Open(running, level)
      ensures uv !in old(objs) ==> uv == r && NoneOn(old(objs), running, level)
      ensures uv !in old(objs) ==>
        at <= |old(objs)[running].open| && objs == WithUpval(old(objs), running, level, at, r)
      ensures forall x :: Alive(old(mark), currentwhite, x) ==> Alive(mark, currentwhite, x)
    {
      hide Valid, BelongsAt;
      RunningAlive();
      var found, i := SearchUpval(level);
      at := i;
      if found {
        assert objs[running].open[i] in objs[running].open;
        uv := objs[running].open[i];
        ReviveUpval(uv, level);
      } else {
        uv := r;
        NoneThere(level, i);
        LinkOpenUpval(level, i, r);
      }
    }

    lemma ValidOpenList()
      requires Valid() && running in objs
      ensures OpenListOk(objs, running)
    {
      hide PhaseOk, Safe, Shaped, RootListOk, UvheadOk, FixedOk, StringsOk;
    }

    lemma NoneThere(level: nat, at: nat)
      requires Valid() && running in objs && BelongsAt(objs, running, level, at)
      ensures at <= |objs[running].open|
      ensures NoneOn(objs, running, level)
    {
      hide PhaseOk, Safe;
    }

    /** Adds to the new closure in slot `j` the upvalue on slot `level` of the running thread. */
    method CaptureUpval(level: nat, j: nat, r: Ref)
      requires Valid()
      modifies this`objs, this`mark, this`gray, this`grayagain, this`uvhead
      ensures Valid() && Effect(Capture(level, j, r), old(Now()), Now())
    {
      hide Left, Effect, Captured;
      hide Valid, FitsShape, Shaped, NoneOn, WithSlots;
      RunningAlive();
      ValidShaped();
      if CanCapture(Now(), level, j, r) {
        var cl := Slot(j).ref;
        var uv;
        ghost var at;
        uv, at := FindUpval(level, r);
        ghost var found := objs;
        ValidShaped();
        assert UpvalOf(old(Now()), level, r, found, uv, at);
        hide UpvalOf, WithUpval;
        AddUpvalue(cl, uv);
        CapturedIs(old(Now()), objs, level, cl, r, found, uv, at);
        CaptureEffect(old(Now()), Now(), level, j, r, found, uv, at);
      } else {
        NoCapture(old(Now()), level, j, r);
      }
    }

    /** The closure gets one more upvalue. */
    method AddUpvalue(cl: Ref, uv: Ref)
      requires Valid() && cl in objs && objs[cl].kind == Function && Alive(mark, currentwhite, uv)
      modifies this`objs, this`mark, this`gray, this`grayagain
      ensures Valid() && cl in old(objs) && objs == WithSlots(old(objs), cl, old(objs)[cl].slots + [Collectable(uv)])
    {
      hide Valid, FitsShape, Shaped;
      ValidShaped();
      FieldFits(objs, cl, objs[cl].slots + [Collectable(uv)]);
      Store(cl, objs[cl].slots + [Collectable(uv)], Collectable(uv));
    }

    method ReviveUpval(uv: Ref, level: nat)
      requires Valid() && uv in objs && objs[uv].kind == Upval && objs[uv].place == Open(running, level)
      modifies this`mark
      ensures Valid() && Alive(mark, currentwhite, uv)
      ensures forall x :: Alive(old(mark), currentwhite, x) ==> Alive(mark, currentwhite, x)
    {
      hide GraphOk, PhaseOk, Shaped, Safe, Edge;
      ValidShaped();
      if mark[uv] == White(!currentwhite) {
        UpvalOfRunning(uv);
        Resurrect(phase, objs, mark, currentwhite, gray, grayagain, strt, sweepstrgc, rootgc, sweepgc, Start(), Roots(),
                  uv);
        mark := mark[uv := White(currentwhite)];
      }
    }

    lemma UpvalOfRunning(uv: Ref)
      requires Valid() && uv in objs && IsOpen(objs[uv]) && objs[uv].place.thread == running
      ensures forall b :: Edge(objs, uv, b) ==> Alive(mark, currentwhite, b)
    {
      hide GraphOk, PhaseOk, Edge, Shaped;
      ValidShaped();
      assert Collectable(running) in Roots();
      assert Alive(mark, currentwhite, running);
      forall b | Edge(objs, uv, b)
        ensures Alive(mark, currentwhite, b)
      {
        OpenUpvalEdge(objs, uv, running, b);
      }
    }

    method LinkOpenUpval(level: nat, at: nat, r: Ref)
      requires Valid() && r !in objs && running in objs && Alive(mark, currentwhite, running)
      requires level < |objs[running].slots| && BelongsAt(objs, running, level, at) && at <= |objs[running].open|
      modifies this`objs, this`mark, this`uvhead
      ensures Valid() && objs == WithUpval(old(objs), running, level, at, r)
      ensures forall x :: x == r || Alive(old(mark), currentwhite, x) ==> Alive(mark, currentwhite, x)
    {
      hide GraphOk, PhaseOk, Safe, BelongsAt;
      AddUpvalKeeps(phase, objs, mark, currentwhite, gray, grayagain, strt, hash, sweepstrgc, rootgc, sweepgc, uvhead,
                    mainthread, registry, running, Start(), Roots(), level, at, r);
      objs := WithUpval(objs, running, level, at, r);
      uvhead := [r] + uvhead;
      mark := mark[r := White(currentwhite)];
    }

    /** Cuts the stack of the running thread down to `n` slots, closing the upvalues above first. */
    method PopTo(n: nat)
      requires Valid()
      modifies this`objs, this`mark, this`gray, this`grayagain, this`uvhead, this`rootgc, this`sweepgc
      ensures Valid() && Effect(Return(n), old(Now()), Now())
    {
      hide Left, Effect;
      hide Valid, FitsShape, Shaped, Usable, ClosedFrom;
      RunningAlive();
      ValidShaped();
      if 0 < n < |objs[running].slots| {
        CloseFrom(n);
        RunningAlive();
        ClosedNoneAbove(old(objs), objs, running, n);
        PopFits(objs, running, n);
        ghost var closed := objs;
        assert ClosedDown(old(Now()), closed, n);
        Store(running, objs[running].slots[..n], Plain);
        ReturnEffect(old(Now()), Now(), n, closed);
      } else {
        NoReturn(old(Now()), n);
      }
    }

    method CloseFrom(n: nat)
      requires Valid() && running in objs && objs[running].kind == Thread
      modifies this`objs, this`mark, this`gray, this`uvhead, this`rootgc, this`sweepgc
      ensures Valid() && Usable(old(objs), objs, Roots()) && ClosedFrom(old(objs), objs, running, n)
      ensures running in objs && objs[running].kind == Thread && objs[running].slots == old(objs)[running].slots
    {
      hide GraphOk, PhaseOk, Safe, KeepsContents, ClosedFrom, Usable;
      Close(running, n, {});
      ContentsUsable(old(objs), old(mark), objs, currentwhite, Roots());
    }

    /** Switches to the thread in slot `i`, or to the main thread. */
    method Switch(i: nat, toMain: bool)
      requires Valid()
      modifies this`running
      ensures Valid() && Effect(if toMain then Yield else Resume(i), old(Now()), Now())
    {
      hide Advanced, Survival;
      hide PhaseOk, GraphOk, Safe, Shaped;
      RunningAlive();
      ValidShaped();
      if toMain {
        SwitchTo(mainthread);
        running := mainthread;
      } else if Slot(i).Collectable? && objs[Slot(i).ref].kind == Thread {
        SwitchTo(Slot(i).ref);
        running := Slot(i).ref;
      }
    }

    lemma SwitchTo(t: Ref)
      requires Valid() && (t == mainthread || (t in objs && objs[t].kind == Thread && Alive(mark, currentwhite, t)))
      ensures GraphOk(objs, rootgc, strt, hash, uvhead, mainthread, registry, t, {})
      ensures Safe(objs, mark, currentwhite, [Collectable(mainthread), Collectable(registry), Collectable(t)] + mt)
    {
      hide PhaseOk, Edge, Shaped, RootListOk, StringsOk, OpenOk, UvheadOk, FixedOk, Alive;
      var roots := [Collectable(mainthread), Collectable(registry), Collectable(t)] + mt;
      assert Collectable(mainthread) in Roots();
      forall v | v in roots
        ensures v == Collectable(t) || v in Roots()
      {
      }
    }

    /** Sets the metatable of a basic type; there is no barrier, as these are marked atomically. */
    method SetMetatable(k: nat, i: nat)
      requires Valid()
      modifies this`mt
      ensures Valid() && Effect(BasicMetatable(k, i), old(Now()), Now())
    {
      hide Advanced, Survival;
      hide PhaseOk, GraphOk, Edge, Shaped;
      RunningAlive();
      ValidShaped();
      if k < |mt| {
        mt := mt[k := Slot(i)];
      }
    }

    /** One operation of the program, or of the collector. */
    method Perform(op: Op)
      requires Valid()
      modifies this
      ensures Valid() && Effect(op, old(Now()), Now())
    {
      hide Advanced;
      hide Valid, Reachable, Survival;
      RunningAlive();
      ValidShaped();
      match op {
        case Step => StepOnce();
        case Collect => FullGC();
        case PushPlain => Push(Plain);
        case SetLocal(i, j) => SetSlot(i, j);
        case Get(i, k) => Load(i, k);
        case Set(i, k, j) => StoreField(i, k, j);
        case Allocate(kind, at, r) => New(kind, at, r);
        case Intern(text, r) => NewString(text, r);
        case Fix(i) => FixString(i);
        case Capture(level, j, r) => CaptureUpval(level, j, r);
        case Return(depth) => PopTo(depth);
        case Resume(i) => Switch(i, false);
        case Yield => Switch(0, true);
        case BasicMetatable(k, i) => SetMetatable(k, i);
      }
    }

    /** Runs any program against any schedule of collector steps: every operation has its effect, and in every
      * state nothing that can be reached is missing or dead. */
    method Run(ops: seq<Op>) returns (ghost trace: seq<View>)
      requires Valid()
      modifies this
      ensures Valid() && Follows(ops, trace) && trace[0] == old(Now()) && trace[|ops|] == Now()
      ensures forall n :: 0 <= n <= |ops| ==> NoneLost(trace[n])
      ensures forall r :: Reachable(objs, RootSet(Roots()), r) ==> r in objs && Alive(mark, currentwhite, r)
    {
      hide Valid, Reachable, Effect, NoneLost, Settled;
      trace := [Now()];
      IsSettled();
      NoneIsLost();
      for n := 0 to |ops|
        invariant Valid() && |trace| == n + 1 && trace[0] == old(Now()) && trace[n] == Now()
        invariant forall m :: 0 <= m < n ==> Effect(ops[m], trace[m], trace[m + 1])
        invariant forall m :: 0 <= m <= n ==> NoneLost(trace[m]) && Settled(trace[m])
      {
        Perform(ops[n]);
        IsSettled();
        NoneIsLost();
        trace := trace + [Now()];
      }
      ReachableStays();
    }

    /** A whole program, from the new state on. */
    static method RunProgram(hash: string -> nat, main: Ref, globals: Ref, registry: Ref, ops: seq<Op>)
      returns (g: GlobalState, ghost trace: seq<View>)
      requires main != globals && globals != registry && registry != main
      ensures fresh(g) && g.Valid() && Follows(ops, trace) && trace[|ops|] == g.Now()
      ensures trace[0].objs == Newborn(main, globals, registry) && trace[0].mainthread == trace[0].running == main
      ensures trace[0].registry == registry
      ensures forall n :: 0 <= n <= |ops| ==> NoneLost(trace[n])
      ensures forall r :: Reachable(g.objs, RootSet(g.Roots()), r) ==> r in g.objs && Alive(g.mark, g.currentwhite, r)
    {
      g := new GlobalState(hash, main, globals, registry);
      trace := g.Run(ops);
    }

    lemma NoneIsLost()
      requires Valid()
      ensures NoneLost(Now())
    {
      hide Valid, Reachable;
      ReachableStays();
    }

    /** A step of the collector on behalf of the program. */
    method StepOnce()
      requires Valid()
      modifies this
      ensures Valid() && Effect(Step, old(Now()), Now()) && Roots() == old(Roots())
      ensures phase == old(phase) ==> Work() < old(Work())
    {
      hide GraphOk, Safe, Survival, SweepEffect, PhaseOk, Reachable, Shaped, Confines, Settled, RootsOf, Work, Left;
      RunningAlive();
      ValidShaped();
      SurvivesSoFar();
      IsSettled();
      SameRoots();
      StepConfines();
      ghost var s := Now();
      ghost var among := FromSources(s);
      SingleStep(among);
      IsSettled();
      if old(phase) in {SweepString, Sweep} {
        SweepSurvival(old(objs), old(mark), objs, mark, currentwhite, Roots());
        SweptNotRevived(s, Now());
      } else {
        MarkedFromSources(s);
      }
    }

    lemma SameRoots()
      ensures Roots() == RootsOf(Now())
    {
    }

    lemma StepConfines()
      requires Valid()
      ensures Confines(FromSources(Now()))
    {
      hide GraphOk, Reachable, Shaped, MarkingOk;
      if phase == Pause || phase == Propagate {
        NoneDeadYet();
        AllAlive(objs, mark, currentwhite, Roots());
        SafeKeys(objs, mark, currentwhite, Roots());
        SourcesConfine(Now());
      }
    }

    lemma NoneDeadYet()
      requires Valid() && (phase == Pause || phase == Propagate)
      ensures forall r :: r in mark ==> mark[r] != White(!currentwhite)
    {
      hide GraphOk, Safe;
    }

    lemma ReachableStays()
      requires Valid()
      ensures forall r :: Reachable(objs, RootSet(Roots()), r) ==> r in objs && Alive(mark, currentwhite, r)
    {
      hide GraphOk, PhaseOk, Safe, Reachable;
      forall r | Reachable(objs, RootSet(Roots()), r)
        ensures r in objs && Alive(mark, currentwhite, r)
      {
        ReachableIsAlive(objs, mark, currentwhite, Roots(), r);
      }
    }
  }
}
