/** The program that runs beside the collector, as the program sees it: what every operation does to the objects. */
module GcProgram {
  import opened GcHeap
  import opened GcSafety
  import opened GcMutator

  /** What a program can do between two steps of the collector, and the steps. Objects are named by the
    * slot of the running thread's stack that holds them; `r` is the address the allocator offers. */
  datatype Op =
    | Step
    | Collect
    | PushPlain
    | SetLocal(i: nat, j: nat)
    | Get(i: nat, k: nat)
    | Set(i: nat, k: nat, j: nat)
    | Allocate(kind: Kind, at: seq<nat>, r: Ref)
    | Intern(text: string, r: Ref)
    | Fix(i: nat)
    | Capture(level: nat, j: nat, r: Ref)
    | Return(depth: nat)
    | Resume(i: nat)
    | Yield
    | BasicMetatable(k: nat, i: nat)

  /** The objects, what the program starts from, and how far the collector is: `white` is the current white, and
    * `left` bounds the number of steps to the end of the cycle. Of the colours the program needs to know only
    * that a closure that was just created is white. */
  datatype View = View(objs: Objs, mark: Marks, white: bool, phase: Phase, left: int,
                       mainthread: Ref, registry: Ref, running: Ref, mt: seq<Value>)

  function RootsOf(s: View): seq<Value> {
    [Collectable(s.mainthread), Collectable(s.registry), Collectable(s.running)] + s.mt
  }

  function Stack(s: View): seq<Value>
    requires s.running in s.objs
  {
    s.objs[s.running].slots
  }

  /** The value in slot `i` of the running thread. */
  function SlotOf(s: View, i: nat): Value
    requires s.running in s.objs
  {
    if i < |Stack(s)| then Stack(s)[i] else Plain
  }

  /** The objects with a value pushed on the stack of thread `t`. */
  function Pushed(objs: Objs, t: Ref, v: Value): Objs
    requires t in objs
  {
    WithSlots(objs, t, objs[t].slots + [v])
  }

  /** Field `k` of the object in slot `i`, if there is one; of an upvalue, the value it stands for. */
  function FieldOf(s: View, i: nat, k: nat): (found: seq<Value>)
    requires s.running in s.objs && Shaped(s.objs)
    ensures |found| <= 1
  {
    var v := SlotOf(s, i);
    if v.Collectable? && v.ref in s.objs then
      var fields := if s.objs[v.ref].kind == Upval then [ValueOf(s.objs, v.ref)] else s.objs[v.ref].slots;
      if k < |fields| then [fields[k]] else []
    else []
  }

  /** The objects after storing `v` in field `k` of object `o`: a table, userdata, closure, prototype,
    * upvalue or thread. An open upvalue is written through, into the stack it points to. */
  function Stored(objs: Objs, o: Ref, k: nat, v: Value): Objs
    requires o in objs && Shaped(objs)
  {
    if IsOpen(objs[o]) then
      var p := objs[o].place;
      WithSlots(objs, p.thread, objs[p.thread].slots[p.index := v])
    else if objs[o].kind != String && k < |objs[o].slots| then WithSlots(objs, o, objs[o].slots[k := v])
    else if objs[o].kind == Table && k == |objs[o].slots| then WithSlots(objs, o, objs[o].slots + [v])
    else objs
  }

  /** A new object; a new thread shares the globals. */
  function NewObj(s: View, kind: Kind, at: seq<nat>): Obj
    requires s.running in s.objs
  {
    var slots := seq(|at|, n requires 0 <= n < |at| && s.running in s.objs => SlotOf(s, at[n]));
    Obj(kind, false, if kind == Thread then [SlotOf(s, 0)] else slots, Closed, [], "")
  }

  predicate CanAllocate(s: View, kind: Kind, at: seq<nat>, r: Ref) {
    r !in s.objs && kind != String && (kind == Upval ==> |at| == 1)
  }

  predicate IsString(objs: Objs, v: Value) { v.Collectable? && v.ref in objs && objs[v.ref].kind == String }

  predicate IsText(objs: Objs, o: Ref, text: string) { o in objs && objs[o].kind == String && objs[o].text == text }

  /** There is a slot, and a closure to have it as an upvalue. */
  predicate CanCapture(s: View, level: nat, j: nat, r: Ref)
    requires s.running in s.objs
  {
    var v := SlotOf(s, j);
    && 0 < level < |Stack(s)| && r !in s.objs
    && v.Collectable? && v.ref in s.objs && s.objs[v.ref].kind == Function && v.ref in s.mark && s.mark[v.ref].White?
  }

  /** `uv` is the upvalue of the slot: the one there was, or if there was none, a new one. */
  ghost predicate UpvalOf(s: View, level: nat, r: Ref, objs: Objs, uv: Ref, at: nat)
    requires s.running in s.objs
  {
    if uv in s.objs then objs == s.objs && s.objs[uv].kind == Upval && s.objs[uv].place == Open(s.running, level)
    else
      && uv == r && NoneOn(s.objs, s.running, level)
      && at <= |s.objs[s.running].open| && objs == WithUpval(s.objs, s.running, level, at, r)
  }

  /** The upvalue of the slot has become the last one of the closure `cl`. */
  ghost predicate Captured(s: View, objs: Objs, level: nat, cl: Ref, r: Ref, found: Objs, uv: Ref, at: nat)
    requires s.running in s.objs
  {
    && UpvalOf(s, level, r, found, uv, at)
    && cl in found && objs == WithSlots(found, cl, found[cl].slots + [Collectable(uv)])
  }

  /** The upvalues at or above `n` are closed. */
  ghost predicate ClosedDown(s: View, closed: Objs, n: nat)
    requires s.running in s.objs
  {
    && Usable(s.objs, closed, RootsOf(s)) && ClosedFrom(s.objs, closed, s.running, n)
    && s.running in closed && closed[s.running].slots == Stack(s)
  }

  /** The objects have changed, and besides only colours. */
  ghost predicate Objects(s: View, s1: View, objs: Objs) { s1 == s.(objs := objs, mark := s1.mark, left := s1.left) }

  /** Where marking goes on from. */
  function Sources(s: View): set<Ref> {
    RootSet(RootsOf(s)) + (if s.phase == Propagate then set r | r in s.mark && !s.mark[r].White? else {})
  }

  /** A step of the collector: it goes on in its phase or to the next one, and it gets on. What it marks can be
    * reached from the roots or from what was marked. */
  ghost predicate Advanced(s: View, s1: View) {
    && s1 == s.(objs := s1.objs, mark := s1.mark, white := s1.white, phase := s1.phase, left := s1.left)
    && (s.phase != Pause ==> s1.left < s.left)
    && match s.phase
       case Pause => s1.phase == Propagate && s1.objs == s.objs && MarkedFrom(s, s1)
       case Propagate =>
         && s1.objs == s.objs
         && ((s1.phase == Propagate && MarkedFrom(s, s1)) || (s1.phase == SweepString && s1.white == !s.white && AliveFrom(s, s1)))
       case SweepString => (s1.phase == SweepString || s1.phase == Sweep) && NoneRevived(s, s1)
       case Sweep => (s1.phase == Sweep || s1.phase == Finalize) && NoneRevived(s, s1)
       case Finalize => s1.phase == Pause && s1.objs == s.objs && s1.mark == s.mark && s1.white == s.white
  }

  ghost predicate MarkedFrom(s: View, s1: View) {
    s1.white == s.white && forall r :: Marked(s1.mark, r) ==> Reachable(s.objs, Sources(s), r)
  }

  ghost predicate AliveFrom(s: View, s1: View) {
    forall r :: Alive(s1.mark, s1.white, r) ==> Reachable(s.objs, Sources(s), r)
  }

  ghost predicate NoneRevived(s: View, s1: View) {
    && s1.white == s.white
    && forall r :: r in s1.objs && Alive(s1.mark, s1.white, r) ==>
      r in s.objs && (Alive(s.mark, s.white, r) || s.objs[r].fixed)
  }

  /** Between two cycles no object is dead, and no step is left. */
  ghost predicate Settled(s: View) {
    && s.left >= 0 && (s.left == 0 <==> s.phase == Pause)
    && (s.phase == Pause ==> forall r :: r in s.objs ==> Alive(s.mark, s.white, r))
  }

  /** What an operation does. */
  ghost predicate Effect(op: Op, s: View, s1: View) {
    && s.running in s.objs && Shaped(s.objs)
    && match op
       case Step => Advanced(s, s1) && Survival(s.objs, s1.objs, RootsOf(s))
       case Collect =>
         && s1 == s.(objs := s1.objs, mark := s1.mark, white := s1.white, phase := Pause, left := 0)
         && Survival(s.objs, s1.objs, RootsOf(s))
         && forall r :: r in s1.objs <==> r in s.objs && (Reachable(s.objs, RootSet(RootsOf(s)), r) || s.objs[r].fixed)
       case PushPlain => Objects(s, s1, Pushed(s.objs, s.running, Plain))
       case SetLocal(i, j) =>
         Objects(s, s1, if i < |Stack(s)| then WithSlots(s.objs, s.running, Stack(s)[i := SlotOf(s, j)]) else s.objs)
       case Get(i, k) =>
         var found := FieldOf(s, i, k);
         Objects(s, s1, if found == [] then s.objs else Pushed(s.objs, s.running, found[0]))
       case Set(i, k, j) =>
         var v := SlotOf(s, i);
         Objects(s, s1, if v.Collectable? && v.ref in s.objs then Stored(s.objs, v.ref, k, SlotOf(s, j)) else s.objs)
       case Allocate(kind, at, r) =>
         if CanAllocate(s, kind, at, r) then
           Objects(s, s1, Pushed(s.objs[r := NewObj(s, kind, at)], s.running, Collectable(r)))
         else Objects(s, s1, s.objs)
       case Intern(text, r) => StringPushed(s, s1, text, r)
       case Fix(i) =>
         var v := SlotOf(s, i);
         Objects(s, s1, if IsString(s.objs, v) then WithFixed(s.objs, v.ref) else s.objs)
       case Capture(level, j, r) =>
         && Objects(s, s1, s1.objs)
         && if CanCapture(s, level, j, r) then
              exists found, uv, at :: Captured(s, s1.objs, level, SlotOf(s, j).ref, r, found, uv, at)
            else s1.objs == s.objs
       case Return(depth) =>
         && Objects(s, s1, s1.objs)
         && if 0 < depth < |Stack(s)| then
              exists closed ::
                ClosedDown(s, closed, depth) && s1.objs == WithSlots(closed, s.running, Stack(s)[..depth])
            else s1.objs == s.objs
       case Resume(i) =>
         var v := SlotOf(s, i);
         if v.Collectable? && v.ref in s.objs && s.objs[v.ref].kind == Thread then s1 == s.(running := v.ref)
         else s1 == s
       case Yield => s1 == s.(running := s.mainthread)
       case BasicMetatable(k, i) => s1 == s.(mt := if k < |s.mt| then s.mt[k := SlotOf(s, i)] else s.mt)
  }

  /** Every step of a run is the effect of its operation. */
  ghost predicate Follows(ops: seq<Op>, trace: seq<View>) {
    && |trace| == |ops| + 1
    && (forall n :: 0 <= n < |ops| ==> Effect(ops[n], trace[n], trace[n + 1]))
    && forall n :: 0 <= n <= |ops| ==> Settled(trace[n])
  }

  /** Nothing that the program can reach has been freed. */
  ghost predicate NoneLost(s: View) { forall r :: Reachable(s.objs, RootSet(RootsOf(s)), r) ==> r in s.objs }

  /** A string is pushed: the one with these characters that there is, or a new one. */
  ghost predicate StringPushed(s: View, s1: View, text: string, r: Ref)
    requires s.running in s.objs
  {
    && (forall x :: IsText(s.objs, x, text) ==> Objects(s, s1, Pushed(s.objs, s.running, Collectable(x))))
    && ((forall x :: !IsText(s.objs, x, text)) ==>
          if r in s.objs then Objects(s, s1, s.objs)
          else Objects(s, s1, Pushed(s.objs[r := StringObj(text)], s.running, Collectable(r))))
  }

  lemma CapturedIs(s: View, objs: Objs, level: nat, cl: Ref, r: Ref, found: Objs, uv: Ref, at: nat)
    requires s.running in s.objs && UpvalOf(s, level, r, found, uv, at)
    requires cl in found && objs == WithSlots(found, cl, found[cl].slots + [Collectable(uv)])
    ensures Captured(s, objs, level, cl, r, found, uv, at)
  {
    hide UpvalOf, WithSlots;
  }

  lemma CaptureEffect(s: View, s1: View, level: nat, j: nat, r: Ref, found: Objs, uv: Ref, at: nat)
    requires s.running in s.objs && Shaped(s.objs) && Objects(s, s1, s1.objs) && CanCapture(s, level, j, r)
    requires Captured(s, s1.objs, level, SlotOf(s, j).ref, r, found, uv, at)
    ensures Effect(Capture(level, j, r), s, s1)
  {
    hide Captured, Shaped;
  }

  lemma NoCapture(s: View, level: nat, j: nat, r: Ref)
    requires s.running in s.objs && Shaped(s.objs) && !CanCapture(s, level, j, r)
    ensures Effect(Capture(level, j, r), s, s)
  {
    hide Captured, Shaped, CanCapture;
  }

  lemma ReturnEffect(s: View, s1: View, depth: nat, closed: Objs)
    requires s.running in s.objs && Shaped(s.objs) && Objects(s, s1, s1.objs) && 0 < depth < |Stack(s)|
    requires ClosedDown(s, closed, depth) && s1.objs == WithSlots(closed, s.running, Stack(s)[..depth])
    ensures Effect(Return(depth), s, s1)
  {
    hide Shaped, Usable, ClosedFrom;
  }

  lemma NoReturn(s: View, depth: nat)
    requires s.running in s.objs && Shaped(s.objs) && !(0 < depth < |Stack(s)|)
    ensures Effect(Return(depth), s, s)
  {
    hide Shaped, ClosedDown;
  }

  lemma FoundInterned(s: View, s1: View, text: string, r: Ref, o: Ref)
    requires s.running in s.objs && IsText(s.objs, o, text) && (forall x :: IsText(s.objs, x, text) ==> x == o)
    requires Objects(s, s1, Pushed(s.objs, s.running, Collectable(o)))
    ensures StringPushed(s, s1, text, r)
  {
    hide Objects, Pushed;
  }

  lemma NewInterned(s: View, s1: View, text: string, r: Ref)
    requires s.running in s.objs && forall x :: !IsText(s.objs, x, text)
    requires if r in s.objs then Objects(s, s1, s.objs)
      else Objects(s, s1, Pushed(s.objs[r := StringObj(text)], s.running, Collectable(r)))
    ensures StringPushed(s, s1, text, r)
  {
    hide Objects, Pushed, StringObj;
  }

  ghost function FromSources(s: View): set<Ref> { set r | r in s.objs && Reachable(s.objs, Sources(s), r) }

  /** What can be reached from the roots and from what is marked is closed under references. */
  lemma SourcesConfine(s: View)
    requires s.mark.Keys == s.objs.Keys && NoDangling(s.objs) && Inside(s.objs, RootsOf(s), s.objs.Keys)
    ensures EdgeClosed(s.objs, FromSources(s)) && Inside(s.objs, RootsOf(s), FromSources(s))
    ensures s.phase == Propagate ==> MarkedInside(s.mark, FromSources(s))
  {
    hide Reachable;
    forall a, b | a in FromSources(s) && a in s.objs && Edge(s.objs, a, b)
      ensures b in FromSources(s)
    {
      EdgeKeepsReachable(s.objs, Sources(s), a, b);
    }
    forall r | r in Sources(s)
      ensures Reachable(s.objs, Sources(s), r)
    {
      RootsAreReachable(s.objs, Sources(s), r);
    }
  }

  lemma MarkedFromSources(s: View)
    ensures forall r :: r in FromSources(s) ==> Reachable(s.objs, Sources(s), r)
  {}

  lemma SweptNotRevived(s: View, s1: View)
    requires SweepEffect(s.objs, s.mark, s1.objs, s1.mark, s.white) && s1.white == s.white
    ensures NoneRevived(s, s1)
  {
    hide Shaped;
    forall r | r in s1.objs && Alive(s1.mark, s1.white, r)
      ensures r in s.objs && (Alive(s.mark, s.white, r) || s.objs[r].fixed)
    {
      assert KeptObject(s.objs, s.mark, s1.objs, s1.mark, s.white, r);
    }
  }

  // ----- whole cycles, step by step --------------------------------------------------------------------

  ghost predicate StepsOnly(ops: seq<Op>, a: nat, b: nat)
    requires b <= |ops|
  {
    forall n :: a <= n < b ==> ops[n] == Step
  }

  /** Enough steps come to the end of the cycle. */
  lemma {:induction false} StepsEnd(ops: seq<Op>, trace: seq<View>, a: nat) returns (b: nat)
    requires Follows(ops, trace) && a <= |ops| && 0 <= trace[a].left && a + trace[a].left <= |ops|
    requires StepsOnly(ops, a, a + trace[a].left)
    ensures a <= b <= a + trace[a].left && trace[b].phase == Pause
    decreases trace[a].left
  {
    hide Survival, Shaped, MarkedFrom, AliveFrom, NoneRevived;
    assert Settled(trace[a]);
    b := a;
    if trace[a].phase != Pause {
      assert ops[a] == Step && Effect(ops[a], trace[a], trace[a + 1]) && Settled(trace[a + 1]);
      b := StepsEnd(ops, trace, a + 1);
    }
  }

  lemma {:induction false} ReachedFromReachable(objs: Objs, roots: set<Ref>, sources: set<Ref>, r: Ref, n: nat)
    requires ReachedIn(objs, sources, r, n) && forall q :: q in sources ==> Reachable(objs, roots, q)
    ensures Reachable(objs, roots, r)
    decreases n
  {
    if n > 0 {
      var a :| a in objs && ReachedIn(objs, sources, a, n - 1) && Edge(objs, a, r);
      ReachedFromReachable(objs, roots, sources, a, n - 1);
      EdgeKeepsReachable(objs, roots, a, r);
    }
  }

  /** What is alive or marked in the middle of a cycle could be reached when it began, or is fixed. */
  ghost predicate FromStart(start: View, s: View) {
    && RootsOf(s) == RootsOf(start) && Survival(start.objs, s.objs, RootsOf(start))
    && (s.phase == Propagate ==>
          s.objs == start.objs && forall r :: Marked(s.mark, r) ==> Reachable(start.objs, RootSet(RootsOf(start)), r))
    && (s.phase != Propagate ==> forall r :: r in s.objs && Alive(s.mark, s.white, r) ==>
          Reachable(start.objs, RootSet(RootsOf(start)), r) || (r in start.objs && start.objs[r].fixed))
  }

  lemma SourcesReachable(start: View, s: View, r: Ref)
    requires s.objs == start.objs && RootsOf(s) == RootsOf(start) && Reachable(s.objs, Sources(s), r)
    requires s.phase == Propagate ==> forall q :: Marked(s.mark, q) ==> Reachable(start.objs, RootSet(RootsOf(start)), q)
    ensures Reachable(start.objs, RootSet(RootsOf(start)), r)
  {
    var roots := RootSet(RootsOf(start));
    forall q | q in Sources(s)
      ensures Reachable(start.objs, roots, q)
    {
      if q in roots { RootsAreReachable(start.objs, roots, q); }
    }
    var n: nat :| ReachedIn(s.objs, Sources(s), r, n);
    ReachedFromReachable(start.objs, roots, Sources(s), r, n);
  }

  lemma StepFromStart(start: View, s: View, s1: View)
    requires Effect(Step, s, s1) && (s == start || (FromStart(start, s) && s.phase != Pause))
    requires start.phase == Pause
    ensures FromStart(start, s1)
  {
    hide Reachable, Shaped, Settled;
    if s != start {
      SurvivalTrans(start.objs, s.objs, s1.objs, RootsOf(start));
    }
    if s.phase == Pause || s.phase == Propagate {
      forall r | Reachable(s.objs, Sources(s), r)
        ensures Reachable(start.objs, RootSet(RootsOf(start)), r)
      {
        SourcesReachable(start, s, r);
      }
    } else {
      SameFixed(start.objs, s.objs, RootsOf(start));
    }
    hide Survival, Sources;
  }

  lemma SameFixed(objs0: Objs, objs1: Objs, roots: seq<Value>)
    requires Survival(objs0, objs1, roots)
    ensures forall r :: r in objs1 ==> r in objs0 && objs1[r].fixed == objs0[r].fixed
    ensures forall r :: r in objs0 && (Reachable(objs0, RootSet(roots), r) || objs0[r].fixed) ==> r in objs1
  {
    hide Reachable, Shaped, OpenStays;
    forall r | r in objs1
      ensures r in objs0 && objs1[r].fixed == objs0[r].fixed
    {
      assert SameContents(objs0, objs1, r);
    }
  }

  /** A cycle that goes by steps, from one pause to the next, leaves exactly the objects that could be reached when it
    * began, or were fixed. */
  lemma CycleIsExact(ops: seq<Op>, trace: seq<View>, a: nat, b: nat)
    requires Follows(ops, trace) && a < b <= |ops| && StepsOnly(ops, a, b)
    requires trace[a].phase == Pause == trace[b].phase && forall n :: a < n < b ==> trace[n].phase != Pause
    ensures Survival(trace[a].objs, trace[b].objs, RootsOf(trace[a]))
    ensures forall r :: r in trace[b].objs <==>
      r in trace[a].objs && (Reachable(trace[a].objs, RootSet(RootsOf(trace[a])), r) || trace[a].objs[r].fixed)
  {
    hide Effect, FromStart, Survival, Reachable;
    StepsFromStart(ops, trace, a, b);
    assert Settled(trace[b]);
    EndOfCycle(trace[a], trace[b]);
  }

  lemma {:induction false} StepsFromStart(ops: seq<Op>, trace: seq<View>, a: nat, n: nat)
    requires Follows(ops, trace) && a < n <= |ops| && StepsOnly(ops, a, n)
    requires trace[a].phase == Pause && forall m :: a < m < n ==> trace[m].phase != Pause
    ensures FromStart(trace[a], trace[n])
  {
    hide Effect, FromStart;
    if n > a + 1 {
      StepsFromStart(ops, trace, a, n - 1);
    }
    assert Effect(ops[n - 1], trace[n - 1], trace[n]);
    StepFromStart(trace[a], trace[n - 1], trace[n]);
  }

  lemma EndOfCycle(start: View, s1: View)
    requires FromStart(start, s1) && Settled(s1) && s1.phase == Pause
    ensures Survival(start.objs, s1.objs, RootsOf(start))
    ensures forall r :: r in s1.objs <==>
      r in start.objs && (Reachable(start.objs, RootSet(RootsOf(start)), r) || start.objs[r].fixed)
  {
    hide Reachable, Shaped, Advanced;
    SameFixed(start.objs, s1.objs, RootsOf(start));
    hide Survival;
  }

  // ----- what the program can name ---------------------------------------------------------------------

  /** Whatever a program can get hold of next is there: what is in the slots of the running thread, in the fields of
    * what they hold, and the metatables of the basic types. */
  lemma NamedIsThere(s: View, v: Value)
    requires NoneLost(s) && s.running in s.objs && s.objs[s.running].kind == Thread && Shaped(s.objs) && v.Collectable?
    requires v in Stack(s) || v in s.mt || v == Collectable(s.mainthread) || v == Collectable(s.registry)
      || exists i, k :: FieldOf(s, i, k) == [v]
    ensures v.ref in s.objs
  {
    var roots := RootSet(RootsOf(s));
    assert RootsOf(s)[2] == Collectable(s.running) && RootsOf(s)[0] == Collectable(s.mainthread);
    assert RootsOf(s)[1] == Collectable(s.registry) && forall i :: 0 <= i < |s.mt| ==> RootsOf(s)[i + 3] == s.mt[i];
    assert s.running in roots;
    hide Reachable, Shaped;
    RootsAreReachable(s.objs, roots, s.running);
    if v in RootsOf(s) {
      RootsAreReachable(s.objs, roots, v.ref);
    } else if v in Stack(s) {
      OnStackReachable(s, v);
    } else {
      var i, k :| FieldOf(s, i, k) == [v];
      assert SlotOf(s, i) in Stack(s);
      OnStackReachable(s, SlotOf(s, i));
      EdgeByValue(s.objs, SlotOf(s, i).ref, v.ref);
      EdgeKeepsReachable(s.objs, roots, SlotOf(s, i).ref, v.ref);
    }
  }

  lemma OnStackReachable(s: View, v: Value)
    requires s.running in s.objs && Shaped(s.objs) && v.Collectable? && v in Stack(s)
    requires s.objs[s.running].kind == Thread
    ensures Reachable(s.objs, RootSet(RootsOf(s)), v.ref)
  {
    var roots := RootSet(RootsOf(s));
    assert RootsOf(s)[2] == Collectable(s.running);
    assert s.running in roots;
    RootsAreReachable(s.objs, roots, s.running);
    EdgeByValue(s.objs, s.running, v.ref);
    hide Reachable;
    EdgeKeepsReachable(s.objs, roots, s.running, v.ref);
  }

  // ----- the operations, in terms of objects and slots -------------------------------------------------

  /** All objects but `o` are as they were. */
  predicate OthersSame(s: View, s1: View, o: Ref) {
    s1.objs.Keys == s.objs.Keys && forall r :: r in s.objs && r != o ==> s1.objs[r] == s.objs[r]
  }

  /** A field is pushed; of an upvalue, the variable it stands for. */
  lemma GetPushes(s: View, s1: View, i: nat, k: nat, o: Ref)
    requires Effect(Get(i, k), s, s1) && i < |Stack(s)| && Stack(s)[i] == Collectable(o) && o in s.objs
    ensures s1.running == s.running && s1.running in s1.objs && OthersSame(s, s1, s.running)
    ensures s.objs[o].kind != Upval && k < |s.objs[o].slots| ==> Stack(s1) == Stack(s) + [s.objs[o].slots[k]]
    ensures s.objs[o].kind == Upval && k == 0 && s.objs[o].place == Closed ==>
      s.objs[o].slots != [] && Stack(s1) == Stack(s) + [s.objs[o].slots[0]]
    ensures s.objs[o].kind == Upval && k == 0 && s.objs[o].place.Open? ==>
      var p := s.objs[o].place;
      && p.thread in s.objs && p.index < |s.objs[p.thread].slots|
      && Stack(s1) == Stack(s) + [s.objs[p.thread].slots[p.index]]
  {}

  /** A field is assigned; through an upvalue that is open, the variable in the stack it points to. */
  lemma SetStores(s: View, s1: View, i: nat, k: nat, j: nat, o: Ref)
    requires Effect(Set(i, k, j), s, s1) && i < |Stack(s)| && Stack(s)[i] == Collectable(o) && o in s.objs
    requires j < |Stack(s)|
    ensures s.objs[o].kind != String && !s.objs[o].place.Open? && k < |s.objs[o].slots| ==>
      OthersSame(s, s1, o) && s1.objs[o] == s.objs[o].(slots := s.objs[o].slots[k := Stack(s)[j]])
    ensures s.objs[o].kind == Table && !s.objs[o].place.Open? && k == |s.objs[o].slots| ==>
      OthersSame(s, s1, o) && s1.objs[o] == s.objs[o].(slots := s.objs[o].slots + [Stack(s)[j]])
    ensures s.objs[o].kind == Upval && s.objs[o].place.Open? ==>
      var t, n := s.objs[o].place.thread, s.objs[o].place.index;
      && t in s.objs && n < |s.objs[t].slots| && OthersSame(s, s1, t)
      && s1.objs[t] == s.objs[t].(slots := s.objs[t].slots[n := Stack(s)[j]])
  {}

  /** A new object with these fields is on top of the stack. */
  lemma AllocateMakes(s: View, s1: View, kind: Kind, at: seq<nat>, r: Ref)
    requires Effect(Allocate(kind, at, r), s, s1) && r !in s.objs && kind != String && (kind == Upval ==> |at| == 1)
    requires Stack(s) != [] && forall n :: 0 <= n < |at| ==> at[n] < |Stack(s)|
    ensures s1.objs.Keys == s.objs.Keys + {r} && forall x :: x in s.objs && x != s.running ==> s1.objs[x] == s.objs[x]
    ensures s1.objs[r].kind == kind && !s1.objs[r].fixed && s1.objs[r].open == [] && s1.objs[r].place == Closed
    ensures kind == Thread ==> s1.objs[r].slots == [Stack(s)[0]]
    ensures kind != Thread ==> |s1.objs[r].slots| == |at| && forall n :: 0 <= n < |at| ==> s1.objs[r].slots[n] == Stack(s)[at[n]]
    ensures s1.running == s.running && s1.objs[s.running] == s.objs[s.running].(slots := Stack(s) + [Collectable(r)])
  {}

  /** A local variable is assigned, or a plain value pushed. */
  lemma StackChanges(s: View, s1: View, op: Op)
    requires Effect(op, s, s1) && (op == PushPlain || (op.SetLocal? && op.i < |Stack(s)| && op.j < |Stack(s)|))
    ensures s1.running == s.running && s1.running in s1.objs && OthersSame(s, s1, s.running)
    ensures Stack(s1) == if op.PushPlain? then Stack(s) + [Plain] else Stack(s)[op.i := Stack(s)[op.j]]
  {}
}
