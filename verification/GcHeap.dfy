/** The heap of the garbage collector, seen as a graph of collectable objects.
  *
  * The mark of an object (its `marked` byte) is kept apart from the rest of the object,
  * so that a marking step visibly leaves the graph alone.
  */
module GcHeap {

  type Ref = nat

  datatype Kind = String | Userdata | Upval | Function | Table | Thread | Proto

  /** The colour bits of `marked`: one of two whites, black, or (none of the three) gray. */
  datatype Colour = White(bit: bool) | Gray | Black

  /** A stack slot or field: something the collector ignores, or a reference. */
  datatype Value = Plain | Collectable(ref: Ref)

  /** Where `uv->v` points: the upvalue's own cell, or a slot of some thread's stack. */
  datatype Place = Closed | Open(thread: Ref, index: nat)

  /** `slots` holds every outgoing reference: array and node entries of a table, upvalues and
    * environment of a closure, and for a thread its global table (slot 0) followed by its stack.
    * `open` is a thread's `openupval` list, `text` the contents of a string. */
  datatype Obj = Obj(kind: Kind, fixed: bool, slots: seq<Value>, place: Place, open: seq<Ref>, text: string)

  type Objs = map<Ref, Obj>
  type Marks = map<Ref, Colour>

  // ----- the graph ---------------------------------------------------------------------------

  /** The number of allocated objects. */
  function Count(objs: Objs): nat { |objs| }

  predicate IsOpen(o: Obj) { o.kind == Upval && o.place.Open? }

  /** The value an open upvalue reads: the slot it points to, in the stack of its thread. */
  predicate PointsInto(objs: Objs, a: Ref)
    requires a in objs && IsOpen(objs[a])
  {
    var p := objs[a].place;
    p.thread in objs && objs[p.thread].kind == Thread && p.index < |objs[p.thread].slots|
  }

  predicate Edge(objs: Objs, a: Ref, b: Ref)
    requires a in objs
  {
    if IsOpen(objs[a]) then
      PointsInto(objs, a) && objs[objs[a].place.thread].slots[objs[a].place.index] == Collectable(b)
    else
      Collectable(b) in objs[a].slots
  }

  /** `r` is reached from a root in `n` steps. */
  ghost predicate ReachedIn(objs: Objs, roots: set<Ref>, r: Ref, n: nat)
    decreases n
  {
    if n == 0 then r in roots
    else exists a :: a in objs && Edge(objs, a, r) && ReachedIn(objs, roots, a, n - 1)
  }

  ghost predicate Reachable(objs: Objs, roots: set<Ref>, r: Ref) {
    exists n: nat :: ReachedIn(objs, roots, r, n)
  }

  /** No edge leaves `set`. */
  ghost predicate EdgeClosed(objs: Objs, among: set<Ref>) {
    forall a, b :: a in among && a in objs && Edge(objs, a, b) ==> b in among
  }

  /** A set that holds the roots and that no edge leaves holds everything reachable. */
  lemma {:induction false} ReachableStaysInside(objs: Objs, roots: set<Ref>, among: set<Ref>, r: Ref)
    requires roots <= among && EdgeClosed(objs, among)
    requires Reachable(objs, roots, r)
    ensures r in among
  {
    var n: nat :| ReachedIn(objs, roots, r, n);
    ReachedInStaysInside(objs, roots, among, r, n);
  }

  lemma {:induction false} ReachedInStaysInside(objs: Objs, roots: set<Ref>, among: set<Ref>, r: Ref, n: nat)
    requires roots <= among && EdgeClosed(objs, among)
    requires ReachedIn(objs, roots, r, n)
    ensures r in among
    decreases n
  {
    if n > 0 {
      var a :| a in objs && Edge(objs, a, r) && ReachedIn(objs, roots, a, n - 1);
      ReachedInStaysInside(objs, roots, among, a, n - 1);
    }
  }

  lemma EdgeKeepsReachable(objs: Objs, roots: set<Ref>, a: Ref, b: Ref)
    requires a in objs && Reachable(objs, roots, a) && Edge(objs, a, b)
    ensures Reachable(objs, roots, b)
  {
    var n: nat :| ReachedIn(objs, roots, a, n);
    assert ReachedIn(objs, roots, b, n + 1);
  }

  lemma RootsAreReachable(objs: Objs, roots: set<Ref>, r: Ref)
    requires r in roots
    ensures Reachable(objs, roots, r)
  {
    assert ReachedIn(objs, roots, r, 0);
  }

  /** Two graphs in which the same edges leave the members of a set holding the roots and closed
    * under edges reach the same objects. */
  lemma {:induction false} SameEdgesSameReach(before: Objs, after: Objs, roots: set<Ref>, among: set<Ref>, r: Ref)
    requires roots <= among && EdgeClosed(before, among)
    requires among <= before.Keys && among <= after.Keys
    requires forall a, b :: a in among ==> (Edge(before, a, b) <==> Edge(after, a, b))
    ensures Reachable(before, roots, r) <==> Reachable(after, roots, r)
  {
    if Reachable(before, roots, r) {
      var n: nat :| ReachedIn(before, roots, r, n);
      SameEdgesReachedIn(before, after, roots, among, r, n);
    }
    if Reachable(after, roots, r) {
      var n: nat :| ReachedIn(after, roots, r, n);
      SameEdgesReachedIn(after, before, roots, among, r, n);
    }
  }

  lemma {:induction false} SameEdgesReachedIn(before: Objs, after: Objs, roots: set<Ref>, among: set<Ref>, r: Ref,
                                              n: nat)
    requires roots <= among && EdgeClosed(before, among)
    requires among <= before.Keys && among <= after.Keys
    requires forall a, b :: a in among ==> (Edge(before, a, b) <==> Edge(after, a, b))
    requires ReachedIn(before, roots, r, n)
    ensures ReachedIn(after, roots, r, n)
    decreases n
  {
    hide Edge;
    if n > 0 {
      var a :| a in before && Edge(before, a, r) && ReachedIn(before, roots, a, n - 1);
      ReachedInStaysInside(before, roots, among, a, n - 1);
      SameEdgesReachedIn(before, after, roots, among, a, n - 1);
    }
  }

  // ----- colours -----------------------------------------------------------------------------

  /** The objects that are chained on the gray list when marked. */
  predicate ListKind(k: Kind) { k in {Function, Table, Thread, Proto} }

  predicate IsWhite(mark: Marks, r: Ref) { r in mark && mark[r].White? }

  predicate Marked(mark: Marks, r: Ref) { r in mark && !mark[r].White? }

  function Whites(mark: Marks): set<Ref> { set r | r in mark && mark[r].White? }

  ghost predicate NoDup(s: seq<Ref>) {
    forall i, j :: 0 <= i < j < |s| ==> s[i] != s[j]
  }

  /** Everything `a` refers to is marked. */
  ghost predicate ChildrenMarked(objs: Objs, mark: Marks, a: Ref)
    requires a in objs
  {
    forall b :: Edge(objs, a, b) ==> Marked(mark, b)
  }

  /** What the colour of an object promises while marking. */
  ghost predicate Painted(objs: Objs, mark: Marks, gray: seq<Ref>, again: seq<Ref>, r: Ref)
    requires r in objs && r in mark
  {
    match mark[r]
    case White(_) => true
    case Black =>
      && objs[r].kind != String && objs[r].kind != Thread && !IsOpen(objs[r])
      && ChildrenMarked(objs, mark, r)
    case Gray =>
      || objs[r].kind == String
      || IsOpen(objs[r])
      || (ListKind(objs[r].kind) && (r in gray || r in again))
  }

  /** The two gray lists share the `gclist` link, so no object is chained twice. */
  ghost predicate GrayLists(objs: Objs, mark: Marks, gray: seq<Ref>, again: seq<Ref>) {
    && NoDup(gray) && NoDup(again)
    && (forall r :: r in gray ==> r !in again)
    && (forall r :: r in gray || r in again ==>
          r in objs && r in mark && mark[r] == Gray && ListKind(objs[r].kind))
    && (forall r :: r in again ==> objs[r].kind == Thread || objs[r].kind == Table)
  }

  /** The tri-colour invariant, except for the objects being worked on. */
  ghost predicate TriColour(objs: Objs, mark: Marks, gray: seq<Ref>, again: seq<Ref>, busy: set<Ref>) {
    && mark.Keys == objs.Keys
    && GrayLists(objs, mark, gray, again)
    && forall r :: r in objs && r !in busy ==> Painted(objs, mark, gray, again, r)
  }

  /** All references lead to allocated objects. */
  ghost predicate NoDangling(objs: Objs) {
    forall a, b :: a in objs && Edge(objs, a, b) ==> b in objs
  }

  /** Marking only ever colours white objects, and only objects of `among`. */
  ghost predicate MarkGrows(before: Marks, after: Marks, among: set<Ref>) {
    && after.Keys == before.Keys
    && (forall r :: Marked(before, r) ==> after[r] == before[r])
    && (forall r :: r in before && before[r].White? && after[r].White? ==> after[r] == before[r])
    && (forall r :: IsWhite(before, r) && Marked(after, r) ==> r in among)
  }

  /** Open upvalues that have turned gray have their value marked. */
  ghost predicate GrayUpvalsDone(objs: Objs, mark: Marks, busy: set<Ref>) {
    forall u :: u in objs && u in mark && mark[u] == Gray && IsOpen(objs[u]) && u !in busy
      ==> ChildrenMarked(objs, mark, u)
  }

  ghost predicate NewUpvalsDone(objs: Objs, before: Marks, mark: Marks, busy: set<Ref>) {
    forall u :: u in objs && IsWhite(before, u) && Marked(mark, u) && IsOpen(objs[u]) && u !in busy
      ==> ChildrenMarked(objs, mark, u)
  }

  /** What marking does, from colours `m0` and gray list `g0` to `m1` and `g1`. */
  ghost predicate MarkStep(objs: Objs, m0: Marks, g0: seq<Ref>, m1: Marks, g1: seq<Ref>, again: seq<Ref>,
                           busy: set<Ref>, among: set<Ref>)
  {
    && TriColour(objs, m1, g1, again, busy)
    && MarkGrows(m0, m1, among)
    && NewUpvalsDone(objs, m0, m1, busy)
    && Whites(m1) <= Whites(m0)
    && |Whites(m1)| + |g1| <= |Whites(m0)| + |g0|
  }

  lemma MarkStepTrans(objs: Objs, m0: Marks, g0: seq<Ref>, m1: Marks, g1: seq<Ref>, m2: Marks, g2: seq<Ref>,
                      again: seq<Ref>, busy: set<Ref>, among: set<Ref>)
    requires MarkStep(objs, m0, g0, m1, g1, again, busy, among)
    requires MarkStep(objs, m1, g1, m2, g2, again, busy, among)
    ensures MarkStep(objs, m0, g0, m2, g2, again, busy, among)
  {
    forall u | u in objs && IsWhite(m0, u) && Marked(m2, u) && IsOpen(objs[u]) && u !in busy
      ensures ChildrenMarked(objs, m2, u)
    {
      if IsWhite(m1, u) {
      } else {
        assert Marked(m1, u);
        assert ChildrenMarked(objs, m1, u);
      }
    }
  }

  // ----- one object changes colour -------------------------------------------------------------

  lemma OneWhiteLess(mark: Marks, o: Ref, c: Colour)
    requires IsWhite(mark, o) && !c.White?
    ensures Whites(mark[o := c]) == Whites(mark) - {o}
    ensures |Whites(mark[o := c])| == |Whites(mark)| - 1
  {
    assert Whites(mark[o := c]) == Whites(mark) - {o};
  }

  /** A white object may take any colour while it is being worked on. */
  lemma Begin(objs: Objs, mark: Marks, gray: seq<Ref>, again: seq<Ref>, busy: set<Ref>, o: Ref, c: Colour)
    requires TriColour(objs, mark, gray, again, busy)
    requires IsWhite(mark, o) && !c.White?
    ensures TriColour(objs, mark[o := c], gray, again, busy + {o})
    ensures Whites(mark[o := c]) < Whites(mark)
  {
    var m := mark[o := c];
    OneWhiteLess(mark, o, c);
    forall r | r in objs && r !in busy + {o}
      ensures Painted(objs, m, gray, again, r)
    {
      assert Painted(objs, mark, gray, again, r);
    }
  }

  /** An object leaves the set being worked on in a colour that is right for it. */
  lemma End(objs: Objs, mark: Marks, gray: seq<Ref>, again: seq<Ref>, busy: set<Ref>, o: Ref, c: Colour)
    requires TriColour(objs, mark, gray, again, busy + {o}) && Marked(mark, o)
    requires o !in gray && o !in again && !c.White?
    requires Painted(objs, mark[o := c], gray, again, o)
    ensures TriColour(objs, mark[o := c], gray, again, busy)
  {
    var m := mark[o := c];
    forall r | r in objs && r !in busy
      ensures Painted(objs, m, gray, again, r)
    {
      if r != o {
        assert Painted(objs, mark, gray, again, r);
      }
    }
  }

  /** A white object of a listed kind turns gray and is chained on the gray list. */
  lemma PushGray(objs: Objs, m0: Marks, g0: seq<Ref>, again: seq<Ref>, busy: set<Ref>, among: set<Ref>, o: Ref)
    requires TriColour(objs, m0, g0, again, busy)
    requires IsWhite(m0, o) && ListKind(objs[o].kind) && o in among
    ensures MarkStep(objs, m0, g0, m0[o := Gray], [o] + g0, again, busy, among)
  {
    var m, g := m0[o := Gray], [o] + g0;
    OneWhiteLess(m0, o, Gray);
    assert o !in g0 && o !in again;
    forall r | r in objs && r !in busy
      ensures Painted(objs, m, g, again, r)
    {
      if r != o {
        assert Painted(objs, m0, g0, again, r);
      }
    }
  }

  /** Shapes of objects: strings hold no reference, an upvalue has one cell of its own when closed
    * and reads the stack of a thread when open, and only threads have open upvalues. */
  predicate Shaped(objs: Objs) {
    forall r :: r in objs ==>
      && (objs[r].kind == String ==> objs[r].slots == [])
      && (objs[r].kind == Upval ==>
            if objs[r].place.Open? then objs[r].slots == [] && PointsInto(objs, r) else |objs[r].slots| == 1)
      && (objs[r].kind != Thread ==> objs[r].open == [])
      && (objs[r].kind == Thread ==> objs[r].slots != [])
  }

  /** A whole visit of a white object `o`: it takes the colour `c`, marking goes on from there while
    * `o` counts as being worked on, and in the end `o` is given the colour `d`. */
  lemma Visit(objs: Objs, m0: Marks, g0: seq<Ref>, c: Colour, m1: Marks, g1: seq<Ref>, d: Colour,
              again: seq<Ref>, busy: set<Ref>, among: set<Ref>, o: Ref)
    requires TriColour(objs, m0, g0, again, busy)
    requires IsWhite(m0, o) && o in among && !c.White? && !d.White? && !ListKind(objs[o].kind)
    requires MarkStep(objs, m0[o := c], g0, m1, g1, again, busy + {o}, among)
    requires Painted(objs, m1[o := d], g1, again, o)
    requires IsOpen(objs[o]) ==> ChildrenMarked(objs, m1, o)
    ensures MarkStep(objs, m0, g0, m1[o := d], g1, again, busy, among)
  {
    var m := m1[o := d];
    OneWhiteLess(m0, o, c);
    assert Marked(m0[o := c], o) && Marked(m1, o);
    assert Whites(m) == Whites(m1);
    End(objs, m1, g1, again, busy, o, d);
    forall u | u in objs && IsWhite(m0, u) && Marked(m, u) && IsOpen(objs[u]) && u !in busy
      ensures ChildrenMarked(objs, m, u)
    {
      if u != o {
        assert IsWhite(m0[o := c], u) && Marked(m1, u);
        assert ChildrenMarked(objs, m1, u);
      }
    }
  }

  /** The cell or slot that `uv->v` points to. */
  function ValueOf(objs: Objs, uv: Ref): Value
    requires Shaped(objs) && uv in objs && objs[uv].kind == Upval
  {
    var o := objs[uv];
    if o.place.Open? then objs[o.place.thread].slots[o.place.index] else o.slots[0]
  }

  ghost predicate Inside(objs: Objs, vs: seq<Value>, among: set<Ref>) {
    forall v :: v in vs && v.Collectable? ==> v.ref in objs && v.ref in among
  }

  ghost predicate ValuesMarked(mark: Marks, vs: seq<Value>) {
    forall v :: v in vs && v.Collectable? ==> Marked(mark, v.ref)
  }

  lemma FieldsInside(objs: Objs, among: set<Ref>, o: Ref)
    requires Shaped(objs) && NoDangling(objs) && EdgeClosed(objs, among)
    requires o in objs && o in among
    ensures Inside(objs, if objs[o].kind == Upval then [ValueOf(objs, o)] else objs[o].slots, among)
  {
    var vs := if objs[o].kind == Upval then [ValueOf(objs, o)] else objs[o].slots;
    forall v | v in vs && v.Collectable?
      ensures v.ref in objs && v.ref in among
    {
      assert Edge(objs, o, v.ref);
    }
  }

  lemma FieldsMarked(objs: Objs, mark: Marks, o: Ref)
    requires Shaped(objs) && o in objs
    requires ValuesMarked(mark, if objs[o].kind == Upval then [ValueOf(objs, o)] else objs[o].slots)
    ensures ChildrenMarked(objs, mark, o)
  {
  }

  lemma VisitString(objs: Objs, m0: Marks, g0: seq<Ref>, again: seq<Ref>, busy: set<Ref>, among: set<Ref>, o: Ref)
    requires TriColour(objs, m0, g0, again, busy)
    requires IsWhite(m0, o) && o in among && objs[o].kind == String
    ensures MarkStep(objs, m0, g0, m0[o := Gray], g0, again, busy, among)
  {
    Begin(objs, m0, g0, again, busy, o, Gray);
    var m := m0[o := Gray];
    assert m[o := Gray] == m;
    Visit(objs, m0, g0, Gray, m, g0, Gray, again, busy, among, o);
  }

  lemma VisitUserdata(objs: Objs, m0: Marks, g0: seq<Ref>, m1: Marks, g1: seq<Ref>,
                      again: seq<Ref>, busy: set<Ref>, among: set<Ref>, o: Ref)
    requires Shaped(objs) && TriColour(objs, m0, g0, again, busy)
    requires IsWhite(m0, o) && o in among && objs[o].kind == Userdata
    requires MarkStep(objs, m0[o := Black], g0, m1, g1, again, busy + {o}, among)
    requires ValuesMarked(m1, objs[o].slots)
    ensures Marked(m1, o) && MarkStep(objs, m0, g0, m1, g1, again, busy, among)
  {
    assert Marked(m0[o := Black], o);
    assert m1[o := Black] == m1;
    FieldsMarked(objs, m1, o);
    Visit(objs, m0, g0, Black, m1, g1, Black, again, busy, among, o);
  }

  /** Closed upvalues end up black; open ones stay gray. */
  lemma VisitUpval(objs: Objs, m0: Marks, g0: seq<Ref>, m1: Marks, g1: seq<Ref>,
                   again: seq<Ref>, busy: set<Ref>, among: set<Ref>, o: Ref)
    requires Shaped(objs) && TriColour(objs, m0, g0, again, busy)
    requires IsWhite(m0, o) && o in among && objs[o].kind == Upval
    requires MarkStep(objs, m0[o := Gray], g0, m1, g1, again, busy + {o}, among)
    requires ValuesMarked(m1, [ValueOf(objs, o)])
    ensures o in m1
    ensures objs[o].place.Open? ==> Marked(m1, o) && MarkStep(objs, m0, g0, m1, g1, again, busy, among)
    ensures objs[o].place.Closed? ==> MarkStep(objs, m0, g0, m1[o := Black], g1, again, busy, among)
  {
    assert Marked(m0[o := Gray], o);
    FieldsMarked(objs, m1, o);
    hide TriColour, MarkStep, ValuesMarked, ChildrenMarked;
    if objs[o].place.Open? {
      assert m1[o := Gray] == m1;
      Visit(objs, m0, g0, Gray, m1, g1, Gray, again, busy, among, o);
    } else {
      Visit(objs, m0, g0, Gray, m1, g1, Black, again, busy, among, o);
    }
  }

  lemma MarkStepRefl(objs: Objs, m: Marks, g: seq<Ref>, again: seq<Ref>, busy: set<Ref>, among: set<Ref>)
    requires TriColour(objs, m, g, again, busy)
    ensures MarkStep(objs, m, g, m, g, again, busy, among)
  {
  }

  lemma AllInMarks(objs: Objs, m: Marks, g: seq<Ref>, again: seq<Ref>)
    requires TriColour(objs, m, g, again, {})
    ensures m.Keys == objs.Keys
  {
  }

  lemma InMarks(objs: Objs, m: Marks, g: seq<Ref>, again: seq<Ref>, busy: set<Ref>, r: Ref)
    requires TriColour(objs, m, g, again, busy) && r in objs
    ensures r in m
  {
  }

  /** What a caller needs of a marking step, without its definition. */
  lemma MarkStepParts(objs: Objs, m0: Marks, g0: seq<Ref>, m1: Marks, g1: seq<Ref>, again: seq<Ref>,
                      busy: set<Ref>, among: set<Ref>)
    requires MarkStep(objs, m0, g0, m1, g1, again, busy, among)
    ensures TriColour(objs, m1, g1, again, busy) && Whites(m1) <= Whites(m0) && m1.Keys == m0.Keys
    ensures forall r :: Marked(m0, r) ==> Marked(m1, r) && m1[r] == m0[r]
    ensures |Whites(m1)| + |g1| <= |Whites(m0)| + |g0|
  {
  }

  // ----- the mark phase ------------------------------------------------------------------------

  /** Marked objects stay marked; only a listed object that is traversed turns from gray to black,
    * and white objects that stay white keep their bit. */
  ghost predicate Progress(objs: Objs, m0: Marks, m1: Marks)
  {
    && m1.Keys == m0.Keys
    && (forall r :: Marked(m0, r) ==>
          m1[r] == m0[r] || (r in objs && ListKind(objs[r].kind) && m0[r] == Gray && m1[r] == Black))
    && (forall r :: IsWhite(m0, r) && IsWhite(m1, r) ==> m1[r] == m0[r])
    && Whites(m1) <= Whites(m0)
  }

  ghost predicate MarkedInside(mark: Marks, among: set<Ref>) {
    forall r :: Marked(mark, r) ==> r in among
  }

  ghost predicate AgainDone(objs: Objs, mark: Marks, again: seq<Ref>) {
    forall r :: r in again && r in objs ==> ChildrenMarked(objs, mark, r)
  }

  /** What marking needs from the graph, and what it keeps. */
  ghost predicate Marking(objs: Objs, mark: Marks, gray: seq<Ref>, again: seq<Ref>, among: set<Ref>) {
    && Shaped(objs) && NoDangling(objs) && EdgeClosed(objs, among)
    && TriColour(objs, mark, gray, again, {})
    && MarkedInside(mark, among)
  }

  /** What a stretch of marking from colours `m0` and list `again0` to `m1` and `again1` keeps. */
  ghost predicate Marched(objs: Objs, m0: Marks, again0: seq<Ref>, m1: Marks, again1: seq<Ref>) {
    && Progress(objs, m0, m1)
    && (GrayUpvalsDone(objs, m0, {}) ==> GrayUpvalsDone(objs, m1, {}))
    && (AgainDone(objs, m0, again0) ==> AgainDone(objs, m1, again1))
  }

  lemma MarchedTrans(objs: Objs, m0: Marks, again0: seq<Ref>, m1: Marks, again1: seq<Ref>, m2: Marks, again2: seq<Ref>)
    requires Marched(objs, m0, again0, m1, again1) && Marched(objs, m1, again1, m2, again2)
    ensures Marched(objs, m0, again0, m2, again2)
  {
    ProgressTrans(objs, m0, m1, m2);
  }

  lemma MarchedRefl(objs: Objs, m: Marks, again: seq<Ref>)
    ensures Marched(objs, m, again, m, again)
  {
  }

  lemma ProgressTrans(objs: Objs, m0: Marks, m1: Marks, m2: Marks)
    requires Progress(objs, m0, m1) && Progress(objs, m1, m2)
    ensures Progress(objs, m0, m2) && m2.Keys == m0.Keys
  {
  }

  lemma MarkStepIsProgress(objs: Objs, m0: Marks, g0: seq<Ref>, m1: Marks, g1: seq<Ref>, again: seq<Ref>,
                           busy: set<Ref>, among: set<Ref>)
    requires MarkStep(objs, m0, g0, m1, g1, again, busy, among)
    ensures Progress(objs, m0, m1)
    ensures MarkedInside(m0, among) ==> MarkedInside(m1, among)
    ensures GrayUpvalsDone(objs, m0, busy) ==> GrayUpvalsDone(objs, m1, busy)
    ensures AgainDone(objs, m0, again) ==> AgainDone(objs, m1, again)
  {
    if GrayUpvalsDone(objs, m0, busy) {
      forall u | u in objs && u in m1 && m1[u] == Gray && IsOpen(objs[u]) && u !in busy
        ensures ChildrenMarked(objs, m1, u)
      {
        if Marked(m0, u) {
          assert ChildrenMarked(objs, m0, u);
        }
      }
    }
  }

  lemma ProgressRefl(objs: Objs, m: Marks)
    ensures Progress(objs, m, m)
  {
  }

  lemma NewUpvalsRefl(objs: Objs, m: Marks)
    ensures NewUpvalsDone(objs, m, m, {})
  {
  }

  lemma InAmong(mark: Marks, among: set<Ref>, r: Ref)
    requires MarkedInside(mark, among) && Marked(mark, r)
    ensures r in among
  {
  }

  /** The head of the gray list is taken off, to be traversed: it counts as being worked on. */
  lemma TakeGray(objs: Objs, mark: Marks, gray: seq<Ref>, again: seq<Ref>, among: set<Ref>)
    requires TriColour(objs, mark, gray, again, {}) && gray != []
    requires MarkedInside(mark, among)
    ensures gray[0] in objs && ListKind(objs[gray[0]].kind) && gray[0] in among && Marked(mark, gray[0])
    ensures mark[gray[0]] == Gray
    ensures mark[gray[0] := Black][gray[0] := Gray] == mark
    ensures var m := mark[gray[0] := Black];
      && TriColour(objs, m, gray[1..], again, {gray[0]})
      && Whites(m) == Whites(mark) && MarkedInside(m, among)
      && (GrayUpvalsDone(objs, mark, {}) ==> GrayUpvalsDone(objs, m, {gray[0]}))
      && (AgainDone(objs, mark, again) ==> AgainDone(objs, m, again))
    ensures objs[gray[0]].kind == Thread ==> TriColour(objs, mark, gray[1..], [gray[0]] + again, {})
  {
    var o := gray[0];
    HeadIsGray(objs, mark, gray, again);
    TakenGray(objs, mark, gray, again);
    if objs[o].kind == Thread {
      TakenThread(objs, mark, gray, again);
    }
    hide TriColour;
    var m := mark[o := Black];
    assert m[o := Gray] == mark;
    assert Whites(m) == Whites(mark);
  }

  lemma HeadIsGray(objs: Objs, mark: Marks, gray: seq<Ref>, again: seq<Ref>)
    requires TriColour(objs, mark, gray, again, {}) && gray != []
    ensures gray[0] in objs && gray[0] in mark && mark[gray[0]] == Gray && ListKind(objs[gray[0]].kind)
    ensures gray == [gray[0]] + gray[1..] && gray[0] !in gray[1..]
  {
    hide Painted;
    assert gray[0] in gray;
  }

  lemma TakenGray(objs: Objs, mark: Marks, gray: seq<Ref>, again: seq<Ref>)
    requires TriColour(objs, mark, gray, again, {}) && gray != [] && gray[0] in mark
    ensures TriColour(objs, mark[gray[0] := Black], gray[1..], again, {gray[0]})
  {
    HeadIsGray(objs, mark, gray, again);
    var o := gray[0];
    var m, g := mark[o := Black], gray[1..];
    forall r | r in objs && r != o
      ensures Painted(objs, m, g, again, r)
    {
      assert Painted(objs, mark, gray, again, r);
    }
  }

  lemma TakenThread(objs: Objs, mark: Marks, gray: seq<Ref>, again: seq<Ref>)
    requires TriColour(objs, mark, gray, again, {}) && gray != [] && gray[0] in objs && objs[gray[0]].kind == Thread
    ensures TriColour(objs, mark, gray[1..], [gray[0]] + again, {})
  {
    HeadIsGray(objs, mark, gray, again);
    var g := gray[1..];
    forall r | r in objs
      ensures Painted(objs, mark, g, [gray[0]] + again, r)
    {
      assert Painted(objs, mark, gray, again, r);
    }
  }

  /** A traversed table, function or prototype is black for good reason. */
  lemma DoneGray(objs: Objs, m0: Marks, mark: Marks, gray: seq<Ref>, again: seq<Ref>, o: Ref)
    requires TriColour(objs, mark, gray, again, {o})
    requires o in objs && o in m0 && m0[o] == Gray && objs[o].kind in {Table, Function, Proto}
    requires Progress(objs, m0[o := Black], mark) && ChildrenMarked(objs, mark, o)
    ensures TriColour(objs, mark, gray, again, {})
    ensures Progress(objs, m0, mark)
    ensures GrayUpvalsDone(objs, mark, {o}) ==> GrayUpvalsDone(objs, mark, {})
  {
    assert Marked(m0[o := Black], o);
    forall r | r in objs
      ensures Painted(objs, mark, gray, again, r)
    {
    }
    assert Whites(m0[o := Black]) == Whites(m0);
  }

  lemma AgainDoneMore(objs: Objs, m0: Marks, m1: Marks, again: seq<Ref>, o: Ref)
    requires Progress(objs, m0, m1) && o in objs && ChildrenMarked(objs, m1, o)
    ensures AgainDone(objs, m0, again) ==> AgainDone(objs, m1, [o] + again)
  {
  }

  lemma MarkStepMonotone(objs: Objs, m0: Marks, g0: seq<Ref>, m1: Marks, g1: seq<Ref>, again: seq<Ref>,
                         busy: set<Ref>, among: set<Ref>, a: Ref)
    requires MarkStep(objs, m0, g0, m1, g1, again, busy, among) && a in objs
    ensures ChildrenMarked(objs, m0, a) ==> ChildrenMarked(objs, m1, a)
    ensures IsWhite(m0, a) && Marked(m1, a) && IsOpen(objs[a]) && a !in busy ==> ChildrenMarked(objs, m1, a)
  {
  }

  lemma RemarkStep(objs: Objs, m0: Marks, m1: Marks, g1: seq<Ref>, m2: Marks, g2: seq<Ref>, again: seq<Ref>,
                   among: set<Ref>, uvs: seq<Ref>, n: nat)
    requires MarkStep(objs, m1, g1, m2, g2, again, {}, among)
    requires Progress(objs, m0, m1) && NewUpvalsDone(objs, m0, m1, {})
    requires m2.Keys == m1.Keys
    requires n < |uvs| && (forall u :: u in uvs ==> u in objs && u in m1 && IsOpen(objs[u]))
    requires forall k :: 0 <= k < n && m1[uvs[k]] == Gray ==> ChildrenMarked(objs, m1, uvs[k])
    requires ChildrenMarked(objs, m2, uvs[n])
    ensures Progress(objs, m0, m2) && NewUpvalsDone(objs, m0, m2, {})
    ensures m2.Keys == m0.Keys
    ensures forall k :: 0 <= k <= n && m2[uvs[k]] == Gray ==> ChildrenMarked(objs, m2, uvs[k])
  {
    hide MarkStep, ChildrenMarked, Progress, TriColour, GrayUpvalsDone, AgainDone, MarkedInside;
    MarkStepIsProgress(objs, m1, g1, m2, g2, again, {}, among);
    ProgressTrans(objs, m0, m1, m2);
    MarkStepParts(objs, m1, g1, m2, g2, again, {}, among);
    forall u | u in objs && IsWhite(m0, u) && Marked(m2, u) && IsOpen(objs[u])
      ensures ChildrenMarked(objs, m2, u)
    {
      MarkStepMonotone(objs, m1, g1, m2, g2, again, {}, among, u);
    }
    forall k | 0 <= k <= n && m2[uvs[k]] == Gray
      ensures ChildrenMarked(objs, m2, uvs[k])
    {
      assert uvs[k] in uvs;
      MarkStepMonotone(objs, m1, g1, m2, g2, again, {}, among, uvs[k]);
    }
  }

  lemma RemarkEnd(objs: Objs, m0: Marks, m1: Marks, done: seq<Ref>)
    requires Progress(objs, m0, m1) && NewUpvalsDone(objs, m0, m1, {})
    requires forall u :: u in objs && IsOpen(objs[u]) ==> u in done
    requires forall u :: u in done ==> u in objs && u in m1
    requires forall k :: 0 <= k < |done| && m1[done[k]] == Gray ==> ChildrenMarked(objs, m1, done[k])
    ensures GrayUpvalsDone(objs, m1, {})
  {
  }

  /** With both gray lists worked off, the marked objects are closed under references. */
  lemma AllTraversed(objs: Objs, mark: Marks, again: seq<Ref>, a: Ref)
    requires Shaped(objs) && TriColour(objs, mark, [], again, {})
    requires GrayUpvalsDone(objs, mark, {}) && AgainDone(objs, mark, again)
    requires Marked(mark, a)
    ensures ChildrenMarked(objs, mark, a)
  {
    assert Painted(objs, mark, [], again, a);
  }

  /** The second list is put back for traversal: both lists may hold the same objects. */
  lemma Regray(objs: Objs, mark: Marks, again: seq<Ref>, among: set<Ref>)
    requires Marking(objs, mark, [], again, among)
    ensures Marking(objs, mark, again, [], among) && AgainDone(objs, mark, [])
  {
    forall r | r in objs
      ensures Painted(objs, mark, again, [], r)
    {
      assert Painted(objs, mark, [], again, r);
    }
  }

  lemma StartValues(objs: Objs, among: set<Ref>, mainthread: Ref, registry: Ref, running: Ref, mt: seq<Value>)
    requires Inside(objs, [Collectable(mainthread), Collectable(registry), Collectable(running)] + mt, among)
    requires Shaped(objs) && NoDangling(objs) && EdgeClosed(objs, among)
    requires mainthread in objs && objs[mainthread].kind == Thread
    ensures |objs[mainthread].slots| > 0
    ensures Inside(objs, [Collectable(mainthread), objs[mainthread].slots[0], Collectable(registry)] + mt, among)
    ensures Inside(objs, [Collectable(running)] + mt, among)
  {
    var all := [Collectable(mainthread), Collectable(registry), Collectable(running)] + mt;
    assert all[0] in all && all[1] in all && all[2] in all;
    FieldsInside(objs, among, mainthread);
    assert objs[mainthread].slots[0] in objs[mainthread].slots;
    forall v | v in mt
      ensures v in all
    {
    }
  }

  lemma PartMarked(mark: Marks, vs: seq<Value>, part: seq<Value>)
    requires ValuesMarked(mark, vs) && (forall v :: v in part ==> v in vs)
    ensures ValuesMarked(mark, part)
  {
  }

  lemma RootsMarked(mark: Marks, mainthread: Ref, registry: Ref, running: Ref, mt: seq<Value>)
    requires ValuesMarked(mark, [Collectable(mainthread), Collectable(registry)])
    requires ValuesMarked(mark, [Collectable(running)] + mt)
    ensures ValuesMarked(mark, [Collectable(mainthread), Collectable(registry), Collectable(running)] + mt)
  {
    assert Collectable(mainthread) in [Collectable(mainthread), Collectable(registry)];
    assert Collectable(registry) in [Collectable(mainthread), Collectable(registry)];
    assert Collectable(running) in [Collectable(running)] + mt;
    forall v | v in [Collectable(mainthread), Collectable(registry), Collectable(running)] + mt
      ensures v in [Collectable(mainthread), Collectable(registry)] || v in [Collectable(running)] + mt
    {
      assert v in mt ==> v in [Collectable(running)] + mt;
    }
  }

  /** Strings, threads and open upvalues are never black; userdata and closed upvalues never gray. */
  predicate ColourFits(o: Obj, c: Colour) {
    match c
    case White(_) => true
    case Black => o.kind != String && o.kind != Thread && !IsOpen(o)
    case Gray => o.kind == String || IsOpen(o) || ListKind(o.kind)
  }

  ghost predicate ColoursFit(objs: Objs, mark: Marks) {
    forall r :: r in objs && r in mark ==> ColourFits(objs[r], mark[r])
  }

  /** Nothing is marked when a cycle starts. */
  lemma FreshCycle(objs: Objs, mark: Marks, among: set<Ref>)
    requires mark.Keys == objs.Keys && (forall r :: r in mark ==> mark[r].White?)
    ensures TriColour(objs, mark, [], [], {}) && MarkedInside(mark, among)
  {
  }

  ghost predicate MarkedClosed(objs: Objs, mark: Marks) {
    forall a :: a in objs && Marked(mark, a) ==> ChildrenMarked(objs, mark, a)
  }

  lemma AllTraversedClosed(objs: Objs, mark: Marks, again: seq<Ref>, among: set<Ref>)
    requires Marking(objs, mark, [], again, among)
    requires GrayUpvalsDone(objs, mark, {}) && AgainDone(objs, mark, again)
    ensures MarkedClosed(objs, mark) && mark.Keys == objs.Keys && ColoursFit(objs, mark) && MarkedInside(mark, among)
  {
    hide Shaped, GrayUpvalsDone, AgainDone, ChildrenMarked;
    forall a | a in objs && Marked(mark, a)
      ensures ChildrenMarked(objs, mark, a)
    {
      AllTraversed(objs, mark, again, a);
    }
  }

  lemma StillMarked(objs: Objs, m0: Marks, m1: Marks, vs: seq<Value>)
    requires Progress(objs, m0, m1) && ValuesMarked(m0, vs)
    ensures ValuesMarked(m1, vs)
  {
  }

  lemma MarkingParts(objs: Objs, mark: Marks, gray: seq<Ref>, again: seq<Ref>, among: set<Ref>)
    requires Marking(objs, mark, gray, again, among)
    ensures Shaped(objs) && NoDangling(objs) && EdgeClosed(objs, among) && mark.Keys == objs.Keys
  {
  }

  /** The stretches of marking of the atomic step, put together: before the last one the second
    * list is emptied. */
  lemma MarchedEnd(objs: Objs, m0: Marks, m1: Marks, a1: seq<Ref>, m3: Marks, a3: seq<Ref>, m4: Marks, a4: seq<Ref>,
                   m5: Marks, a5: seq<Ref>)
    requires Progress(objs, m0, m1) && GrayUpvalsDone(objs, m1, {})
    requires Marched(objs, m1, a1, m4, a4) && Marched(objs, m3, a3, m4, a4)
    requires Marched(objs, m4, [], m5, a5) && AgainDone(objs, m4, [])
    ensures Progress(objs, m0, m5) && Progress(objs, m3, m5)
    ensures GrayUpvalsDone(objs, m5, {}) && AgainDone(objs, m5, a5)
  {
    ProgressTrans(objs, m0, m1, m4);
    ProgressTrans(objs, m0, m4, m5);
    ProgressTrans(objs, m3, m4, m5);
  }

  /** The parts of the end of marking, one after the other. */
  lemma RestMarked(objs: Objs, m0: Marks, m1: Marks, a1: seq<Ref>, m2: Marks, a2: seq<Ref>, m3: Marks, m4: Marks,
                   a4: seq<Ref>,
                   mark: Marks, again: seq<Ref>, among: set<Ref>, start: seq<Value>, rest: seq<Value>)
    requires Progress(objs, m0, m1) && GrayUpvalsDone(objs, m1, {})
    requires Marched(objs, m1, a1, m2, a2) && Marched(objs, m2, a2, m3, a2) && Marched(objs, m3, a2, m4, a4)
    requires Marched(objs, m4, [], mark, again) && AgainDone(objs, m4, []) && Marking(objs, mark, [], again, among)
    requires ValuesMarked(m0, start) && ValuesMarked(m3, rest)
    ensures Progress(objs, m0, mark) && MarkedInside(mark, among) && mark.Keys == objs.Keys
    ensures MarkedClosed(objs, mark) && ColoursFit(objs, mark) && ValuesMarked(mark, start) && ValuesMarked(mark, rest)
  {
    hide Marking, Marched, Progress, GrayUpvalsDone, AgainDone, ValuesMarked, MarkedClosed, ColoursFit, MarkedInside;
    MarchedTrans(objs, m1, a1, m2, a2, m3, a2);
    MarchedTrans(objs, m1, a1, m3, a2, m4, a4);
    MarchedEnd(objs, m0, m1, a1, m3, a2, m4, a4, mark, again);
    AllTraversedClosed(objs, mark, again, among);
    StillMarked(objs, m0, mark, start);
    StillMarked(objs, m3, mark, rest);
  }
}
