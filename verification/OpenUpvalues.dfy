/** Open upvalues: closures that share a local variable while its stack slot lives, and after. */
module OpenUpvalues {

  datatype Value = Nil | Some(id: int)

  /** Where the current value of an upvalue is: in a stack slot, given by its address, or in the upvalue. */
  datatype Pointer = Own | Slot(address: nat)

  /** Upvalues are named by their addresses. */
  datatype Ref = Null | To(u: nat)

  datatype UpVal = UpVal(v: Pointer, value: Value, next: Ref, prev: nat, succ: nat, dead: bool)

  type Memory = map<nat, UpVal>

  /** The head of the ring of open upvalues, `uvhead`. */
  const UVHEAD: nat := 0

  /** Stack positions of a call, as addresses. */
  datatype CallInfo = CallInfo(base: nat, func: nat, top: nat)

  ghost predicate NoDup(s: seq<nat>) { forall i, j :: 0 <= i < j < |s| ==> s[i] != s[j] }

  // ----- the ring --------------------------------------------------------------------------------------

  /** The place after `i` in a circle. */
  function Around(i: nat, n: nat): nat
    requires i < n
  {
    if i + 1 < n then i + 1 else 0
  }

  /** The upvalue at `i` is linked to the one after it, both ways. */
  ghost predicate Linked(m: Memory, circle: seq<nat>, i: int)
    requires 0 <= i < |circle| && forall u :: u in circle ==> u in m
  {
    m[circle[i]].succ == circle[Around(i, |circle|)] && m[circle[Around(i, |circle|)]].prev == circle[i]
  }

  ghost predicate Circle(m: Memory, circle: seq<nat>) {
    && NoDup(circle) && (forall u :: u in circle ==> u in m)
    && forall i {:trigger Linked(m, circle, i)} :: 0 <= i < |circle| ==> Linked(m, circle, i)
  }

  ghost predicate Ring(m: Memory, ring: seq<nat>) { Circle(m, [UVHEAD] + ring) }

  function Without(s: seq<nat>, k: nat): seq<nat>
    requires k < |s|
  {
    s[..k] + s[k + 1..]
  }

  lemma WithoutMembers(s: seq<nat>, k: nat)
    requires NoDup(s) && k < |s|
    ensures NoDup(Without(s, k)) && forall x :: x in Without(s, k) <==> x in s && x != s[k]
  {
    var t := Without(s, k);
    assert forall i :: 0 <= i < |t| ==> t[i] == s[if i < k then i else i + 1];
    forall x | x in s && x != s[k] ensures x in t {
      var i :| 0 <= i < |s| && s[i] == x;
      assert t[if i < k then i else i - 1] == x;
    }
  }

  /** `unlinkupval`: the neighbours of an upvalue are linked to each other. */
  function Unlinked(m: Memory, u: nat): Memory
    requires u in m && m[u].succ in m && m[u].prev in m
  {
    var m1 := m[m[u].succ := m[m[u].succ].(prev := m[u].prev)];
    m1[m1[u].prev := m1[m1[u].prev].(succ := m1[u].succ)]
  }

  lemma CircleNeighbours(m: Memory, circle: seq<nat>, k: nat)
    requires Circle(m, circle) && 0 < k < |circle|
    ensures var u := circle[k];
      && u in m && m[u].succ == circle[Around(k, |circle|)] && m[u].prev == circle[k - 1]
      && m[u].succ in m && m[u].prev in m && m[u].succ != u && m[u].prev != u
  {
    assert Linked(m, circle, k) && Linked(m, circle, k - 1);
  }

  lemma CircleWithout(m: Memory, circle: seq<nat>, k: nat)
    requires Circle(m, circle) && 0 < k < |circle|
    ensures var u := circle[k]; u in m && m[u].succ in m && m[u].prev in m && Circle(Unlinked(m, u), Without(circle, k))
  {
    CircleNeighbours(m, circle, k);
    WithoutMembers(circle, k);
    var m1, now, n := Unlinked(m, circle[k]), Without(circle, k), |circle|;
    forall i | 0 <= i < n - 1 ensures Linked(m1, now, i) {
      var o := if i < k then i else i + 1;
      var o2 := if o == k - 1 then Around(k, n) else Around(o, n);
      assert Linked(m, circle, o);
      assert now[i] == circle[o] && now[Around(i, n - 1)] == circle[o2];
    }
  }

  /** An upvalue leaves the ring. */
  lemma RingUnlink(m: Memory, ring: seq<nat>, k: nat)
    requires Ring(m, ring) && k < |ring|
    ensures var u := ring[k];
      && u in m && m[u].succ in m && m[u].prev in m && Ring(Unlinked(m, u), Without(ring, k))
      && u != UVHEAD && (forall w :: w in Without(ring, k) <==> w in ring && w != u)
  {
    var circle := [UVHEAD] + ring;
    CircleWithout(m, circle, k + 1);
    assert Without(circle, k + 1) == [UVHEAD] + Without(ring, k);
    assert circle[0] == UVHEAD;
    assert forall i :: 0 <= i < |ring| ==> ring[i] == circle[i + 1];
    WithoutMembers(ring, k);
  }

  /** The new upvalue comes first in the ring. */
  function LinkedFirst(m: Memory, u: nat): Memory
    requires UVHEAD in m && u in m && m[UVHEAD].succ in m
  {
    var m1 := m[u := m[u].(prev := UVHEAD, succ := m[UVHEAD].succ)];
    var m2 := m1[m1[u].succ := m1[m1[u].succ].(prev := u)];
    m2[UVHEAD := m2[UVHEAD].(succ := u)]
  }

  lemma RingLink(m: Memory, ring: seq<nat>, u: nat)
    requires Ring(m, ring) && u in m && u != UVHEAD && u !in ring
    ensures UVHEAD in m && m[UVHEAD].succ in m && Ring(LinkedFirst(m, u), [u] + ring)
  {
    var circle, now := [UVHEAD] + ring, [UVHEAD] + ([u] + ring);
    assert UVHEAD in circle && circle[0] == UVHEAD && Linked(m, circle, 0);
    assert now == [UVHEAD, u] + circle[1..];
    var m1 := LinkedFirst(m, u);
    forall i | 0 <= i < |now| ensures Linked(m1, now, i) {
      assert i > 1 ==> Linked(m, circle, i - 1);
    }
  }

  /** Rings depend on their own links only. */
  lemma RingKept(m: Memory, m1: Memory, ring: seq<nat>)
    requires Ring(m, ring) && forall u :: u in [UVHEAD] + ring && u in m ==> u in m1 && m1[u].prev == m[u].prev && m1[u].succ == m[u].succ
    ensures Ring(m1, ring)
  {
    var circle := [UVHEAD] + ring;
    forall i | 0 <= i < |circle| ensures Linked(m1, circle, i) { assert Linked(m, circle, i); }
  }

  // ----- the list of a thread --------------------------------------------------------------------------

  ghost predicate NextOk(m: Memory, opens: seq<nat>, i: int)
    requires 0 <= i < |opens| && forall u :: u in opens ==> u in m
  {
    m[opens[i]].next == if i + 1 < |opens| then To(opens[i + 1]) else Null
  }

  /** From the top of the stack down, one for each slot. */
  ghost predicate Descending(m: Memory, opens: seq<nat>, stack: nat, size: nat)
    requires forall u :: u in opens ==> u in m
  {
    && (forall i :: 0 <= i < |opens| ==> m[opens[i]].v.Slot? && stack <= m[opens[i]].v.address < stack + size)
    && (forall i, j :: 0 <= i < j < |opens| ==> m[opens[i]].v.address > m[opens[j]].v.address)
  }

  /** The list of the open upvalues of a stack. */
  ghost predicate Chain(m: Memory, opens: seq<nat>, stack: nat, size: nat) {
    && (forall u :: u in opens ==> u in m)
    && Descending(m, opens, stack, size)
    && forall i {:trigger NextOk(m, opens, i)} :: 0 <= i < |opens| ==> NextOk(m, opens, i)
  }

  lemma ChainKept(m: Memory, m1: Memory, opens: seq<nat>, stack: nat, size: nat)
    requires Chain(m, opens, stack, size) && forall u :: u in opens && u in m ==> u in m1 && m1[u].v == m[u].v && m1[u].next == m[u].next
    ensures Chain(m1, opens, stack, size)
  {
    forall i | 0 <= i < |opens| ensures NextOk(m1, opens, i) { assert NextOk(m, opens, i); }
  }

  lemma ChainTail(m: Memory, opens: seq<nat>, stack: nat, size: nat)
    requires Chain(m, opens, stack, size) && opens != []
    ensures Chain(m, opens[1..], stack, size) && opens[0] !in opens[1..]
    ensures m[opens[0]].next == if |opens| > 1 then To(opens[1]) else Null
  {
    assert NextOk(m, opens, 0);
    forall i | 0 <= i < |opens| - 1 ensures NextOk(m, opens[1..], i) { assert NextOk(m, opens, i + 1); }
  }

  /** The upvalue `u` is put between the places `i - 1` and `i` of the list. */
  function Inserted(m: Memory, opens: seq<nat>, i: nat, u: nat): Memory
    requires i <= |opens| && u in m && (i > 0 ==> opens[i - 1] in m)
  {
    var m1 := m[u := m[u].(next := if i < |opens| then To(opens[i]) else Null)];
    if i == 0 then m1 else m1[opens[i - 1] := m1[opens[i - 1]].(next := To(u))]
  }

  lemma ChainInsert(m: Memory, opens: seq<nat>, stack: nat, size: nat, i: nat, u: nat)
    requires Chain(m, opens, stack, size) && i <= |opens| && u in m && u !in opens
    requires m[u].v.Slot? && stack <= m[u].v.address < stack + size
    requires forall j :: 0 <= j < i ==> m[opens[j]].v.address > m[u].v.address
    requires forall j :: i <= j < |opens| ==> m[opens[j]].v.address < m[u].v.address
    ensures Chain(Inserted(m, opens, i, u), opens[..i] + [u] + opens[i..], stack, size)
  {
    var m1, now := Inserted(m, opens, i, u), opens[..i] + [u] + opens[i..];
    assert forall w :: w in now ==> w in m1 && m1[w].v == m[w].v;
    DescendingInsert(m, opens, stack, size, i, u);
    OpensDiffer(m, opens, stack, size);
    DescendingKept(m, m1, now, stack, size);
    hide Descending, NoDup;
    forall j | 0 <= j < |now| ensures NextOk(m1, now, j) {
      InsertedNext(m, opens, i, u, j);
    }
  }

  lemma DescendingKept(m: Memory, m1: Memory, opens: seq<nat>, stack: nat, size: nat)
    requires forall w :: w in opens ==> w in m && w in m1 && m1[w].v == m[w].v
    requires Descending(m, opens, stack, size)
    ensures Descending(m1, opens, stack, size)
  {}

  lemma DescendingInsert(m: Memory, opens: seq<nat>, stack: nat, size: nat, i: nat, u: nat)
    requires (forall w :: w in opens ==> w in m) && Descending(m, opens, stack, size) && i <= |opens| && u in m
    requires m[u].v.Slot? && stack <= m[u].v.address < stack + size
    requires forall j :: 0 <= j < i ==> m[opens[j]].v.address > m[u].v.address
    requires forall j :: i <= j < |opens| ==> m[opens[j]].v.address < m[u].v.address
    ensures forall w :: w in opens[..i] + [u] + opens[i..] ==> w in m
    ensures Descending(m, opens[..i] + [u] + opens[i..], stack, size)
  {
    var now := opens[..i] + [u] + opens[i..];
    forall j, k | 0 <= j < k < |now|
      ensures m[now[j]].v.Slot? && m[now[k]].v.Slot? && m[now[j]].v.address > m[now[k]].v.address
    {
      assert now[j] == if j < i then opens[j] else if j == i then u else opens[j - 1];
      assert now[k] == if k < i then opens[k] else if k == i then u else opens[k - 1];
    }
    forall j | 0 <= j < |now| ensures m[now[j]].v.Slot? && stack <= m[now[j]].v.address < stack + size {
      assert now[j] == if j < i then opens[j] else if j == i then u else opens[j - 1];
    }
  }

  lemma OpensDiffer(m: Memory, opens: seq<nat>, stack: nat, size: nat)
    requires Chain(m, opens, stack, size)
    ensures NoDup(opens)
  {}

  lemma InsertedNext(m: Memory, opens: seq<nat>, i: nat, u: nat, j: nat)
    requires (forall w :: w in opens ==> w in m) && NoDup(opens) && i <= |opens| && u in m && u !in opens
    requires j <= |opens|
    requires forall k {:trigger NextOk(m, opens, k)} :: 0 <= k < |opens| ==> NextOk(m, opens, k)
    requires forall w :: w in opens[..i] + [u] + opens[i..] ==> w in Inserted(m, opens, i, u)
    ensures NextOk(Inserted(m, opens, i, u), opens[..i] + [u] + opens[i..], j)
  {
    var now := opens[..i] + [u] + opens[i..];
    assert now[j] == if j < i then opens[j] else if j == i then u else opens[j - 1];
    assert j < |opens| ==> now[j + 1] == if j + 1 < i then opens[j + 1] else if j + 1 == i then u else opens[j];
    if j < i {
      assert NextOk(m, opens, j) && opens[j] in opens;
    } else if j > i {
      assert NextOk(m, opens, j - 1) && opens[j - 1] in opens;
    }
  }

  /** The ring holds exactly the open upvalues: those of this stack, and those of other threads. */
  ghost predicate Exact(m: Memory, opens: seq<nat>, ring: seq<nat>, others: set<nat>) {
    && (forall u :: u in ring <==> u in opens || u in others)
    && (forall u :: u in opens ==> u !in others)
    && (forall u :: u in ring ==> u in m)
    && (forall u :: u in m && u != UVHEAD ==> (m[u].v.Slot? <==> u in ring))
  }

  ghost predicate Consistent(m: Memory, opens: seq<nat>, ring: seq<nat>, others: set<nat>, stack: nat, size: nat) {
    Ring(m, ring) && Chain(m, opens, stack, size) && Exact(m, opens, ring, others)
  }

  lemma MembersThere(m: Memory, opens: seq<nat>, ring: seq<nat>, others: set<nat>, stack: nat, size: nat)
    requires Consistent(m, opens, ring, others, stack, size)
    ensures forall u :: u in opens ==> u in m
  {
    hide Ring;
  }

  lemma ExactKept(m: Memory, m1: Memory, opens: seq<nat>, ring: seq<nat>, others: set<nat>)
    requires Exact(m, opens, ring, others) && m1.Keys == m.Keys
    requires forall u :: u in m ==> (m1[u].v.Slot? <==> m[u].v.Slot?)
    ensures Exact(m1, opens, ring, others)
  {}

  lemma ExactMore(m: Memory, m1: Memory, opens: seq<nat>, i: nat, ring: seq<nat>, others: set<nat>, uv: nat)
    requires Exact(m, opens, ring, others) && uv !in m && uv != UVHEAD && i <= |opens|
    requires m1.Keys == m.Keys + {uv} && m1[uv].v.Slot? && forall u :: u in m ==> m1[u].v == m[u].v
    ensures Exact(m1, opens[..i] + [uv] + opens[i..], [uv] + ring, others)
  {
    var now := opens[..i] + [uv] + opens[i..];
    assert opens == opens[..i] + opens[i..];
    assert forall u :: u in now <==> u in opens || u == uv;
  }

  lemma ExactLess(m: Memory, m1: Memory, opens: seq<nat>, ring: seq<nat>, ring1: seq<nat>, others: set<nat>)
    requires Exact(m, opens, ring, others) && opens != [] && opens[0] !in opens[1..]
    requires forall w :: w in ring1 <==> w in ring && w != opens[0]
    requires m1.Keys == m.Keys || m1.Keys == m.Keys - {opens[0]}
    requires (opens[0] in m1 ==> m1[opens[0]].v == Own) && forall u :: u in m1 && u != opens[0] ==> m1[u].v == m[u].v
    ensures Exact(m1, opens[1..], ring1, others)
  {
    assert opens == [opens[0]] + opens[1..];
  }

  class LuaState {
    var uvs: Memory
    var stack: nat
    var slots: seq<Value>
    var openupval: Ref
    var top: nat
    var base: nat
    var calls: seq<CallInfo>
    /** The upvalues in the list `openupval`, those in the ring at `uvhead`, and those open in other threads. */
    ghost var opens: seq<nat>
    ghost var ring: seq<nat>
    ghost var others: set<nat>

    ghost predicate Valid()
      reads this
    {
      && openupval == (if opens == [] then Null else To(opens[0]))
      && Consistent(uvs, opens, ring, others, stack, |slots|)
    }

    /** What a closure of this thread reads through an upvalue. */
    ghost function Read(u: nat): Value
      reads this
    {
      ReadIn(uvs, stack, slots, u)
    }

    /** A fresh state: the head of the ring is linked to itself. */
    constructor (stack: nat, size: nat)
      ensures Valid() && opens == [] && others == {} && this.stack == stack && |slots| == size
    {
      uvs := map[UVHEAD := UpVal(Own, Nil, Null, UVHEAD, UVHEAD, false)];
      this.stack, slots, openupval, top, base, calls := stack, seq(size, _ => Nil), Null, stack, stack, [];
      opens, ring, others := [], [], {};
      new;
      assert Linked(uvs, [UVHEAD] + ring, 0);
    }

    ghost predicate HasUpval(level: nat)
      reads this
    {
      exists u :: u in opens && u in uvs && uvs[u].v == Slot(level)
    }

    /** `luaF_findupval`: the open upvalue of a slot; a new one, at the address `free`, only if there is none. */
    method FindUpval(level: nat, free: nat) returns (r: nat)
      requires Valid() && stack <= level < stack + |slots| && free !in uvs && free != UVHEAD
      modifies this`uvs, this`openupval, this`opens, this`ring
      ensures Valid() && r in opens && uvs[r].v == Slot(level) && !uvs[r].dead
      ensures forall u :: u in opens <==> u in old(opens) || u == r
      ensures if old(HasUpval(level)) then r in old(opens) else r == free
      ensures Unmoved(old(uvs), uvs)
    {
      var found, pp, p;
      ghost var i;
      found, pp, p, i := FindPlace(level);
      hide Ring, Chain, NoDup, Exact;
      ChainMembers(uvs, opens, stack, |slots|);
      if found {
        Revive(p.u);
        return p.u;
      }
      Create(free, level, pp, p, i);
      return free;
    }

    /** The search of `luaF_findupval`: the upvalue of the level, or the place where it belongs. */
    method FindPlace(level: nat) returns (found: bool, pp: Ref, p: Ref, ghost i: nat)
      requires Valid()
      ensures i <= |opens| && p == (if i < |opens| then To(opens[i]) else Null) && pp == if i > 0 then To(opens[i - 1]) else Null
      ensures forall j :: 0 <= j < i ==> uvs[opens[j]].v.address > level
      ensures if found then i < |opens| && uvs[opens[i]].v == Slot(level) else forall j :: i <= j < |opens| ==> uvs[opens[j]].v.address < level
    {
      hide Ring;
      pp, p, i := Null, openupval, 0;
      while p.To? && uvs[p.u].v.address >= level
        invariant i <= |opens| && p == (if i < |opens| then To(opens[i]) else Null) && pp == if i > 0 then To(opens[i - 1]) else Null
        invariant forall j :: 0 <= j < i ==> uvs[opens[j]].v.address > level
        decreases |opens| - i
      {
        assert NextOk(uvs, opens, i);
        if uvs[p.u].v == Slot(level) {
          return true, pp, p, i;
        }
        pp, p, i := p, uvs[p.u].next, i + 1;
      }
      return false, pp, p, i;
    }

    /** A dead upvalue that is found again lives on. */
    method Revive(u: nat)
      requires Valid() && u in opens
      modifies this`uvs
      ensures Valid() && uvs == old(uvs)[u := old(uvs)[u].(dead := false)]
    {
      ghost var was := uvs;
      MembersThere(uvs, opens, ring, others, stack, |slots|);
      hide Ring, Chain, Exact;
      if uvs[u].dead {
        uvs := uvs[u := uvs[u].(dead := false)];
      }
      RingKept(was, uvs, ring);
      ChainKept(was, uvs, opens, stack, |slots|);
      ExactKept(was, uvs, opens, ring, others);
    }

    /** A new upvalue is linked into the list between two others, and into the ring. */
    method Create(uv: nat, level: nat, pp: Ref, p: Ref, ghost i: nat)
      requires Valid() && stack <= level < stack + |slots| && uv !in uvs && uv != UVHEAD
      requires i <= |opens| && p == (if i < |opens| then To(opens[i]) else Null) && pp == if i > 0 then To(opens[i - 1]) else Null
      requires forall j :: 0 <= j < i ==> uvs[opens[j]].v.address > level
      requires forall j :: i <= j < |opens| ==> uvs[opens[j]].v.address < level
      modifies this`uvs, this`openupval, this`opens, this`ring
      ensures Valid() && forall u :: u in opens <==> u in old(opens) || u == uv
      ensures uv in uvs && uvs[uv].v == Slot(level) && !uvs[uv].dead
      ensures Unmoved(old(uvs), uvs)
    {
      hide Consistent, Unmoved, InList, LinkedFirst, NoDup;
      Creation(uvs, opens, ring, others, stack, |slots|, i, uv, level);
      CreateInList(uv, level, pp, p, i);
      uvs := LinkedFirst(uvs, uv);
      opens := opens[..i] + [uv] + opens[i..];
      ring := [uv] + ring;
    }

    /** The new upvalue is put in the list; the head of the list changes if it comes first. */
    method CreateInList(uv: nat, level: nat, pp: Ref, p: Ref, ghost i: nat)
      requires i <= |opens| && p == (if i < |opens| then To(opens[i]) else Null) && pp == if i > 0 then To(opens[i - 1]) else Null
      requires uv !in uvs && forall u :: u in opens ==> u in uvs
      modifies this`uvs, this`openupval
      ensures uvs == InList(old(uvs), opens, i, uv, level)
      ensures openupval == if i == 0 then To(uv) else old(openupval)
    {
      uvs := uvs[uv := UpVal(Slot(level), Nil, p, UVHEAD, UVHEAD, false)];
      if pp == Null {
        openupval := To(uv);
      } else {
        uvs := uvs[pp.u := uvs[pp.u].(next := To(uv))];
      }
    }

    // ----- closing -----------------------------------------------------------------------------------

    /** `luaF_close`: exactly the upvalues at or above the level are closed, the topmost first; each takes its
      * value along, and no closure reads anything else through it. Those that the collector has found dead
      * are freed instead. */
    method Close(level: nat) returns (ghost n: nat)
      requires Valid()
      modifies this`uvs, this`openupval, this`opens, this`ring
      ensures Valid() && n <= |old(opens)| && opens == old(opens)[n..]
      ensures AboveExactly(old(uvs), old(opens), n, level) && ClosedFirst(old(uvs), uvs, old(opens), n, stack, slots)
    {
      n := 0;
      ghost var m, was := uvs, opens;
      ChainMembers(m, was, stack, |slots|);
      NoneClosed(m, was, stack, slots);
      hide Consistent, ClosedFirst, NoDup, Same, Above;
      while openupval.To? && uvs[openupval.u].v.address >= level
        invariant Valid() && HeadOpen() && n <= |was| && opens == was[n..]
        invariant ClosedFirst(m, uvs, was, n, stack, slots) && Above(m, was, n, level)
        decreases |was| - n
      {
        AboveMore(m, uvs, was, n, stack, slots, level);
        ghost var before := uvs;
        CloseTop();
        ClosedMore(m, before, uvs, was, n, stack, slots);
        n := n + 1;
      }
      Boundary(m, uvs, was, n, stack, slots, level);
    }

    /** The head of the list is open. */
    ghost predicate HeadOpen()
      reads this
    {
      openupval.To? ==> openupval.u in uvs && uvs[openupval.u].v.Slot?
    }

    /** The body of the loop of `luaF_close`. */
    method CloseTop()
      requires Valid() && openupval.To?
      modifies this`uvs, this`openupval, this`opens, this`ring
      ensures Valid() && HeadOpen() && opens == old(opens)[1..] && ClosedOne(old(uvs), uvs, old(opens)[0], stack, slots)
    {
      hide Consistent, Unlinked, NoDup, ClosedOne, Without, Same, TopClosed;
      var u := openupval.u;
      ghost var k := Closing(uvs, opens, ring, others, stack, slots);
      HeadIsOpen(TopClosed(uvs, u, stack, slots), opens[1..], Without(ring, k), others, stack, |slots|);
      openupval := uvs[u].next;
      CloseOrFree(u);
      opens := opens[1..];
      ring := Without(ring, k);
    }

    /** An open upvalue leaves the ring: it takes its value along, or is freed if the collector has found it dead. */
    method CloseOrFree(u: nat)
      requires u in uvs && uvs[u].succ in uvs && uvs[u].prev in uvs && uvs[u].v.Slot?
      requires stack <= uvs[u].v.address < stack + |slots|
      requires u in Unlinked(uvs, u) && Same(uvs[u], Unlinked(uvs, u)[u])
      modifies this`uvs
      ensures uvs == TopClosed(old(uvs), u, stack, slots)
    {
      TopClosedIs(uvs, u, stack, slots);
      hide TopClosed, Unlinked;
      if uvs[u].dead {
        FreeUpval(u);
      } else {
        UnlinkUpval(u);
        uvs := uvs[u := uvs[u].(value := slots[uvs[u].v.address - stack], v := Own)];
      }
    }

    /** `unlinkupval` */
    method UnlinkUpval(u: nat)
      requires u in uvs && uvs[u].succ in uvs && uvs[u].prev in uvs
      modifies this`uvs
      ensures uvs == Unlinked(old(uvs), u)
    {
      uvs := uvs[uvs[u].succ := uvs[uvs[u].succ].(prev := uvs[u].prev)];
      uvs := uvs[uvs[u].prev := uvs[uvs[u].prev].(succ := uvs[u].succ)];
    }

    /** `luaF_freeupval`: an open upvalue leaves the ring first. */
    method FreeUpval(u: nat)
      requires u in uvs && (uvs[u].v.Slot? ==> uvs[u].succ in uvs && uvs[u].prev in uvs)
      modifies this`uvs
      ensures uvs == (if old(uvs)[u].v.Slot? then Unlinked(old(uvs), u) else old(uvs)) - {u}
    {
      if uvs[u].v.Slot? {
        UnlinkUpval(u);
      }
      uvs := uvs - {u};
    }

    // ----- reallocation ------------------------------------------------------------------------------

    /** The pointers of the thread into its stack. */
    ghost predicate Framed()
      reads this
    {
      stack <= top && stack <= base && forall c :: c in calls ==> stack <= c.base && stack <= c.func && stack <= c.top
    }

    /** `luaD_reallocstack`: the stack moves to the address `block`. Every pointer into it keeps its place in the
      * stack, and every closure reads what it read. The slots in use must fit. */
    method ReallocStack(newsize: nat, block: nat)
      requires Valid() && Framed()
      requires forall u :: u in opens && u in uvs && uvs[u].v.Slot? ==>
        uvs[u].v.address < stack + newsize + 1 + EXTRA_STACK
      modifies this`uvs, this`stack, this`slots, this`top, this`base, this`calls
      ensures Valid() && Framed() && stack == block && |slots| == newsize + 1 + EXTRA_STACK
      ensures forall i :: 0 <= i < |slots| && i < |old(slots)| ==> slots[i] == old(slots)[i]
      ensures top - stack == old(top - stack) && base - stack == old(base - stack)
      ensures Corresponds(old(calls), calls, old(stack), stack)
      ensures uvs == Moved(old(uvs), opens, |opens|, old(stack), stack)
      ensures forall u :: u in old(uvs) && u !in others && u != UVHEAD ==> Read(u) == old(Read(u))
      ensures forall u :: u in others ==> u in uvs && u in old(uvs) && uvs[u] == old(uvs)[u]
    {
      hide Consistent, Moved, Corresponds, ReadIn;
      var oldstack, realsize := stack, newsize + 1 + EXTRA_STACK;
      ghost var was, m := slots, uvs;
      stack := block;
      slots := if realsize <= |slots| then slots[..realsize] else slots + seq(realsize - |slots|, _ => Nil);
      InUse(m, opens, ring, others, oldstack, was, stack, slots);
      ghost var before := calls;
      CorrectStack(oldstack);
      CallsFramed(before, calls, oldstack, stack);
    }

    /** `correctstack` */
    method CorrectStack(oldstack: nat)
      requires openupval == (if opens == [] then Null else To(opens[0])) && Linear(uvs, opens, oldstack)
      requires oldstack <= top && oldstack <= base && forall c :: c in calls ==> oldstack <= c.base && oldstack <= c.func && oldstack <= c.top
      modifies this`uvs, this`top, this`base, this`calls
      ensures uvs == Moved(old(uvs), opens, |opens|, oldstack, stack)
      ensures top == old(top) - oldstack + stack && base == old(base) - oldstack + stack
      ensures Corresponds(old(calls), calls, oldstack, stack)
    {
      hide Moved, Linear, NextOk;
      top := top - oldstack + stack;
      ghost var m := uvs;
      var up := openupval;
      ghost var n := 0;
      NoneMoved(m, opens, oldstack, stack);
      while up.To?
        invariant n <= |opens| && up == (if n < |opens| then To(opens[n]) else Null)
        invariant uvs == Moved(m, opens, n, oldstack, stack)
        invariant top == old(top) - oldstack + stack && base == old(base) && calls == old(calls)
        decreases |opens| - n
      {
        MovedMore(m, opens, n, oldstack, stack);
        uvs := uvs[up.u := uvs[up.u].(v := Slot(uvs[up.u].v.address - oldstack + stack))];
        up := uvs[up.u].next;
        n := n + 1;
      }
      ghost var was := calls;
      var i := 0;
      while i < |calls|
        invariant i <= |calls| == |was| && was[i..] == calls[i..] && Corresponds(was[..i], calls[..i], oldstack, stack)
        invariant uvs == Moved(m, opens, |opens|, oldstack, stack) && top == old(top) - oldstack + stack
        invariant base == old(base)
      {
        var ci := calls[i];
        assert ci == calls[i..][0] == was[i..][0] == was[i] && ci in was;
        calls := calls[i := CallInfo(ci.base - oldstack + stack, ci.func - oldstack + stack, ci.top - oldstack + stack)];
        i := i + 1;
      }
      assert was[..i] == was && calls[..i] == calls;
      base := base - oldstack + stack;
    }

    // ----- sharing -----------------------------------------------------------------------------------

    /** An assignment to a local variable is seen through the upvalue of its slot, and through no other. */
    method SetLocal(i: nat, x: Value)
      requires Valid() && i < |slots|
      modifies this`slots
      ensures Valid() && slots == old(slots)[i := x]
      ensures forall u :: u in uvs && u !in others ==>
        Read(u) == if uvs[u].v == Slot(stack + i) then x else old(Read(u))
    {
      hide Ring, Chain, NoDup;
      ChainMembers(uvs, opens, stack, |slots|);
      slots := slots[i := x];
    }

    /** An assignment through an upvalue: every closure that shares it reads the new value, as the local variable
      * does if it is still on the stack; all else stays. */
    method SetUpval(u: nat, x: Value)
      requires Valid() && u in uvs && u !in others && u != UVHEAD
      modifies this`slots, this`uvs
      ensures Valid() && Read(u) == x && uvs.Keys == old(uvs).Keys
      ensures forall w :: w in uvs && w != u && w !in others && w != UVHEAD ==> Read(w) == old(Read(w))
      ensures if uvs[u].v.Slot? then uvs == old(uvs) && SlotSet(old(slots), slots, uvs[u].v.address - stack, x) else slots == old(slots)
    {
      hide Consistent, Ring, Chain, Exact, NoDup, ReadIn;
      ghost var m, was := uvs, slots;
      UpvalWritten(uvs, opens, ring, others, stack, slots, u, x);
      if uvs[u].v.Slot? {
        slots := slots[uvs[u].v.address - stack := x];
      } else {
        uvs := uvs[u := uvs[u].(value := x)];
      }
    }
  }

  /** Memory and stack after an assignment through an upvalue. */
  lemma UpvalWritten(m: Memory, opens: seq<nat>, ring: seq<nat>, others: set<nat>, stack: nat, slots: seq<Value>,
                     u: nat, x: Value)
    requires Consistent(m, opens, ring, others, stack, |slots|) && u in m && u !in others && u != UVHEAD
    ensures m[u].v.Slot? ==>
      stack <= m[u].v.address < stack + |slots| && OneWritten(m, m, others, stack, slots, slots[m[u].v.address - stack := x], u, x)
    ensures m[u].v == Own ==> var m1 := m[u := m[u].(value := x)];
      Consistent(m1, opens, ring, others, stack, |slots|) && OneWritten(m, m1, others, stack, slots, slots, u, x)
  {
    if m[u].v.Slot? {
      OnePerSlot(m, opens, ring, others, stack, |slots|);
      hide Consistent;
    } else {
      var m1 := m[u := m[u].(value := x)];
      RingKept(m, m1, ring);
      ChainKept(m, m1, opens, stack, |slots|);
      ExactKept(m, m1, opens, ring, others);
      hide Ring, Chain, Exact;
    }
  }

  /** The value `x` is read through the upvalue `u`, and what was read through all others of the thread. */
  ghost predicate OneWritten(m: Memory, m1: Memory, others: set<nat>, stack: nat, slots: seq<Value>, slots1: seq<Value>,
                             u: nat, x: Value) {
    && ReadIn(m1, stack, slots1, u) == x
    && forall w :: w in m && w != u && w !in others && w != UVHEAD ==> ReadIn(m1, stack, slots1, w) == ReadIn(m, stack, slots, w)
  }

  predicate SlotSet(was: seq<Value>, slots: seq<Value>, i: int, x: Value) {
    0 <= i < |was| && slots == was[i := x]
  }

  const EXTRA_STACK: nat := 5

  function Corrected(p: Pointer, oldstack: nat, stack: nat): Pointer {
    if p.Slot? && p.address >= oldstack then Slot(p.address - oldstack + stack) else p
  }

  /** The first `n` of the open upvalues point into the new stack. */
  ghost function Moved(m: Memory, opens: seq<nat>, n: nat, oldstack: nat, stack: nat): Memory
    requires n <= |opens|
  {
    map u | u in m :: if u in opens[..n] then m[u].(v := Corrected(m[u].v, oldstack, stack)) else m[u]
  }

  /** Each call keeps its places in the stack. */
  ghost predicate Corresponds(was: seq<CallInfo>, now: seq<CallInfo>, oldstack: nat, stack: nat) {
    && |was| == |now|
    && forall i :: 0 <= i < |was| ==>
      now[i].base - stack == was[i].base - oldstack && now[i].func - stack == was[i].func - oldstack && now[i].top - stack == was[i].top - oldstack
  }

  lemma CallsFramed(was: seq<CallInfo>, now: seq<CallInfo>, oldstack: nat, stack: nat)
    requires Corresponds(was, now, oldstack, stack)
    requires forall c :: c in was ==> oldstack <= c.base && oldstack <= c.func && oldstack <= c.top
    ensures forall c :: c in now ==> stack <= c.base && stack <= c.func && stack <= c.top
  {}

  /** The list can be walked while its upvalues move. */
  ghost predicate Linear(m: Memory, opens: seq<nat>, oldstack: nat) {
    && NoDup(opens) && (forall u :: u in opens ==> u in m && m[u].v.Slot? && m[u].v.address >= oldstack)
    && forall i {:trigger NextOk(m, opens, i)} :: 0 <= i < |opens| ==> NextOk(m, opens, i)
  }

  lemma NoneMoved(m: Memory, opens: seq<nat>, oldstack: nat, stack: nat)
    ensures Moved(m, opens, 0, oldstack, stack) == m
  {}

  lemma MovedMore(m: Memory, opens: seq<nat>, n: nat, oldstack: nat, stack: nat)
    requires n < |opens| && Linear(m, opens, oldstack)
    ensures var u, m1 := opens[n], Moved(m, opens, n, oldstack, stack);
      && u in m1 && m1[u].v.Slot? && m1[u].v.address >= oldstack
      && m1[u].next == (if n + 1 < |opens| then To(opens[n + 1]) else Null)
      && Moved(m, opens, n + 1, oldstack, stack) == m1[u := m1[u].(v := Slot(m1[u].v.address - oldstack + stack))]
  {
    assert NextOk(m, opens, n);
    assert opens[..n + 1] == opens[..n] + [opens[n]];
  }

  lemma InUse(m: Memory, opens: seq<nat>, ring: seq<nat>, others: set<nat>, oldstack: nat, was: seq<Value>, stack: nat,
              slots: seq<Value>)
    requires Consistent(m, opens, ring, others, oldstack, |was|)
    requires forall u :: u in opens && u in m && m[u].v.Slot? ==> m[u].v.address < oldstack + |slots|
    requires forall i :: 0 <= i < |slots| && i < |was| ==> slots[i] == was[i]
    ensures Linear(m, opens, oldstack)
    ensures var m1 := Moved(m, opens, |opens|, oldstack, stack);
      && Consistent(m1, opens, ring, others, stack, |slots|)
      && (forall u :: u in m && u !in others && u != UVHEAD ==> ReadIn(m1, stack, slots, u) == ReadIn(m, oldstack, was, u))
      && forall u :: u in others ==> u in m && u in m1 && m1[u] == m[u]
  {
    var m1 := Moved(m, opens, |opens|, oldstack, stack);
    assert opens[..|opens|] == opens;
    ChainMembers(m, opens, oldstack, |was|);
    RingKept(m, m1, ring);
    MovedChain(m, opens, oldstack, |was|, stack, |slots|);
    ExactKept(m, m1, opens, ring, others);
  }

  lemma MovedChain(m: Memory, opens: seq<nat>, oldstack: nat, oldsize: nat, stack: nat, size: nat)
    requires Chain(m, opens, oldstack, oldsize) && forall u :: u in opens && u in m && m[u].v.Slot? ==> m[u].v.address < oldstack + size
    ensures Chain(Moved(m, opens, |opens|, oldstack, stack), opens, stack, size)
  {
    var m1 := Moved(m, opens, |opens|, oldstack, stack);
    assert opens[..|opens|] == opens;
    forall i | 0 <= i < |opens| ensures NextOk(m1, opens, i) { assert NextOk(m, opens, i); }
  }

  lemma OnePerSlot(m: Memory, opens: seq<nat>, ring: seq<nat>, others: set<nat>, stack: nat, size: nat)
    requires Consistent(m, opens, ring, others, stack, size)
    ensures forall u, w :: u in m && w in m && u !in others && w !in others && u != UVHEAD && w != UVHEAD && m[u].v.Slot? && m[u].v == m[w].v ==> u == w
    ensures forall u :: u in m && u !in others && u != UVHEAD && m[u].v.Slot? ==> stack <= m[u].v.address < stack + size
  {
  }

  /** What is read through an upvalue. */
  function ReadIn(m: Memory, stack: nat, slots: seq<Value>, u: nat): Value {
    if u !in m then Nil
    else match m[u].v
      case Own => m[u].value
      case Slot(a) => if stack <= a < stack + |slots| then slots[a - stack] else Nil
  }

  /** Memory after the topmost open upvalue has been closed or freed. */
  ghost function TopClosed(m: Memory, u: nat, stack: nat, slots: seq<Value>): Memory
    requires u in m && m[u].succ in m && m[u].prev in m && m[u].v.Slot? && stack <= m[u].v.address < stack + |slots|
  {
    var m1 := Unlinked(m, u);
    if m[u].dead then m1 - {u}
    else m1[u := UpVal(Own, slots[m[u].v.address - stack], m1[u].next, m1[u].prev, m1[u].succ, m1[u].dead)]
  }

  /** An upvalue that was alive is closed, one that was dead is gone, the others are as they were; nothing
    * else is read through any. */
  ghost predicate ClosedOne(m: Memory, m1: Memory, u: nat, stack: nat, slots: seq<Value>) {
    && Closed(m, m1, u)
    && (forall w :: w in m && w != u ==> w in m1 && Same(m[w], m1[w]))
    && forall w :: w in m1 ==> w in m && ReadIn(m1, stack, slots, w) == ReadIn(m, stack, slots, w)
  }

  /** The first `n` upvalues of a list have been closed. */
  ghost predicate ClosedFirst(m: Memory, m1: Memory, opens: seq<nat>, n: nat, stack: nat, slots: seq<Value>)
    requires n <= |opens|
  {
    && (forall j :: 0 <= j < n ==> Closed(m, m1, opens[j]))
    && (forall w :: w in m && w !in opens[..n] ==> w in m1 && Same(m[w], m1[w]))
    && forall w :: w in m1 ==> w in m && ReadIn(m1, stack, slots, w) == ReadIn(m, stack, slots, w)
  }

  lemma StillOpen(m: Memory, m1: Memory, opens: seq<nat>, n: nat, stack: nat, slots: seq<Value>)
    requires n < |opens| && NoDup(opens) && ClosedFirst(m, m1, opens, n, stack, slots) && opens[n] in m
    ensures opens[n] in m1 && m1[opens[n]].v == m[opens[n]].v && Same(m[opens[n]], m1[opens[n]])
  {}

  lemma HeadIsOpen(m: Memory, opens: seq<nat>, ring: seq<nat>, others: set<nat>, stack: nat, size: nat)
    requires Consistent(m, opens, ring, others, stack, size)
    ensures opens != [] ==> opens[0] in m && m[opens[0]].v.Slot?
  {}

  lemma TopClosedIs(m: Memory, u: nat, stack: nat, slots: seq<Value>)
    requires u in m && m[u].succ in m && m[u].prev in m && m[u].v.Slot? && stack <= m[u].v.address < stack + |slots|
    requires u in Unlinked(m, u) && Same(m[u], Unlinked(m, u)[u])
    ensures var m1 := Unlinked(m, u);
      && m1[u].v == m[u].v
      && TopClosed(m, u, stack, slots) == (if m[u].dead then m1 - {u} else m1[u := m1[u].(value := slots[m[u].v.address - stack], v := Own)])
  {
    hide Unlinked;
  }

  /** The first `n` of the list are at or above the level. */
  ghost predicate Above(m: Memory, opens: seq<nat>, n: int, level: nat) {
    0 <= n <= |opens| && forall j :: 0 <= j < n ==> opens[j] in m && m[opens[j]].v.Slot? && m[opens[j]].v.address >= level
  }

  /** Those at or above the level are the first `n` of the list. */
  ghost predicate AboveExactly(m: Memory, opens: seq<nat>, n: nat, level: nat) {
    forall j :: 0 <= j < |opens| ==> opens[j] in m && m[opens[j]].v.Slot? && (j < n <==> m[opens[j]].v.address >= level)
  }

  lemma AboveMore(m: Memory, m1: Memory, opens: seq<nat>, n: nat, stack: nat, slots: seq<Value>, level: nat)
    requires n < |opens| && NoDup(opens) && ClosedFirst(m, m1, opens, n, stack, slots) && opens[n] in m
    requires Above(m, opens, n, level)
    requires opens[n] in m1 && m1[opens[n]].v.Slot? && m1[opens[n]].v.address >= level
    ensures Above(m, opens, n + 1, level)
  {
    StillOpen(m, m1, opens, n, stack, slots);
    hide ClosedFirst, NoDup;
  }

  lemma Boundary(m: Memory, m1: Memory, opens: seq<nat>, n: nat, stack: nat, slots: seq<Value>, level: nat)
    requires n <= |opens| && Chain(m, opens, stack, |slots|) && ClosedFirst(m, m1, opens, n, stack, slots)
    requires Above(m, opens, n, level)
    requires n < |opens| ==> opens[n] in m1 && m1[opens[n]].v.Slot? && m1[opens[n]].v.address < level
    ensures AboveExactly(m, opens, n, level)
  {
    ChainMembers(m, opens, stack, |slots|);
    Levels(m, opens, stack, |slots|);
    if n < |opens| {
      StillOpen(m, m1, opens, n, stack, slots);
    }
    hide ClosedFirst, NoDup, Chain;
  }

  lemma NoneClosed(m: Memory, opens: seq<nat>, stack: nat, slots: seq<Value>)
    ensures ClosedFirst(m, m, opens, 0, stack, slots)
  {}

  lemma ClosedMore(m: Memory, m1: Memory, m2: Memory, opens: seq<nat>, n: nat, stack: nat, slots: seq<Value>)
    requires n < |opens| && NoDup(opens) && ClosedFirst(m, m1, opens, n, stack, slots)
    requires ClosedOne(m1, m2, opens[n], stack, slots)
    requires opens[n] in m
    ensures ClosedFirst(m, m2, opens, n + 1, stack, slots)
  {
    hide ReadIn;
    StillOpen(m, m1, opens, n, stack, slots);
    var u := opens[n];
    forall j | 0 <= j < n + 1
      ensures Closed(m, m2, opens[j])
    {
      if j < n { assert Closed(m, m1, opens[j]) && opens[j] != u; }
    }
    hide NoDup, Closed;
    assert opens[..n + 1] == opens[..n] + [u];
    forall w | w in m && w !in opens[..n + 1] ensures w in m2 && Same(m[w], m2[w]) {
      assert w !in opens[..n] && w != u;
    }
  }

  predicate Same(uv: UpVal, uv1: UpVal) { uv1.v == uv.v && uv1.value == uv.value && uv1.dead == uv.dead }

  /** An upvalue that was alive is closed, one that was dead is gone. */
  ghost predicate Closed(m: Memory, m1: Memory, u: nat) {
    u in m && if m[u].dead then u !in m1 else u in m1 && m1[u].v == Own
  }

  lemma UnlinkedKeeps(m: Memory, u: nat)
    requires u in m && m[u].succ in m && m[u].prev in m && m[u].succ != u && m[u].prev != u
    ensures var m1 := Unlinked(m, u);
      m1.Keys == m.Keys && forall w :: w in m ==> Same(m[w], m1[w]) && m1[w].next == m[w].next
  {}

  /** What closing or freeing the topmost upvalue keeps. */
  lemma Closing(m: Memory, opens: seq<nat>, ring: seq<nat>, others: set<nat>, stack: nat, slots: seq<Value>)
    returns (k: nat)
    requires Consistent(m, opens, ring, others, stack, |slots|) && opens != []
    ensures var u := opens[0];
      && k < |ring| && ring[k] == u && u in m && m[u].succ in m && m[u].prev in m
      && m[u].next == (if |opens| > 1 then To(opens[1]) else Null) && m[u].v.Slot?
      && stack <= m[u].v.address < stack + |slots|
      && u in Unlinked(m, u) && Same(m[u], Unlinked(m, u)[u])
      && var m1 := TopClosed(m, u, stack, slots);
      && Consistent(m1, opens[1..], Without(ring, k), others, stack, |slots|) && ClosedOne(m, m1, u, stack, slots)
  {
    var u := opens[0];
    assert u in opens && u in ring;
    k :| 0 <= k < |ring| && ring[k] == u;
    RingUnlink(m, ring, k);
    RingNeighbours(m, ring, k);
    UnlinkedKeeps(m, u);
    ChainTail(m, opens, stack, |slots|);
    ChainMembers(m, opens, stack, |slots|);
    var m1, ring1 := TopClosed(m, u, stack, slots), Without(ring, k);
    hide Ring, Chain, Unlinked, NoDup, Without, Exact, ReadIn, ClosedOne;
    TopClosedOne(m, u, stack, slots);
    RingKept(Unlinked(m, u), m1, ring1);
    ChainKept(m, m1, opens[1..], stack, |slots|);
    ExactLess(m, m1, opens, ring, ring1, others);
  }

  lemma TopClosedOne(m: Memory, u: nat, stack: nat, slots: seq<Value>)
    requires u in m && m[u].succ in m && m[u].prev in m && m[u].succ != u && m[u].prev != u
    requires m[u].v.Slot? && stack <= m[u].v.address < stack + |slots|
    ensures ClosedOne(m, TopClosed(m, u, stack, slots), u, stack, slots)
  {
    UnlinkedKeeps(m, u);
    hide Unlinked;
  }

  lemma RingNeighbours(m: Memory, ring: seq<nat>, k: nat)
    requires Ring(m, ring) && k < |ring|
    ensures var u := ring[k]; u in m && m[u].succ in m && m[u].prev in m && m[u].succ != u && m[u].prev != u
  {
    CircleNeighbours(m, [UVHEAD] + ring, k + 1);
  }

  lemma Levels(m: Memory, opens: seq<nat>, stack: nat, size: nat)
    requires Chain(m, opens, stack, size)
    ensures forall i, j :: 0 <= i < j < |opens| ==> m[opens[i]].v.address > m[opens[j]].v.address
  {}

  /** What the creation of an upvalue keeps. */
  lemma Creation(m: Memory, opens: seq<nat>, ring: seq<nat>, others: set<nat>, stack: nat, size: nat, i: nat, uv: nat,
                 level: nat)
    requires Consistent(m, opens, ring, others, stack, size) && stack <= level < stack + size && uv !in m
    requires uv != UVHEAD && i <= |opens|
    requires forall j :: 0 <= j < i ==> m[opens[j]].v.address > level
    requires forall j :: i <= j < |opens| ==> m[opens[j]].v.address < level
    ensures UVHEAD in m && m[UVHEAD].succ in m && forall u :: u in opens ==> u in m
    ensures forall u :: u in opens[..i] + [uv] + opens[i..] <==> u in opens || u == uv
    ensures var m1 := InList(m, opens, i, uv, level);
      && m1[UVHEAD].succ in m1
      && var m2 := LinkedFirst(m1, uv);
      && Consistent(m2, opens[..i] + [uv] + opens[i..], [uv] + ring, others, stack, size) && Unmoved(m, m2)
      && uv in m2 && m2[uv].v == Slot(level) && !m2[uv].dead
  {
    hide Ring, Chain, Created, NoDup, LinkedFirst;
    ChainMembers(m, opens, stack, size);
    CreatedOk(m, opens, ring, stack, size, i, uv, level);
    ExactMore(m, Created(m, opens, i, uv, level), opens, i, ring, others, uv);
    CreatedIs(m, opens, i, uv, level);
    SplitMembers(opens, i, uv);
  }

  lemma SplitMembers(s: seq<nat>, i: nat, u: nat)
    requires i <= |s|
    ensures forall x :: x in s[..i] + [u] + s[i..] <==> x in s || x == u
  {
    assert s == s[..i] + s[i..];
  }

  /** No upvalue has lost its value or moved: what is read through them is the same. */
  ghost predicate Unmoved(m: Memory, m1: Memory) {
    forall u :: u in m ==> u in m1 && m1[u].v == m[u].v && m1[u].value == m[u].value
  }

  ghost function NewUpVal(level: nat, p: Ref): UpVal { UpVal(Slot(level), Nil, p, UVHEAD, UVHEAD, false) }

  /** Memory with a new upvalue in the list, before it is linked into the ring. */
  ghost function InList(m: Memory, opens: seq<nat>, i: nat, uv: nat, level: nat): (m1: Memory)
    requires i <= |opens| && (i > 0 ==> opens[i - 1] in m) && uv !in m
    ensures forall u :: u in m ==>
      u in m1 && m1[u].v == m[u].v && m1[u].value == m[u].value && m1[u].prev == m[u].prev && m1[u].succ == m[u].succ
    ensures uv in m1 && m1[uv].v == Slot(level) && m1[uv].value == Nil && !m1[uv].dead
  {
    var m1 := m[uv := NewUpVal(level, if i < |opens| then To(opens[i]) else Null)];
    if i == 0 then m1 else m1[opens[i - 1] := m1[opens[i - 1]].(next := To(uv))]
  }

  ghost function Created(m: Memory, opens: seq<nat>, i: nat, uv: nat, level: nat): Memory
    requires i <= |opens| && (i > 0 ==> opens[i - 1] in m) && uv !in m && UVHEAD in m && m[UVHEAD].succ in m
  {
    LinkedFirst(InList(m, opens, i, uv, level), uv)
  }

  lemma CreatedIs(m: Memory, opens: seq<nat>, i: nat, uv: nat, level: nat)
    requires i <= |opens| && (i > 0 ==> opens[i - 1] in m) && uv !in m && UVHEAD in m && m[UVHEAD].succ in m
    ensures Created(m, opens, i, uv, level) == LinkedFirst(InList(m, opens, i, uv, level), uv)
  {}

  lemma CreatedOk(m: Memory, opens: seq<nat>, ring: seq<nat>, stack: nat, size: nat, i: nat, uv: nat, level: nat)
    requires Ring(m, ring) && Chain(m, opens, stack, size) && stack <= level < stack + size && uv !in m && uv != UVHEAD
    requires i <= |opens|
    requires forall j :: 0 <= j < i ==> m[opens[j]].v.address > level
    requires forall j :: i <= j < |opens| ==> m[opens[j]].v.address < level
    ensures UVHEAD in m && m[UVHEAD].succ in m
    ensures var m1 := Created(m, opens, i, uv, level);
      && Ring(m1, [uv] + ring) && Chain(m1, opens[..i] + [uv] + opens[i..], stack, size)
      && uv in m1 && m1[uv].v == Slot(level) && !m1[uv].dead
      && m1.Keys == m.Keys + {uv} && forall u :: u in m ==> m1[u].v == m[u].v && m1[u].value == m[u].value
  {
    hide Ring, Chain, InList, LinkedFirst;
    RingLinkHead(m, ring);
    ChainMembers(m, opens, stack, size);
    var m0, m1, now := m[uv := NewUpVal(level, Null)], InList(m, opens, i, uv, level), opens[..i] + [uv] + opens[i..];
    RingKept(m, m1, ring);
    ChainKept(m, m0, opens, stack, size);
    ChainInsert(m0, opens, stack, size, i, uv);
    InListIs(m, opens, i, uv, level);
    RingLinkHead(m1, ring);
    RingLink(m1, ring, uv);
    LinkedFirstKeeps(m1, uv);
    ChainKept(m1, LinkedFirst(m1, uv), now, stack, size);
  }

  lemma InListIs(m: Memory, opens: seq<nat>, i: nat, uv: nat, level: nat)
    requires i <= |opens| && (i > 0 ==> opens[i - 1] in m) && uv !in m
    ensures InList(m, opens, i, uv, level) == Inserted(m[uv := NewUpVal(level, Null)], opens, i, uv)
    ensures InList(m, opens, i, uv, level).Keys == m.Keys + {uv}
  {
    var next := if i < |opens| then To(opens[i]) else Null;
    assert m[uv := NewUpVal(level, next)] == m[uv := NewUpVal(level, Null)][uv := NewUpVal(level, next)];
  }

  lemma LinkedFirstKeeps(m: Memory, u: nat)
    requires UVHEAD in m && u in m && m[UVHEAD].succ in m
    ensures var m1 := LinkedFirst(m, u);
      m1.Keys == m.Keys && forall w :: w in m ==> m1[w].v == m[w].v && m1[w].next == m[w].next && m1[w].value == m[w].value && m1[w].dead == m[w].dead
  {}

  lemma ChainMembers(m: Memory, opens: seq<nat>, stack: nat, size: nat)
    requires Chain(m, opens, stack, size)
    ensures (forall u :: u in opens ==> u in m) && NoDup(opens)
    ensures forall i :: 0 <= i < |opens| ==> m[opens[i]].v.Slot? && stack <= m[opens[i]].v.address < stack + size
  {
    OpensDiffer(m, opens, stack, size);
  }

  lemma RingLinkHead(m: Memory, ring: seq<nat>)
    requires Ring(m, ring)
    ensures UVHEAD in m && m[UVHEAD].succ in m && forall u :: u in ring ==> u in m
  {
    var circle := [UVHEAD] + ring;
    assert UVHEAD in circle && circle[0] == UVHEAD && Linked(m, circle, 0);
  }
}
