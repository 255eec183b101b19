/** Tables: an array part and a hash part that grow and change in place. */
module LuaTables {
  import opened TableChains
  import opened TableSizes

  /** The place of an element, which the original hands out as a pointer to its value. */
  datatype Slot = InArray(i: nat) | InNode(i: nat)

  datatype Lookup = NoSlot | Found(slot: Slot)

  datatype Outcome = Ok(slot: Slot) | IndexIsNil | IndexIsNaN | TableOverflow

  /** Nodes with a key among the first `n`. */
  function Taken(nodes: seq<Node>, n: nat): nat
    requires n <= |nodes|
  {
    if n == 0 then 0 else Taken(nodes, n - 1) + One(nodes[n - 1].key != Free)
  }

  lemma {:induction false} TakenFree(nodes: seq<Node>, n: nat)
    requires n <= |nodes|
    ensures Taken(nodes, n) <= n
    ensures Taken(nodes, n) < n ==> exists i :: 0 <= i < n && nodes[i].key == Free
  {
    if n > 0 { TakenFree(nodes, n - 1); }
  }

  /** At most one more node has a key. */
  lemma {:induction false} TakenOneMore(nodes: seq<Node>, nodes1: seq<Node>, p: nat, n: nat)
    requires n <= |nodes| == |nodes1|
    requires forall i :: 0 <= i < n && i != p ==> (nodes1[i].key == Free <==> nodes[i].key == Free)
    ensures Taken(nodes1, n) <= Taken(nodes, n) + One(p < n)
  {
    if n > 0 { TakenOneMore(nodes, nodes1, p, n - 1); }
  }

  class LuaTable {
    const hash: Hash
    var arr: seq<Value>
    var node: seq<Node>
    var lsizenode: nat
    var dummy: bool
    var lastfree: int
    ghost var rank: seq<nat>
    ghost var top: nat

    ghost predicate Sizes()
      reads this
    {
      |arr| <= MAXASIZE && lsizenode <= MAXBITS && |node| == Pow2(lsizenode)
    }

    /** All nodes from `lastfree` on have keys, but for the one that is about to get one; the dummy node
      * is shared and never written. */
    ghost predicate FreePointer(but: int)
      reads this
    {
      && lastfree <= |node|
      && if dummy then |node| == 1 && node[0] == Node(Free, Nil, Null) && lastfree <= 0
         else forall i :: 0 <= i < |node| && lastfree <= i && i != but ==> node[i].key != Free
    }

    /** Keys of the array part are not in the hash part. */
    ghost predicate Apart()
      reads this
    {
      forall i :: 0 <= i < |node| && node[i].key.Live? ==> !IntKey(node[i].key.k, |arr|)
    }

    ghost predicate ValidBut(but: int)
      reads this
    {
      Sizes() && FreePointer(but) && Apart() && Chained(hash, node, rank, top)
    }

    ghost predicate Valid()
      reads this
    {
      ValidBut(-1)
    }

    /** The table as a map from keys to values, with nil for keys that it does not have. */
    ghost function Value(k: Key): TableChains.Value
      reads this
    {
      if IntKey(k, |arr|) then arr[k.n - 1] else ValueOf(node, k)
    }

    ghost predicate HasRoom()
      reads this
    {
      !dummy && exists i :: 0 <= i < |node| && node[i].key == Free
    }

    /** The slot holds the value of the key. */
    ghost predicate SlotOf(s: Slot, k: Key)
      reads this
    {
      match s
      case InArray(i) => i < |arr| && k == Int(i + 1)
      case InNode(i) => i < |node| && node[i].key == Live(k) && !IntKey(k, |arr|)
    }

    /** `luaH_new`. */
    constructor (hash: Hash, narray: nat, nhash: nat)
      requires narray <= MAXASIZE && (nhash > 0 ==> CeilLog2(nhash) <= MAXBITS)
      ensures Valid() && |arr| == narray && forall q :: Value(q) == Nil
    {
      this.hash, arr, node, lsizenode, dummy, lastfree := hash, seq(narray, _ => Nil), [], 0, false, 0;
      new;
      var _ := SetNodeVector(nhash);
    }

    // ----- lookups -----------------------------------------------------------------------------------

    /** The loops of the lookup functions: along the chain from the main position. */
    method FindNode(k: Key) returns (found: bool, i: nat)
      requires Valid()
      ensures found == Present(node, k)
      ensures found ==> i < |node| && node[i].key == Live(k)
    {
      var n := MainPosition(hash, |node|, k);
      ghost var mp := n;
      HomeOfKey(hash, node, rank, k);
      while true
        invariant n < |node| && (n == mp || (Keyed(node, mp) && Keyed(node, n)))
        invariant rank[mp] <= rank[n]
        invariant forall x :: Keyed(node, x) && rank[mp] <= rank[x] < rank[n] ==> node[x].key != Live(k)
        decreases if Keyed(node, n) then top - rank[n] else 0
      {
        if node[n].key == Live(k) {
          return true, n;
        }
        assert LinkOk(node, rank, n);
        if node[n].next == Null {
          return false, n;
        }
        n := node[n].next.i;
      }
    }

    /** `luaH_get`, with the function for integers. */
    method Get(k: Key) returns (r: Lookup)
      requires Valid()
      ensures r.Found? ==> SlotOf(r.slot, k)
      ensures r.NoSlot? ==> Value(k) == Nil && !IntKey(k, |arr|) && !Present(node, k)
    {
      match k
      case NilKey => return NoSlot;
      case Int(n) =>
        if 1 <= n <= |arr| {
          return Found(InArray(n - 1));
        }
        var found, i := FindNode(k);
        return if found then Found(InNode(i)) else NoSlot;
      case _ =>
        var found, i := FindNode(k);
        return if found then Found(InNode(i)) else NoSlot;
    }

    // ----- new keys ----------------------------------------------------------------------------------

    /** `getfreepos`: a node without a key, as long as there is one. */
    method GetFreePos() returns (found: bool, n: nat)
      requires Valid()
      modifies this`lastfree
      ensures found == old(HasRoom())
      ensures if found then ValidBut(n) && n < |node| && node[n].key == Free else Valid()
    {
      hide Chained, IntKey;
      while true
        invariant Valid() && lastfree <= old(lastfree)
        decreases lastfree
      {
        lastfree := lastfree - 1;
        if lastfree + 1 <= 0 {
          return false, 0;
        }
        if node[lastfree].key == Free {
          return true, lastfree;
        }
      }
    }

    /** A key that can be added: it is not in the table. */
    ghost predicate Absent(k: Key)
      reads this
    {
      k != NilKey && k != NaN && !IntKey(k, |arr|) && !Present(node, k)
    }

    /** What adding a key to a table with room for it does: it has a slot, and no key another value. */
    ghost predicate HasSlot(mp: nat, k: Key)
      reads this
    {
      Valid() && SlotOf(InNode(mp), k)
    }

    /** The key is put in its main position, which is free or holds a key without a value. */
    method PutAtHome(mp: nat, k: Key)
      requires Valid() && Absent(k) && !dummy && mp == MainPosition(hash, |node|, k) && node[mp].val == Nil
      modifies this`node, this`rank, this`top
      ensures HasSlot(mp, k) && |node| == old(|node|)
      ensures (forall q :: Value(q) == old(Value(q))) && Taken(node, |node|) <= old(Taken(node, |node|)) + 1
    {
      ghost var was := node;
      node := node[mp := node[mp].(key := Live(k))];
      TakenOneMore(was, node, mp, |node|);
      if was[mp].key == Free {
        assert was[mp] == Node(Free, Nil, Null);
        InsertFresh(hash, was, rank, top, k, mp);
        rank, top := rank[mp := top], top + 1;
      } else {
        InsertOver(hash, was, rank, top, k, mp);
      }
      hide Chained, ValueOf;
      assert SameValues(was, node);
    }

    /** The colliding node is in its own main position. */
    method PutNext(mp: nat, n: nat, k: Key)
      requires ValidBut(n) && Absent(k) && !dummy && mp == MainPosition(hash, |node|, k) && node[mp].val != Nil
      requires Keyed(node, mp) && Home(hash, node, mp) == mp && n < |node| && node[n].key == Free
      modifies this`node, this`rank, this`top
      ensures HasSlot(n, k) && |node| == old(|node|)
      ensures (forall q :: Value(q) == old(Value(q))) && Taken(node, |node|) <= old(Taken(node, |node|)) + 1
    {
      ghost var was := node;
      InsertAfter(hash, was, rank, top, k, mp, n);
      assert was[n] == Node(Free, Nil, Null);
      hide Chained, ValueOf, Shifted;
      node := node[n := node[n].(next := node[mp].next)];
      node := node[mp := node[mp].(next := To(n))];
      node := node[n := node[n].(key := Live(k))];
      rank, top := Shifted(rank, mp, n), top + 1;
      assert node == Followed(was, k, mp, n);
      TakenOneMore(was, node, n, |node|);
      assert SameValues(was, node);
    }

    /** The colliding node is out of its main position: its predecessor is looked for from there. */
    method PutInPlace(home: nat, mp: nat, n: nat, k: Key)
      requires ValidBut(n) && Absent(k) && !dummy && mp == MainPosition(hash, |node|, k) && node[mp].val != Nil
      requires Keyed(node, mp) && home == Home(hash, node, mp) != mp && n < |node| && node[n].key == Free
      modifies this`node, this`rank, this`top
      ensures HasSlot(mp, k) && |node| == old(|node|)
      ensures (forall q :: Value(q) == old(Value(q))) && Taken(node, |node|) <= old(Taken(node, |node|)) + 1
    {
      hide Chained, ValueOf, Home, MainPosition, Present;
      ghost var was := node;
      var othern := FindPrevious(home, mp);
      InsertMove(hash, was, rank, top, k, othern, mp, n);
      PreviousIsOther(hash, was, rank, top, othern, mp, n);
      node := node[othern := node[othern].(next := To(n))];
      node := node[n := node[mp]];
      node := node[mp := node[mp].(next := Null, val := Nil)];
      node := node[mp := node[mp].(key := Live(k))];
      rank, top := rank[n := rank[mp]][mp := top], top + 1;
      assert node == Moved(was, k, othern, mp, n);
      MovedKeys(was, k, othern, mp, n);
      hide Moved;
      TakenOneMore(was, node, n, |node|);
      assert SameValues(was, node);
    }

    method FindPrevious(home: nat, mp: nat) returns (prev: nat)
      requires Chained(hash, node, rank, top) && Keyed(node, mp) && home == Home(hash, node, mp) != mp
      ensures prev < |node| && node[prev].next == To(mp)
    {
      assert HomeOk(hash, node, rank, mp);
      prev := home;
      while node[prev].next != To(mp)
        invariant Keyed(node, prev) && rank[home] <= rank[prev] < rank[mp]
        decreases rank[mp] - rank[prev]
      {
        assert LinkOk(node, rank, prev);
        assert node[prev].next != Null;
        prev := node[prev].next.i;
      }
    }

    /** Adding the key will not make the table grow. */
    ghost predicate Ready(k: Key)
      reads this
    {
      HasRoom() || IntKey(k, |arr|) || Present(node, k)
    }

    /** `newkey`. If there is no free node, the table is rebuilt, and then there is a place for the key: the
      * second attempt does not rebuild it again. */
    method NewKey(k: Key) returns (r: Outcome)
      requires Valid() && Absent(k)
      modifies this
      ensures r.Ok? || (r == TableOverflow && Entries(old(arr), old(node)) >= MAXASIZE)
      ensures r.Ok? ==> Valid() && SlotOf(r.slot, k) && forall q :: Value(q) == old(Value(q))
      ensures old(HasRoom()) ==> r.Ok? && |arr| == old(|arr|) && |node| == old(|node|) && dummy == old(dummy)
      ensures old(HasRoom()) ==> Taken(node, |node|) <= old(Taken(node, |node|)) + 1
      decreases if Ready(k) then 0 else 1, 1, 0
    {
      hide Chained, ValueOf, Taken;
      var mp := MainPosition(hash, |node|, k);
      if node[mp].val == Nil && !dummy {
        PutAtHome(mp, k);
        return Ok(InNode(mp));
      }
      var found, n := GetFreePos();
      if !found {
        var overflow := Rehash(k);
        if overflow {
          return TableOverflow;
        }
        r := Set(k);
        return;
      }
      KeyedWithValue(hash, node, rank, top, mp);
      var othern := MainPosition(hash, |node|, node[mp].key.k);
      if othern != mp {
        PutInPlace(othern, mp, n, k);
        return Ok(InNode(mp));
      }
      PutNext(mp, n, k);
      return Ok(InNode(n));
    }

    /** `luaH_set`: the slot of a key, which is added if need be. */
    method Set(k: Key) returns (r: Outcome)
      requires Valid()
      modifies this
      ensures r == IndexIsNil <==> k == NilKey
      ensures r == IndexIsNaN <==> k == NaN
      ensures r == TableOverflow ==> Entries(old(arr), old(node)) >= MAXASIZE
      ensures !r.Ok? && r != TableOverflow ==> Valid() && forall q :: Value(q) == old(Value(q))
      ensures r.Ok? ==> Valid() && SlotOf(r.slot, k) && forall q :: Value(q) == old(Value(q))
      ensures old(Ready(k)) && k != NilKey && k != NaN ==>
        r.Ok? && |arr| == old(|arr|) && |node| == old(|node|) && dummy == old(dummy)
        && Taken(node, |node|) <= old(Taken(node, |node|)) + One(!IntKey(k, |arr|))
      decreases if Ready(k) then 0 else 1, 2, 0
    {
      hide Chained, ValueOf, Taken;
      NoOddKeys(hash, node, rank, top);
      var p := Get(k);
      if p.Found? {
        return Ok(p.slot);
      }
      if k == NilKey {
        return IndexIsNil;
      }
      if k == NaN {
        return IndexIsNaN;
      }
      r := NewKey(k);
    }

    /** The value at a slot is changed. */
    method Assign(s: Slot, v: TableChains.Value, ghost k: Key)
      requires Valid() && SlotOf(s, k)
      modifies this`arr, this`node
      ensures Valid() && SlotOf(s, k) && Value(k) == v && (forall q :: q != k ==> Value(q) == old(Value(q)))
      ensures |arr| == old(|arr|) && |node| == old(|node|) && Taken(node, |node|) == old(Taken(node, |node|))
      ensures forall x :: 0 <= x < |node| ==> node[x].key == old(node)[x].key
    {
      match s
      case InArray(i) => arr := arr[i := v];
      case InNode(i) =>
        ghost var was := node;
        node := node[i := node[i].(val := v)];
        AssignNode(hash, was, rank, top, i, v);
        AssignValues(hash, was, rank, top, i, v);
        hide Chained, ValueOf;
        assert forall q :: q != k ==> ValueOf(node, q) == ValueOf(was, q);
        TakenSame(was, node, |node|);
    }

    /** An element of the old table is put into the new one. */
    method Reinsert(k: Key, v: TableChains.Value)
      requires Valid() && k != NilKey && k != NaN && (IntKey(k, |arr|) || (!dummy && Taken(node, |node|) < |node|))
      modifies this
      ensures Valid() && Value(k) == v && (forall q :: q != k ==> Value(q) == old(Value(q)))
      ensures |arr| == old(|arr|) && |node| == old(|node|) && dummy == old(dummy)
      ensures Taken(node, |node|) <= old(Taken(node, |node|)) + One(!IntKey(k, |arr|))
      decreases 0, 3, 0
    {
      TakenFree(node, |node|);
      hide Chained, ValueOf, Taken;
      var r := Set(k);
      Assign(r.slot, v, k);
    }

    /** `setnodevector`. */
    method SetNodeVector(size: nat) returns (overflow: bool)
      requires |arr| <= MAXASIZE
      modifies this
      ensures overflow == (size > 0 && CeilLog2(size) > MAXBITS) && arr == old(arr)
      ensures !overflow ==>
        Valid() && Taken(node, |node|) == 0 && dummy == (size == 0) && (size > 0 ==> size <= |node| == Pow2(CeilLog2(size)))
      ensures !overflow ==> forall q :: ValueOf(node, q) == Nil
      ensures !overflow ==> forall q :: Value(q) == if IntKey(q, |arr|) then arr[q.n - 1] else Nil
    {
      if size == 0 {
        node, dummy, lsizenode := [Node(Free, Nil, Null)], true, 0;
        lastfree := 0;
      } else {
        var lsize := CeilLog2(size);
        if lsize > MAXBITS {
          return true;
        }
        node, dummy, lsizenode := seq(Pow2(lsize), _ => Node(Free, Nil, Null)), false, lsize;
        lastfree := |node|;
      }
      rank, top := seq(|node|, _ => 0), 0;
      NoNodes(hash, node, rank);
      return false;
    }

    /** Enough nodes for what is put in again. */
    ghost predicate Room(nhsize: nat)
      reads this
    {
      nhsize > 0 ==> !dummy && nhsize <= |node|
    }

    /** The loop of `resize` over the vanishing slice of the array part. */
    method ReinsertSlice(oldArr: seq<TableChains.Value>, nhsize: nat)
      requires Valid() && |arr| < |oldArr| && Taken(node, |node|) == 0
      requires ArrayOut(oldArr, |arr|, |oldArr|) <= nhsize && Room(nhsize)
      requires forall q :: Value(q) == if IntKey(q, |arr|) then oldArr[q.n - 1] else Nil
      modifies this
      ensures Valid() && |arr| == old(|arr|) && |node| == old(|node|) && dummy == old(dummy)
      ensures Taken(node, |node|) <= ArrayOut(oldArr, |arr|, |oldArr|)
      ensures forall q :: Value(q) == if IntKey(q, |oldArr|) then oldArr[q.n - 1] else Nil
      decreases 0, 4, 0
    {
      hide Chained, ValueOf, Taken;
      var i := |arr|;
      while i < |oldArr|
        invariant |arr| <= i <= |oldArr| && Valid() && |arr| == old(|arr|) && |node| == old(|node|)
        invariant dummy == old(dummy)
        invariant Taken(node, |node|) <= ArrayOut(oldArr, |arr|, i)
        invariant forall q :: Value(q) == if IntKey(q, i) then oldArr[q.n - 1] else Nil
      {
        ArrayOutLe(oldArr, |arr|, i + 1, |oldArr|);
        if oldArr[i] != Nil {
          Reinsert(Int(i + 1), oldArr[i]);
        }
        i := i + 1;
      }
    }

    /** The loop of `resize` over the old nodes. */
    method ReinsertNodes(nold: seq<Node>, nhsize: nat, ghost base: nat)
      requires Valid() && Room(nhsize) && Taken(node, |node|) <= base && base + HashOut(nold, |arr|, 0) <= nhsize
      requires UsedOnce(nold) && forall j :: 0 <= j < |nold| && nold[j].val != Nil ==> nold[j].key != Free
      requires forall j :: InUse(nold, j) ==> nold[j].key.k != NilKey && nold[j].key.k != NaN
      modifies this
      ensures Valid() && |arr| == old(|arr|) && |node| == old(|node|) && dummy == old(dummy)
      ensures Taken(node, |node|) <= base + HashOut(nold, |arr|, 0)
      ensures forall j :: InUse(nold, j) ==> Value(nold[j].key.k) == nold[j].val
      ensures forall q :: (forall j :: InUse(nold, j) ==> nold[j].key.k != q) ==> Value(q) == old(Value(q))
      decreases 0, 4, 0
    {
      hide Chained, ValueOf, Taken;
      var i := |nold|;
      while i > 0
        invariant 0 <= i <= |nold| && Valid() && |arr| == old(|arr|) && |node| == old(|node|) && dummy == old(dummy)
        invariant Taken(node, |node|) <= base + HashOut(nold, |arr|, i)
        invariant forall j :: i <= j && InUse(nold, j) ==> Value(nold[j].key.k) == nold[j].val
        invariant forall q :: (forall j :: InUse(nold, j) ==> nold[j].key.k != q) ==> Value(q) == old(Value(q))
      {
        i := i - 1;
        HashOutLe(nold, |arr|, 0, i);
        if nold[i].val != Nil {
          assert InUse(nold, i);
          Reinsert(nold[i].key.k, nold[i].val);
        }
      }
    }

    /** `resize`: all elements are put in again. The room must be enough for those that do not go into the
      * array part, so that no table is rebuilt while this one is. */
    method Resize(nasize: nat, nhsize: nat) returns (overflow: bool)
      requires Valid() && nasize <= MAXASIZE
      requires Leaving(arr, nasize) + HashOut(node, nasize, 0) <= nhsize
      modifies this
      ensures overflow == (nhsize > 0 && CeilLog2(nhsize) > MAXBITS)
      ensures !overflow ==> Valid() && |arr| == nasize && forall q :: Value(q) == old(Value(q))
      ensures !overflow ==> dummy == (nhsize == 0) && (nhsize > 0 ==> nhsize <= |node|)
      ensures !overflow ==> Taken(node, |node|) <= Leaving(old(arr), nasize) + HashOut(old(node), nasize, 0)
      decreases 1, 0, 0
    {
      hide Chained, ValueOf, Taken, UsedOnce, Leaving, HashOut;
      OldEntries(hash, node, rank, top);
      LeavingIs(arr, nasize);
      var oldArr, nold := arr, node;
      if nasize > |oldArr| {
        arr := arr + seq(nasize - |arr|, _ => Nil);
      }
      overflow := SetNodeVector(nhsize);
      if overflow {
        return;
      }
      if nasize < |oldArr| {
        arr := arr[..nasize];
        ReinsertSlice(oldArr, nhsize);
      }
      assert forall q :: IntKey(q, |oldArr|) ==> Value(q) == old(Value(q));
      ReinsertNodes(nold, nhsize, Leaving(oldArr, nasize));
    }

    /** `rehash`: the table is rebuilt with sizes computed from its keys and the one to be added. The array
      * part gets its best size, and the hash part enough nodes for the others. */
    method Rehash(ek: Key) returns (overflow: bool)
      requires Valid() && Absent(ek)
      modifies this
      ensures !overflow ==> Valid() && Ready(ek) && forall q :: Value(q) == old(Value(q))
      ensures !overflow ==> BestSize(old(arr), old(node), ek, |arr|)
      ensures overflow ==> Entries(old(arr), old(node)) >= MAXASIZE
      decreases 1, 0, 1
    {
      hide Chained, ValueOf, Taken, HashTotal, HashOut, ArrayOut, BestSize;
      var nasize, nhsize := NewSizes(ek);
      overflow := Resize(nasize, nhsize);
      if overflow {
        TooMany(nhsize);
      } else if !IntKey(ek, nasize) {
        TakenFree(node, |node|);
      }
    }

    /** The counting part of `rehash`, for an array part of any size: its new size is the best, and there is room
      * for all other keys if and only if no element was behind the places that are counted. */
    method NewSizes(ek: Key) returns (n: nat, nhsize: nat)
      requires Apart() && Chained(hash, node, rank, top) && Absent(ek)
      ensures n <= MAXASIZE && BestSize(arr, node, ek, n)
      ensures nhsize <= Needed(arr, node, ek, n) && nhsize <= Entries(arr, node) + 1
      ensures nhsize == Needed(arr, node, ek, n) <==> forall i :: MAXASIZE <= i < |arr| ==> arr[i] == Nil
    {
      hide Chained, ValueOf, HashTotal, HashCount, ArrayCount, HashOut, Sum, BestSize, Candidates, Leaving, Best,
        Apart, Absent, Entries, Counted, Needed;
      var nums, nasize, totaluse := CountKeys(ek);
      var na;
      n, na := ComputeSizes(nums, nasize);
      ComputedSizes(arr, node, ek, nums, n, na);
      BestLe(nums, n, na);
      nhsize := totaluse - na;
    }

    /** What the counts rely on. */
    lemma UsableKeys(ek: Key)
      requires Apart() && Chained(hash, node, rank, top) && Absent(ek)
      ensures UsedOnce(node) && !IntKey(ek, |arr|)
      ensures forall i :: 0 <= i < |node| && InUse(node, i) ==> !IntKey(node[i].key.k, |arr|) && node[i].key.k != ek
      ensures forall i :: 0 <= i < |node| && node[i].val != Nil ==> node[i].key != Free
    {
      OldEntries(hash, node, rank, top);
      hide Chained, ValueOf;
    }

    /** Candidates for the array part by slices, and keys in all. */
    method CountKeys(ek: Key) returns (nums: seq<nat>, nasize: nat, totaluse: nat)
      requires Apart() && Chained(hash, node, rank, top) && Absent(ek)
      ensures |nums| == MAXBITS + 1 && nasize == Sum(nums, MAXBITS)
      ensures forall i :: 0 <= i <= MAXBITS ==> Sum(nums, i) == Candidates(arr, node, ek, Pow2(i)) <= Pow2(i)
      ensures nasize <= totaluse <= Entries(arr, node) + 1
      ensures totaluse == Entries(arr, node) + 1 <==> forall i :: MAXASIZE <= i < |arr| ==> arr[i] == Nil
    {
      hide Chained, ValueOf, HashTotal, HashCount, ArrayCount, Sum, Candidates, Counted, UsedOnce, HashOut, Pow2,
        IntKey;
      UsableKeys(ek);
      CountedAllElements(arr);
      var inHash, c;
      nums, nasize := NumUseArray(arr);
      totaluse := nasize;
      nums, nasize, inHash := NumUseHash(node, nums, nasize);
      totaluse := totaluse + inHash;
      nums, c := CountInt(ek, nums);
      nasize, totaluse := nasize + c, totaluse + 1;
      CountedAll(arr, node, ek, nums, nasize);
      HashSplit(node, MAXASIZE, 0);
    }

    // ----- the table as a map --------------------------------------------------------------------------

    method GetValue(k: Key) returns (v: TableChains.Value)
      requires Valid()
      ensures v == Value(k)
    {
      var p := Get(k);
      match p
      case NoSlot => return Nil;
      case Found(InArray(i)) => return arr[i];
      case Found(InNode(i)) =>
        DistinctLive(node, rank);
        ValueAt(node, i);
        return node[i].val;
    }

    /** An assignment to a key, as in `luaV_settable` without metamethods: no other key changes. */
    method Put(k: Key, v: TableChains.Value) returns (r: Outcome)
      requires Valid()
      modifies this
      ensures r == IndexIsNil <==> k == NilKey
      ensures r == IndexIsNaN <==> k == NaN
      ensures r == TableOverflow ==> Entries(old(arr), old(node)) >= MAXASIZE
      ensures r != TableOverflow ==> Valid()
      ensures r.Ok? ==> Value(k) == v && forall q :: q != k ==> Value(q) == old(Value(q))
      ensures !r.Ok? && r != TableOverflow ==> forall q :: Value(q) == old(Value(q))
    {
      hide Chained, ValueOf, Taken;
      r := Set(k);
      if r.Ok? {
        Assign(r.slot, v, k);
      }
    }

    // ----- traversals ------------------------------------------------------------------------------------

    /** The collector gives up the key of an entry without a value (`removeentry` in lgc.c). */
    method RemoveEntry(i: nat)
      requires Valid() && i < |node| && node[i].val == Nil
      modifies this`node
      ensures Valid() && |node| == old(|node|) && forall q :: Value(q) == old(Value(q))
      ensures node == old(node) || (old(node)[i].key.Live? && Collectable(old(node)[i].key.k)
        && node == old(node)[i := old(node)[i].(key := Dead(old(node)[i].key.k))])
    {
      if node[i].key.Live? && Collectable(node[i].key.k) {
        ghost var was := node;
        node := node[i := node[i].(key := Dead(node[i].key.k))];
        DeadNode(hash, was, rank, top, i);
        hide Chained, ValueOf;
        assert SameValues(was, node);
      }
    }

    ghost predicate First(x: int, k: Key)
      requires |rank| == |node|
      reads this
    {
      FirstOf(node, rank, x, k)
    }

    /** `findindex`: where the traversal is, -1 at its beginning. */
    method FindIndex(k: Key) returns (found: bool, i: int)
      requires Valid()
      ensures k == NilKey ==> found && i == -1
      ensures IntKey(k, |arr|) ==> found && i == k.n - 1
      ensures found <==> k == NilKey || IntKey(k, |arr|) || exists x :: 0 <= x < |node| && Matches(node[x].key, k)
      ensures found && k != NilKey ==>
        0 <= i < |arr| + |node| && (!IntKey(k, |arr|) ==> |arr| <= i && Matches(node[i - |arr|].key, k))
      ensures forall x :: !IntKey(k, |arr|) && k != NilKey && First(x, k) ==> found && i == |arr| + x
    {
      hide Chained, Ranked, Homed, Distinct, HomeOk, Leads, LinkOk, SoFar, FirstOf, Apart, FreePointer, MainPosition;
      if k == NilKey {
        return true, -1;
      }
      if k.Int? && 0 < k.n <= |arr| {
        return true, k.n - 1;
      }
      var n: nat := MainPosition(hash, |node|, k);
      ghost var mp := n;
      ChainsOf(hash, node, rank, top);
      AtMainPosition(hash, node, rank, k);
      while true
        invariant n < |node| && SoFar(node, rank, k, mp, n)
        decreases top - rank[n]
      {
        FollowLink(node, rank, top, n);
        if node[n].key == Live(k) || (node[n].key.Dead? && Collectable(k) && node[n].key.k == k) {
          FirstMatch(node, rank, top, k, mp, n);
          return true, |arr| + n;
        }
        if node[n].next == Null {
          NoMatch(node, rank, top, k, mp, n);
          return false, 0;
        }
        NoMatchHere(node, rank, top, k, mp, n);
        n := node[n].next.i;
      }
    }

    function ValueAtIndex(j: nat): TableChains.Value
      requires j < |arr| + |node|
      reads this
    {
      if j < |arr| then arr[j] else node[j - |arr|].val
    }

    /** `luaH_next`: the next element after a key, array part first. */
    method Next(k: Key) returns (r: Step, ghost at: int)
      requires Valid()
      ensures r == InvalidKey <==>
        k != NilKey && !IntKey(k, |arr|) && forall x :: 0 <= x < |node| ==> !Matches(node[x].key, k)
      ensures r.Element? ==> 0 <= at < |arr| + |node| && r.v == ValueAtIndex(at) != Nil
      ensures r.Element? ==> if at < |arr| then r.k == Int(at + 1) else node[at - |arr|].key == Live(r.k)
      ensures forall i :: StandsAt(k, i) ==> r != InvalidKey && (r.Element? ==> i < at)
      ensures forall i :: StandsAt(k, i) ==>
        forall j :: i < j < (if r.Element? then at else |arr| + |node|) ==> ValueAtIndex(j) == Nil
    {
      var found, i := FindIndex(k);
      if !found {
        return InvalidKey, -1;
      }
      KeyedValues(hash, node, rank, top);
      hide Chained;
      r, at := NextFrom(i);
    }

    /** The loops of `luaH_next`. */
    method NextFrom(i0: int) returns (r: Step, ghost at: int)
      requires -1 <= i0 < |arr| + |node|
      requires forall x :: 0 <= x < |node| && node[x].val != Nil ==> node[x].key.Live?
      ensures r.Element? || r == End
      ensures r.Element? ==> i0 < at < |arr| + |node| && r.v == ValueAtIndex(at) != Nil
      ensures r.Element? ==> if at < |arr| then r.k == Int(at + 1) else node[at - |arr|].key == Live(r.k)
      ensures forall j :: i0 < j < (if r.Element? then at else |arr| + |node|) ==> ValueAtIndex(j) == Nil
    {
      var i := i0 + 1;
      while i < |arr|
        invariant i0 < i && (i0 < |arr| ==> i <= |arr|) && (i <= |arr| || i == i0 + 1)
        invariant forall j :: i0 < j < i ==> j < |arr| && arr[j] == Nil
      {
        if arr[i] != Nil {
          return Element(Int(i + 1), arr[i]), i;
        }
        i := i + 1;
      }
      i := i - |arr|;
      while i < |node|
        invariant 0 <= i && i0 < i + |arr| <= |arr| + |node|
        invariant forall j :: i0 < j < i + |arr| ==> ValueAtIndex(j) == Nil
      {
        if node[i].val != Nil {
          return Element(node[i].key.k, node[i].val), i + |arr|;
        }
        i := i + 1;
      }
      return End, -1;
    }

    /** The key is the one of index `i`, or nil at the beginning. */
    ghost predicate StandsAt(k: Key, i: int)
      requires |rank| == |node|
      reads this
    {
      if k == NilKey then i == -1
      else if IntKey(k, |arr|) then i == k.n - 1
      else i >= |arr| && First(i - |arr|, k)
    }

    /** All values, as one map. */
    ghost function Values(): imap<Key, TableChains.Value>
      reads this
    {
      imap k: Key :: Value(k)
    }

    lemma ValuesAre()
      ensures forall q :: Of(Values(), q) == Value(q)
    {
      hide Value;
    }

    /** One of the changes allowed in a traversal: an assignment to an existing field, or the collector
      * giving up the key of a cleared one. */
    method Apply(c: Change)
      requires Valid()
      modifies this`arr, this`node
      ensures Valid() && |arr| == old(|arr|) && SameNodes(old(node), node)
      ensures forall q :: Value(q) == old(Value(q)) || c == Store(q, Value(q))
      ensures c.Store? && old(Value(c.k)) != Nil ==> Value(c.k) == c.v
    {
      hide Chained, ValueOf, Taken;
      match c
      case Store(k, v) =>
        var p := Get(k);
        if p.Found? {
          Assign(p.slot, v, k);
        }
      case Collect(i) =>
        if i < |node| && node[i].val == Nil {
          RemoveEntry(i);
        }
    }

    method ApplyAll(cs: seq<Change>)
      requires Valid()
      modifies this`arr, this`node
      ensures Valid() && |arr| == old(|arr|) && SameNodes(old(node), node)
      ensures ChangedAll(old(Values()), cs, Values())
    {
      hide Valid, Value, Values;
      ghost var m0 := Values();
      var i := 0;
      while i < |cs|
        invariant i <= |cs| && Valid() && |arr| == old(|arr|) && SameNodes(old(node), node)
        invariant ChangedAll(m0, cs[..i], Values())
      {
        ghost var was, m := node, Values();
        ValuesAre();
        Apply(cs[i]);
        ValuesAre();
        assert Changed(m, cs[i], Values());
        assert cs[..i + 1][..i] == cs[..i];
        SameNodesTrans(old(node), was, node);
        i := i + 1;
      }
      assert cs[..|cs|] == cs;
    }

    /** The place of a key with a value. */
    ghost predicate PlaceOf(q: Key, p: int)
      reads this
    {
      if IntKey(q, |arr|) then p == q.n - 1 else |arr| <= p < |arr| + |node| && node[p - |arr|].key == Live(q)
    }

    lemma HasPlace(q: Key) returns (p: nat)
      requires Valid() && Value(q) != Nil
      ensures p < |arr| + |node| && PlaceOf(q, p) && ValueAtIndex(p) == Value(q)
    {
      if IntKey(q, |arr|) {
        p := q.n - 1;
      } else {
        var x :| 0 <= x < |node| && node[x].key == Live(q);
        DistinctLive(node, rank);
        ValueAt(node, x);
        p := |arr| + x;
      }
    }

    /** The traversal stands at the element that `luaH_next` has just returned. */
    lemma StandsAtElement(k: Key, at: int)
      requires Valid() && 0 <= at < |arr| + |node|
      requires if at < |arr| then k == Int(at + 1) else node[at - |arr|].key == Live(k)
      ensures StandsAt(k, at) && PlaceOf(k, at) && forall q :: PlaceOf(q, at) ==> q == k
    {
      if at >= |arr| {
        var x := at - |arr|;
        forall y | Keyed(node, y) && y != x && Matches(node[y].key, k) ensures rank[x] < rank[y] {
          assert SameKey(node[x].key, node[y].key);
        }
      }
    }

    lemma HasValue(k: Key, at: int)
      requires Valid() && 0 <= at < |arr| + |node|
      requires if at < |arr| then k == Int(at + 1) else node[at - |arr|].key == Live(k)
      ensures Value(k) == ValueAtIndex(at)
    {
      if at >= |arr| {
        DistinctLive(node, rank);
        ValueAt(node, at - |arr|);
      }
    }

    lemma StillStands(nodes0: seq<Node>, k: Key, at: int)
      requires |rank| == |node| && SameNodes(nodes0, node)
      requires k == NilKey || IntKey(k, |arr|) || FirstOf(nodes0, rank, at - |arr|, k)
      requires if k == NilKey then at == -1 else if IntKey(k, |arr|) then at == k.n - 1 else at >= |arr|
      ensures StandsAt(k, at)
    {}

    /** All keys with a value, by calling `luaH_next` from nil until it ends, with changes in between. The `i`-th
      * state in `trace` is that before the `i`-th changes of the script, which are made when the traversal stands
      * at the key that was returned last. A key that has a value in every state is returned once, no key is
      * returned twice, and every key with the value that it has in the state in which it is returned. */
    method Traverse(script: seq<seq<Change>>)
      returns (keys: seq<Key>, vals: seq<TableChains.Value>, ghost trace: seq<imap<Key, TableChains.Value>>)
      requires Valid()
      modifies this`arr, this`node
      ensures Valid()
      ensures Follows(script, trace) && trace[0] == old(Values()) && trace[|trace| - 1] == Values()
      ensures |trace| - 1 == Min(|script|, |keys|) && Returned(script, trace, keys, vals)
      ensures forall a, b :: 0 <= a < b < |keys| ==> keys[a] != keys[b]
      ensures forall q :: AlwaysThere(trace, q) ==> q in keys
    {
      hide Chained, ValueOf, Apart, Sizes, FreePointer, GotAll, KeysAt, IsKeyAt, PlaceOf, ValueAtIndex, FirstOf,
        Valid, Value, Values, Follows, Returned, Changed, ChangedAll, Kept;
      keys, vals, trace := [], [], [Values()];
      var k, n := NilKey, 0;
      ghost var at, places, node0 := -1, [], node;
      RankSize();
      NothingYet(Kept(trace), |arr|, node);
      NoneReturned(script, trace);
      assert StandsAt(NilKey, -1);
      while true
        invariant Valid() && |rank| == |node| && |arr| == old(|arr|) && SameNodes(node0, node)
        invariant -1 <= at < |arr| + |node| && StandsAt(k, at)
        invariant KeysAt(|arr|, node0, keys, places, at) && GotAll(Kept(trace), |arr|, node0, at, keys)
        invariant Follows(script, trace) && n == |trace| - 1 == Min(|script|, |keys|)
        invariant trace[0] == old(Values()) && trace[n] == Values() && Returned(script, trace, keys, vals)
        decreases |arr| + |node0| - at
      {
        var r;
        ghost var next;
        r, next := Next(k);
        assert StandsAt(k, at);
        ValuesAre();
        KeptNow(trace);
        if !r.Element? {
          NoneLeft(Kept(trace), node0, at, keys);
          KeptAlways(trace);
          KeysDiffer(hash, node0, old(rank), old(top), |arr|, keys, places, at);
          return;
        }
        StandsAtElement(r.k, next);
        HasValue(r.k, next);
        GotOneMore(Kept(trace), node0, old(rank), old(top), at, next, keys, places, r.k);
        OneMoreReturned(script, trace, keys, vals, r.k, r.v);
        keys, vals, places, k, at := keys + [r.k], vals + [r.v], places + [next], r.k, next;
        if n < |script| {
          Disturb(script[n], node0, k, at);
          LaterState(script, trace, keys, vals, Values());
          FewerKept(trace, Values(), |arr|, node0, at, keys);
          trace := trace + [Values()];
          n := n + 1;
        }
      }
    }

    /** The changes made while the traversal stands at a key. */
    method Disturb(cs: seq<Change>, ghost node0: seq<Node>, ghost k: Key, ghost at: int)
      requires Valid() && SameNodes(node0, node) && |rank| == |node| && StandsAt(k, at)
      modifies this`arr, this`node
      ensures Valid() && |arr| == old(|arr|) && |rank| == |node| && SameNodes(node0, node) && StandsAt(k, at)
      ensures ChangedAll(old(Values()), cs, Values())
    {
      hide Valid, Values, FirstOf, ChangedAll;
      ghost var was := node;
      ApplyAll(cs);
      SameNodesTrans(node0, was, node);
      StillStands(was, k, at);
    }

    /** At the end of the table no key is missing. */
    lemma NoneLeft(kept: iset<Key>, node0: seq<Node>, at: int, keys: seq<Key>)
      requires Valid() && SameNodes(node0, node) && GotAll(kept, |arr|, node0, at, keys) && -1 <= at
      requires forall q :: q in kept ==> Value(q) != Nil
      requires forall j :: at < j < |arr| + |node| ==> ValueAtIndex(j) == Nil
      ensures forall q :: q in kept ==> q in keys
    {
      hide Chained, ValueOf;
      forall q | q in kept ensures q in keys {
        var p := HasPlace(q);
        assert p <= at && IsKeyAt(|arr|, node0, q, p);
      }
    }

    lemma GotOneMore(kept: iset<Key>, node0: seq<Node>, rank0: seq<nat>, top0: nat, at: int, next: int, keys: seq<Key>,
                     places: seq<int>, k: Key)
      requires Valid() && SameNodes(node0, node) && GotAll(kept, |arr|, node0, at, keys)
      requires -1 <= at < next < |arr| + |node|
      requires Chained(hash, node0, rank0, top0)
      requires forall q :: q in kept ==> Value(q) != Nil
      requires forall j :: at < j < next ==> ValueAtIndex(j) == Nil
      requires PlaceOf(k, next) && (forall q :: PlaceOf(q, next) ==> q == k) && KeysAt(|arr|, node0, keys, places, at)
      ensures GotAll(kept, |arr|, node0, next, keys + [k]) && KeysAt(|arr|, node0, keys + [k], places + [next], next)
    {
      hide Chained, ValueOf;
      forall q, p | q in kept && 0 <= p <= next && IsKeyAt(|arr|, node0, q, p) ensures q in keys + [k] {
        var p1 := HasPlace(q);
        OnePlace(hash, node0, rank0, top0, |arr|, q, p, p1);
      }
    }

    lemma RankSize()
      requires Valid()
      ensures |rank| == |node| && Chained(hash, node, rank, top)
    {}
  }

  /** All the keys to be found that were at places up to `at` have been. */
  ghost predicate GotAll(kept: iset<Key>, size: nat, nodes: seq<Node>, at: int, keys: seq<Key>) {
    forall q, p :: q in kept && 0 <= p <= at && IsKeyAt(size, nodes, q, p) ==> q in keys
  }

  /** The keys are at these places, in order and not behind `at`. */
  ghost predicate KeysAt(size: nat, nodes: seq<Node>, keys: seq<Key>, places: seq<int>, at: int) {
    && |places| == |keys|
    && (forall a :: 0 <= a < |keys| ==> 0 <= places[a] <= at && IsKeyAt(size, nodes, keys[a], places[a]))
    && forall a, b :: 0 <= a < b < |keys| ==> places[a] < places[b]
  }

  lemma NothingYet(kept: iset<Key>, size: nat, nodes: seq<Node>)
    ensures GotAll(kept, size, nodes, -1, []) && KeysAt(size, nodes, [], [], -1)
  {}

  lemma OnePlace(h: Hash, nodes: seq<Node>, rank: seq<nat>, top: nat, size: nat, q: Key, p: nat, p1: nat)
    requires Chained(h, nodes, rank, top) && IsKeyAt(size, nodes, q, p) && IsKeyAt(size, nodes, q, p1)
    ensures p == p1
  {
    DistinctLive(nodes, rank);
    hide Chained;
  }

  function Min(a: nat, b: nat): nat { if a <= b then a else b }

  function Of(m: imap<Key, TableChains.Value>, q: Key): TableChains.Value { if q in m then m[q] else Nil }

  /** A field that exists has the value stored in it; one that does not may stay as it is. No other changes. */
  ghost predicate Changed(m: imap<Key, TableChains.Value>, c: Change, m1: imap<Key, TableChains.Value>) {
    && (forall q :: Of(m1, q) == Of(m, q) || c == Store(q, Of(m1, q)))
    && (c.Store? && Of(m, c.k) != Nil ==> Of(m1, c.k) == c.v)
  }

  ghost predicate ChangedAll(m: imap<Key, TableChains.Value>, cs: seq<Change>, m1: imap<Key, TableChains.Value>)
    decreases |cs|, 0
  {
    if cs == [] then m1 == m else ThenChanged(m, cs[..|cs| - 1], cs[|cs| - 1], m1)
  }

  ghost predicate ThenChanged(m: imap<Key, TableChains.Value>, cs: seq<Change>, c: Change,
                              m1: imap<Key, TableChains.Value>)
    decreases |cs|, 1
  {
    exists mid :: ChangedAll(m, cs, mid) && Changed(mid, c, m1)
  }

  /** The states of a table while the changes of a script are made. */
  ghost predicate Follows(script: seq<seq<Change>>, trace: seq<imap<Key, TableChains.Value>>) {
    && 0 < |trace| <= |script| + 1
    && forall i :: 0 <= i < |trace| - 1 ==> ChangedAll(trace[i], script[i], trace[i + 1])
  }

  /** Each key was returned with the value it had. */
  ghost predicate Returned(script: seq<seq<Change>>, trace: seq<imap<Key, TableChains.Value>>, keys: seq<Key>,
                           vals: seq<TableChains.Value>) {
    && |vals| == |keys| && Min(|script|, |keys|) <= |trace|
    && forall i :: 0 <= i < |keys| && Min(i, |script|) < |trace| ==>
      Of(trace[Min(i, |script|)], keys[i]) == vals[i] != Nil
  }

  /** Keys with a value in all states so far. */
  ghost function Kept(trace: seq<imap<Key, TableChains.Value>>): iset<Key> {
    iset q: Key | AlwaysThere(trace, q)
  }

  ghost predicate AlwaysThere(trace: seq<imap<Key, TableChains.Value>>, q: Key) {
    forall i :: 0 <= i < |trace| ==> Of(trace[i], q) != Nil
  }

  lemma KeptNow(trace: seq<imap<Key, TableChains.Value>>)
    requires trace != []
    ensures forall q :: q in Kept(trace) ==> Of(trace[|trace| - 1], q) != Nil
  {}

  lemma KeptAlways(trace: seq<imap<Key, TableChains.Value>>)
    ensures forall q :: AlwaysThere(trace, q) ==> q in Kept(trace)
  {}

  lemma FewerKept(trace: seq<imap<Key, TableChains.Value>>, m: imap<Key, TableChains.Value>, size: nat,
                  nodes: seq<Node>, at: int, keys: seq<Key>)
    requires GotAll(Kept(trace), size, nodes, at, keys)
    ensures GotAll(Kept(trace + [m]), size, nodes, at, keys)
  {
    forall q | q in Kept(trace + [m]) ensures q in Kept(trace) {
      assert AlwaysThere(trace + [m], q);
      assert forall i :: 0 <= i < |trace| ==> (trace + [m])[i] == trace[i];
    }
    hide Kept;
  }

  lemma NoneReturned(script: seq<seq<Change>>, trace: seq<imap<Key, TableChains.Value>>)
    requires |trace| == 1
    ensures Follows(script, trace) && Returned(script, trace, [], [])
  {}

  lemma OneMoreReturned(script: seq<seq<Change>>, trace: seq<imap<Key, TableChains.Value>>, keys: seq<Key>,
                        vals: seq<TableChains.Value>, k: Key, v: TableChains.Value)
    requires Returned(script, trace, keys, vals) && |trace| - 1 == Min(|script|, |keys|)
    requires Of(trace[|trace| - 1], k) == v != Nil
    ensures Returned(script, trace, keys + [k], vals + [v])
  {
    hide Of;
  }

  lemma LaterState(script: seq<seq<Change>>, trace: seq<imap<Key, TableChains.Value>>, keys: seq<Key>,
                   vals: seq<TableChains.Value>, m: imap<Key, TableChains.Value>)
    requires Follows(script, trace) && |trace| <= |script| && ChangedAll(trace[|trace| - 1], script[|trace| - 1], m)
    requires Returned(script, trace, keys, vals) && |trace| == |keys|
    ensures Follows(script, trace + [m]) && Returned(script, trace + [m], keys, vals)
  {
    hide Of, ChangedAll;
  }

  // What these states mean for a key: it keeps its value unless it is cleared, and has one only if it had or was
  // given one.

  ghost predicate Gives(cs: seq<Change>, q: Key) { exists v :: v != Nil && Store(q, v) in cs }

  lemma {:induction false} ChangedAllMeans(m: imap<Key, TableChains.Value>, cs: seq<Change>,
                                           m1: imap<Key, TableChains.Value>, q: Key)
    requires ChangedAll(m, cs, m1)
    ensures Of(m, q) != Nil && Store(q, Nil) !in cs ==> Of(m1, q) != Nil
    ensures Of(m1, q) != Nil ==> Of(m, q) != Nil || Gives(cs, q)
    decreases |cs|
  {
    if cs != [] {
      var n := |cs| - 1;
      var mid :| ChangedAll(m, cs[..n], mid) && Changed(mid, cs[n], m1);
      ChangedAllMeans(m, cs[..n], mid, q);
      assert cs[n] in cs;
    }
  }

  /** A field is returned whatever it holds meanwhile, if it had a value and no change takes it away; and only
    * fields are returned that had a value or were given one. */
  lemma {:induction false} TraversalIsFair(script: seq<seq<Change>>, trace: seq<imap<Key, TableChains.Value>>, n: nat,
                                           q: Key)
    requires Follows(script, trace) && n < |trace|
    ensures Of(trace[0], q) != Nil && (forall i :: 0 <= i < n ==> Store(q, Nil) !in script[i]) ==>
      Of(trace[n], q) != Nil
    ensures Of(trace[n], q) != Nil ==> Of(trace[0], q) != Nil || exists i :: 0 <= i < n && Gives(script[i], q)
  {
    if n > 0 {
      TraversalIsFair(script, trace, n - 1, q);
      ChangedAllMeans(trace[n - 1], script[n - 1], trace[n], q);
    }
  }

  ghost predicate IsKeyAt(size: nat, nodes: seq<Node>, k: Key, p: int) {
    if p < size then k == Int(p + 1) else p < size + |nodes| && nodes[p - size].key == Live(k) && !IntKey(k, size)
  }

  lemma KeysDiffer(h: Hash, nodes: seq<Node>, rank: seq<nat>, top: nat, size: nat, keys: seq<Key>, places: seq<int>,
                   at: int)
    requires Chained(h, nodes, rank, top) && KeysAt(size, nodes, keys, places, at)
    ensures forall a, b :: 0 <= a < b < |keys| ==> keys[a] != keys[b]
  {
    DistinctLive(nodes, rank);
    hide Chained;
    forall a, b | 0 <= a < b < |keys| ensures keys[a] != keys[b] {
      assert IsKeyAt(size, nodes, keys[a], places[a]) && IsKeyAt(size, nodes, keys[b], places[b]);
    }
  }

  /** The changes that may be made while a table is traversed. */
  datatype Change = Store(k: Key, v: TableChains.Value) | Collect(i: nat)

  /** The same keys at the same nodes; some may have been given up. */
  ghost predicate SameNodes(nodes: seq<Node>, nodes1: seq<Node>) {
    |nodes1| == |nodes| && forall x :: 0 <= x < |nodes| ==>
      || nodes1[x].key == nodes[x].key
      || (nodes[x].key.Live? && Collectable(nodes[x].key.k) && nodes1[x].key == Dead(nodes[x].key.k))
  }

  lemma SameNodesTrans(nodes: seq<Node>, nodes1: seq<Node>, nodes2: seq<Node>)
    requires SameNodes(nodes, nodes1) && SameNodes(nodes1, nodes2)
    ensures SameNodes(nodes, nodes2)
  {}

  /** The node that stands for a key in a traversal: the first on the chain that has it. */
  ghost predicate FirstOf(nodes: seq<Node>, rank: seq<nat>, x: int, k: Key)
    requires |rank| == |nodes|
  {
    && Keyed(nodes, x) && Matches(nodes[x].key, k)
    && forall y :: Keyed(nodes, y) && y != x && Matches(nodes[y].key, k) ==> rank[x] < rank[y]
  }

  datatype Step = InvalidKey | End | Element(k: Key, v: TableChains.Value)

  predicate Matches(c: Cell, k: Key) { c == Live(k) || (c == Dead(k) && Collectable(k)) }

  lemma ChainsOf(h: Hash, nodes: seq<Node>, rank: seq<nat>, top: nat)
    requires Chained(h, nodes, rank, top)
    ensures Ranked(nodes, rank, top) && |rank| == |nodes| && Homed(h, nodes, rank)
  {}

  lemma FollowLink(nodes: seq<Node>, rank: seq<nat>, top: nat, n: nat)
    requires Ranked(nodes, rank, top) && n < |nodes|
    ensures nodes[n].key == Free ==> nodes[n].next == Null
    ensures Keyed(nodes, n) ==> rank[n] < top
    ensures nodes[n].next != Null ==> Keyed(nodes, nodes[n].next.i) && rank[nodes[n].next.i] == rank[n] + 1
  {
    assert LinkOk(nodes, rank, n);
  }

  /** The key is on the chain of its main position, and not before node `n`. */
  ghost predicate SoFar(nodes: seq<Node>, rank: seq<nat>, k: Key, mp: nat, n: nat)
    requires |rank| == |nodes| && mp < |nodes| && n < |nodes|
  {
    && (forall j :: Keyed(nodes, j) && Matches(nodes[j].key, k) ==> Keyed(nodes, mp) && Leads(nodes, rank, mp, j))
    && (n == mp || (Keyed(nodes, mp) && Keyed(nodes, n))) && rank[mp] <= rank[n]
    && forall x :: Keyed(nodes, x) && rank[mp] <= rank[x] < rank[n] ==> !Matches(nodes[x].key, k)
  }

  lemma AtMainPosition(h: Hash, nodes: seq<Node>, rank: seq<nat>, k: Key)
    requires |nodes| > 0 && |rank| == |nodes| && Homed(h, nodes, rank)
    ensures var mp := MainPosition(h, |nodes|, k); SoFar(nodes, rank, k, mp, mp)
  {
    HomeOfMatch(h, nodes, rank, k);
  }

  lemma FirstMatch(nodes: seq<Node>, rank: seq<nat>, top: nat, k: Key, mp: nat, n: nat)
    requires Ranked(nodes, rank, top) && mp < |nodes| && n < |nodes| && SoFar(nodes, rank, k, mp, n)
    requires Matches(nodes[n].key, k)
    ensures FirstOf(nodes, rank, n, k) && forall x :: FirstOf(nodes, rank, x, k) ==> x == n
  {}

  lemma NoMatch(nodes: seq<Node>, rank: seq<nat>, top: nat, k: Key, mp: nat, n: nat)
    requires Ranked(nodes, rank, top) && mp < |nodes| && n < |nodes| && SoFar(nodes, rank, k, mp, n)
    requires !Matches(nodes[n].key, k) && nodes[n].next == Null
    ensures forall x :: 0 <= x < |nodes| ==> !Matches(nodes[x].key, k)
    ensures forall x :: !FirstOf(nodes, rank, x, k)
  {}

  lemma NoMatchHere(nodes: seq<Node>, rank: seq<nat>, top: nat, k: Key, mp: nat, n: nat)
    requires Ranked(nodes, rank, top) && mp < |nodes| && n < |nodes| && SoFar(nodes, rank, k, mp, n)
    requires !Matches(nodes[n].key, k) && nodes[n].next != Null
    ensures Keyed(nodes, nodes[n].next.i) && SoFar(nodes, rank, k, mp, nodes[n].next.i)
  {
    FollowLink(nodes, rank, top, n);
  }

  lemma HomeOfMatch(h: Hash, nodes: seq<Node>, rank: seq<nat>, k: Key)
    requires |nodes| > 0 && |rank| == |nodes| && Homed(h, nodes, rank)
    ensures forall j :: Keyed(nodes, j) && Matches(nodes[j].key, k) ==>
      Keyed(nodes, MainPosition(h, |nodes|, k)) && Leads(nodes, rank, MainPosition(h, |nodes|, k), j)
  {
    forall j | Keyed(nodes, j) && Matches(nodes[j].key, k)
      ensures Keyed(nodes, MainPosition(h, |nodes|, k)) && Leads(nodes, rank, MainPosition(h, |nodes|, k), j)
    {
      assert HomeOk(h, nodes, rank, j);
    }
  }

  lemma KeyedValues(h: Hash, nodes: seq<Node>, rank: seq<nat>, top: nat)
    requires Chained(h, nodes, rank, top)
    ensures forall i :: 0 <= i < |nodes| && nodes[i].val != Nil ==> nodes[i].key.Live?
  {}

  lemma DeadNode(h: Hash, nodes: seq<Node>, rank: seq<nat>, top: nat, i: nat)
    requires Chained(h, nodes, rank, top) && i < |nodes| && nodes[i].key.Live? && nodes[i].val == Nil
    ensures var nodes1 := nodes[i := nodes[i].(key := Dead(nodes[i].key.k))];
      Chained(h, nodes1, rank, top) && SameValues(nodes, nodes1)
  {
    var nodes1 := nodes[i := nodes[i].(key := Dead(nodes[i].key.k))];
    DistinctLive(nodes, rank);
    SameChains(h, nodes, nodes1, rank, top, i);
    DeadDistinct(nodes, rank, i);
    hide Ranked, Homed;
    DistinctLive(nodes1, rank);
    DeadValues(nodes, i);
  }

  lemma DeadDistinct(nodes: seq<Node>, rank: seq<nat>, i: nat)
    requires |rank| == |nodes| && Distinct(nodes, rank) && i < |nodes| && nodes[i].key.Live? && nodes[i].val == Nil
    ensures Distinct(nodes[i := nodes[i].(key := Dead(nodes[i].key.k))], rank)
  {
    var nodes1 := nodes[i := nodes[i].(key := Dead(nodes[i].key.k))];
    forall a, b | 0 <= a < |nodes| && 0 <= b < |nodes| && a != b && SameKey(nodes1[a].key, nodes1[b].key)
      ensures rank[a] < rank[b] && nodes1[b].key.Dead?
    {
      assert SameKey(nodes[a].key, nodes[b].key);
    }
  }

  lemma DeadValues(nodes: seq<Node>, i: nat)
    requires LiveOnce(nodes) && i < |nodes| && nodes[i].key.Live? && nodes[i].val == Nil
    requires LiveOnce(nodes[i := nodes[i].(key := Dead(nodes[i].key.k))])
    ensures SameValues(nodes, nodes[i := nodes[i].(key := Dead(nodes[i].key.k))])
  {
    var nodes1 := nodes[i := nodes[i].(key := Dead(nodes[i].key.k))];
    forall x | 0 <= x < |nodes| && nodes[x].key.Live? && nodes[x].val != Nil
      ensures Has(nodes1, nodes[x].key.k, nodes[x].val)
    {
      assert nodes1[x] == nodes[x];
    }
    forall x | 0 <= x < |nodes1| && nodes1[x].key.Live? && nodes1[x].val != Nil
      ensures Has(nodes, nodes1[x].key.k, nodes1[x].val)
    {
      assert nodes1[x] == nodes[x];
    }
    SameEntries(nodes, nodes1);
  }

  /** Keys with a value. */
  function Entries(arr: seq<TableChains.Value>, nodes: seq<Node>): nat { ArrayCount(arr, |arr|) + HashTotal(nodes, 0) }

  /** The largest power of two, up to the maximum, such that more than half of the places of an array part
    * of that size would be in use, with one more key counted. */
  ghost predicate BestSize(arr: seq<TableChains.Value>, nodes: seq<Node>, extra: Key, n: nat) {
    && (n == 0 || exists b :: 0 <= b <= MAXBITS && n == Pow2(b) && 2 * Candidates(arr, nodes, extra, n) > n)
    && forall j :: 0 <= j <= MAXBITS && Pow2(j) > n ==> 2 * Candidates(arr, nodes, extra, Pow2(j)) <= Pow2(j)
  }

  /** Keys that need a place in the hash part, with one more key, when the array part has `n` places. */
  function Needed(arr: seq<TableChains.Value>, nodes: seq<Node>, ek: Key, n: nat): nat {
    Leaving(arr, n) + HashOut(nodes, n, 0) + 1 - One(IntKey(ek, n))
  }

  /** The counts of a rehash are the numbers of candidates. */
  lemma CountedAll(arr: seq<TableChains.Value>, nodes: seq<Node>, ek: Key, nums: seq<nat>, nasize: nat)
    requires UsedOnce(nodes) && !IntKey(ek, |arr|) && |nums| == MAXBITS + 1
    requires forall i :: 0 <= i < |nodes| && InUse(nodes, i) ==> !IntKey(nodes[i].key.k, |arr|) && nodes[i].key.k != ek
    requires nasize == ArrayCount(arr, Counted(|arr|)) + HashCount(nodes, MAXASIZE, 0) + One(IntKey(ek, MAXASIZE))
    requires forall i :: 0 <= i <= MAXBITS ==>
      Sum(nums, i) == ArrayCount(arr, Pow2(i)) + HashCount(nodes, Pow2(i), 0) + One(IntKey(ek, Pow2(i)))
    ensures nasize == Sum(nums, MAXBITS)
    ensures forall i :: 0 <= i <= MAXBITS ==> Sum(nums, i) == Candidates(arr, nodes, ek, Pow2(i)) <= Pow2(i)
  {
    hide Sum, ArrayCount, HashCount, Pow2;
    Pow2Max();
    if |arr| <= MAXASIZE {
      ArrayCountMore(arr, |arr|, MAXASIZE);
    }
    forall i | 0 <= i <= MAXBITS ensures Sum(nums, i) == Candidates(arr, nodes, ek, Pow2(i)) <= Pow2(i) {
      CandidatesDistinct(arr, nodes, ek, Pow2(i));
    }
  }

  /** The new sizes are enough for all keys. */
  lemma ComputedSizes(arr: seq<TableChains.Value>, nodes: seq<Node>, ek: Key, nums: seq<nat>, n: nat, na: nat)
    requires |nums| == MAXBITS + 1 && Best(nums, n, na, MAXBITS + 1)
    requires forall i :: 0 <= i <= MAXBITS ==> Sum(nums, i) == Candidates(arr, nodes, ek, Pow2(i))
    ensures n <= MAXASIZE && BestSize(arr, nodes, ek, n)
    ensures Entries(arr, nodes) + 1 - na == Needed(arr, nodes, ek, n)
  {
    BestIs(arr, nodes, ek, nums, n, na);
    hide Best, Sum, Pow2, BestSize;
    HashSplit(nodes, n, 0);
    if n < |arr| {
      LeavingCount(arr, n, |arr|);
    } else {
      ArrayCountMore(arr, |arr|, n);
    }
  }

  lemma BestIs(arr: seq<TableChains.Value>, nodes: seq<Node>, ek: Key, nums: seq<nat>, n: nat, na: nat)
    requires |nums| == MAXBITS + 1 && Best(nums, n, na, MAXBITS + 1)
    requires forall i :: 0 <= i <= MAXBITS ==> Sum(nums, i) == Candidates(arr, nodes, ek, Pow2(i))
    ensures n <= MAXASIZE && na == Candidates(arr, nodes, ek, n) && BestSize(arr, nodes, ek, n)
  {
    hide Sum, Pow2, Candidates;
    Pow2Max();
    if n == 0 {
      NoCandidates(arr, nodes, ek);
      BestZero(nums, na);
    } else {
      var b :| 0 <= b <= MAXBITS && n == Pow2(b) && na == Sum(nums, b) && 2 * na > n && forall j :: b < j < MAXBITS + 1 ==> 2 * Sum(nums, j) <= Pow2(j);
      Pow2Monotone(b, MAXBITS);
      forall j | 0 <= j <= MAXBITS && Pow2(j) > n ensures 2 * Candidates(arr, nodes, ek, Pow2(j)) <= Pow2(j) {
        if j <= b { Pow2Monotone(j, b); }
      }
    }
  }

  lemma BestZero(nums: seq<nat>, na: nat)
    requires Best(nums, 0, na, |nums|)
    ensures na == 0 && forall j :: 0 <= j < |nums| ==> 2 * Sum(nums, j) <= Pow2(j)
  {
    hide Sum, Pow2;
  }

  lemma NoCandidates(arr: seq<TableChains.Value>, nodes: seq<Node>, ek: Key)
    ensures Candidates(arr, nodes, ek, 0) == 0
  {
    NoCount(nodes, 0);
  }

  lemma {:induction false} NoCount(nodes: seq<Node>, i: nat)
    ensures HashCount(nodes, 0, i) == 0
    decreases |nodes| - i
  {
    if i < |nodes| { NoCount(nodes, i + 1); }
  }

  lemma {:induction false} LeavingCount(arr: seq<TableChains.Value>, n: nat, i: nat)
    requires n <= i <= |arr|
    ensures ArrayOut(arr, n, i) == ArrayCount(arr, i) - ArrayCount(arr, n)
  {
    if n < i { LeavingCount(arr, n, i - 1); }
  }

  lemma TooMany(x: nat)
    requires x > 0 && CeilLog2(x) > MAXBITS
    ensures x > MAXASIZE
  {
    Pow2Max();
    CeilLog2Le(x, MAXBITS);
  }

  /** Elements of the array part that a smaller one has no place for. */
  function Leaving(arr: seq<TableChains.Value>, n: nat): nat {
    if n < |arr| then ArrayOut(arr, n, |arr|) else 0
  }

  lemma PreviousIsOther(h: Hash, nodes: seq<Node>, rank: seq<nat>, top: nat, prev: nat, mp: nat, n: nat)
    requires Chained(h, nodes, rank, top) && prev < |nodes| && nodes[prev].next == To(mp) && n < |nodes|
    requires nodes[n].key == Free
    ensures n != prev && prev != mp && |rank| == |nodes|
  {
    assert LinkOk(nodes, rank, prev);
  }

  lemma LeavingIs(arr: seq<TableChains.Value>, n: nat)
    ensures Leaving(arr, n) == if n < |arr| then ArrayOut(arr, n, |arr|) else 0
  {}

  function ArrayOut(arr: seq<TableChains.Value>, n: nat, i: nat): nat
    requires i <= |arr|
  {
    if i <= n then 0 else ArrayOut(arr, n, i - 1) + One(arr[i - 1] != Nil)
  }

  lemma {:induction false} ArrayOutLe(arr: seq<TableChains.Value>, n: nat, i: nat, j: nat)
    requires i <= j <= |arr|
    ensures ArrayOut(arr, n, i) <= ArrayOut(arr, n, j)
  {
    if i < j { ArrayOutLe(arr, n, i, j - 1); }
  }

  lemma {:induction false} TakenSame(nodes: seq<Node>, nodes1: seq<Node>, n: nat)
    requires n <= |nodes| == |nodes1| && forall i :: 0 <= i < n ==> nodes1[i].key == nodes[i].key
    ensures Taken(nodes1, n) == Taken(nodes, n)
  {
    if n > 0 { TakenSame(nodes, nodes1, n - 1); }
  }

  lemma NoNodes(h: Hash, nodes: seq<Node>, rank: seq<nat>)
    requires |rank| == |nodes| && forall i :: 0 <= i < |nodes| ==> nodes[i] == Node(Free, Nil, Null)
    ensures Chained(h, nodes, rank, 0) && Taken(nodes, |nodes|) == 0 && forall q :: ValueOf(nodes, q) == Nil
  {
    NoneTaken(nodes, |nodes|);
  }

  lemma {:induction false} NoneTaken(nodes: seq<Node>, n: nat)
    requires n <= |nodes| && forall i :: 0 <= i < n ==> nodes[i].key == Free
    ensures Taken(nodes, n) == 0
  {
    if n > 0 { NoneTaken(nodes, n - 1); }
  }

  /** Changes of values, or of keys that are given up, leave the chains as they are. */
  lemma SameChains(h: Hash, nodes: seq<Node>, nodes1: seq<Node>, rank: seq<nat>, top: nat, i: nat)
    requires Ranked(nodes, rank, top) && Homed(h, nodes, rank) && Keyed(nodes, i) && Keyed(nodes1, i)
    requires nodes1 == nodes[i := nodes1[i]] && nodes1[i].next == nodes[i].next && nodes1[i].key.k == nodes[i].key.k
    ensures Ranked(nodes1, rank, top) && Homed(h, nodes1, rank)
  {
    forall x | 0 <= x < |nodes| ensures LinkOk(nodes1, rank, x) { assert LinkOk(nodes, rank, x); }
    forall j | Keyed(nodes1, j) ensures HomeOk(h, nodes1, rank, j) { assert HomeOk(h, nodes, rank, j); }
  }

  lemma AssignNode(h: Hash, nodes: seq<Node>, rank: seq<nat>, top: nat, i: nat, v: TableChains.Value)
    requires Chained(h, nodes, rank, top) && i < |nodes| && nodes[i].key.Live?
    ensures Chained(h, nodes[i := nodes[i].(val := v)], rank, top)
  {
    SameChains(h, nodes, nodes[i := nodes[i].(val := v)], rank, top, i);
    hide Ranked, Homed;
  }

  lemma AssignValues(h: Hash, nodes: seq<Node>, rank: seq<nat>, top: nat, i: nat, v: TableChains.Value)
    requires Chained(h, nodes, rank, top) && i < |nodes| && nodes[i].key.Live?
    ensures var nodes1 := nodes[i := nodes[i].(val := v)];
      ValueOf(nodes1, nodes[i].key.k) == v && forall q :: q != nodes[i].key.k ==>
        ValueOf(nodes1, q) == ValueOf(nodes, q)
  {
    var nodes1 := nodes[i := nodes[i].(val := v)];
    DistinctLive(nodes, rank);
    assert forall j :: 0 <= j < |nodes| ==> nodes1[j].key == nodes[j].key;
    assert LiveOnce(nodes1);
    hide Ranked, Homed, Distinct, LiveOnce;
    ValueAt(nodes1, i);
    forall q | q != nodes[i].key.k ensures ValueOf(nodes1, q) == ValueOf(nodes, q) {
      if Present(nodes, q) {
        var j :| 0 <= j < |nodes| && nodes[j].key == Live(q);
        ValueAt(nodes, j);
        ValueAt(nodes1, j);
      } else {
        assert !Present(nodes1, q);
      }
    }
  }

  /** The values of a table are those of its nodes in use. */
  lemma OldEntries(h: Hash, nodes: seq<Node>, rank: seq<nat>, top: nat)
    requires Chained(h, nodes, rank, top)
    ensures UsedOnce(nodes)
    ensures forall j :: InUse(nodes, j) ==> nodes[j].key.Live? && ValueOf(nodes, nodes[j].key.k) == nodes[j].val
    ensures forall j :: InUse(nodes, j) ==> nodes[j].key.k != NilKey && nodes[j].key.k != NaN
    ensures forall j :: 0 <= j < |nodes| && nodes[j].val != Nil ==> nodes[j].key != Free
    ensures forall q :: ValueOf(nodes, q) != Nil ==> exists j :: InUse(nodes, j) && nodes[j].key.k == q
  {
    DistinctLive(nodes, rank);
    forall j | InUse(nodes, j)
      ensures nodes[j].key.Live? && ValueOf(nodes, nodes[j].key.k) == nodes[j].val
    {
      ValueAt(nodes, j);
    }
    forall q | ValueOf(nodes, q) != Nil ensures exists j :: InUse(nodes, j) && nodes[j].key.k == q {
      var j :| 0 <= j < |nodes| && nodes[j].key == Live(q);
      ValueAt(nodes, j);
      assert InUse(nodes, j);
    }
  }

  lemma KeyedWithValue(h: Hash, nodes: seq<Node>, rank: seq<nat>, top: nat, i: nat)
    requires Chained(h, nodes, rank, top) && i < |nodes| && nodes[i].val != Nil
    ensures nodes[i].key.Live?
  {}

  lemma NoOddKeys(h: Hash, nodes: seq<Node>, rank: seq<nat>, top: nat)
    requires Chained(h, nodes, rank, top)
    ensures !Present(nodes, NilKey) && !Present(nodes, NaN)
  {}

  lemma MovedKeys(nodes: seq<Node>, k: Key, prev: nat, mp: nat, n: nat)
    requires prev < |nodes| && mp < |nodes| && n < |nodes| && prev != mp && prev != n && n != mp
    ensures |Moved(nodes, k, prev, mp, n)| == |nodes|
    ensures forall i :: 0 <= i < |nodes| ==>
      Moved(nodes, k, prev, mp, n)[i].key == if i == mp then Live(k) else if i == n then nodes[mp].key else nodes[i].key
  {}

  /** A key in the hash part is on the chain from its main position. */
  lemma HomeOfKey(h: Hash, nodes: seq<Node>, rank: seq<nat>, k: Key)
    requires |nodes| > 0 && |rank| == |nodes| && Homed(h, nodes, rank)
    ensures forall j :: Keyed(nodes, j) && nodes[j].key == Live(k) ==>
      Keyed(nodes, MainPosition(h, |nodes|, k)) && Leads(nodes, rank, MainPosition(h, |nodes|, k), j)
  {
    forall j | Keyed(nodes, j) && nodes[j].key == Live(k)
      ensures Keyed(nodes, MainPosition(h, |nodes|, k)) && Leads(nodes, rank, MainPosition(h, |nodes|, k), j)
    {
      assert HomeOk(h, nodes, rank, j);
    }
  }
}
