/** How many keys a table has, and how large the parts of a grown table are. */
module TableSizes {
  import opened TableChains

  const MAXBITS: nat := 26

  function Pow2(n: nat): (p: nat)
    ensures p >= 1
  {
    if n == 0 then 1 else 2 * Pow2(n - 1)
  }

  const MAXASIZE: nat := 0x400_0000

  /** `ceillog2`: the least power of two that is not below `x`. */
  function CeilLog2(x: nat): (c: nat)
    requires x >= 1
    ensures x <= Pow2(c) && (c > 0 ==> Pow2(c - 1) < x)
  {
    LogFrom(x, 0)
  }

  function LogFrom(x: nat, c: nat): (r: nat)
    requires x >= 1 && (c > 0 ==> Pow2(c - 1) < x)
    ensures x <= Pow2(r) && (r > 0 ==> Pow2(r - 1) < x)
    decreases if Pow2(c) < x then x - Pow2(c) else 0
  {
    if x <= Pow2(c) then c else LogFrom(x, c + 1)
  }

  lemma {:induction false} Pow2Monotone(i: nat, j: nat)
    requires i <= j
    ensures Pow2(i) <= Pow2(j)
  {
    if i < j { Pow2Monotone(i, j - 1); }
  }

  lemma Pow2Max()
    ensures Pow2(MAXBITS) == MAXASIZE
  {
    assert Pow2(8) == 256;
    assert Pow2(16) == 65536 by { assert Pow2(12) == 4096; }
    assert Pow2(20) == 1048576;
    assert Pow2(24) == 16777216;
  }

  lemma CeilLog2Le(x: nat, i: nat)
    requires x >= 1
    ensures CeilLog2(x) <= i <==> x <= Pow2(i)
  {
    var c := CeilLog2(x);
    if c <= i { Pow2Monotone(c, i); } else { Pow2Monotone(i, c - 1); }
  }

  // ----- counting ----------------------------------------------------------------------------------

  /** Candidates for an array part of `n` elements. */
  predicate IntKey(k: Key, n: nat) { k.Int? && 0 < k.n <= n }

  function One(b: bool): nat { if b then 1 else 0 }

  /** Elements in the first `n` places of the array part. */
  function ArrayCount(arr: seq<Value>, n: nat): nat {
    if n == 0 then 0 else ArrayCount(arr, n - 1) + One(n <= |arr| && arr[n - 1] != Nil)
  }

  predicate InUse(nodes: seq<Node>, i: int) { 0 <= i < |nodes| && nodes[i].val != Nil && nodes[i].key != Free }

  /** Entries of the nodes from `i` on. */
  function HashTotal(nodes: seq<Node>, i: nat): nat
    decreases |nodes| - i
  {
    if i >= |nodes| then 0 else One(InUse(nodes, i)) + HashTotal(nodes, i + 1)
  }

  /** Those that are candidates for an array part of `n` elements. */
  function HashCount(nodes: seq<Node>, n: nat, i: nat): nat
    decreases |nodes| - i
  {
    if i >= |nodes| then 0 else One(InUse(nodes, i) && IntKey(nodes[i].key.k, n)) + HashCount(nodes, n, i + 1)
  }

  /** Those that are not. */
  function HashOut(nodes: seq<Node>, n: nat, i: nat): nat
    decreases |nodes| - i
  {
    if i >= |nodes| then 0 else One(InUse(nodes, i) && !IntKey(nodes[i].key.k, n)) + HashOut(nodes, n, i + 1)
  }

  lemma {:induction false} HashSplit(nodes: seq<Node>, n: nat, i: nat)
    ensures HashTotal(nodes, i) == HashCount(nodes, n, i) + HashOut(nodes, n, i)
    decreases |nodes| - i
  {
    if i < |nodes| { HashSplit(nodes, n, i + 1); }
  }

  lemma {:induction false} HashOutLe(nodes: seq<Node>, n: nat, i: nat, j: nat)
    requires i <= j
    ensures HashOut(nodes, n, j) <= HashOut(nodes, n, i)
    decreases j - i
  {
    if i < j { HashOutLe(nodes, n, i + 1, j); }
  }

  /** Candidates among all keys and one more. */
  function Candidates(arr: seq<Value>, nodes: seq<Node>, extra: Key, n: nat): nat {
    ArrayCount(arr, n) + HashCount(nodes, n, 0) + One(IntKey(extra, n))
  }

  lemma {:induction false} ArrayCountMore(arr: seq<Value>, m: nat, n: nat)
    requires m <= n
    ensures ArrayCount(arr, m) <= ArrayCount(arr, n) <= ArrayCount(arr, m) + (n - m)
    ensures m >= |arr| ==> ArrayCount(arr, n) == ArrayCount(arr, m)
  {
    if m < n { ArrayCountMore(arr, m, n - 1); }
  }

  // ----- distinct integer keys ---------------------------------------------------------------------

  function ArrayKeys(arr: seq<Value>, n: nat): (s: set<int>)
    ensures forall x :: x in s ==> 0 < x <= n && x <= |arr|
    ensures |s| == ArrayCount(arr, n)
  {
    if n == 0 then {} else ArrayKeys(arr, n - 1) + if n <= |arr| && arr[n - 1] != Nil then {n} else {}
  }

  /** No two nodes have the same key with a value. */
  ghost predicate UsedOnce(nodes: seq<Node>) {
    forall i, j :: 0 <= i < |nodes| && 0 <= j < |nodes| && InUse(nodes, i) && InUse(nodes, j) && nodes[i].key.k == nodes[j].key.k ==> i == j
  }

  function HashKeys(nodes: seq<Node>, n: nat, i: nat): (s: set<int>)
    ensures forall x :: x in s ==>
      0 < x <= n && exists j :: i <= j < |nodes| && InUse(nodes, j) && nodes[j].key.k == Int(x)
    decreases |nodes| - i
  {
    if i >= |nodes| then {} else
      var rest := HashKeys(nodes, n, i + 1);
      if InUse(nodes, i) && IntKey(nodes[i].key.k, n) then rest + {nodes[i].key.k.n} else rest
  }

  lemma {:induction false} HashKeysCount(nodes: seq<Node>, n: nat, i: nat)
    requires UsedOnce(nodes)
    ensures |HashKeys(nodes, n, i)| == HashCount(nodes, n, i)
    decreases |nodes| - i
  {
    if i < |nodes| {
      HashKeysCount(nodes, n, i + 1);
      if InUse(nodes, i) && IntKey(nodes[i].key.k, n) {
        assert nodes[i].key.k.n !in HashKeys(nodes, n, i + 1);
      }
    }
  }

  lemma {:induction false} UpTo(s: set<int>, n: nat)
    requires forall x :: x in s ==> 0 < x <= n
    ensures |s| <= n
  {
    if n == 0 {
      assert forall x :: x !in s;
      assert s == {};
    } else {
      UpTo(s - {n}, n - 1);
    }
  }

  /** Candidates are distinct numbers, so there are no more than `n`. */
  lemma CandidatesDistinct(arr: seq<Value>, nodes: seq<Node>, extra: Key, n: nat)
    requires UsedOnce(nodes)
    requires forall i :: 0 <= i < |nodes| && InUse(nodes, i) ==>
      !IntKey(nodes[i].key.k, |arr|) && nodes[i].key.k != extra
    requires !IntKey(extra, |arr|)
    ensures Candidates(arr, nodes, extra, n) <= n
  {
    var a, b := ArrayKeys(arr, n), HashKeys(nodes, n, 0);
    var c := if IntKey(extra, n) then {extra.n} else {};
    HashKeysCount(nodes, n, 0);
    assert a !! b;
    assert (a + b) !! c;
    assert |a + b + c| == |a| + |b| + |c|;
    UpTo(a + b + c, n);
  }

  // ----- the counts by slices ----------------------------------------------------------------------

  /** Keys counted in the slices up to `i`. */
  function Sum(nums: seq<nat>, i: nat): nat
    requires i < |nums|
  {
    nums[i] + if i == 0 then 0 else Sum(nums, i - 1)
  }

  lemma {:induction false} SumUpdate(nums: seq<nat>, j: nat, d: nat, i: nat)
    requires j < |nums| && i < |nums|
    ensures Sum(nums[j := nums[j] + d], i) == Sum(nums, i) + if j <= i then d else 0
  {
    if i > 0 { SumUpdate(nums, j, d, i - 1); }
  }

  /** `n` is the largest of the sizes before `2^i`, a power of two, with more than half of its places in
    * use, or 0 if there is none; `na` counts the places in use. */
  ghost predicate Best(nums: seq<nat>, n: nat, na: nat, i: nat)
    requires i <= |nums|
  {
    || (n == 0 && na == 0 && forall j :: 0 <= j < i ==> 2 * Sum(nums, j) <= Pow2(j))
    || exists b :: 0 <= b < i && n == Pow2(b) && na == Sum(nums, b) && 2 * na > n && forall j :: b < j < i ==> 2 * Sum(nums, j) <= Pow2(j)
  }

  lemma BestStep(nums: seq<nat>, n: nat, na: nat, i: nat)
    requires i < |nums| && Best(nums, n, na, i)
    ensures if 2 * Sum(nums, i) > Pow2(i) then Best(nums, Pow2(i), Sum(nums, i), i + 1) else Best(nums, n, na, i + 1)
  {
    hide Sum, Pow2;
  }

  /** No larger size is half full once all keys have been counted. */
  lemma {:induction false} BestStop(nums: seq<nat>, n: nat, na: nat, i: nat, end: nat)
    requires 0 < i <= end <= |nums| && Best(nums, n, na, i) && Sum(nums, |nums| - 1) <= Pow2(i - 1)
    ensures Best(nums, n, na, end)
    decreases end - i
  {
    if i < end {
      SumMore(nums, i, |nums| - 1);
      assert 2 * Sum(nums, i) <= Pow2(i);
      BestStep(nums, n, na, i);
      BestStop(nums, n, na, i + 1, end);
    }
  }

  lemma {:induction false} SumMore(nums: seq<nat>, i: nat, j: nat)
    requires i <= j < |nums|
    ensures Sum(nums, i) <= Sum(nums, j)
  {
    if i < j { SumMore(nums, i, j - 1); }
  }

  lemma BestLe(nums: seq<nat>, n: nat, na: nat)
    requires |nums| == MAXBITS + 1 && Best(nums, n, na, MAXBITS + 1)
    ensures na <= Sum(nums, MAXBITS)
  {
    if n > 0 {
      var b :| 0 <= b < MAXBITS + 1 && na == Sum(nums, b);
      SumMore(nums, b, MAXBITS);
    }
  }

  /** `computesizes`. */
  method ComputeSizes(nums: seq<nat>, candidates: nat) returns (n: nat, na: nat)
    requires |nums| == MAXBITS + 1 && candidates == Sum(nums, MAXBITS)
    requires forall i :: 0 <= i <= MAXBITS ==> Sum(nums, i) <= Pow2(i)
    ensures Best(nums, n, na, MAXBITS + 1)
  {
    hide Best, Sum;
    var a, i, twotoi := 0, 0, 1;
    n, na := 0, 0;
    NoneYet(nums);
    while twotoi / 2 < candidates
      invariant i <= MAXBITS + 1 && twotoi == Pow2(i) && a == (if i == 0 then 0 else Sum(nums, i - 1))
      invariant Best(nums, n, na, i) && (i == 0 ==> n == 0 && na == 0)
      decreases MAXBITS + 1 - i
    {
      assert Sum(nums, MAXBITS) <= Pow2(MAXBITS);
      SumAt(nums, i);
      BestStep(nums, n, na, i);
      if nums[i] > 0 {
        a := a + nums[i];
        if a > twotoi / 2 {
          n := twotoi;
          na := a;
        }
      }
      if a == candidates {
        BestStop(nums, n, na, i + 1, MAXBITS + 1);
        return;
      }
      i, twotoi := i + 1, twotoi * 2;
    }
    if i == 0 {
      NoKeys(nums);
    } else {
      BestStop(nums, n, na, i, MAXBITS + 1);
    }
  }

  lemma SumAt(nums: seq<nat>, i: nat)
    requires i < |nums|
    ensures Sum(nums, i) == nums[i] + if i == 0 then 0 else Sum(nums, i - 1)
  {}

  lemma NoneYet(nums: seq<nat>)
    ensures Best(nums, 0, 0, 0)
  {}

  lemma NoKeys(nums: seq<nat>)
    requires |nums| > 0 && Sum(nums, |nums| - 1) == 0
    ensures Best(nums, 0, 0, |nums|)
  {
    forall j | 0 <= j < |nums| ensures 2 * Sum(nums, j) <= Pow2(j) { SumMore(nums, j, |nums| - 1); }
  }

  // ----- counting for a rehash -------------------------------------------------------------------------

  /** `countint`. */
  method CountInt(k: Key, nums: seq<nat>) returns (nums1: seq<nat>, c: nat)
    requires |nums| == MAXBITS + 1
    ensures |nums1| == |nums| && c == One(IntKey(k, MAXASIZE))
    ensures forall i :: 0 <= i <= MAXBITS ==> Sum(nums1, i) == Sum(nums, i) + One(IntKey(k, Pow2(i)))
  {
    Pow2Max();
    if k.Int? && 0 < k.n <= MAXASIZE {
      var lg := CeilLog2(k.n);
      CeilLog2Le(k.n, MAXBITS);
      nums1, c := nums[lg := nums[lg] + 1], 1;
      forall i | 0 <= i <= MAXBITS ensures Sum(nums1, i) == Sum(nums, i) + One(IntKey(k, Pow2(i))) {
        SumUpdate(nums, lg, 1, i);
        CeilLog2Le(k.n, i);
      }
    } else {
      nums1, c := nums, 0;
      forall i | 0 <= i <= MAXBITS ensures !IntKey(k, Pow2(i)) { Pow2Monotone(i, MAXBITS); }
    }
  }

  /** Places of the array part in the slices before `lg`. */
  function Before(arr: seq<Value>, lg: nat): nat {
    if lg == 0 then 0 else if Pow2(lg - 1) <= |arr| then Pow2(lg - 1) else |arr|
  }

  lemma BeforeLe(arr: seq<Value>, lg: nat)
    ensures Before(arr, lg) <= Pow2(lg) && Before(arr, lg) <= |arr|
    ensures Before(arr, lg + 1) == if Pow2(lg) > |arr| then |arr| else Pow2(lg)
  {}

  lemma BeforeAll(arr: seq<Value>, lg: nat)
    requires Before(arr, lg) == |arr|
    ensures if lg == 0 then |arr| == 0 else |arr| <= Pow2(lg - 1)
  {}

  /** The places of an array part that `numusearray` looks at. */
  function Counted(size: nat): nat { if size <= MAXASIZE then size else MAXASIZE }

  /** The count of `numusearray` is the number of elements if and only if there is none behind the largest size
    * that an array part can get from a rehash. */
  lemma {:induction false} CountedAllElements(arr: seq<Value>)
    ensures ArrayCount(arr, Counted(|arr|)) <= ArrayCount(arr, |arr|)
    ensures ArrayCount(arr, Counted(|arr|)) == ArrayCount(arr, |arr|) <==>
      forall i :: MAXASIZE <= i < |arr| ==> arr[i] == Nil
  {
    if |arr| > MAXASIZE {
      NoneBehind(arr, MAXASIZE, |arr|);
    }
  }

  /** A full array part that is longer by one: its last element is not counted. */
  lemma LastNotCounted(v: Value)
    requires v != Nil
    ensures var arr := seq(MAXASIZE + 1, _ => v); ArrayCount(arr, Counted(|arr|)) < ArrayCount(arr, |arr|)
  {
    hide ArrayCount;
    var arr := seq(MAXASIZE + 1, _ => v);
    CountedAllElements(arr);
    assert arr[MAXASIZE] == v;
  }

  lemma {:induction false} NoneBehind(arr: seq<Value>, m: nat, n: nat)
    requires m <= n <= |arr|
    ensures ArrayCount(arr, m) <= ArrayCount(arr, n)
    ensures ArrayCount(arr, m) == ArrayCount(arr, n) <==> forall i :: m <= i < n ==> arr[i] == Nil
  {
    if m < n { NoneBehind(arr, m, n - 1); }
  }

  /** `numusearray`: the elements of the array part, by slices. */
  method NumUseArray(arr: seq<Value>) returns (nums: seq<nat>, ause: nat)
    ensures |nums| == MAXBITS + 1 && ause == ArrayCount(arr, Counted(|arr|))
    ensures forall i :: 0 <= i <= MAXBITS ==> Sum(nums, i) == ArrayCount(arr, Pow2(i))
  {
    hide Sliced, ArrayCount, Sum;
    nums, ause := seq(MAXBITS + 1, _ => 0), 0;
    SlicesBegin(arr, nums);
    var lg, ttlg, i := 0, 1, 1;
    while lg <= MAXBITS
      invariant lg <= MAXBITS + 1 && |nums| == MAXBITS + 1 && ttlg == Pow2(lg) && 1 <= i <= |arr| + 1
      invariant Sliced(arr, nums, lg, i, ause)
    {
      var lim := ttlg;
      if lim > |arr| {
        lim := |arr|;
        if i > lim {
          break;
        }
      }
      SliceBound(arr, nums, lg, i, ause);
      var lc, next := CountSlice(arr, i, lim);
      SliceCounted(arr, nums, lg, i, ause, lc, lim);
      nums := nums[lg := nums[lg] + lc];
      ause := ause + lc;
      lg, ttlg, i := lg + 1, ttlg * 2, next;
    }
    SlicesEnd(arr, nums, lg, i, ause);
  }

  /** The slices before `lg` have been counted, up to the place before `i`. */
  ghost predicate Sliced(arr: seq<Value>, nums: seq<nat>, lg: nat, i: nat, ause: nat) {
    && lg <= MAXBITS + 1 == |nums| && i == 1 + Before(arr, lg) && ause == ArrayCount(arr, Before(arr, lg))
    && (forall j :: 0 <= j < lg ==> Sum(nums, j) == ArrayCount(arr, Pow2(j)))
    && forall j :: lg <= j <= MAXBITS ==> nums[j] == 0
  }

  lemma SlicesBegin(arr: seq<Value>, nums: seq<nat>)
    requires |nums| == MAXBITS + 1 && forall j :: 0 <= j <= MAXBITS ==> nums[j] == 0
    ensures Sliced(arr, nums, 0, 1, 0)
  {
    assert ArrayCount(arr, 0) == 0;
  }

  lemma SliceBound(arr: seq<Value>, nums: seq<nat>, lg: nat, i: nat, ause: nat)
    requires Sliced(arr, nums, lg, i, ause) && lg <= MAXBITS
    ensures 1 <= i <= Pow2(lg) + 1 && i <= |arr| + 1 && nums[lg] == 0
  {
    BeforeLe(arr, lg);
    hide Pow2, Sum, ArrayCount;
  }

  /** One more slice has been counted. */
  lemma SliceCounted(arr: seq<Value>, nums: seq<nat>, lg: nat, i: nat, ause: nat, lc: nat, lim: nat)
    requires Sliced(arr, nums, lg, i, ause) && lg <= MAXBITS && lim == (if Pow2(lg) > |arr| then |arr| else Pow2(lg))
    requires i > 0 && lc == ArrayCount(arr, lim) - ArrayCount(arr, i - 1)
    ensures Sliced(arr, nums[lg := nums[lg] + lc], lg + 1, lim + 1, ause + lc)
  {
    BeforeLe(arr, lg);
    assert Before(arr, lg) == i - 1;
    assert Before(arr, lg + 1) == lim;
    assert forall j :: 0 <= j < lg ==> Sum(nums, j) == ArrayCount(arr, Pow2(j));
    SliceSums(arr, nums, lg, lc, lim);
    hide Before, Sum, ArrayCount, Pow2;
  }

  lemma SliceSums(arr: seq<Value>, nums: seq<nat>, lg: nat, lc: nat, lim: nat)
    requires |nums| == MAXBITS + 1 && lg <= MAXBITS && nums[lg] == 0
    requires lim == if Pow2(lg) > |arr| then |arr| else Pow2(lg)
    requires forall j :: 0 <= j < lg ==> Sum(nums, j) == ArrayCount(arr, Pow2(j))
    requires lc == ArrayCount(arr, lim) - ArrayCount(arr, Before(arr, lg))
    ensures forall j :: 0 <= j <= lg ==> Sum(nums[lg := nums[lg] + lc], j) == ArrayCount(arr, Pow2(j))
  {
    forall j | 0 <= j <= lg ensures Sum(nums[lg := nums[lg] + lc], j) == ArrayCount(arr, Pow2(j)) {
      SumUpdate(nums, lg, lc, j);
      if j == lg {
        if lim < Pow2(lg) { ArrayCountMore(arr, lim, Pow2(lg)); }
        if lg > 0 && |arr| < Pow2(lg - 1) { ArrayCountMore(arr, |arr|, Pow2(lg - 1)); }
      }
    }
  }

  /** All slices have been counted, or the array part has come to its end. */
  lemma SlicesEnd(arr: seq<Value>, nums: seq<nat>, lg: nat, i: nat, ause: nat)
    requires Sliced(arr, nums, lg, i, ause) && (lg <= MAXBITS ==> Pow2(lg) > |arr| && i > |arr|)
    ensures ause == ArrayCount(arr, Counted(|arr|))
    ensures forall j :: 0 <= j <= MAXBITS ==> Sum(nums, j) == ArrayCount(arr, Pow2(j))
  {
    Pow2Max();
    BeforeLe(arr, lg);
    if lg <= MAXBITS {
      Pow2Monotone(lg, MAXBITS);
      BeforeAll(arr, lg);
      SlicesDone(arr, nums, lg);
    }
    hide Sum, ArrayCount;
  }

  /** The inner loop of `numusearray`. */
  method CountSlice(arr: seq<Value>, first: nat, lim: nat) returns (lc: nat, i: nat)
    requires 1 <= first <= lim + 1 && lim <= |arr|
    ensures i == lim + 1 && lc == ArrayCount(arr, lim) - ArrayCount(arr, first - 1)
  {
    lc, i := 0, first;
    while i <= lim
      invariant first <= i <= lim + 1 && lc == ArrayCount(arr, i - 1) - ArrayCount(arr, first - 1)
    {
      if arr[i - 1] != Nil {
        lc := lc + 1;
      }
      i := i + 1;
    }
  }

  lemma SlicesDone(arr: seq<Value>, nums: seq<nat>, lg: nat)
    requires |nums| == MAXBITS + 1 && lg <= MAXBITS && (if lg == 0 then |arr| == 0 else |arr| <= Pow2(lg - 1))
    requires forall j :: 0 <= j < lg ==> Sum(nums, j) == ArrayCount(arr, Pow2(j))
    requires forall j :: lg <= j <= MAXBITS ==> nums[j] == 0
    ensures forall j :: 0 <= j <= MAXBITS ==> Sum(nums, j) == ArrayCount(arr, Pow2(j))
  {
    hide ArrayCount;
    forall j | lg <= j <= MAXBITS ensures Sum(nums, j) == ArrayCount(arr, Pow2(j)) {
      SumZeros(nums, lg, j);
      if lg > 0 {
        Pow2Monotone(lg - 1, j);
        ArrayCountMore(arr, |arr|, Pow2(lg - 1));
        ArrayCountMore(arr, |arr|, Pow2(j));
      } else {
        NoElements(arr, Pow2(j));
      }
    }
  }

  lemma {:induction false} SumZeros(nums: seq<nat>, lg: nat, j: nat)
    requires lg <= j < |nums| && forall x :: lg <= x <= j ==> nums[x] == 0
    ensures Sum(nums, j) == if lg == 0 then 0 else Sum(nums, lg - 1)
  {
    if j > lg { SumZeros(nums, lg, j - 1); }
  }

  lemma {:induction false} NoElements(arr: seq<Value>, n: nat)
    requires arr == []
    ensures ArrayCount(arr, n) == 0
  {
    if n > 0 { NoElements(arr, n - 1); }
  }

  /** `numusehash`: the entries of the hash part, and those that are candidates for the array part. */
  method NumUseHash(node: seq<Node>, nums: seq<nat>, nasize: nat) returns (nums1: seq<nat>, nasize1: nat, totaluse: nat)
    requires |nums| == MAXBITS + 1 && forall i :: 0 <= i < |node| ==> node[i].val != Nil ==> node[i].key != Free
    ensures |nums1| == |nums| && totaluse == HashTotal(node, 0) && nasize1 == nasize + HashCount(node, MAXASIZE, 0)
    ensures forall j :: 0 <= j <= MAXBITS ==> Sum(nums1, j) == Sum(nums, j) + HashCount(node, Pow2(j), 0)
  {
    var i, ause := |node|, 0;
    totaluse, nums1 := 0, nums;
    while i > 0
      invariant 0 <= i <= |node| && |nums1| == |nums| && totaluse == HashTotal(node, i)
      invariant ause == HashCount(node, MAXASIZE, i)
      invariant forall j :: 0 <= j <= MAXBITS ==> Sum(nums1, j) == Sum(nums, j) + HashCount(node, Pow2(j), i)
    {
      i := i - 1;
      if node[i].val != Nil {
        var c;
        nums1, c := CountInt(node[i].key.k, nums1);
        ause := ause + c;
        totaluse := totaluse + 1;
      }
    }
    nasize1 := nasize + ause;
  }
}
