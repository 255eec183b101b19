/** The hash part of a table: nodes chained from the main positions of their keys. */
module TableChains {

  datatype Value = Nil | Some(id: int)

  /** Keys. A number that equals a C int is an `Int`; strings and objects stand for their addresses. */
  datatype Key = NilKey | Int(n: int) | Float(id: int) | NaN | Bool(b: bool) | Light(p: int) | Str(p: int) | Object(p: int)

  predicate Collectable(k: Key) { k.Str? || k.Object? }

  /** What a node holds as its key: nothing yet, a key, or the address of a key that may have been
    * collected. */
  datatype Cell = Free | Live(k: Key) | Dead(k: Key)

  datatype Link = Null | To(i: nat)

  datatype Node = Node(key: Cell, val: Value, next: Link)

  type Hash = Key -> nat

  /** `mainposition`. */
  function MainPosition(h: Hash, size: nat, k: Key): (i: nat)
    requires size > 0
    ensures i < size
  {
    if k == Int(0) then 0
    else if k.Str? || k.Bool? then h(k) % size
    else h(k) % (if size == 1 then 1 else size - 1)
  }

  // ----- chains ------------------------------------------------------------------------------------

  predicate Keyed(nodes: seq<Node>, i: int) { 0 <= i < |nodes| && nodes[i].key != Free }

  function Home(h: Hash, nodes: seq<Node>, i: int): (m: nat)
    requires Keyed(nodes, i)
    ensures m < |nodes|
  {
    MainPosition(h, |nodes|, nodes[i].key.k)
  }

  /** The next node of a chain has the next number. */
  ghost predicate LinkOk(nodes: seq<Node>, rank: seq<nat>, i: int)
    requires |rank| == |nodes| && 0 <= i < |nodes|
  {
    nodes[i].next != Null ==> Keyed(nodes, nodes[i].next.i) && rank[nodes[i].next.i] == rank[i] + 1
  }

  /** `rank` numbers the nodes that have a key along the chains: chains have no cycles, and no node has
    * two predecessors. */
  ghost predicate Ranked(nodes: seq<Node>, rank: seq<nat>, top: nat) {
    && |rank| == |nodes|
    && (forall i :: 0 <= i < |nodes| && nodes[i].key == Free ==> nodes[i] == Node(Free, Nil, Null))
    && (forall i :: Keyed(nodes, i) ==> rank[i] < top)
    && (forall i, j :: Keyed(nodes, i) && Keyed(nodes, j) && i != j ==> rank[i] != rank[j])
    && (forall i {:trigger LinkOk(nodes, rank, i)} :: 0 <= i < |nodes| ==> LinkOk(nodes, rank, i))
  }

  /** The chain goes on from node `i` until it gets to node `j`. */
  ghost predicate Leads(nodes: seq<Node>, rank: seq<nat>, i: int, j: int)
    requires |rank| == |nodes| && 0 <= i < |nodes| && 0 <= j < |nodes|
  {
    rank[i] <= rank[j] && forall x :: Keyed(nodes, x) && rank[i] <= rank[x] < rank[j] ==> nodes[x].next != Null
  }

  /** The key is on the chain from its main position, where there is a key that belongs there. */
  ghost predicate HomeOk(h: Hash, nodes: seq<Node>, rank: seq<nat>, j: int)
    requires |rank| == |nodes| && Keyed(nodes, j)
  {
    var m := Home(h, nodes, j);
    Keyed(nodes, m) && Home(h, nodes, m) == m && Leads(nodes, rank, m, j)
  }

  ghost predicate Homed(h: Hash, nodes: seq<Node>, rank: seq<nat>)
    requires |rank| == |nodes|
  {
    forall j {:trigger HomeOk(h, nodes, rank, j)} :: Keyed(nodes, j) ==> HomeOk(h, nodes, rank, j)
  }

  predicate SameKey(live: Cell, other: Cell) { live.Live? && other != Free && live.k == other.k }

  /** No two nodes have the same key; a key that has been given up comes after one that is in use. */
  ghost predicate Distinct(nodes: seq<Node>, rank: seq<nat>)
    requires |rank| == |nodes|
  {
    && (forall i :: 0 <= i < |nodes| ==> nodes[i].key != Live(NilKey) && nodes[i].key != Live(NaN))
    && (forall i :: 0 <= i < |nodes| && nodes[i].key.Dead? ==> nodes[i].val == Nil)
    && (forall i, j :: 0 <= i < |nodes| && 0 <= j < |nodes| && i != j && SameKey(nodes[i].key, nodes[j].key) ==>
          rank[i] < rank[j] && nodes[j].key.Dead?)
  }

  /** The scatter table with Brent's variation. */
  ghost predicate Chained(h: Hash, nodes: seq<Node>, rank: seq<nat>, top: nat) {
    Ranked(nodes, rank, top) && Homed(h, nodes, rank) && Distinct(nodes, rank)
  }

  // ----- contents ----------------------------------------------------------------------------------

  ghost predicate Present(nodes: seq<Node>, k: Key) { exists i :: 0 <= i < |nodes| && nodes[i].key == Live(k) }

  ghost predicate LiveOnce(nodes: seq<Node>) {
    forall i, j :: 0 <= i < |nodes| && 0 <= j < |nodes| && nodes[i].key.Live? && nodes[j].key == nodes[i].key ==> i == j
  }

  lemma DistinctLive(nodes: seq<Node>, rank: seq<nat>)
    requires |rank| == |nodes| && Distinct(nodes, rank)
    ensures LiveOnce(nodes)
  {
    forall i, j | 0 <= i < |nodes| && 0 <= j < |nodes| && nodes[i].key.Live? && nodes[j].key == nodes[i].key
      ensures i == j
    {
      if i != j { assert SameKey(nodes[i].key, nodes[j].key); }
    }
  }

  /** The value of a key in the hash part. */
  ghost function ValueOf(nodes: seq<Node>, k: Key): Value {
    if Present(nodes, k) then
      var i :| 0 <= i < |nodes| && nodes[i].key == Live(k);
      nodes[i].val
    else Nil
  }

  lemma ValueAt(nodes: seq<Node>, i: nat)
    requires LiveOnce(nodes) && i < |nodes| && nodes[i].key.Live?
    ensures ValueOf(nodes, nodes[i].key.k) == nodes[i].val
  {
    var k := nodes[i].key.k;
    assert Present(nodes, k);
    var j :| 0 <= j < |nodes| && nodes[j].key == Live(k) && ValueOf(nodes, k) == nodes[j].val;
  }

  ghost predicate Has(nodes: seq<Node>, k: Key, v: Value) {
    exists i :: 0 <= i < |nodes| && nodes[i].key == Live(k) && nodes[i].val == v
  }

  lemma HasValue(nodes: seq<Node>, k: Key, v: Value)
    requires LiveOnce(nodes) && v != Nil
    ensures ValueOf(nodes, k) == v <==> Has(nodes, k, v)
  {
    if Present(nodes, k) {
      var i :| 0 <= i < |nodes| && nodes[i].key == Live(k);
      ValueAt(nodes, i);
    }
  }

  /** Every entry with a value is kept. */
  ghost predicate Carries(nodes: seq<Node>, nodes1: seq<Node>) {
    forall i :: 0 <= i < |nodes| && nodes[i].key.Live? && nodes[i].val != Nil ==>
      Has(nodes1, nodes[i].key.k, nodes[i].val)
  }

  /** The same values for all keys. */
  ghost predicate SameValues(nodes: seq<Node>, nodes1: seq<Node>) {
    forall k :: ValueOf(nodes1, k) == ValueOf(nodes, k)
  }

  lemma SameEntries(nodes: seq<Node>, nodes1: seq<Node>)
    requires LiveOnce(nodes) && LiveOnce(nodes1) && Carries(nodes, nodes1) && Carries(nodes1, nodes)
    ensures SameValues(nodes, nodes1)
  {
    hide LiveOnce, ValueOf;
    forall k ensures ValueOf(nodes1, k) == ValueOf(nodes, k) {
      var v, v1 := ValueOf(nodes, k), ValueOf(nodes1, k);
      if v != Nil { HasValue(nodes, k, v); HasValue(nodes1, k, v); }
      if v1 != Nil { HasValue(nodes, k, v1); HasValue(nodes1, k, v1); }
    }
  }

  // ----- new keys ----------------------------------------------------------------------------------

  /** The main position of the key has never been used. */
  lemma InsertFresh(h: Hash, nodes: seq<Node>, rank: seq<nat>, top: nat, k: Key, mp: nat)
    requires Chained(h, nodes, rank, top) && mp < |nodes| && nodes[mp].key == Free && mp == MainPosition(h, |nodes|, k)
    requires k != NilKey && k != NaN && !Present(nodes, k)
    ensures var nodes1 := nodes[mp := Node(Live(k), Nil, Null)];
      Chained(h, nodes1, rank[mp := top], top + 1) && SameValues(nodes, nodes1)
  {
    var nodes1, rank1 := nodes[mp := Node(Live(k), Nil, Null)], rank[mp := top];
    FreshHomed(h, nodes, rank, top, k, mp);
    DistinctLive(nodes, rank);
    FreshDistinct(h, nodes, rank, top, k, mp);
    DistinctLive(nodes1, rank1);
    hide Ranked, Homed, Distinct;
    forall i | 0 <= i < |nodes| && nodes[i].key.Live? && nodes[i].val != Nil
      ensures Has(nodes1, nodes[i].key.k, nodes[i].val)
    {
      assert nodes1[i] == nodes[i];
    }
    forall i | 0 <= i < |nodes1| && nodes1[i].key.Live? && nodes1[i].val != Nil
      ensures Has(nodes, nodes1[i].key.k, nodes1[i].val)
    {
      assert nodes1[i] == nodes[i];
    }
    SameEntries(nodes, nodes1);
  }

  lemma FreshHomed(h: Hash, nodes: seq<Node>, rank: seq<nat>, top: nat, k: Key, mp: nat)
    requires Ranked(nodes, rank, top) && Homed(h, nodes, rank) && mp < |nodes| && nodes[mp].key == Free
    requires mp == MainPosition(h, |nodes|, k)
    ensures var nodes1 := nodes[mp := Node(Live(k), Nil, Null)];
      Ranked(nodes1, rank[mp := top], top + 1) && Homed(h, nodes1, rank[mp := top])
  {
    var nodes1, rank1 := nodes[mp := Node(Live(k), Nil, Null)], rank[mp := top];
    forall i | 0 <= i < |nodes| ensures LinkOk(nodes1, rank1, i) {
      assert LinkOk(nodes, rank, i);
    }
    forall j | Keyed(nodes1, j) ensures HomeOk(h, nodes1, rank1, j) {
      if j != mp {
        assert HomeOk(h, nodes, rank, j);
      }
    }
  }

  lemma FreshDistinct(h: Hash, nodes: seq<Node>, rank: seq<nat>, top: nat, k: Key, mp: nat)
    requires Chained(h, nodes, rank, top) && mp < |nodes| && nodes[mp].key == Free && mp == MainPosition(h, |nodes|, k)
    requires k != NilKey && k != NaN && !Present(nodes, k)
    ensures Distinct(nodes[mp := Node(Live(k), Nil, Null)], rank[mp := top])
  {
    forall j | Keyed(nodes, j) ensures nodes[j].key.k != k {
      assert HomeOk(h, nodes, rank, j);
    }
    hide Homed, Ranked, HomeOk, MainPosition, Present;
    NewKeyDistinct(nodes, rank, k, mp, top);
  }

  /** A node with a key that no other node has. */
  lemma NewKeyDistinct(nodes: seq<Node>, rank: seq<nat>, k: Key, mp: nat, r: nat)
    requires |rank| == |nodes| && Distinct(nodes, rank) && mp < |nodes| && k != NilKey && k != NaN
    requires forall j :: 0 <= j < |nodes| && j != mp && nodes[j].key != Free ==> nodes[j].key.k != k
    ensures Distinct(nodes[mp := Node(Live(k), Nil, Null)], rank[mp := r])
  {}

  function Overwritten(nodes: seq<Node>, k: Key, mp: nat): seq<Node>
    requires mp < |nodes|
  {
    nodes[mp := nodes[mp].(key := Live(k))]
  }

  lemma InsertOver(h: Hash, nodes: seq<Node>, rank: seq<nat>, top: nat, k: Key, mp: nat)
    requires Chained(h, nodes, rank, top) && Keyed(nodes, mp) && nodes[mp].val == Nil
    requires mp == MainPosition(h, |nodes|, k)
    requires k != NilKey && k != NaN && !Present(nodes, k)
    ensures Chained(h, Overwritten(nodes, k, mp), rank, top) && SameValues(nodes, Overwritten(nodes, k, mp))
  {
    var nodes1 := Overwritten(nodes, k, mp);
    OverHomed(h, nodes, rank, top, k, mp);
    OverDistinct(h, nodes, rank, k, mp);
    DistinctLive(nodes, rank);
    DistinctLive(nodes1, rank);
    hide Ranked, Homed, Distinct;
    forall i | 0 <= i < |nodes| && nodes[i].key.Live? && nodes[i].val != Nil
      ensures Has(nodes1, nodes[i].key.k, nodes[i].val)
    {
      assert nodes1[i] == nodes[i];
    }
    forall i | 0 <= i < |nodes1| && nodes1[i].key.Live? && nodes1[i].val != Nil
      ensures Has(nodes, nodes1[i].key.k, nodes1[i].val)
    {
      assert nodes1[i] == nodes[i];
    }
    SameEntries(nodes, nodes1);
  }

  lemma OverHomed(h: Hash, nodes: seq<Node>, rank: seq<nat>, top: nat, k: Key, mp: nat)
    requires Ranked(nodes, rank, top) && Homed(h, nodes, rank) && Keyed(nodes, mp) && mp == MainPosition(h, |nodes|, k)
    ensures Ranked(Overwritten(nodes, k, mp), rank, top) && Homed(h, Overwritten(nodes, k, mp), rank)
  {
    var nodes1 := Overwritten(nodes, k, mp);
    forall i | 0 <= i < |nodes| ensures LinkOk(nodes1, rank, i) {
      assert LinkOk(nodes, rank, i);
    }
    forall j | Keyed(nodes1, j) ensures HomeOk(h, nodes1, rank, j) {
      assert HomeOk(h, nodes, rank, j);
    }
  }

  lemma OverDistinct(h: Hash, nodes: seq<Node>, rank: seq<nat>, k: Key, mp: nat)
    requires |rank| == |nodes| && Homed(h, nodes, rank) && Distinct(nodes, rank)
    requires forall i, j :: Keyed(nodes, i) && Keyed(nodes, j) && i != j ==> rank[i] != rank[j]
    requires Keyed(nodes, mp) && nodes[mp].val == Nil && mp == MainPosition(h, |nodes|, k)
    requires k != NilKey && k != NaN && !Present(nodes, k)
    ensures Distinct(Overwritten(nodes, k, mp), rank)
  {
    forall j | Keyed(nodes, j) && nodes[j].key.k == k ensures nodes[j].key.Dead? && (j == mp || rank[mp] < rank[j]) {
      assert HomeOk(h, nodes, rank, j);
    }
  }

  /** The colliding node is at its own main position: the new node comes next in its chain. */
  function Followed(nodes: seq<Node>, k: Key, mp: nat, n: nat): seq<Node>
    requires mp < |nodes| && n < |nodes|
  {
    nodes[n := Node(Live(k), Nil, nodes[mp].next)][mp := nodes[mp].(next := To(n))]
  }

  ghost function Shifted(rank: seq<nat>, mp: nat, n: nat): (rank1: seq<nat>)
    requires mp < |rank|
    ensures |rank1| == |rank|
  {
    seq(|rank|, x requires 0 <= x < |rank| => if x == n then rank[mp] + 1 else if rank[x] > rank[mp] then rank[x] + 1 else rank[x])
  }

  lemma InsertAfter(h: Hash, nodes: seq<Node>, rank: seq<nat>, top: nat, k: Key, mp: nat, n: nat)
    requires Chained(h, nodes, rank, top) && Keyed(nodes, mp) && nodes[mp].val != Nil
    requires mp == MainPosition(h, |nodes|, k)
    requires Home(h, nodes, mp) == mp && n < |nodes| && nodes[n].key == Free
    requires k != NilKey && k != NaN && !Present(nodes, k)
    ensures Chained(h, Followed(nodes, k, mp, n), Shifted(rank, mp, n), top + 1)
    ensures SameValues(nodes, Followed(nodes, k, mp, n))
  {
    var nodes1, rank1 := Followed(nodes, k, mp, n), Shifted(rank, mp, n);
    AfterRanked(nodes, rank, top, k, mp, n);
    AfterHomed(h, nodes, rank, top, k, mp, n);
    AfterDistinct(h, nodes, rank, top, k, mp, n);
    DistinctLive(nodes, rank);
    DistinctLive(nodes1, rank1);
    hide Ranked, Homed, Distinct, Shifted;
    forall i | 0 <= i < |nodes| && nodes[i].key.Live? && nodes[i].val != Nil
      ensures Has(nodes1, nodes[i].key.k, nodes[i].val)
    {
      assert nodes1[i].key == nodes[i].key && nodes1[i].val == nodes[i].val;
    }
    forall i | 0 <= i < |nodes1| && nodes1[i].key.Live? && nodes1[i].val != Nil
      ensures Has(nodes, nodes1[i].key.k, nodes1[i].val)
    {
      assert nodes1[i].key == nodes[i].key && nodes1[i].val == nodes[i].val;
    }
    SameEntries(nodes, nodes1);
  }

  lemma AfterRanked(nodes: seq<Node>, rank: seq<nat>, top: nat, k: Key, mp: nat, n: nat)
    requires Ranked(nodes, rank, top) && Keyed(nodes, mp) && n < |nodes| && nodes[n].key == Free
    ensures Ranked(Followed(nodes, k, mp, n), Shifted(rank, mp, n), top + 1)
  {
    var nodes1, rank1 := Followed(nodes, k, mp, n), Shifted(rank, mp, n);
    forall i | 0 <= i < |nodes| ensures LinkOk(nodes1, rank1, i) {
      assert LinkOk(nodes, rank, i);
      assert LinkOk(nodes, rank, mp);
    }
  }

  lemma AfterHomed(h: Hash, nodes: seq<Node>, rank: seq<nat>, top: nat, k: Key, mp: nat, n: nat)
    requires Ranked(nodes, rank, top) && Homed(h, nodes, rank) && Keyed(nodes, mp) && mp == MainPosition(h, |nodes|, k)
    requires Home(h, nodes, mp) == mp && n < |nodes| && nodes[n].key == Free
    ensures Homed(h, Followed(nodes, k, mp, n), Shifted(rank, mp, n))
  {
    var nodes1, rank1 := Followed(nodes, k, mp, n), Shifted(rank, mp, n);
    forall j | Keyed(nodes1, j) ensures HomeOk(h, nodes1, rank1, j) {
      if j != n {
        assert HomeOk(h, nodes, rank, j);
        var m := Home(h, nodes, j);
        forall x | Keyed(nodes1, x) && rank1[m] <= rank1[x] < rank1[j] ensures nodes1[x].next != Null {
          if x == n {
            assert rank[mp] < rank[j];
            assert rank[m] <= rank[mp];
            assert nodes[mp].next != Null;
          }
        }
      }
    }
  }

  lemma AfterDistinct(h: Hash, nodes: seq<Node>, rank: seq<nat>, top: nat, k: Key, mp: nat, n: nat)
    requires Chained(h, nodes, rank, top) && Keyed(nodes, mp) && nodes[mp].val != Nil
    requires mp == MainPosition(h, |nodes|, k)
    requires n < |nodes| && nodes[n].key == Free
    requires k != NilKey && k != NaN && !Present(nodes, k)
    ensures Distinct(Followed(nodes, k, mp, n), Shifted(rank, mp, n))
  {
    forall j | Keyed(nodes, j) && nodes[j].key.k == k ensures nodes[j].key.Dead? && rank[mp] < rank[j] {
      assert HomeOk(h, nodes, rank, j);
    }
  }

  /** The colliding node is out of its main position: it moves, and its place is taken. */
  function Moved(nodes: seq<Node>, k: Key, prev: nat, mp: nat, n: nat): seq<Node>
    requires prev < |nodes| && mp < |nodes| && n < |nodes|
  {
    nodes[prev := nodes[prev].(next := To(n))][n := nodes[mp]][mp := Node(Live(k), Nil, Null)]
  }

  lemma InsertMove(h: Hash, nodes: seq<Node>, rank: seq<nat>, top: nat, k: Key, prev: nat, mp: nat, n: nat)
    requires Chained(h, nodes, rank, top) && Keyed(nodes, mp) && mp == MainPosition(h, |nodes|, k)
    requires Home(h, nodes, mp) != mp && n < |nodes| && nodes[n].key == Free && prev < |nodes|
    requires nodes[prev].next == To(mp)
    requires k != NilKey && k != NaN && !Present(nodes, k)
    ensures Chained(h, Moved(nodes, k, prev, mp, n), rank[n := rank[mp]][mp := top], top + 1)
    ensures SameValues(nodes, Moved(nodes, k, prev, mp, n))
  {
    var nodes1, rank1 := Moved(nodes, k, prev, mp, n), rank[n := rank[mp]][mp := top];
    assert LinkOk(nodes, rank, prev);
    assert prev != mp && prev != n && n != mp;
    MoveRanked(nodes, rank, top, k, prev, mp, n);
    MoveHomed(h, nodes, rank, top, k, prev, mp, n);
    MoveDistinct(h, nodes, rank, k, prev, mp, n, top);
    DistinctLive(nodes, rank);
    DistinctLive(nodes1, rank1);
    hide Ranked, Homed, Distinct;
    forall i | 0 <= i < |nodes| && nodes[i].key.Live? && nodes[i].val != Nil
      ensures Has(nodes1, nodes[i].key.k, nodes[i].val)
    {
      var i1 := if i == mp then n else i;
      assert nodes1[i1].key == nodes[i].key && nodes1[i1].val == nodes[i].val;
    }
    forall i | 0 <= i < |nodes1| && nodes1[i].key.Live? && nodes1[i].val != Nil
      ensures Has(nodes, nodes1[i].key.k, nodes1[i].val)
    {
      var i1 := if i == n then mp else i;
      assert nodes1[i].key == nodes[i1].key && nodes1[i].val == nodes[i1].val;
    }
    SameEntries(nodes, nodes1);
  }

  lemma MoveRanked(nodes: seq<Node>, rank: seq<nat>, top: nat, k: Key, prev: nat, mp: nat, n: nat)
    requires Ranked(nodes, rank, top) && Keyed(nodes, mp) && n < |nodes| && nodes[n].key == Free
    requires prev < |nodes| && nodes[prev].next == To(mp) && prev != mp
    ensures Ranked(Moved(nodes, k, prev, mp, n), rank[n := rank[mp]][mp := top], top + 1)
  {
    var nodes1, rank1 := Moved(nodes, k, prev, mp, n), rank[n := rank[mp]][mp := top];
    forall i | 0 <= i < |nodes| ensures LinkOk(nodes1, rank1, i) {
      assert LinkOk(nodes, rank, i);
      assert LinkOk(nodes, rank, mp);
      assert LinkOk(nodes, rank, prev);
    }
  }

  lemma MoveHomed(h: Hash, nodes: seq<Node>, rank: seq<nat>, top: nat, k: Key, prev: nat, mp: nat, n: nat)
    requires Ranked(nodes, rank, top) && Homed(h, nodes, rank) && Keyed(nodes, mp) && mp == MainPosition(h, |nodes|, k)
    requires Home(h, nodes, mp) != mp && n < |nodes| && nodes[n].key == Free && prev < |nodes|
    requires nodes[prev].next == To(mp) && prev != mp
    ensures Homed(h, Moved(nodes, k, prev, mp, n), rank[n := rank[mp]][mp := top])
  {
    var nodes1, rank1 := Moved(nodes, k, prev, mp, n), rank[n := rank[mp]][mp := top];
    forall j | Keyed(nodes1, j) ensures HomeOk(h, nodes1, rank1, j) {
      if j != mp {
        var j0 := if j == n then mp else j;
        assert HomeOk(h, nodes, rank, j0);
        forall x | Keyed(nodes1, x) && rank1[Home(h, nodes, j0)] <= rank1[x] < rank1[j] ensures nodes1[x].next != Null {
          var x0 := if x == n then mp else x;
          assert Keyed(nodes, x0) && rank[x0] == rank1[x];
        }
      }
    }
  }

  lemma MoveDistinct(h: Hash, nodes: seq<Node>, rank: seq<nat>, k: Key, prev: nat, mp: nat, n: nat, top: nat)
    requires |rank| == |nodes| && Homed(h, nodes, rank) && Distinct(nodes, rank) && Keyed(nodes, mp)
    requires mp == MainPosition(h, |nodes|, k)
    requires Home(h, nodes, mp) != mp && n < |nodes| && nodes[n].key == Free && prev < |nodes| && prev != mp
    requires prev != n
    requires k != NilKey && k != NaN
    ensures Distinct(Moved(nodes, k, prev, mp, n), rank[n := rank[mp]][mp := top])
  {
    forall j | Keyed(nodes, j) ensures nodes[j].key.k != k {
      assert HomeOk(h, nodes, rank, j);
    }
    hide Homed, HomeOk, MainPosition, Home, Distinct;
    var rank1 := rank[n := rank[mp]];
    var nodes1 := nodes[prev := nodes[prev].(next := To(n))][n := nodes[mp]][mp := Node(Free, Nil, Null)];
    RelocatedDistinct(nodes, nodes1, rank, rank1, mp, n);
    NewKeyDistinct(nodes1, rank1, k, mp, top);
    assert Moved(nodes, k, prev, mp, n) == nodes1[mp := Node(Live(k), Nil, Null)];
  }

  /** A key has moved from one node to another. */
  lemma RelocatedDistinct(nodes: seq<Node>, nodes1: seq<Node>, rank: seq<nat>, rank1: seq<nat>, mp: nat, n: nat)
    requires |rank| == |nodes| == |nodes1| == |rank1| && Distinct(nodes, rank) && mp < |nodes| && n < |nodes| && mp != n
    requires nodes1[mp].key == Free && nodes1[n].key == nodes[mp].key && nodes1[n].val == nodes[mp].val
    requires rank1[n] == rank[mp]
    requires forall i :: 0 <= i < |nodes| && i != mp && i != n ==>
      nodes1[i].key == nodes[i].key && nodes1[i].val == nodes[i].val && rank1[i] == rank[i]
    ensures Distinct(nodes1, rank1)
  {
    forall i, j | 0 <= i < |nodes1| && 0 <= j < |nodes1| && i != j && SameKey(nodes1[i].key, nodes1[j].key)
      ensures rank1[i] < rank1[j] && nodes1[j].key.Dead?
    {
      var i0, j0 := if i == n then mp else i, if j == n then mp else j;
      assert SameKey(nodes[i0].key, nodes[j0].key);
    }
  }
}
