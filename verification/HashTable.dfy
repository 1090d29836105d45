/**
 The bucket sizes of the hash table, and why growing and shrinking between them
 is cheap in the long run (src/hashtab.c).
 */
module BucketSizes {

  const CHOICES: seq<nat> := [
    7, 17, 37, 79, 163, 331, 673, 1361, 2729, 5471, 10949, 21911, 43853, 87719,
    175447, 350899, 701819, 1403641, 2807303, 5614657, 11229331, 22458671,
    44917381, 89834777, 179669557, 359339171, 718678369, 1437356741]

  const LAST: nat := 27

  function Size(i: nat): nat
    requires i <= LAST
  {
    CHOICES[i]
  }

  lemma Gaps(i: nat)
    requires i < LAST
    ensures 7 <= Size(i) && 2 * Size(i) + 2 <= Size(i + 1) && 2 * Size(i + 1) <= 5 * Size(i) + 4
  {
  }

  /** Work saved up by past operations when n items sit in Size(i) buckets. */
  function Potential(n: nat, i: nat): nat
    requires i <= LAST
  {
    if n >= Size(i) then 3 * (n - Size(i)) else if i == 0 then 0 else 2 * (Size(i) - n)
  }

  /** Growing is paid for by the inserts since the last resize. */
  lemma GrowthIsPaid(i: nat)
    requires i < LAST
    ensures var n := 2 * Size(i) + 1; n + Potential(n, i + 1) <= Potential(n, i) && n <= 2 * Size(i + 1)
  {
    Gaps(i);
  }

  /** Shrinking is paid for by the deletes since the last resize. */
  lemma ShrinkageIsPaid(n: nat, i: nat)
    requires 0 < i <= LAST && n < Size(i) / 2
    ensures n + Potential(n, i - 1) <= Potential(n, i) && n <= 2 * Size(i - 1)
  {
    Gaps(i - 1);
  }
}

/**
 The intrusive chained hash table (src/hashtab.c): each item carries the link to
 the next item of its chain and its cached hash value.

 The contracts speak of the chains as values: `chains` lists the items of each
 bucket and `links` the next item of every item; Valid says that the memory
 agrees with both.
 */
module HashTable {
  import opened BucketSizes

  /** The contents of an item. */
  datatype Key = Key(triggerDate: int, triggerTime: int, body: seq<bv8>)

  class Item {
    const key: Key       // compare(a, b) is 0 for items with equal keys
    const hash: nat      // what the hash function gives for the item
    var next: Item?
    var hashval: nat

    constructor (key: Key, hash: nat)
      ensures this.key == key && this.hash == hash
    {
      this.key, this.hash := key, hash;
    }
  }

  type Links = map<Item, Item?>

  // ----- Chains, as values -----

  function At(c: seq<Item>, j: nat): Item? {
    if j < |c| then c[j] else null
  }

  /** From position `k` of chain `i` on, and in all later chains, the links lead to the next item. */
  ghost predicate LinkedFrom(chains: seq<seq<Item>>, links: Links, i: nat, k: nat) {
    && (forall b, j | i <= b < |chains| && 0 <= j < |chains[b]| :: chains[b][j] in links)
    && forall b, j {:trigger links[chains[b][j]]} | i <= b < |chains| && 0 <= j < |chains[b]| && (b == i ==> k <= j) ::
         links[chains[b][j]] == At(chains[b], j + 1)
  }

  /** Every item of `items` is once in the chain its hash selects, and nowhere else. */
  ghost predicate Partition(chains: seq<seq<Item>>, items: set<Item>) {
    && |chains| > 0
    && (forall b, j | 0 <= b < |chains| && 0 <= j < |chains[b]| ::
          chains[b][j] in items && chains[b][j].hash % |chains| == b)
    && (forall it | it in items :: it in chains[it.hash % |chains|])
    && (forall b | 0 <= b < |chains| :: NoDup(chains[b]))
  }

  ghost predicate NoDup<T>(c: seq<T>) {
    forall i, j | 0 <= i < j < |c| :: c[i] != c[j]
  }

  /** Exactly the items of the first `i` chains, and the first `k` of chain `i`, are in `moved`. */
  ghost predicate MovedUpTo(chains: seq<seq<Item>>, moved: set<Item>, i: nat, k: nat) {
    forall b, j | 0 <= b < |chains| && 0 <= j < |chains[b]| ::
      chains[b][j] in moved <==> b < i || (b == i && j < k)
  }

  function NoChains(n: nat): seq<seq<Item>> {
    seq(n, _ => [])
  }

  function Pushed(chains: seq<seq<Item>>, item: Item): (r: seq<seq<Item>>)
    requires |chains| > 0
    ensures |r| == |chains|
  {
    var b := item.hash % |chains|;
    chains[b := [item] + chains[b]]
  }

  lemma PushPartition(chains: seq<seq<Item>>, items: set<Item>, item: Item)
    requires Partition(chains, items) && item !in items
    ensures Partition(Pushed(chains, item), items + {item})
  {
    var b := item.hash % |chains|;
    var c := [item] + chains[b];
    assert forall j | 0 <= j < |c| :: c[j] == if j == 0 then item else chains[b][j - 1];
    var chains' := Pushed(chains, item);
    forall it | it in items + {item}
      ensures it in chains'[it.hash % |chains'|]
    {
      if it == item {
        assert c[0] == item;
      } else if it.hash % |chains| == b {
        assert it in chains[b];
        var j :| 0 <= j < |chains[b]| && chains[b][j] == it;
        assert c[j + 1] == it;
      }
    }
  }

  lemma PushLinks(chains: seq<seq<Item>>, items: set<Item>, links: Links, item: Item)
    requires Partition(chains, items) && item !in items && LinkedFrom(chains, links, 0, 0)
    ensures LinkedFrom(Pushed(chains, item), links[item := At(chains[item.hash % |chains|], 0)], 0, 0)
  {
    var b := item.hash % |chains|;
    var c := [item] + chains[b];
    assert forall j | 0 <= j < |c| :: c[j] == if j == 0 then item else chains[b][j - 1];
  }

  /** Take the k-th item out of a chain. */
  function Without<T>(c: seq<T>, k: nat): seq<T>
    requires k < |c|
  {
    c[..k] + c[k + 1..]
  }

  lemma DropPartition(chains: seq<seq<Item>>, items: set<Item>, b: nat, k: nat)
    requires Partition(chains, items) && b < |chains| && k < |chains[b]|
    ensures Partition(chains[b := Without(chains[b], k)], items - {chains[b][k]})
  {
    var item := chains[b][k];
    var c := Without(chains[b], k);
    var chains' := chains[b := c];
    assert forall j | 0 <= j < |c| :: c[j] == chains[b][if j < k then j else j + 1];
    assert NoDup(c) by { assert NoDup(chains[b]); }
    assert item !in c by { assert NoDup(chains[b]); }
    forall it | it in items - {item}
      ensures it in chains'[it.hash % |chains'|]
    {
      if it.hash % |chains| == b {
        assert it in chains[b];
        var j :| 0 <= j < |chains[b]| && chains[b][j] == it;
        assert c[if j < k then j else j - 1] == it;
      }
    }
  }

  lemma DropLinks(chains: seq<seq<Item>>, links: Links, items: set<Item>, b: nat, k: nat)
    requires Partition(chains, items) && LinkedFrom(chains, links, 0, 0)
    requires b < |chains| && k < |chains[b]|
    ensures LinkedFrom(chains[b := Without(chains[b], k)], Bypass(chains[b], links, k), 0, 0)
  {
    hide Without;
    var links' := Bypass(chains[b], links, k);
    var chains' := chains[b := Without(chains[b], k)];
    assert NoDup(chains[b]) && LinkedChain(chains[b], links);
    DropFromChain(chains[b], links, k);
    forall b', j | 0 <= b' < |chains'| && 0 <= j < |chains'[b']|
      ensures chains'[b'][j] in links' && links'[chains'[b'][j]] == At(chains'[b'], j + 1)
    {
      if b' != b {
        assert chains'[b'] == chains[b'];
        assert links[chains[b'][j]] == At(chains[b'], j + 1);
      } else {
        assert links'[chains'[b][j]] == At(chains'[b], j + 1);
      }
    }
  }

  /** The links after item `k` of a chain has been bypassed. */
  function Bypass(c: seq<Item>, links: Links, k: nat): Links
    requires k < |c|
  {
    if k == 0 then links else links[c[k - 1] := At(c, k + 1)]
  }

  ghost predicate LinkedChain(c: seq<Item>, links: Links) {
    && (forall j | 0 <= j < |c| :: c[j] in links)
    && forall j {:trigger links[c[j]]} | 0 <= j < |c| :: links[c[j]] == At(c, j + 1)
  }

  lemma DropFromChain(c: seq<Item>, links: Links, k: nat)
    requires NoDup(c) && k < |c| && LinkedChain(c, links)
    ensures LinkedChain(Without(c, k), Bypass(c, links, k))
  {
    hide Without, NoDup;
    var links', c' := Bypass(c, links, k), Without(c, k);
    WithoutAt(c, k, 0);
    forall j | 0 <= j < |c'|
      ensures c'[j] in links' && links'[c'[j]] == At(c', j + 1)
    {
      WithoutAt(c, k, j);
      WithoutAt(c, k, j + 1);
      var j0 := if j < k then j else j + 1;
      assert c'[j] == c[j0] && links[c[j0]] == At(c, j0 + 1);
      if k > 0 && j0 != k - 1 {
        Distinct(c, j0, k - 1);
      }
    }
  }

  lemma Distinct(c: seq<Item>, i: nat, j: nat)
    requires NoDup(c) && i < |c| && j < |c| && i != j
    ensures c[i] != c[j]
  {
  }

  lemma WithoutAt(c: seq<Item>, k: nat, j: nat)
    requires k < |c|
    ensures |Without(c, k)| == |c| - 1
    ensures At(Without(c, k), j) == At(c, if j < k then j else j + 1)
  {
  }

  // ----- A resize, as values -----

  /** The state of a resize: chains before `i`, and `k` items of chain `i`, have been moved. */
  ghost predicate Moving(chains: seq<seq<Item>>, items: set<Item>, links: Links,
                         newChains: seq<seq<Item>>, moved: set<Item>, i: nat, k: nat)
  {
    && items <= links.Keys && moved <= items && i <= |chains|
    && Partition(chains, items) && LinkedFrom(chains, links, i, k) && MovedUpTo(chains, moved, i, k)
    && Partition(newChains, moved) && LinkedFrom(newChains, links, 0, 0)
  }

  lemma MoveStart(chains: seq<seq<Item>>, items: set<Item>, links: Links, n: nat)
    requires n > 0 && items <= links.Keys && Partition(chains, items) && LinkedFrom(chains, links, 0, 0)
    ensures Moving(chains, items, links, NoChains(n), {}, 0, 0)
  {
  }

  /** Relinking one item leaves what follows it, and all later chains, as they were. */
  lemma MoveNext(chains: seq<seq<Item>>, items: set<Item>, links: Links,
                 newChains: seq<seq<Item>>, moved: set<Item>, i: nat, k: nat)
    requires Moving(chains, items, links, newChains, moved, i, k) && i < |chains| && k < |chains[i]|
    ensures var p := chains[i][k];
            && p in items && p !in moved && links[p] == At(chains[i], k + 1)
            && Moving(chains, items, links[p := At(newChains[p.hash % |newChains|], 0)],
                      Pushed(newChains, p), moved + {p}, i, k + 1)
  {
    var p := chains[i][k];
    assert p in items && links[p] == At(chains[i], k + 1);
    OnlyOnce(chains, items, i, k);
    PushPartition(newChains, moved, p);
    PushLinks(newChains, moved, links, p);
  }

  lemma OnlyOnce(chains: seq<seq<Item>>, items: set<Item>, i: nat, k: nat)
    requires Partition(chains, items) && i < |chains| && k < |chains[i]|
    ensures forall b, j | 0 <= b < |chains| && 0 <= j < |chains[b]| && chains[b][j] == chains[i][k] :: b == i && j == k
  {
    assert NoDup(chains[i]);
  }

  lemma MoveChainDone(chains: seq<seq<Item>>, items: set<Item>, links: Links,
                      newChains: seq<seq<Item>>, moved: set<Item>, i: nat)
    requires i < |chains| && Moving(chains, items, links, newChains, moved, i, |chains[i]|)
    ensures Moving(chains, items, links, newChains, moved, i + 1, 0)
  {
  }

  lemma MoveDone(chains: seq<seq<Item>>, items: set<Item>, links: Links,
                 newChains: seq<seq<Item>>, moved: set<Item>)
    requires Moving(chains, items, links, newChains, moved, |chains|, 0)
    ensures moved == items && Partition(newChains, items) && LinkedFrom(newChains, links, 0, 0)
  {
    forall it | it in items ensures it in moved {
      assert it in chains[it.hash % |chains|];
    }
  }

  // ----- The table -----

  /** Bookkeeping: operations so far, items moved by all resizes, and whether one could not get memory. */
  datatype Cost = Cost(inserts: nat, deletes: nat, relinked: nat, allocFailed: bool)

  /** The cost after an operation that did, or did not, call for a resize with `n` items. */
  function Charged(c: Cost, resize: bool, allocOk: bool, n: nat): Cost {
    if !resize then c else if allocOk then c.(relinked := c.relinked + n) else c.(allocFailed := true)
  }

  /** Number of items, size and cost; the operations that change them, and a delete that finds nothing. */
  datatype Load = Load(cost: Cost, n: nat, i: nat)

  const EMPTY := Load(Cost(0, 0, 0, false), 0, 0)

  datatype Op = Insertion(allocOk: bool) | Deletion(resizeOk: bool, allocOk: bool) | Miss

  /** What all resizes so far have cost, and how full the table can be, if memory never ran out. */
  ghost predicate PaidFor(l: Load) {
    && l.i <= LAST && l.cost.inserts == l.n + l.cost.deletes
    && (!l.cost.allocFailed ==>
          && l.cost.relinked + Potential(l.n, l.i) <= 3 * l.cost.inserts + 2 * l.cost.deletes
          && (l.i < LAST ==> l.n <= 2 * Size(l.i)))
  }

  /** Tables grow beyond two items a bucket, and shrink when less than half full. */
  function After(op: Op, l: Load): (l': Load)
    requires l.i <= LAST
    ensures l'.i <= LAST
  {
    match op
    case Insertion(allocOk) =>
      var grow := l.i < LAST && l.n + 1 > 2 * Size(l.i);
      Load(Charged(l.cost.(inserts := l.cost.inserts + 1), grow, allocOk, l.n + 1), l.n + 1,
           if grow && allocOk then l.i + 1 else l.i)
    case Deletion(resizeOk, allocOk) =>
      if l.n == 0 then l
      else
        var shrink := resizeOk && l.i > 0 && l.n - 1 < Size(l.i) / 2;
        Load(Charged(l.cost.(deletes := l.cost.deletes + 1), shrink, allocOk, l.n - 1), l.n - 1,
             if shrink && allocOk then l.i - 1 else l.i)
    case Miss => l
  }

  /** Every operation keeps the account, whether memory can be had or not. */
  lemma OpIsPaid(op: Op, l: Load)
    requires PaidFor(l)
    ensures PaidFor(After(op, l))
  {
    hide CHOICES, Potential, Size, PaidFor, Charged;
    if op.Insertion? {
      InsertionIsPaid(op, l);
    } else if op.Deletion? && l.n > 0 {
      DeletionIsPaid(op, l);
    }
  }

  lemma InsertionIsPaid(op: Op, l: Load)
    requires PaidFor(l) && op.Insertion?
    ensures PaidFor(After(op, l))
  {
    hide CHOICES;
    if l.i < LAST {
      GrowthIsPaid(l.i);
    }
  }

  lemma DeletionIsPaid(op: Op, l: Load)
    requires PaidFor(l) && op.Deletion? && l.n > 0
    ensures PaidFor(After(op, l))
  {
    hide CHOICES;
    if l.i > 0 && l.n - 1 < Size(l.i) / 2 {
      ShrinkageIsPaid(l.n - 1, l.i);
    }
  }

  /** A run from an empty table. */
  function Run(ops: seq<Op>): (l: Load)
    ensures l.i <= LAST
  {
    if ops == [] then EMPTY else After(ops[|ops| - 1], Run(ops[..|ops| - 1]))
  }

  lemma {:induction false} RunIsPaid(ops: seq<Op>)
    ensures var l := Run(ops);
            && PaidFor(l) && l.cost.inserts <= |ops|
            && (l.cost.allocFailed ==> exists i :: 0 <= i < |ops| && !ops[i].Miss? && !ops[i].allocOk)
    decreases |ops|
  {
    hide CHOICES, PaidFor, Size;
    if ops == [] {
      EmptyIsPaid();
    } else {
      var op, l := ops[|ops| - 1], Run(ops[..|ops| - 1]);
      RunIsPaid(ops[..|ops| - 1]);
      OpIsPaid(op, l);
    }
  }

  lemma EmptyIsPaid()
    ensures PaidFor(EMPTY)
  {
    hide CHOICES;
  }

  /**
   If memory can be had, all resizes of a run together move at most five items for
   each insert, and the table is never overfull.
   */
  lemma RunIsCheap(ops: seq<Op>)
    requires forall i | 0 <= i < |ops| :: ops[i].Miss? || ops[i].allocOk
    ensures var l := Run(ops);
            && l.cost.relinked <= 3 * l.cost.inserts + 2 * l.cost.deletes <= 5 * l.cost.inserts <= 5 * |ops|
            && (l.i < LAST ==> l.n <= 2 * Size(l.i))
  {
    hide CHOICES, Run, Potential, Size;
    RunIsPaid(ops);
  }

  /** The table as a value. */
  datatype View = View(items: set<Item>, chains: seq<seq<Item>>, links: Links, cost: Cost)

  /** Every item once in its chain, every link to the next item. */
  ghost predicate Shape(n: nat, items: set<Item>, chains: seq<seq<Item>>, links: Links) {
    && n == |chains| > 0 && items <= links.Keys
    && Partition(chains, items) && LinkedFrom(chains, links, 0, 0)
  }

  class Table {
    var buckets: array<Item?>
    var index: nat
    var numEntries: nat
    ghost var view: View

    ghost function Items(): set<Item>
      reads this
    {
      view.items
    }

    ghost predicate Valid()
      reads this, buckets, view.items
    {
      && index <= LAST && buckets.Length == Size(index)
      && numEntries == |view.items|
      && Shape(buckets.Length, view.items, view.chains, view.links)
      && (forall b | 0 <= b < buckets.Length :: buckets[b] == At(view.chains[b], 0))
      && (forall it | it in view.items :: it.next == view.links[it] && it.hashval == it.hash)
    }

    ghost predicate Paid()
      reads this
    {
      PaidFor(Usage())
    }

    ghost function Usage(): Load
      reads this
    {
      Load(view.cost, numEntries, index)
    }

    constructor ()
      ensures Valid() && Paid() && Items() == {} && Usage() == EMPTY && fresh(buckets)
    {
      hide PaidFor, Potential;
      EmptyIsPaid();
      buckets := new Item?[7](_ => null);
      index, numEntries, view := 0, 0, View({}, NoChains(7), map[], Cost(0, 0, 0, false));
    }

    /** The loops that move everything from the old buckets into the new. */
    method MoveAll(newBuckets: array<Item?>, ghost items: set<Item>, ghost chains: seq<seq<Item>>, ghost links: Links)
      returns (ghost newChains: seq<seq<Item>>, ghost newLinks: Links)
      requires Shape(buckets.Length, items, chains, links) && newBuckets != buckets && newBuckets.Length > 0
      requires forall b | 0 <= b < buckets.Length :: buckets[b] == At(chains[b], 0)
      requires forall it | it in items :: it.next == links[it] && it.hashval == it.hash
      requires forall b | 0 <= b < newBuckets.Length :: newBuckets[b] == null
      modifies newBuckets, items`next
      ensures Shape(newBuckets.Length, items, newChains, newLinks)
      ensures forall b | 0 <= b < newBuckets.Length :: newBuckets[b] == At(newChains[b], 0)
      ensures forall it | it in items :: it.next == newLinks[it]
    {
      hide Moving, Partition, LinkedFrom;
      newChains, newLinks := NoChains(newBuckets.Length), links;
      ghost var moved: set<Item> := {};
      MoveStart(chains, items, links, newBuckets.Length);
      var i := 0;
      while i < buckets.Length
        invariant i <= buckets.Length && newBuckets.Length == |newChains| && items <= newLinks.Keys
        invariant Moving(chains, items, newLinks, newChains, moved, i, 0)
        invariant forall b | 0 <= b < newBuckets.Length :: newBuckets[b] == At(newChains[b], 0)
        invariant forall it | it in items :: it.next == newLinks[it]
      {
        newChains, newLinks, moved := MoveChain(buckets[i], i, newBuckets, items, chains, newChains, newLinks, moved);
        i := i + 1;
      }
      MoveDone(chains, items, newLinks, newChains, moved);
    }

    static method MoveChain(p0: Item?, ghost i: nat, newBuckets: array<Item?>, ghost items: set<Item>,
                            ghost chains: seq<seq<Item>>,
                            ghost newChains0: seq<seq<Item>>, ghost newLinks0: Links, ghost moved0: set<Item>)
      returns (ghost newChains: seq<seq<Item>>, ghost newLinks: Links, ghost moved: set<Item>)
      requires i < |chains| && newBuckets.Length == |newChains0| > 0 && p0 == At(chains[i], 0)
      requires items <= newLinks0.Keys && Moving(chains, items, newLinks0, newChains0, moved0, i, 0)
      requires forall b | 0 <= b < newBuckets.Length :: newBuckets[b] == At(newChains0[b], 0)
      requires forall it | it in items :: it.next == newLinks0[it] && it.hashval == it.hash
      modifies newBuckets, items`next
      ensures items <= newLinks.Keys && newBuckets.Length == |newChains|
      ensures Moving(chains, items, newLinks, newChains, moved, i + 1, 0)
      ensures forall b | 0 <= b < newBuckets.Length :: newBuckets[b] == At(newChains[b], 0)
      ensures forall it | it in items :: it.next == newLinks[it]
    {
      hide Moving, Partition, LinkedFrom;
      newChains, newLinks, moved := newChains0, newLinks0, moved0;
      var p := p0;
      ghost var k := 0;
      while p != null
        invariant k <= |chains[i]| && p == At(chains[i], k)
        invariant items <= newLinks.Keys && newBuckets.Length == |newChains|
        invariant Moving(chains, items, newLinks, newChains, moved, i, k)
        invariant forall b | 0 <= b < newBuckets.Length :: newBuckets[b] == At(newChains[b], 0)
        invariant forall it | it in items :: it.next == newLinks[it]
        decreases |chains[i]| - k
      {
        MoveNext(chains, items, newLinks, newChains, moved, i, k);
        var nxt := p.next;
        var j := p.hashval % newBuckets.Length;
        p.next := newBuckets[j];
        newBuckets[j] := p;
        newLinks := newLinks[p := At(newChains[j], 0)];
        newChains := Pushed(newChains, p);
        moved := moved + {p};
        p := nxt;
        k := k + 1;
      }
      MoveChainDone(chains, items, newLinks, newChains, moved, i);
    }

    /**
     Move every item to a bucket array of the next larger or smaller size.  If no
     memory can be had for it the table stays as it is.
     */
    method Resize(dir: int, allocOk: bool)
      requires Valid() && (dir == 1 || dir == -1)
      modifies this`buckets, this`index, this`view, Items()`next
      ensures Valid() && Items() == old(Items()) && (buckets == old(buckets) || fresh(buckets))
      ensures var stuck := (dir == -1 && old(index) == 0) || (dir == 1 && old(index) == LAST);
              && index == (if stuck || !allocOk then old(index) else old(index) + dir)
              && view.cost == (if stuck then old(view.cost)
                               else if !allocOk then old(view.cost).(allocFailed := true)
                               else old(view.cost).(relinked := old(view.cost).relinked + |Items()|))
    {
      hide Partition, LinkedFrom, CHOICES, At, Size, Shape;
      if (dir == -1 && index == 0) || (dir == 1 && index == LAST) {
        return;
      }
      if !allocOk {
        view := view.(cost := view.cost.(allocFailed := true));
        return;
      }
      Gaps(if dir == 1 then index else index - 1);
      var newBuckets := new Item?[Size(index + dir)](_ => null);
      ghost var newChains, newLinks := MoveAll(newBuckets, view.items, view.chains, view.links);
      buckets, index := newBuckets, index + dir;
      view := View(view.items, newChains, newLinks, view.cost.(relinked := view.cost.relinked + |view.items|));
    }

    /** Link a new item in front of its chain; grow the table when there are more than two items a bucket. */
    method Insert(item: Item?, allocOk: bool) returns (r: int)
      requires Valid() && Paid() && item !in Items()
      modifies this, buckets, Items(), item
      ensures Valid() && Paid() && (buckets == old(buckets) || fresh(buckets))
      ensures item == null ==> r == -1 && Items() == old(Items())
      ensures item != null ==> r == 0 && Items() == old(Items()) + {item}
      ensures Usage() == if item == null then old(Usage()) else After(Insertion(allocOk), old(Usage()))
    {
      hide Partition, LinkedFrom, CHOICES, Shape, At, Size, PaidFor;
      if item == null {
        return -1;
      }
      OpIsPaid(Insertion(allocOk), Usage());
      Link(item);
      if index < LAST && numEntries > 2 * Size(index) {
        Resize(1, allocOk);
      }
      return 0;
    }

    /** A matching item, if and only if there is one; items that match must hash alike. */
    method Find(candidate: Item?) returns (found: Item?)
      requires Valid()
      requires candidate != null ==> forall it | it in Items() :: it.key == candidate.key ==> it.hash == candidate.hash
      ensures found != null ==> candidate != null && found in Items() && found.key == candidate.key
      ensures found == null <==> candidate == null || forall it | it in Items() :: it.key != candidate.key
    {
      hide Partition, LinkedFrom, CHOICES, Size, Shape;
      if candidate == null {
        return null;
      }
      ghost var n, v0 := buckets.Length, view;
      ShapeSize(n, v0.items, v0.chains, v0.links);
      var v := candidate.hash % buckets.Length;
      var ptr := buckets[v];
      ghost var c := v0.chains[v];
      ghost var k := 0;
      while ptr != null
        invariant k <= |c| && ptr == At(c, k)
        invariant forall j | 0 <= j < k :: c[j].key != candidate.key
        decreases |c| - k
      {
        InChain(n, v0.items, v0.chains, v0.links, v, k);
        if candidate.key == ptr.key {
          return ptr;
        }
        ptr := ptr.next;
        k := k + 1;
      }
      forall it | it in Items()
        ensures it.key != candidate.key
      {
        var j := Located(n, v0.items, v0.chains, v0.links, it);
      }
      return null;
    }

    /** Take an item out; unless resizing is unwelcome, shrink the table when less than half full. */
    method Delete(item: Item?, resizeOk: bool, allocOk: bool) returns (r: int, ghost k: nat)
      requires Valid() && Paid()
      modifies this, buckets, Items()
      ensures Valid() && Paid() && (buckets == old(buckets) || (resizeOk && fresh(buckets)))
      ensures r == (if item in old(Items()) then 0 else -1)
      ensures Items() == old(Items()) - {item}
      ensures r == 0 && !resizeOk ==> Dropped(old(view.chains), item, k, view.chains)
      ensures Usage() == if r == 0 then After(Deletion(resizeOk, allocOk), old(Usage())) else old(Usage())
    {
      hide Partition, LinkedFrom, CHOICES, Shape, At, Size, Without, Dropped, PaidFor;
      if item == null {
        return -1, 0;
      }
      var found;
      found, k := Unlink(item);
      if !found {
        return -1, 0;
      }
      OpIsPaid(Deletion(resizeOk, allocOk), old(Usage()));
      if resizeOk && index > 0 && numEntries < Size(index) / 2 {
        Resize(-1, allocOk);
      }
      return 0, k;
    }

    /** Find the link to the item, in its bucket or in the item before it, and lead it past. */
    method Unlink(item: Item) returns (found: bool, ghost k: nat)
      requires Valid()
      modifies this`numEntries, this`view, buckets, Items()`next
      ensures Valid() && found == (item in old(Items())) && Items() == old(Items()) - {item}
      ensures numEntries == old(numEntries) - (if found then 1 else 0)
      ensures found ==> Dropped(old(view.chains), item, k, view.chains)
      ensures view.cost == if found then old(view.cost).(deletes := old(view.cost).deletes + 1) else old(view.cost)
    {
      hide Partition, LinkedFrom, CHOICES, Size, Shape, Without;
      ghost var n, v0 := buckets.Length, view;
      ShapeSize(n, v0.items, v0.chains, v0.links);
      var v := item.hashval % buckets.Length;
      k := 0;
      if item in v0.items {
        k := Located(n, v0.items, v0.chains, v0.links, item);
      }
      InChain(n, v0.items, v0.chains, v0.links, v, 0);
      if buckets[v] == item {
        LeadPast(null, v, item, k);
        return true, k;
      }
      var ptr := Predecessor(buckets[v], item, v, k);
      if ptr == null {
        return false, 0;
      }
      LeadPast(ptr, v, item, k);
      return true, k;
    }

    method LeadPast(prev: Item?, v: nat, item: Item, ghost k: nat)
      requires Valid() && v < |view.chains| && k < |view.chains[v]| && view.chains[v][k] == item &&
               v == item.hash % |view.chains|
      requires prev == if k == 0 then null else view.chains[v][k - 1]
      modifies this`numEntries, this`view, buckets, Items()`next
      ensures Valid() && Items() == old(Items()) - {item} && numEntries == old(numEntries) - 1
      ensures Dropped(old(view.chains), item, k, view.chains)
      ensures view.cost == old(view.cost).(deletes := old(view.cost).deletes + 1)
    {
      hide Partition, LinkedFrom, CHOICES, Size, Shape, Without;
      ShapeSize(buckets.Length, view.items, view.chains, view.links);
      UnlinkShape(buckets.Length, view.items, view.chains, view.links, v, k);
      InChain(buckets.Length, view.items, view.chains, view.links, v, k);
      if prev == null {
        buckets[v] := item.next;
      } else {
        prev.next := item.next;
      }
      numEntries := numEntries - 1;
      view := View(view.items - {item}, view.chains[v := Without(view.chains[v], k)],
                   Bypass(view.chains[v], view.links, k), view.cost.(deletes := view.cost.deletes + 1));
    }

    /** Walk chain `v` to the item whose link leads to `item`. */
    method Predecessor(head: Item?, item: Item, ghost v: nat, ghost k: nat) returns (ptr: Item?)
      requires Valid() && v < buckets.Length && head == buckets[v] != item
      requires var c := view.chains[v];
               item in Items() ==> 0 < k < |c| && c[k] == item && forall j | 0 <= j < |c| :: c[j] == item ==> j == k
      ensures ptr != null <==> item in Items()
      ensures ptr != null ==> 0 < k && ptr == view.chains[v][k - 1]
    {
      hide Partition, LinkedFrom, CHOICES, Size, Shape;
      ghost var n, v0 := buckets.Length, view;
      ShapeSize(n, v0.items, v0.chains, v0.links);
      ghost var c := v0.chains[v];
      InChain(n, v0.items, v0.chains, v0.links, v, 0);
      ptr := head;
      ghost var j := 0;
      while ptr != null
        invariant j <= |c| && ptr == At(c, j)
        invariant item in v0.items ==> j < k
        decreases |c| - j
      {
        InChain(n, v0.items, v0.chains, v0.links, v, j);
        InChain(n, v0.items, v0.chains, v0.links, v, j + 1);
        if ptr.next == item {
          assert c[j + 1] == item && j + 1 == k;
          return ptr;
        }
        assert j + 1 < |c| ==> c[j + 1] != item;
        ptr := ptr.next;
        j := j + 1;
      }
    }

    /** The item after `cur` in the order of the chains, or the first item; null at the end. */
    method Next(cur: Item?) returns (nxt: Item?)
      requires Valid() && (cur == null || cur in Items())
      ensures cur == null ==> nxt == At(Flat(view.chains, 0), 0)
      ensures cur != null ==> exists k | 0 <= k < |Flat(view.chains, 0)| :: Flat(view.chains, 0)[k] == cur
      ensures cur != null ==> forall k | 0 <= k < |Flat(view.chains, 0)| && Flat(view.chains, 0)[k] == cur ::
                nxt == At(Flat(view.chains, 0), k + 1)
    {
      hide Partition, LinkedFrom, CHOICES, Size, Shape, Flat;
      ghost var n, v0 := buckets.Length, view;
      ShapeSize(n, v0.items, v0.chains, v0.links);
      var startBucket := 0;
      ghost var pos := 0;
      if cur != null {
        ghost var j := Located(n, v0.items, v0.chains, v0.links, cur);
        ghost var v := cur.hash % n;
        InChain(n, v0.items, v0.chains, v0.links, v, j);
        pos := FlatPosition(n, v0.items, v0.chains, v0.links, v, j);
        if cur.next != null {
          return cur.next;
        }
        startBucket := cur.hashval % buckets.Length + 1;
      } else {
        FlatFrom(v0.chains, 0);
      }
      ghost var rest := Flat(v0.chains, startBucket);
      for i := startBucket to buckets.Length
        invariant startBucket <= buckets.Length && Flat(v0.chains, i) == rest
      {
        FlatFrom(v0.chains, i);
        if buckets[i] != null {
          return buckets[i];
        }
      }
      FlatFrom(v0.chains, n);
      return null;
    }

    method Link(item: Item)
      requires Valid() && item !in Items()
      modifies this`numEntries, this`view, buckets, item
      ensures Valid() && Items() == old(Items()) + {item} && numEntries == old(numEntries) + 1
      ensures view.cost == old(view.cost).(inserts := old(view.cost).inserts + 1)
    {
      hide Partition, LinkedFrom, CHOICES, Size, Shape;
      LinkShape(buckets.Length, view.items, view.chains, view.links, item);
      var v := item.hash;
      item.hashval := v;
      v := v % buckets.Length;
      item.next := buckets[v];
      buckets[v] := item;
      numEntries := numEntries + 1;
      view := View(view.items + {item}, Pushed(view.chains, item), view.links[item := At(view.chains[v], 0)],
                   view.cost.(inserts := view.cost.inserts + 1));
    }
  }

  /** All items from chain `b` on, chain by chain. */
  function Flat(chains: seq<seq<Item>>, b: nat): seq<Item>
    decreases |chains| - b
  {
    if b >= |chains| then [] else chains[b] + Flat(chains, b + 1)
  }

  lemma FlatFrom(chains: seq<seq<Item>>, b: nat)
    ensures b >= |chains| ==> Flat(chains, b) == []
    ensures b < |chains| ==> Flat(chains, b) == chains[b] + Flat(chains, b + 1)
    ensures b < |chains| && chains[b] != [] ==> At(Flat(chains, b), 0) == chains[b][0]
    ensures b < |chains| && chains[b] == [] ==> Flat(chains, b) == Flat(chains, b + 1)
  {
  }

  /** An item of the listing is in a chain, and the chain is where its hash says. */
  lemma {:induction false} FlatIn(chains: seq<seq<Item>>, items: set<Item>, b: nat, x: Item)
    requires Partition(chains, items) && x in Flat(chains, b)
    ensures x in items && x.hash % |chains| >= b
    decreases |chains| - b
  {
    if x in chains[b] {
      var j :| 0 <= j < |chains[b]| && chains[b][j] == x;
    } else {
      FlatIn(chains, items, b + 1, x);
    }
  }

  lemma {:induction false} FlatNoDup(chains: seq<seq<Item>>, items: set<Item>, b: nat)
    requires Partition(chains, items)
    ensures NoDup(Flat(chains, b))
    decreases |chains| - b
  {
    if b < |chains| {
      FlatNoDup(chains, items, b + 1);
      var c, rest := chains[b], Flat(chains, b + 1);
      assert NoDup(c);
      forall i, j | 0 <= i < j < |c + rest|
        ensures (c + rest)[i] != (c + rest)[j]
      {
        if i < |c| <= j {
          assert rest[j - |c|] in rest;
          FlatIn(chains, items, b + 1, rest[j - |c|]);
        }
      }
    }
  }

  lemma {:induction false} FlatHas(chains: seq<seq<Item>>, b: nat, v: nat, j: nat) returns (k: nat)
    requires b <= v < |chains| && j < |chains[v]|
    ensures k < |Flat(chains, b)| && Flat(chains, b)[k] == chains[v][j]
    ensures Flat(chains, b)[k + 1..] == chains[v][j + 1..] + Flat(chains, v + 1)
    decreases v - b
  {
    if b == v {
      k := j;
    } else {
      var k' := FlatHas(chains, b + 1, v, j);
      k := |chains[b]| + k';
      assert Flat(chains, b)[k + 1..] == Flat(chains, b + 1)[k' + 1..];
    }
  }

  /** The listing shows every item once, so the number of entries is the total length of the chains. */
  lemma FlatIsItems(chains: seq<seq<Item>>, items: set<Item>)
    requires Partition(chains, items)
    ensures NoDup(Flat(chains, 0)) && (set x | x in Flat(chains, 0)) == items && |Flat(chains, 0)| == |items|
  {
    var f := Flat(chains, 0);
    FlatNoDup(chains, items, 0);
    forall x | x in f
      ensures x in items
    {
      FlatIn(chains, items, 0, x);
    }
    forall x | x in items
      ensures x in f
    {
      var v := x.hash % |chains|;
      assert x in chains[v];
      var j :| 0 <= j < |chains[v]| && chains[v][j] == x;
      var k := FlatHas(chains, 0, v, j);
    }
    assert (set x | x in f) == items;
    NoDupCount(f);
  }

  lemma {:induction false} NoDupCount(f: seq<Item>)
    requires NoDup(f)
    ensures |set x | x in f| == |f|
  {
    if f == [] {
      assert (set x | x in f) == {};
    } else {
      var init, last := f[..|f| - 1], f[|f| - 1];
      NoDupCount(init);
      assert f == init + [last];
      assert (set x | x in f) == (set x | x in init) + {last};
    }
  }

  /** Position of an item in the listing, and what follows it. */
  lemma FlatPosition(n: nat, items: set<Item>, chains: seq<seq<Item>>, links: Links, v: nat, j: nat) returns (k: nat)
    requires Shape(n, items, chains, links) && v < |chains| && j < |chains[v]|
    ensures var f := Flat(chains, 0);
            && k < |f| && f[k] == chains[v][j]
            && (forall i | 0 <= i < |f| && f[i] == chains[v][j] :: i == k)
            && At(f, k + 1) == if j + 1 < |chains[v]| then chains[v][j + 1] else At(Flat(chains, v + 1), 0)
  {
    k := FlatHas(chains, 0, v, j);
    FlatNoDup(chains, items, 0);
    var f := Flat(chains, 0);
    var rest := chains[v][j + 1..] + Flat(chains, v + 1);
    assert At(f, k + 1) == At(f[k + 1..], 0);
    assert At(rest, 0) == if j + 1 < |chains[v]| then chains[v][j + 1] else At(Flat(chains, v + 1), 0);
  }

  /** `after` is `before` without `item`, the k-th of its chain. */
  ghost predicate Dropped(before: seq<seq<Item>>, item: Item, k: nat, after: seq<seq<Item>>) {
    && |before| > 0
    && var b := item.hash % |before|;
       && k < |before[b]| && before[b][k] == item
       && after == before[b := Without(before[b], k)]
  }

  lemma UnlinkShape(n: nat, items: set<Item>, chains: seq<seq<Item>>, links: Links, b: nat, k: nat)
    requires Shape(n, items, chains, links) && b < |chains| && k < |chains[b]|
    ensures var item := chains[b][k];
            && item in items && (k > 0 ==> chains[b][k - 1] in items && chains[b][k - 1] != item)
            && Shape(n, items - {item}, chains[b := Without(chains[b], k)], Bypass(chains[b], links, k))
            && At(Without(chains[b], k), 0) == if k == 0 then At(chains[b], 1) else At(chains[b], 0)
  {
    hide Without;
    WithoutAt(chains[b], k, 0);
    var item := chains[b][k];
    OnlyOnce(chains, items, b, k);
    DropPartition(chains, items, b, k);
    DropLinks(chains, links, items, b, k);
  }

  lemma ShapeSize(n: nat, items: set<Item>, chains: seq<seq<Item>>, links: Links)
    requires Shape(n, items, chains, links)
    ensures n == |chains| > 0 && items <= links.Keys
  {
  }

  lemma Located(n: nat, items: set<Item>, chains: seq<seq<Item>>, links: Links, item: Item) returns (k: nat)
    requires Shape(n, items, chains, links) && item in items
    ensures var c := chains[item.hash % n];
            k < |c| && c[k] == item && forall j | 0 <= j < |c| :: c[j] == item ==> j == k
  {
    assert NoDup(chains[item.hash % n]);
    assert item in chains[item.hash % n];
    k :| 0 <= k < |chains[item.hash % n]| && chains[item.hash % n][k] == item;
  }

  lemma InChain(n: nat, items: set<Item>, chains: seq<seq<Item>>, links: Links, b: nat, j: nat)
    requires Shape(n, items, chains, links) && b < n
    ensures j < |chains[b]| ==> chains[b][j] in items && links[chains[b][j]] == At(chains[b], j + 1)
    ensures j >= |chains[b]| ==> At(chains[b], j) == null
  {
  }

  lemma LinkShape(n: nat, items: set<Item>, chains: seq<seq<Item>>, links: Links, item: Item)
    requires Shape(n, items, chains, links) && item !in items
    ensures n == |chains| > 0 && items <= links.Keys
    ensures Shape(n, items + {item}, Pushed(chains, item), links[item := At(chains[item.hash % n], 0)])
  {
    hide Partition, LinkedFrom, At;
    PushPartition(chains, items, item);
    PushLinks(chains, items, links, item);
  }
}
