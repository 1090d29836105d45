/**
 The store of reminders already issued (src/dedupe.c), a client of the hash
 table: asking about a reminder answers set membership and remembers it, and
 clearing the store deletes every entry while walking over them.
 */
module Dedupe {
  import opened HashTable

  const NO_TIME := 0x7fff_ffff

  // ----- The hash function -----

  /** A signed char, widened to an unsigned int. */
  function Widen(c: bv8): bv32 {
    if c < 0x80 then c as bv32 else (c as bv32) | 0xffff_ff00
  }

  function HashStep(h: bv32, c: bv8): bv32 {
    var h' := (h << 4) + Widen(c);
    var high := h' & 0xf000_0000;
    (if high != 0 then h' ^ (high >> 24) else h') & !high
  }

  function HashFrom(h: bv32, body: seq<bv8>): bv32
    decreases |body|
  {
    if body == [] then h else HashFrom(HashStep(h, body[0]), body[1..])
  }

  /** Hash values of text keep the top four bits clear. */
  lemma {:induction false} HashIsSmall(h: bv32, body: seq<bv8>)
    requires h & 0xf000_0000 == 0
    ensures HashFrom(h, body) & 0xf000_0000 == 0
    decreases |body|
  {
    if body != [] {
      StepIsSmall((h << 4) + Widen(body[0]));
      HashIsSmall(HashStep(h, body[0]), body[1..]);
    }
  }

  lemma StepIsSmall(h: bv32)
    ensures var high := h & 0xf000_0000;
            ((if high != 0 then h ^ (high >> 24) else h) & !high) & 0xf000_0000 == 0
  {
  }

  function DedupeHash(key: Key): nat {
    var time := if key.triggerTime != NO_TIME then key.triggerTime else 0;
    (key.triggerDate + time + HashFrom(0, key.body) as int) % 0x1_0000_0000
  }

  // ----- The store -----

  class DedupeTable {
    var table: Table

    ghost function Seen(): set<Key>
      reads this, table
    {
      set it | it in table.Items() :: it.key
    }

    ghost predicate Valid()
      reads this, table, table.buckets, table.view.items
    {
      && table.Valid() && table.Paid()
      && forall it | it in table.Items() :: it.hash == DedupeHash(it.key)
    }

    constructor ()
      ensures Valid() && Seen() == {} && fresh(table) && fresh(table.buckets)
    {
      hide Table.Paid, DedupeHash, Shape, Partition, LinkedFrom, At;
      table := new Table();
    }

    /** Whether this very reminder was asked about before; from now on it was. */
    method ShouldDedupe(key: Key, allocOk: bool) returns (r: bool)
      requires Valid()
      modifies table, table.buckets, table.Items()
      ensures Valid() && (table.buckets == old(table.buckets) || fresh(table.buckets))
      ensures forall it | it in table.Items() :: it in old(table.Items()) || fresh(it)
      ensures r <==> key in old(Seen())
      ensures Seen() == old(Seen()) + {key}
    {
      hide Table.Paid, DedupeHash, Shape, Partition, LinkedFrom, At;
      var candidate := new Item(key, DedupeHash(key));
      var found := table.Find(candidate);
      if found != null {
        return true;
      }
      InsertEntry(key, allocOk);
      return false;
    }

    method InsertEntry(key: Key, allocOk: bool)
      requires Valid()
      modifies table, table.buckets, table.Items()
      ensures Valid() && (table.buckets == old(table.buckets) || fresh(table.buckets))
      ensures forall it | it in table.Items() :: it in old(table.Items()) || fresh(it)
      ensures Seen() == old(Seen()) + {key}
    {
      hide Table.Paid, DedupeHash, Shape, Partition, LinkedFrom, At;
      var e := new Item(key, DedupeHash(key));
      var _ := table.Insert(e, allocOk);
      assert table.Items() == old(table.Items()) + {e};
    }

    /** Delete every entry, in the order in which the walk meets them, and start afresh. */
    method Clear() returns (ghost freed: seq<Item>)
      requires Valid()
      modifies this, table, table.buckets, table.Items()
      ensures Valid() && Seen() == {} && fresh(table) && fresh(table.buckets)
      ensures NoDup(freed) && (set it | it in freed) == old(table.Items())
    {
      hide Table.Paid, Shape, DedupeHash, Partition, LinkedFrom, NoDup, Flat;
      freed := DeleteAll(table);
      table := new Table();
    }
  }

  method DeleteAll(table: Table) returns (ghost freed: seq<Item>)
    requires table.Valid() && table.Paid()
    modifies table, table.buckets, table.Items()
    ensures table.Valid() && table.Items() == {}
    ensures NoDup(freed) && (set it | it in freed) == old(table.Items())
  {
    hide Table.Paid, Shape, Partition, LinkedFrom, NoDup, Flat;
    ghost var all := Flat(table.view.chains, 0);
    TableListing(table);
    freed := [];
    var e := table.Next(null);
    while e != null
      invariant table.Valid() && table.Paid() && table.buckets == old(table.buckets)
      invariant table.Items() <= old(table.Items())
      invariant |freed| <= |all| && freed == all[..|freed|] && Flat(table.view.chains, 0) == all[|freed|..]
      invariant e == At(all, |freed|)
      decreases |all| - |freed|
    {
      ghost var n := |freed|;
      e := DeleteFirst(table, e);
      StepOn(all, n);
      freed := freed + [all[n]];
    }
    TableListing(table);
    assert freed == all;
  }

  lemma StepOn(s: seq<Item>, n: nat)
    requires n < |s|
    ensures s[n..][1..] == s[n + 1..] && s[..n] + [s[n]] == s[..n + 1]
    ensures At(s[n + 1..], 0) == At(s, n + 1)
  {
  }

  lemma TableListing(table: Table)
    requires table.Valid()
    ensures var f := Flat(table.view.chains, 0);
            NoDup(f) && (set it | it in f) == table.Items()
  {
    FlatIsItems(table.view.chains, table.Items());
  }

  /** One step of the walk: look up the next entry, then delete this one. */
  method DeleteFirst(table: Table, e: Item) returns (nxt: Item?)
    requires table.Valid() && table.Paid() && e == At(Flat(table.view.chains, 0), 0)
    modifies table, table.buckets, table.Items()
    ensures table.Valid() && table.Paid() && table.buckets == old(table.buckets)
    ensures table.Items() == old(table.Items()) - {e}
    ensures Flat(table.view.chains, 0) == old(Flat(table.view.chains, 0))[1..]
    ensures nxt == At(Flat(table.view.chains, 0), 0)
  {
    hide Table.Paid, Shape, Dropped, Partition, LinkedFrom, NoDup, Flat;
    ghost var chains := table.view.chains;
    TableListing(table);
    assert Flat(chains, 0)[0] in Flat(chains, 0);
    nxt := table.Next(e);
    ghost var r, k := table.Delete(e, false, true);
    FlatDropFirst(chains, e, k, table.view.chains);
  }

  /** Deleting the first item of the listing leaves the rest of the listing. */
  lemma FlatDropFirst(chains: seq<seq<Item>>, e: Item, k: nat, chains': seq<seq<Item>>)
    requires Dropped(chains, e, k, chains') && NoDup(Flat(chains, 0))
    requires |Flat(chains, 0)| > 0 && Flat(chains, 0)[0] == e
    ensures Flat(chains', 0) == Flat(chains, 0)[1..]
  {
    var b := e.hash % |chains|;
    var pos := FlatHas(chains, 0, b, k);
    assert pos == 0;
    DropFirst(chains, b, k, 0);
  }

  /** If an item is the first from chain `from` on, all chains before its own are empty. */
  lemma {:induction false} DropFirst(chains: seq<seq<Item>>, b: nat, k: nat, from: nat)
    requires from <= b < |chains| && k < |chains[b]| && NoDup(Flat(chains, from))
    requires Flat(chains, from) != [] && Flat(chains, from)[0] == chains[b][k]
    ensures Flat(chains[b := Without(chains[b], k)], from) == Flat(chains, from)[1..]
    decreases b - from
  {
    hide Flat;
    var chains' := chains[b := Without(chains[b], k)];
    var c, rest := chains[from], Flat(chains, from + 1);
    FlatFrom(chains, from);
    FlatFrom(chains', from);
    if from == b {
      assert (c + rest)[k] == c[k];
      assert k == 0;
      FlatSame(chains, chains', b + 1);
      assert (c + rest)[1..] == c[1..] + rest;
    } else {
      var j := FlatHas(chains, from + 1, b, k);
      assert (c + rest)[|c| + j] == rest[j];
      assert c == [];
      assert c + rest == rest;
      DropFirst(chains, b, k, from + 1);
    }
  }

  lemma {:induction false} FlatSame(chains: seq<seq<Item>>, chains': seq<seq<Item>>, from: nat)
    requires |chains| == |chains'| && forall b | from <= b < |chains| :: chains[b] == chains'[b]
    ensures Flat(chains, from) == Flat(chains', from)
    decreases |chains| - from
  {
    if from < |chains| {
      FlatSame(chains, chains', from + 1);
    }
  }
}
