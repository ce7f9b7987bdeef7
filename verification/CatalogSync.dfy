/** The supplier catalogue sync in the source's own form: a table of rows, an index of the
    rows that existed before the pull, and a growing set of seen keys. */
module CatalogSync {
  import opened Wrappers
  import opened Catalog

  /** The row of a key in a table. */
  function Find(table: seq<Row>, k: Key): Option<Row> {
    if table == [] then None
    else if table[0].key == k then Some(table[0])
    else Find(table[1..], k)
  }

  /** No key has two rows. */
  ghost predicate Unique(table: seq<Row>) {
    forall i, j :: 0 <= i < j < |table| ==> table[i].key != table[j].key
  }

  lemma {:induction false} FindAt(table: seq<Row>, i: nat)
    requires Unique(table) && i < |table|
    ensures Find(table, table[i].key) == Some(table[i])
  {
    if i > 0 {
      FindAt(table[1..], i - 1);
    }
  }

  lemma {:induction false} FindNone(table: seq<Row>, k: Key)
    requires forall i :: 0 <= i < |table| ==> table[i].key != k
    ensures Find(table, k) == None
  {
    if table != [] {
      FindNone(table[1..], k);
    }
  }

  /** What the first loop has made of row `i` of the table `was` after the items so far. */
  ghost predicate RowFits(parse: Parser, was: seq<Row>, row: Row, i: nat, items: seq<Item>) {
    var item := First(items, row.key);
    if i < |was| then
      && row.key == was[i].key
      && row == if item.Some? then Touch(parse, Some(was[i]), item.value, true) else was[i]
    else
      item.Some? && row == Touch(parse, None, item.value, true)
  }

  ghost predicate HasKey(table: seq<Row>, k: Key) {
    exists i :: 0 <= i < |table| && table[i].key == k
  }

  ghost predicate Absorbed(parse: Parser, was: seq<Row>, table: seq<Row>, items: seq<Item>, seen: set<Key>) {
    && |was| <= |table| && Unique(table)
    && (forall k :: k in seen <==> Appears(items, k))
    && (forall k :: k in seen ==> HasKey(table, k))
    && (forall i :: 0 <= i < |table| ==> RowFits(parse, was, table[i], i, items))
  }

  lemma FirstExtends(before: seq<Item>, item: Item, k: Key)
    ensures First(before + [item], k) ==
      (if First(before, k).Some? then First(before, k) else if item.key == k then Some(item) else None)
  {
    assert (before + [item])[..|before|] == before;
  }

  lemma AbsorbSeen(parse: Parser, was: seq<Row>, table: seq<Row>, before: seq<Item>, seen: set<Key>, item: Item)
    requires Absorbed(parse, was, table, before, seen) && item.key in seen
    ensures Absorbed(parse, was, table, before + [item], seen)
  {
    forall k { FirstExtends(before, item, k); }
    forall i | 0 <= i < |table|
      ensures RowFits(parse, was, table[i], i, before + [item])
    {
      assert RowFits(parse, was, table[i], i, before);
    }
  }

  /** The row at `j`, an old one or the one just appended, takes the new item. */
  lemma AbsorbNew(parse: Parser, was: seq<Row>, table: seq<Row>, next: seq<Row>, j: nat,
                  before: seq<Item>, seen: set<Key>, item: Item)
    requires Absorbed(parse, was, table, before, seen) && item.key !in seen
    requires |table| <= |next| && j < |next| && (|next| == |table| || (|next| == |table| + 1 && j == |table|))
    requires forall i :: 0 <= i < |table| && i != j ==> next[i] == table[i]
    requires if j < |was| then was[j].key == item.key && next[j] == Touch(parse, Some(was[j]), item, true)
             else j == |table| && !HasKey(table, item.key) && next[j] == Apply(parse, item)
    ensures Absorbed(parse, was, next, before + [item], seen + {item.key})
  {
    forall k { FirstExtends(before, item, k); }
    forall i | 0 <= i < |table|
      ensures RowFits(parse, was, table[i], i, before)
    {
    }
    assert next[j].key == item.key by {
      if j < |was| { assert RowFits(parse, was, table[j], j, before); }
    }
    assert forall i :: 0 <= i < |table| ==> next[i].key == table[i].key by {
      if j < |was| { assert RowFits(parse, was, table[j], j, before); }
    }
    assert Unique(next) by {
      if j == |table| { assert forall i :: 0 <= i < |table| ==> table[i].key != item.key; }
    }
    forall i | 0 <= i < |next|
      ensures RowFits(parse, was, next[i], i, before + [item])
    {
    }
    forall k | k in seen + {item.key}
      ensures HasKey(next, k)
    {
      if k in seen {
        assert HasKey(table, k);
        var i :| 0 <= i < |table| && table[i].key == k;
        assert next[i].key == k;
      }
    }
  }

  class SupplierCatalogSync {
    const parse: Parser
    const threshold: int
    var table: seq<Row>

    constructor (parse: Parser, threshold: int)
      ensures this.parse == parse && this.threshold == threshold && table == []
    {
      this.parse := parse;
      this.threshold := threshold;
      table := [];
    }

    /** The index of the rows by key. */
    method Existing() returns (existing: map<Key, nat>)
      requires Unique(table)
      ensures forall i :: 0 <= i < |table| ==> table[i].key in existing && existing[table[i].key] == i
      ensures forall k :: k in existing ==> existing[k] < |table| && table[existing[k]].key == k
    {
      existing := map[];
      for i := 0 to |table|
        invariant forall j :: 0 <= j < i ==> table[j].key in existing && existing[table[j].key] == j
        invariant forall k :: k in existing ==> existing[k] < i && table[existing[k]].key == k
      {
        existing := existing[table[i].key := i];
      }
    }

    /** One item of the feed. */
    method Absorb(item: Item, ghost was: seq<Row>, ghost before: seq<Item>, existing: map<Key, nat>, seen: set<Key>)
      returns (seen': set<Key>)
      requires Absorbed(parse, was, table, before, seen)
      requires forall i :: 0 <= i < |was| ==> was[i].key in existing
      requires forall k :: k in existing ==> existing[k] < |was| && was[existing[k]].key == k
      modifies this
      ensures Absorbed(parse, was, table, before + [item], seen')
    {
      if item.key in seen {
        AbsorbSeen(parse, was, table, before, seen, item);
        return seen;
      }
      seen' := seen + {item.key};
      ghost var last := table;
      if item.key in existing {
        var j := existing[item.key];
        var row := table[j];
        assert RowFits(parse, was, table[j], j, before);
        if row.hash != item.content {
          row := Apply(parse, item);
        }
        table := table[j := row.(missing := 0, active := true)];
        AbsorbNew(parse, was, last, table, j, before, seen, item);
      } else {
        assert !HasKey(table, item.key) by {
          assert forall i :: 0 <= i < |table| ==> RowFits(parse, was, table[i], i, before);
        }
        table := table + [Apply(parse, item)];
        AbsorbNew(parse, was, last, table, |last|, before, seen, item);
      }
    }

    method Run(items: seq<Item>)
      requires Unique(table)
      modifies this
      ensures Unique(table)
      ensures forall k :: Find(table, k) == Pulled(parse, Find(old(table), k), items, k, threshold, true)
    {
      var count := |table|;
      var existing := Existing();
      var seen: set<Key> := {};
      for i := 0 to |items|
        invariant Absorbed(parse, old(table), table, items[..i], seen)
      {
        seen := Absorb(items[i], old(table), items[..i], existing, seen);
        assert items[..i] + [items[i]] == items[..i + 1];
      }
      assert items[..|items|] == items;
      ghost var absorbed := table;
      for i := 0 to count
        invariant |table| == |absorbed|
        invariant forall j :: 0 <= j < |table| ==>
          table[j] == if j < i && absorbed[j].key !in seen then Age(absorbed[j], threshold) else absorbed[j]
      {
        var row := table[i];
        if row.key in seen || !row.active {
          continue;
        }
        row := row.(missing := row.missing + 1);
        if row.missing >= threshold {
          row := row.(active := false);
        }
        table := table[i := row];
      }
      PulledEverywhere(parse, old(table), absorbed, table, items, seen, threshold);
    }
  }

  /** The table after both loops holds for every key what the pull makes of its row. */
  lemma PulledEverywhere(parse: Parser, was: seq<Row>, absorbed: seq<Row>, table: seq<Row>, items: seq<Item>,
                         seen: set<Key>, threshold: int)
    requires Absorbed(parse, was, absorbed, items, seen) && |table| == |absorbed|
    requires forall j :: 0 <= j < |table| ==>
      table[j] == if j < |was| && absorbed[j].key !in seen then Age(absorbed[j], threshold) else absorbed[j]
    ensures Unique(table)
    ensures forall k :: Find(table, k) == Pulled(parse, Find(was, k), items, k, threshold, true)
  {
    assert forall j :: 0 <= j < |table| ==> table[j].key == absorbed[j].key;
    assert forall j :: 0 <= j < |was| ==> was[j].key == table[j].key by {
      assert forall j :: 0 <= j < |was| ==> RowFits(parse, was, absorbed[j], j, items);
    }
    forall k
      ensures Find(table, k) == Pulled(parse, Find(was, k), items, k, threshold, true)
    {
      if j :| 0 <= j < |table| && table[j].key == k {
        FindAt(table, j);
        assert RowFits(parse, was, absorbed[j], j, items);
        if j < |was| {
          assert was[j].key == k;
          FindAt(was, j);
        } else {
          FindNone(was, k);
        }
      } else {
        FindNone(table, k);
        FindNone(was, k);
        assert !HasKey(absorbed, k);
      }
    }
  }
}
