/** What catalogue pulls make of one supplier product, as values: the row of a key after a
    pull, and after a whole history of pulls. */
module Catalog {
  import opened Wrappers

  /** Kind, category and offer identify a supplier product. */
  datatype Key = Key(kind: string, category: string, offer: string)

  /** The fields the content hash covers. */
  datatype Content = Content(
    name: string, price: int, currency: string, stock: int,
    region: Option<string>, platform: Option<string>, minQuantity: int, maxQuantity: int)

  /** The fields it does not cover. */
  datatype Extra = Extra(categoryName: Option<string>, regionRestricted: bool, raw: string)

  datatype Item = Item(key: Key, content: Content, extra: Extra)

  /** What the title parser finds in a name. */
  datatype Parts = Parts(core: string, region: Option<string>, platform: Option<string>)

  type Parser = string -> Parts

  /** The columns derived from the content. */
  datatype Fields = Fields(
    name: string, normalized: string, region: Option<string>, platform: Option<string>,
    price: int, currency: string, stock: nat, minQuantity: nat, maxQuantity: nat)

  /** The hash is collision-free, so it is modelled by the content itself. */
  datatype Row = Row(key: Key, fields: Fields, extra: Extra, hash: Content, missing: int, active: bool)

  function Max(a: int, b: int): int {
    if a >= b then a else b
  }

  /** Python's `first or second`: an empty string counts as missing. */
  function OrElse(first: Option<string>, second: Option<string>): Option<string> {
    if first.Some? && first.value != "" then first else second
  }

  function Derive(parse: Parser, c: Content): Fields {
    var parts := parse(c.name);
    var minQuantity := Max(1, c.minQuantity);
    Fields(c.name, parts.core, OrElse(c.region, parts.region), OrElse(c.platform, parts.platform),
           c.price, c.currency, Max(0, c.stock), minQuantity,
           Max(minQuantity, if c.maxQuantity == 0 then 1 else c.maxQuantity))
  }

  function Apply(parse: Parser, item: Item): Row {
    Row(item.key, Derive(parse, item.content), item.extra, item.content, 0, true)
  }

  /** A row whose item was in the pull; `shortcut` skips unchanged content. */
  function Touch(parse: Parser, row: Option<Row>, item: Item, shortcut: bool): Row {
    if row.None? || row.value.hash != item.content || !shortcut then Apply(parse, item)
    else row.value.(missing := 0, active := true)
  }

  /** A row whose item was not in the pull. */
  function Age(row: Row, threshold: int): Row {
    if !row.active then row
    else row.(missing := row.missing + 1, active := row.missing + 1 < threshold)
  }

  /** The first item with this key; later ones are duplicates and are ignored. */
  function First(items: seq<Item>, k: Key): Option<Item> {
    if items == [] then None
    else
      var earlier := First(items[..|items| - 1], k);
      if earlier.Some? then earlier
      else if items[|items| - 1].key == k then Some(items[|items| - 1])
      else None
  }

  function Pulled(parse: Parser, row: Option<Row>, items: seq<Item>, k: Key, threshold: int, shortcut: bool)
    : Option<Row>
  {
    var item := First(items, k);
    if item.Some? then Some(Touch(parse, row, item.value, shortcut))
    else if row.Some? then Some(Age(row.value, threshold))
    else None
  }

  /** The row of `k` after a history of pulls, starting from an empty table. */
  function After(parse: Parser, history: seq<seq<Item>>, k: Key, threshold: int, shortcut: bool): Option<Row> {
    if history == [] then None
    else
      var before := history[..|history| - 1];
      Pulled(parse, After(parse, before, k, threshold, shortcut), history[|history| - 1], k, threshold, shortcut)
  }

  /******* Activity is decided by history *******/

  predicate Appears(items: seq<Item>, k: Key) {
    First(items, k).Some?
  }

  lemma {:induction false} AppearsIffListed(items: seq<Item>, k: Key)
    ensures Appears(items, k) <==> exists i :: 0 <= i < |items| && items[i].key == k
    ensures Appears(items, k) ==> First(items, k).value.key == k
  {
    if items != [] {
      AppearsIffListed(items[..|items| - 1], k);
    }
  }

  /** How many of the most recent pulls in a row did not list the key. */
  function TrailingMisses(history: seq<seq<Item>>, k: Key): nat {
    if history == [] || Appears(history[|history| - 1], k) then 0
    else 1 + TrailingMisses(history[..|history| - 1], k)
  }

  /** The misses a row survives; a threshold below one acts as one. */
  function Grace(threshold: int): (g: nat)
    ensures g >= 1
  {
    Max(1, threshold)
  }

  lemma {:induction false} MissesSeeTheLastPulls(history: seq<seq<Item>>, k: Key, last: nat)
    ensures TrailingMisses(history, k) < last && TrailingMisses(history, k) < |history|
       <==> exists i :: 0 <= i < |history| && |history| - last <= i && Appears(history[i], k)
    ensures TrailingMisses(history, k) <= |history|
  {
    if history != [] {
      var before, pull := history[..|history| - 1], history[|history| - 1];
      MissesSeeTheLastPulls(before, k, if last == 0 then 0 else last - 1);
      if last > 0 && Appears(pull, k) {
        assert Appears(history[|history| - 1], k);
      }
      if last > 0 && !Appears(pull, k) {
        if TrailingMisses(before, k) < last - 1 && TrailingMisses(before, k) < |before| {
          var i :| 0 <= i < |before| && |before| - (last - 1) <= i && Appears(before[i], k);
          assert Appears(history[i], k);
        }
        if i :| 0 <= i < |history| && |history| - last <= i && Appears(history[i], k) {
          assert Appears(before[i], k);
        }
      }
    }
  }

  /** Main result: a key has a row exactly when some pull listed it; the row is active
      exactly when one of the last N pulls did, and its counter is the number of trailing
      misses capped at N. */
  lemma {:induction false} ActivityIsDecidedByHistory(parse: Parser, history: seq<seq<Item>>, k: Key,
                                                      threshold: int, shortcut: bool)
    ensures var row := After(parse, history, k, threshold, shortcut);
      var misses, n := TrailingMisses(history, k), Grace(threshold);
      && (row.Some? <==> exists i :: 0 <= i < |history| && Appears(history[i], k))
      && (row.Some? ==>
            && row.value.key == k
            && (row.value.active <==>
                  exists i :: 0 <= i < |history| && |history| - n <= i && Appears(history[i], k))
            && row.value.missing == if misses < n then misses else n)
  {
    var n := Grace(threshold);
    MissesSeeTheLastPulls(history, k, n);
    MissesSeeTheLastPulls(history, k, |history|);
    if history != [] {
      var before, pull := history[..|history| - 1], history[|history| - 1];
      ActivityIsDecidedByHistory(parse, before, k, threshold, shortcut);
      MissesSeeTheLastPulls(before, k, n);
      MissesSeeTheLastPulls(before, k, |before|);
      AppearsIffListed(pull, k);
    }
  }

  /******* The hash shortcut refines applying every item *******/

  /** The derived columns are those of the content the hash was taken of. */
  ghost predicate Derived(parse: Parser, row: Row) {
    row.fields == Derive(parse, row.hash)
  }

  lemma {:induction false} RowsAreDerived(parse: Parser, history: seq<seq<Item>>, k: Key,
                                          threshold: int, shortcut: bool)
    ensures var row := After(parse, history, k, threshold, shortcut); row.Some? ==> Derived(parse, row.value)
  {
    if history != [] {
      RowsAreDerived(parse, history[..|history| - 1], k, threshold, shortcut);
    }
  }

  /** The columns a row must have for what the supplier lists. */
  ghost predicate Shows(parse: Parser, f: Fields, c: Content) {
    && f.name == c.name && f.price == c.price && f.currency == c.currency
    && f.normalized == parse(c.name).core
    && f.stock == (if c.stock < 0 then 0 else c.stock)
    && f.minQuantity == (if c.minQuantity < 1 then 1 else c.minQuantity)
    && f.minQuantity <= f.maxQuantity
    && (c.maxQuantity >= f.minQuantity ==> f.maxQuantity == c.maxQuantity)
    && (c.maxQuantity < f.minQuantity ==> f.maxQuantity == f.minQuantity)
    && (c.region.Some? && c.region.value != "" ==> f.region == c.region)
    && (c.region in {None, Some("")} ==> f.region == parse(c.name).region)
    && (c.platform.Some? && c.platform.value != "" ==> f.platform == c.platform)
    && (c.platform in {None, Some("")} ==> f.platform == parse(c.name).platform)
  }

  /** The last item the supplier listed for the key, the first of its pull. */
  function LastListed(history: seq<seq<Item>>, k: Key): Option<Item> {
    if history == [] then None
    else
      var listed := First(history[|history| - 1], k);
      if listed.Some? then listed else LastListed(history[..|history| - 1], k)
  }

  /** Main result: after any history, with the shortcut or without it, the columns of a row
      show what the supplier listed last for its key, and its hash is of that content. */
  lemma {:induction false} LastListingIsStored(parse: Parser, history: seq<seq<Item>>, k: Key,
                                               threshold: int, shortcut: bool)
    ensures var row, item := After(parse, history, k, threshold, shortcut), LastListed(history, k);
      && (row.Some? <==> item.Some?)
      && (row.Some? ==> row.value.hash == item.value.content && Shows(parse, row.value.fields, item.value.content))
      && (row.Some? && !shortcut ==> row.value.extra == item.value.extra)
  {
    if history != [] {
      LastListingIsStored(parse, history[..|history| - 1], k, threshold, shortcut);
    }
  }

  /** Main result: over any history, skipping unchanged items leaves everything but the
      uncovered fields as if every first occurrence had been applied. */
  lemma {:induction false} ShortcutRefinesApplying(parse: Parser, history: seq<seq<Item>>, k: Key, threshold: int)
    ensures var fast := After(parse, history, k, threshold, true);
      var slow := After(parse, history, k, threshold, false);
      && (fast.Some? <==> slow.Some?)
      && (fast.Some? ==> fast.value == slow.value.(extra := fast.value.extra))
  {
    if history != [] {
      var before, pull := history[..|history| - 1], history[|history| - 1];
      ShortcutRefinesApplying(parse, before, k, threshold);
      RowsAreDerived(parse, before, k, threshold, true);
      ActivityIsDecidedByHistory(parse, before, k, threshold, true);
      AppearsIffListed(pull, k);
    }
  }

  /** Skipping an item equals applying it exactly when the content differs, so that it is
      not skipped, or the uncovered fields are the same. */
  lemma SkippingIsExactIff(parse: Parser, row: Row, item: Item)
    requires Derived(parse, row) && row.key == item.key
    ensures Touch(parse, Some(row), item, true) == Touch(parse, Some(row), item, false)
       <==> row.hash != item.content || row.extra == item.extra
  {
    if row.hash == item.content {
      assert Touch(parse, Some(row), item, true).extra == row.extra;
    }
  }

  /** A supplier that starts to restrict a product's regions, and changes nothing else, is
      not heard. */
  lemma ANewRestrictionIsMissed(parse: Parser, k: Key, c: Content)
    ensures var open := Item(k, c, Extra(None, false, ""));
      var restricted := Item(k, c, Extra(None, true, ""));
      var row := After(parse, [[open], [restricted]], k, 2, true);
      row.Some? && !row.value.extra.regionRestricted
  {
    var open := Item(k, c, Extra(None, false, ""));
    var restricted := Item(k, c, Extra(None, true, ""));
    FirstOfOne(open);
    FirstOfOne(restricted);
    assert [[open], [restricted]][..1] == [[open]] && [[open]][..0] == [];
    assert After(parse, [[open]], k, 2, true) == Some(Apply(parse, open));
  }

  lemma FirstOfOne(item: Item)
    ensures First([item], item.key) == Some(item)
  {
    assert [item][..0] == [];
  }
}
