/** Walking paged listings: the supplier's cursor pager and the store's numbered pages. */
module Pagers {
  import opened Wrappers

  /** The rows from `start` on, at most `size` of them. */
  function Window<T>(rows: seq<T>, start: nat, size: nat): seq<T> {
    if start >= |rows| then [] else if start + size <= |rows| then rows[start..start + size] else rows[start..]
  }

  /******* Cursors *******/

  datatype CursorPage<T> = CursorPage(items: seq<T>, hasMore: bool, next: Option<string>)

  /** A server that keeps a list and names positions in it by distinct non-empty cursors. */
  ghost predicate ServesList<T(!new)>(server: (nat, Option<string>) -> CursorPage<T>, rows: seq<T>, size: nat,
                                      name: nat -> string)
  {
    && size > 0
    && (forall p, q :: name(p) == name(q) ==> p == q)
    && (forall p :: name(p) != "")
    && (forall n :: server(n, None) == PageAt(rows, size, name, 0))
    && (forall n, p :: server(n, Some(name(p))) == PageAt(rows, size, name, p))
  }

  function PageAt<T>(rows: seq<T>, size: nat, name: nat -> string, p: nat): CursorPage<T> {
    CursorPage(Window(rows, p, size), p + size < |rows|, if p + size < |rows| then Some(name(p + size)) else None)
  }

  ghost predicate NoRepeats<T>(s: seq<T>) {
    forall i, j :: 0 <= i < j < |s| ==> s[i] != s[j]
  }

  /** The walk ends on any server that has finitely many cursors, even one that answers the
      same request differently each time; it requests no cursor twice, and from a server
      that keeps a list it yields the list. */
  method Paged<T(!new)>(server: (nat, Option<string>) -> CursorPage<T>, ghost cursors: set<string>,
                  ghost rows: seq<T>, ghost size: nat, ghost name: nat -> string)
    returns (out: seq<T>, requested: seq<Option<string>>)
    requires forall n, c :: server(n, c).next.Some? ==> server(n, c).next.value in cursors
    ensures |requested| >= 1 && requested[0] == None && NoRepeats(requested)
    ensures forall i :: 1 <= i < |requested| ==> requested[i].Some? && requested[i].value in cursors
    ensures ServesList(server, rows, size, name) ==> out == rows
  {
    var cursor: Option<string> := None;
    var seen: set<string> := {};
    out, requested := [], [];
    ghost var at: nat := 0;
    while true
      invariant NoRepeats(requested + [cursor]) && (requested + [cursor])[0] == None
      invariant forall i :: 1 <= i < |requested + [cursor]| ==>
        (requested + [cursor])[i].Some? && (requested + [cursor])[i].value in seen
      invariant seen <= cursors
      invariant ServesList(server, rows, size, name) ==>
        && at <= |rows| && out == rows[..at] && (forall c :: c in seen ==> exists p: nat :: p <= at && c == name(p))
        && cursor == (if at == 0 then None else Some(name(at)))
      decreases cursors - seen
    {
      var body := server(|requested|, cursor);
      ghost var listed := ServesList(server, rows, size, name);
      if listed {
        assert body == PageAt(rows, size, name, at);
        assert out + body.items == if at + size < |rows| then rows[..at + size] else rows;
      }
      requested := requested + [cursor];
      out := out + body.items;
      if !body.hasMore || body.next.None? || body.next.value == "" {
        return;
      }
      if body.next.value in seen {
        return;
      }
      if listed {
        assert body.next == Some(name(at + size));
        var grown := seen + {name(at + size)};
        assert forall c :: c in grown ==> exists p: nat :: p <= at + size && c == name(p);
      }
      seen := seen + {body.next.value};
      cursor := body.next;
      at := at + size;
    }
  }

  /******* Numbered pages *******/

  /** The rows that parse, in order. */
  function Parsed<D, I>(rows: seq<D>, parse: D -> Option<I>): seq<I> {
    if rows == [] then []
    else
      var before, last := Parsed(rows[..|rows| - 1], parse), parse(rows[|rows| - 1]);
      if last.Some? then before + [last.value] else before
  }

  lemma {:induction false} ParsedAppend<D, I>(a: seq<D>, b: seq<D>, parse: D -> Option<I>)
    ensures Parsed(a + b, parse) == Parsed(a, parse) + Parsed(b, parse)
  {
    if b == [] {
      assert a + b == a;
    } else {
      assert (a + b)[..|a + b| - 1] == a + b[..|b| - 1];
      ParsedAppend(a, b[..|b| - 1], parse);
    }
  }

  /** A page and, if the server says so, the number of rows there are in all. */
  datatype NumberedPage<D> = NumberedPage(rows: seq<D>, total: Option<int>)

  const PRODUCTS_PAGE_SIZE: nat := 20
  const OFFERS_PAGE_SIZE: nat := 100

  ghost predicate NumbersList<D>(server: nat -> NumberedPage<D>, rows: seq<D>, size: nat) {
    forall page: nat :: page >= 1 ==>
      && server(page).rows == Window(rows, (page - 1) * size, size)
      && (server(page).total.Some? ==> server(page).total.value == |rows|)
  }

  /** One more page of a listed server. */
  lemma NextWindow<D, I>(rows: seq<D>, start: nat, size: nat, parse: D -> Option<I>)
    requires start <= |rows| && size > 0
    ensures var window := Window(rows, start, size);
      && start + |window| <= |rows|
      && Parsed(rows[..start + |window|], parse) == Parsed(rows[..start], parse) + Parsed(window, parse)
      && (|window| < size ==> start + |window| == |rows|)
  {
    var window := Window(rows, start, size);
    assert rows[..start + |window|] == rows[..start] + window;
    ParsedAppend(rows[..start], window, parse);
  }

  /** What pages 1 to `n` yield, and how many rows they have. */
  function Yielded<D, I>(server: nat -> NumberedPage<D>, parse: D -> Option<I>, n: nat): seq<I> {
    if n == 0 then [] else Yielded(server, parse, n - 1) + Parsed(server(n).rows, parse)
  }

  function RowsSeen<D>(server: nat -> NumberedPage<D>, n: nat): nat {
    if n == 0 then 0 else RowsSeen(server, n - 1) + |server(n).rows|
  }

  /** The pages 1 to `n`, in order. */
  ghost predicate PagesTo(pages: seq<nat>, n: nat) {
    |pages| == n && forall i :: 0 <= i < n ==> pages[i] == i + 1
  }

  /** Page `n` is not full, or the reported total has been seen, or the cap is reached. */
  predicate CatalogEnds<D>(server: nat -> NumberedPage<D>, maxPages: Option<int>, n: nat) {
    || |server(n).rows| < PRODUCTS_PAGE_SIZE
    || (server(n).total.Some? && RowsSeen(server, n) >= server(n).total.value)
    || (maxPages.Some? && n >= maxPages.value)
  }

  predicate OffersEnd<D>(server: nat -> NumberedPage<D>, n: nat) {
    || |server(n).rows| < OFFERS_PAGE_SIZE
    || (server(n).total.Some? && n * OFFERS_PAGE_SIZE >= server(n).total.value)
  }

  /** After `n` pages of a listed server of which only the last may not be full. */
  lemma {:induction false} ListedSoFar<D, I>(server: nat -> NumberedPage<D>, rows: seq<D>, size: nat,
                                             parse: D -> Option<I>, n: nat)
    requires NumbersList(server, rows, size) && size > 0
    requires forall k :: 1 <= k < n ==> |server(k).rows| >= size
    ensures RowsSeen(server, n) <= |rows| && Yielded(server, parse, n) == Parsed(rows[..RowsSeen(server, n)], parse)
    ensures n > 0 && |server(n).rows| < size ==> RowsSeen(server, n) == |rows|
    ensures n > 0 && |server(n).rows| >= size ==> RowsSeen(server, n) == n * size
  {
    if n > 0 {
      ListedSoFar(server, rows, size, parse, n - 1);
      var start := RowsSeen(server, n - 1);
      assert start == (n - 1) * size && n * size == start + size;
      assert server(n).rows == Window(rows, start, size);
      NextWindow(rows, start, size, parse);
      assert |Window(rows, start, size)| <= size;
    }
  }

  /** A walk that stopped at page `n` for its size or its total has seen the whole list. */
  lemma ListedInFull<D, I>(server: nat -> NumberedPage<D>, rows: seq<D>, size: nat, parse: D -> Option<I>, n: nat)
    requires NumbersList(server, rows, size) && size > 0 && n > 0
    requires forall k :: 1 <= k < n ==> |server(k).rows| >= size
    requires |server(n).rows| < size || (server(n).total.Some? && RowsSeen(server, n) >= server(n).total.value)
    ensures Yielded(server, parse, n) == Parsed(rows, parse)
  {
    ListedSoFar(server, rows, size, parse, n);
    assert RowsSeen(server, n) == |rows| && rows[..|rows|] == rows;
  }

  lemma CatalogIsListed<D, I>(server: nat -> NumberedPage<D>, rows: seq<D>, parse: D -> Option<I>, n: nat)
    requires n > 0 && CatalogEnds(server, None, n) && forall k :: 1 <= k < n ==> !CatalogEnds(server, None, k)
    ensures NumbersList(server, rows, PRODUCTS_PAGE_SIZE) ==> Yielded(server, parse, n) == Parsed(rows, parse)
  {
    forall k | 1 <= k < n
      ensures |server(k).rows| >= PRODUCTS_PAGE_SIZE
    {
      assert !CatalogEnds(server, None, k);
    }
    if NumbersList(server, rows, PRODUCTS_PAGE_SIZE) {
      ListedInFull(server, rows, PRODUCTS_PAGE_SIZE, parse, n);
    }
  }

  lemma OffersAreListed<D, I>(server: nat -> NumberedPage<D>, rows: seq<D>, parse: D -> Option<I>, n: nat)
    requires n > 0 && OffersEnd(server, n) && forall k :: 1 <= k < n ==> !OffersEnd(server, k)
    ensures NumbersList(server, rows, OFFERS_PAGE_SIZE) ==> Yielded(server, parse, n) == Parsed(rows, parse)
  {
    forall k | 1 <= k < n
      ensures |server(k).rows| >= OFFERS_PAGE_SIZE
    {
      assert !OffersEnd(server, k);
    }
    if NumbersList(server, rows, OFFERS_PAGE_SIZE) {
      ListedSoFar(server, rows, OFFERS_PAGE_SIZE, parse, n);
      ListedInFull(server, rows, OFFERS_PAGE_SIZE, parse, n);
    }
  }

  /** Every listed server has a page that is not full, so every walk of one ends. */
  lemma ListedServerEnds<D>(server: nat -> NumberedPage<D>, rows: seq<D>, size: nat)
    requires NumbersList(server, rows, size) && size > 0
    ensures |server(|rows| / size + 1).rows| < size
  {
    assert |rows| < (|rows| / size + 1) * size;
  }

  /** The catalogue crawl asks for pages 1, 2, ... up to the first at which it can end, and
      yields what parses of these; without a page cap that is every parseable row of a
      listed server, once and in order.  `last` is any page at which it can end: without
      one the source does not end either. */
  method IterCatalog<D, I>(server: nat -> NumberedPage<D>, parse: D -> Option<I>, maxPages: Option<int>,
                           ghost last: nat, ghost rows: seq<D>)
    returns (out: seq<I>, pages: seq<nat>)
    requires last >= 1 && CatalogEnds(server, maxPages, last)
    ensures PagesTo(pages, |pages|) && 1 <= |pages| <= last
    ensures CatalogEnds(server, maxPages, |pages|) && forall n :: 1 <= n < |pages| ==> !CatalogEnds(server, maxPages, n)
    ensures out == Yielded(server, parse, |pages|)
    ensures maxPages.None? && NumbersList(server, rows, PRODUCTS_PAGE_SIZE) ==> out == Parsed(rows, parse)
  {
    var page, seen := 1, 0;
    out, pages := [], [];
    while true
      invariant 1 <= page <= last && PagesTo(pages, page - 1)
      invariant forall n :: 1 <= n < page ==> !CatalogEnds(server, maxPages, n)
      invariant seen == RowsSeen(server, page - 1) && out == Yielded(server, parse, page - 1)
      decreases last - page
    {
      var payload := server(page);
      pages := pages + [page];
      if maxPages.None? && CatalogEnds(server, maxPages, page) {
        CatalogIsListed(server, rows, parse, page);
      }
      if payload.rows == [] {
        return;
      }
      out := out + Parsed(payload.rows, parse);
      seen := seen + |payload.rows|;
      if payload.total.Some? && seen >= payload.total.value {
        return;
      }
      if |payload.rows| < PRODUCTS_PAGE_SIZE {
        return;
      }
      page := page + 1;
      if maxPages.Some? && page > maxPages.value {
        return;
      }
    }
  }

  /** The offer listing does the same with pages of a hundred and no cap; it compares the
      total with the full pages asked for. */
  method ListOffers<D, I>(server: nat -> NumberedPage<D>, parse: D -> Option<I>, ghost last: nat, ghost rows: seq<D>)
    returns (out: seq<I>, pages: seq<nat>)
    requires last >= 1 && OffersEnd(server, last)
    ensures PagesTo(pages, |pages|) && 1 <= |pages| <= last
    ensures OffersEnd(server, |pages|) && forall n :: 1 <= n < |pages| ==> !OffersEnd(server, n)
    ensures out == Yielded(server, parse, |pages|)
    ensures NumbersList(server, rows, OFFERS_PAGE_SIZE) ==> out == Parsed(rows, parse)
  {
    var page := 1;
    out, pages := [], [];
    while true
      invariant 1 <= page <= last && PagesTo(pages, page - 1)
      invariant forall n :: 1 <= n < page ==> !OffersEnd(server, n)
      invariant out == Yielded(server, parse, page - 1)
      decreases last - page
    {
      var payload := server(page);
      pages := pages + [page];
      out := out + Parsed(payload.rows, parse);
      if OffersEnd(server, page) {
        OffersAreListed(server, rows, parse, page);
      }
      if payload.rows == [] || |payload.rows| < OFFERS_PAGE_SIZE {
        return;
      }
      if payload.total.Some? && page * OFFERS_PAGE_SIZE >= payload.total.value {
        return;
      }
      page := page + 1;
    }
  }
}
