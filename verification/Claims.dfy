/** The mapping table, its unique constraint on the store product, and the engine's cache of
    claimed store products, as values. */
module Claims {
  import opened Wrappers
  import opened Matching

  type SupplierId = nat

  datatype Mapping = Mapping(status: Status, product: Option<nat>, score: Option<real>)

  type Table = map<SupplierId, Mapping>

  /** The unique constraint: no store product is in two rows, whatever their status. */
  ghost predicate OneToOne(table: Table) {
    forall a, b :: a in table && b in table && a != b && table[a].product.Some? ==> table[a].product != table[b].product
  }

  predicate Live(m: Mapping) {
    m.status == Auto || m.status == Approved || m.status == Pending
  }

  predicate Decided(m: Mapping) {
    m.status == Approved || m.status == RejectedPair
  }

  /** The products held by live rows. */
  function LiveProducts(table: Table): (held: set<nat>)
    ensures forall p :: p in held <==> exists a :: a in table && Live(table[a]) && table[a].product == Some(p)
  {
    set a | a in table && Live(table[a]) && table[a].product.Some? :: table[a].product.value
  }

  /** `claimed` is the cache; it is filled by the first search. */
  datatype Engine = Engine(table: Table, claimed: Option<set<nat>>)

  function Loaded(e: Engine): set<nat> {
    if e.claimed.Some? then e.claimed.value else LiveProducts(e.table)
  }

  function Current(table: Table, a: SupplierId): Option<nat> {
    if a in table then table[a].product else None
  }

  /** What a search for `a` may not propose: the product rejected for it, and claimed
      products other than its own. */
  function Blocked(e: Engine, a: SupplierId): set<nat> {
    var rejected := if a in e.table && e.table[a].status == RejectedPair && e.table[a].product.Some?
                    then {e.table[a].product.value} else {};
    rejected + (set p | p in Loaded(e) && Current(e.table, a) != Some(p))
  }

  /** A supplier product to match, with its shortlist. */
  datatype Work = Work(supplier: SupplierId, parts: TitleParts, shortlist: seq<StoreProduct>, ratio: nat -> real)

  function Outcome(e: Engine, w: Work, limits: Limits): MatchOutcome {
    Evaluate(Candidates(Search(w.parts, w.shortlist, Blocked(e, w.supplier), w.ratio), limits), limits)
  }

  predicate Taken(table: Table, a: SupplierId, product: Option<nat>) {
    product.Some? && exists b :: b in table && b != a && table[b].product == product
  }

  datatype Written = Stored(engine: Engine) | ConstraintViolated

  /** Writes an outcome; a human decision is left as it is. */
  function Apply(e: Engine, a: SupplierId, o: MatchOutcome): Written {
    if a in e.table && Decided(e.table[a]) then Stored(e)
    else
      var product := if o.best.Some? then Some(o.best.value.id) else None;
      var score := if o.best.Some? then Some(o.best.value.score) else None;
      if Taken(e.table, a, product) then ConstraintViolated
      else
        var table := e.table[a := Mapping(o.status, product, score)];
        var e1 := e.(table := table);
        Stored(if product.Some? && (o.status == Auto || o.status == Pending)
               then e1.(claimed := Some(Loaded(e1) + {product.value})) else e1)
  }

  function Match(e: Engine, w: Work, limits: Limits): Written {
    Apply(e.(claimed := Some(Loaded(e))), w.supplier, Outcome(e, w, limits))
  }

  /** A run stops, and is rolled back, when the constraint is violated. */
  function Run(e: Engine, works: seq<Work>, limits: Limits): Written
    decreases works
  {
    if works == [] then Stored(e)
    else match Match(e, works[0], limits)
      case ConstraintViolated => ConstraintViolated
      case Stored(e1) => Run(e1, works[1..], limits)
  }

  /** The cache contains every product a live row holds. */
  ghost predicate Covers(e: Engine) {
    e.claimed.Some? ==> LiveProducts(e.table) <= e.claimed.value
  }

  ghost predicate Inv(e: Engine) {
    OneToOne(e.table) && Covers(e)
  }

  /** Approved and rejected rows keep every field. */
  ghost predicate DecisionsKept(before: Table, after: Table) {
    forall a :: a in before && Decided(before[a]) ==> a in after && after[a] == before[a]
  }

  lemma {:induction false} ScoredAreNotBlocked(s: Search, shortlist: seq<StoreProduct>)
    ensures forall c :: c in Scored(s, shortlist) ==> c.id !in s.blocked
  {
    if shortlist != [] {
      ScoredAreNotBlocked(s, shortlist[..|shortlist| - 1]);
    }
  }

  lemma BestIsNotBlocked(e: Engine, w: Work, limits: Limits)
    ensures var best := Outcome(e, w, limits).best; best.Some? ==> best.value.id !in Blocked(e, w.supplier)
  {
    var s := Search(w.parts, w.shortlist, Blocked(e, w.supplier), w.ratio);
    ScoredAreNotBlocked(s, s.shortlist);
    var scored := Scored(s, s.shortlist);
    SortSorts(scored);
    if Candidates(s, limits) != [] {
      assert SortByScore(scored)[0] in multiset(SortByScore(scored));
    }
  }

  lemma MatchKeeps(e: Engine, w: Work, limits: Limits)
    requires Inv(e)
    ensures var r := Match(e, w, limits);
      && (r.Stored? ==> Inv(r.engine) && DecisionsKept(e.table, r.engine.table))
      && (r.ConstraintViolated? <==> BlockedByDeadRow(e, w, limits))
  {
    BestIsNotBlocked(e, w, limits);
    var o := Outcome(e, w, limits);
    var r := Match(e, w, limits);
    var a := w.supplier;
    if r.ConstraintViolated? {
      var b :| b in e.table && b != a && e.table[b].product == Some(o.best.value.id);
      assert Live(e.table[b]) ==> o.best.value.id in LiveProducts(e.table);
      assert !Live(e.table[b]);
    } else if !(a in e.table && Decided(e.table[a])) {
      forall p | p in LiveProducts(r.engine.table)
        ensures p in r.engine.claimed.value
      {
        var b :| b in r.engine.table && Live(r.engine.table[b]) && r.engine.table[b].product == Some(p);
        if b != a {
          assert p in LiveProducts(e.table);
        }
      }
    }
  }

  /** Nobody has decided, and the product the engine wants is in an unmatched or rejected
      row of another supplier product. */
  ghost predicate BlockedByDeadRow(e: Engine, w: Work, limits: Limits) {
    var best := Outcome(e, w, limits).best;
    && best.Some? && !(w.supplier in e.table && Decided(e.table[w.supplier]))
    && exists b :: b in e.table && b != w.supplier && e.table[b].product == Some(best.value.id)
                   && e.table[b].status in {Unmatched, RejectedPair}
  }

  /** The run gets as far as `at`, and there the constraint fires. */
  ghost predicate StopsAt(e: Engine, works: seq<Work>, limits: Limits, i: nat, at: Engine) {
    i < |works| && Run(e, works[..i], limits) == Stored(at) && Match(at, works[i], limits).ConstraintViolated?
  }

  ghost predicate StopsAtDeadRow(e: Engine, works: seq<Work>, limits: Limits, i: nat, at: Engine) {
    StopsAt(e, works, limits, i, at) && Inv(at) && BlockedByDeadRow(at, works[i], limits)
  }

  /** A stop in the rest of a run is a stop in the run. */
  lemma StopsOneLater(e: Engine, works: seq<Work>, limits: Limits, i: nat, at: Engine)
    requires works != [] && Match(e, works[0], limits).Stored?
    requires StopsAtDeadRow(Match(e, works[0], limits).engine, works[1..], limits, i, at)
    ensures StopsAtDeadRow(e, works, limits, i + 1, at)
  {
    var first := works[..i + 1];
    assert first[1..] == works[1..][..i] && first[0] == works[0];
    assert Run(e, first, limits) == Run(Match(e, first[0], limits).engine, first[1..], limits);
    assert works[i + 1] == works[1..][i];
  }

  lemma StopsAtOnce(e: Engine, works: seq<Work>, limits: Limits)
    requires Inv(e) && works != [] && Match(e, works[0], limits).ConstraintViolated?
    ensures StopsAtDeadRow(e, works, limits, 0, e)
  {
    MatchKeeps(e, works[0], limits);
    assert works[..0] == [];
  }

  lemma {:induction false} RunStopsAtDeadRow(e: Engine, works: seq<Work>, limits: Limits) returns (i: nat, at: Engine)
    requires Inv(e) && Run(e, works, limits).ConstraintViolated?
    ensures StopsAtDeadRow(e, works, limits, i, at)
    decreases works
  {
    if Match(e, works[0], limits).ConstraintViolated? {
      StopsAtOnce(e, works, limits);
      i, at := 0, e;
    } else {
      MatchKeeps(e, works[0], limits);
      i, at := RunStopsAtDeadRow(Match(e, works[0], limits).engine, works[1..], limits);
      StopsOneLater(e, works, limits, i, at);
      i := i + 1;
    }
  }

  lemma {:induction false} RunKeeps(e: Engine, works: seq<Work>, limits: Limits)
    requires Inv(e)
    ensures var r := Run(e, works, limits);
      r.Stored? ==> Inv(r.engine) && DecisionsKept(e.table, r.engine.table)
    decreases works
  {
    if works != [] {
      MatchKeeps(e, works[0], limits);
      if Match(e, works[0], limits).Stored? {
        RunKeeps(Match(e, works[0], limits).engine, works[1..], limits);
      }
    }
  }

  /** Main result: from one-to-one mappings and an empty cache, a whole run keeps the mappings
      one-to-one, the cache covering every live row, and every human decision; the unique
      constraint can only fire against an unmatched or rejected row. */
  lemma RunKeepsClaims(table: Table, works: seq<Work>, limits: Limits)
    requires OneToOne(table)
    ensures var r := Run(Engine(table, None), works, limits);
      && (r.Stored? ==> Inv(r.engine) && DecisionsKept(table, r.engine.table))
      && (r.ConstraintViolated? ==>
            exists i: nat, at :: StopsAtDeadRow(Engine(table, None), works, limits, i, at))
  {
    var e := Engine(table, None);
    RunKeeps(e, works, limits);
    if Run(e, works, limits).ConstraintViolated? {
      var i, at := RunStopsAtDeadRow(e, works, limits);
    }
  }

  /** Main result: what a search may not propose for `a`, with the cache freshly loaded: the
      product that was rejected for it, and those that live rows of others hold. */
  lemma BlockedIff(table: Table, a: SupplierId, p: nat)
    requires OneToOne(table)
    ensures p in Blocked(Engine(table, None), a) <==>
      || (a in table && table[a].status == RejectedPair && table[a].product == Some(p))
      || exists b :: b in table && b != a && table[b].status in {Auto, Approved, Pending} && table[b].product == Some(p)
  {
    assert p in LiveProducts(table) <==> exists b :: b in table && Live(table[b]) && table[b].product == Some(p);
  }

  /** At any time in a run, neither is ever proposed. */
  lemma NeverProposed(e: Engine, w: Work, limits: Limits, b: SupplierId, p: nat)
    requires Inv(e) && b in e.table && e.table[b].product == Some(p)
    requires b == w.supplier ==> e.table[b].status == RejectedPair
    requires b != w.supplier ==> e.table[b].status in {Auto, Approved, Pending}
    ensures var best := Outcome(e, w, limits).best; best.Some? ==> best.value.id != p
  {
    BestIsNotBlocked(e, w, limits);
    if b != w.supplier {
      assert Live(e.table[b]) && p in LiveProducts(e.table);
      assert Current(e.table, w.supplier) != Some(p);
    }
  }

  /** What a search finds is what is stored: status, product and score, unless a human has
      decided; no other row changes. */
  lemma MatchIsStored(e: Engine, w: Work, limits: Limits)
    requires Match(e, w, limits).Stored?
    ensures var e1, o := Match(e, w, limits).engine, Outcome(e, w, limits);
      && (forall b :: b != w.supplier ==> (b in e1.table <==> b in e.table))
      && (forall b :: b != w.supplier && b in e.table ==> e1.table[b] == e.table[b])
      && (w.supplier in e.table && e.table[w.supplier].status in {Approved, RejectedPair} ==> e1.table == e.table)
      && (!(w.supplier in e.table && e.table[w.supplier].status in {Approved, RejectedPair}) ==>
            && w.supplier in e1.table && e1.table[w.supplier].status == o.status
            && (o.best.None? ==> e1.table[w.supplier].product.None? && e1.table[w.supplier].score.None?)
            && (o.best.Some? ==>
                  && e1.table[w.supplier].product == Some(o.best.value.id)
                  && e1.table[w.supplier].score == Some(o.best.value.score)))
      && e1.claimed.Some?
  {
  }

  /** A run that is not stopped leaves a row for everything it was given. */
  lemma {:induction false} RunCoversAll(e: Engine, works: seq<Work>, limits: Limits)
    requires Run(e, works, limits).Stored?
    ensures forall a :: a in e.table ==> a in Run(e, works, limits).engine.table
    ensures forall i :: 0 <= i < |works| ==> works[i].supplier in Run(e, works, limits).engine.table
    decreases works
  {
    if works != [] {
      var r := Match(e, works[0], limits);
      MatchIsStored(e, works[0], limits);
      RunCoversAll(r.engine, works[1..], limits);
      forall i | 0 <= i < |works|
        ensures works[i].supplier in Run(e, works, limits).engine.table
      {
        if i > 0 {
          assert works[i] == works[1..][i - 1];
        }
      }
    }
  }

  /** A poor match is stored with its product, and claims nothing. */
  lemma UnmatchedRowKeepsItsProduct(e: Engine, a: SupplierId, parts: TitleParts, p: StoreProduct, score: real)
    requires e.table == map[] && e.claimed.None?
    requires 0.0 < ScorePair(parts, p.parts, score) < DEFAULTS.review
    ensures Match(e, Work(a, parts, [p], id => score), DEFAULTS)
         == Stored(Engine(map[a := Mapping(Unmatched, Some(p.id), Some(ScorePair(parts, p.parts, score)))], Some({})))
  {
    var w := Work(a, parts, [p], id => score);
    assert LiveProducts(e.table) == {} && Blocked(e, a) == {};
    OneOnShortlist(parts, p, Blocked(e, a), w.ratio);
    assert Outcome(e, w, DEFAULTS).status == Unmatched;
  }

  /** A row that is not live still keeps its product from the next one. */
  lemma DeadRowBlocks(e: Engine, a: SupplierId, b: SupplierId, parts: TitleParts, p: StoreProduct, score: real)
    requires b in e.table && b != a && e.table[b].product == Some(p.id)
    requires a !in e.table && e.claimed == Some({}) && ScorePair(parts, p.parts, score) > 0.0
    ensures Match(e, Work(a, parts, [p], id => score), DEFAULTS) == ConstraintViolated
  {
    var w := Work(a, parts, [p], id => score);
    assert Blocked(e, a) == {};
    OneOnShortlist(parts, p, Blocked(e, a), w.ratio);
    assert Taken(e.table, a, Some(p.id));
  }

  /** That case is real: an unmatched row keeps the product it fell short of, so the next
      supplier product that matches it well stops the whole run. */
  lemma AnUnmatchedRowStopsTheRun()
    ensures var x := TitleParts("x", Some("steam"), Some("GLOBAL"), None, {"x"}, None);
      var y := x.(tokens := {"y"});
      var p := StoreProduct(1, x);
      var works := [Work(10, y, [p], id => 0.5), Work(20, x, [p], id => 1.0)];
      Run(Engine(map[], None), works, DEFAULTS) == ConstraintViolated
  {
    var x := TitleParts("x", Some("steam"), Some("GLOBAL"), None, {"x"}, None);
    var y := x.(tokens := {"y"});
    var p := StoreProduct(1, x);
    var works := [Work(10, y, [p], id => 0.5), Work(20, x, [p], id => 1.0)];
    var e := Engine(map[], None);
    assert "x" !in y.tokens;
    assert y.tokens * x.tokens == {} && x.tokens * x.tokens == {"x"} && x.tokens + x.tokens == {"x"};
    UnmatchedRowKeepsItsProduct(e, 10, y, p, 0.5);
    var e1 := Match(e, works[0], DEFAULTS).engine;
    DeadRowBlocks(e1, 20, 10, x, p, 1.0);
    assert works[1..][0] == works[1];
    assert Run(e1, works[1..], DEFAULTS) == ConstraintViolated;
  }

  lemma OneOnShortlist(parts: TitleParts, p: StoreProduct, blocked: set<nat>, ratio: nat -> real)
    requires p.id !in blocked && ScorePair(parts, p.parts, ratio(p.id)) > 0.0
    ensures Candidates(Search(parts, [p], blocked, ratio), DEFAULTS)
         == [Candidate(p.id, ScorePair(parts, p.parts, ratio(p.id)))]
  {
    var s := Search(parts, [p], blocked, ratio);
    var c := Candidate(p.id, ScoreOf(s, p));
    assert [p][..0] == [];
    assert Scored(s, [p]) == [c];
    assert [c][1..] == [] && SortByScore([c]) == [c];
  }

  /******* Human decisions *******/

  datatype Review = NotFound | AlreadyMapped | NothingToApprove | Violated | Reviewed(table: Table)

  /** The clash check looks at automatic and approved rows only. */
  predicate Clashes(table: Table, a: SupplierId, product: nat) {
    exists b :: b in table && b != a && table[b].product == Some(product) && table[b].status in {Auto, Approved}
  }

  function Approve(table: Table, a: SupplierId, override: Option<nat>): Review {
    if a !in table then NotFound
    else if override.Some? && Clashes(table, a, override.value) then AlreadyMapped
    else
      var product := if override.Some? then override else table[a].product;
      if product.None? then NothingToApprove
      else if Taken(table, a, product) then Violated
      else Reviewed(table[a := table[a].(status := Approved, product := product)])
  }

  function Reject(table: Table, a: SupplierId): Review {
    if a !in table then NotFound else Reviewed(table[a := table[a].(status := RejectedPair)])
  }

  /** A review keeps the mappings one-to-one and changes no other row; an approval is refused
      by the constraint alone exactly when it names a product that a pending, unmatched or
      rejected row holds. */
  lemma ReviewsKeepOneToOne(table: Table, a: SupplierId, override: Option<nat>)
    requires OneToOne(table)
    ensures var r := Approve(table, a, override);
      && (r.Reviewed? ==> OneToOne(r.table) && r.table[a].status == Approved)
      && (r.Reviewed? ==> forall b :: b != a && b in table ==> b in r.table && r.table[b] == table[b])
      && (r.Violated? <==>
            (a in table && override.Some? && Taken(table, a, override) && !Clashes(table, a, override.value)))
    ensures var r := Reject(table, a); r.Reviewed? ==> OneToOne(r.table) && r.table[a].product == table[a].product
  {
  }

  /** What each answer to an approval means. */
  lemma ApprovalsMean(table: Table, a: SupplierId, override: Option<nat>)
    ensures var r := Approve(table, a, override);
      && (r.NotFound? <==> a !in table)
      && (r.AlreadyMapped? <==>
            && a in table && override.Some?
            && exists b :: b in table && b != a && table[b].status in {Auto, Approved} && table[b].product == override)
      && (r.NothingToApprove? <==> a in table && override.None? && table[a].product.None?)
      && (r.Reviewed? ==>
            && r.table[a].status == Approved && r.table[a].score == table[a].score
            && r.table[a].product == if override.Some? then override else table[a].product)
  {
  }

  /** A rejected pair is never suggested again: in every later run its row stays rejected and
      its product is never proposed for it. */
  lemma RejectedForGood(table: Table, a: SupplierId, works: seq<Work>, limits: Limits, w: Work)
    requires OneToOne(table) && a in table && table[a].product.Some?
    requires Run(Engine(Reject(table, a).table, None), works, limits).Stored? && w.supplier == a
    ensures var e := Run(Engine(Reject(table, a).table, None), works, limits).engine;
      && a in e.table && e.table[a].status == RejectedPair && e.table[a].product == table[a].product
      && var best := Outcome(e, w, limits).best; (best.Some? ==> Some(best.value.id) != table[a].product)
  {
    var rejected := Reject(table, a).table;
    ReviewsKeepOneToOne(table, a, None);
    RunKeepsClaims(rejected, works, limits);
    var e := Run(Engine(rejected, None), works, limits).engine;
    assert Decided(rejected[a]);
    NeverProposed(e, w, limits, a, table[a].product.value);
  }
}
