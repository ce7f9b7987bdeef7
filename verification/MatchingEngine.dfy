/** The matching engine in the source's own form: a mapping table and a set of claimed
    products that its methods change. */
module MatchingEngine {
  import opened Wrappers
  import opened Matching
  import opened Claims

  class Engine {
    const limits: Limits
    var mappings: Table
    var claimed: Option<set<nat>>

    constructor (limits: Limits, mappings: Table)
      ensures this.limits == limits && AsEngine() == Claims.Engine(mappings, None)
    {
      this.limits := limits;
      this.mappings := mappings;
      claimed := None;
    }

    function AsEngine(): Claims.Engine
      reads this
    {
      Claims.Engine(mappings, claimed)
    }

    method ClaimedStoreProducts() returns (held: set<nat>)
      modifies this`claimed
      ensures held == Loaded(old(AsEngine())) && claimed == Some(held)
    {
      if claimed.None? {
        claimed := Some(LiveProducts(mappings));
      }
      held := claimed.value;
    }

    method FindCandidates(w: Work) returns (found: seq<Candidate>)
      modifies this`claimed
      ensures claimed == Some(Loaded(old(AsEngine())))
      ensures found == Candidates(Search(w.parts, w.shortlist, Blocked(old(AsEngine()), w.supplier), w.ratio), limits)
    {
      ghost var s := Search(w.parts, w.shortlist, Blocked(AsEngine(), w.supplier), w.ratio);
      var held := ClaimedStoreProducts();
      var current := Current(mappings, w.supplier);
      var rejected := w.supplier in mappings && mappings[w.supplier].status == RejectedPair;
      var scored: seq<Candidate> := [];
      for i := 0 to |w.shortlist|
        invariant scored == Scored(s, w.shortlist[..i])
      {
        var p := w.shortlist[i];
        assert w.shortlist[..i + 1][..i] == w.shortlist[..i];
        if rejected && current == Some(p.id) {
          continue;
        }
        if p.id in held && current != Some(p.id) {
          continue;
        }
        var score := ScorePair(w.parts, p.parts, w.ratio(p.id));
        if score <= 0.0 {
          continue;
        }
        scored := scored + [Candidate(p.id, score)];
      }
      assert w.shortlist[..|w.shortlist|] == w.shortlist;
      var sorted := SortByScore(scored);
      found := if |sorted| <= limits.maxCandidates then sorted else sorted[..limits.maxCandidates];
    }

    /** `stored` is false when the flush violates the unique constraint. */
    method Apply(a: SupplierId, o: MatchOutcome) returns (stored: bool)
      modifies this
      ensures Wrote(Claims.Apply(old(AsEngine()), a, o), stored)
    {
      if a in mappings && Decided(mappings[a]) {
        return true;
      }
      var product := if o.best.Some? then Some(o.best.value.id) else None;
      var score := if o.best.Some? then Some(o.best.value.score) else None;
      if Taken(mappings, a, product) {
        return false;
      }
      mappings := mappings[a := Mapping(o.status, product, score)];
      if product.Some? && (o.status == Auto || o.status == Pending) {
        var held := ClaimedStoreProducts();
        claimed := Some(held + {product.value});
      }
      stored := true;
    }

    /** The state is the specified one, or unchanged when the constraint was violated. */
    twostate predicate Wrote(w: Written, stored: bool)
      reads this
    {
      if w.Stored? then stored && AsEngine() == w.engine else !stored && mappings == old(mappings)
    }

    method Run(works: seq<Work>) returns (stored: bool)
      requires OneToOne(mappings) && claimed.None?
      modifies this
      ensures var r := Claims.Run(old(AsEngine()), works, limits);
        if r.Stored? then stored && AsEngine() == r.engine else !stored
      ensures stored ==> Inv(AsEngine()) && DecisionsKept(old(mappings), mappings)
    {
      ghost var start := AsEngine();
      RunKeeps(start, works, limits);
      for i := 0 to |works|
        invariant Claims.Run(start, works, limits) == Claims.Run(AsEngine(), works[i..], limits)
      {
        var found := FindCandidates(works[i]);
        var outcome := Evaluate(found, limits);
        var ok := Apply(works[i].supplier, outcome);
        assert works[i..][1..] == works[i + 1..];
        if !ok {
          return false;
        }
      }
      stored := true;
    }
  }
}
