/** Scoring a supplier title against store titles, and choosing among the candidates. */
module Matching {
  import opened Wrappers

  /** What the title parser found; an empty string counts as not stated. */
  datatype TitleParts = TitleParts(
    core: string, platform: Option<string>, region: Option<string>,
    denomination: Option<Denomination>, tokens: set<string>, edition: Option<string>)

  datatype Denomination = Denomination(amount: real, currency: Option<string>)

  predicate Stated(o: Option<string>) {
    o.Some? && o.value != ""
  }

  predicate Differ(a: Option<string>, b: Option<string>) {
    Stated(a) && Stated(b) && a != b
  }

  function Jaccard(a: set<string>, b: set<string>): real {
    if a == {} || b == {} then 0.0
    else
      assert a + b != {} && |a + b| > 0 by { var x :| x in a; assert x in a + b; }
      |a * b| as real / |a + b| as real
  }

  function Abs(x: real): real {
    if x < 0.0 then -x else x
  }

  predicate DenominationsConflict(a: Option<Denomination>, b: Option<Denomination>) {
    && a.Some? && b.Some?
    && (Abs(a.value.amount - b.value.amount) > 0.001 || Differ(a.value.currency, b.value.currency))
  }

  /** A hard gate makes the pair impossible. */
  predicate Gated(a: TitleParts, b: TitleParts) {
    || DenominationsConflict(a.denomination, b.denomination)
    || (Differ(a.region, b.region) && a.region != Some("GLOBAL") && b.region != Some("GLOBAL"))
    || Differ(a.platform, b.platform)
    || Differ(a.edition, b.edition)
  }

  /** `ratio` is the similarity of the two cores as a sequence matcher sees it. */
  function ScorePair(a: TitleParts, b: TitleParts, ratio: real): real {
    if Gated(a, b) then 0.0
    else
      var region := if Stated(a.region) && Stated(b.region) && a.region == b.region then 1.0
                    else if !Stated(a.region) || !Stated(b.region) then 0.5 else 0.6;
      var platform := if Stated(a.platform) && Stated(b.platform) && a.platform == b.platform then 1.0
                      else if !Stated(a.platform) || !Stated(b.platform) then 0.5 else 0.0;
      var score := 0.55 * Jaccard(a.tokens, b.tokens) + 0.30 * ratio + 0.10 * region + 0.05 * platform;
      if score < 1.0 then score else 1.0
  }

  predicate Ratio(r: real) {
    0.0 <= r <= 1.0
  }

  lemma JaccardBounds(a: set<string>, b: set<string>)
    ensures 0.0 <= Jaccard(a, b) <= 1.0
  {
    if a != {} && b != {} {
      UnionIsLarger(a, b);
      var common, all := |a * b| as real, |a + b| as real;
      assert common <= all && all > 0.0;
      assert common / all <= 1.0;
    }
  }

  lemma UnionIsLarger(a: set<string>, b: set<string>)
    ensures |a * b| <= |a| <= |a + b|
    ensures |a * b| == |a + b| ==> a == b
    ensures a != {} ==> |a + b| > 0
  {
    Subset(a * b, a);
    Subset(a, a + b);
    Subset(b, a + b);
    Subset(a * b, b);
  }

  lemma {:induction false} Subset(a: set<string>, b: set<string>)
    requires a <= b
    ensures |a| <= |b| && (|a| == |b| ==> a == b)
  {
    if a != {} {
      var x :| x in a;
      Subset(a - {x}, b - {x});
      assert a == (a - {x}) + {x} && b == (b - {x}) + {x};
    }
  }

  /** A pair scores zero exactly when a gate rejects it. */
  lemma ZeroIffGated(a: TitleParts, b: TitleParts, ratio: real)
    requires Ratio(ratio)
    ensures 0.0 <= ScorePair(a, b, ratio) <= 1.0
    ensures ScorePair(a, b, ratio) == 0.0 <==> Gated(a, b)
  {
    JaccardBounds(a.tokens, b.tokens);
  }

  /** A score of 0.92 needs a token overlap of at least 47/55; up to six words in all that
      means the same words. */
  lemma HighScoreNeedsOverlap(a: TitleParts, b: TitleParts, ratio: real)
    requires Ratio(ratio) && ScorePair(a, b, ratio) >= 0.92
    ensures Jaccard(a.tokens, b.tokens) >= 47.0 / 55.0
    ensures |a.tokens + b.tokens| <= 6 ==> a.tokens == b.tokens
  {
    var s, t := a.tokens, b.tokens;
    JaccardBounds(s, t);
    assert Jaccard(s, t) >= 47.0 / 55.0;
    UnionIsLarger(s, t);
    if |s + t| <= 6 && s != t {
      assert |s * t| <= |s + t| - 1;
      SixWords(|s * t|, |s + t|);
    }
  }

  lemma SixWords(common: nat, all: nat)
    requires common < all <= 6
    ensures common as real / all as real < 47.0 / 55.0
  {
    assert common as real <= all as real - 1.0;
    assert (all as real - 1.0) / all as real == 1.0 - 1.0 / all as real;
    assert 1.0 / all as real >= 1.0 / 6.0;
    Divide(common as real, all as real - 1.0, all as real);
  }

  lemma Divide(a: real, b: real, c: real)
    requires a <= b && c > 0.0
    ensures a / c <= b / c
  {
  }

  /** Six words is sharp: with seven, titles that differ in a word reach 0.92. */
  lemma SevenWordsMayDiffer()
    ensures var six := {"a", "b", "c", "d", "e", "f"};
      var x := TitleParts("", Some("steam"), Some("GLOBAL"), None, six, None);
      var y := x.(tokens := six + {"deluxe"});
      ScorePair(x, y, 1.0) >= 0.92 && x.tokens != y.tokens
  {
    var six := {"a", "b", "c", "d", "e", "f"};
    var x := TitleParts("", Some("steam"), Some("GLOBAL"), None, six, None);
    var y := x.(tokens := six + {"deluxe"});
    assert six * (six + {"deluxe"}) == six && six + (six + {"deluxe"}) == six + {"deluxe"};
    assert |six| == 6 && |six + {"deluxe"}| == 7;
    assert "deluxe" in y.tokens && "deluxe" !in x.tokens;
    assert Jaccard(x.tokens, y.tokens) == 6.0 / 7.0;
  }

  /******* Candidates *******/

  datatype StoreProduct = StoreProduct(id: nat, parts: TitleParts)

  datatype Candidate = Candidate(id: nat, score: real)

  datatype Status = Pending | Approved | Auto | RejectedPair | Unmatched

  datatype Limits = Limits(autoAccept: real, review: real, maxCandidates: nat)

  const DEFAULTS := Limits(0.92, 0.70, 10)

  /** What a search for one supplier product starts from.  `blocked` are the products that
      were rejected for it or are claimed by another supplier product. */
  datatype Search = Search(parts: TitleParts, shortlist: seq<StoreProduct>, blocked: set<nat>, ratio: nat -> real)

  function ScoreOf(s: Search, p: StoreProduct): real {
    ScorePair(s.parts, p.parts, s.ratio(p.id))
  }

  function AsCandidate(s: Search, p: StoreProduct): Candidate {
    Candidate(p.id, ScoreOf(s, p))
  }

  function Scored(s: Search, shortlist: seq<StoreProduct>): seq<Candidate> {
    if shortlist == [] then []
    else
      var before, p := Scored(s, shortlist[..|shortlist| - 1]), shortlist[|shortlist| - 1];
      if p.id in s.blocked || ScoreOf(s, p) <= 0.0 then before else before + [Candidate(p.id, ScoreOf(s, p))]
  }

  /** Python's stable descending sort. */
  function SortByScore(cs: seq<Candidate>): seq<Candidate> {
    if cs == [] then [] else Insert(cs[0], SortByScore(cs[1..]))
  }

  function Insert(c: Candidate, cs: seq<Candidate>): seq<Candidate> {
    if cs == [] || cs[0].score <= c.score then [c] + cs else [cs[0]] + Insert(c, cs[1..])
  }

  function Candidates(s: Search, limits: Limits): seq<Candidate> {
    var sorted := SortByScore(Scored(s, s.shortlist));
    if |sorted| <= limits.maxCandidates then sorted else sorted[..limits.maxCandidates]
  }

  datatype MatchOutcome = MatchOutcome(status: Status, best: Option<Candidate>, candidates: seq<Candidate>)

  function Evaluate(candidates: seq<Candidate>, limits: Limits): MatchOutcome {
    if candidates == [] then MatchOutcome(Unmatched, None, candidates)
    else
      var best := candidates[0];
      var status :=
        if best.score < limits.review then Unmatched
        else if best.score >= limits.autoAccept then
          if |candidates| > 1 && candidates[1].score >= best.score - 0.02 then Pending else Auto
        else Pending;
      MatchOutcome(status, Some(best), candidates)
  }

  ghost predicate Descending(cs: seq<Candidate>) {
    forall i, j :: 0 <= i < j < |cs| ==> cs[i].score >= cs[j].score
  }

  lemma HeadFirst(c: Candidate, cs: seq<Candidate>)
    requires Descending(cs) && forall i :: 0 <= i < |cs| ==> c.score >= cs[i].score
    ensures Descending([c] + cs)
  {
  }

  lemma {:induction false} InsertPermutes(c: Candidate, cs: seq<Candidate>)
    ensures multiset(Insert(c, cs)) == multiset{c} + multiset(cs)
  {
    if !(cs == [] || cs[0].score <= c.score) {
      InsertPermutes(c, cs[1..]);
      assert cs == [cs[0]] + cs[1..];
    }
  }

  lemma {:induction false} InsertSorts(c: Candidate, cs: seq<Candidate>)
    requires Descending(cs)
    ensures Descending(Insert(c, cs))
  {
    if !(cs == [] || cs[0].score <= c.score) {
      var rest := Insert(c, cs[1..]);
      InsertSorts(c, cs[1..]);
      InsertPermutes(c, cs[1..]);
      forall i | 0 <= i < |rest|
        ensures cs[0].score >= rest[i].score
      {
        assert rest[i] in multiset(rest);
      }
      HeadFirst(cs[0], rest);
    }
  }

  lemma {:induction false} SortSorts(cs: seq<Candidate>)
    ensures Descending(SortByScore(cs)) && multiset(SortByScore(cs)) == multiset(cs)
  {
    if cs != [] {
      SortSorts(cs[1..]);
      InsertSorts(cs[0], SortByScore(cs[1..]));
      InsertPermutes(cs[0], SortByScore(cs[1..]));
      assert cs == [cs[0]] + cs[1..];
    }
  }

  /** The scored candidates are exactly the shortlisted products that are not blocked and
      pass every gate. */
  ghost predicate Eligible(s: Search, p: StoreProduct) {
    p.id !in s.blocked && !Gated(s.parts, p.parts)
  }

  lemma {:induction false} ScoredIffEligible(s: Search, shortlist: seq<StoreProduct>, c: Candidate)
    requires forall id :: Ratio(s.ratio(id))
    ensures c in Scored(s, shortlist)
       <==> exists i :: 0 <= i < |shortlist| && Eligible(s, shortlist[i]) && c == AsCandidate(s, shortlist[i])
  {
    if shortlist != [] {
      var before, p := shortlist[..|shortlist| - 1], shortlist[|shortlist| - 1];
      ScoredIffEligible(s, before, c);
      ZeroIffGated(s.parts, p.parts, s.ratio(p.id));
      if c in Scored(s, before) {
        var i :| 0 <= i < |before| && Eligible(s, before[i]) && c == AsCandidate(s, before[i]);
        assert shortlist[i] == before[i];
      }
      if i :| 0 <= i < |shortlist| && Eligible(s, shortlist[i]) && c == AsCandidate(s, shortlist[i]) {
        if i < |before| {
          assert before[i] == shortlist[i];
        }
      }
    }
  }

  ghost predicate DistinctIds(shortlist: seq<StoreProduct>) {
    forall i, j :: 0 <= i < j < |shortlist| ==> shortlist[i].id != shortlist[j].id
  }

  /** The scored candidate with the id of `p` is the score of `p`. */
  lemma ScoredIsOf(s: Search, p: StoreProduct, c: Candidate)
    requires (forall id :: Ratio(s.ratio(id))) && DistinctIds(s.shortlist)
    requires p in s.shortlist && c in Scored(s, s.shortlist) && c.id == p.id
    ensures Eligible(s, p) && c.score == ScoreOf(s, p)
  {
    ScoredIffEligible(s, s.shortlist, c);
  }

  /** An automatic match beats every other candidate by more than 0.02. */
  lemma AutoBeatsTheRest(scored: seq<Candidate>, limits: Limits, other: Candidate)
    requires limits.maxCandidates >= 2 && other in scored
    requires var sorted := SortByScore(scored);
      var kept := if |sorted| <= limits.maxCandidates then sorted else sorted[..limits.maxCandidates];
      Evaluate(kept, limits).status == Auto && other.id != kept[0].id
    ensures other.score < SortByScore(scored)[0].score - 0.02
  {
    SortSorts(scored);
    var sorted := SortByScore(scored);
    assert other in multiset(sorted) && other in sorted;
    var k :| 0 <= k < |sorted| && sorted[k] == other;
    assert k >= 1;
  }

  /** Main result: with at least two candidates kept, an automatic match is an eligible
      product whose words overlap by 47/55 or more, and it beats every other shortlisted
      product that is not blocked by more than 0.02. */
  lemma AutoIsJustified(s: Search, limits: Limits, p: StoreProduct, q: StoreProduct)
    requires (forall id :: Ratio(s.ratio(id))) && DistinctIds(s.shortlist)
    requires limits.maxCandidates >= 2 && limits.autoAccept >= 0.92
    requires p in s.shortlist && q in s.shortlist && p.id != q.id && q.id !in s.blocked
    requires var o := Evaluate(Candidates(s, limits), limits); o.status == Auto && o.best.value.id == p.id
    ensures Eligible(s, p) && ScoreOf(s, p) >= limits.autoAccept
    ensures Jaccard(s.parts.tokens, p.parts.tokens) >= 47.0 / 55.0
    ensures |s.parts.tokens + p.parts.tokens| <= 6 ==> s.parts.tokens == p.parts.tokens
    ensures ScoreOf(s, q) < ScoreOf(s, p) - 0.02
  {
    var scored := Scored(s, s.shortlist);
    var best := SortByScore(scored)[0];
    assert Candidates(s, limits)[0] == best;
    assert best in scored by {
      SortSorts(scored);
      assert best in multiset(SortByScore(scored));
    }
    ScoredIsOf(s, p, best);
    HighScoreNeedsOverlap(s.parts, p.parts, s.ratio(p.id));
    ZeroIffGated(s.parts, q.parts, s.ratio(q.id));
    if Eligible(s, q) {
      AutoBeatsEligible(s, limits, p, q);
    }
  }

  /** What the near-tie rule is for: in every search, an automatic match beats every other
      eligible shortlisted product by more than 0.02. */
  ghost predicate NoAutoTies(limits: Limits) {
    forall s: Search, p: StoreProduct, q: StoreProduct ::
      AutoOver(s, limits, p, q) ==> ScoreOf(s, q) < ScoreOf(s, p) - 0.02
  }

  /** `p` is the automatic match of a search in which `q` was eligible too. */
  ghost predicate AutoOver(s: Search, limits: Limits, p: StoreProduct, q: StoreProduct) {
    && (forall id :: Ratio(s.ratio(id))) && DistinctIds(s.shortlist)
    && p in s.shortlist && q in s.shortlist && p.id != q.id && Eligible(s, q)
    && var o := Evaluate(Candidates(s, limits), limits); o.status == Auto && o.best.value.id == p.id
  }

  lemma AutoBeatsEligible(s: Search, limits: Limits, p: StoreProduct, q: StoreProduct)
    requires AutoOver(s, limits, p, q) && limits.maxCandidates >= 2
    ensures ScoreOf(s, q) < ScoreOf(s, p) - 0.02
  {
    var scored := Scored(s, s.shortlist);
    var best := SortByScore(scored)[0];
    SortSorts(scored);
    assert best in multiset(SortByScore(scored));
    ScoredIsOf(s, p, best);
    var other := Candidate(q.id, ScoreOf(s, q));
    ScoredIffEligible(s, s.shortlist, other);
    AutoBeatsTheRest(scored, limits, other);
  }

  /** Thresholds above one admit no automatic match at all. */
  lemma AutoIsWithinOne(s: Search, limits: Limits, p: StoreProduct, q: StoreProduct)
    requires AutoOver(s, limits, p, q)
    ensures limits.maxCandidates > 0 && limits.autoAccept <= 1.0 && limits.review <= 1.0
  {
    var scored := Scored(s, s.shortlist);
    var best := SortByScore(scored)[0];
    SortSorts(scored);
    assert best in multiset(SortByScore(scored));
    ScoredIsOf(s, p, best);
    ZeroIffGated(s.parts, p.parts, s.ratio(p.id));
  }

  /** Two products with the same title. */
  const TITLE := TitleParts("x", Some("steam"), Some("GLOBAL"), None, {"x"}, None)
  const TWINS := Search(TITLE, [StoreProduct(1, TITLE), StoreProduct(2, TITLE)], {}, id => 1.0)

  lemma TwinsAreScored()
    ensures Scored(TWINS, TWINS.shortlist) == [Candidate(1, 1.0), Candidate(2, 1.0)]
    ensures SortByScore(Scored(TWINS, TWINS.shortlist)) == [Candidate(1, 1.0), Candidate(2, 1.0)]
  {
    assert {"x"} * {"x"} == {"x"} && {"x"} + {"x"} == {"x"};
    assert Jaccard(TITLE.tokens, TITLE.tokens) == 1.0;
    var c1, c2 := Candidate(1, 1.0), Candidate(2, 1.0);
    assert TWINS.shortlist[..1] == [TWINS.shortlist[0]] && TWINS.shortlist[..1][..0] == [];
    assert Scored(TWINS, TWINS.shortlist[..1]) == [c1];
    assert Scored(TWINS, TWINS.shortlist) == [c1, c2];
    assert [c1, c2][1..] == [c2] && [c2][1..] == [];
    assert SortByScore([c2]) == [c2];
  }

  /** With one candidate kept the near-tie rule has nothing to compare: two products with
      the same title still give an automatic match, whatever the thresholds. */
  lemma OneCandidateHidesATie(limits: Limits)
    requires limits.maxCandidates == 1 && limits.autoAccept <= 1.0 && limits.review <= 1.0
    ensures var p, q := TWINS.shortlist[0], TWINS.shortlist[1];
      AutoOver(TWINS, limits, p, q) && ScoreOf(TWINS, p) == ScoreOf(TWINS, q)
  {
    TwinsAreScored();
    assert Candidates(TWINS, limits) == [Candidate(1, 1.0)];
    assert ScoreOf(TWINS, TWINS.shortlist[0]) == 1.0 by {
      ScoredIsOf(TWINS, TWINS.shortlist[0], Candidate(1, 1.0));
    }
    assert ScoreOf(TWINS, TWINS.shortlist[1]) == 1.0 by {
      ScoredIsOf(TWINS, TWINS.shortlist[1], Candidate(2, 1.0));
    }
  }

  /** Main result: the near-tie rule keeps its promise in all searches exactly when not just
      one candidate is kept, or no match can be automatic at all. */
  lemma NoAutoTiesIff(limits: Limits)
    ensures NoAutoTies(limits) <==> limits.maxCandidates != 1 || limits.autoAccept > 1.0 || limits.review > 1.0
  {
    if limits.maxCandidates == 1 && limits.autoAccept <= 1.0 && limits.review <= 1.0 {
      OneCandidateHidesATie(limits);
      assert AutoOver(TWINS, limits, TWINS.shortlist[0], TWINS.shortlist[1]);
    } else {
      forall s, p, q | AutoOver(s, limits, p, q)
        ensures ScoreOf(s, q) < ScoreOf(s, p) - 0.02
      {
        AutoIsWithinOne(s, limits, p, q);
        AutoBeatsEligible(s, limits, p, q);
      }
    }
  }
}
