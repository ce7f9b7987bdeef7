/** What a match says about the two products, and what a search finds, in terms of the titles
    and the scores alone. */
module MatchingGates {
  import opened Wrappers
  import opened Matching

  /******* Gates *******/

  /** Nothing that both titles state contradicts: face values are the same to a thousandth,
      currencies, platforms and editions are equal, and regions are equal or one is GLOBAL. */
  ghost predicate Interchangeable(a: TitleParts, b: TitleParts) {
    && (a.denomination.Some? && b.denomination.Some? ==>
          && -0.001 <= a.denomination.value.amount - b.denomination.value.amount <= 0.001
          && Same(a.denomination.value.currency, b.denomination.value.currency))
    && (Same(a.region, b.region) || a.region == Some("GLOBAL") || b.region == Some("GLOBAL"))
    && Same(a.platform, b.platform) && Same(a.edition, b.edition)
  }

  /** Equal, or not stated on one side. */
  ghost predicate Same(a: Option<string>, b: Option<string>) {
    a in {None, Some("")} || b in {None, Some("")} || a == b
  }

  /** Main result: a pair scores above zero exactly when nothing stated contradicts. */
  lemma ScoresIffInterchangeable(a: TitleParts, b: TitleParts, ratio: real)
    requires Ratio(ratio)
    ensures ScorePair(a, b, ratio) > 0.0 <==> Interchangeable(a, b)
  {
    ZeroIffGated(a, b, ratio);
  }

  ghost predicate WellFormed(s: Search) {
    (forall id :: Ratio(s.ratio(id))) && DistinctIds(s.shortlist)
  }

  /** The product `i` of the shortlist is neither blocked nor impossible. */
  ghost predicate Possible(s: Search, i: nat) {
    i < |s.shortlist| && s.shortlist[i].id !in s.blocked && Interchangeable(s.parts, s.shortlist[i].parts)
  }

  lemma PossibleIsScored(s: Search, i: nat)
    requires WellFormed(s) && i < |s.shortlist|
    ensures Possible(s, i) <==> AsCandidate(s, s.shortlist[i]) in Scored(s, s.shortlist)
    ensures Possible(s, i) <==> Eligible(s, s.shortlist[i])
  {
    var p := s.shortlist[i];
    ScoresIffInterchangeable(s.parts, p.parts, s.ratio(p.id));
    ZeroIffGated(s.parts, p.parts, s.ratio(p.id));
    ScoredIffEligible(s, s.shortlist, AsCandidate(s, p));
  }

  /** Every scored candidate is a possible product of the shortlist with its score. */
  lemma ScoredIsPossible(s: Search, c: Candidate) returns (i: nat)
    requires WellFormed(s) && c in Scored(s, s.shortlist)
    ensures Possible(s, i) && c == AsCandidate(s, s.shortlist[i])
  {
    ScoredIffEligible(s, s.shortlist, c);
    i :| i < |s.shortlist| && Eligible(s, s.shortlist[i]) && c == AsCandidate(s, s.shortlist[i]);
    PossibleIsScored(s, i);
  }

  /******* The best candidate *******/

  ghost predicate FirstBest(cs: seq<Candidate>, i: nat) {
    && i < |cs|
    && (forall j :: 0 <= j < i ==> cs[j].score < cs[i].score)
    && (forall j :: i < j < |cs| ==> cs[j].score <= cs[i].score)
  }

  lemma FirstBestOfMore(c: Candidate, cs: seq<Candidate>, i: nat)
    requires FirstBest(cs, i)
    ensures FirstBest([c] + cs, if cs[i].score <= c.score then 0 else i + 1)
  {
  }

  /** The sort is stable: its head is the first of the highest. */
  lemma {:induction false} HeadIsFirstBest(cs: seq<Candidate>) returns (i: nat)
    requires cs != []
    ensures FirstBest(cs, i) && SortByScore(cs) != [] && SortByScore(cs)[0] == cs[i]
  {
    if |cs| == 1 {
      assert cs[1..] == [];
      i := 0;
    } else {
      var k := HeadIsFirstBest(cs[1..]);
      FirstBestOfMore(cs[0], cs[1..], k);
      assert [cs[0]] + cs[1..] == cs;
      i := if cs[1..][k].score <= cs[0].score then 0 else k + 1;
    }
  }

  /** Scoring keeps the order of the shortlist. */
  lemma {:induction false} ScoredIsPrefix(s: Search, y: nat, x: nat)
    requires y <= x <= |s.shortlist|
    ensures Scored(s, s.shortlist[..y]) <= Scored(s, s.shortlist[..x])
  {
    if y < x {
      ScoredIsPrefix(s, y, x - 1);
      assert s.shortlist[..x][..x - 1] == s.shortlist[..x - 1];
    }
  }

  /** Where a possible product stands among the scored. */
  function Place(s: Search, i: nat): nat
    requires i <= |s.shortlist|
  {
    |Scored(s, s.shortlist[..i])|
  }

  lemma PlaceOfPossible(s: Search, i: nat)
    requires WellFormed(s) && Possible(s, i)
    ensures var scored := Scored(s, s.shortlist);
      Place(s, i) < |scored| && scored[Place(s, i)] == AsCandidate(s, s.shortlist[i])
    ensures forall k :: i < k <= |s.shortlist| ==> Place(s, i) < Place(s, k)
  {
    var p := s.shortlist[i];
    ScoresIffInterchangeable(s.parts, p.parts, s.ratio(p.id));
    assert s.shortlist[..i + 1][..i] == s.shortlist[..i];
    assert Scored(s, s.shortlist[..i + 1]) == Scored(s, s.shortlist[..i]) + [AsCandidate(s, p)];
    assert s.shortlist[..|s.shortlist|] == s.shortlist;
    ScoredIsPrefix(s, i + 1, |s.shortlist|);
    forall k | i < k <= |s.shortlist|
      ensures Place(s, i) < Place(s, k)
    {
      ScoredIsPrefix(s, i + 1, k);
    }
  }

  /** The product `i` scores highest, and every possible product before it scores less. */
  ghost predicate BestAt(s: Search, i: nat) {
    && Possible(s, i)
    && forall j: nat :: Possible(s, j) && j != i ==>
         && ScoreOf(s, s.shortlist[j]) <= ScoreOf(s, s.shortlist[i])
         && (j < i ==> ScoreOf(s, s.shortlist[j]) < ScoreOf(s, s.shortlist[i]))
  }

  /** Main result: the proposal of a search is the first of the highest-scoring possible
      products of its shortlist. */
  lemma ProposalIsBest(s: Search, limits: Limits) returns (i: nat)
    requires WellFormed(s) && limits.maxCandidates > 0 && Scored(s, s.shortlist) != []
    ensures BestAt(s, i)
    ensures Evaluate(Candidates(s, limits), limits).best == Some(AsCandidate(s, s.shortlist[i]))
    ensures SortByScore(Scored(s, s.shortlist))[0] == AsCandidate(s, s.shortlist[i])
  {
    var scored := Scored(s, s.shortlist);
    var k := HeadIsFirstBest(scored);
    i := ScoredIsPossible(s, scored[k]);
    PlaceOfPossible(s, i);
    OnePlace(s, i, k);
    forall j: nat | Possible(s, j) && j != i
      ensures ScoreOf(s, s.shortlist[j]) <= ScoreOf(s, s.shortlist[i])
      ensures j < i ==> ScoreOf(s, s.shortlist[j]) < ScoreOf(s, s.shortlist[i])
    {
      PlaceOfPossible(s, j);
      assert j < i ==> Place(s, j) < Place(s, i);
      assert i < j ==> Place(s, i) < Place(s, j);
    }
  }

  /** Ids are distinct, so a candidate is scored in one place. */
  lemma OnePlace(s: Search, i: nat, k: nat)
    requires WellFormed(s) && Possible(s, i) && k < |Scored(s, s.shortlist)|
    requires Scored(s, s.shortlist)[k].id == s.shortlist[i].id
    ensures k == Place(s, i)
  {
    assert s.shortlist[..|s.shortlist|] == s.shortlist;
    var x := PlaceHolds(s, |s.shortlist|, k);
    assert x == i;
  }

  /** Every place holds a product of the shortlist. */
  lemma {:induction false} PlaceHolds(s: Search, n: nat, k: nat) returns (x: nat)
    requires n <= |s.shortlist| && k < |Scored(s, s.shortlist[..n])|
    ensures x < n && Place(s, x) == k && Scored(s, s.shortlist[..n])[k] == AsCandidate(s, s.shortlist[x])
  {
    assert s.shortlist[..n][..n - 1] == s.shortlist[..n - 1];
    if k < |Scored(s, s.shortlist[..n - 1])| {
      x := PlaceHolds(s, n - 1, k);
    } else {
      x := n - 1;
    }
  }

  /******* The outcome *******/

  /** Nothing is proposed exactly when nothing may be kept or nothing is possible. */
  lemma NothingIsProposedIff(s: Search, limits: Limits)
    requires WellFormed(s)
    ensures Evaluate(Candidates(s, limits), limits).best.None?
       <==> limits.maxCandidates == 0 || forall i: nat :: !Possible(s, i)
  {
    var scored := Scored(s, s.shortlist);
    if i: nat :| Possible(s, i) {
      PossibleIsScored(s, i);
    } else if scored != [] {
      var i := ScoredIsPossible(s, scored[0]);
    }
    SortSorts(scored);
    assert |scored| == |multiset(scored)| && |SortByScore(scored)| == |multiset(SortByScore(scored))|;
  }

  /** Main result: a search ends unmatched exactly when nothing may be kept or every possible
      product scores below the review threshold. */
  lemma UnmatchedIff(s: Search, limits: Limits)
    requires WellFormed(s)
    ensures Evaluate(Candidates(s, limits), limits).status == Unmatched
       <==> limits.maxCandidates == 0 || forall i: nat :: Possible(s, i) ==> ScoreOf(s, s.shortlist[i]) < limits.review
  {
    NothingIsProposedIff(s, limits);
    if Scored(s, s.shortlist) != [] && limits.maxCandidates > 0 {
      var i := ProposalIsBest(s, limits);
    } else if limits.maxCandidates > 0 {
      forall i: nat
        ensures !Possible(s, i)
      {
        if i < |s.shortlist| {
          PossibleIsScored(s, i);
        }
      }
    }
  }

  /** The product `i` reaches both thresholds and leads every other possible one by more
      than 0.02. */
  ghost predicate Leads(s: Search, limits: Limits, i: nat) {
    && Possible(s, i)
    && ScoreOf(s, s.shortlist[i]) >= limits.autoAccept && ScoreOf(s, s.shortlist[i]) >= limits.review
    && forall j: nat :: Possible(s, j) && j != i ==> ScoreOf(s, s.shortlist[j]) < ScoreOf(s, s.shortlist[i]) - 0.02
  }

  /** The candidate after the best is another product. */
  lemma SecondIsAnother(s: Search, i: nat) returns (j: nat)
    requires WellFormed(s) && i < |s.shortlist|
    requires var sorted := SortByScore(Scored(s, s.shortlist));
      |sorted| > 1 && sorted[0] == AsCandidate(s, s.shortlist[i])
    ensures j != i && Possible(s, j) && SortByScore(Scored(s, s.shortlist))[1] == AsCandidate(s, s.shortlist[j])
  {
    var scored := Scored(s, s.shortlist);
    var sorted := SortByScore(scored);
    SortSorts(scored);
    assert sorted[1] in multiset(sorted) && sorted[1] in scored;
    j := ScoredIsPossible(s, sorted[1]);
    if j == i {
      assert sorted == [sorted[0]] + ([sorted[1]] + sorted[2..]);
      assert multiset(sorted)[sorted[0]] >= 2;
      TwicePlaces(scored, sorted[0]);
      var k, m :| 0 <= k < m < |scored| && scored[k] == sorted[0] && scored[m] == sorted[0];
      OnePlace(s, i, k);
      OnePlace(s, i, m);
    }
  }

  lemma {:induction false} TwicePlaces(cs: seq<Candidate>, c: Candidate)
    requires multiset(cs)[c] >= 2
    ensures exists k, m :: 0 <= k < m < |cs| && cs[k] == c && cs[m] == c
  {
    assert cs == [cs[0]] + cs[1..];
    if cs[0] == c {
      assert c in multiset(cs[1..]) && c in cs[1..];
      var m :| 0 <= m < |cs[1..]| && cs[1..][m] == c;
      assert cs[m + 1] == c;
    } else {
      TwicePlaces(cs[1..], c);
      var k, m :| 0 <= k < m < |cs[1..]| && cs[1..][k] == c && cs[1..][m] == c;
      assert cs[k + 1] == c && cs[m + 1] == c;
    }
  }

  /** Main result: with two or more candidates kept, a match is automatic exactly when some
      possible product reaches the thresholds and leads every other possible product by more
      than 0.02. */
  lemma AutoIff(s: Search, limits: Limits)
    requires WellFormed(s) && limits.maxCandidates >= 2
    ensures Evaluate(Candidates(s, limits), limits).status == Auto <==> exists i: nat :: Leads(s, limits, i)
  {
    var o := Evaluate(Candidates(s, limits), limits);
    var sorted := SortByScore(Scored(s, s.shortlist));
    NothingIsProposedIff(s, limits);
    if o.best.Some? {
      NotEmpty(s, limits);
      var i := ProposalIsBest(s, limits);
      if o.status == Auto {
        forall j: nat | Possible(s, j) && j != i
          ensures ScoreOf(s, s.shortlist[j]) < ScoreOf(s, s.shortlist[i]) - 0.02
        {
          PossibleIsScored(s, j);
          AutoBeatsTheRest(Scored(s, s.shortlist), limits, AsCandidate(s, s.shortlist[j]));
        }
        assert Leads(s, limits, i);
      }
      if k: nat :| Leads(s, limits, k) {
        assert k == i;
        if |sorted| > 1 {
          var j := SecondIsAnother(s, i);
        }
      }
    }
  }

  lemma NotEmpty(s: Search, limits: Limits)
    requires Evaluate(Candidates(s, limits), limits).best.Some?
    ensures Scored(s, s.shortlist) != []
  {
  }

  /******* The weights *******/

  /** Main result: titles with the same words score 0.55 for them, 0.30 times the similarity
      of their cores, 0.10 for the region and 0.05 for the platform; half of the last two when
      they are not stated on one side, and 0.06 when one region is GLOBAL. */
  lemma SameWordsScore(a: TitleParts, b: TitleParts, ratio: real)
    requires Ratio(ratio) && a.tokens == b.tokens != {} && Interchangeable(a, b)
    ensures var region := if a.region in {None, Some("")} || b.region in {None, Some("")} then 0.05
                          else if a.region == b.region then 0.10 else 0.06;
      var platform := if a.platform in {None, Some("")} || b.platform in {None, Some("")} then 0.025 else 0.05;
      ScorePair(a, b, ratio) == 0.55 + 0.30 * ratio + region + platform
  {
    assert a.tokens * b.tokens == a.tokens && a.tokens + b.tokens == a.tokens;
    assert Jaccard(a.tokens, b.tokens) == 1.0 by {
      UnionIsLarger(a.tokens, b.tokens);
      One(|a.tokens|);
    }
    ZeroIffGated(a, b, ratio);
    ScoresIffInterchangeable(a, b, ratio);
  }

  lemma One(n: nat)
    requires n > 0
    ensures n as real / n as real == 1.0
  {
  }

  /** Titles without a common word score at most 0.45, so under the defaults they are never
      even proposed for review. */
  lemma NoCommonWordIsUnmatched(a: TitleParts, b: TitleParts, ratio: real)
    requires Ratio(ratio) && a.tokens * b.tokens == {}
    ensures ScorePair(a, b, ratio) <= 0.45 && 0.45 < DEFAULTS.review
  {
    if a.tokens != {} && b.tokens != {} {
      UnionIsLarger(a.tokens, b.tokens);
      assert Jaccard(a.tokens, b.tokens) == 0.0;
    }
  }

  /** Under the defaults, a lone possible product is matched automatically from a score of
      0.92 on, reviewed from 0.70 on, and otherwise unmatched. */
  lemma LoneProductUnderDefaults(s: Search, i: nat)
    requires WellFormed(s) && Possible(s, i) && forall j: nat :: Possible(s, j) ==> j == i
    ensures var score, status := ScoreOf(s, s.shortlist[i]), Evaluate(Candidates(s, DEFAULTS), DEFAULTS).status;
      && (status == Auto <==> score >= 0.92)
      && (status == Unmatched <==> score < 0.70)
      && (status == Pending <==> 0.70 <= score < 0.92)
  {
    AutoIff(s, DEFAULTS);
    UnmatchedIff(s, DEFAULTS);
    assert ScoreOf(s, s.shortlist[i]) >= 0.92 ==> Leads(s, DEFAULTS, i);
  }
}
