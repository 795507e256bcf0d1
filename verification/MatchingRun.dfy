/** The matcher as run: select_candidates and evaluate with their loops, proved against the report's definition. */
module MatchingRun {
  import opened Strings
  import opened Normalization
  import opened Domain
  import opened Matching
  import T = Tokenization

  method TokenizeField(text: string) returns (tokens: seq<string>)
    ensures tokens == FieldTokens(text)
  {
    var all := TokenizeAscii(text, 2);
    tokens := T.ToSet(all);
  }

  method CombineTokenSets(a: seq<string>, b: seq<string>, c: seq<string>) returns (combined: seq<string>)
    ensures combined == SortedSet(a + b + c)
  {
    combined := T.ToSet(a + b + c);
  }

  method AtomTokenSet(atom: Atom) returns (tokens: seq<string>)
    ensures tokens == AtomTokens(atom)
  {
    hide FieldTokens;
    var claim := TokenizeField(atom.claim);
    var title := TokenizeField(atom.title);
    tokens := CombineTokenSets(claim, title, atom.tags);
  }

  /** extract_intersection: one pass over both lists. */
  method ExtractIntersection(a: seq<string>, b: seq<string>) returns (result: seq<string>)
    ensures result == Intersect(a, b)
  {
    hide Less;
    result := [];
    var i, j := 0, 0;
    assert a[0..] == a && b[0..] == b;
    while i < |a| && j < |b|
      invariant i <= |a| && j <= |b|
      invariant result + Intersect(a[i..], b[j..]) == Intersect(a, b)
      decreases |a| - i + |b| - j
    {
      IntersectStep(a, i, b, j, result);
      if a[i] == b[j] {
        result := result + [a[i]];
        i, j := i + 1, j + 1;
      } else if Less(a[i], b[j]) {
        i := i + 1;
      } else {
        j := j + 1;
      }
    }
    assert Intersect(a[i..], b[j..]) == [];
  }

  lemma IntersectStep(a: seq<string>, i: nat, b: seq<string>, j: nat, before: seq<string>)
    requires i < |a| && j < |b|
    ensures before + Intersect(a[i..], b[j..]) ==
            if a[i] == b[j] then before + [a[i]] + Intersect(a[i + 1..], b[j + 1..])
            else if Less(a[i], b[j]) then before + Intersect(a[i + 1..], b[j..])
            else before + Intersect(a[i..], b[j + 1..])
  {
    assert a[i..][1..] == a[i + 1..] && b[j..][1..] == b[j + 1..];
  }

  method VerifiedAtoms(atoms: seq<Atom>) returns (candidates: seq<Atom>)
    ensures candidates == Verified(atoms)
  {
    candidates := [];
    for i := 0 to |atoms|
      invariant candidates == Verified(atoms[..i])
    {
      assert atoms[..i + 1][..i] == atoms[..i];
      if atoms[i].verified {
        candidates := candidates + [atoms[i]];
      }
    }
    assert atoms[..|atoms|] == atoms;
  }

  // ---------- scoring and sorting the lexical stage ----------

  datatype ScoredAtom = ScoredAtom(atom: Atom, score: real)

  function AtomsOf(scored: seq<ScoredAtom>): (r: seq<Atom>)
    ensures |r| == |scored| && forall i :: 0 <= i < |scored| ==> r[i] == scored[i].atom
  {
    seq(|scored|, i requires 0 <= i < |scored| => scored[i].atom)
  }

  ghost predicate ScoresAre(q: seq<string>, scored: seq<ScoredAtom>)
    requires q != []
  {
    forall i :: 0 <= i < |scored| ==> scored[i].score == Score(Count(q, scored[i].atom), |q|)
  }

  /** The comparator: higher score first, then the lesser id. */
  predicate ComesFirst(a: ScoredAtom, b: ScoredAtom) {
    if a.score != b.score then a.score > b.score else Less(a.atom.atomId, b.atom.atomId)
  }

  lemma ComparatorIsBefore(q: seq<string>, a: ScoredAtom, b: ScoredAtom)
    requires q != []
    requires a.score == Score(Count(q, a.atom), |q|) && b.score == Score(Count(q, b.atom), |q|)
    ensures ComesFirst(a, b) <==> Before(q, a.atom, b.atom)
  {
    hide Score, Count;
    ScoreOrder(Count(q, a.atom), Count(q, b.atom), |q|);
    ScoreOrder(Count(q, b.atom), Count(q, a.atom), |q|);
  }

  method ScoreVerified(q: seq<string>, atoms: seq<Atom>) returns (scored: seq<ScoredAtom>)
    requires q != []
    ensures AtomsOf(scored) == Verified(atoms) && ScoresAre(q, scored)
  {
    hide Intersect, AtomTokens;
    scored := [];
    for i := 0 to |atoms|
      invariant AtomsOf(scored) == Verified(atoms[..i]) && ScoresAre(q, scored)
    {
      assert atoms[..i + 1][..i] == atoms[..i];
      if atoms[i].verified {
        var atomTokens := AtomTokenSet(atoms[i]);
        var intersection := ExtractIntersection(q, atomTokens);
        var next := ScoredAtom(atoms[i], |intersection| as real / |q| as real);
        assert next.score == Score(Count(q, atoms[i]), |q|);
        assert AtomsOf(scored + [next]) == AtomsOf(scored) + [atoms[i]];
        scored := scored + [next];
      }
    }
    assert atoms[..|atoms|] == atoms;
  }

  lemma {:induction false} RankInsertAt(q: seq<string>, ranked: seq<Atom>, x: Atom, k: nat)
    requires k <= |ranked|
    requires forall i :: 0 <= i < k ==> !Before(q, x, ranked[i])
    requires k < |ranked| ==> Before(q, x, ranked[k])
    ensures RankInsert(q, ranked, x) == ranked[..k] + [x] + ranked[k..]
  {
    hide Before;
    if k > 0 {
      RankInsertAt(q, ranked[1..], x, k - 1);
      assert ranked[..k] == [ranked[0]] + ranked[1..][..k - 1] && ranked[1..][k - 1..] == ranked[k..];
    }
  }

  method SortScored(q: seq<string>, scored: seq<ScoredAtom>) returns (sorted: seq<ScoredAtom>)
    requires q != [] && ScoresAre(q, scored)
    ensures AtomsOf(sorted) == Rank(q, AtomsOf(scored))
  {
    hide Before, Score, Count, ComesFirst, RankInsert;
    sorted := [];
    for i := 0 to |scored|
      invariant AtomsOf(sorted) == Rank(q, AtomsOf(scored[..i])) && ScoresAre(q, sorted)
    {
      var x := scored[i];
      var k := 0;
      while k < |sorted| && !ComesFirst(x, sorted[k])
        invariant k <= |sorted|
        invariant forall j :: 0 <= j < k ==> !Before(q, x.atom, sorted[j].atom)
      {
        ComparatorIsBefore(q, x, sorted[k]);
        k := k + 1;
      }
      if k < |sorted| {
        ComparatorIsBefore(q, x, sorted[k]);
      }
      RankInsertAt(q, AtomsOf(sorted), x.atom, k);
      assert AtomsOf(scored[..i + 1])[..i] == AtomsOf(scored[..i]);
      ghost var was := AtomsOf(sorted);
      sorted := sorted[..k] + [x] + sorted[k..];
      assert AtomsOf(sorted) == was[..k] + [x.atom] + was[k..];
    }
    assert scored[..|scored|] == scored;
  }

  method LookupAll(ids: seq<string>, atomMap: map<string, Atom>) returns (candidates: seq<Atom>)
    ensures candidates == Lookup(ids, atomMap)
  {
    candidates := [];
    for i := 0 to |ids|
      invariant candidates == Lookup(ids[..i], atomMap)
    {
      assert ids[..i + 1][..i] == ids[..i];
      if ids[i] in atomMap {
        candidates := candidates + [atomMap[ids[i]]];
      }
    }
    assert ids[..|ids|] == ids;
  }

  method BuildAtomMap(atoms: seq<Atom>) returns (m: map<string, Atom>)
    ensures m == AtomMap(atoms)
  {
    m := map[];
    for i := 0 to |atoms|
      invariant m == AtomMap(atoms[..i])
    {
      assert atoms[..i + 1][..i] == atoms[..i];
      m := m[atoms[i].atomId := atoms[i]];
    }
    assert atoms[..|atoms|] == atoms;
  }

  method CombinedQuery(opp: Opportunity) returns (q: seq<string>)
    ensures q == QueryTokens(opp)
  {
    hide FieldTokens;
    var all := [];
    var reqs := opp.requirements;
    for i := 0 to |reqs|
      invariant all == AllFieldTokens(reqs[..i])
    {
      assert reqs[..i + 1][..i] == reqs[..i];
      var tokens := TokenizeField(reqs[i].text);
      all := all + tokens;
    }
    assert reqs[..|reqs|] == reqs;
    q := T.ToSet(all);
  }

  lemma SummariesSnoc(ms: seq<RequirementMatch>, m: RequirementMatch)
    ensures Total(ms + [m]) == Total(ms) + m.bestScore
    ensures Missing(ms + [m]) == Missing(ms) + if m.matched then [] else [m.requirementText]
    ensures MatchedIds(ms + [m]) ==
            MatchedIds(ms) + if m.matched && m.contributingAtomId.Some? then [m.contributingAtomId.value] else []
  {
    assert (ms + [m])[..|ms|] == ms;
  }

  lemma NothingSummed()
    ensures Total([]) == 0.0 && Missing([]) == [] && MatchedIds([]) == []
  {
  }

  class Matcher {
    const config: Config

    constructor (config: Config)
      ensures this.config == config
    {
      this.config := config;
    }

    method SelectCandidates(opp: Opportunity, atoms: seq<Atom>, hits: seq<string>)
      returns (candidates: seq<Atom>, stats: RetrievalStats)
      ensures (candidates, stats) == Select(config, opp, atoms, hits)
    {
      hide QueryTokens, Rank, Lookup, AtomMap, SortedSet, Verified;
      if config.strategy == DeterministicLexicalV01 {
        candidates := VerifiedAtoms(atoms);
        stats := RetrievalStats(|candidates|, 0, |candidates|);
        return;
      }
      var queryTokens := CombinedQuery(opp);
      if queryTokens == [] {
        candidates := VerifiedAtoms(atoms);
        stats := RetrievalStats(|candidates|, 0, |candidates|);
        return;
      }
      var scored := ScoreVerified(queryTokens, atoms);
      var sorted := SortScored(queryTokens, scored);
      var kLex := if config.kLexical < |sorted| then config.kLexical else |sorted|;
      var topIds := [];
      for i := 0 to kLex
        invariant topIds == Ids(AtomsOf(sorted)[..i])
      {
        topIds := topIds + [sorted[i].atom.atomId];
      }
      assert AtomsOf(sorted)[..kLex] == Top(AtomsOf(sorted), config.kLexical);
      var lexicalIds := T.ToSet(topIds);
      var embeddingIds := T.ToSet(hits);
      var mergedIds := T.ToSet(lexicalIds + embeddingIds);
      var atomMap := BuildAtomMap(atoms);
      candidates := LookupAll(mergedIds, atomMap);
      stats := RetrievalStats(|lexicalIds|, |embeddingIds|, |mergedIds|);
    }

    method CandidateTokenSets(candidates: seq<Atom>) returns (sets: map<string, seq<string>>)
      ensures sets == TokenMap(candidates)
    {
      hide AtomTokens;
      sets := map[];
      for i := 0 to |candidates|
        invariant sets == TokenMap(candidates[..i])
      {
        assert candidates[..i + 1][..i] == candidates[..i];
        var tokens := AtomTokenSet(candidates[i]);
        sets := sets[candidates[i].atomId := tokens];
      }
      assert candidates[..|candidates|] == candidates;
    }

    /** The inner loop: best score, best id (the lesser on ties) and its evidence. */
    method FindBest(reqTokens: seq<string>, candidates: seq<Atom>, sets: map<string, seq<string>>) returns (best: Best)
      requires reqTokens != []
      ensures best == BestOf(reqTokens, candidates, sets)
    {
      hide Less, Intersect;
      var bestScore := 0.0;
      var bestId: Option<string> := None;
      var bestEvidence := [];
      for i := 0 to |candidates|
        invariant Best(bestScore, bestId, bestEvidence) == BestOf(reqTokens, candidates[..i], sets)
      {
        assert candidates[..i + 1][..i] == candidates[..i];
        var atom := candidates[i];
        var intersection := ExtractIntersection(reqTokens, TokensAt(sets, atom.atomId));
        var score := |intersection| as real / |reqTokens| as real;
        assert score == Score(|intersection|, |reqTokens|);
        if score > bestScore || (score == bestScore && (bestId == None || Less(atom.atomId, bestId.value))) {
          bestScore := score;
          bestId := Some(atom.atomId);
          bestEvidence := intersection;
        }
      }
      assert candidates[..|candidates|] == candidates;
      best := Best(bestScore, bestId, bestEvidence);
    }

    method MatchRequirement(req: Requirement, candidates: seq<Atom>, sets: map<string, seq<string>>)
      returns (m: RequirementMatch)
      requires sets == TokenMap(candidates)
      ensures m == MatchFor(req, candidates)
    {
      hide FieldTokens, BestOf;
      var reqTokens := TokenizeField(req.text);
      if reqTokens == [] {
        return RequirementMatch(req.text, false, 0.0, None, []);
      }
      var best := FindBest(reqTokens, candidates, sets);
      if best.score > 0.0 && best.id != None {
        m := RequirementMatch(req.text, true, best.score, best.id, best.evidence);
      } else {
        m := RequirementMatch(req.text, false, best.score, None, []);
      }
    }

    method Evaluate(opp: Opportunity, atoms: seq<Atom>, hits: seq<string>) returns (report: MatchReport)
      ensures report == Report(config, opp, atoms, hits)
    {
      hide Select, MatchFor, TokenMap, Missing, MatchedIds, Total;
      var candidates, stats := SelectCandidates(opp, atoms, hits);
      var sets := CandidateTokenSets(candidates);
      var reqs := opp.requirements;
      ghost var all := Matches(reqs, candidates);
      var matches, missing, ids, total := [], [], [], 0.0;
      NothingSummed();
      for i := 0 to |reqs|
        invariant matches == all[..i]
        invariant missing == Missing(matches) && ids == MatchedIds(matches) && total == Total(matches)
      {
        var m := MatchRequirement(reqs[i], candidates, sets);
        SummariesSnoc(matches, m);
        if m.matched && m.contributingAtomId != None {
          ids := ids + [m.contributingAtomId.value];
        }
        if !m.matched {
          missing := missing + [m.requirementText];
        }
        matches := matches + [m];
        total := total + m.bestScore;
      }
      assert all[..|reqs|] == all;
      var overall := if reqs != [] then total / |reqs| as real else 0.0;
      var matchedAtoms := T.ToSet(ids);
      report := MatchReport(opp.opportunityId, config.strategy, overall, matches, missing, stats, matchedAtoms,
                            ScoreBreakdown(overall, 0.0, 0.0, config.lexicalWeight * overall));
    }
  }
}
