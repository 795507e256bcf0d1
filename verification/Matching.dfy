/**
 Requirement matching (src/matching/matcher.cpp): candidate selection, lexical or hybrid, and the best
 atom for each requirement.  Scores are exact quotients of token counts.
 */
module Matching {
  import opened Strings
  import opened Normalization
  import opened Domain
  import T = Tokenization

  datatype Option<T> = None | Some(value: T)

  datatype RequirementMatch = RequirementMatch(
    requirementText: string, matched: bool, bestScore: real,
    contributingAtomId: Option<string>, evidenceTokens: seq<string>)

  datatype Strategy = DeterministicLexicalV01 | HybridLexicalEmbeddingV02

  datatype RetrievalStats = RetrievalStats(lexical: nat, embedding: nat, merged: nat)

  datatype ScoreBreakdown = ScoreBreakdown(lexical: real, semantic: real, bonus: real, finalScore: real)

  datatype MatchReport = MatchReport(
    opportunityId: string, strategy: Strategy, overallScore: real,
    requirementMatches: seq<RequirementMatch>, missingRequirements: seq<string>,
    stats: RetrievalStats, matchedAtoms: seq<string>, breakdown: ScoreBreakdown)

  datatype Config = Config(strategy: Strategy, kLexical: nat, lexicalWeight: real)

  // ---------- token sets ----------

  /** std::set_intersection of two sorted lists. */
  function Intersect(a: seq<string>, b: seq<string>): seq<string>
    decreases |a| + |b|
  {
    if a == [] || b == [] then []
    else if a[0] == b[0] then [a[0]] + Intersect(a[1..], b[1..])
    else if Less(a[0], b[0]) then Intersect(a[1..], b)
    else Intersect(a, b[1..])
  }

  /** tokenize_field. */
  function FieldTokens(text: string): seq<string> { T.TokenSet(text) }

  /** Claim, title and tags in one sorted set. */
  function AtomTokens(atom: Atom): seq<string> {
    SortedSet(FieldTokens(atom.claim) + FieldTokens(atom.title) + atom.tags)
  }

  function Shared(tokens: seq<string>, atom: Atom): seq<string> { Intersect(tokens, AtomTokens(atom)) }

  function Count(tokens: seq<string>, atom: Atom): nat { |Shared(tokens, atom)| }

  function Score(count: nat, size: nat): real
    requires size > 0
  {
    count as real / size as real
  }

  lemma HeadNotIn(x: string, s: seq<string>)
    requires StrictlySorted(s) && s != [] && Less(x, s[0])
    ensures x !in s
  {
    LessIrreflexive(x);
    forall j | 0 <= j < |s|
      ensures s[j] != x
    {
      if j > 0 {
        LessTransitive(x, s[0], s[j]);
      }
    }
  }

  /** The intersection holds exactly the common members, in strict order. */
  lemma {:induction false} IntersectIs(a: seq<string>, b: seq<string>)
    requires StrictlySorted(a) && StrictlySorted(b)
    ensures StrictlySorted(Intersect(a, b))
    ensures forall w :: w in Intersect(a, b) <==> w in a && w in b
    ensures |Intersect(a, b)| <= |a|
    decreases |a| + |b|
  {
    hide Less;
    if a != [] && b != [] {
      assert a == [a[0]] + a[1..] && b == [b[0]] + b[1..];
      if a[0] == b[0] {
        IntersectIs(a[1..], b[1..]);
        forall w | w in a[1..] && w in b[1..]
          ensures Less(a[0], w)
        {
        }
      } else if Less(a[0], b[0]) {
        IntersectIs(a[1..], b);
        HeadNotIn(a[0], b);
      } else {
        LessTotal(a[0], b[0]);
        IntersectIs(a, b[1..]);
        HeadNotIn(b[0], a);
      }
    }
  }

  lemma AtomTokensSorted(atom: Atom)
    ensures StrictlySorted(AtomTokens(atom))
  {
    SortedSetIs(FieldTokens(atom.claim) + FieldTokens(atom.title) + atom.tags);
  }

  lemma SharedIs(tokens: seq<string>, atom: Atom)
    requires StrictlySorted(tokens)
    ensures StrictlySorted(Shared(tokens, atom))
    ensures forall w :: w in Shared(tokens, atom) <==> w in tokens && w in AtomTokens(atom)
    ensures Count(tokens, atom) <= |tokens|
    ensures Count(tokens, atom) > 0 <==> exists w :: w in tokens && w in AtomTokens(atom)
  {
    hide AtomTokens, Less, StrictlySorted, Intersect;
    AtomTokensSorted(atom);
    IntersectIs(tokens, AtomTokens(atom));
    if Count(tokens, atom) > 0 {
      assert Shared(tokens, atom)[0] in Shared(tokens, atom);
    }
  }

  // ---------- the best atom for one requirement ----------

  datatype Best = Best(score: real, id: Option<string>, evidence: seq<string>)

  function TokenMap(candidates: seq<Atom>): map<string, seq<string>> {
    if candidates == [] then map[] else
      var last := candidates[|candidates| - 1];
      TokenMap(candidates[..|candidates| - 1])[last.atomId := AtomTokens(last)]
  }

  function TokensAt(m: map<string, seq<string>>, id: string): seq<string> { if id in m then m[id] else [] }

  function BestOf(reqTokens: seq<string>, candidates: seq<Atom>, tokens: map<string, seq<string>>): Best
    requires reqTokens != []
  {
    if candidates == [] then Best(0.0, None, []) else
      var best := BestOf(reqTokens, candidates[..|candidates| - 1], tokens);
      var atom := candidates[|candidates| - 1];
      var shared := Intersect(reqTokens, TokensAt(tokens, atom.atomId));
      var score := Score(|shared|, |reqTokens|);
      if score > best.score || (score == best.score && (best.id == None || Less(atom.atomId, best.id.value)))
      then Best(score, Some(atom.atomId), shared) else best
  }

  function MatchFor(req: Requirement, candidates: seq<Atom>): RequirementMatch {
    var reqTokens := FieldTokens(req.text);
    if reqTokens == [] then RequirementMatch(req.text, false, 0.0, None, []) else
      var best := BestOf(reqTokens, candidates, TokenMap(candidates));
      if best.score > 0.0 && best.id.Some? then RequirementMatch(req.text, true, best.score, best.id, best.evidence)
      else RequirementMatch(req.text, false, best.score, None, [])
  }

  ghost predicate DistinctIds(atoms: seq<Atom>) {
    forall i, j :: 0 <= i < j < |atoms| ==> atoms[i].atomId != atoms[j].atomId
  }

  /** Atom c shares the most tokens; among those that share as many it has the least id. */
  ghost predicate Wins(tokens: seq<string>, c: Atom, candidates: seq<Atom>) {
    c in candidates && forall d :: d in candidates ==> NoBetter(tokens, d, c)
  }

  predicate NoBetter(tokens: seq<string>, d: Atom, c: Atom) {
    || Count(tokens, d) < Count(tokens, c)
    || (Count(tokens, d) == Count(tokens, c) && (d.atomId == c.atomId || Less(c.atomId, d.atomId)))
  }

  lemma QuotientGrows(a: nat, b: nat, size: nat)
    requires size > 0 && a > b
    ensures Score(a, size) > Score(b, size)
  {
    var n := size as real;
    var x, y := Score(a, size), Score(b, size);
    assert a as real == x * n && b as real == y * n;
    assert (x - y) * n > 0.0;
  }

  lemma ScoreOrder(a: nat, b: nat, size: nat)
    requires size > 0
    ensures Score(a, size) > Score(b, size) <==> a > b
    ensures Score(a, size) == Score(b, size) <==> a == b
    ensures Score(a, size) >= 0.0 && (Score(a, size) > 0.0 <==> a > 0)
    ensures a <= size ==> Score(a, size) <= 1.0
  {
    hide Score;
    ScoreEnds(size);
    if a > b {
      QuotientGrows(a, b, size);
    } else if b > a {
      QuotientGrows(b, a, size);
    }
    if a > 0 {
      QuotientGrows(a, 0, size);
    }
    if a < size {
      QuotientGrows(size, a, size);
    }
  }

  lemma ScoreEnds(size: nat)
    requires size > 0
    ensures Score(0, size) == 0.0 && Score(size, size) == 1.0
  {
  }

  lemma {:induction false} TokenMapIs(candidates: seq<Atom>, c: Atom)
    requires DistinctIds(candidates) && c in candidates
    ensures TokensAt(TokenMap(candidates), c.atomId) == AtomTokens(c)
  {
    hide AtomTokens;
    var n := |candidates| - 1;
    assert candidates == candidates[..n] + [candidates[n]];
    if c != candidates[n] {
      TokenMapIs(candidates[..n], c);
    }
  }

  lemma NoBetterTransitive(tokens: seq<string>, a: Atom, b: Atom, c: Atom)
    requires NoBetter(tokens, a, b) && NoBetter(tokens, b, c)
    ensures NoBetter(tokens, a, c)
  {
    hide Count;
    if b.atomId != c.atomId && a.atomId != b.atomId && Less(c.atomId, b.atomId) && Less(b.atomId, a.atomId) {
      LessTransitive(c.atomId, b.atomId, a.atomId);
    }
  }

  lemma {:induction false} BestOfWins(reqTokens: seq<string>, candidates: seq<Atom>, tokens: map<string, seq<string>>)
    returns (c: Atom)
    requires reqTokens != [] && candidates != []
    requires forall d :: d in candidates ==> TokensAt(tokens, d.atomId) == AtomTokens(d)
    ensures Wins(reqTokens, c, candidates)
    ensures BestOf(reqTokens, candidates, tokens)
            == Best(Score(Count(reqTokens, c), |reqTokens|), Some(c.atomId), Shared(reqTokens, c))
  {
    hide Intersect, AtomTokens, Less, TokensAt;
    var n := |candidates| - 1;
    var last := candidates[n];
    assert candidates == candidates[..n] + [last];
    assert Intersect(reqTokens, TokensAt(tokens, last.atomId)) == Shared(reqTokens, last);
    ScoreOrder(Count(reqTokens, last), 0, |reqTokens|);
    if n == 0 {
      c := last;
    } else {
      var b := BestOfWins(reqTokens, candidates[..n], tokens);
      ScoreOrder(Count(reqTokens, last), Count(reqTokens, b), |reqTokens|);
      LessTotal(last.atomId, b.atomId);
      hide Shared, Score, Count;
      if NoBetter(reqTokens, last, b) {
        c := b;
        if Count(reqTokens, last) == Count(reqTokens, b) && Less(last.atomId, b.atomId) {
          LessAntisymmetric(last.atomId, b.atomId);
        }
      } else {
        c := last;
        forall d | d in candidates[..n]
          ensures NoBetter(reqTokens, d, last)
        {
          NoBetterTransitive(reqTokens, d, b, last);
        }
      }
    }
  }

  lemma LessAntisymmetric(a: string, b: string)
    requires Less(a, b)
    ensures !Less(b, a) && a != b
  {
    LessIrreflexive(a);
    if Less(b, a) {
      LessTransitive(a, b, a);
    }
  }

  lemma SameIdSameAtom(atoms: seq<Atom>, c: Atom, d: Atom)
    requires DistinctIds(atoms) && c in atoms && d in atoms && c.atomId == d.atomId
    ensures c == d
  {
    var i :| 0 <= i < |atoms| && atoms[i] == c;
    var j :| 0 <= j < |atoms| && atoms[j] == d;
  }

  lemma WinnerUnique(tokens: seq<string>, c: Atom, d: Atom, cs: seq<Atom>, ds: seq<Atom>)
    requires DistinctIds(cs) && forall x :: x in cs <==> x in ds
    requires Wins(tokens, c, cs) && Wins(tokens, d, ds)
    ensures c == d
  {
    hide Count, Less;
    assert NoBetter(tokens, d, c) && NoBetter(tokens, c, d);
    if c.atomId != d.atomId {
      LessAntisymmetric(c.atomId, d.atomId);
    }
    SameIdSameAtom(cs, c, d);
  }

  /** Whatever the ids, a reported best is one of the candidates and its score counts its evidence. */
  lemma {:induction false} BestOfSound(reqTokens: seq<string>, candidates: seq<Atom>, tokens: map<string, seq<string>>)
    requires reqTokens != []
    ensures
      var b := BestOf(reqTokens, candidates, tokens);
      && (b.id.None? ==> b.score == 0.0 && b.evidence == [])
      && (b.id.Some? ==> |b.evidence| <= |reqTokens| && b.score == Score(|b.evidence|, |reqTokens|)
                         && exists c :: c in candidates && c.atomId == b.id.value)
  {
    hide Intersect, TokensAt, Less, Score;
    if candidates != [] {
      var n := |candidates| - 1;
      assert candidates == candidates[..n] + [candidates[n]];
      BestOfSound(reqTokens, candidates[..n], tokens);
      IntersectLength(reqTokens, TokensAt(tokens, candidates[n].atomId));
    }
  }

  lemma {:induction false} IntersectLength(a: seq<string>, b: seq<string>)
    ensures |Intersect(a, b)| <= |a|
    decreases |a| + |b|
  {
    if a != [] && b != [] {
      IntersectLength(a[1..], b[1..]);
      IntersectLength(a[1..], b);
      IntersectLength(a, b[1..]);
    }
  }

  /** What holds of every entry of every report. */
  ghost predicate SoundMatch(m: RequirementMatch, req: Requirement, candidates: seq<Atom>) {
    && m.requirementText == req.text
    && 0.0 <= m.bestScore <= 1.0
    && (m.bestScore > 0.0 <==> m.matched)
    && (m.matched ==> m.evidenceTokens != [] && m.contributingAtomId.Some?
                      && exists c :: c in candidates && c.atomId == m.contributingAtomId.value)
    && (!m.matched ==> m.contributingAtomId == None && m.evidenceTokens == [])
  }

  lemma MatchSound(req: Requirement, candidates: seq<Atom>)
    ensures SoundMatch(MatchFor(req, candidates), req, candidates)
  {
    hide FieldTokens, TokenMap, BestOf, Score;
    var reqTokens := FieldTokens(req.text);
    if reqTokens != [] {
      var best := BestOf(reqTokens, candidates, TokenMap(candidates));
      BestOfSound(reqTokens, candidates, TokenMap(candidates));
      ScoreOrder(|best.evidence|, 0, |reqTokens|);
    }
  }

  function MatchWith(text: string, tokens: seq<string>, c: Atom): RequirementMatch
    requires tokens != []
  {
    RequirementMatch(text, true, Score(Count(tokens, c), |tokens|), Some(c.atomId), Shared(tokens, c))
  }

  /**
   With distinct ids, a requirement is matched exactly when some candidate shares a token with it; the match
   is the candidate sharing the most tokens, the least id among equals; the evidence is the shared tokens.
   */
  ghost predicate IsBestMatch(m: RequirementMatch, req: Requirement, candidates: seq<Atom>) {
    var tokens := FieldTokens(req.text);
    && (m.matched <==> exists c :: c in candidates && Count(tokens, c) > 0)
    && (m.matched ==> tokens != [] && exists c :: Wins(tokens, c, candidates) && m == MatchWith(req.text, tokens, c))
    && (!m.matched ==> m == RequirementMatch(req.text, false, 0.0, None, []))
  }

  lemma MatchIsBest(req: Requirement, candidates: seq<Atom>)
    requires DistinctIds(candidates)
    ensures IsBestMatch(MatchFor(req, candidates), req, candidates)
  {
    hide FieldTokens, TokenMap, BestOf, Shared, AtomTokens, Less, TokensAt;
    var tokens := FieldTokens(req.text);
    if tokens == [] {
      forall c
        ensures Count(tokens, c) == 0
      {
        NothingShared(c);
      }
    } else if candidates == [] {
      NoCandidates(tokens);
    } else {
      forall d | d in candidates
        ensures TokensAt(TokenMap(candidates), d.atomId) == AtomTokens(d)
      {
        TokenMapIs(candidates, d);
      }
      var c := BestOfWins(tokens, candidates, TokenMap(candidates));
      ScoreOrder(Count(tokens, c), 0, |tokens|);
    }
  }

  lemma NothingShared(c: Atom)
    ensures Count([], c) == 0
  {
  }

  lemma NoCandidates(tokens: seq<string>)
    requires tokens != []
    ensures BestOf(tokens, [], TokenMap([])) == Best(0.0, None, [])
  {
  }

  /** The match depends on which atoms are candidates, not on their order. */
  lemma MatchByMembers(req: Requirement, cs: seq<Atom>, ds: seq<Atom>)
    requires DistinctIds(cs) && DistinctIds(ds) && forall x :: x in cs <==> x in ds
    ensures MatchFor(req, cs) == MatchFor(req, ds)
  {
    hide FieldTokens, MatchFor, Count, Shared, Wins, Score;
    MatchIsBest(req, cs);
    MatchIsBest(req, ds);
    var tokens := FieldTokens(req.text);
    var m, n := MatchFor(req, cs), MatchFor(req, ds);
    if m.matched {
      var c :| Wins(tokens, c, cs) && m == MatchWith(req.text, tokens, c);
      var d :| Wins(tokens, d, ds) && n == MatchWith(req.text, tokens, d);
      WinnerUnique(tokens, c, d, cs, ds);
    }
  }

  // ---------- candidate selection ----------

  function Verified(atoms: seq<Atom>): (r: seq<Atom>)
    ensures forall a :: a in r <==> a in atoms && a.verified
  {
    if atoms == [] then [] else
      var n := |atoms| - 1;
      assert atoms == atoms[..n] + [atoms[n]];
      Verified(atoms[..n]) + if atoms[n].verified then [atoms[n]] else []
  }

  function AllFieldTokens(reqs: seq<Requirement>): seq<string> {
    if reqs == [] then [] else AllFieldTokens(reqs[..|reqs| - 1]) + FieldTokens(reqs[|reqs| - 1].text)
  }

  function QueryTokens(opp: Opportunity): seq<string> { SortedSet(AllFieldTokens(opp.requirements)) }

  /** Higher overlap first, then the lesser id. */
  predicate Before(q: seq<string>, a: Atom, b: Atom) {
    Count(q, a) > Count(q, b) || (Count(q, a) == Count(q, b) && Less(a.atomId, b.atomId))
  }

  function RankInsert(q: seq<string>, ranked: seq<Atom>, x: Atom): seq<Atom> {
    if ranked == [] || Before(q, x, ranked[0]) then [x] + ranked
    else [ranked[0]] + RankInsert(q, ranked[1..], x)
  }

  function Rank(q: seq<string>, atoms: seq<Atom>): seq<Atom> {
    if atoms == [] then [] else RankInsert(q, Rank(q, atoms[..|atoms| - 1]), atoms[|atoms| - 1])
  }

  function Ids(atoms: seq<Atom>): (r: seq<string>)
    ensures |r| == |atoms| && forall i :: 0 <= i < |atoms| ==> r[i] == atoms[i].atomId
  {
    seq(|atoms|, i requires 0 <= i < |atoms| => atoms[i].atomId)
  }

  function Top(ranked: seq<Atom>, k: nat): seq<Atom> { if k <= |ranked| then ranked[..k] else ranked }

  function AtomMap(atoms: seq<Atom>): map<string, Atom> {
    if atoms == [] then map[] else AtomMap(atoms[..|atoms| - 1])[atoms[|atoms| - 1].atomId := atoms[|atoms| - 1]]
  }

  /** The atoms with the given ids, in the order of the ids; unknown ids are passed over. */
  function Lookup(ids: seq<string>, m: map<string, Atom>): seq<Atom> {
    if ids == [] then [] else
      Lookup(ids[..|ids| - 1], m) + if ids[|ids| - 1] in m then [m[ids[|ids| - 1]]] else []
  }

  function AllVerified(atoms: seq<Atom>): (seq<Atom>, RetrievalStats) {
    (Verified(atoms), RetrievalStats(|Verified(atoms)|, 0, |Verified(atoms)|))
  }

  /** The ids the lexical stage keeps. */
  function LexicalIds(config: Config, opp: Opportunity, atoms: seq<Atom>): seq<string> {
    SortedSet(Ids(Top(Rank(QueryTokens(opp), Verified(atoms)), config.kLexical)))
  }

  /** `hits` are the keys the vector index returned, none when there is no provider, index or embedding. */
  function Select(config: Config, opp: Opportunity, atoms: seq<Atom>, hits: seq<string>): (seq<Atom>, RetrievalStats) {
    if config.strategy == DeterministicLexicalV01 || QueryTokens(opp) == [] then AllVerified(atoms)
    else
      var lexical := LexicalIds(config, opp, atoms);
      var embedding := SortedSet(hits);
      var merged := SortedSet(lexical + embedding);
      (Lookup(merged, AtomMap(atoms)), RetrievalStats(|lexical|, |embedding|, |merged|))
  }

  // ---------- the report ----------

  function Matches(reqs: seq<Requirement>, candidates: seq<Atom>): (ms: seq<RequirementMatch>)
    ensures |ms| == |reqs| && forall i :: 0 <= i < |reqs| ==> ms[i] == MatchFor(reqs[i], candidates)
  {
    seq(|reqs|, i requires 0 <= i < |reqs| => MatchFor(reqs[i], candidates))
  }

  /** The texts of the unmatched requirements, in order. */
  function Missing(ms: seq<RequirementMatch>): seq<string> {
    if ms == [] then [] else
      Missing(ms[..|ms| - 1]) + if ms[|ms| - 1].matched then [] else [ms[|ms| - 1].requirementText]
  }

  function Total(ms: seq<RequirementMatch>): real {
    if ms == [] then 0.0 else Total(ms[..|ms| - 1]) + ms[|ms| - 1].bestScore
  }

  function MatchedIds(ms: seq<RequirementMatch>): seq<string> {
    if ms == [] then [] else
      var m := ms[|ms| - 1];
      MatchedIds(ms[..|ms| - 1]) + if m.matched && m.contributingAtomId.Some? then [m.contributingAtomId.value] else []
  }

  function Overall(ms: seq<RequirementMatch>): real {
    if ms == [] then 0.0 else Total(ms) / |ms| as real
  }

  function ReportOf(config: Config, opp: Opportunity, candidates: seq<Atom>, stats: RetrievalStats): MatchReport {
    var ms := Matches(opp.requirements, candidates);
    var overall := Overall(ms);
    MatchReport(opp.opportunityId, config.strategy, overall, ms, Missing(ms), stats, SortedSet(MatchedIds(ms)),
                ScoreBreakdown(overall, 0.0, 0.0, config.lexicalWeight * overall))
  }

  function Report(config: Config, opp: Opportunity, atoms: seq<Atom>, hits: seq<string>): MatchReport {
    var (candidates, stats) := Select(config, opp, atoms, hits);
    ReportOf(config, opp, candidates, stats)
  }

  lemma {:induction false} TotalBounds(ms: seq<RequirementMatch>)
    requires forall i :: 0 <= i < |ms| ==> 0.0 <= ms[i].bestScore <= 1.0 && (ms[i].bestScore > 0.0 <==> ms[i].matched)
    ensures 0.0 <= Total(ms) <= |ms| as real
    ensures Total(ms) > 0.0 <==> exists i :: 0 <= i < |ms| && ms[i].matched
  {
    if ms != [] {
      var n := |ms| - 1;
      TotalBounds(ms[..n]);
      if exists i :: 0 <= i < |ms[..n]| && ms[..n][i].matched {
        var i :| 0 <= i < |ms[..n]| && ms[..n][i].matched;
        assert ms[i].matched;
      }
    }
  }

  /** Every report: sound entries, an overall score in [0, 1], positive exactly when something matched. */
  lemma ReportSound(config: Config, opp: Opportunity, candidates: seq<Atom>, stats: RetrievalStats)
    ensures
      var r := ReportOf(config, opp, candidates, stats);
      && |r.requirementMatches| == |opp.requirements|
      && (forall i :: 0 <= i < |opp.requirements| ==>
            SoundMatch(r.requirementMatches[i], opp.requirements[i], candidates))
      && 0.0 <= r.overallScore <= 1.0
      && (r.overallScore > 0.0 <==> exists i :: 0 <= i < |opp.requirements| && r.requirementMatches[i].matched)
  {
    hide MatchFor, Missing, MatchedIds;
    var ms := Matches(opp.requirements, candidates);
    forall i | 0 <= i < |ms|
      ensures SoundMatch(ms[i], opp.requirements[i], candidates)
    {
      MatchSound(opp.requirements[i], candidates);
    }
    TotalBounds(ms);
    if ms != [] {
      AverageBounds(Total(ms), |ms|);
    }
  }

  lemma AverageBounds(total: real, n: nat)
    requires n > 0 && 0.0 <= total <= n as real
    ensures 0.0 <= total / n as real <= 1.0 && (total / n as real > 0.0 <==> total > 0.0)
  {
    var q := total / n as real;
    assert total == q * n as real;
    assert q > 1.0 ==> (q - 1.0) * n as real > 0.0;
    assert q < 0.0 ==> q * n as real < 0.0;
  }
}
