/** What matching promises: the order of the atoms does not matter, and hybrid retrieval loses no requirement. */
module MatchingLaws {
  import opened Strings
  import opened Normalization
  import opened Domain
  import opened Matching
  import T = Tokenization

  // ---------- lists of atoms with distinct ids ----------

  ghost predicate SameAtoms(a: seq<Atom>, b: seq<Atom>) { forall x :: x in a <==> x in b }

  function IdSet(atoms: seq<Atom>): set<string> { set a | a in atoms :: a.atomId }

  lemma {:induction false} IdSetSize(atoms: seq<Atom>)
    requires DistinctIds(atoms)
    ensures |IdSet(atoms)| == |atoms|
  {
    if atoms != [] {
      var n := |atoms| - 1;
      IdSetSize(atoms[..n]);
      assert atoms == atoms[..n] + [atoms[n]];
      assert IdSet(atoms) == IdSet(atoms[..n]) + {atoms[n].atomId};
    }
  }

  lemma SameLength(a: seq<Atom>, b: seq<Atom>)
    requires DistinctIds(a) && DistinctIds(b) && SameAtoms(a, b)
    ensures |a| == |b|
  {
    IdSetSize(a);
    IdSetSize(b);
    assert IdSet(a) == IdSet(b);
  }

  lemma {:induction false} VerifiedDistinct(atoms: seq<Atom>)
    requires DistinctIds(atoms)
    ensures DistinctIds(Verified(atoms))
  {
    if atoms != [] {
      var n := |atoms| - 1;
      VerifiedDistinct(atoms[..n]);
      forall a | a in Verified(atoms[..n])
        ensures a.atomId != atoms[n].atomId
      {
        assert a in atoms[..n];
      }
    }
  }

  // ---------- ranking ----------

  ghost predicate Ranked(q: seq<string>, atoms: seq<Atom>) {
    forall i, j :: 0 <= i < j < |atoms| ==> Before(q, atoms[i], atoms[j])
  }

  lemma BeforeTransitive(q: seq<string>, a: Atom, b: Atom, c: Atom)
    requires Before(q, a, b) && Before(q, b, c)
    ensures Before(q, a, c)
  {
    hide Count, Less;
    if Less(a.atomId, b.atomId) && Less(b.atomId, c.atomId) {
      LessTransitive(a.atomId, b.atomId, c.atomId);
    }
  }

  lemma BeforeTotal(q: seq<string>, a: Atom, b: Atom)
    ensures a.atomId == b.atomId || Before(q, a, b) || Before(q, b, a)
    ensures !(Before(q, a, b) && Before(q, b, a))
  {
    hide Count, Less;
    LessTotal(a.atomId, b.atomId);
    if Less(a.atomId, b.atomId) {
      LessAntisymmetric(a.atomId, b.atomId);
    }
  }

  lemma {:induction false} RankInsertIs(q: seq<string>, ranked: seq<Atom>, x: Atom)
    requires Ranked(q, ranked) && forall a :: a in ranked ==> a.atomId != x.atomId
    ensures Ranked(q, RankInsert(q, ranked, x))
    ensures forall a :: a in RankInsert(q, ranked, x) <==> a in ranked || a == x
  {
    hide Before;
    if ranked == [] {
    } else if Before(q, x, ranked[0]) {
      forall j | 0 <= j < |ranked|
        ensures Before(q, x, ranked[j])
      {
        if j > 0 {
          BeforeTransitive(q, x, ranked[0], ranked[j]);
        }
      }
    } else {
      BeforeTotal(q, x, ranked[0]);
      assert ranked == [ranked[0]] + ranked[1..];
      RankInsertIs(q, ranked[1..], x);
      var r := RankInsert(q, ranked[1..], x);
      forall j | 0 <= j < |r|
        ensures Before(q, ranked[0], r[j])
      {
        assert r[j] in r;
      }
    }
  }

  /** Ranking sorts: best overlap first, the lesser id among equals, nothing lost or added. */
  lemma {:induction false} RankIs(q: seq<string>, atoms: seq<Atom>)
    requires DistinctIds(atoms)
    ensures Ranked(q, Rank(q, atoms)) && SameAtoms(Rank(q, atoms), atoms)
    ensures |Rank(q, atoms)| == |atoms|
  {
    hide Before;
    if atoms != [] {
      var n := |atoms| - 1;
      assert atoms == atoms[..n] + [atoms[n]];
      RankIs(q, atoms[..n]);
      RankInsertIs(q, Rank(q, atoms[..n]), atoms[n]);
      RankInsertLength(q, Rank(q, atoms[..n]), atoms[n]);
    }
  }

  lemma {:induction false} RankInsertLength(q: seq<string>, ranked: seq<Atom>, x: Atom)
    ensures |RankInsert(q, ranked, x)| == |ranked| + 1
  {
    if ranked != [] && !Before(q, x, ranked[0]) {
      RankInsertLength(q, ranked[1..], x);
    }
  }

  lemma {:induction false} RankedUnique(q: seq<string>, a: seq<Atom>, b: seq<Atom>)
    requires Ranked(q, a) && Ranked(q, b) && SameAtoms(a, b)
    ensures a == b
  {
    hide Before;
    if a == [] {
      assert forall i :: 0 <= i < |b| ==> b[i] in b;
    } else {
      assert a[0] in a && a[0] in b;
      if a[0] != b[0] {
        assert b[0] in b && b[0] in a;
        BeforeTotal(q, a[0], b[0]);
      }
      RankedTail(q, a);
      RankedTail(q, b);
      RankedUnique(q, a[1..], b[1..]);
      assert a == [a[0]] + a[1..] && b == [b[0]] + b[1..];
    }
  }

  lemma RankedTail(q: seq<string>, a: seq<Atom>)
    requires a != [] && Ranked(q, a)
    ensures Ranked(q, a[1..])
    ensures forall x :: x in a[1..] <==> x in a && x != a[0]
  {
    hide Before;
    assert a == [a[0]] + a[1..];
    BeforeTotal(q, a[0], a[0]);
  }

  // ---------- lookup by id ----------

  lemma {:induction false} AtomMapIs(atoms: seq<Atom>)
    requires DistinctIds(atoms)
    ensures forall a :: a in atoms ==> a.atomId in AtomMap(atoms) && AtomMap(atoms)[a.atomId] == a
    ensures forall id :: id in AtomMap(atoms) ==> AtomMap(atoms)[id] in atoms && AtomMap(atoms)[id].atomId == id
  {
    if atoms != [] {
      var n := |atoms| - 1;
      AtomMapIs(atoms[..n]);
      assert atoms == atoms[..n] + [atoms[n]];
    }
  }

  lemma AtomMapByMembers(a: seq<Atom>, b: seq<Atom>)
    requires DistinctIds(a) && DistinctIds(b) && SameAtoms(a, b)
    ensures AtomMap(a) == AtomMap(b)
  {
    AtomMapIs(a);
    AtomMapIs(b);
    assert forall id :: id in AtomMap(a) ==> AtomMap(a)[id] in b;
    assert forall id :: id in AtomMap(b) ==> AtomMap(b)[id] in a;
  }

  lemma {:induction false} LookupIs(ids: seq<string>, m: map<string, Atom>)
    requires StrictlySorted(ids) && forall id :: id in m ==> m[id].atomId == id
    ensures DistinctIds(Lookup(ids, m))
    ensures forall a :: a in Lookup(ids, m) <==> a.atomId in ids && a.atomId in m && m[a.atomId] == a
  {
    if ids != [] {
      var n := |ids| - 1;
      LookupIs(ids[..n], m);
      assert ids == ids[..n] + [ids[n]];
      forall a | a in Lookup(ids[..n], m)
        ensures a.atomId != ids[n]
      {
        LessIrreflexive(ids[n]);
      }
    }
  }

  // ---------- the order of the atoms does not matter ----------

  lemma SelectByMembers(config: Config, opp: Opportunity, a: seq<Atom>, b: seq<Atom>, hits: seq<string>)
    requires DistinctIds(a) && DistinctIds(b) && SameAtoms(a, b)
    ensures SameAtoms(Select(config, opp, a, hits).0, Select(config, opp, b, hits).0)
    ensures DistinctIds(Select(config, opp, a, hits).0)
    ensures Select(config, opp, a, hits).1 == Select(config, opp, b, hits).1
  {
    hide Rank, AtomMap, Lookup, QueryTokens, SortedSet;
    VerifiedDistinct(a);
    VerifiedDistinct(b);
    SameLength(Verified(a), Verified(b));
    if !(config.strategy == DeterministicLexicalV01 || QueryTokens(opp) == []) {
      var q := QueryTokens(opp);
      RankIs(q, Verified(a));
      RankIs(q, Verified(b));
      RankedUnique(q, Rank(q, Verified(a)), Rank(q, Verified(b)));
      AtomMapByMembers(a, b);
      AtomMapIs(a);
      var merged := SortedSet(LexicalIds(config, opp, a) + SortedSet(hits));
      SortedSetIs(LexicalIds(config, opp, a) + SortedSet(hits));
      LookupIs(merged, AtomMap(a));
    }
  }

  /** The whole report is the same for every ordering of the atoms, in both modes, whatever the index returns. */
  lemma ReportByMembers(config: Config, opp: Opportunity, a: seq<Atom>, b: seq<Atom>, hits: seq<string>)
    requires DistinctIds(a) && DistinctIds(b) && SameAtoms(a, b)
    ensures Report(config, opp, a, hits) == Report(config, opp, b, hits)
  {
    hide Select, MatchFor;
    SelectByMembers(config, opp, a, b, hits);
    SelectByMembers(config, opp, b, a, hits);
    var ca, cb := Select(config, opp, a, hits).0, Select(config, opp, b, hits).0;
    forall i | 0 <= i < |opp.requirements|
      ensures MatchFor(opp.requirements[i], ca) == MatchFor(opp.requirements[i], cb)
    {
      MatchByMembers(opp.requirements[i], ca, cb);
    }
    assert Matches(opp.requirements, ca) == Matches(opp.requirements, cb);
  }

  // ---------- lexical mode ----------

  /** The positions of the unmatched entries, in order, are where the missing texts come from. */
  ghost predicate ListsUnmatched(missing: seq<string>, ms: seq<RequirementMatch>, at: seq<nat>) {
    && |at| == |missing|
    && (forall j, k :: 0 <= j < k < |at| ==> at[j] < at[k])
    && (forall k :: 0 <= k < |at| ==> at[k] < |ms| && !ms[at[k]].matched && missing[k] == ms[at[k]].requirementText)
    && (forall i :: 0 <= i < |ms| && !ms[i].matched ==> i in at)
  }

  lemma ListsUnmatchedSnoc(missing: seq<string>, ms: seq<RequirementMatch>, at: seq<nat>, m: RequirementMatch)
    requires ListsUnmatched(missing, ms, at)
    ensures m.matched ==> ListsUnmatched(missing, ms + [m], at)
    ensures !m.matched ==> ListsUnmatched(missing + [m.requirementText], ms + [m], at + [|ms|])
  {
    if !m.matched {
      var more := at + [|ms|];
      forall i | 0 <= i < |ms + [m]| && !(ms + [m])[i].matched
        ensures i in more
      {
        assert i < |ms| ==> i in at;
        assert more[|at|] == |ms|;
      }
    }
  }

  lemma {:induction false} MissingIsUnmatched(ms: seq<RequirementMatch>) returns (at: seq<nat>)
    ensures ListsUnmatched(Missing(ms), ms, at)
  {
    hide ListsUnmatched;
    if ms == [] {
      at := [];
      NothingMissing();
    } else {
      var n := |ms| - 1;
      at := MissingIsUnmatched(ms[..n]);
      ListsUnmatchedSnoc(Missing(ms[..n]), ms[..n], at, ms[n]);
      assert ms == ms[..n] + [ms[n]] && |ms[..n]| == n;
      assert Missing(ms[..n]) + [] == Missing(ms[..n]);
      at := if ms[n].matched then at else at + [n];
    }
  }

  lemma NothingMissing()
    ensures ListsUnmatched([], [], [])
  {
  }

  lemma {:induction false} MatchedIdsAre(ms: seq<RequirementMatch>)
    ensures forall id :: id in MatchedIds(ms) <==> exists m :: m in ms && m.matched && m.contributingAtomId == Some(id)
  {
    if ms != [] {
      var n := |ms| - 1;
      MatchedIdsAre(ms[..n]);
      assert ms == ms[..n] + [ms[n]];
    }
  }

  /** The two summaries of any report: the unmatched texts in order, and the contributing atoms once each, by id. */
  lemma ReportLists(config: Config, opp: Opportunity, atoms: seq<Atom>, hits: seq<string>) returns (at: seq<nat>)
    ensures
      var r := Report(config, opp, atoms, hits);
      && ListsUnmatched(r.missingRequirements, r.requirementMatches, at)
      && StrictlySorted(r.matchedAtoms)
      && forall id :: id in r.matchedAtoms <==>
           exists m :: m in r.requirementMatches && m.matched && m.contributingAtomId == Some(id)
  {
    hide MatchFor, Missing, MatchedIds, SortedSet, StrictlySorted, Select, ListsUnmatched;
    var ms := Report(config, opp, atoms, hits).requirementMatches;
    at := MissingIsUnmatched(ms);
    MatchedIdsAre(ms);
    SortedSetIs(MatchedIds(ms));
  }

  /** Lexical mode with distinct ids: every entry is the best match over all verified atoms. */
  lemma LexicalReportIsBest(config: Config, opp: Opportunity, atoms: seq<Atom>, hits: seq<string>, i: nat)
    requires config.strategy == DeterministicLexicalV01 && DistinctIds(atoms) && i < |opp.requirements|
    ensures
      var r := Report(config, opp, atoms, hits);
      && IsBestMatch(r.requirementMatches[i], opp.requirements[i], Verified(atoms))
      && 0.0 <= r.overallScore <= 1.0
  {
    hide MatchFor, IsBestMatch, SoundMatch;
    VerifiedDistinct(atoms);
    MatchIsBest(opp.requirements[i], Verified(atoms));
    ReportSound(config, opp, Verified(atoms), AllVerified(atoms).1);
  }

  // ---------- hybrid against lexical ----------

  /** No hit names an unverified atom; in particular this holds when every atom is verified. */
  ghost predicate HitsVerified(atoms: seq<Atom>, hits: seq<string>) {
    forall a :: a in atoms && a.atomId in hits ==> a.verified
  }

  ghost predicate Shares(req: Requirement, a: Atom) { Count(FieldTokens(req.text), a) > 0 }

  lemma SharesIff(req: Requirement, a: Atom)
    ensures Shares(req, a) <==> exists w :: w in FieldTokens(req.text) && w in AtomTokens(a)
  {
    hide Count, AtomTokens;
    T.TokenSetIs(req.text);
    SharedIs(FieldTokens(req.text), a);
  }

  lemma {:induction false} AllFieldTokensAre(reqs: seq<Requirement>)
    ensures forall w :: w in AllFieldTokens(reqs) <==> exists r :: r in reqs && w in FieldTokens(r.text)
  {
    hide FieldTokens;
    if reqs != [] {
      var n := |reqs| - 1;
      AllFieldTokensAre(reqs[..n]);
      assert forall r :: r in reqs <==> r in reqs[..n] || r == reqs[n];
    }
  }

  /** An atom overlaps the combined query exactly when it shares a token with some requirement. */
  lemma QueryOverlapIff(opp: Opportunity, a: Atom)
    ensures Count(QueryTokens(opp), a) > 0 <==> exists r :: r in opp.requirements && Shares(r, a)
  {
    hide Count, AtomTokens, FieldTokens, Shares;
    AllFieldTokensAre(opp.requirements);
    SortedSetIs(AllFieldTokens(opp.requirements));
    SharedIs(QueryTokens(opp), a);
    forall r {
      SharesIff(r, a);
    }
    if exists r :: r in opp.requirements && Shares(r, a) {
      var r :| r in opp.requirements && Shares(r, a);
      var w :| w in FieldTokens(r.text) && w in AtomTokens(a);
      assert w in QueryTokens(opp);
    }
    if Count(QueryTokens(opp), a) > 0 {
      var w :| w in QueryTokens(opp) && w in AtomTokens(a);
      var r :| r in opp.requirements && w in FieldTokens(r.text);
      assert Shares(r, a);
    }
  }

  ghost predicate HasMatch(r: MatchReport) {
    exists i :: 0 <= i < |r.requirementMatches| && r.requirementMatches[i].matched
  }

  lemma HasMatchIff(config: Config, opp: Opportunity, candidates: seq<Atom>, stats: RetrievalStats)
    requires DistinctIds(candidates)
    ensures HasMatch(ReportOf(config, opp, candidates, stats)) <==>
            exists r, c :: r in opp.requirements && c in candidates && Shares(r, c)
  {
    hide MatchFor, Count, FieldTokens, Missing, MatchedIds;
    var ms := Matches(opp.requirements, candidates);
    forall i | 0 <= i < |ms|
      ensures ms[i].matched <==> exists c :: c in candidates && Shares(opp.requirements[i], c)
    {
      MatchIsBest(opp.requirements[i], candidates);
    }
    if exists r, c :: r in opp.requirements && c in candidates && Shares(r, c) {
      var r, c :| r in opp.requirements && c in candidates && Shares(r, c);
      var i :| 0 <= i < |opp.requirements| && opp.requirements[i] == r;
      assert ms[i].matched;
    }
    if HasMatch(ReportOf(config, opp, candidates, stats)) {
      var i :| 0 <= i < |ms| && ms[i].matched;
      assert opp.requirements[i] in opp.requirements;
    }
  }

  /** Hybrid candidates are exactly the atoms the lexical stage kept and the atoms the hits name. */
  lemma HybridCandidateIff(config: Config, opp: Opportunity, atoms: seq<Atom>, hits: seq<string>, c: Atom)
    requires config.strategy == HybridLexicalEmbeddingV02 && QueryTokens(opp) != [] && DistinctIds(atoms)
    ensures c in Select(config, opp, atoms, hits).0 <==>
            || c in Top(Rank(QueryTokens(opp), Verified(atoms)), config.kLexical)
            || (c in atoms && c.atomId in hits)
  {
    hide Rank, AtomMap, Lookup, QueryTokens, SortedSet, Top;
    var top := Top(Rank(QueryTokens(opp), Verified(atoms)), config.kLexical);
    var lexical := LexicalIds(config, opp, atoms);
    var merged := SortedSet(lexical + SortedSet(hits));
    AtomMapIs(atoms);
    SortedSetIs(Ids(top));
    SortedSetIs(hits);
    SortedSetIs(lexical + SortedSet(hits));
    LookupIs(merged, AtomMap(atoms));
    TopVerified(QueryTokens(opp), atoms, config.kLexical);
    if c in atoms {
      InByIdIff(atoms, top, c);
    }
  }

  /** Among atoms with distinct ids, being in a part of them is having its id there. */
  lemma InByIdIff(atoms: seq<Atom>, part: seq<Atom>, c: Atom)
    requires DistinctIds(atoms) && c in atoms && forall a :: a in part ==> a in atoms
    ensures c in part <==> c.atomId in Ids(part)
  {
    if c in part {
      var i :| 0 <= i < |part| && part[i] == c;
      assert Ids(part)[i] == c.atomId;
    }
    if c.atomId in Ids(part) {
      var i :| 0 <= i < |part| && Ids(part)[i] == c.atomId;
      assert part[i] in atoms;
      SameIdSameAtom(atoms, c, part[i]);
    }
  }

  lemma HybridDistinct(config: Config, opp: Opportunity, atoms: seq<Atom>, hits: seq<string>)
    requires config.strategy == HybridLexicalEmbeddingV02 && QueryTokens(opp) != [] && DistinctIds(atoms)
    ensures DistinctIds(Select(config, opp, atoms, hits).0)
  {
    hide AtomMap, Lookup, QueryTokens, SortedSet, LexicalIds;
    AtomMapIs(atoms);
    var merged := SortedSet(LexicalIds(config, opp, atoms) + SortedSet(hits));
    SortedSetIs(LexicalIds(config, opp, atoms) + SortedSet(hits));
    LookupIs(merged, AtomMap(atoms));
  }

  /** The lexical stage keeps verified atoms, all of them when k is large enough, the best one when k is at least 1. */
  lemma TopVerified(q: seq<string>, atoms: seq<Atom>, k: nat)
    requires DistinctIds(atoms)
    ensures
      var vs := Verified(atoms);
      var ranked := Rank(q, vs);
      && (forall c :: c in Top(ranked, k) ==> c in vs)
      && (k >= |vs| ==> SameAtoms(Top(ranked, k), vs))
      && (k >= 1 && ranked != [] ==> ranked[0] in Top(ranked, k))
  {
    hide Rank;
    VerifiedDistinct(atoms);
    RankIs(q, Verified(atoms));
    var ranked := Rank(q, Verified(atoms));
    if k >= 1 && ranked != [] {
      assert Top(ranked, k)[0] == ranked[0];
    }
  }

  /** Every hybrid candidate is verified exactly when no hit names an unverified atom. */
  lemma HybridVerifiedIff(config: Config, opp: Opportunity, atoms: seq<Atom>, hits: seq<string>)
    requires config.strategy == HybridLexicalEmbeddingV02 && QueryTokens(opp) != [] && DistinctIds(atoms)
    ensures (forall c :: c in Select(config, opp, atoms, hits).0 ==> c.verified) <==> HitsVerified(atoms, hits)
  {
    hide Select, Rank, QueryTokens, Top, DistinctIds;
    TopVerified(QueryTokens(opp), atoms, config.kLexical);
    forall c
      ensures c in Select(config, opp, atoms, hits).0 <==>
              || c in Top(Rank(QueryTokens(opp), Verified(atoms)), config.kLexical)
              || (c in atoms && c.atomId in hits)
    {
      HybridCandidateIff(config, opp, atoms, hits, c);
    }
  }

  /** Then they are distinct verified atoms: all of them for a large k, the top-ranked one for any k of at least 1. */
  lemma HybridCandidates(config: Config, opp: Opportunity, atoms: seq<Atom>, hits: seq<string>)
    requires config.strategy == HybridLexicalEmbeddingV02 && QueryTokens(opp) != []
    requires DistinctIds(atoms) && HitsVerified(atoms, hits)
    ensures
      var cs := Select(config, opp, atoms, hits).0;
      && DistinctIds(cs)
      && (forall c :: c in cs ==> c in Verified(atoms))
      && (config.kLexical >= |Verified(atoms)| ==> SameAtoms(cs, Verified(atoms)))
      && (var ranked := Rank(QueryTokens(opp), Verified(atoms));
          config.kLexical >= 1 && ranked != [] ==> ranked[0] in cs)
  {
    hide Select, Rank, QueryTokens, Top, DistinctIds;
    TopVerified(QueryTokens(opp), atoms, config.kLexical);
    HybridDistinct(config, opp, atoms, hits);
    forall c
      ensures c in Select(config, opp, atoms, hits).0 <==>
              || c in Top(Rank(QueryTokens(opp), Verified(atoms)), config.kLexical)
              || (c in atoms && c.atomId in hits)
    {
      HybridCandidateIff(config, opp, atoms, hits, c);
    }
  }

  /**
   Hybrid retrieval finds a matching requirement exactly when lexical matching does, whatever the index
   returned, provided the lexical stage keeps at least one atom and no hit names an unverified atom.
   */
  lemma HybridMatchesIffLexical(config: Config, opp: Opportunity, atoms: seq<Atom>, hits: seq<string>)
    requires config.strategy == HybridLexicalEmbeddingV02 && config.kLexical >= 1
    requires DistinctIds(atoms) && HitsVerified(atoms, hits)
    ensures HasMatch(Report(config, opp, atoms, hits)) <==>
            HasMatch(Report(config.(strategy := DeterministicLexicalV01), opp, atoms, hits))
  {
    hide QueryTokens, Rank, Count, FieldTokens, Shares, HasMatch, ReportOf;
    var vs := Verified(atoms);
    var (cs, stats) := Select(config, opp, atoms, hits);
    VerifiedDistinct(atoms);
    HasMatchIff(config.(strategy := DeterministicLexicalV01), opp, vs, AllVerified(atoms).1);
    if QueryTokens(opp) == [] {
      HasMatchIff(config, opp, vs, AllVerified(atoms).1);
    } else {
      HybridCandidates(config, opp, atoms, hits);
      hide Select;
      HasMatchIff(config, opp, cs, stats);
      if exists r, c :: r in opp.requirements && c in vs && Shares(r, c) {
        var r, c :| r in opp.requirements && c in vs && Shares(r, c);
        TopShares(opp, vs, c);
        var t := Rank(QueryTokens(opp), vs)[0];
        var r' :| r' in opp.requirements && Shares(r', t);
        assert r' in opp.requirements && t in cs && Shares(r', t);
      }
    }
  }

  /** If any atom shares a token with a requirement, so does the top-ranked one. */
  lemma TopShares(opp: Opportunity, vs: seq<Atom>, c: Atom)
    requires DistinctIds(vs) && c in vs && exists r :: r in opp.requirements && Shares(r, c)
    ensures Rank(QueryTokens(opp), vs) != []
    ensures exists r :: r in opp.requirements && Shares(r, Rank(QueryTokens(opp), vs)[0])
  {
    hide QueryTokens, Rank, Count, Shares;
    var q := QueryTokens(opp);
    RankIs(q, vs);
    QueryOverlapIff(opp, c);
    assert c in Rank(q, vs);
    var t := Rank(q, vs)[0];
    var i :| 0 <= i < |Rank(q, vs)| && Rank(q, vs)[i] == c;
    assert i > 0 ==> Before(q, t, c);
    QueryOverlapIff(opp, t);
  }

  /** Per requirement, the hybrid score never exceeds the lexical one, and with room for all atoms the entries agree. */
  lemma HybridScoreAtMostLexical(config: Config, opp: Opportunity, atoms: seq<Atom>, hits: seq<string>, i: nat)
    requires config.strategy == HybridLexicalEmbeddingV02 && i < |opp.requirements|
    requires DistinctIds(atoms) && HitsVerified(atoms, hits)
    ensures
      var h := Report(config, opp, atoms, hits).requirementMatches[i];
      var l := Report(config.(strategy := DeterministicLexicalV01), opp, atoms, hits).requirementMatches[i];
      && h.bestScore <= l.bestScore
      && (config.kLexical >= |Verified(atoms)| ==> h == l)
  {
    hide QueryTokens, Rank, Count, MatchFor;
    var vs := Verified(atoms);
    VerifiedDistinct(atoms);
    if QueryTokens(opp) != [] {
      var (cs, stats) := Select(config, opp, atoms, hits);
      HybridCandidates(config, opp, atoms, hits);
      hide Select;
      FewerCandidatesScoreLess(opp.requirements[i], cs, vs);
      if config.kLexical >= |vs| {
        MatchByMembers(opp.requirements[i], cs, vs);
      }
    }
  }

  lemma FewerCandidatesScoreLess(req: Requirement, cs: seq<Atom>, vs: seq<Atom>)
    requires DistinctIds(cs) && DistinctIds(vs) && forall c :: c in cs ==> c in vs
    ensures MatchFor(req, cs).bestScore <= MatchFor(req, vs).bestScore
  {
    hide MatchFor, Count, Less, FieldTokens, Score;
    var tokens := FieldTokens(req.text);
    MatchIsBest(req, cs);
    MatchIsBest(req, vs);
    var m, n := MatchFor(req, cs), MatchFor(req, vs);
    if m.matched {
      var c :| Wins(tokens, c, cs) && m == MatchWith(req.text, tokens, c);
      assert n.matched;
      var d :| Wins(tokens, d, vs) && n == MatchWith(req.text, tokens, d);
      assert NoBetter(tokens, c, d);
      ScoreOrder(Count(tokens, d), Count(tokens, c), |tokens|);
    } else if n.matched {
      var d :| Wins(tokens, d, vs) && n == MatchWith(req.text, tokens, d);
      ScoreOrder(Count(tokens, d), 0, |tokens|);
    }
  }

  /** Keeping no lexical candidate and getting no hits loses every match: the bound k >= 1 is needed. */
  lemma NoCandidatesNoMatch(config: Config, opp: Opportunity, atoms: seq<Atom>)
    requires config.strategy == HybridLexicalEmbeddingV02 && config.kLexical == 0 && QueryTokens(opp) != []
    ensures !HasMatch(Report(config, opp, atoms, []))
  {
    hide QueryTokens, Rank, MatchFor;
    assert SortedSet([]) == [];
    assert Top(Rank(QueryTokens(opp), Verified(atoms)), 0) == [];
    assert Ids([]) == [];
    assert Select(config, opp, atoms, []).0 == [];
    forall i | 0 <= i < |opp.requirements|
      ensures !MatchFor(opp.requirements[i], []).matched
    {
      MatchIsBest(opp.requirements[i], []);
    }
  }
}
