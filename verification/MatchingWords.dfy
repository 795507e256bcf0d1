/**
 The matcher's results in terms of words: what a requirement, an atom and a report hold, read off the texts
 themselves rather than off the token lists the matcher builds.
 */
module MatchingWords {
  import opened Strings
  import opened Normalization
  import opened Domain
  import T = Tokenization
  import opened Matching
  import opened MatchingLaws

  /** The words of a text: its tokens of two or more characters. */
  ghost function Words(text: string): set<string> { set w | w in Tokens(text, 2) }

  /** The words an atom can match: those of its claim and title, and its tags as they are. */
  ghost function AtomWords(a: Atom): set<string> { Words(a.claim) + Words(a.title) + set w | w in a.tags }

  ghost function Common(text: string, a: Atom): set<string> { Words(text) * AtomWords(a) }

  lemma FieldTokensAre(text: string)
    ensures StrictlySorted(FieldTokens(text))
    ensures forall w :: w in FieldTokens(text) <==> w in Tokens(text, 2)
    ensures |FieldTokens(text)| == |Words(text)|
  {
    T.TokenSetIs(text);
    T.SetSize(FieldTokens(text));
    T.MembersAre(FieldTokens(text));
    assert T.Members(FieldTokens(text)) == Words(text);
  }

  lemma AtomTokensAre(a: Atom)
    ensures StrictlySorted(AtomTokens(a))
    ensures forall w :: w in AtomTokens(a) <==> w in Tokens(a.claim, 2) || w in Tokens(a.title, 2) || w in a.tags
  {
    hide Tokens;
    FieldTokensAre(a.claim);
    FieldTokensAre(a.title);
    SortedSetIs(FieldTokens(a.claim) + FieldTokens(a.title) + a.tags);
  }

  lemma SharedAre(text: string, a: Atom)
    ensures StrictlySorted(Shared(FieldTokens(text), a))
    ensures forall w :: w in Shared(FieldTokens(text), a) <==> w in Common(text, a)
    ensures Count(FieldTokens(text), a) == |Common(text, a)|
  {
    hide FieldTokens, AtomTokens, Tokens, StrictlySorted, Shared;
    FieldTokensAre(text);
    AtomTokensAre(a);
    SharedIs(FieldTokens(text), a);
    AsSet(Shared(FieldTokens(text), a), Common(text, a));
  }

  lemma AsSet(s: seq<string>, ws: set<string>)
    requires StrictlySorted(s) && forall w :: w in s <==> w in ws
    ensures |s| == |ws|
  {
    T.SetSize(s);
    T.MembersAre(s);
    assert T.Members(s) == ws;
  }

  // ---------- the lexical report ----------

  /** Atom c has the most words in common with the text and, among the atoms with as many, the least id. */
  ghost predicate HasMost(text: string, c: Atom, atoms: seq<Atom>) {
    c in atoms && c.verified &&
    forall d :: d in atoms && d.verified ==>
      || |Common(text, d)| < |Common(text, c)|
      || (|Common(text, d)| == |Common(text, c)| && (d.atomId == c.atomId || Less(c.atomId, d.atomId)))
  }

  /** The entry names c, with exactly the words in common as evidence and their share of the text's words as score. */
  ghost predicate IsEntryOf(m: RequirementMatch, text: string, c: Atom) {
    && m.contributingAtomId == Some(c.atomId)
    && StrictlySorted(m.evidenceTokens) && (forall w :: w in m.evidenceTokens <==> w in Common(text, c))
    && Words(text) != {} && m.bestScore == |Common(text, c)| as real / |Words(text)| as real
  }

  /**
   A requirement is matched exactly when some verified atom's claim, title or tags hold a word of its text; the
   entry is then that of the verified atom with the most such words.
   */
  lemma LexicalReportInWords(config: Config, opp: Opportunity, atoms: seq<Atom>, hits: seq<string>, i: nat)
    requires config.strategy == DeterministicLexicalV01 && DistinctIds(atoms) && i < |opp.requirements|
    ensures
      var text := opp.requirements[i].text;
      var m := Report(config, opp, atoms, hits).requirementMatches[i];
      && m.requirementText == text
      && (m.matched <==> exists a :: a in atoms && a.verified && Common(text, a) != {})
      && (!m.matched ==> m.bestScore == 0.0 && m.contributingAtomId == None && m.evidenceTokens == [])
      && (m.matched ==> exists c :: HasMost(text, c, atoms) && IsEntryOf(m, text, c))
  {
    LexicalReportIsBest(config, opp, atoms, hits, i);
    hide IsBestMatch, HasMost, IsEntryOf, Select, MatchFor;
    EntryInWords(Report(config, opp, atoms, hits).requirementMatches[i], opp.requirements[i], atoms);
  }

  lemma EntryInWords(m: RequirementMatch, req: Requirement, atoms: seq<Atom>)
    requires IsBestMatch(m, req, Verified(atoms))
    ensures m.requirementText == req.text
    ensures m.matched <==> exists a :: a in atoms && a.verified && Common(req.text, a) != {}
    ensures !m.matched ==> m.bestScore == 0.0 && m.contributingAtomId == None && m.evidenceTokens == []
    ensures m.matched ==> exists c :: HasMost(req.text, c, atoms) && IsEntryOf(m, req.text, c)
  {
    hide Count, Shared, FieldTokens, Common, Words;
    forall a
      ensures Count(FieldTokens(req.text), a) == |Common(req.text, a)|
    {
      SharedAre(req.text, a);
    }
    if m.matched {
      var c :| Wins(FieldTokens(req.text), c, Verified(atoms)) && m == MatchWith(req.text, FieldTokens(req.text), c);
      SharedAre(req.text, c);
      FieldTokensAre(req.text);
      assert HasMost(req.text, c, atoms);
      assert IsEntryOf(m, req.text, c);
    }
  }

  // ---------- the lexical stage of hybrid retrieval ----------

  /** The words of all requirements together. */
  ghost function QueryWords(opp: Opportunity): set<string> {
    set r, w | r in opp.requirements && w in Words(r.text) :: w
  }

  ghost function Overlap(opp: Opportunity, a: Atom): nat { |QueryWords(opp) * AtomWords(a)| }

  ghost predicate Beats(opp: Opportunity, d: Atom, c: Atom) {
    Overlap(opp, d) > Overlap(opp, c) || (Overlap(opp, d) == Overlap(opp, c) && Less(d.atomId, c.atomId))
  }

  lemma QueryTokensAre(opp: Opportunity)
    ensures StrictlySorted(QueryTokens(opp))
    ensures forall w :: w in QueryTokens(opp) <==> w in QueryWords(opp)
  {
    hide FieldTokens, Tokens;
    SortedSetIs(AllFieldTokens(opp.requirements));
    AllFieldTokensAre(opp.requirements);
    forall r: Requirement
      ensures forall w :: w in FieldTokens(r.text) <==> w in Words(r.text)
    {
      FieldTokensAre(r.text);
    }
  }

  lemma OverlapIs(opp: Opportunity, a: Atom)
    ensures Count(QueryTokens(opp), a) == Overlap(opp, a)
  {
    hide QueryTokens, AtomTokens, Tokens, StrictlySorted, Shared, QueryWords;
    QueryTokensAre(opp);
    AtomTokensAre(a);
    SharedIs(QueryTokens(opp), a);
    AsSet(Shared(QueryTokens(opp), a), QueryWords(opp) * AtomWords(a));
  }

  lemma BeforeIsBeats(opp: Opportunity, d: Atom, c: Atom)
    ensures Before(QueryTokens(opp), d, c) <==> Beats(opp, d, c)
  {
    hide QueryTokens, Overlap;
    OverlapIs(opp, d);
    OverlapIs(opp, c);
  }

  /** In a ranked list an element comes at the position of as many as are before it. */
  lemma PositionCounts(q: seq<string>, ranked: seq<Atom>, i: nat)
    requires Ranked(q, ranked) && DistinctIds(ranked) && i < |ranked|
    ensures |set d | d in ranked && Before(q, d, ranked[i])| == i
  {
    hide Before;
    var c := ranked[i];
    forall d | d in ranked
      ensures Before(q, d, c) <==> d in ranked[..i]
    {
      var j :| 0 <= j < |ranked| && ranked[j] == d;
      OrderOfTwo(q, ranked, i, j);
    }
    assert (set d | d in ranked && Before(q, d, c)) == AtomSet(ranked[..i]);
    AtomSetSize(ranked[..i]);
  }

  lemma OrderOfTwo(q: seq<string>, ranked: seq<Atom>, i: nat, j: nat)
    requires Ranked(q, ranked) && DistinctIds(ranked) && i < |ranked| && j < |ranked|
    ensures Before(q, ranked[j], ranked[i]) <==> j < i
    ensures j < i <==> ranked[j] in ranked[..i]
  {
    hide Count;
    LessIrreflexive(ranked[i].atomId);
    BeforeTotal(q, ranked[i], ranked[j]);
    if j < i {
      assert ranked[..i][j] == ranked[j];
    }
  }

  ghost function AtomSet(atoms: seq<Atom>): set<Atom> { set a | a in atoms }

  lemma {:induction false} AtomSetSize(atoms: seq<Atom>)
    requires DistinctIds(atoms)
    ensures |AtomSet(atoms)| == |atoms|
  {
    if atoms != [] {
      var n := |atoms| - 1;
      AtomSetSize(atoms[..n]);
      assert atoms == atoms[..n] + [atoms[n]];
      assert AtomSet(atoms) == AtomSet(atoms[..n]) + {atoms[n]};
    }
  }

  /** The lexical stage keeps a verified atom exactly when fewer than k verified atoms beat it. */
  lemma KeptIff(config: Config, opp: Opportunity, atoms: seq<Atom>, c: Atom)
    requires DistinctIds(atoms)
    ensures c in Top(Rank(QueryTokens(opp), Verified(atoms)), config.kLexical) <==>
            && c in atoms && c.verified
            && |set d | d in atoms && d.verified && Beats(opp, d, c)| < config.kLexical
  {
    hide Rank, QueryTokens, Before, Beats;
    var q, vs := QueryTokens(opp), Verified(atoms);
    VerifiedDistinct(atoms);
    RankIs(q, vs);
    var ranked := Rank(q, vs);
    assert DistinctIds(ranked) by {
      RankedDistinct(q, ranked, vs);
    }
    if c in vs {
      var i :| 0 <= i < |ranked| && ranked[i] == c;
      PositionCounts(q, ranked, i);
      forall d
        ensures Before(q, d, c) <==> Beats(opp, d, c)
      {
        BeforeIsBeats(opp, d, c);
      }
      assert (set d | d in ranked && Before(q, d, c)) == set d | d in atoms && d.verified && Beats(opp, d, c);
      InFront(ranked, i, config.kLexical);
    } else {
      TopVerified(q, atoms, config.kLexical);
    }
  }

  lemma RankedDistinct(q: seq<string>, ranked: seq<Atom>, vs: seq<Atom>)
    requires Ranked(q, ranked) && DistinctIds(vs) && SameAtoms(ranked, vs)
    ensures DistinctIds(ranked)
  {
    hide Count;
    forall i, j | 0 <= i < j < |ranked|
      ensures ranked[i].atomId != ranked[j].atomId
    {
      assert Before(q, ranked[i], ranked[j]);
      LessIrreflexive(ranked[i].atomId);
      if ranked[i].atomId == ranked[j].atomId {
        SameIdSameAtom(vs, ranked[i], ranked[j]);
      }
    }
  }

  lemma InFront(ranked: seq<Atom>, i: nat, k: nat)
    requires DistinctIds(ranked) && i < |ranked|
    ensures ranked[i] in Top(ranked, k) <==> i < k
  {
    if i < k {
      assert Top(ranked, k)[i] == ranked[i];
    }
  }

  // ---------- the report as a whole ----------

  /** The candidates of hybrid retrieval, and the counts it reports. */
  lemma HybridInWords(config: Config, opp: Opportunity, atoms: seq<Atom>, hits: seq<string>, c: Atom)
    requires config.strategy == HybridLexicalEmbeddingV02 && QueryWords(opp) != {} && DistinctIds(atoms)
    ensures c in Select(config, opp, atoms, hits).0 <==>
            && c in atoms
            && (|| (c.verified && |set d | d in atoms && d.verified && Beats(opp, d, c)| < config.kLexical)
                || c.atomId in hits)
  {
    hide Select, Rank, QueryTokens, Top, QueryWords, Beats;
    QueryTokensAre(opp);
    HybridCandidateIff(config, opp, atoms, hits, c);
    KeptIff(config, opp, atoms, c);
  }

  /** Without words to ask for, and in lexical mode, every verified atom is a candidate. */
  lemma AllVerifiedOtherwise(config: Config, opp: Opportunity, atoms: seq<Atom>, hits: seq<string>)
    requires config.strategy == DeterministicLexicalV01 || QueryWords(opp) == {}
    ensures
      var (cs, stats) := Select(config, opp, atoms, hits);
      && (forall c :: c in cs <==> c in atoms && c.verified)
      && stats == RetrievalStats(|cs|, 0, |cs|)
  {
    hide QueryTokens, QueryWords;
    QueryTokensAre(opp);
    if QueryTokens(opp) != [] {
      assert QueryTokens(opp)[0] in QueryWords(opp);
    }
  }

  lemma HybridCounts(config: Config, opp: Opportunity, atoms: seq<Atom>, hits: seq<string>)
    requires config.strategy == HybridLexicalEmbeddingV02 && QueryTokens(opp) != [] && DistinctIds(atoms)
    ensures
      var stats := Select(config, opp, atoms, hits).1;
      var kept := set c | c in Top(Rank(QueryTokens(opp), Verified(atoms)), config.kLexical) :: c.atomId;
      var named := set h | h in hits;
      && stats == RetrievalStats(|kept|, |named|, |kept + named|)
      && |kept| == if config.kLexical <= |Verified(atoms)| then config.kLexical else |Verified(atoms)|
  {
    hide Rank, QueryTokens, AtomMap, Lookup, SortedSet, Verified;
    var q, vs := QueryTokens(opp), Verified(atoms);
    VerifiedDistinct(atoms);
    RankIs(q, vs);
    RankedDistinct(q, Rank(q, vs), vs);
    var top := Top(Rank(q, vs), config.kLexical);
    var kept := set c | c in top :: c.atomId;
    IdSetSize(top);
    assert kept == IdSet(top);
    var lexical := LexicalIds(config, opp, atoms);
    SortedSetIs(Ids(top));
    SortedSetIs(hits);
    SortedSetIs(lexical + SortedSet(hits));
    IdsAre(top);
    AsSet(lexical, kept);
    AsSet(SortedSet(hits), set h | h in hits);
    AsSet(SortedSet(lexical + SortedSet(hits)), kept + set h | h in hits);
  }

  lemma IdsAre(atoms: seq<Atom>)
    ensures forall id :: id in Ids(atoms) <==> exists c :: c in atoms && c.atomId == id
  {
    forall c | c in atoms
      ensures c.atomId in Ids(atoms)
    {
      var i :| 0 <= i < |atoms| && atoms[i] == c;
      assert Ids(atoms)[i] == c.atomId;
    }
  }

  /** The overall score is the mean: it is 0 for zeros, and changing one entry changes it by that entry's share. */
  lemma OverallIsMean(ms: seq<RequirementMatch>, i: nat, m: RequirementMatch)
    requires i < |ms|
    ensures (forall n :: n in ms ==> n.bestScore == 0.0) ==> Overall(ms) == 0.0
    ensures Overall(ms[i := m]) == Overall(ms) + (m.bestScore - ms[i].bestScore) / |ms| as real
  {
    TotalOfZeros(ms);
    TotalChanges(ms, i, m);
    var n, x, d := |ms| as real, Total(ms), m.bestScore - ms[i].bestScore;
    assert (x + d) / n == x / n + d / n;
  }

  lemma {:induction false} TotalOfZeros(ms: seq<RequirementMatch>)
    requires ms != []
    ensures (forall n :: n in ms ==> n.bestScore == 0.0) ==> Total(ms) == 0.0
  {
    if |ms| > 1 {
      TotalOfZeros(ms[..|ms| - 1]);
    } else {
      assert ms[..0] == [];
    }
  }

  lemma {:induction false} TotalChanges(ms: seq<RequirementMatch>, i: nat, m: RequirementMatch)
    requires i < |ms|
    ensures Total(ms[i := m]) == Total(ms) + m.bestScore - ms[i].bestScore
  {
    var n := |ms| - 1;
    if i < n {
      TotalChanges(ms[..n], i, m);
      assert ms[i := m][..n] == ms[..n][i := m];
    } else {
      assert ms[i := m][..n] == ms[..n];
    }
  }

  /** The remaining fields of every report. */
  lemma ReportFields(config: Config, opp: Opportunity, atoms: seq<Atom>, hits: seq<string>)
    ensures
      var r := Report(config, opp, atoms, hits);
      && r.opportunityId == opp.opportunityId && r.strategy == config.strategy
      && r.overallScore == Overall(r.requirementMatches)
      && r.breakdown == ScoreBreakdown(r.overallScore, 0.0, 0.0, config.lexicalWeight * r.overallScore)
      && |r.requirementMatches| == |opp.requirements|
      && r.stats == Select(config, opp, atoms, hits).1
  {
    hide Select;
  }
}
