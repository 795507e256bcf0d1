/**
 Laws of the index build on any store: what the counters count, when a second build is idle, which answers the
 drift query leaves open, and what a change of provider does.
 */
module IndexBuildLaws {
  import opened Domain
  import opened StableHash
  import opened IndexBuild

  // ---------- conservation ----------

  /** What a build makes of an artifact, read off the store it starts from. */
  datatype Verdict = Unchanged | WithoutEmbedding | Fresh | Stale

  function VerdictOn(w: World, p: Provider, embed: Embedder, d: Source): Verdict {
    var prior := LastSourceHash(w.store, d.kind, d.id, p);
    if prior == Some(Hash(d.text)) then Unchanged
    else if embed(d.text) == [] then WithoutEmbedding
    else if prior == None then Fresh
    else Stale
  }

  function Count(w: World, p: Provider, embed: Embedder, srcs: seq<Source>, v: Verdict): nat {
    if srcs == [] then 0 else
      Count(w, p, embed, srcs[..|srcs| - 1], v) + if VerdictOn(w, p, embed, srcs[|srcs| - 1]) == v then 1 else 0
  }

  function ExpectedTally(w: World, p: Provider, embed: Embedder, srcs: seq<Source>): Tally {
    Tally(Count(w, p, embed, srcs, Fresh) + Count(w, p, embed, srcs, Stale),
          Count(w, p, embed, srcs, Unchanged), Count(w, p, embed, srcs, Stale))
  }

  lemma {:induction false} CountsAddUp(w: World, p: Provider, embed: Embedder, srcs: seq<Source>)
    ensures Count(w, p, embed, srcs, Unchanged) + Count(w, p, embed, srcs, WithoutEmbedding)
            + Count(w, p, embed, srcs, Fresh) + Count(w, p, embed, srcs, Stale) == |srcs|
  {
    hide VerdictOn;
    if srcs != [] {
      CountsAddUp(w, p, embed, srcs[..|srcs| - 1]);
    }
  }

  lemma {:induction false} CountNone(w: World, p: Provider, embed: Embedder, srcs: seq<Source>, v: Verdict)
    requires forall d :: d in srcs ==> VerdictOn(w, p, embed, d) != v
    ensures Count(w, p, embed, srcs, v) == 0
  {
    hide VerdictOn;
    if srcs != [] {
      CountNone(w, p, embed, srcs[..|srcs| - 1], v);
    }
  }

  function IndexedRecords(audit: seq<Record>, run: nat): nat {
    if audit == [] then 0 else
      var last := audit[|audit| - 1];
      IndexedRecords(audit[..|audit| - 1], run) + if last.Indexed? && last.run == run then 1 else 0
  }

  lemma IndexedRecordsSnoc(audit: seq<Record>, r: Record, run: nat)
    ensures IndexedRecords(audit + [r], run) ==
            IndexedRecords(audit, run) + if r.Indexed? && r.run == run then 1 else 0
  {
    assert (audit + [r])[..|audit|] == audit;
  }

  function RunEntries(s: Runs, run: nat): set<(nat, Kind, string)> { set e | e in s.entries.Keys && e.0 == run }

  /** The indexed counter counts the entries of the run and its records in the audit log. */
  ghost predicate Balanced(g: Progress, run: nat, before: nat) {
    g.tally.indexed == |RunEntries(g.w.store, run)| && IndexedRecords(g.w.audit, run) == before + g.tally.indexed
  }

  lemma IndexOneBalances(g: Progress, run: nat, embed: Embedder, src: Source, prior: Option<Hash64>, before: nat)
    requires Balanced(g, run, before) && (run, src.kind, src.id) !in g.w.store.entries
    ensures Balanced(IndexGiven(g, run, embed, src, prior), run, before)
  {
    hide Hash, VectorKey, IndexedRecords;
    var g' := IndexGiven(g, run, embed, src, prior);
    if g'.tally.indexed != g.tally.indexed {
      var key := (run, src.kind, src.id);
      assert RunEntries(g'.w.store, run) == RunEntries(g.w.store, run) + {key};
      IndexedRecordsSnoc(g.w.audit, g'.w.audit[|g.w.audit|], run);
      assert g'.w.audit == g.w.audit + [g'.w.audit[|g.w.audit|]];
    }
  }

  lemma IndexOneCounts(w: World, g: Progress, p: Provider, embed: Embedder, done: seq<Source>, src: Source)
    requires MidBuild(w, g, p, embed, done) && g.tally == ExpectedTally(w, p, embed, done)
    ensures IndexOne(g, g.w.store.counter, p, embed, src).tally == ExpectedTally(w, p, embed, done + [src])
  {
    hide MidBuild, Hash, VectorKey, LastSourceHash;
    QueryMidBuild(w, g, p, embed, done, src.kind, src.id);
    assert (done + [src])[..|done|] == done;
  }

  lemma NotYetRecorded(w: World, g: Progress, p: Provider, embed: Embedder, done: seq<Source>, src: Source)
    requires Numbered(w.store) && MidBuild(w, g, p, embed, done) && Distinct(done + [src])
    ensures (g.w.store.counter, src.kind, src.id) !in g.w.store.entries
  {
    hide Due, NoneDueAt, Written, Distinct, VectorKey;
    if DueHere(w, p, embed, done, src.kind, src.id) {
      var d :| d in done && d.kind == src.kind && d.id == src.id;
      OtherSource(done, src, d);
    }
  }

  lemma {:induction false} IndexAllCounts(w: World, p: Provider, embed: Embedder, srcs: seq<Source>)
    requires Numbered(w.store) && Distinct(srcs)
    ensures
      var run := w.store.counter + 1;
      var g := IndexAll(Begin(w, p), run, p, embed, srcs);
      g.tally == ExpectedTally(w, p, embed, srcs) && Balanced(g, run, IndexedRecords(w.audit, run))
  {
    var run := w.store.counter + 1;
    if srcs == [] {
      hide IndexedRecords;
      assert RunEntries(w.store, run) == {};
      IndexedRecordsSnoc(w.audit, Started(run), run);
    } else {
      hide Numbered, Distinct, MidBuild, Balanced, ExpectedTally, IndexedRecords, IndexGiven;
      var n := |srcs| - 1;
      DistinctFront(srcs);
      assert srcs == srcs[..n] + [srcs[n]];
      IndexAllCounts(w, p, embed, srcs[..n]);
      IndexAllKeepsMidBuild(w, p, embed, srcs[..n]);
      var mid := IndexAll(Begin(w, p), run, p, embed, srcs[..n]);
      IndexAllKeepsRuns(Begin(w, p), run, p, embed, srcs[..n]);
      IndexOneCounts(w, mid, p, embed, srcs[..n], srcs[n]);
      NotYetRecorded(w, mid, p, embed, srcs[..n], srcs[n]);
      IndexOneBalances(mid, run, embed, srcs[n], LastSourceHash(mid.w.store, srcs[n].kind, srcs[n].id, p),
                       IndexedRecords(w.audit, run));
    }
  }

  /**
   Conservation, on any store: the counters are the numbers of artifacts with each verdict, so together with
   those without an embedding they make up the scope; the indexed count is the number of entries the run wrote
   and of its records in the audit log, stale ones included.
   */
  lemma BuildConserves(w: World, p: Provider, embed: Embedder, scope: string, c: Catalog, now: nat)
    requires Numbered(w.store) && Distinct(InScope(scope, c))
    ensures
      var (w', r) := Build(w, p, embed, scope, c, now);
      var srcs := InScope(scope, c);
      && r.run == w.store.counter + 1
      && r.tally == ExpectedTally(w, p, embed, srcs)
      && r.tally.indexed == |RunEntries(w'.store, r.run)|
      && IndexedRecords(w'.audit, r.run) == IndexedRecords(w.audit, r.run) + r.tally.indexed
      && r.tally.stale <= r.tally.indexed
      && r.tally.indexed + r.tally.skipped + Count(w, p, embed, srcs, WithoutEmbedding) == |srcs|
      && ((forall d :: d in srcs ==> embed(d.text) != []) ==> r.tally.indexed + r.tally.skipped == |srcs|)
  {
    hide IndexedRecords, InScope, IndexAll, Distinct, Numbered, Count;
    var srcs := InScope(scope, c);
    var run := w.store.counter + 1;
    IndexAllCounts(w, p, embed, srcs);
    CountsAddUp(w, p, embed, srcs);
    IndexAllKeepsRuns(Begin(w, p), run, p, embed, srcs);
    var g := IndexAll(Begin(w, p), run, p, embed, srcs);
    IndexedRecordsSnoc(g.w.audit, Finished(run, g.tally), run);
    if forall d :: d in srcs ==> embed(d.text) != [] {
      CountNone(w, p, embed, srcs, WithoutEmbedding);
    }
  }

  // ---------- what later queries answer ----------

  lemma ViewAfterBuild(w: World, w': World, p: Provider, embed: Embedder, done: seq<Source>, run: Run,
                       kind: Kind, id: string, q: Provider)
    requires WroteDue(w, w', p, embed, done) && w'.store.runs == w.store.runs[w'.store.counter := run]
    ensures SameView(w.store, w'.store, kind, id, q, w.store.counter)
  {
    hide Due, DueHere, NoneDueAt, Written, SameAt;
    forall m | 1 <= m <= w.store.counter
      ensures (m, kind, id) in w'.store.entries <==> (m, kind, id) in w.store.entries
    {
    }
  }

  /** A build under another provider changes no answer. */
  lemma OtherProviderUnseen(w: World, q: Provider, f: Embedder, s: BuildStep, p: Provider, kind: Kind, id: string)
    requires Numbered(w.store) && Distinct(InScope(s.scope, s.catalog)) && p != q
    ensures LastSourceHash(BuildAt(w, q, f, s).store, kind, id, p) == LastSourceHash(w.store, kind, id, p)
  {
    hide Build, InScope, WroteDue, LastSourceHash, IsLastSourceHash, SameView;
    BuildWritesDue(w, q, f, s.scope, s.catalog, s.now);
    var w' := BuildAt(w, q, f, s);
    ViewAfterBuild(w, w', q, f, InScope(s.scope, s.catalog), Run(q, Some(s.now)), kind, id, p);
    BuildCounter(w, q, f, s);
    UnseenRun(w.store, w'.store, kind, id, p);
  }

  lemma BuildCounter(w: World, p: Provider, embed: Embedder, s: BuildStep)
    ensures BuildAt(w, p, embed, s).store.counter == w.store.counter + 1
  {
    hide InScope, IndexAll;
    IndexAllKeepsRuns(Begin(w, p), w.store.counter + 1, p, embed, InScope(s.scope, s.catalog));
  }

  /** After a build that completed last, the answer for an artifact it covered is the artifact's current hash. */
  lemma OwnBuildAnswers(w: World, p: Provider, embed: Embedder, s: BuildStep, d: Source)
    requires Numbered(w.store) && Distinct(InScope(s.scope, s.catalog)) && Before(w, s.now)
    requires d in InScope(s.scope, s.catalog) && embed(d.text) != []
    ensures LastSourceHash(BuildAt(w, p, embed, s).store, d.kind, d.id, p) == Some(Hash(d.text))
  {
    hide Build, InScope, Hash, WroteDue, LastSourceHash, IsLastSourceHash, SameView, VectorKey, SameAt, IsLatest;
    var w' := BuildAt(w, p, embed, s);
    BuildCounter(w, p, embed, s);
    BuildWritesDue(w, p, embed, s.scope, s.catalog, s.now);
    ReembedsIff(w, p, embed, s.scope, s.catalog, s.now, d);
    BuildRun(w, p, embed, s);
    ViewAfterBuild(w, w', p, embed, InScope(s.scope, s.catalog), Run(p, Some(s.now)), d.kind, d.id, p);
    if Due(w, p, embed, d) {
      NewestRunAnswers(w.store, w'.store, d.kind, d.id, p);
    } else {
      UnseenRun(w.store, w'.store, d.kind, d.id, p);
    }
  }

  lemma BuildRun(w: World, p: Provider, embed: Embedder, s: BuildStep)
    ensures Build(w, p, embed, s.scope, s.catalog, s.now).1.run == w.store.counter + 1
  {
    hide InScope, IndexAll;
  }

  /** When nothing in scope is due, a build changes no entry and no vector. */
  lemma NothingDueKeeps(w: World, p: Provider, embed: Embedder, s: BuildStep)
    requires Numbered(w.store) && Distinct(InScope(s.scope, s.catalog))
    requires forall d :: d in InScope(s.scope, s.catalog) ==> !Due(w, p, embed, d)
    ensures BuildAt(w, p, embed, s).vectors == w.vectors
    ensures BuildAt(w, p, embed, s).store.entries == w.store.entries
  {
    hide InScope, Due, Numbered, Distinct, Build, VectorKey;
    var w' := BuildAt(w, p, embed, s);
    BuildWritesDue(w, p, embed, s.scope, s.catalog, s.now);
    forall key
      ensures SameAt(w.vectors, w'.vectors, key)
    {
      assert NoneDueAt(w, p, embed, InScope(s.scope, s.catalog), key);
    }
    SameVectors(w.vectors, w'.vectors);
    SameEntries(w, w', p, embed, InScope(s.scope, s.catalog));
  }

  lemma SameVectors(v: map<string, Vector>, v': map<string, Vector>)
    requires forall key :: SameAt(v, v', key)
    ensures v' == v
  {
    assert forall key :: key in v' ==> SameAt(v, v', key);
    assert forall key :: key in v ==> SameAt(v, v', key);
  }

  lemma SameEntries(w: World, w': World, p: Provider, embed: Embedder, done: seq<Source>)
    requires WroteDue(w, w', p, embed, done) && forall d :: d in done ==> !Due(w, p, embed, d)
    ensures w'.store.entries == w.store.entries
  {
    hide Due, NoneDueAt, SameAt;
    SameMap(w.store.entries, w'.store.entries);
  }

  lemma SameMap(m: map<(nat, Kind, string), Hash64>, m': map<(nat, Kind, string), Hash64>)
    requires forall e :: e in m ==> e in m' && m'[e] == m[e]
    requires forall n, k, l :: (n, k, l) in m' ==> (n, k, l) in m
    ensures m' == m
  {
    forall e | e in m'
      ensures e in m
    {
      assert (e.0, e.1, e.2) in m;
    }
  }

  /**
   A second build with no edits in between writes nothing, on any store: no entry and no vector changes, nothing
   counts as indexed or stale, and with non-empty embeddings everything in scope is skipped.
   */
  lemma RebuildIsIdle(w: World, p: Provider, embed: Embedder, s: BuildStep, later: nat)
    requires Numbered(w.store) && Distinct(InScope(s.scope, s.catalog)) && Before(w, s.now)
    ensures
      var w1 := BuildAt(w, p, embed, s);
      var (w2, r) := Build(w1, p, embed, s.scope, s.catalog, later);
      var srcs := InScope(s.scope, s.catalog);
      && w2.vectors == w1.vectors
      && w2.store.entries == w1.store.entries
      && r.tally.indexed == r.tally.stale == 0
      && ((forall d :: d in srcs ==> embed(d.text) != []) ==> r.tally == Tally(0, |srcs|, 0))
  {
    hide Build, InScope, Hash, LastSourceHash, Numbered, Distinct, Count, Before, WroteDue;
    var srcs := InScope(s.scope, s.catalog);
    var w1 := BuildAt(w, p, embed, s);
    BuildWritesDue(w, p, embed, s.scope, s.catalog, s.now);
    forall d | d in srcs
      ensures !Due(w1, p, embed, d) && VerdictOn(w1, p, embed, d) != Fresh && VerdictOn(w1, p, embed, d) != Stale
    {
      if embed(d.text) != [] {
        OwnBuildAnswers(w, p, embed, s, d);
      }
    }
    NothingDueKeeps(w1, p, embed, BuildStep(s.scope, s.catalog, later));
    BuildConserves(w1, p, embed, s.scope, s.catalog, later);
    CountNone(w1, p, embed, srcs, Fresh);
    CountNone(w1, p, embed, srcs, Stale);
  }

  /** An unknown scope indexes nothing. */
  lemma UnknownScopeIndexesNothing(w: World, p: Provider, embed: Embedder, scope: string, c: Catalog, now: nat)
    requires scope != "atoms" && scope != "resumes" && scope != "opportunities" && scope != "all"
    ensures Build(w, p, embed, scope, c, now).1.tally == Tally(0, 0, 0)
    ensures Build(w, p, embed, scope, c, now).0.vectors == w.vectors
  {
    assert InScope(scope, c) == [];
  }

  // ---------- completion times ----------

  ghost predicate Tied(s: Runs, m: nat, n: nat, kind: Kind, id: string, p: Provider) {
    && 1 <= m < n <= s.counter && IsLatest(s, m, kind, id, p) && IsLatest(s, n, kind, id, p)
    && s.entries[(m, kind, id)] != s.entries[(n, kind, id)]
  }

  /** The query has only one answer exactly when no two latest runs recorded different hashes. */
  lemma OneAnswerIff(s: Runs, kind: Kind, id: string, p: Provider)
    ensures (forall r :: IsLastSourceHash(s, kind, id, p, r) ==> r == LastSourceHash(s, kind, id, p)) <==>
            !exists m, n :: Tied(s, m, n, kind, id, p)
  {
    LastSourceHashIs(s, kind, id, p);
    LastRunIs(s, kind, id, p, s.counter);
    hide LastRun;
    var last := LastRun(s, kind, id, p, s.counter);
    if m, n :| Tied(s, m, n, kind, id, p) {
      assert IsLastSourceHash(s, kind, id, p, Some(s.entries[(m, kind, id)]));
      assert IsLastSourceHash(s, kind, id, p, Some(s.entries[(n, kind, id)]));
    } else if last.Some? {
      var b := last.value;
      assert IsLatest(s, b, kind, id, p);
      forall n | 1 <= n <= s.counter && IsLatest(s, n, kind, id, p)
        ensures s.entries[(n, kind, id)] == s.entries[(b, kind, id)]
      {
        assert !Tied(s, n, b, kind, id, p) && !Tied(s, b, n, kind, id, p);
      }
    }
  }

  /** Pairwise different completion times among the runs the query reads leave it one answer. */
  lemma DifferentTimesDecide(s: Runs, kind: Kind, id: string, p: Provider, r: Option<Hash64>)
    requires forall m, n :: 1 <= m < n <= s.counter && Eligible(s, m, kind, id, p) && Eligible(s, n, kind, id, p) ==>
      s.runs[m].completedAt != s.runs[n].completedAt
    ensures IsLastSourceHash(s, kind, id, p, r) <==> r == LastSourceHash(s, kind, id, p)
  {
    LastSourceHashIs(s, kind, id, p);
    OneAnswerIff(s, kind, id, p);
    forall m, n
      ensures !Tied(s, m, n, kind, id, p)
    {
    }
  }

  /** In a history with rising times every query has one answer: the hash of the last run that recorded the artifact. */
  lemma RisingTimesDecide(steps: seq<BuildStep>, p: Provider, embed: Embedder, kind: Kind, id: string,
                          r: Option<Hash64>)
    requires GoodHistory(steps)
    ensures
      var s := History(steps, p, embed).store;
      IsLastSourceHash(s, kind, id, p, r) <==> r == LastEntry(s.entries, kind, id, s.counter)
  {
    hide AllJustified, GoodHistory, IsLastSourceHash;
    HistorySettles(steps, p, embed);
    var s := History(steps, p, embed).store;
    hide History;
    DifferentTimesDecide(s, kind, id, p, r);
    LastRunByNumber(s, p, kind, id, s.counter);
  }

  /**
   What equal times do, on any store.  Build over d, edit the artifact to e and build at the same time: the query
   may then answer either hash.  With d's hash for an answer, a build over d, edited back, skips the artifact and
   leaves the vector of e under its key.
   */
  lemma EqualTimesLeaveStale(w: World, p: Provider, embed: Embedder, s: BuildStep, s': BuildStep, d: Source, e: Source)
    requires Numbered(w.store) && Before(w, s.now) && s'.now == s.now
    requires Distinct(InScope(s.scope, s.catalog)) && Distinct(InScope(s'.scope, s'.catalog))
    requires d in InScope(s.scope, s.catalog) && e in InScope(s'.scope, s'.catalog)
    requires d.kind == e.kind && d.id == e.id && Hash(d.text) != Hash(e.text)
    requires Due(w, p, embed, d) && embed(e.text) != []
    ensures
      var w2 := BuildAt(BuildAt(w, p, embed, s), p, embed, s');
      var g := Begin(w2, p);
      var run := g.w.store.counter;
      && IsLastSourceHash(g.w.store, d.kind, d.id, p, Some(Hash(e.text)))
      && IsLastSourceHash(g.w.store, d.kind, d.id, p, Some(Hash(d.text)))
      && IndexGiven(g, run, embed, d, Some(Hash(d.text))).w.vectors == w2.vectors
      && VectorKey(d.kind, d.id) in w2.vectors && w2.vectors[VectorKey(d.kind, d.id)] == embed(e.text)
  {
    hide Build, InScope, Hash, WroteDue, LastSourceHash, IsLastSourceHash, SameView;
    hide VectorKey, SameAt, Before, Numbered;
    var w1 := BuildAt(w, p, embed, s);
    var w2 := BuildAt(w1, p, embed, s');
    OwnBuildAnswers(w, p, embed, s, d);
    BuildWritesDue(w, p, embed, s.scope, s.catalog, s.now);
    BuildCounter(w, p, embed, s);
    BuildRun(w, p, embed, s);
    ReembedsIff(w, p, embed, s.scope, s.catalog, s.now, d);
    BuildWritesDue(w1, p, embed, s'.scope, s'.catalog, s'.now);
    BuildCounter(w1, p, embed, s');
    BuildRun(w1, p, embed, s');
    ReembedsIff(w1, p, embed, s'.scope, s'.catalog, s'.now, e);
    ViewAfterBuild(w1, w2, p, embed, InScope(s'.scope, s'.catalog), Run(p, Some(s'.now)), d.kind, d.id, p);
    TwoLatest(w, w1, w2, d.kind, d.id, p, s.now);
    BeginAnswers(w2, p, d.kind, d.id);
  }

  lemma BeginAnswers(w: World, p: Provider, kind: Kind, id: string)
    ensures forall r ::
      IsLastSourceHash(Begin(w, p).w.store, kind, id, p, r) <==> IsLastSourceHash(w.store, kind, id, p, r)
  {
    UnseenRun(w.store, Begin(w, p).w.store, kind, id, p);
  }

  /** Two runs completed last, at one time, that both recorded the artifact: either hash is an answer. */
  lemma TwoLatest(w: World, w1: World, w2: World, kind: Kind, id: string, p: Provider, now: nat)
    requires Before(w, now) && w1.store.counter == w.store.counter + 1 && w2.store.counter == w1.store.counter + 1
    requires w1.store.runs == w.store.runs[w1.store.counter := Run(p, Some(now))]
    requires w2.store.runs == w1.store.runs[w2.store.counter := Run(p, Some(now))]
    requires (w1.store.counter, kind, id) in w1.store.entries && (w2.store.counter, kind, id) in w2.store.entries
    requires SameView(w1.store, w2.store, kind, id, p, w1.store.counter)
    ensures IsLastSourceHash(w2.store, kind, id, p, Some(w1.store.entries[(w1.store.counter, kind, id)]))
    ensures IsLastSourceHash(w2.store, kind, id, p, Some(w2.store.entries[(w2.store.counter, kind, id)]))
  {
    var m, n := w1.store.counter, w2.store.counter;
    assert Eligible(w1.store, m, kind, id, p);
    assert Eligible(w2.store, m, kind, id, p) && Eligible(w2.store, n, kind, id, p);
    forall l | 1 <= l <= n && Eligible(w2.store, l, kind, id, p)
      ensures w2.store.runs[l].completedAt.value <= now
    {
    }
    assert IsLatest(w2.store, m, kind, id, p) && IsLatest(w2.store, n, kind, id, p);
  }

  /** An instance: the claim "A", edited to "B" within one clock reading and back, may keep the vector of "B". */
  lemma StaleVectorAtOneTime(p: Provider, embed: Embedder, id: string, now: nat)
    requires embed(" A") != [] && embed(" B") != []
    ensures
      var a, b := Atom(id, [], [], "A", [], true, []), Atom(id, [], [], "B", [], true, []);
      var s, s' := BuildStep("atoms", Catalog([a], [], []), now), BuildStep("atoms", Catalog([b], [], []), now);
      var w2 := BuildAt(BuildAt(EMPTY_WORLD, p, embed, s), p, embed, s');
      var g := Begin(w2, p);
      && AtomText(a) == " A" && AtomText(b) == " B"
      && IsLastSourceHash(g.w.store, AtomKind, id, p, Some(Hash(" A")))
      && (var g' := IndexGiven(g, g.w.store.counter, embed, AtomSource(a), Some(Hash(" A")));
          id in g'.w.vectors && g'.w.vectors[id] == embed(" B"))
  {
    var a, b := Atom(id, [], [], "A", [], true, []), Atom(id, [], [], "B", [], true, []);
    assert AtomText(a) == " A" && AtomText(b) == " B";
    OneByteEditChangesHash(" A", 1, 'B');
    assert " A"[1 := 'B'] == " B";
    var s, s' := BuildStep("atoms", Catalog([a], [], []), now), BuildStep("atoms", Catalog([b], [], []), now);
    hide Hash, AtomText, Build, LastSourceHash, IsLastSourceHash;
    OneAtomScope(a);
    OneAtomScope(b);
    LastSourceHashNone(p, id);
    EqualTimesLeaveStale(EMPTY_WORLD, p, embed, s, s', AtomSource(a), AtomSource(b));
  }

  lemma OneAtomScope(a: Atom)
    ensures InScope("atoms", Catalog([a], [], [])) == [AtomSource(a)]
  {
    hide AtomText;
  }

  lemma LastSourceHashNone(p: Provider, id: string)
    ensures LastSourceHash(EMPTY_WORLD.store, AtomKind, id, p) == None
  {
  }

  // ---------- a change of provider ----------

  /**
   The provider is part of the query but not of the vector key.  On any store: build under p, then under q, which
   had not recorded this text, then under p again, the artifact unchanged throughout.  The third build never
   re-embeds the artifact, and its vector is q's.
   */
  lemma SwitchBackKeepsOtherVector(w: World, p: Provider, q: Provider, e: Embedder, f: Embedder,
                                   s1: BuildStep, s2: BuildStep, s3: BuildStep, d: Source)
    requires Numbered(w.store) && p != q && Before(w, s1.now)
    requires Distinct(InScope(s1.scope, s1.catalog)) && Distinct(InScope(s2.scope, s2.catalog))
    requires Distinct(InScope(s3.scope, s3.catalog))
    requires d in InScope(s1.scope, s1.catalog) && d in InScope(s2.scope, s2.catalog)
    requires d in InScope(s3.scope, s3.catalog) && e(d.text) != [] && Due(w, q, f, d)
    ensures
      var w2 := BuildAt(BuildAt(w, p, e, s1), q, f, s2);
      var w3 := BuildAt(w2, p, e, s3);
      var key := VectorKey(d.kind, d.id);
      && !Due(w2, p, e, d)
      && (w3.store.counter, d.kind, d.id) !in w3.store.entries
      && key in w3.vectors && w3.vectors[key] == f(d.text)
  {
    hide Build, InScope, Hash, LastSourceHash, IsLastSourceHash, VectorKey, Before, Numbered, WroteDue, Distinct;
    var w1 := BuildAt(w, p, e, s1);
    var w2 := BuildAt(w1, q, f, s2);
    BuildWritesDue(w, p, e, s1.scope, s1.catalog, s1.now);
    BuildWritesDue(w1, q, f, s2.scope, s2.catalog, s2.now);
    OwnBuildAnswers(w, p, e, s1, d);
    OtherProviderUnseen(w, p, e, s1, q, d.kind, d.id);
    OtherProviderUnseen(w1, q, f, s2, p, d.kind, d.id);
    ReembedsIff(w1, q, f, s2.scope, s2.catalog, s2.now, d);
    ReembedsIff(w2, p, e, s3.scope, s3.catalog, s3.now, d);
    BuildRun(w2, p, e, s3);
    BuildCounter(w2, p, e, s3);
  }

  /** An instance: one atom from the empty world; the third build skips it and the index holds q's vector alone. */
  lemma ProviderSwitchKeepsOtherVector(p: Provider, q: Provider, e: Embedder, f: Embedder, atom: Atom)
    requires p != q && e(AtomText(atom)) != [] && f(AtomText(atom)) != []
    ensures
      var c := Catalog([atom], [], []);
      var w2 := BuildAt(BuildAt(EMPTY_WORLD, p, e, BuildStep("atoms", c, 1)), q, f, BuildStep("atoms", c, 2));
      var (w3, r) := Build(w2, p, e, "atoms", c, 3);
      r.tally == Tally(0, 1, 0) && w3.vectors == map[atom.atomId := f(AtomText(atom))]
  {
    hide Hash, AtomText, Build, LastSourceHash, WroteDue, ExpectedTally;
    var c := Catalog([atom], [], []);
    var s1, s2, s3 := BuildStep("atoms", c, 1), BuildStep("atoms", c, 2), BuildStep("atoms", c, 3);
    var src := AtomSource(atom);
    OneAtomScope(atom);
    LastSourceHashNone(q, atom.atomId);
    SwitchBackKeepsOtherVector(EMPTY_WORLD, p, q, e, f, s1, s2, s3, src);
    var w1 := BuildAt(EMPTY_WORLD, p, e, s1);
    var w2 := BuildAt(w1, q, f, s2);
    BuildWritesDue(EMPTY_WORLD, p, e, "atoms", c, 1);
    BuildWritesDue(w1, q, f, "atoms", c, 2);
    OtherKeysKept(EMPTY_WORLD, w1, p, e, src);
    OtherKeysKept(w1, w2, q, f, src);
    NothingDueKeeps(w2, p, e, s3);
    BuildConserves(w2, p, e, "atoms", c, 3);
    OneUnchanged(w2, p, e, src);
    assert forall key :: key in w2.vectors ==> key == src.id || SameAt(w1.vectors, w2.vectors, key);
    assert forall key :: key in w1.vectors ==> key == src.id || SameAt(EMPTY_WORLD.vectors, w1.vectors, key);
    assert w2.vectors.Keys == {src.id};
  }

  lemma OtherKeysKept(w: World, w': World, p: Provider, embed: Embedder, src: Source)
    requires WroteDue(w, w', p, embed, [src])
    ensures forall key :: key != VectorKey(src.kind, src.id) ==> SameAt(w.vectors, w'.vectors, key)
  {
    hide Due, Written, VectorKey;
    forall key | key != VectorKey(src.kind, src.id)
      ensures SameAt(w.vectors, w'.vectors, key)
    {
      assert NoneDueAt(w, p, embed, [src], key);
    }
  }

  lemma OneUnchanged(w: World, p: Provider, embed: Embedder, src: Source)
    requires embed(src.text) != [] && !Due(w, p, embed, src)
    ensures ExpectedTally(w, p, embed, [src]) == Tally(0, 1, 0)
  {
    hide Hash, LastSourceHash;
    assert VerdictOn(w, p, embed, src) == Unchanged;
    CountOne(w, p, embed, src, Unchanged);
    CountOne(w, p, embed, src, Fresh);
    CountOne(w, p, embed, src, Stale);
  }

  lemma CountOne(w: World, p: Provider, embed: Embedder, src: Source, v: Verdict)
    ensures Count(w, p, embed, [src], v) == if VerdictOn(w, p, embed, src) == v then 1 else 0
  {
    hide VerdictOn;
    assert Count(w, p, embed, [src][..0], v) == 0;
  }
}
