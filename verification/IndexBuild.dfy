/**
 The index build with drift detection (src/indexing/index_build_pipeline.cpp) over its run store
 (src/storage/sqlite/sqlite_index_run_store.cpp), as functions on a world of tables and vectors.
 */
module IndexBuild {
  import opened Domain
  import opened StableHash

  type Vector = seq<real>
  type Embedder = string -> Vector

  datatype Option<T> = None | Some(value: T)

  // ---------- artifacts ----------

  datatype Resume = Resume(resumeId: string, markdown: string)

  datatype Catalog = Catalog(atoms: seq<Atom>, resumes: seq<Resume>, opportunities: seq<Opportunity>)

  datatype Kind = AtomKind | ResumeKind | OpportunityKind

  datatype Source = Source(kind: Kind, id: string, text: string)

  /** Each item preceded by a space. */
  function Spaced(items: seq<string>): string {
    if items == [] then [] else Spaced(items[..|items| - 1]) + (" " + items[|items| - 1])
  }

  function RequirementTexts(reqs: seq<Requirement>): (r: seq<string>)
    ensures |r| == |reqs| && forall i :: 0 <= i < |reqs| ==> r[i] == reqs[i].text
  {
    seq(|reqs|, i requires 0 <= i < |reqs| => reqs[i].text)
  }

  function AtomText(a: Atom): string { a.title + " " + a.claim + Spaced(a.tags) }

  function OpportunityText(o: Opportunity): string {
    o.roleTitle + " " + o.company + Spaced(RequirementTexts(o.requirements))
  }

  function AtomSource(a: Atom): Source { Source(AtomKind, a.atomId, AtomText(a)) }
  function ResumeSource(r: Resume): Source { Source(ResumeKind, r.resumeId, r.markdown) }
  function OpportunitySource(o: Opportunity): Source { Source(OpportunityKind, o.opportunityId, OpportunityText(o)) }

  function Map<A, B>(f: A -> B, s: seq<A>): (r: seq<B>)
    ensures |r| == |s| && forall i :: 0 <= i < |s| ==> r[i] == f(s[i])
  {
    seq(|s|, i requires 0 <= i < |s| => f(s[i]))
  }

  /** The artifacts a scope covers, in processing order; an unknown scope covers none. */
  function InScope(scope: string, c: Catalog): seq<Source> {
    (if scope == "atoms" || scope == "all" then Map(AtomSource, c.atoms) else []) +
    (if scope == "resumes" || scope == "all" then Map(ResumeSource, c.resumes) else []) +
    (if scope == "opportunities" || scope == "all" then Map(OpportunitySource, c.opportunities) else [])
  }

  /** Where the vector of an artifact is kept. */
  function VectorKey(kind: Kind, id: string): string {
    match kind
    case AtomKind => id
    case ResumeKind => "resume:" + id
    case OpportunityKind => "opp:" + id
  }

  /** An atom id that cannot be taken for the key of a resume or an opportunity. */
  predicate PlainId(kind: Kind, id: string) {
    kind == AtomKind ==> !("resume:" <= id) && !("opp:" <= id)
  }

  /** Keys collide exactly when an atom is named like the key of a resume or opportunity. */
  lemma VectorKeyInjective(k: Kind, i: string, l: Kind, j: string)
    requires PlainId(k, i) && PlainId(l, j)
    ensures VectorKey(k, i) == VectorKey(l, j) ==> k == l && i == j
  {
    var r, o := "resume:", "opp:";
    assert r[0] != o[0];
    assert (r + i)[|r|..] == i && (r + j)[|r|..] == j && (o + i)[|o|..] == i && (o + j)[|o|..] == j;
    assert (r + i)[0] == r[0] && (o + j)[0] == o[0] && (o + i)[0] == o[0] && (r + j)[0] == r[0];
  }

  lemma UnplainIdCollides(id: string)
    requires !PlainId(AtomKind, id)
    ensures exists l, j :: l != AtomKind && VectorKey(AtomKind, id) == VectorKey(l, j)
  {
    if "resume:" <= id {
      assert id == "resume:" + id[7..];
      assert VectorKey(AtomKind, id) == VectorKey(ResumeKind, id[7..]);
    } else {
      assert id == "opp:" + id[4..];
      assert VectorKey(AtomKind, id) == VectorKey(OpportunityKind, id[4..]);
    }
  }

  // ---------- the run store ----------

  datatype Provider = Provider(providerId: string, modelId: string, promptVersion: string)

  /** A run is identified by its number N in "run-N"; only completed runs carry a completion time. */
  datatype Run = Run(provider: Provider, completedAt: Option<nat>)

  datatype Runs = Runs(runs: map<nat, Run>, entries: map<(nat, Kind, string), Hash64>, counter: nat)

  predicate Eligible(s: Runs, n: nat, kind: Kind, id: string, p: Provider) {
    n in s.runs && s.runs[n].completedAt.Some? && s.runs[n].provider == p && (n, kind, id) in s.entries
  }

  /** Among the eligible runs up to n, one with the latest completion time. */
  function LastRun(s: Runs, kind: Kind, id: string, p: Provider, n: nat): Option<nat> {
    if n == 0 then None else
      var before := LastRun(s, kind, id, p, n - 1);
      if !Eligible(s, n, kind, id, p) then before
      else if before.Some? && before.value in s.runs && s.runs[before.value].completedAt.Some?
              && s.runs[before.value].completedAt.value > s.runs[n].completedAt.value then before
      else Some(n)
  }

  /** get_last_source_hash. */
  function LastSourceHash(s: Runs, kind: Kind, id: string, p: Provider): Option<Hash64> {
    match LastRun(s, kind, id, p, s.counter)
    case None => None
    case Some(n) => if (n, kind, id) in s.entries then Some(s.entries[(n, kind, id)]) else None
  }

  /** What the query promises: a hash from an eligible run no other eligible run completed after, or none. */
  ghost predicate IsLastSourceHash(s: Runs, kind: Kind, id: string, p: Provider, r: Option<Hash64>) {
    match r
    case None => forall n :: 1 <= n <= s.counter ==> !Eligible(s, n, kind, id, p)
    case Some(h) => exists n :: 1 <= n <= s.counter && IsLatest(s, n, kind, id, p) && s.entries[(n, kind, id)] == h
  }

  ghost predicate IsLatest(s: Runs, n: nat, kind: Kind, id: string, p: Provider) {
    Eligible(s, n, kind, id, p) &&
    forall m :: 1 <= m <= s.counter && Eligible(s, m, kind, id, p) ==>
      s.runs[m].completedAt.value <= s.runs[n].completedAt.value
  }

  lemma {:induction false} LastRunIs(s: Runs, kind: Kind, id: string, p: Provider, n: nat)
    ensures
      var r := LastRun(s, kind, id, p, n);
      && (r.None? ==> forall m :: 1 <= m <= n ==> !Eligible(s, m, kind, id, p))
      && (r.Some? ==> 1 <= r.value <= n && Eligible(s, r.value, kind, id, p))
      && (r.Some? ==> forall m :: 1 <= m <= n && Eligible(s, m, kind, id, p) ==>
            s.runs[m].completedAt.value <= s.runs[r.value].completedAt.value)
  {
    if n > 0 {
      LastRunIs(s, kind, id, p, n - 1);
    }
  }

  lemma LastSourceHashIs(s: Runs, kind: Kind, id: string, p: Provider)
    ensures IsLastSourceHash(s, kind, id, p, LastSourceHash(s, kind, id, p))
  {
    LastRunIs(s, kind, id, p, s.counter);
    var r := LastRun(s, kind, id, p, s.counter);
    if r.Some? {
      assert IsLatest(s, r.value, kind, id, p);
    }
  }

  /** Up to run n the two stores show the query the same completed runs and hashes of the artifact. */
  ghost predicate SameView(s: Runs, s': Runs, kind: Kind, id: string, p: Provider, n: nat) {
    forall m :: 1 <= m <= n ==>
      && (Eligible(s', m, kind, id, p) <==> Eligible(s, m, kind, id, p))
      && (Eligible(s, m, kind, id, p) ==>
            s'.runs[m] == s.runs[m] && s'.entries[(m, kind, id)] == s.entries[(m, kind, id)])
  }

  lemma {:induction false} SameLastRun(s: Runs, s': Runs, kind: Kind, id: string, p: Provider, n: nat)
    requires SameView(s, s', kind, id, p, n)
    ensures LastRun(s', kind, id, p, n) == LastRun(s, kind, id, p, n)
  {
    if n > 0 {
      SameLastRun(s, s', kind, id, p, n - 1);
      LastRunIs(s, kind, id, p, n - 1);
    }
  }

  /** One more run changes the answer only if it is completed, of the same provider, and recorded the artifact. */
  lemma UnseenRun(s: Runs, s': Runs, kind: Kind, id: string, p: Provider)
    requires s'.counter == s.counter + 1 && SameView(s, s', kind, id, p, s.counter)
    requires !Eligible(s', s'.counter, kind, id, p)
    ensures LastSourceHash(s', kind, id, p) == LastSourceHash(s, kind, id, p)
    ensures forall r :: IsLastSourceHash(s', kind, id, p, r) <==> IsLastSourceHash(s, kind, id, p, r)
  {
    SameLastRun(s, s', kind, id, p, s.counter);
    LastRunIs(s, kind, id, p, s.counter);
    assert forall m :: 1 <= m <= s.counter ==> (IsLatest(s', m, kind, id, p) <==> IsLatest(s, m, kind, id, p));
  }

  /** Such a run, completed after all others, is the answer. */
  lemma NewestRunAnswers(s: Runs, s': Runs, kind: Kind, id: string, p: Provider)
    requires s'.counter == s.counter + 1 && SameView(s, s', kind, id, p, s.counter)
    requires Eligible(s', s'.counter, kind, id, p)
    requires forall m :: 1 <= m <= s.counter && Eligible(s, m, kind, id, p) ==>
      s.runs[m].completedAt.value < s'.runs[s'.counter].completedAt.value
    ensures LastSourceHash(s', kind, id, p) == Some(s'.entries[(s'.counter, kind, id)])
    ensures IsLatest(s', s'.counter, kind, id, p)
  {
    LastRunIs(s', kind, id, p, s.counter);
    assert forall m :: 1 <= m <= s.counter && Eligible(s', m, kind, id, p) ==> Eligible(s, m, kind, id, p);
  }

  // ---------- one build ----------

  datatype Record =
    | Started(run: nat)
    | Indexed(run: nat, kind: Kind, id: string, hash: Hash64, stale: bool)
    | Finished(run: nat, tally: Tally)

  datatype World = World(store: Runs, vectors: map<string, Vector>, audit: seq<Record>)

  datatype Tally = Tally(indexed: nat, skipped: nat, stale: nat)

  datatype Progress = Progress(w: World, tally: Tally)

  function IndexOne(g: Progress, run: nat, p: Provider, embed: Embedder, src: Source): Progress {
    IndexGiven(g, run, embed, src, LastSourceHash(g.w.store, src.kind, src.id, p))
  }

  /** One artifact: skipped when its hash is the last recorded one, otherwise embedded and recorded. */
  function IndexGiven(g: Progress, run: nat, embed: Embedder, src: Source, prior: Option<Hash64>): Progress {
    var h := Hash(src.text);
    if prior == Some(h) then g.(tally := g.tally.(skipped := g.tally.skipped + 1))
    else
      var v := embed(src.text);
      if v == [] then g else
        var stale := prior.Some?;
        Progress(
          World(g.w.store.(entries := g.w.store.entries[(run, src.kind, src.id) := h]),
                g.w.vectors[VectorKey(src.kind, src.id) := v],
                g.w.audit + [Indexed(run, src.kind, src.id, h, stale)]),
          Tally(g.tally.indexed + 1, g.tally.skipped, g.tally.stale + if stale then 1 else 0))
  }

  function IndexAll(g: Progress, run: nat, p: Provider, embed: Embedder, srcs: seq<Source>): Progress {
    if srcs == [] then g else
      IndexOne(IndexAll(g, run, p, embed, srcs[..|srcs| - 1]), run, p, embed, srcs[|srcs| - 1])
  }

  function Begin(w: World, p: Provider): Progress {
    var run := w.store.counter + 1;
    Progress(World(Runs(w.store.runs[run := Run(p, None)], w.store.entries, run), w.vectors, w.audit + [Started(run)]),
             Tally(0, 0, 0))
  }

  function Finish(g: Progress, p: Provider, now: nat): World {
    var run := g.w.store.counter;
    World(g.w.store.(runs := g.w.store.runs[run := Run(p, Some(now))]), g.w.vectors,
          g.w.audit + [Finished(run, g.tally)])
  }

  datatype BuildResult = BuildResult(tally: Tally, run: nat)

  function Build(w: World, p: Provider, embed: Embedder, scope: string, c: Catalog, now: nat): (World, BuildResult) {
    var run := w.store.counter + 1;
    var g := IndexAll(Begin(w, p), run, p, embed, InScope(scope, c));
    (Finish(g, p, now), BuildResult(g.tally, run))
  }

  /** A completed build over whatever the sources were at that moment. */
  datatype BuildStep = BuildStep(scope: string, catalog: Catalog, now: nat)

  function BuildAt(w: World, p: Provider, embed: Embedder, s: BuildStep): World {
    Build(w, p, embed, s.scope, s.catalog, s.now).0
  }

  /** Ids are unique per kind, and no atom is named like a key of another kind. */
  ghost predicate WellNamed(c: Catalog) {
    && (forall i, j :: 0 <= i < j < |c.atoms| ==> c.atoms[i].atomId != c.atoms[j].atomId)
    && (forall i, j :: 0 <= i < j < |c.resumes| ==> c.resumes[i].resumeId != c.resumes[j].resumeId)
    && (forall i, j :: 0 <= i < j < |c.opportunities| ==>
          c.opportunities[i].opportunityId != c.opportunities[j].opportunityId)
    && (forall a :: a in c.atoms ==> PlainId(AtomKind, a.atomId))
  }

  /** No two artifacts share a vector key; in particular no two share kind and id. */
  ghost predicate Distinct(srcs: seq<Source>) {
    forall i, j :: 0 <= i < j < |srcs| ==> VectorKey(srcs[i].kind, srcs[i].id) != VectorKey(srcs[j].kind, srcs[j].id)
  }

  ghost predicate AllPlain(srcs: seq<Source>) { forall s :: s in srcs ==> PlainId(s.kind, s.id) }

  lemma InScopeDistinct(scope: string, c: Catalog)
    requires WellNamed(c)
    ensures Distinct(InScope(scope, c)) && AllPlain(InScope(scope, c))
  {
    hide PlainId, VectorKey;
    ResumesPlain();
    var srcs := InScope(scope, c);
    assert AllPlain(srcs);
    forall i, j | 0 <= i < j < |srcs|
      ensures VectorKey(srcs[i].kind, srcs[i].id) != VectorKey(srcs[j].kind, srcs[j].id)
    {
      assert srcs[i] in srcs && srcs[j] in srcs;
      if VectorKey(srcs[i].kind, srcs[i].id) == VectorKey(srcs[j].kind, srcs[j].id) {
        VectorKeyInjective(srcs[i].kind, srcs[i].id, srcs[j].kind, srcs[j].id);
      }
    }
  }

  lemma ResumesPlain()
    ensures forall id :: PlainId(ResumeKind, id) && PlainId(OpportunityKind, id)
  {
  }

  lemma DistinctFront(srcs: seq<Source>)
    requires srcs != [] && Distinct(srcs)
    ensures Distinct(srcs[..|srcs| - 1]) && Distinct(srcs[..|srcs| - 1] + [srcs[|srcs| - 1]])
  {
    hide VectorKey;
    assert srcs == srcs[..|srcs| - 1] + [srcs[|srcs| - 1]];
  }

  lemma SameKeySame(srcs: seq<Source>, a: Source, b: Source)
    requires Distinct(srcs) && a in srcs && b in srcs && VectorKey(a.kind, a.id) == VectorKey(b.kind, b.id)
    ensures a == b
  {
    hide VectorKey;
  }

  // ---------- what any build does, on any store ----------

  /** Entries belong to the runs numbered so far: all a build needs to know of the store it starts from. */
  ghost predicate Numbered(s: Runs) { forall m, k, l :: (m, k, l) in s.entries ==> 1 <= m <= s.counter }

  /** The artifact has an embedding and its hash is not the one the query answers. */
  predicate Due(w: World, p: Provider, embed: Embedder, d: Source) {
    embed(d.text) != [] && LastSourceHash(w.store, d.kind, d.id, p) != Some(Hash(d.text))
  }

  ghost predicate DueHere(w: World, p: Provider, embed: Embedder, done: seq<Source>, kind: Kind, id: string) {
    exists d :: d in done && d.kind == kind && d.id == id && Due(w, p, embed, d)
  }

  /** Hash and vector of the artifact are the current ones, written by the given run. */
  predicate Written(w: World, run: nat, embed: Embedder, d: Source) {
    && (run, d.kind, d.id) in w.store.entries && w.store.entries[(run, d.kind, d.id)] == Hash(d.text)
    && VectorKey(d.kind, d.id) in w.vectors && w.vectors[VectorKey(d.kind, d.id)] == embed(d.text)
  }

  predicate SameAt(v: map<string, Vector>, v': map<string, Vector>, key: string) {
    (key in v' <==> key in v) && (key in v ==> v'[key] == v[key])
  }

  /** From w to w' the artifacts due in `done` were written, and nothing else. */
  ghost predicate WroteDue(w: World, w': World, p: Provider, embed: Embedder, done: seq<Source>) {
    && w'.store.counter == w.store.counter + 1
    && KeptEntries(w.store, w'.store)
    && (forall m, k, l :: (m, k, l) in w'.store.entries && (m, k, l) !in w.store.entries ==>
          m == w'.store.counter && DueHere(w, p, embed, done, k, l))
    && (forall d :: d in done && Due(w, p, embed, d) ==> Written(w', w'.store.counter, embed, d))
    && (forall key :: NoneDueAt(w, p, embed, done, key) ==> SameAt(w.vectors, w'.vectors, key))
  }

  ghost predicate KeptEntries(s: Runs, s': Runs) {
    forall e :: e in s.entries ==> e in s'.entries && s'.entries[e] == s.entries[e]
  }

  ghost predicate NoneDueAt(w: World, p: Provider, embed: Embedder, done: seq<Source>, key: string) {
    forall d :: d in done && Due(w, p, embed, d) ==> VectorKey(d.kind, d.id) != key
  }

  /** While a run is under way it is in the table without a completion time, so no query sees it. */
  ghost predicate MidBuild(w: World, g: Progress, p: Provider, embed: Embedder, done: seq<Source>) {
    WroteDue(w, g.w, p, embed, done) && g.w.store.runs == w.store.runs[w.store.counter + 1 := Run(p, None)]
  }

  lemma QueryMidBuild(w: World, g: Progress, p: Provider, embed: Embedder, done: seq<Source>, kind: Kind, id: string)
    requires MidBuild(w, g, p, embed, done)
    ensures LastSourceHash(g.w.store, kind, id, p) == LastSourceHash(w.store, kind, id, p)
  {
    hide DueHere, Due, Written, NoneDueAt, SameAt, LastSourceHash, IsLastSourceHash;
    var s, s' := w.store, g.w.store;
    forall m | 1 <= m <= s.counter
      ensures (m, kind, id) in s'.entries <==> (m, kind, id) in s.entries
      ensures (m, kind, id) in s.entries ==> s'.entries[(m, kind, id)] == s.entries[(m, kind, id)]
    {
    }
    UnseenRun(s, s', kind, id, p);
  }

  lemma BeginMidBuild(w: World, p: Provider, embed: Embedder)
    ensures MidBuild(w, Begin(w, p), p, embed, [])
  {
    hide Due, VectorKey;
  }

  lemma IndexOneKeepsMidBuild(w: World, g: Progress, p: Provider, embed: Embedder, done: seq<Source>, src: Source)
    requires Numbered(w.store) && MidBuild(w, g, p, embed, done) && Distinct(done + [src])
    ensures MidBuild(w, IndexOne(g, g.w.store.counter, p, embed, src), p, embed, done + [src])
  {
    hide LastSourceHash, Hash, VectorKey, Distinct;
    var longer := done + [src];
    var run := g.w.store.counter;
    var g' := IndexOne(g, run, p, embed, src);
    QueryMidBuild(w, g, p, embed, done, src.kind, src.id);
    assert longer[|done|] == src;
    assert forall d :: d in longer <==> d in done || d == src;
    if Due(w, p, embed, src) {
      forall d | d in done && Due(w, p, embed, d)
        ensures Written(g'.w, run, embed, d)
      {
        assert Written(g.w, run, embed, d);
        OtherSource(done, src, d);
      }
    }
    forall key | NoneDueAt(w, p, embed, longer, key)
      ensures SameAt(w.vectors, g'.w.vectors, key)
    {
      assert NoneDueAt(w, p, embed, done, key);
    }
    forall m, k, l | (m, k, l) in g'.w.store.entries && (m, k, l) !in w.store.entries
      ensures m == run && DueHere(w, p, embed, longer, k, l)
    {
      if (m, k, l) in g.w.store.entries {
        assert DueHere(w, p, embed, done, k, l);
      }
    }
  }

  /** An artifact processed earlier differs from the next in kind or id, and in its key. */
  lemma OtherSource(done: seq<Source>, src: Source, d: Source)
    requires Distinct(done + [src]) && d in done
    ensures (d.kind != src.kind || d.id != src.id) && VectorKey(d.kind, d.id) != VectorKey(src.kind, src.id)
  {
    hide VectorKey;
    var longer := done + [src];
    var i :| 0 <= i < |done| && done[i] == d;
    assert longer[i] == d && longer[|done|] == src;
  }

  lemma {:induction false} IndexAllKeepsMidBuild(w: World, p: Provider, embed: Embedder, srcs: seq<Source>)
    requires Numbered(w.store) && Distinct(srcs)
    ensures MidBuild(w, IndexAll(Begin(w, p), w.store.counter + 1, p, embed, srcs), p, embed, srcs)
  {
    if srcs == [] {
      BeginMidBuild(w, p, embed);
    } else {
      hide IndexOne, Numbered, MidBuild, Distinct;
      var n := |srcs| - 1;
      DistinctFront(srcs);
      assert srcs == srcs[..n] + [srcs[n]];
      IndexAllKeepsMidBuild(w, p, embed, srcs[..n]);
      IndexAllKeepsRuns(Begin(w, p), w.store.counter + 1, p, embed, srcs[..n]);
      var mid := IndexAll(Begin(w, p), w.store.counter + 1, p, embed, srcs[..n]);
      IndexOneKeepsMidBuild(w, mid, p, embed, srcs[..n], srcs[n]);
    }
  }

  /**
   The effect of one build on any store, whatever providers, unfinished runs or completion times it holds:
   exactly the artifacts in scope that are due get a new hash and a new vector, under the new run.
   */
  lemma BuildWritesDue(w: World, p: Provider, embed: Embedder, scope: string, c: Catalog, now: nat)
    requires Numbered(w.store) && Distinct(InScope(scope, c))
    ensures
      var w' := Build(w, p, embed, scope, c, now).0;
      && WroteDue(w, w', p, embed, InScope(scope, c))
      && w'.store.runs == w.store.runs[w'.store.counter := Run(p, Some(now))]
      && Numbered(w'.store)
  {
    hide InScope, Due, DueHere, NoneDueAt, SameAt, Distinct, IndexAll;
    IndexAllKeepsMidBuild(w, p, embed, InScope(scope, c));
    var w' := Build(w, p, embed, scope, c, now).0;
    forall m, k, l | (m, k, l) in w'.store.entries
      ensures 1 <= m <= w'.store.counter
    {
    }
  }

  /**
   When a build re-embeds: on any store, an artifact in scope gets an entry of the new run exactly when it
   has an embedding and the query does not answer its current hash.  Then its vector is its embedding;
   otherwise the vector under its key stays what it was.
   */
  lemma ReembedsIff(w: World, p: Provider, embed: Embedder, scope: string, c: Catalog, now: nat, d: Source)
    requires Numbered(w.store) && Distinct(InScope(scope, c)) && d in InScope(scope, c)
    ensures
      var (w', r) := Build(w, p, embed, scope, c, now);
      && ((r.run, d.kind, d.id) in w'.store.entries <==> Due(w, p, embed, d))
      && (Due(w, p, embed, d) ==> Written(w', r.run, embed, d))
      && (!Due(w, p, embed, d) ==> SameAt(w.vectors, w'.vectors, VectorKey(d.kind, d.id)))
  {
    hide InScope, Due, Distinct, IndexAll, VectorKey, SameAt;
    var srcs := InScope(scope, c);
    var w' := Build(w, p, embed, scope, c, now).0;
    BuildWritesDue(w, p, embed, scope, c, now);
    forall e | e in srcs && VectorKey(e.kind, e.id) == VectorKey(d.kind, d.id)
      ensures e == d
    {
      SameKeySame(srcs, e, d);
    }
    hide Build;
    assert !Due(w, p, embed, d) ==> NoneDueAt(w, p, embed, srcs, VectorKey(d.kind, d.id));
    assert DueHere(w, p, embed, srcs, d.kind, d.id) ==> Due(w, p, embed, d);
  }

  /** Runs other than the current one keep their completion times while artifacts are processed. */
  lemma {:induction false} IndexAllKeepsRuns(g: Progress, run: nat, p: Provider, embed: Embedder, srcs: seq<Source>)
    ensures IndexAll(g, run, p, embed, srcs).w.store.runs == g.w.store.runs
    ensures IndexAll(g, run, p, embed, srcs).w.store.counter == g.w.store.counter
  {
    if srcs != [] {
      IndexAllKeepsRuns(g, run, p, embed, srcs[..|srcs| - 1]);
    }
  }

  // ---------- histories under any providers ----------

  /** A build that completed, or one that stopped after so many artifacts and left its run unfinished. */
  datatype End = CompletedAt(now: nat) | StoppedAfter(count: nat)

  datatype Attempt = Attempt(provider: Provider, embed: Embedder, scope: string, catalog: Catalog, end: End)

  function AttemptOn(w: World, a: Attempt): World {
    match a.end
    case CompletedAt(now) => Build(w, a.provider, a.embed, a.scope, a.catalog, now).0
    case StoppedAfter(count) =>
      var srcs := InScope(a.scope, a.catalog);
      IndexAll(Begin(w, a.provider), w.store.counter + 1, a.provider, a.embed,
               if count < |srcs| then srcs[..count] else srcs).w
  }

  const EMPTY_WORLD: World := World(Runs(map[], map[], 0), map[], [])

  function Attempts(attempts: seq<Attempt>): World {
    if |attempts| == 0 then EMPTY_WORLD
    else AttemptOn(Attempts(attempts[..|attempts| - 1]), attempts[|attempts| - 1])
  }

  lemma {:induction false} IndexAllNumbered(g: Progress, p: Provider, embed: Embedder, srcs: seq<Source>)
    requires Numbered(g.w.store) && g.w.store.counter > 0
    ensures Numbered(IndexAll(g, g.w.store.counter, p, embed, srcs).w.store)
  {
    hide LastSourceHash, Hash, VectorKey;
    if srcs != [] {
      IndexAllNumbered(g, p, embed, srcs[..|srcs| - 1]);
      IndexAllKeepsRuns(g, g.w.store.counter, p, embed, srcs[..|srcs| - 1]);
    }
  }

  /** Every history of builds, completed or not, under any providers and over any catalogs, numbers its entries. */
  lemma {:induction false} AttemptsNumbered(attempts: seq<Attempt>)
    ensures Numbered(Attempts(attempts).store)
  {
    hide IndexAll, InScope;
    if |attempts| > 0 {
      var n := |attempts| - 1;
      AttemptsNumbered(attempts[..n]);
      var w, a := Attempts(attempts[..n]), attempts[n];
      var srcs := InScope(a.scope, a.catalog);
      var part := if a.end.StoppedAfter? && a.end.count < |srcs| then srcs[..a.end.count] else srcs;
      IndexAllNumbered(Begin(w, a.provider), a.provider, a.embed, part);
    }
  }

  // ---------- histories under one provider ----------

  function History(steps: seq<BuildStep>, p: Provider, embed: Embedder): World {
    if steps == [] then EMPTY_WORLD
    else BuildAt(History(steps[..|steps| - 1], p, embed), p, embed, steps[|steps| - 1])
  }

  ghost predicate GoodHistory(steps: seq<BuildStep>) {
    && (forall i :: 0 <= i < |steps| ==> WellNamed(steps[i].catalog))
    && (forall i, j :: 0 <= i < j < |steps| ==> steps[i].now < steps[j].now)
  }

  /** The hash of the highest-numbered run up to n that recorded the artifact. */
  function LastEntry(entries: map<(nat, Kind, string), Hash64>, kind: Kind, id: string, n: nat): Option<Hash64> {
    if n == 0 then None
    else if (n, kind, id) in entries then Some(entries[(n, kind, id)])
    else LastEntry(entries, kind, id, n - 1)
  }

  /** All runs are completed under p at rising times. */
  ghost predicate Completed(s: Runs, p: Provider) {
    && (forall m :: 1 <= m <= s.counter ==> m in s.runs && s.runs[m].provider == p && s.runs[m].completedAt.Some?)
    && (forall l, m :: 1 <= l < m <= s.counter ==> s.runs[l].completedAt.value < s.runs[m].completedAt.value)
    && Numbered(s)
  }

  lemma {:induction false} LastRunByNumber(s: Runs, p: Provider, kind: Kind, id: string, n: nat)
    requires Completed(s, p) && n <= s.counter
    ensures
      var r := LastRun(s, kind, id, p, n);
      && (r.None? ==> LastEntry(s.entries, kind, id, n) == None)
      && (r.Some? ==> (r.value, kind, id) in s.entries
                      && LastEntry(s.entries, kind, id, n) == Some(s.entries[(r.value, kind, id)]))
  {
    if n > 0 {
      LastRunByNumber(s, p, kind, id, n - 1);
      LastRunIs(s, kind, id, p, n - 1);
    }
  }

  lemma {:induction false} SameLastEntry(s: Runs, s': Runs, kind: Kind, id: string, n: nat)
    requires forall m :: 1 <= m <= n ==> ((m, kind, id) in s'.entries <==> (m, kind, id) in s.entries)
    requires KeptEntries(s, s')
    ensures LastEntry(s'.entries, kind, id, n) == LastEntry(s.entries, kind, id, n)
  {
    if n > 0 {
      SameLastEntry(s, s', kind, id, n - 1);
    }
  }

  /** The vector stored for an artifact embeds some text with the hash last recorded for it. */
  ghost predicate Justified(w: World, embed: Embedder, kind: Kind, id: string) {
    match LastEntry(w.store.entries, kind, id, w.store.counter)
    case None => true
    case Some(h) =>
      && VectorKey(kind, id) in w.vectors
      && exists t :: Hash(t) == h && EmbedsTo(embed, t, w.vectors[VectorKey(kind, id)])
  }

  ghost predicate EmbedsTo(embed: Embedder, t: string, v: Vector) { embed(t) == v }

  ghost predicate AllJustified(w: World, embed: Embedder) {
    forall kind, id :: PlainId(kind, id) ==> Justified(w, embed, kind, id)
  }

  /** What holds between builds. */
  ghost predicate Settled(w: World, p: Provider, embed: Embedder) {
    Completed(w.store, p) && AllJustified(w, embed)
  }

  ghost predicate Before(w: World, now: nat) {
    forall m :: 1 <= m <= w.store.counter && m in w.store.runs && w.store.runs[m].completedAt.Some? ==>
      w.store.runs[m].completedAt.value < now
  }

  /** A build leaves the last hash of an artifact as it was, unless the artifact was due. */
  lemma LastEntryAfter(w: World, w': World, p: Provider, embed: Embedder, done: seq<Source>, kind: Kind, id: string)
    requires Numbered(w.store) && WroteDue(w, w', p, embed, done)
    ensures !DueHere(w, p, embed, done, kind, id) ==>
      LastEntry(w'.store.entries, kind, id, w'.store.counter) == LastEntry(w.store.entries, kind, id, w.store.counter)
  {
    hide DueHere, Due, Written, NoneDueAt, SameAt;
    if !DueHere(w, p, embed, done, kind, id) {
      forall m | 1 <= m <= w'.store.counter
        ensures (m, kind, id) in w'.store.entries <==> (m, kind, id) in w.store.entries
      {
      }
      SameLastEntry(w.store, w'.store, kind, id, w.store.counter);
    }
  }

  lemma BuildJustifies(w: World, w': World, p: Provider, embed: Embedder, done: seq<Source>)
    requires Numbered(w.store) && AllJustified(w, embed) && AllPlain(done) && WroteDue(w, w', p, embed, done)
    ensures AllJustified(w', embed)
  {
    hide Hash, VectorKey, PlainId, Due, Numbered, LastSourceHash;
    forall kind, id | PlainId(kind, id)
      ensures Justified(w', embed, kind, id)
    {
      if DueHere(w, p, embed, done, kind, id) {
        var d :| d in done && d.kind == kind && d.id == id && Due(w, p, embed, d);
        assert Written(w', w'.store.counter, embed, d);
        assert EmbedsTo(embed, d.text, w'.vectors[VectorKey(kind, id)]);
      } else {
        assert Justified(w, embed, kind, id);
        LastEntryAfter(w, w', p, embed, done, kind, id);
        forall d | d in done && Due(w, p, embed, d)
          ensures VectorKey(d.kind, d.id) != VectorKey(kind, id)
        {
          VectorKeyInjective(d.kind, d.id, kind, id);
        }
        assert NoneDueAt(w, p, embed, done, VectorKey(kind, id));
      }
    }
  }

  /** A build settles again, and every in-scope artifact with an embedding has its current hash recorded last. */
  lemma BuildSettles(w: World, p: Provider, embed: Embedder, scope: string, c: Catalog, now: nat)
    requires Settled(w, p, embed) && WellNamed(c) && Before(w, now)
    ensures
      var w' := Build(w, p, embed, scope, c, now).0;
      && Settled(w', p, embed)
      && w'.store.counter == w.store.counter + 1
      && w'.store.runs == w.store.runs[w'.store.counter := Run(p, Some(now))]
      && forall d :: d in InScope(scope, c) && embed(d.text) != [] ==>
           LastEntry(w'.store.entries, d.kind, d.id, w'.store.counter) == Some(Hash(d.text))
  {
    hide Hash, VectorKey, PlainId, InScope, Build, AllJustified, Distinct, AllPlain, WellNamed, LastSourceHash;
    var w' := Build(w, p, embed, scope, c, now).0;
    InScopeDistinct(scope, c);
    BuildWritesDue(w, p, embed, scope, c, now);
    BuildJustifies(w, w', p, embed, InScope(scope, c));
    forall d | d in InScope(scope, c) && embed(d.text) != []
      ensures LastEntry(w'.store.entries, d.kind, d.id, w'.store.counter) == Some(Hash(d.text))
    {
      CurrentHashLast(w, w', p, embed, InScope(scope, c), d);
    }
  }

  lemma CurrentHashLast(w: World, w': World, p: Provider, embed: Embedder, done: seq<Source>, d: Source)
    requires Completed(w.store, p) && Distinct(done) && WroteDue(w, w', p, embed, done)
    requires d in done && embed(d.text) != []
    ensures LastEntry(w'.store.entries, d.kind, d.id, w'.store.counter) == Some(Hash(d.text))
  {
    hide Hash, VectorKey, Distinct, NoneDueAt, SameAt;
    if Due(w, p, embed, d) {
      assert Written(w', w'.store.counter, embed, d);
    } else {
      LastRunByNumber(w.store, p, d.kind, d.id, w.store.counter);
      if DueHere(w, p, embed, done, d.kind, d.id) {
        var e :| e in done && e.kind == d.kind && e.id == d.id && Due(w, p, embed, e);
        SameKeySame(done, e, d);
      }
      LastEntryAfter(w, w', p, embed, done, d.kind, d.id);
    }
  }

  lemma {:induction false} HistorySettles(steps: seq<BuildStep>, p: Provider, embed: Embedder)
    requires GoodHistory(steps)
    ensures Settled(History(steps, p, embed), p, embed)
    ensures forall now :: (steps == [] || steps[|steps| - 1].now < now) ==> Before(History(steps, p, embed), now)
  {
    hide Build, AllJustified, WellNamed;
    if steps == [] {
      EmptySettled(p, embed);
    } else {
      var n := |steps| - 1;
      HistorySettles(steps[..n], p, embed);
      var w := History(steps[..n], p, embed);
      BuildSettles(w, p, embed, steps[n].scope, steps[n].catalog, steps[n].now);
    }
  }

  lemma EmptySettled(p: Provider, embed: Embedder)
    ensures Settled(EMPTY_WORLD, p, embed)
  {
    forall kind: Kind, id: string
      ensures Justified(EMPTY_WORLD, embed, kind, id)
    {
    }
  }

  /**
   No stale vectors.  After every history of source changes and completed builds, with any scopes and one
   provider over one index, the vector of each artifact the last build covered embeds its current canonical
   text, or another text with the same 64-bit hash is at hand.
   */
  lemma NoStaleVectors(steps: seq<BuildStep>, p: Provider, embed: Embedder, d: Source) returns (t: string)
    requires steps != [] && GoodHistory(steps)
    requires d in InScope(steps[|steps| - 1].scope, steps[|steps| - 1].catalog) && embed(d.text) != []
    ensures
      var w := History(steps, p, embed);
      && VectorKey(d.kind, d.id) in w.vectors
      && w.vectors[VectorKey(d.kind, d.id)] == embed(t)
      && (t == d.text || Collision(t, d.text))
  {
    hide Build, Hash, VectorKey, InScope, PlainId;
    var n := |steps| - 1;
    var s := steps[n];
    HistorySettles(steps[..n], p, embed);
    BuildSettles(History(steps[..n], p, embed), p, embed, s.scope, s.catalog, s.now);
    InScopeDistinct(s.scope, s.catalog);
    var w := History(steps, p, embed);
    assert Justified(w, embed, d.kind, d.id);
    t :| Hash(t) == Hash(d.text) && EmbedsTo(embed, t, w.vectors[VectorKey(d.kind, d.id)]);
  }
}
