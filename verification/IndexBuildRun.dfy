/** The index build as run: the stores as objects, the three loops, proved against IndexBuild.Build. */
module IndexBuildRun {
  import opened Domain
  import opened StableHash
  import opened IndexBuild

  method AtomCanonicalText(atom: Atom) returns (text: string)
    ensures text == AtomText(atom)
  {
    text := atom.title + " " + atom.claim;
    ghost var head := text;
    for i := 0 to |atom.tags|
      invariant text == head + Spaced(atom.tags[..i])
    {
      assert atom.tags[..i + 1][..i] == atom.tags[..i];
      text := text + (" " + atom.tags[i]);
    }
    assert atom.tags[..|atom.tags|] == atom.tags;
  }

  method OpportunityCanonicalText(opp: Opportunity) returns (text: string)
    ensures text == OpportunityText(opp)
  {
    text := opp.roleTitle + " " + opp.company;
    ghost var head := text;
    ghost var texts := RequirementTexts(opp.requirements);
    for i := 0 to |opp.requirements|
      invariant text == head + Spaced(texts[..i])
    {
      assert texts[..i + 1][..i] == texts[..i];
      text := text + (" " + opp.requirements[i].text);
    }
    assert texts[..|texts|] == texts;
  }

  /** The index_runs, index_entries and id_counters tables. */
  class IndexRunStore {
    var runs: map<nat, Run>
    var entries: map<(nat, Kind, string), Hash64>
    var counter: nat

    ghost function Abs(): Runs
      reads this
    {
      Runs(runs, entries, counter)
    }

    constructor ()
      ensures Abs() == Runs(map[], map[], 0)
    {
      runs, entries, counter := map[], map[], 0;
    }

    method NextIndexRunId() returns (run: nat)
      modifies this`counter
      ensures run == counter == old(counter) + 1
    {
      counter := counter + 1;
      run := counter;
    }

    method UpsertRun(run: nat, record: Run)
      modifies this`runs
      ensures runs == old(runs)[run := record]
    {
      runs := runs[run := record];
    }

    method UpsertEntry(run: nat, kind: Kind, id: string, hash: Hash64)
      modifies this`entries
      ensures entries == old(entries)[(run, kind, id) := hash]
    {
      entries := entries[(run, kind, id) := hash];
    }

    /** The query: the latest completed run of the provider that recorded the artifact. */
    method GetLastSourceHash(kind: Kind, id: string, p: Provider) returns (hash: Option<Hash64>)
      ensures hash == LastSourceHash(Abs(), kind, id, p)
      ensures IsLastSourceHash(Abs(), kind, id, p, hash)
    {
      var best: Option<nat> := None;
      for n := 1 to counter + 1
        invariant best == LastRun(Abs(), kind, id, p, n - 1)
      {
        if n in runs && runs[n].completedAt != None && runs[n].provider == p && (n, kind, id) in entries {
          if !(best != None && best.value in runs && runs[best.value].completedAt != None &&
               runs[best.value].completedAt.value > runs[n].completedAt.value) {
            best := Some(n);
          }
        }
      }
      LastSourceHashIs(Abs(), kind, id, p);
      if best == None || (best.value, kind, id) !in entries {
        hash := None;
      } else {
        hash := Some(entries[(best.value, kind, id)]);
      }
    }
  }

  class EmbeddingIndex {
    var vectors: map<string, Vector>

    constructor ()
      ensures vectors == map[]
    {
      vectors := map[];
    }

    method Upsert(key: string, v: Vector)
      modifies this
      ensures vectors == old(vectors)[key := v]
    {
      vectors := vectors[key := v];
    }
  }

  class AuditSink {
    var records: seq<Record>

    constructor ()
      ensures records == []
    {
      records := [];
    }

    method Append(r: Record)
      modifies this
      ensures records == old(records) + [r]
    {
      records := records + [r];
    }
  }

  lemma {:induction false} IndexAllConcat(g: Progress, run: nat, p: Provider, embed: Embedder,
                                          a: seq<Source>, b: seq<Source>)
    ensures IndexAll(g, run, p, embed, a + b) == IndexAll(IndexAll(g, run, p, embed, a), run, p, embed, b)
  {
    hide IndexOne;
    if b == [] {
      assert a + b == a;
    } else {
      var n := |b| - 1;
      assert (a + b)[..|a + b| - 1] == a + b[..n];
      IndexAllConcat(g, run, p, embed, a, b[..n]);
    }
  }

  class Pipeline {
    const store: IndexRunStore
    const index: EmbeddingIndex
    const audit: AuditSink
    const provider: Provider
    const embed: Embedder

    var tally: Tally

    ghost function World(): World
      reads store, index, audit
    {
      IndexBuild.World(store.Abs(), index.vectors, audit.records)
    }

    ghost function State(): Progress
      reads this, store, index, audit
    {
      Progress(World(), tally)
    }

    constructor (store: IndexRunStore, index: EmbeddingIndex, audit: AuditSink, provider: Provider, embed: Embedder)
      ensures this.store == store && this.index == index && this.audit == audit
      ensures this.provider == provider && this.embed == embed
    {
      this.store, this.index, this.audit := store, index, audit;
      this.provider, this.embed := provider, embed;
      tally := Tally(0, 0, 0);
    }

    /** The body shared by the three loops. */
    method ProcessArtifact(run: nat, kind: Kind, id: string, text: string)
      modifies this`tally, store`entries, index, audit
      ensures State() == IndexOne(old(State()), run, provider, embed, Source(kind, id, text))
    {
      hide Hash, VectorKey, LastSourceHash, IsLastSourceHash;
      var hash := StableHash64(text);
      var prior := store.GetLastSourceHash(kind, id, provider);
      if prior != None && prior.value == hash {
        tally := tally.(skipped := tally.skipped + 1);
        return;
      }
      var stale := prior != None;
      var v := embed(text);
      if v == [] {
        return;
      }
      index.Upsert(VectorKey(kind, id), v);
      store.UpsertEntry(run, kind, id, hash);
      audit.Append(Indexed(run, kind, id, hash, stale));
      tally := Tally(tally.indexed + 1, tally.skipped, tally.stale + if stale then 1 else 0);
    }

    method ProcessAtoms(run: nat, atoms: seq<Atom>)
      modifies this`tally, store`entries, index, audit
      ensures State() == IndexAll(old(State()), run, provider, embed, Map(AtomSource, atoms))
    {
      hide IndexOne, AtomText;
      ghost var srcs := Map(AtomSource, atoms);
      for i := 0 to |atoms|
        invariant State() == IndexAll(old(State()), run, provider, embed, srcs[..i])
      {
        assert srcs[..i + 1][..i] == srcs[..i];
        var text := AtomCanonicalText(atoms[i]);
        ProcessArtifact(run, AtomKind, atoms[i].atomId, text);
      }
      assert srcs[..|atoms|] == srcs;
    }

    method ProcessResumes(run: nat, resumes: seq<Resume>)
      modifies this`tally, store`entries, index, audit
      ensures State() == IndexAll(old(State()), run, provider, embed, Map(ResumeSource, resumes))
    {
      hide IndexOne;
      ghost var srcs := Map(ResumeSource, resumes);
      for i := 0 to |resumes|
        invariant State() == IndexAll(old(State()), run, provider, embed, srcs[..i])
      {
        assert srcs[..i + 1][..i] == srcs[..i];
        ProcessArtifact(run, ResumeKind, resumes[i].resumeId, resumes[i].markdown);
      }
      assert srcs[..|resumes|] == srcs;
    }

    method ProcessOpportunities(run: nat, opps: seq<Opportunity>)
      modifies this`tally, store`entries, index, audit
      ensures State() == IndexAll(old(State()), run, provider, embed, Map(OpportunitySource, opps))
    {
      hide IndexOne, OpportunityText;
      ghost var srcs := Map(OpportunitySource, opps);
      for i := 0 to |opps|
        invariant State() == IndexAll(old(State()), run, provider, embed, srcs[..i])
      {
        assert srcs[..i + 1][..i] == srcs[..i];
        var text := OpportunityCanonicalText(opps[i]);
        ProcessArtifact(run, OpportunityKind, opps[i].opportunityId, text);
      }
      assert srcs[..|opps|] == srcs;
    }

    /** run_index_build; `now` is the clock's reading when the run completes. */
    method RunIndexBuild(scope: string, c: Catalog, now: nat) returns (result: BuildResult)
      modifies this`tally, store, index, audit
      ensures (World(), result) == Build(old(World()), provider, embed, scope, c, now)
    {
      hide IndexAll;
      ghost var before := World();
      var run := store.NextIndexRunId();
      store.UpsertRun(run, Run(provider, None));
      audit.Append(Started(run));
      tally := Tally(0, 0, 0);
      assert State() == Begin(before, provider);
      ghost var g0 := State();
      ghost var a: seq<Source> := if scope == "atoms" || scope == "all" then Map(AtomSource, c.atoms) else [];
      ghost var r: seq<Source> := if scope == "resumes" || scope == "all" then Map(ResumeSource, c.resumes) else [];
      ghost var o: seq<Source> :=
        if scope == "opportunities" || scope == "all" then Map(OpportunitySource, c.opportunities) else [];
      NothingToIndex(g0, run, provider, embed);
      if scope == "atoms" || scope == "all" {
        ProcessAtoms(run, c.atoms);
      }
      ghost var g1 := State();
      NothingToIndex(g1, run, provider, embed);
      if scope == "resumes" || scope == "all" {
        ProcessResumes(run, c.resumes);
      }
      ghost var g2 := State();
      NothingToIndex(g2, run, provider, embed);
      if scope == "opportunities" || scope == "all" {
        ProcessOpportunities(run, c.opportunities);
      }
      IndexAllConcat(g0, run, provider, embed, a, r);
      IndexAllConcat(g0, run, provider, embed, a + r, o);
      assert State() == IndexAll(g0, run, provider, embed, InScope(scope, c));
      IndexAllKeepsRuns(g0, run, provider, embed, InScope(scope, c));
      store.UpsertRun(run, Run(provider, Some(now)));
      audit.Append(Finished(run, tally));
      result := BuildResult(tally, run);
    }
  }

  lemma NothingToIndex(g: Progress, run: nat, p: Provider, embed: Embedder)
    ensures IndexAll(g, run, p, embed, []) == g
  {
  }
}
