/**
 The audit log over SQLite (src/storage/sqlite/sqlite_audit_log.cpp): a table with a unique event_id and a
 per-trace index cache that survives failed inserts and is lost on restart.
 */
module SqliteAuditLog {
  import opened Octets
  import opened AuditChain
  import opened Fips180
  import Log = AuditLog

  // ---------- the table ----------

  datatype Row = Row(event: AuditEvent, idx: nat)

  /** Text columns are bound as C strings: everything from the first NUL on is dropped. */
  function CStr(s: Bytes): Bytes {
    if s == [] || s[0] == 0 then [] else [s[0]] + CStr(s[1..])
  }

  predicate NulFree(s: Bytes) { forall i :: 0 <= i < |s| ==> s[i] != 0 }

  predicate NulFreeEvent(e: AuditEvent) {
    NulFree(e.eventId) && NulFree(e.traceId) && NulFree(e.eventType) && NulFree(e.payload) && NulFree(e.createdAt)
  }

  /** The columns of an event as stored.  The refs column holds JSON text, in which a NUL is escaped. */
  function Stored(e: AuditEvent): AuditEvent {
    e.(eventId := CStr(e.eventId), traceId := CStr(e.traceId), eventType := CStr(e.eventType),
       payload := CStr(e.payload), createdAt := CStr(e.createdAt))
  }

  function Select(rows: seq<Row>, t: Bytes): (r: seq<Row>)
    ensures forall x :: x in r <==> x in rows && x.event.traceId == t
  {
    if rows == [] then [] else
      var n := |rows| - 1;
      assert rows == rows[..n] + [rows[n]];
      Select(rows[..n], t) + if rows[n].event.traceId == t then [rows[n]] else []
  }

  /** A row with the greatest index (the latest such row, were there ties). */
  function MaxRow(rows: seq<Row>): (r: Row)
    requires rows != []
    ensures r in rows && forall x :: x in rows ==> x.idx <= r.idx
  {
    var last := rows[|rows| - 1];
    assert rows == rows[..|rows| - 1] + [last];
    if |rows| == 1 then last else
      var m := MaxRow(rows[..|rows| - 1]);
      if m.idx <= last.idx then last else m
  }

  /** ORDER BY idx, as a stable insertion. */
  function InsertByIdx(sorted: seq<Row>, r: Row): (s: seq<Row>)
    ensures multiset(s) == multiset(sorted) + multiset{r}
  {
    if sorted == [] || sorted[|sorted| - 1].idx <= r.idx then sorted + [r] else
      var n := |sorted| - 1;
      assert sorted == sorted[..n] + [sorted[n]];
      InsertByIdx(sorted[..n], r) + [sorted[n]]
  }

  function OrderByIdx(rows: seq<Row>): (s: seq<Row>)
    ensures multiset(s) == multiset(rows)
  {
    if rows == [] then [] else
      var n := |rows| - 1;
      assert rows == rows[..n] + [rows[n]];
      InsertByIdx(OrderByIdx(rows[..n]), rows[n])
  }

  function Events(rows: seq<Row>): (s: seq<AuditEvent>)
    ensures |s| == |rows| && forall i :: 0 <= i < |rows| ==> s[i] == rows[i].event
  {
    seq(|rows|, i requires 0 <= i < |rows| => rows[i].event)
  }

  function Query(rows: seq<Row>, t: Bytes): seq<AuditEvent> {
    Events(OrderByIdx(Select(rows, CStr(t))))
  }

  // ---------- appending, on values ----------

  datatype Store = Store(rows: seq<Row>, cache: map<Bytes, nat>)

  datatype AppendState = AppendState(idx: nat, previousHash: Bytes)

  function NextState(s: Store, t: Bytes): AppendState {
    var own := Select(s.rows, CStr(t));
    var idx := if t in s.cache then s.cache[t] else if own == [] then 0 else MaxRow(own).idx + 1;
    AppendState(idx, if idx > 0 && own != [] then MaxRow(own).event.eventHash else GenesisHash())
  }

  predicate HasEventId(rows: seq<Row>, id: Bytes) { exists r :: r in rows && r.event.eventId == id }

  /** The row an append tries to insert: hashed in full, stored as C strings. */
  function NewRow(e: AuditEvent, a: AppendState): Row {
    Row(Stored(Log.Seal(e, a.previousHash)), a.idx)
  }

  /** The insert is refused for a repeated event_id, or by the storage for its own reasons. */
  predicate Accepts(s: Store, e: AuditEvent, fault: bool) {
    !fault && !HasEventId(s.rows, CStr(e.eventId))
  }

  function AppendTo(s: Store, e: AuditEvent, fault: bool): Store {
    var a := NextState(s, e.traceId);
    Store(if Accepts(s, e, fault) then s.rows + [NewRow(e, a)] else s.rows,
          s.cache[e.traceId := a.idx + 1])
  }

  datatype Step = Append(event: AuditEvent, fault: bool) | Restart

  function Apply(s: Store, step: Step): Store {
    match step
    case Append(e, fault) => AppendTo(s, e, fault)
    case Restart => s.(cache := map[])
  }

  function Run(steps: seq<Step>): Store {
    if steps == [] then Store([], map[]) else Apply(Run(steps[..|steps| - 1]), steps[|steps| - 1])
  }

  /** The events whose insert went through, in order. */
  function Accepted(steps: seq<Step>): seq<AuditEvent> {
    if steps == [] then [] else
      var before, step := steps[..|steps| - 1], steps[|steps| - 1];
      Accepted(before) +
      if step.Append? && Accepts(Run(before), step.event, step.fault) then [step.event] else []
  }

  // ---------- lemmas about the table ----------

  ghost predicate StrictlyIncreasing(rows: seq<Row>) {
    forall i, j :: 0 <= i < j < |rows| ==> rows[i].idx < rows[j].idx
  }

  lemma {:induction false} CStrNulFree(s: Bytes)
    ensures NulFree(CStr(s))
    ensures NulFree(s) <==> CStr(s) == s
  {
    if s != [] && s[0] != 0 {
      CStrNulFree(s[1..]);
      assert s == [s[0]] + s[1..];
      if NulFree(s) {
        assert NulFree(s[1..]);
      }
    }
  }

  /** What is kept of a text is all of it before its first NUL. */
  lemma {:induction false} CStrIs(s: Bytes)
    ensures CStr(s) <= s
    ensures CStr(s) != s ==> s[|CStr(s)|] == 0
    ensures forall i :: 0 <= i < |CStr(s)| ==> s[i] != 0
  {
    if s != [] && s[0] != 0 {
      CStrIs(s[1..]);
      assert s == [s[0]] + s[1..];
    }
  }

  lemma StoredNulFree(e: AuditEvent)
    ensures NulFreeEvent(e) <==> Stored(e) == e
    ensures NulFreeEvent(Stored(e))
  {
    CStrNulFree(e.eventId);
    CStrNulFree(e.traceId);
    CStrNulFree(e.eventType);
    CStrNulFree(e.payload);
    CStrNulFree(e.createdAt);
  }

  lemma SelectSnoc(rows: seq<Row>, r: Row, t: Bytes)
    ensures Select(rows + [r], t) == Select(rows, t) + if r.event.traceId == t then [r] else []
  {
    assert (rows + [r])[..|rows|] == rows;
  }

  lemma {:induction false} OrderedAlready(rows: seq<Row>)
    requires StrictlyIncreasing(rows)
    ensures OrderByIdx(rows) == rows
  {
    hide InsertByIdx, OrderByIdx;
    if rows == [] {
      OrderEmpty();
    } else {
      var front, last := rows[..|rows| - 1], rows[|rows| - 1];
      RisingFront(rows);
      hide StrictlyIncreasing;
      OrderedAlready(front);
      OrderSnoc(front, last);
      InsertLast(front, last);
    }
  }

  lemma RisingFront(rows: seq<Row>)
    requires rows != [] && StrictlyIncreasing(rows)
    ensures
      var front, last := rows[..|rows| - 1], rows[|rows| - 1];
      rows == front + [last] && StrictlyIncreasing(front) && (front != [] ==> front[|front| - 1].idx < last.idx)
  {
  }

  lemma OrderEmpty()
    ensures OrderByIdx([]) == []
  {
  }

  lemma OrderSnoc(rows: seq<Row>, r: Row)
    ensures OrderByIdx(rows + [r]) == InsertByIdx(OrderByIdx(rows), r)
  {
    assert (rows + [r])[..|rows|] == rows;
  }

  lemma InsertLast(rows: seq<Row>, r: Row)
    requires rows != [] ==> rows[|rows| - 1].idx < r.idx
    ensures InsertByIdx(rows, r) == rows + [r]
  {
  }

  lemma EventsSnoc(rows: seq<Row>, r: Row)
    ensures Events(rows + [r]) == Events(rows) + [r.event]
  {
  }

  lemma {:induction false} SelectIsOfTrace(rows: seq<Row>, t: Bytes)
    ensures Events(Select(rows, t)) == Log.OfTrace(Events(rows), t)
  {
    if rows != [] {
      var n := |rows| - 1;
      assert rows == rows[..n] + [rows[n]];
      EventsSnoc(rows[..n], rows[n]);
      EventsSnoc(Select(rows[..n], t), rows[n]);
      hide Events;
      SelectIsOfTrace(rows[..n], t);
      Log.OfTraceSnoc(Events(rows[..n]), rows[n].event, t);
      hide Log.OfTrace;
      assert rows[n].event.traceId != t ==> Select(rows, t) == Select(rows[..n], t);
    }
  }

  lemma LastOfIncreasing(rows: seq<Row>)
    requires StrictlyIncreasing(rows) && rows != []
    ensures MaxRow(rows) == rows[|rows| - 1]
  {
  }

  // ---------- the invariant ----------

  /** Indices rise along each trace, and a cached index is beyond every stored one. */
  ghost predicate Inv(s: Store) {
    && (forall t :: StrictlyIncreasing(Select(s.rows, t)))
    && (forall t, r :: t in s.cache && r in Select(s.rows, t) ==> r.idx < s.cache[t])
  }

  lemma NextStateLinks(s: Store, t: Bytes)
    requires Inv(s) && NulFree(t)
    ensures NextState(s, t).previousHash == Log.LastHash(Events(s.rows), t)
    ensures forall r :: r in Select(s.rows, t) ==> r.idx < NextState(s, t).idx
  {
    CStrNulFree(t);
    var own := Select(s.rows, t);
    SelectIsOfTrace(s.rows, t);
    if own != [] {
      LastOfIncreasing(own);
      assert own[0] in own;
    }
  }

  lemma InsertKeepsInv(s: Store, r: Row, cache: map<Bytes, nat>)
    requires Inv(s)
    requires forall x :: x in Select(s.rows, r.event.traceId) ==> x.idx < r.idx
    requires cache == s.cache[r.event.traceId := r.idx + 1]
    ensures Inv(Store(s.rows + [r], cache))
  {
    var rows := s.rows + [r];
    forall t
      ensures StrictlyIncreasing(Select(rows, t))
      ensures forall x :: t in cache && x in Select(rows, t) ==> x.idx < cache[t]
    {
      SelectSnoc(s.rows, r, t);
      var own := Select(s.rows, t);
      assert StrictlyIncreasing(own);
      assert r.event.traceId != t ==> own + [] == own;
      forall i | 0 <= i < |own|
        ensures own[i] in own
      {
      }
    }
  }

  /** One append of a NUL-free event keeps the invariant and is the in-memory append when accepted. */
  lemma AppendRefines(s: Store, e: AuditEvent, fault: bool)
    requires Inv(s) && NulFreeEvent(e)
    ensures Inv(AppendTo(s, e, fault))
    ensures Events(AppendTo(s, e, fault).rows) ==
            if Accepts(s, e, fault) then Log.Appended(Events(s.rows), e) else Events(s.rows)
  {
    hide EventHash, Select, HasEventId, CStr, NulFree, NextState, Log.OfTrace, Log.LastHash, StrictlyIncreasing;
    var a := NextState(s, e.traceId);
    NextStateLinks(s, e.traceId);
    StoredNulFree(Log.Seal(e, a.previousHash));
    var r := NewRow(e, a);
    if Accepts(s, e, fault) {
      InsertKeepsInv(s, r, s.cache[e.traceId := a.idx + 1]);
      assert Events(s.rows + [r]) == Events(s.rows) + [r.event];
    } else {
      assert forall x :: x in Select(s.rows, e.traceId) ==> x.idx < a.idx + 1;
    }
  }

  lemma EmptyInv()
    ensures Inv(Store([], map[]))
  {
  }

  lemma RestartKeepsInv(s: Store)
    requires Inv(s)
    ensures Inv(s.(cache := map[]))
  {
  }

  lemma {:induction false} RunRefines(steps: seq<Step>)
    requires forall i :: 0 <= i < |steps| && steps[i].Append? ==> NulFreeEvent(steps[i].event)
    ensures Inv(Run(steps))
    ensures Events(Run(steps).rows) == Log.LogOf(Accepted(steps))
  {
    hide EventHash, AppendTo, Accepts, Inv, NulFree, Log.LastHash, Log.Seal;
    if steps == [] {
      EmptyInv();
    } else {
      var before, step := steps[..|steps| - 1], steps[|steps| - 1];
      RunRefines(before);
      RestartKeepsInv(Run(before));
      if step.Append? {
        AppendRefines(Run(before), step.event, step.fault);
        Log.LogOfSnoc(Accepted(before), step.event);
      }
      assert Accepted(before) + [] == Accepted(before);
    }
  }

  lemma QueryOfInv(s: Store, t: Bytes)
    requires Inv(s)
    ensures Query(s.rows, t) == Log.OfTrace(Events(s.rows), CStr(t))
  {
    OrderedAlready(Select(s.rows, CStr(t)));
    SelectIsOfTrace(s.rows, CStr(t));
  }

  /**
   The main result.  For every sequence of appends over any traces, some refused after the cache moved on,
   with restarts anywhere: along each trace the stored indices strictly increase, a query returns what the
   in-memory log fed only the accepted events returns, and the returned chain verifies to its end.
   */
  lemma SqliteRefinesInMemory(steps: seq<Step>, t: Bytes, v: Verification)
    requires forall i :: 0 <= i < |steps| && steps[i].Append? ==> NulFreeEvent(steps[i].event)
    requires NulFree(t) && t != []
    requires IsVerdict(Query(Run(steps).rows, t), v)
    ensures StrictlyIncreasing(Select(Run(steps).rows, t))
    ensures Query(Run(steps).rows, t) == Log.Query(Log.LogOf(Accepted(steps)), t)
    ensures v.valid && v.firstInvalidIndex == |Query(Run(steps).rows, t)|
  {
    hide EventHash;
    RunRefines(steps);
    QueryOfInv(Run(steps), t);
    CStrNulFree(t);
    Log.LogVerifies(Accepted(steps), t);
  }

  // ---------- the indices handed out ----------

  /** An append takes one index of its own trace, accepted or not, and none of another trace. */
  lemma AppendTakesOneIndex(s: Store, e: AuditEvent, fault: bool, t: Bytes)
    requires NulFreeEvent(e) && NulFree(t)
    ensures NextState(AppendTo(s, e, fault), t).idx ==
            if t == e.traceId then NextState(s, t).idx + 1 else NextState(s, t).idx
  {
    hide EventHash, HasEventId, CStr, NulFree, Select, Log.LastHash;
    CStrNulFree(t);
    StoredNulFree(e);
    var r := NewRow(e, NextState(s, e.traceId));
    SelectSnoc(s.rows, r, t);
    CStrNulFree(e.traceId);
    assert Select(s.rows, t) + [] == Select(s.rows, t);
  }

  /** After a restart a trace goes on from its greatest stored index, so that refused ones are handed out again. */
  lemma RestartTakesGreatest(s: Store, t: Bytes)
    requires Inv(s) && NulFree(t)
    ensures
      var own := Select(s.rows, t);
      NextState(Apply(s, Restart), t).idx == if own == [] then 0 else own[|own| - 1].idx + 1
  {
    CStrNulFree(t);
    if Select(s.rows, t) != [] {
      LastOfIncreasing(Select(s.rows, t));
    }
  }

  /** No append of the run was refused. */
  predicate NoneRefused(steps: seq<Step>) {
    forall i :: 0 <= i < |steps| && steps[i].Append? ==>
      Accepts(Run(steps[..i]), steps[i].event, steps[i].fault)
  }

  ghost predicate CountsUp(rows: seq<Row>) { forall k :: 0 <= k < |rows| ==> rows[k].idx == k }

  lemma BeforeUnrefused(steps: seq<Step>)
    requires steps != [] && NoneRefused(steps)
    ensures NoneRefused(steps[..|steps| - 1])
    ensures
      var before, step := steps[..|steps| - 1], steps[|steps| - 1];
      step.Append? ==> Accepts(Run(before), step.event, step.fault)
  {
    hide Accepts, Run;
    var before := steps[..|steps| - 1];
    forall i | 0 <= i < |before| && before[i].Append?
      ensures Accepts(Run(before[..i]), before[i].event, before[i].fault)
    {
      assert before[..i] == steps[..i] && before[i] == steps[i];
    }
  }

  lemma OneRowMore(s: Store, e: AuditEvent, fault: bool, t: Bytes)
    requires NulFreeEvent(e) && NulFree(t) && Accepts(s, e, fault)
    ensures
      var own, own' := Select(s.rows, t), Select(AppendTo(s, e, fault).rows, t);
      if t != e.traceId then own' == own
      else |own'| == |own| + 1 && own' == own + [own'[|own|]] && own'[|own|].idx == NextState(s, t).idx
  {
    hide EventHash, HasEventId, CStr, NulFree, Select, NextState;
    StoredNulFree(e);
    CStrNulFree(e.traceId);
    SelectSnoc(s.rows, NewRow(e, NextState(s, e.traceId)), t);
    assert Select(s.rows, t) + [] == Select(s.rows, t);
  }

  ghost predicate Counted(s: Store, t: Bytes) {
    CountsUp(Select(s.rows, t)) && NextState(s, t).idx == |Select(s.rows, t)|
  }

  lemma AppendStaysCounted(s: Store, e: AuditEvent, fault: bool, t: Bytes)
    requires Counted(s, t) && NulFreeEvent(e) && NulFree(t) && Accepts(s, e, fault)
    ensures Counted(AppendTo(s, e, fault), t)
  {
    hide EventHash, Accepts, CStr, NulFree, Select, NextState, AppendTo;
    AppendTakesOneIndex(s, e, fault, t);
    OneRowMore(s, e, fault, t);
  }

  lemma RestartStaysCounted(s: Store, t: Bytes)
    requires Inv(s) && Counted(s, t) && NulFree(t)
    ensures Counted(Apply(s, Restart), t)
  {
    hide EventHash, CStr, NulFree, Select, NextState;
    RestartTakesGreatest(s, t);
  }

  /** While no append is refused, the rows of a trace are numbered from 0 without a gap, restarts or not. */
  lemma {:induction false} UnrefusedRunsCount(steps: seq<Step>, t: Bytes)
    requires forall i :: 0 <= i < |steps| && steps[i].Append? ==> NulFreeEvent(steps[i].event)
    requires NoneRefused(steps) && NulFree(t)
    ensures CountsUp(Select(Run(steps).rows, t))
    ensures NextState(Run(steps), t).idx == |Select(Run(steps).rows, t)|
  {
    hide NulFreeEvent, NulFree, NoneRefused, AppendTo, Accepts, Inv;
    if steps != [] {
      var before, step := steps[..|steps| - 1], steps[|steps| - 1];
      BeforeUnrefused(steps);
      UnrefusedRunsCount(before, t);
      RunRefines(before);
      hide NextState, Select;
      match step
      case Append(e, fault) => AppendStaysCounted(Run(before), e, fault, t);
      case Restart => RestartStaysCounted(Run(before), t);
    }
  }

  /** The empty trace id is the one query on which the two logs differ: here it is a trace like any other. */
  lemma EmptyTraceQuery(steps: seq<Step>)
    requires forall i :: 0 <= i < |steps| && steps[i].Append? ==> NulFreeEvent(steps[i].event)
    ensures Query(Run(steps).rows, []) == Log.Query(Log.LogOf(Accepted(steps)), []) <==>
            forall e :: e in Log.LogOf(Accepted(steps)) ==> e.traceId == []
  {
    hide EventHash;
    RunRefines(steps);
    QueryOfInv(Run(steps), []);
    AllOfTrace(Log.LogOf(Accepted(steps)), []);
  }

  lemma {:induction false} AllOfTrace(events: seq<AuditEvent>, t: Bytes)
    ensures |Log.OfTrace(events, t)| <= |events|
    ensures Log.OfTrace(events, t) == events <==> forall e :: e in events ==> e.traceId == t
  {
    if events != [] {
      var front, last := events[..|events| - 1], events[|events| - 1];
      AllOfTrace(front, t);
      assert events == front + [last];
      Log.OfTraceSnoc(front, last, t);
      hide Log.OfTrace;
      if last.traceId != t {
        assert last in events;
        assert |Log.OfTrace(events, t)| < |events|;
      }
    }
  }

  // ---------- what breaks the chain ----------

  /** Two texts with one digest, made by hashing e and then storing something else. */
  predicate StorageCollision(e: AuditEvent, p: Bytes) {
    Collision(HashInput(e, p), HashInput(Stored(e), p))
  }

  /**
   An accepted append leaves its trace verifiable exactly when no text field holds a NUL byte: a field cut
   short on its way into the table no longer matches the hash of the whole.  Or a collision is at hand.
   */
  lemma ChainSurvivesIffNulFree(s: Store, e: AuditEvent)
    requires Inv(s) && ValidChain(Query(s.rows, e.traceId)) && Accepts(s, e, false)
    ensures
      || (ValidChain(Query(AppendTo(s, e, false).rows, e.traceId)) <==> NulFreeEvent(e))
      || StorageCollision(e, NextState(s, e.traceId).previousHash)
  {
    hide EventHash, HashInput, Digest, Select, HasEventId, CStr, NulFree, NextState, OrderByIdx, Inv;
    var p := NextState(s, e.traceId).previousHash;
    if NulFreeEvent(e) {
      AppendKeepsChain(s, e);
    } else if ValidChain(Query(AppendTo(s, e, false).rows, e.traceId)) {
      var i := StoredRowInChain(s, e);
      assert LinkHolds(Query(AppendTo(s, e, false).rows, e.traceId), i);
      EventHashIsDigest(Stored(Log.Seal(e, p)), p);
      EventHashIsDigest(e, p);
      StoredHashed(e, p);
      StoredNulFree(e);
      if HashInput(e, p) == HashInput(Stored(e), p) {
        HashInputInjective(e, Stored(e), p, p);
      }
    }
  }

  /** The inserted row is among those a query of its trace returns. */
  lemma StoredRowInChain(s: Store, e: AuditEvent) returns (i: nat)
    requires Accepts(s, e, false)
    ensures i < |Query(AppendTo(s, e, false).rows, e.traceId)|
    ensures Query(AppendTo(s, e, false).rows, e.traceId)[i] == NewRow(e, NextState(s, e.traceId)).event
  {
    hide EventHash, HasEventId, CStr, NextState;
    var r := NewRow(e, NextState(s, e.traceId));
    var own := Select(AppendTo(s, e, false).rows, CStr(e.traceId));
    assert r in own;
    assert r in multiset(OrderByIdx(own));
    i :| 0 <= i < |OrderByIdx(own)| && OrderByIdx(own)[i] == r;
  }

  lemma AppendKeepsChain(s: Store, e: AuditEvent)
    requires Inv(s) && NulFreeEvent(e) && Accepts(s, e, false) && ValidChain(Query(s.rows, e.traceId))
    ensures ValidChain(Query(AppendTo(s, e, false).rows, e.traceId))
  {
    hide EventHash, Inv, AppendTo, Query, Log.OfTrace, Log.LastHash, Accepts;
    AppendRefines(s, e, false);
    QueryOfInv(s, e.traceId);
    QueryOfInv(AppendTo(s, e, false), e.traceId);
    CStrNulFree(e.traceId);
    Log.AppendKeepsChains(Events(s.rows), e, e.traceId);
  }

  lemma EventHashIsDigest(e: AuditEvent, p: Bytes)
    ensures EventHash(e, p) == Digest(HashInput(e, p))
  {
  }

  lemma StoredHashed(e: AuditEvent, p: Bytes)
    ensures HashInput(Stored(Log.Seal(e, p)), p) == HashInput(Stored(e), p)
  {
    hide Member, JsonElements;
  }

  // ---------- appends that overlap ----------

  /** A text that hashes to the genesis value, or two texts with one digest: the event's and one of the chain's. */
  ghost predicate HashRepeats(x: AuditEvent, chain: seq<AuditEvent>) {
    || HashesToGenesis(HashInput(x, x.previousHash))
    || exists y :: y in chain && Collision(HashInput(x, x.previousHash), HashInput(y, y.previousHash))
  }

  predicate Sealed(x: AuditEvent) { x.eventHash == EventHash(x, x.previousHash) }

  /** A new event whose hash is that of the chain's tip repeats a hash. */
  lemma TipRepeated(chain: seq<AuditEvent>, x: AuditEvent)
    requires ValidChain(chain) && Sealed(x) && x !in chain && ExpectedPrevious(chain, |chain|) == x.eventHash
    ensures HashRepeats(x, chain)
  {
    hide EventHash, HashInput, Digest;
    EventHashIsDigest(x, x.previousHash);
    if chain != [] {
      var y := chain[|chain| - 1];
      assert y in chain && LinkHolds(chain, |chain| - 1);
      SealedEventPinned(x, y);
    }
  }

  /** An event slipped in before the end takes its successor's place after the predecessor. */
  lemma SlippedIn(front: seq<AuditEvent>, x: AuditEvent, back: seq<AuditEvent>)
    requires ValidChain(front + back) && back != [] && Sealed(x) && x !in front
    requires ValidChain(front + [x] + back)
    ensures HashRepeats(x, front)
  {
    hide EventHash;
    var n := |front|;
    var whole, longer := front + back, front + [x] + back;
    assert LinkHolds(whole, n) && whole[n] == back[0] && ExpectedPrevious(whole, n) == ExpectedPrevious(front, n);
    assert LinkHolds(longer, n + 1) && longer[n + 1] == back[0] && longer[n] == x;
    PrefixValid(whole, n);
    assert whole[..n] == front;
    TipRepeated(front, x);
  }

  ghost predicate Around(own: seq<Row>, idx: nat, k: nat) {
    (forall i :: 0 <= i < k && i < |own| ==> own[i].idx < idx) && (forall i :: k <= i < |own| ==> own[i].idx > idx)
  }

  /** Every unused index has its place in a rising list. */
  lemma {:induction false} PlaceOf(own: seq<Row>, idx: nat) returns (k: nat)
    requires StrictlyIncreasing(own) && forall i :: 0 <= i < |own| ==> own[i].idx != idx
    ensures k <= |own| && Around(own, idx, k)
  {
    k := |own|;
    if own != [] && own[|own| - 1].idx > idx {
      k := PlaceOf(own[..|own| - 1], idx);
    }
  }

  /** The new row comes after the lower indices, before the higher ones. */
  lemma {:induction false} InsertedAt(own: seq<Row>, r: Row, k: nat)
    requires k <= |own| && Around(own, r.idx, k)
    ensures InsertByIdx(own, r) == own[..k] + [r] + own[k..]
  {
    var n := |own| - 1;
    if k < |own| {
      InsertedAt(own[..n], r, k);
      assert InsertByIdx(own, r) == InsertByIdx(own[..n], r) + [own[n]];
      hide InsertByIdx;
      LastMovesIn(own, r, k);
    } else {
      assert own[..k] == own && own[k..] == [];
      assert InsertByIdx(own, r) == own + [r];
      hide InsertByIdx;
    }
  }

  lemma LastMovesIn(own: seq<Row>, r: Row, k: nat)
    requires k < |own|
    ensures var n := |own| - 1; own[..n][..k] + [r] + own[..n][k..] + [own[n]] == own[..k] + [r] + own[k..]
  {
    var n := |own| - 1;
    assert own[..n][..k] == own[..k];
    assert own[..n][k..] + [own[n]] == own[k..];
  }

  lemma EventsInserted(own: seq<Row>, r: Row, k: nat)
    requires k <= |own|
    ensures Events(own[..k] + [r] + own[k..]) == Events(own)[..k] + [r.event] + Events(own)[k..]
  {
  }

  /** What a query returns after inserting a row with an unused index. */
  lemma QueryAfterInsert(s: Store, r: Row, t: Bytes) returns (k: nat)
    requires Inv(s) && CStr(t) == t && r.event.traceId == t
    requires forall x :: x in Select(s.rows, t) ==> x.idx != r.idx
    ensures k <= |Query(s.rows, t)| == |Select(s.rows, t)| && Around(Select(s.rows, t), r.idx, k)
    ensures Query(s.rows + [r], t) == Query(s.rows, t)[..k] + [r.event] + Query(s.rows, t)[k..]
  {
    hide InsertByIdx, Select, Around, OrderByIdx;
    var own := Select(s.rows, t);
    assert StrictlyIncreasing(own);
    OrderedAlready(own);
    SelectSnoc(s.rows, r, t);
    hide StrictlyIncreasing, Inv;
    k := PlaceOf(own, r.idx);
    InsertedAt(own, r, k);
    OrderSnoc(own, r);
    EventsInserted(own, r, k);
  }

  lemma QueryAfterLast(s: Store, r: Row, t: Bytes)
    requires Inv(s) && CStr(t) == t && r.event.traceId == t
    requires forall x :: x in Select(s.rows, t) ==> x.idx < r.idx
    ensures Query(s.rows + [r], t) == Query(s.rows, t) + [r.event]
  {
    hide Query, Select, CStr, Inv;
    var k := QueryAfterInsert(s, r, t);
    var own := Select(s.rows, t);
    if k < |own| {
      HigherAfter(own, r.idx, k);
    }
  }

  lemma HigherAfter(own: seq<Row>, idx: nat, k: nat)
    requires Around(own, idx, k) && k < |own|
    ensures exists x :: x in own && x.idx > idx
  {
    assert own[k] in own;
  }

  lemma NewRowEvent(e: AuditEvent, a: AppendState)
    requires NulFreeEvent(e)
    ensures NewRow(e, a).event == Log.Seal(e, a.previousHash) && Sealed(Log.Seal(e, a.previousHash))
  {
    hide EventHash, NulFree, CStr;
    StoredNulFree(Log.Seal(e, a.previousHash));
    Log.SealedHash(e, a.previousHash);
  }

  /** The event of a row about to be inserted is not among the stored ones when its event_id is new. */
  lemma NewEvent(s: Store, e: AuditEvent, a: AppendState)
    requires !HasEventId(s.rows, e.eventId)
    ensures Log.Seal(e, a.previousHash) !in Query(s.rows, e.traceId)
  {
    hide EventHash, Query, HasEventId;
    QueriedIsStored(s.rows, e.traceId);
  }

  lemma QueriedIsStored(rows: seq<Row>, t: Bytes)
    ensures forall x :: x in Query(rows, t) ==> HasEventId(rows, x.eventId)
  {
    hide CStr;
    var own := OrderByIdx(Select(rows, CStr(t)));
    forall x | x in Query(rows, t)
      ensures HasEventId(rows, x.eventId)
    {
      var i :| 0 <= i < |own| && own[i].event == x;
      assert own[i] in multiset(own);
    }
  }

  /**
   The lock is released between reading the append state and inserting.  A row prepared earlier for trace t and
   inserted at the end extends the verified chain exactly when the hash it was given is still the last one.
   */
  lemma LateInsertAtEndIff(s: Store, e: AuditEvent, a: AppendState)
    requires Inv(s) && NulFreeEvent(e)
    requires ValidChain(Query(s.rows, e.traceId))
    requires forall r :: r in Select(s.rows, e.traceId) ==> r.idx < a.idx
    ensures ValidChain(Query(s.rows + [NewRow(e, a)], e.traceId)) <==>
            a.previousHash == Log.LastHash(Events(s.rows), e.traceId)
  {
    hide EventHash, Select, CStr, NulFree, Inv, Query, Log.OfTrace;
    var sealed := Log.Seal(e, a.previousHash);
    StoredNulFree(sealed);
    CStrNulFree(e.traceId);
    var s' := Store(s.rows + [NewRow(e, a)], s.cache[e.traceId := a.idx + 1]);
    InsertKeepsInv(s, NewRow(e, a), s'.cache);
    QueryOfInv(s, e.traceId);
    QueryOfInv(s', e.traceId);
    assert Events(s'.rows) == Events(s.rows) + [sealed];
    Log.OfTraceSnoc(Events(s.rows), sealed, e.traceId);
    Log.SealedHash(e, a.previousHash);
    ChainExtendsAt(Log.OfTrace(Events(s.rows), e.traceId), sealed);
  }

  lemma ChainExtendsAt(chain: seq<AuditEvent>, e: AuditEvent)
    requires ValidChain(chain) && e.eventHash == EventHash(e, e.previousHash)
    ensures ValidChain(chain + [e]) <==> e.previousHash == ExpectedPrevious(chain, |chain|)
  {
    hide EventHash;
    Log.ChainExtends(chain, e);
  }

  /** Inserted below a stored row, it breaks the chain, or a hash repeats. */
  lemma LateInsertBelowBreaks(s: Store, e: AuditEvent, a: AppendState)
    requires Inv(s) && NulFreeEvent(e) && !HasEventId(s.rows, e.eventId)
    requires ValidChain(Query(s.rows, e.traceId))
    requires forall r :: r in Select(s.rows, e.traceId) ==> r.idx != a.idx
    requires exists r :: r in Select(s.rows, e.traceId) && r.idx > a.idx
    ensures
      || !ValidChain(Query(s.rows + [NewRow(e, a)], e.traceId))
      || HashRepeats(Log.Seal(e, a.previousHash), Query(s.rows, e.traceId))
  {
    hide EventHash, Select, CStr, NulFree, Inv, Query, HasEventId, Stored, HashInput, Digest;
    var x := Log.Seal(e, a.previousHash);
    CStrNulFree(e.traceId);
    NewEvent(s, e, a);
    NewRowEvent(e, a);
    var k := QueryAfterInsert(s, NewRow(e, a), e.traceId);
    var chain := Query(s.rows, e.traceId);
    assert chain[..k] + chain[k..] == chain;
    assert k < |chain|;
    if ValidChain(Query(s.rows + [NewRow(e, a)], e.traceId)) {
      SlippedIn(chain[..k], x, chain[k..]);
    }
  }

  /**
   The exact condition for any insert made after its state was fetched, at any unused index: the chain stays
   valid exactly when the index is beyond every stored one and the hash it was given is still the last one.
   Below a stored row the only other outcome is a repeated hash.
   */
  lemma LateInsertExtendsIff(s: Store, e: AuditEvent, a: AppendState)
    requires Inv(s) && NulFreeEvent(e) && !HasEventId(s.rows, e.eventId)
    requires ValidChain(Query(s.rows, e.traceId))
    requires forall r :: r in Select(s.rows, e.traceId) ==> r.idx != a.idx
    ensures
      var atEnd := forall r :: r in Select(s.rows, e.traceId) ==> r.idx < a.idx;
      || (ValidChain(Query(s.rows + [NewRow(e, a)], e.traceId)) <==>
          atEnd && a.previousHash == Log.LastHash(Events(s.rows), e.traceId))
      || (!atEnd && HashRepeats(Log.Seal(e, a.previousHash), Query(s.rows, e.traceId)))
  {
    hide EventHash, Select, CStr, NulFree, Inv, Query, HasEventId, Log.LastHash, NewRow, HashRepeats;
    if forall r :: r in Select(s.rows, e.traceId) ==> r.idx < a.idx {
      LateInsertAtEndIff(s, e, a);
    } else {
      LateInsertBelowBreaks(s, e, a);
    }
  }

  /**
   Two appends to one trace of any verified store that both fetch their state before either inserts.  Whichever
   inserts first, the chain is then broken, or a hash repeats.
   */
  lemma OverlappingAppendsBreakChain(s: Store, e: AuditEvent, f: AuditEvent)
    requires Inv(s) && ValidChain(Query(s.rows, e.traceId))
    requires NulFreeEvent(e) && NulFreeEvent(f) && e.traceId == f.traceId && !HasEventId(s.rows, e.eventId)
    ensures
      var a := NextState(s, e.traceId);
      var b := NextState(s.(cache := s.cache[e.traceId := a.idx + 1]), f.traceId);
      || HashRepeats(Log.Seal(e, a.previousHash), Query(s.rows, e.traceId))
      || (&& !ValidChain(Query(s.rows + [NewRow(e, a)] + [NewRow(f, b)], e.traceId))
          && !ValidChain(Query(s.rows + [NewRow(f, b)] + [NewRow(e, a)], e.traceId)))
  {
    var t := e.traceId;
    var a := NextState(s, t);
    var b := NextState(s.(cache := s.cache[t := a.idx + 1]), t);
    SecondState(s, t);
    hide EventHash, Select, CStr, NulFree, Inv, Query, HasEventId, Stored, NextState, HashRepeats, Log.LastHash;
    NextStateLinks(s, t);
    NewEvent(s, e, a);
    NewRowEvent(e, a);
    NewRowEvent(f, b);
    InEitherOrder(s, NewRow(e, a), NewRow(f, b), t);
    TipIsLastHash(s, t);
    hide NewRow, Log.Seal, Sealed;
    TwoAfterTip(Query(s.rows, t), NewRow(e, a).event, NewRow(f, b).event);
  }

  /** Two rows with the next two indices come out in index order, whichever was inserted first. */
  lemma InEitherOrder(s: Store, q: Row, r: Row, t: Bytes)
    requires Inv(s) && NulFree(t) && q.event.traceId == t == r.event.traceId && q.idx < r.idx
    requires forall x :: x in Select(s.rows, t) ==> x.idx < q.idx
    ensures Query(s.rows + [q] + [r], t) == Query(s.rows, t) + [q.event] + [r.event]
    ensures Query(s.rows + [r] + [q], t) == Query(s.rows, t) + [q.event] + [r.event]
  {
    hide Query, Select, NulFree, CStr, Inv;
    CStrNulFree(t);
    var own, result := Select(s.rows, t), Query(s.rows, t);
    SelectSnoc(s.rows, q, t);
    SelectSnoc(s.rows, r, t);
    InsertKeepsInv(s, q, s.cache[t := q.idx + 1]);
    InsertKeepsInv(s, r, s.cache[t := r.idx + 1]);
    QueryAfterLast(s, q, t);
    QueryAfterLast(s, r, t);
    QueryAfterLast(Store(s.rows + [q], s.cache[t := q.idx + 1]), r, t);
    var k := QueryAfterInsert(Store(s.rows + [r], s.cache[t := r.idx + 1]), q, t);
    BeforeLast(own, r, q.idx, k);
    var _ := QueryAfterInsert(s, q, t);
    assert (result + [r.event])[..k] == result && (result + [r.event])[k..] == [r.event];
  }

  lemma BeforeLast(own: seq<Row>, r: Row, idx: nat, k: nat)
    requires Around(own + [r], idx, k) && idx < r.idx && forall x :: x in own ==> x.idx < idx
    requires k <= |own + [r]|
    ensures k == |own|
  {
    var longer := own + [r];
    assert longer[|own|] == r;
    assert Around(own, idx, k) by {
      assert forall i :: 0 <= i < |own| ==> longer[i] == own[i];
    }
    if k < |own| {
      HigherAfter(own, idx, k);
    }
  }

  lemma TipIsLastHash(s: Store, t: Bytes)
    requires Inv(s) && NulFree(t)
    ensures ExpectedPrevious(Query(s.rows, t), |Query(s.rows, t)|) == Log.LastHash(Events(s.rows), t)
  {
    CStrNulFree(t);
    QueryOfInv(s, t);
  }

  /** Two new events both linked to the tip cannot follow each other, unless a hash repeats. */
  lemma TwoAfterTip(chain: seq<AuditEvent>, x: AuditEvent, y: AuditEvent)
    requires ValidChain(chain) && Sealed(x) && x !in chain
    requires y.previousHash == ExpectedPrevious(chain, |chain|)
    ensures HashRepeats(x, chain) || !ValidChain(chain + [x] + [y])
  {
    hide EventHash, HashInput, Digest, HashRepeats;
    var longer := chain + [x] + [y];
    if ValidChain(longer) {
      assert LinkHolds(longer, |chain| + 1) && longer[|chain| + 1] == y && longer[|chain|] == x;
      TipRepeated(chain, x);
    }
  }

  /** The second append gets the next index and the same previous hash. */
  lemma SecondState(s: Store, t: Bytes)
    requires Inv(s) && NulFree(t)
    ensures
      var a := NextState(s, t);
      var b := NextState(s.(cache := s.cache[t := a.idx + 1]), t);
      b.idx == a.idx + 1 && b.previousHash == a.previousHash
  {
    var a := NextState(s, t);
    NextStateLinks(s, t);
    CStrNulFree(t);
    var own := Select(s.rows, t);
    assert own != [] ==> MaxRow(own) in own;
  }

  // ---------- the objects ----------

  /** The audit_events table; it outlives any log object. */
  class SqliteDb {
    var auditEvents: seq<Row>

    constructor ()
      ensures auditEvents == []
    {
      auditEvents := [];
    }

    /** INSERT: refused for a repeated primary key or a storage fault. */
    method Insert(row: Row, fault: bool) returns (done: bool)
      modifies this
      ensures done <==> !fault && !HasEventId(old(auditEvents), row.event.eventId)
      ensures auditEvents == if done then old(auditEvents) + [row] else old(auditEvents)
    {
      done := !fault && !HasEventId(auditEvents, row.event.eventId);
      if done {
        auditEvents := auditEvents + [row];
      }
    }
  }

  class SqliteAuditLog {
    const db: SqliteDb
    var traceIndices: map<Bytes, nat>

    ghost function Abs(): Store
      reads this, db
    {
      Store(db.auditEvents, traceIndices)
    }

    /** A new log object over an existing table starts with an empty cache. */
    constructor (db: SqliteDb)
      ensures this.db == db
      ensures Abs() == Apply(Store(db.auditEvents, traceIndices), Restart)
    {
      this.db := db;
      traceIndices := map[];
    }

    method GetAppendState(traceId: Bytes) returns (state: AppendState)
      modifies this`traceIndices
      ensures state == NextState(old(Abs()), traceId)
      ensures traceIndices == old(traceIndices)[traceId := state.idx + 1]
    {
      var idx: nat := 0;
      var own := Select(db.auditEvents, CStr(traceId));
      if traceId in traceIndices {
        idx := traceIndices[traceId];
        traceIndices := traceIndices[traceId := idx + 1];
      } else {
        var maxIdx: int := if own == [] then -1 else MaxRow(own).idx;
        idx := maxIdx + 1;
        traceIndices := traceIndices[traceId := idx + 1];
      }
      var previousHash := GenesisHash();
      if idx > 0 {
        if own != [] {
          previousHash := MaxRow(own).event.eventHash;
        }
      }
      return AppendState(idx, previousHash);
    }

    /** Returns whether the insert went through; the program throws when it did not. */
    method AppendEvent(event: AuditEvent, fault: bool) returns (done: bool)
      requires db as object != this
      modifies this`traceIndices, db
      ensures done <==> Accepts(old(Abs()), event, fault)
      ensures Abs() == AppendTo(old(Abs()), event, fault)
    {
      hide EventHash, NextState, HasEventId;
      var state := GetAppendState(event.traceId);
      var eventHash := ComputeEventHash(event, state.previousHash);
      var sealed := event.(previousHash := state.previousHash, eventHash := eventHash);
      done := db.Insert(Row(Stored(sealed), state.idx), fault);
    }

    method QueryTrace(traceId: Bytes) returns (result: seq<AuditEvent>)
      ensures result == Query(db.auditEvents, traceId)
    {
      var cursor := OrderByIdx(Select(db.auditEvents, CStr(traceId)));
      result := [];
      for i := 0 to |cursor|
        invariant result == Events(cursor)[..i]
      {
        result := result + [cursor[i].event];
      }
    }
  }
}
