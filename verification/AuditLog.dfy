/** The append-only audit log in memory (src/storage/audit_log.cpp): per-trace chaining and queries. */
module AuditLog {
  import opened Octets
  import opened AuditChain

  function OfTrace(events: seq<AuditEvent>, t: Bytes): (r: seq<AuditEvent>)
    ensures forall e :: e in r <==> e in events && e.traceId == t
  {
    if events == [] then [] else
      var n := |events| - 1;
      assert events == events[..n] + [events[n]];
      OfTrace(events[..n], t) + if events[n].traceId == t then [events[n]] else []
  }

  /** The hash the next event of trace t must link to. */
  function LastHash(events: seq<AuditEvent>, t: Bytes): Bytes {
    var own := OfTrace(events, t);
    ExpectedPrevious(own, |own|)
  }

  function Seal(e: AuditEvent, previousHash: Bytes): AuditEvent {
    e.(previousHash := previousHash, eventHash := EventHash(e, previousHash))
  }

  function Appended(events: seq<AuditEvent>, e: AuditEvent): (log: seq<AuditEvent>)
    ensures |log| == |events| + 1
  {
    events + [Seal(e, LastHash(events, e.traceId))]
  }

  /** The log after appending the given events in order. */
  function LogOf(input: seq<AuditEvent>): (log: seq<AuditEvent>)
    ensures |log| == |input|
  {
    if input == [] then [] else Appended(LogOf(input[..|input| - 1]), input[|input| - 1])
  }

  function Query(events: seq<AuditEvent>, t: Bytes): seq<AuditEvent> {
    if t == [] then events else OfTrace(events, t)
  }

  lemma OfTraceSnoc(events: seq<AuditEvent>, e: AuditEvent, t: Bytes)
    ensures OfTrace(events + [e], t) == OfTrace(events, t) + if e.traceId == t then [e] else []
  {
    assert (events + [e])[..|events|] == events;
  }

  lemma LastHashSnoc(events: seq<AuditEvent>, e: AuditEvent, t: Bytes)
    ensures LastHash(events + [e], t) == if e.traceId == t then e.eventHash else LastHash(events, t)
    ensures OfTrace(events + [e], t) == [] <==> OfTrace(events, t) == [] && e.traceId != t
  {
    OfTraceSnoc(events, e, t);
  }

  lemma NoEventsNoHash(events: seq<AuditEvent>, t: Bytes)
    ensures OfTrace(events, t) == [] ==> LastHash(events, t) == GenesisHash()
  {
  }

  lemma SealedHash(e: AuditEvent, p: Bytes)
    ensures EventHash(Seal(e, p), p) == EventHash(e, p)
  {
    hide Member, JsonElements;
  }

  lemma ChainExtends(chain: seq<AuditEvent>, e: AuditEvent)
    requires ValidChain(chain)
    ensures ValidChain(chain + [e]) <==>
      e.previousHash == ExpectedPrevious(chain, |chain|) && e.eventHash == EventHash(e, e.previousHash)
  {
    hide EventHash;
    var longer := chain + [e];
    forall i | 0 <= i < |chain|
      ensures LinkHolds(longer, i)
    {
      assert LinkHolds(chain, i);
    }
    assert ExpectedPrevious(longer, |chain|) == ExpectedPrevious(chain, |chain|);
    assert LinkHolds(longer, |chain|) <==>
      e.previousHash == ExpectedPrevious(chain, |chain|) && e.eventHash == EventHash(e, e.previousHash);
  }

  lemma LogOfSnoc(input: seq<AuditEvent>, e: AuditEvent)
    ensures LogOf(input + [e]) == Appended(LogOf(input), e)
  {
    hide Appended;
    assert (input + [e])[..|input|] == input;
  }

  lemma AppendKeepsChains(log: seq<AuditEvent>, e: AuditEvent, t: Bytes)
    requires ValidChain(OfTrace(log, t))
    ensures ValidChain(OfTrace(Appended(log, e), t))
  {
    hide EventHash;
    var sealed := Seal(e, LastHash(log, e.traceId));
    OfTraceSnoc(log, sealed, t);
    SealedHash(e, sealed.previousHash);
    ChainExtends(OfTrace(log, t), sealed);
    assert e.traceId != t ==> OfTrace(log, t) + [] == OfTrace(log, t);
  }

  /** Every trace of every log verifies. */
  lemma {:induction false} LogVerifies(input: seq<AuditEvent>, t: Bytes)
    ensures ValidChain(OfTrace(LogOf(input), t))
  {
    hide EventHash;
    if input != [] {
      var n := |input| - 1;
      LogVerifies(input[..n], t);
      AppendKeepsChains(LogOf(input[..n]), input[n], t);
    }
  }

  /** Appending changes nothing but the two hash fields and keeps the order. */
  lemma {:induction false} LogKeepsContent(input: seq<AuditEvent>, i: nat)
    requires i < |input|
    ensures SameContent(LogOf(input)[i], input[i])
  {
    hide EventHash, LastHash, SameContent, Seal;
    var n := |input| - 1;
    if i < n {
      LogKeepsContent(input[..n], i);
    } else {
      SealKeepsContent(input[n], LastHash(LogOf(input[..n]), input[n].traceId));
    }
  }

  lemma SealKeepsContent(e: AuditEvent, p: Bytes)
    ensures SameContent(Seal(e, p), e)
  {
  }

  class InMemoryAuditLog {
    var events: seq<AuditEvent>
    var lastHash: map<Bytes, Bytes>

    ghost predicate Valid()
      reads this
    {
      forall t :: (t in lastHash <==> OfTrace(events, t) != []) &&
                  (t in lastHash ==> lastHash[t] == LastHash(events, t))
    }

    constructor ()
      ensures Valid() && events == []
    {
      events := [];
      lastHash := map[];
    }

    method Append(event: AuditEvent)
      requires Valid()
      modifies this
      ensures Valid()
      ensures events == Appended(old(events), event)
    {
      hide EventHash, OfTrace, LastHash;
      var prev := if event.traceId in lastHash then lastHash[event.traceId] else GenesisHash();
      NoEventsNoHash(events, event.traceId);
      var hash := ComputeEventHash(event, prev);
      var stored := event.(previousHash := prev, eventHash := hash);
      forall t {
        LastHashSnoc(events, stored, t);
      }
      lastHash := lastHash[event.traceId := stored.eventHash];
      events := events + [stored];
    }

    method QueryTrace(traceId: Bytes) returns (result: seq<AuditEvent>)
      ensures result == Query(events, traceId)
    {
      if traceId == [] {
        return events;
      }
      result := [];
      for i := 0 to |events|
        invariant result == OfTrace(events[..i], traceId)
      {
        OfTraceSnoc(events[..i], events[i], traceId);
        assert events[..i] + [events[i]] == events[..i + 1];
        if events[i].traceId == traceId {
          result := result + [events[i]];
        }
      }
      assert events[..|events|] == events;
    }

    /** The keys of the hash map: each trace with an event, once. */
    method ListTraceIds() returns (ids: seq<Bytes>)
      requires Valid()
      ensures forall t :: t in ids <==> exists e :: e in events && e.traceId == t
      ensures forall i, j :: 0 <= i < j < |ids| ==> ids[i] != ids[j]
    {
      hide OfTrace, LastHash, Valid;
      ids := [];
      var left := lastHash.Keys;
      while left != {}
        invariant left <= lastHash.Keys
        invariant forall t :: t in ids <==> t in lastHash.Keys - left
        invariant forall i, j :: 0 <= i < j < |ids| ==> ids[i] != ids[j]
        decreases left
      {
        var t :| t in left;
        forall i | 0 <= i < |ids|
          ensures ids[i] != t
        {
          assert ids[i] in ids;
        }
        ids := ids + [t];
        left := left - {t};
      }
      KeysAreTraces();
    }

    lemma KeysAreTraces()
      requires Valid()
      ensures forall t :: t in lastHash <==> exists e :: e in events && e.traceId == t
    {
      hide LastHash;
      forall t
        ensures t in lastHash <==> exists e :: e in events && e.traceId == t
      {
        var own := OfTrace(events, t);
        if own != [] {
          assert own[0] in own;
        }
      }
    }
  }
}
