/** Idempotent transitions in memory (src/interaction/inmemory_interaction_coordinator.cpp). */
module InMemoryCoordinator {
  import opened Interaction

  datatype Outcome = Applied | AlreadyApplied | Conflict | NotFound | InvalidTransition | BackendError

  datatype TransitionResult = TransitionResult(outcome: Outcome, before: State, after: State, index: int)

  datatype Record = Record(state: State, index: nat)

  datatype Receipt = Receipt(after: State, index: nat, event: Event)

  datatype Coordinator = Coordinator(interactions: map<string, Record>, receipts: map<string, Receipt>)

  const EMPTY := Coordinator(map[], map[])

  predicate ColonFree(s: string) { ':' !in s }

  function IdemKey(id: string, key: string): string { id + (":" + key) }

  /** One call of apply_transition: the new maps and the result. */
  function Transition(c: Coordinator, id: string, event: Event, key: string): (Coordinator, TransitionResult) {
    if id !in c.interactions then
      (c, TransitionResult(NotFound, Draft, Draft, 0))
    else
      var r := c.interactions[id];
      var k := IdemKey(id, key);
      if k in c.receipts then
        (c, TransitionResult(AlreadyApplied, c.receipts[k].after, c.receipts[k].after, c.receipts[k].index))
      else if !CanTransition(r.state, event) then
        (c, TransitionResult(InvalidTransition, r.state, r.state, r.index))
      else
        var r' := Record(Target(event), r.index + 1);
        (Coordinator(c.interactions[id := r'], c.receipts[k := Receipt(r'.state, r'.index, event)]),
         TransitionResult(Applied, r.state, r'.state, r'.index))
  }

  function Create(c: Coordinator, id: string): (Coordinator, bool) {
    if id in c.interactions then (c, false) else (c.(interactions := c.interactions[id := Record(Draft, 0)]), true)
  }

  datatype Op = CreateOp(id: string) | TransitionOp(id: string, event: Event, key: string)

  function Step(c: Coordinator, op: Op): Coordinator {
    match op
    case CreateOp(id) => Create(c, id).0
    case TransitionOp(id, event, key) => Transition(c, id, event, key).0
  }

  function Run(ops: seq<Op>): Coordinator {
    if ops == [] then EMPTY else Step(Run(ops[..|ops| - 1]), ops[|ops| - 1])
  }

  // ---------- receipt keys ----------

  /** The answer tells the truth about the store: where the interaction was, where it is now, and its index. */
  lemma AnswerReportsState(c: Coordinator, id: string, event: Event, key: string)
    ensures
      var (c', r) := Transition(c, id, event, key);
      && (r.outcome == NotFound <==> id !in c.interactions)
      && (r.outcome == AlreadyApplied <==> id in c.interactions && IdemKey(id, key) in c.receipts)
      && (r.outcome == Applied <==> c' != c)
      && r.outcome != Conflict && r.outcome != BackendError
      && (r.outcome == NotFound ==> r == TransitionResult(NotFound, Draft, Draft, 0))
      && (r.outcome == Applied || r.outcome == InvalidTransition ==>
            && id in c.interactions && id in c'.interactions
            && r.before == c.interactions[id].state
            && c'.interactions[id] == Record(r.after, r.index))
      && (r.outcome == AlreadyApplied ==>
            var receipt := c.receipts[IdemKey(id, key)];
            r.before == r.after == receipt.after && r.index == receipt.index)
      && (r.outcome == Applied ==>
            IdemKey(id, key) in c'.receipts && c'.receipts[IdemKey(id, key)] == Receipt(r.after, r.index, event))
  {
    hide IdemKey;
    if id in c.interactions && IdemKey(id, key) !in c.receipts {
      assert IdemKey(id, key) in Transition(c, id, event, key).0.receipts <==>
             CanTransition(c.interactions[id].state, event);
    }
  }

  /** A creation succeeds exactly for an id not yet in use, and then adds a draft at index 0 and nothing else. */
  lemma CreatesOnce(c: Coordinator, id: string, other: string)
    ensures
      var (c', created) := Create(c, id);
      && (created <==> id !in c.interactions)
      && (created <==> c' != c)
      && (created ==> id in c'.interactions && c'.interactions[id] == Record(Draft, 0))
      && c'.receipts == c.receipts
      && (other != id ==> (other in c'.interactions <==> other in c.interactions))
      && (other in c.interactions ==> other in c'.interactions && c'.interactions[other] == c.interactions[other])
  {
    assert id in Create(c, id).0.interactions;
  }

  /** With a fresh key an event is applied exactly when it closes an open interaction or takes it one rank further. */
  lemma FreshKeyAppliesIff(c: Coordinator, id: string, event: Event, key: string)
    requires id in c.interactions && IdemKey(id, key) !in c.receipts
    ensures
      var state := c.interactions[id].state;
      var (c', r) := Transition(c, id, event, key);
      && (r.outcome == Applied <==> state != Closed && (event == Close || Rank(Target(event)) == Rank(state) + 1))
      && (r.outcome == Applied ==> c'.interactions[id].state == Target(event))
  {
    hide IdemKey;
    TransitionTable(c.interactions[id].state, event);
  }

  /** In every run, closing an open interaction under a fresh key is applied and leaves it closed. */
  lemma CloseAlwaysApplies(ops: seq<Op>, id: string, key: string)
    requires id in Run(ops).interactions && IdemKey(id, key) !in Run(ops).receipts
    requires Run(ops).interactions[id].state != Closed
    ensures
      var more := Run(ops + [TransitionOp(id, Close, key)]);
      && Transition(Run(ops), id, Close, key).1.outcome == Applied
      && id in more.interactions && more.interactions[id] == Record(Closed, Run(ops).interactions[id].index + 1)
  {
    hide IdemKey;
    assert (ops + [TransitionOp(id, Close, key)])[..|ops|] == ops;
    FreshKeyAppliesIff(Run(ops), id, Close, key);
  }

  /** Splitting at the first colon is unambiguous. */
  lemma FirstColon(a: string, x: string, b: string, y: string)
    requires ColonFree(a) && ColonFree(b)
    requires a + (":" + x) == b + (":" + y)
    ensures a == b && x == y
  {
    var s, t := a + (":" + x), b + (":" + y);
    assert s[|a|] == ':' && t[|b|] == ':';
    assert forall n :: 0 <= n < |a| ==> s[n] == a[n];
    assert forall n :: 0 <= n < |b| ==> t[n] == b[n];
    assert a == s[..|a|] && b == t[..|b|];
    assert x == s[|a| + 1..] && y == t[|b| + 1..];
  }

  lemma IdemKeyInjective(i: string, k: string, j: string, l: string)
    requires ColonFree(i) && ColonFree(j) && IdemKey(i, k) == IdemKey(j, l)
    ensures i == j && k == l
  {
    FirstColon(i, k, j, l);
  }

  /** Two ids can have a receipt key in common exactly when one of them, with a colon, begins the other. */
  lemma IdsShareAKeyIff(i: string, j: string)
    requires i != j
    ensures (exists k, l :: IdemKey(i, k) == IdemKey(j, l)) <==> i + ":" <= j + ":" || j + ":" <= i + ":"
  {
    if i + ":" <= j + ":" {
      var k, l := SharedKey(i, j);
    }
    if j + ":" <= i + ":" {
      var k, l := SharedKey(j, i);
      assert IdemKey(i, l) == IdemKey(j, k);
    }
    forall k, l | IdemKey(i, k) == IdemKey(j, l)
      ensures i + ":" <= j + ":" || j + ":" <= i + ":"
    {
      var s := IdemKey(i, k);
      assert s[..|i| + 1] == i + ":" && s[..|j| + 1] == j + ":";
      if |i| <= |j| {
        assert s[..|j| + 1][..|i| + 1] == s[..|i| + 1];
      } else {
        assert s[..|i| + 1][..|j| + 1] == s[..|j| + 1];
      }
    }
  }

  lemma SharedKey(i: string, j: string) returns (k: string, l: string)
    requires i + ":" <= j + ":"
    ensures IdemKey(i, k) == IdemKey(j, l)
  {
    k, l := (j + ":")[|i| + 1..], "";
    assert j + ":" == (i + ":") + k;
    assert IdemKey(j, l) == j + ":";
    assert IdemKey(i, k) == (i + ":") + k;
  }

  /** With colons in ids a call can be answered from another interaction's receipt. */
  lemma ColonIdsInterfere()
    ensures
      var c := Run([CreateOp("a"), CreateOp("a:b"), TransitionOp("a", Prepare, "b:k")]);
      && c.interactions["a:b"] == Record(Draft, 0)
      && Transition(c, "a:b", Prepare, "k") == (c, TransitionResult(AlreadyApplied, Ready, Ready, 1))
  {
    var o1, o2, o3 := CreateOp("a"), CreateOp("a:b"), TransitionOp("a", Prepare, "b:k");
    assert [o1, o2, o3][..2] == [o1, o2] && [o1, o2][..1] == [o1];
    assert Run([o1]) == Create(EMPTY, "a").0;
    assert Run([o1, o2]) == Create(Run([o1]), "a:b").0;
    assert Run([o1, o2, o3]) == Transition(Run([o1, o2]), "a", Prepare, "b:k").0;
    assert IdemKey("a", "b:k") == IdemKey("a:b", "k");
  }

  // ---------- what every run keeps ----------

  /** The receipts of interaction id are exactly those of the legal history `events`. */
  ghost predicate Explains(c: Coordinator, id: string, events: seq<Event>) {
    && id in c.interactions
    && Legal(events)
    && c.interactions[id] == Record(After(events), |events|)
    && (forall k {:trigger IdemKey(id, k)} :: IdemKey(id, k) in c.receipts ==>
          ReceiptFits(c.receipts[IdemKey(id, k)], events))
    && (forall k, l {:trigger IdemKey(id, k), IdemKey(id, l)} ::
          (&& IdemKey(id, k) in c.receipts && IdemKey(id, l) in c.receipts
           && c.receipts[IdemKey(id, k)].index == c.receipts[IdemKey(id, l)].index) ==> k == l)
    && (forall n :: 1 <= n <= |events| ==> HasReceipt(c, id, n))
  }

  ghost predicate ReceiptFits(r: Receipt, events: seq<Event>) {
    && 1 <= r.index <= |events|
    && r.event == events[r.index - 1]
    && r.after == After(events[..r.index])
  }

  ghost predicate HasReceipt(c: Coordinator, id: string, n: nat) {
    exists k :: IdemKey(id, k) in c.receipts && c.receipts[IdemKey(id, k)].index == n
  }

  /** Receipts belong to interactions that exist. */
  ghost predicate NoStrayReceipts(c: Coordinator) {
    forall id, k :: ColonFree(id) && IdemKey(id, k) in c.receipts ==> id in c.interactions
  }

  ghost predicate Inv(c: Coordinator) {
    && NoStrayReceipts(c)
    && forall id :: ColonFree(id) && id in c.interactions ==> exists events :: Explains(c, id, events)
  }

  lemma OthersUnaffected(c: Coordinator, id: string, event: Event, key: string, other: string, events: seq<Event>)
    requires ColonFree(id) && ColonFree(other) && other != id
    requires Explains(c, other, events)
    ensures Explains(Transition(c, id, event, key).0, other, events)
  {
    var c' := Transition(c, id, event, key).0;
    forall k
      ensures IdemKey(other, k) != IdemKey(id, key)
    {
      if IdemKey(other, k) == IdemKey(id, key) {
        IdemKeyInjective(other, k, id, key);
      }
    }
    forall n | 1 <= n <= |events|
      ensures HasReceipt(c', other, n)
    {
      assert HasReceipt(c, other, n);
    }
  }

  lemma AppliedExtends(c: Coordinator, id: string, event: Event, key: string, events: seq<Event>)
    requires ColonFree(id) && Explains(c, id, events)
    requires Transition(c, id, event, key).1.outcome == Applied
    ensures Explains(Transition(c, id, event, key).0, id, events + [event])
  {
    var c' := Transition(c, id, event, key).0;
    var longer := events + [event];
    assert longer[..|events|] == events;
    assert longer[..|longer|] == longer;
    forall k
      ensures IdemKey(id, k) == IdemKey(id, key) ==> k == key
    {
      if IdemKey(id, k) == IdemKey(id, key) {
        IdemKeyInjective(id, k, id, key);
      }
    }
    forall k | IdemKey(id, k) in c'.receipts
      ensures ReceiptFits(c'.receipts[IdemKey(id, k)], longer)
    {
      if k != key {
        var r := c.receipts[IdemKey(id, k)];
        assert longer[..r.index] == events[..r.index];
      }
    }
    forall n | 1 <= n <= |longer|
      ensures HasReceipt(c', id, n)
    {
      if n == |longer| {
        assert IdemKey(id, key) in c'.receipts;
      } else {
        assert HasReceipt(c, id, n);
        var k :| IdemKey(id, k) in c.receipts && c.receipts[IdemKey(id, k)].index == n;
        assert IdemKey(id, k) in c'.receipts;
      }
    }
  }

  lemma TransitionKeepsInv(c: Coordinator, id: string, event: Event, key: string)
    requires Inv(c) && ColonFree(id)
    ensures Inv(Transition(c, id, event, key).0)
  {
    hide Explains;
    var (c', r) := Transition(c, id, event, key);
    forall other | ColonFree(other) && other in c'.interactions
      ensures exists events :: Explains(c', other, events)
    {
      var events :| Explains(c, other, events);
      if other != id {
        OthersUnaffected(c, id, event, key, other, events);
        assert Explains(c', other, events);
      } else if r.outcome == Applied {
        AppliedExtends(c, id, event, key, events);
        assert Explains(c', other, events + [event]);
      } else {
        assert Explains(c', other, events);
      }
    }
    forall i, k | ColonFree(i) && IdemKey(i, k) in c'.receipts
      ensures i in c'.interactions
    {
      if IdemKey(i, k) !in c.receipts {
        IdemKeyInjective(i, k, id, key);
      }
    }
  }

  lemma CreateKeepsInv(c: Coordinator, id: string)
    requires Inv(c) && ColonFree(id)
    ensures Inv(Create(c, id).0)
  {
    var c' := Create(c, id).0;
    forall other | ColonFree(other) && other in c'.interactions
      ensures exists events :: Explains(c', other, events)
    {
      if other in c.interactions {
        var events :| Explains(c, other, events);
        forall n | 1 <= n <= |events|
          ensures HasReceipt(c', other, n)
        {
          assert HasReceipt(c, other, n);
        }
        assert Explains(c', other, events);
      } else {
        assert Explains(c', other, []);
      }
    }
  }

  lemma {:induction false} RunKeepsInv(ops: seq<Op>)
    requires forall i :: 0 <= i < |ops| ==> ColonFree(ops[i].id)
    ensures Inv(Run(ops))
  {
    hide Inv, Transition, Create;
    if ops == [] {
      EmptyInv();
    } else {
      var before := Run(ops[..|ops| - 1]);
      RunKeepsInv(ops[..|ops| - 1]);
      match ops[|ops| - 1]
      case CreateOp(id) => CreateKeepsInv(before, id);
      case TransitionOp(id, event, key) => TransitionKeepsInv(before, id, event, key);
    }
  }

  lemma EmptyInv()
    ensures Inv(EMPTY)
  {
  }

  /**
   The main result, for every run over ids without ':'.  The receipts of an interaction carry exactly the
   indices 1..transition_index; their events, in index order, are legal from Draft at each step and lead to
   the current state; no event is applied twice and the index never exceeds four.
   */
  lemma ReceiptsExplainState(ops: seq<Op>, id: string) returns (events: seq<Event>)
    requires forall i :: 0 <= i < |ops| ==> ColonFree(ops[i].id)
    requires ColonFree(id) && id in Run(ops).interactions
    ensures Explains(Run(ops), id, events)
    ensures Run(ops).interactions[id].index == |events| <= 4
    ensures forall i, j :: 0 <= i < j < |events| ==> events[i] != events[j]
  {
    RunKeepsInv(ops);
    events :| Explains(Run(ops), id, events);
    LegalHistoryIsShort(events);
  }

  /** Once a key has a receipt, every later run answers it from that receipt and changes nothing. */
  lemma {:induction false} ReplayIsStable(ops: seq<Op>, more: seq<Op>, id: string, event: Event, key: string)
    requires id in Run(ops).interactions && IdemKey(id, key) in Run(ops).receipts
    ensures
      var r := Run(ops).receipts[IdemKey(id, key)];
      && id in Run(ops + more).interactions
      && Run(ops).interactions[id].index <= Run(ops + more).interactions[id].index
      && IdemKey(id, key) in Run(ops + more).receipts && Run(ops + more).receipts[IdemKey(id, key)] == r
      && Transition(Run(ops + more), id, event, key)
         == (Run(ops + more), TransitionResult(AlreadyApplied, r.after, r.after, r.index))
    decreases |more|
  {
    if more == [] {
      assert ops + more == ops;
    } else {
      var n := |more| - 1;
      ReplayIsStable(ops, more[..n], id, event, key);
      assert (ops + more)[..|ops + more| - 1] == ops + more[..n];
    }
  }

  class InMemoryInteractionCoordinator {
    var interactions: map<string, Record>
    var idempotencyReceipts: map<string, Receipt>

    function Abs(): Coordinator
      reads this
    {
      Coordinator(interactions, idempotencyReceipts)
    }

    constructor ()
      ensures Abs() == EMPTY
    {
      interactions := map[];
      idempotencyReceipts := map[];
    }

    method ApplyTransition(id: string, event: Event, key: string) returns (result: TransitionResult)
      modifies this
      ensures (Abs(), result) == Transition(old(Abs()), id, event, key)
    {
      var idemKey := IdemKey(id, key);
      if id !in interactions {
        return TransitionResult(NotFound, Draft, Draft, 0);
      }
      if idemKey in idempotencyReceipts {
        var receipt := idempotencyReceipts[idemKey];
        return TransitionResult(AlreadyApplied, receipt.after, receipt.after, receipt.index);
      }
      var record := interactions[id];
      var before := record.state;
      var interaction := new InteractionRecord();
      interaction.state := before;
      if !CanTransition(interaction.state, event) {
        return TransitionResult(InvalidTransition, before, before, record.index);
      }
      var applied := interaction.Apply(event);
      if !applied {
        return TransitionResult(InvalidTransition, before, before, record.index);
      }
      record := Record(interaction.state, record.index + 1);
      interactions := interactions[id := record];
      idempotencyReceipts := idempotencyReceipts[idemKey := Receipt(record.state, record.index, event)];
      return TransitionResult(Applied, before, record.state, record.index);
    }

    method CreateInteraction(id: string) returns (created: bool)
      modifies this
      ensures (Abs(), created) == Create(old(Abs()), id)
    {
      if id in interactions {
        return false;
      }
      interactions := interactions[id := Record(Draft, 0)];
      return true;
    }

    method GetState(id: string) returns (found: bool, state: State, index: nat)
      ensures found <==> id in interactions
      ensures found ==> interactions[id] == Record(state, index)
    {
      if id !in interactions {
        return false, Draft, 0;
      }
      return true, interactions[id].state, interactions[id].index;
    }
  }
}
