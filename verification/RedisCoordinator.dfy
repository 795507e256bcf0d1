/**
 Transitions over Redis (src/interaction/redis_interaction_coordinator.cpp).  A call is three round trips
 (exists, read and validate, run the script); the server runs each one alone, and calls of any number of
 clients interleave freely between them.  Replies can be lost after the script has run.
 */
module RedisCoordinator {
  import opened Interaction
  import Mem = InMemoryCoordinator

  type Result = Mem.TransitionResult

  function StateToInt(s: State): int { Rank(s) }

  function IntToState(n: int): State {
    if n == 1 then Ready else if n == 2 then Sent else if n == 3 then Responded else if n == 4 then Closed else Draft
  }

  function EventToInt(e: Event): int {
    match e
    case Prepare => 0
    case Send => 1
    case ReceiveReply => 2
    case Close => 3
  }

  function ApplyEvent(s: State, e: Event): State { if CanTransition(s, e) then Target(e) else s }

  // ---------- the server ----------

  datatype Hash = StateHash(state: int, index: int) | ReceiptHash(after: int, index: int, event: int)

  type Keys = map<string, Hash>

  const PREFIX := "ccmcp:interaction:"

  function StateKey(id: string): string { PREFIX + (id + (":" + "state")) }

  function IdemKey(id: string, key: string): string { PREFIX + (id + (":" + ("idem:" + key))) }

  datatype Reply = Reply(outcome: int, before: int, after: int, index: int) | ScriptError

  /** The Lua script: runs alone on the server.  Hashes of the wrong kind make it fail. */
  function Script(keys: Keys, stateKey: string, idemKey: string, event: int, newState: int): (Keys, Reply) {
    if stateKey !in keys then (keys, Reply(3, 0, 0, 0))
    else if idemKey in keys then
      var r := keys[idemKey];
      (keys, if r.ReceiptHash? then Reply(1, r.after, r.after, r.index) else ScriptError)
    else if !keys[stateKey].StateHash? then (keys, ScriptError)
    else
      var s := keys[stateKey];
      var next := s.index + 1;
      (keys[stateKey := StateHash(newState, next)][idemKey := ReceiptHash(newState, next, event)],
       Reply(0, s.state, newState, next))
  }

  function Parse(reply: Reply): Result {
    match reply
    case ScriptError => FAILED
    case Reply(outcome, before, after, index) =>
      var o := if outcome == 0 then Mem.Applied else if outcome == 1 then Mem.AlreadyApplied
               else if outcome == 2 then Mem.Conflict else if outcome == 3 then Mem.NotFound else Mem.BackendError;
      Mem.TransitionResult(o, IntToState(before), IntToState(after), index)
  }

  const FAILED: Result := Mem.TransitionResult(Mem.BackendError, Draft, Draft, 0)

  // ---------- interleaved clients ----------

  datatype Request = Request(id: string, event: Event, key: string)

  /** Where a client stands inside a call.  `index` is what the read also returned. */
  datatype Phase = Checked(req: Request) | Validated(req: Request, state: State, index: int)

  datatype System = System(keys: Keys, clients: map<nat, Phase>)

  datatype Step =
    | CreateId(id: string)
    | Exists(c: nat, req: Request)
    | Read(c: nat)
    | Eval(c: nat, lost: bool)
    | Abort(c: nat)

  datatype Response = Pending | Done(result: Result)

  predicate Enabled(s: System, step: Step) {
    match step
    case CreateId(id) => StateKey(id) !in s.keys
    case Exists(c, _) => c !in s.clients
    case Read(c) => c in s.clients && s.clients[c].Checked?
    case Eval(c, _) => c in s.clients && s.clients[c].Validated?
    case Abort(c) => c in s.clients
  }

  /** hgetall, then validation against the state read. */
  function ReadAndValidate(keys: Keys, req: Request): (Phase, Response) {
    if StateKey(req.id) !in keys || !keys[StateKey(req.id)].StateHash? then (Checked(req), Done(FAILED))
    else
      var h := keys[StateKey(req.id)];
      var s := IntToState(h.state);
      if CanTransition(s, req.event) then (Validated(req, s, h.index), Pending)
      else (Checked(req), Done(Mem.TransitionResult(Mem.InvalidTransition, s, s, h.index)))
  }

  function EvalScript(keys: Keys, req: Request, state: State): (Keys, Reply) {
    Script(keys, StateKey(req.id), IdemKey(req.id, req.key),
           EventToInt(req.event), StateToInt(ApplyEvent(state, req.event)))
  }

  /** One step; a step that is not enabled does nothing. */
  function Next(s: System, step: Step): (System, Response) {
    if !Enabled(s, step) then (s, Pending) else
      match step
      case CreateId(id) => (s.(keys := s.keys[StateKey(id) := StateHash(0, 0)]), Pending)
      case Exists(c, req) =>
        if StateKey(req.id) in s.keys then (s.(clients := s.clients[c := Checked(req)]), Pending)
        else (s, Done(Mem.TransitionResult(Mem.NotFound, Draft, Draft, 0)))
      case Read(c) =>
        var (phase, response) := ReadAndValidate(s.keys, s.clients[c].req);
        (s.(clients := if response == Pending then s.clients[c := phase] else s.clients - {c}), response)
      case Eval(c, lost) =>
        var (keys, reply) := EvalScript(s.keys, s.clients[c].req, s.clients[c].state);
        (System(keys, s.clients - {c}), Done(if lost then FAILED else Parse(reply)))
      case Abort(c) => (s.(clients := s.clients - {c}), Done(FAILED))
  }

  function Run(steps: seq<Step>): System {
    if steps == [] then System(map[], map[]) else Next(Run(steps[..|steps| - 1]), steps[|steps| - 1]).0
  }

  predicate ColonFreeStep(step: Step) {
    match step
    case CreateId(id) => Mem.ColonFree(id)
    case Exists(_, req) => Mem.ColonFree(req.id)
    case _ => true
  }

  // ---------- keys ----------

  lemma KeysDistinct(i: string, k: string, j: string, l: string)
    requires Mem.ColonFree(i) && Mem.ColonFree(j)
    ensures StateKey(i) == StateKey(j) ==> i == j
    ensures StateKey(i) != IdemKey(j, l)
    ensures IdemKey(i, k) == IdemKey(j, l) ==> i == j && k == l
  {
    var n := |PREFIX|;
    assert "state"[0] != ("idem:" + l)[0];
    assert StateKey(i)[n..] == i + (":" + "state") && StateKey(j)[n..] == j + (":" + "state");
    assert IdemKey(i, k)[n..] == i + (":" + ("idem:" + k)) && IdemKey(j, l)[n..] == j + (":" + ("idem:" + l));
    if StateKey(i) == StateKey(j) {
      Mem.FirstColon(i, "state", j, "state");
    }
    if StateKey(i) == IdemKey(j, l) {
      Mem.FirstColon(i, "state", j, "idem:" + l);
    }
    if IdemKey(i, k) == IdemKey(j, l) {
      Mem.FirstColon(i, "idem:" + k, j, "idem:" + l);
      assert k == ("idem:" + k)[5..] && l == ("idem:" + l)[5..];
    }
  }

  /** The receipt keys of an interaction, read off the keyspace. */
  function ReceiptKeys(keys: Keys, id: string): set<string> {
    set k | k in keys && IdemKey(id, "") <= k
  }

  lemma ReceiptKeysAre(keys: Keys, id: string, k: string)
    ensures k in ReceiptKeys(keys, id) <==> k in keys && exists key :: k == IdemKey(id, key)
  {
    if IdemKey(id, "") <= k {
      var key := k[|IdemKey(id, "")|..];
      assert k == IdemKey(id, "") + key;
      assert k == IdemKey(id, key);
    }
    forall key
      ensures IdemKey(id, "") <= IdemKey(id, key)
    {
      assert IdemKey(id, key) == IdemKey(id, "") + key;
    }
  }

  // ---------- what every interleaving keeps ----------

  ghost predicate Receipt(keys: Keys, id: string, key: string) { IdemKey(id, key) in keys }

  ghost predicate HasIndex(keys: Keys, id: string, n: int) {
    exists key :: Receipt(keys, id, key) && keys[IdemKey(id, key)].index == n
  }

  /** Receipt indices are a bijection with 1..index, and the state is the one the last receipt recorded. */
  ghost predicate Consistent(keys: Keys, id: string) {
    && StateKey(id) in keys && keys[StateKey(id)].StateHash?
    && var h := keys[StateKey(id)];
    && 0 <= h.index == |ReceiptKeys(keys, id)|
    && 0 <= h.state <= 4
    && (h.index == 0 ==> h.state == StateToInt(Draft))
    && (forall key :: Receipt(keys, id, key) ==>
          var r := keys[IdemKey(id, key)];
          && r.ReceiptHash? && 1 <= r.index <= h.index
          && (r.index == h.index ==> r.after == h.state)
          && exists e :: r.event == EventToInt(e) && r.after == StateToInt(Target(e)))
    && (forall k, l :: (&& Receipt(keys, id, k) && Receipt(keys, id, l)
                        && keys[IdemKey(id, k)].index == keys[IdemKey(id, l)].index) ==> k == l)
    && (forall n :: 1 <= n <= h.index ==> HasIndex(keys, id, n))
  }

  ghost predicate KeysInv(keys: Keys) {
    forall id :: Mem.ColonFree(id) ==>
      if StateKey(id) in keys then Consistent(keys, id)
      else ReceiptKeys(keys, id) == {} && forall key :: !Receipt(keys, id, key)
  }

  /** A validated client read a state that allowed its event, and has the current one if no index was used since. */
  ghost predicate ClientInv(keys: Keys, p: Phase) {
    && Mem.ColonFree(p.req.id)
    && StateKey(p.req.id) in keys && keys[StateKey(p.req.id)].StateHash?
    && (p.Validated? ==>
          var h := keys[StateKey(p.req.id)];
          && CanTransition(p.state, p.req.event)
          && p.index <= h.index
          && (p.index == h.index ==> StateToInt(p.state) == h.state))
  }

  ghost predicate Inv(s: System) {
    && KeysInv(s.keys)
    && forall c :: c in s.clients ==> ClientInv(s.keys, s.clients[c])
  }

  /** The effect of an applied script on one interaction, seen from another. */
  lemma ScriptLeavesOthers(keys: Keys, req: Request, state: State, id: string)
    requires Mem.ColonFree(req.id) && Mem.ColonFree(id) && id != req.id
    ensures
      var keys' := EvalScript(keys, req, state).0;
      && (StateKey(id) in keys' <==> StateKey(id) in keys)
      && (StateKey(id) in keys ==> keys'[StateKey(id)] == keys[StateKey(id)])
      && ReceiptKeys(keys', id) == ReceiptKeys(keys, id)
      && (forall key :: Receipt(keys', id, key) <==> Receipt(keys, id, key))
      && (forall key :: Receipt(keys, id, key) ==>
            IdemKey(id, key) in keys' && keys'[IdemKey(id, key)] == keys[IdemKey(id, key)])
  {
    hide StateKey, IdemKey, ReceiptKeys;
    var keys' := EvalScript(keys, req, state).0;
    forall key
      ensures IdemKey(id, key) != StateKey(req.id) && IdemKey(id, key) != IdemKey(req.id, req.key)
      ensures StateKey(id) != StateKey(req.id) && StateKey(id) != IdemKey(req.id, req.key)
    {
      KeysDistinct(id, key, req.id, req.key);
      KeysDistinct(req.id, req.key, id, key);
    }
    forall k
      ensures k in ReceiptKeys(keys', id) <==> k in ReceiptKeys(keys, id)
    {
      ReceiptKeysAre(keys', id, k);
      ReceiptKeysAre(keys, id, k);
    }
    assert IdemKey(id, "") == IdemKey(id, "");
  }

  lemma SameViewConsistent(keys: Keys, keys': Keys, id: string)
    requires Consistent(keys, id)
    requires StateKey(id) in keys' && keys'[StateKey(id)] == keys[StateKey(id)]
    requires ReceiptKeys(keys', id) == ReceiptKeys(keys, id)
    requires forall key :: Receipt(keys', id, key) <==> Receipt(keys, id, key)
    requires forall key :: Receipt(keys, id, key) ==>
      IdemKey(id, key) in keys' && keys'[IdemKey(id, key)] == keys[IdemKey(id, key)]
    ensures Consistent(keys', id)
  {
    hide StateKey, IdemKey, ReceiptKeys;
    forall n | 1 <= n <= keys[StateKey(id)].index
      ensures HasIndex(keys', id, n)
    {
      assert HasIndex(keys, id, n);
    }
  }

  lemma ScriptKeepsConsistent(keys: Keys, req: Request, state: State)
    requires Mem.ColonFree(req.id) && Consistent(keys, req.id)
    requires CanTransition(state, req.event)
    ensures Consistent(EvalScript(keys, req, state).0, req.id)
  {
    hide StateKey, IdemKey, ReceiptKeys;
    var keys' := EvalScript(keys, req, state).0;
    var (id, sk, ik) := (req.id, StateKey(req.id), IdemKey(req.id, req.key));
    if ik !in keys {
      var n := keys[sk].index + 1;
      forall key
        ensures IdemKey(id, key) != sk && (IdemKey(id, key) == ik ==> key == req.key)
      {
        KeysDistinct(id, key, id, key);
        KeysDistinct(id, key, id, req.key);
      }
      ReceiptKeysGrow(keys, keys', id, req.key);
      forall m | 1 <= m <= n
        ensures HasIndex(keys', id, m)
      {
        if m == n {
          assert Receipt(keys', id, req.key);
        } else {
          assert HasIndex(keys, id, m);
          var key :| Receipt(keys, id, key) && keys[IdemKey(id, key)].index == m;
          assert Receipt(keys', id, key);
        }
      }
      assert forall key :: Receipt(keys', id, key) ==> key == req.key || Receipt(keys, id, key);
    }
  }

  lemma ReceiptKeysGrow(keys: Keys, keys': Keys, id: string, key: string)
    requires Mem.ColonFree(id) && IdemKey(id, key) !in keys && StateKey(id) in keys
    requires keys'.Keys == keys.Keys + {IdemKey(id, key)}
    ensures |ReceiptKeys(keys', id)| == |ReceiptKeys(keys, id)| + 1
  {
    var ik := IdemKey(id, key);
    ReceiptKeysAre(keys', id, ik);
    assert ReceiptKeys(keys', id) == ReceiptKeys(keys, id) + {ik};
  }

  lemma EvalKeepsKeysInv(keys: Keys, req: Request, state: State)
    requires KeysInv(keys) && Mem.ColonFree(req.id) && StateKey(req.id) in keys
    requires CanTransition(state, req.event)
    ensures KeysInv(EvalScript(keys, req, state).0)
  {
    hide StateKey, IdemKey, ReceiptKeys, Consistent, Receipt;
    var keys' := EvalScript(keys, req, state).0;
    forall id | Mem.ColonFree(id)
      ensures if StateKey(id) in keys' then Consistent(keys', id)
              else ReceiptKeys(keys', id) == {} && forall key :: !Receipt(keys', id, key)
    {
      if id == req.id {
        ScriptKeepsConsistent(keys, req, state);
        assert StateKey(id) in keys';
      } else {
        ScriptLeavesOthers(keys, req, state, id);
        if StateKey(id) in keys {
          SameViewConsistent(keys, keys', id);
        }
      }
    }
  }

  lemma CreateKeepsKeysInv(keys: Keys, id: string)
    requires KeysInv(keys) && Mem.ColonFree(id) && StateKey(id) !in keys
    ensures KeysInv(keys[StateKey(id) := StateHash(0, 0)])
  {
    hide StateKey, IdemKey, ReceiptKeys, Consistent;
    var keys' := keys[StateKey(id) := StateHash(0, 0)];
    forall other | Mem.ColonFree(other)
      ensures if StateKey(other) in keys' then Consistent(keys', other)
              else ReceiptKeys(keys', other) == {} && forall key :: !Receipt(keys', other, key)
    {
      forall key
        ensures IdemKey(other, key) != StateKey(id) && (StateKey(other) == StateKey(id) ==> other == id)
      {
        KeysDistinct(id, key, other, key);
      }
      assert IdemKey(other, "") == IdemKey(other, "");
      forall k
        ensures k in ReceiptKeys(keys', other) <==> k in ReceiptKeys(keys, other)
      {
        ReceiptKeysAre(keys', other, k);
        ReceiptKeysAre(keys, other, k);
      }
      assert ReceiptKeys(keys', other) == ReceiptKeys(keys, other);
      assert forall key :: Receipt(keys', other, key) <==> Receipt(keys, other, key);
      if other == id {
        FreshConsistent(keys', id);
      } else if StateKey(other) in keys {
        SameViewConsistent(keys, keys', other);
      }
    }
  }

  lemma FreshConsistent(keys: Keys, id: string)
    requires StateKey(id) in keys && keys[StateKey(id)] == StateHash(0, 0)
    requires ReceiptKeys(keys, id) == {} && forall key :: !Receipt(keys, id, key)
    ensures Consistent(keys, id)
  {
  }

  /** Seen from any id, one step moves the index by nothing, or by one together with one new receipt. */
  lemma StepMovesIndexOnce(s: System, step: Step, id: string)
    requires Inv(s) && ColonFreeStep(step) && Mem.ColonFree(id) && StateKey(id) in s.keys
    ensures
      var t := Next(s, step).0;
      && StateKey(id) in t.keys && t.keys[StateKey(id)].StateHash?
      && (|| (&& t.keys[StateKey(id)] == s.keys[StateKey(id)]
              && forall k :: Receipt(t.keys, id, k) <==> Receipt(s.keys, id, k))
          || (&& step.Eval? && s.clients[step.c].req.id == id
              && t.keys[StateKey(id)].index == s.keys[StateKey(id)].index + 1
              && var key := s.clients[step.c].req.key;
              && !Receipt(s.keys, id, key) && Receipt(t.keys, id, key)))
      && (forall k :: Receipt(s.keys, id, k) ==>
            Receipt(t.keys, id, k) && t.keys[IdemKey(id, k)] == s.keys[IdemKey(id, k)])
  {
    hide StateKey, IdemKey, ReceiptKeys, ReadAndValidate;
    assert Consistent(s.keys, id);
    if Enabled(s, step) {
      if step.Eval? {
        var p := s.clients[step.c];
        assert ClientInv(s.keys, p);
        if p.req.id != id {
          ScriptLeavesOthers(s.keys, p.req, p.state, id);
        } else {
          forall k
            ensures IdemKey(id, k) != StateKey(id)
            ensures IdemKey(id, k) == IdemKey(id, p.req.key) ==> k == p.req.key
          {
            KeysDistinct(id, k, id, k);
            KeysDistinct(id, k, id, p.req.key);
          }
        }
      } else if step.CreateId? {
        forall k
          ensures IdemKey(id, k) != StateKey(step.id)
        {
          KeysDistinct(step.id, k, id, k);
        }
      }
    }
  }

  lemma StepKeepsInv(s: System, step: Step)
    requires Inv(s) && ColonFreeStep(step)
    ensures Inv(Next(s, step).0)
  {
    hide StateKey, IdemKey, KeysInv, Consistent, Script, Receipt;
    var t := Next(s, step).0;
    if Enabled(s, step) {
      match step
      case CreateId(id) => CreateKeepsKeysInv(s.keys, id);
      case Exists(c, req) =>
      case Read(c) => assert ClientInv(s.keys, s.clients[c]);
      case Eval(c, _) =>
        var p := s.clients[c];
        assert ClientInv(s.keys, p);
        EvalKeepsKeysInv(s.keys, p.req, p.state);
      case Abort(c) =>
    }
    forall c | c in t.clients
      ensures ClientInv(t.keys, t.clients[c])
    {
      ClientStepInv(s, step, c);
    }
  }

  lemma ClientStepInv(s: System, step: Step, c: nat)
    requires Inv(s) && ColonFreeStep(step) && c in Next(s, step).0.clients
    ensures ClientInv(Next(s, step).0.keys, Next(s, step).0.clients[c])
  {
    hide StateKey, IdemKey, Script, Receipt, ReceiptKeys;
    var t := Next(s, step).0;
    if Enabled(s, step) && step.Exists? && step.c == c {
      assert Consistent(s.keys, step.req.id);
    } else {
      var id := s.clients[c].req.id;
      assert ClientInv(s.keys, s.clients[c]);
      assert Consistent(s.keys, id);
      StepMovesIndexOnce(s, step, id);
    }
  }

  lemma {:induction false} RunKeepsInv(steps: seq<Step>)
    requires forall i :: 0 <= i < |steps| ==> ColonFreeStep(steps[i])
    ensures Inv(Run(steps))
  {
    hide Inv, Next;
    if steps == [] {
      EmptyInv();
    } else {
      RunKeepsInv(steps[..|steps| - 1]);
      StepKeepsInv(Run(steps[..|steps| - 1]), steps[|steps| - 1]);
    }
  }

  lemma EmptyInv()
    ensures Inv(System(map[], map[]))
  {
  }

  /**
   Every interleaving of any number of clients, with lost replies, failures and retries: transition_index
   equals the number of receipts, receipt indices are a bijection with 1..n, and the stored state is the one
   receipt n recorded (Draft when there is none).
   */
  lemma ReceiptsCountTransitions(steps: seq<Step>, id: string)
    requires forall i :: 0 <= i < |steps| ==> ColonFreeStep(steps[i])
    requires Mem.ColonFree(id) && StateKey(id) in Run(steps).keys
    ensures Consistent(Run(steps).keys, id)
    ensures Run(steps).keys[StateKey(id)].index == |ReceiptKeys(Run(steps).keys, id)|
  {
    RunKeepsInv(steps);
  }

  /** Nothing that happens later changes a receipt or lowers the index, so no key is counted twice. */
  lemma {:induction false} ReceiptsArePermanent(steps: seq<Step>, more: seq<Step>, id: string, key: string)
    requires forall i :: 0 <= i < |steps| ==> ColonFreeStep(steps[i])
    requires forall i :: 0 <= i < |more| ==> ColonFreeStep(more[i])
    requires Mem.ColonFree(id) && StateKey(id) in Run(steps).keys && Receipt(Run(steps).keys, id, key)
    ensures StateKey(id) in Run(steps + more).keys && Receipt(Run(steps + more).keys, id, key)
    ensures Run(steps + more).keys[IdemKey(id, key)] == Run(steps).keys[IdemKey(id, key)]
    ensures Run(steps).keys[StateKey(id)].index <= Run(steps + more).keys[StateKey(id)].index
    decreases |more|
  {
    hide StateKey, IdemKey, Inv, Next;
    if more == [] {
      assert steps + more == steps;
    } else {
      var n := |more| - 1;
      ReceiptsArePermanent(steps, more[..n], id, key);
      assert (steps + more)[..|steps + more| - 1] == steps + more[..n];
      RunKeepsInv(steps + more[..n]);
      StepMovesIndexOnce(Run(steps + more[..n]), more[n], id);
    }
  }

  /** A retry whose key already has a receipt gets that receipt back and leaves the server unchanged. */
  lemma RetryAnswersFromReceipt(s: System, c: nat)
    requires Inv(s) && c in s.clients && s.clients[c].Validated?
    requires Receipt(s.keys, s.clients[c].req.id, s.clients[c].req.key)
    ensures
      var r := s.keys[IdemKey(s.clients[c].req.id, s.clients[c].req.key)];
      && Next(s, Eval(c, false)).0.keys == s.keys
      && r.ReceiptHash?
      && Next(s, Eval(c, false)).1
         == Done(Mem.TransitionResult(Mem.AlreadyApplied, IntToState(r.after), IntToState(r.after), r.index))
  {
    hide StateKey, IdemKey, ReceiptKeys;
    var p := s.clients[c];
    assert ClientInv(s.keys, p);
    assert Consistent(s.keys, p.req.id);
  }

  // ---------- agreement with the in-memory coordinator ----------

  /** The two stores hold the same interactions and the same receipts. */
  ghost predicate Agree(keys: Keys, m: Mem.Coordinator) {
    forall id :: Mem.ColonFree(id) ==> AgreeOn(keys, m, id)
  }

  ghost predicate AgreeOn(keys: Keys, m: Mem.Coordinator, id: string) {
    && (StateKey(id) in keys <==> id in m.interactions)
    && (id in m.interactions ==>
          keys[StateKey(id)] == StateHash(StateToInt(m.interactions[id].state), m.interactions[id].index))
    && (forall k :: Receipt(keys, id, k) <==> Mem.IdemKey(id, k) in m.receipts)
    && (forall k :: Receipt(keys, id, k) && Mem.IdemKey(id, k) in m.receipts ==>
          var r := m.receipts[Mem.IdemKey(id, k)];
          keys[IdemKey(id, k)] == ReceiptHash(StateToInt(r.after), r.index, EventToInt(r.event)))
  }

  /** No other transition of the interaction was applied between this client's read and its script. */
  predicate Unsplit(s: System, step: Step) {
    (step.Eval? && Enabled(s, step) && StateKey(s.clients[step.c].req.id) in s.keys) ==>
      s.keys[StateKey(s.clients[step.c].req.id)].index == s.clients[step.c].index
  }

  function MemTransition(m: Mem.Coordinator, req: Request): (Mem.Coordinator, Result) {
    Mem.Transition(m, req.id, req.event, req.key)
  }

  /** The in-memory call a step stands for, if any: scripts linearise where they run. */
  function LinearOp(s: System, step: Step): seq<Mem.Op> {
    if !Enabled(s, step) then []
    else if step.CreateId? then [Mem.CreateOp(step.id)]
    else if step.Eval? then
      var req := s.clients[step.c].req;
      [Mem.TransitionOp(req.id, req.event, req.key)]
    else []
  }

  function Linear(steps: seq<Step>): seq<Mem.Op> {
    if steps == [] then [] else
      Linear(steps[..|steps| - 1]) + LinearOp(Run(steps[..|steps| - 1]), steps[|steps| - 1])
  }

  /** What a client is told, against what the in-memory coordinator would have said at that moment. */
  ghost predicate SameAnswer(s: System, m: Mem.Coordinator, step: Step) {
    var response := Next(s, step).1;
    Enabled(s, step) && response.Done? ==>
      match step
      case CreateId(_) => true
      case Exists(_, req) => response.result == MemTransition(m, req).1
      case Read(c) =>
        var req := s.clients[c].req;
        if Mem.IdemKey(req.id, req.key) in m.receipts then
          response.result.outcome == Mem.InvalidTransition && MemTransition(m, req).1.outcome == Mem.AlreadyApplied
        else response.result == MemTransition(m, req).1
      case Eval(c, lost) =>
        response.result == if lost then FAILED else MemTransition(m, s.clients[c].req).1
      case Abort(_) => response.result == FAILED
  }

  lemma StateRoundTrip(s: State)
    ensures IntToState(StateToInt(s)) == s
  {
  }

  lemma MemOthers(m: Mem.Coordinator, req: Request, id: string)
    requires Mem.ColonFree(req.id) && Mem.ColonFree(id) && id != req.id
    ensures
      var m' := MemTransition(m, req).0;
      && (id in m'.interactions <==> id in m.interactions)
      && (id in m.interactions ==> m'.interactions[id] == m.interactions[id])
      && (forall k :: Mem.IdemKey(id, k) in m'.receipts <==> Mem.IdemKey(id, k) in m.receipts)
      && (forall k :: Mem.IdemKey(id, k) in m.receipts ==>
            m'.receipts[Mem.IdemKey(id, k)] == m.receipts[Mem.IdemKey(id, k)])
  {
    hide Mem.IdemKey;
    forall k
      ensures Mem.IdemKey(id, k) != Mem.IdemKey(req.id, req.key)
    {
      if Mem.IdemKey(id, k) == Mem.IdemKey(req.id, req.key) {
        Mem.IdemKeyInjective(id, k, req.id, req.key);
      }
    }
  }

  lemma OwnKeysDistinct(id: string, key: string)
    requires Mem.ColonFree(id)
    ensures forall k :: IdemKey(id, k) != StateKey(id)
    ensures forall k :: IdemKey(id, k) == IdemKey(id, key) ==> k == key
    ensures forall k :: Mem.IdemKey(id, k) == Mem.IdemKey(id, key) ==> k == key
  {
    forall k
      ensures IdemKey(id, k) != StateKey(id)
      ensures IdemKey(id, k) == IdemKey(id, key) ==> k == key
      ensures Mem.IdemKey(id, k) == Mem.IdemKey(id, key) ==> k == key
    {
      KeysDistinct(id, k, id, k);
      KeysDistinct(id, k, id, key);
      if Mem.IdemKey(id, k) == Mem.IdemKey(id, key) {
        Mem.IdemKeyInjective(id, k, id, key);
      }
    }
  }

  /**
   The script agrees with the in-memory coordinator exactly when its key is already recorded or the state
   current when it runs allows the event: the comparison the script does not make.
   */
  lemma ScriptAgreesIff(keys: Keys, m: Mem.Coordinator, req: Request, state: State)
    requires Agree(keys, m) && Mem.ColonFree(req.id) && req.id in m.interactions
    requires CanTransition(state, req.event)
    ensures Agree(EvalScript(keys, req, state).0, MemTransition(m, req).0) <==>
            || Mem.IdemKey(req.id, req.key) in m.receipts
            || CanTransition(m.interactions[req.id].state, req.event)
    ensures Agree(EvalScript(keys, req, state).0, MemTransition(m, req).0) ==>
            Parse(EvalScript(keys, req, state).1) == MemTransition(m, req).1
  {
    hide StateKey, IdemKey, Mem.IdemKey;
    var (keys', reply) := EvalScript(keys, req, state);
    var (m', result) := MemTransition(m, req);
    assert AgreeOn(keys, m, req.id);
    assert Receipt(keys, req.id, req.key) <==> Mem.IdemKey(req.id, req.key) in m.receipts;
    OwnKeysDistinct(req.id, req.key);
    if Mem.IdemKey(req.id, req.key) in m.receipts || CanTransition(m.interactions[req.id].state, req.event) {
      forall id | Mem.ColonFree(id)
        ensures AgreeOn(keys', m', id)
      {
        assert AgreeOn(keys, m, id);
        if id != req.id {
          ScriptLeavesOthers(keys, req, state, id);
          MemOthers(m, req, id);
        }
      }
    } else {
      assert !AgreeOn(keys', m', req.id);
    }
  }

  lemma CreateAgrees(keys: Keys, m: Mem.Coordinator, id: string)
    requires Agree(keys, m) && Mem.ColonFree(id) && StateKey(id) !in keys
    ensures Agree(keys[StateKey(id) := StateHash(0, 0)], Mem.Create(m, id).0)
  {
    hide StateKey, IdemKey, Mem.IdemKey;
    var keys', m' := keys[StateKey(id) := StateHash(0, 0)], Mem.Create(m, id).0;
    assert AgreeOn(keys, m, id);
    forall other | Mem.ColonFree(other)
      ensures AgreeOn(keys', m', other)
    {
      assert AgreeOn(keys, m, other);
      forall k
        ensures IdemKey(other, k) != StateKey(id) && (StateKey(other) == StateKey(id) ==> other == id)
      {
        KeysDistinct(id, k, other, k);
      }
      assert IdemKey(other, "") == IdemKey(other, "");
    }
  }

  function MemSteps(m: Mem.Coordinator, ops: seq<Mem.Op>): Mem.Coordinator {
    if ops == [] then m else Mem.Step(m, ops[0])
  }

  /** One unsplit step: the stores still agree, and so do the answers, except on replays not let through. */
  lemma UnsplitStepAgrees(s: System, m: Mem.Coordinator, step: Step)
    requires Inv(s) && Agree(s.keys, m) && ColonFreeStep(step) && Unsplit(s, step)
    ensures SameAnswer(s, m, step)
    ensures Agree(Next(s, step).0.keys, MemSteps(m, LinearOp(s, step)))
  {
    hide StateKey, IdemKey, Mem.IdemKey, KeysInv, Agree, Script, EvalScript;
    if Enabled(s, step) {
      match step
      case CreateId(id) => CreateAgrees(s.keys, m, id);
      case Exists(c, req) => AgreeAt(s.keys, m, req.id);
      case Read(c) =>
        var p := s.clients[c];
        assert ClientInv(s.keys, p);
        AgreeAt(s.keys, m, p.req.id);
        assert Receipt(s.keys, p.req.id, p.req.key) <==> Mem.IdemKey(p.req.id, p.req.key) in m.receipts;
        StateRoundTrip(m.interactions[p.req.id].state);
      case Eval(c, lost) =>
        var p := s.clients[c];
        assert ClientInv(s.keys, p);
        AgreeAt(s.keys, m, p.req.id);
        StateRoundTrip(p.state);
        StateRoundTrip(m.interactions[p.req.id].state);
        ScriptAgreesIff(s.keys, m, p.req, p.state);
      case Abort(c) =>
    }
  }

  lemma AgreeAt(keys: Keys, m: Mem.Coordinator, id: string)
    requires Agree(keys, m) && Mem.ColonFree(id)
    ensures AgreeOn(keys, m, id)
  {
  }

  /** A run over ids without ':' in which no transition is split by another on the same interaction. */
  ghost predicate UnsplitRun(steps: seq<Step>) {
    steps == [] ||
    var n := |steps| - 1;
    UnsplitRun(steps[..n]) && ColonFreeStep(steps[n]) && Unsplit(Run(steps[..n]), steps[n])
  }

  /**
   After every unsplit run the server holds exactly what the in-memory coordinator holds after the same calls
   in the order the scripts ran.
   */
  lemma {:induction false} UnsplitRunsAgree(steps: seq<Step>)
    requires UnsplitRun(steps)
    ensures Inv(Run(steps)) && Agree(Run(steps).keys, Mem.Run(Linear(steps)))
  {
    hide Inv, Agree, SameAnswer, Unsplit, Next, LinearOp, Mem.Step;
    if steps == [] {
      EmptyInv();
      EmptyAgrees();
    } else {
      var before, step := steps[..|steps| - 1], steps[|steps| - 1];
      UnsplitRunsAgree(before);
      StepKeepsInv(Run(before), step);
      UnsplitStepAgrees(Run(before), Mem.Run(Linear(before)), step);
      MemRunSnoc(Linear(before), Run(before), step);
    }
  }

  /** In an unsplit run every client is told what the in-memory one would have said, replays not let through apart. */
  lemma UnsplitAnswersAgree(steps: seq<Step>, step: Step)
    requires UnsplitRun(steps + [step])
    ensures SameAnswer(Run(steps), Mem.Run(Linear(steps)), step)
  {
    hide SameAnswer, Unsplit, Inv, Agree;
    assert (steps + [step])[..|steps|] == steps;
    UnsplitRunsAgree(steps);
    UnsplitStepAgrees(Run(steps), Mem.Run(Linear(steps)), step);
  }

  lemma {:induction false} LinearColonFree(steps: seq<Step>)
    requires UnsplitRun(steps)
    ensures forall op :: op in Linear(steps) ==> Mem.ColonFree(op.id)
  {
    hide Agree, Unsplit, Next, KeysInv, StateKey;
    if steps != [] {
      var before, step := steps[..|steps| - 1], steps[|steps| - 1];
      LinearColonFree(before);
      UnsplitRunsAgree(before);
      if step.Eval? && Enabled(Run(before), step) {
        assert ClientInv(Run(before).keys, Run(before).clients[step.c]);
      }
    }
  }

  /** So in unsplit runs the stored state is the end of a legal history, one event per index, at most four. */
  lemma UnsplitHistoryLegal(steps: seq<Step>, id: string) returns (events: seq<Event>)
    requires UnsplitRun(steps) && Mem.ColonFree(id) && StateKey(id) in Run(steps).keys
    ensures Legal(events) && |events| <= 4
    ensures Run(steps).keys[StateKey(id)] == StateHash(StateToInt(After(events)), |events|)
  {
    hide StateKey;
    UnsplitRunsAgree(steps);
    AgreeAt(Run(steps).keys, Mem.Run(Linear(steps)), id);
    LinearColonFree(steps);
    events := Mem.ReceiptsExplainState(Linear(steps), id);
  }

  lemma EmptyAgrees()
    ensures Agree(map[], Mem.EMPTY)
  {
  }

  lemma MemRunSnoc(ops: seq<Mem.Op>, s: System, step: Step)
    ensures Mem.Run(ops + LinearOp(s, step)) == MemSteps(Mem.Run(ops), LinearOp(s, step))
  {
    var more := LinearOp(s, step);
    if more == [] {
      assert ops + more == ops;
    } else {
      assert (ops + more)[..|ops|] == ops;
    }
  }

  // ---------- promises the interleavings break ----------

  /**
   The advertised compare-and-set is absent: a client that validated Prepare in Draft takes the interaction
   from Closed back to Ready.
   */
  lemma SplitCallReopensClosed() returns (before: seq<Step>)
    ensures
      var prepare, close := Request("i", Prepare, "p"), Request("i", Close, "q");
      before == [CreateId("i"), Exists(0, prepare), Read(0), Exists(1, close), Read(1), Eval(1, false)]
    ensures StateKey("i") in Run(before).keys && Run(before).keys[StateKey("i")] == StateHash(StateToInt(Closed), 1)
    ensures Next(Run(before), Eval(0, false)).1 == Done(Mem.TransitionResult(Mem.Applied, Closed, Ready, 2))
    ensures !CanTransition(Closed, Prepare)
  {
    hide StateKey, IdemKey, Run;
    var prepare, close := Request("i", Prepare, "p"), Request("i", Close, "q");
    KeysDistinct("i", "p", "i", "q");
    KeysDistinct("i", "p", "i", "p");
    assert "p"[0] != "q"[0];
    ReadTwice(prepare, close);
    var r5 := [CreateId("i"), Exists(0, prepare), Read(0), Exists(1, close), Read(1)];
    before := r5 + [Eval(1, false)];
    RunSnoc(r5, Eval(1, false));
  }

  /** Both clients read the draft before either runs its script. */
  lemma ReadTwice(prepare: Request, close: Request)
    requires prepare == Request("i", Prepare, "p") && close == Request("i", Close, "q")
    ensures Run([CreateId("i"), Exists(0, prepare), Read(0), Exists(1, close), Read(1)]) ==
            System(map[StateKey("i") := StateHash(0, 0)],
                   map[0 := Validated(prepare, Draft, 0), 1 := Validated(close, Draft, 0)])
  {
    hide StateKey, IdemKey, Run, EvalScript;
    var keys := map[StateKey("i") := StateHash(0, 0)];
    EmptyRun();
    var r1 := [] + [CreateId("i")];
    RunSnoc([], CreateId("i"));
    var r2 := r1 + [Exists(0, prepare)];
    RunSnoc(r1, Exists(0, prepare));
    assert Run(r2) == System(keys, map[0 := Checked(prepare)]);
    var r3 := r2 + [Read(0)];
    RunSnoc(r2, Read(0));
    assert Run(r3) == System(keys, map[0 := Validated(prepare, Draft, 0)]);
    var r4 := r3 + [Exists(1, close)];
    RunSnoc(r3, Exists(1, close));
    RunSnoc(r4, Read(1));
    assert r4 + [Read(1)] == [CreateId("i"), Exists(0, prepare), Read(0), Exists(1, close), Read(1)];
  }

  lemma EmptyRun()
    ensures Run([]) == System(map[], map[])
  {
  }

  lemma RunSnoc(steps: seq<Step>, step: Step)
    ensures Run(steps + [step]) == Next(Run(steps), step).0
  {
    assert (steps + [step])[..|steps|] == steps;
  }

  /** What the four writes of a create leave, once its existence check has passed. */
  function CreateWrites(keys: Keys, id: string): Keys { keys[StateKey(id) := StateHash(0, 0)] }

  /** A create whose check and writes are separated by an applied transition wipes the index and keeps the receipt. */
  lemma LateCreateLosesCount(s: System, id: string)
    requires Inv(s) && Mem.ColonFree(id) && StateKey(id) in s.keys
    ensures Consistent(CreateWrites(s.keys, id), id) <==> s.keys[StateKey(id)].index == 0
  {
    hide StateKey, IdemKey;
    var keys' := CreateWrites(s.keys, id);
    assert Consistent(s.keys, id);
    assert ReceiptKeys(keys', id) == ReceiptKeys(s.keys, id);
    if s.keys[StateKey(id)].index == 0 {
      assert keys' == s.keys;
    }
  }

  // ---------- the objects ----------

  class RedisServer {
    var keys: Keys

    method EvalSha(stateKey: string, idemKey: string, event: int, newState: int) returns (reply: Reply)
      modifies this
      ensures (keys, reply) == Script(old(keys), stateKey, idemKey, event, newState)
    {
      if stateKey !in keys {
        return Reply(3, 0, 0, 0);
      }
      if idemKey in keys {
        var r := keys[idemKey];
        if !r.ReceiptHash? {
          return ScriptError;
        }
        return Reply(1, r.after, r.after, r.index);
      }
      if !keys[stateKey].StateHash? {
        return ScriptError;
      }
      var currentState, currentIndex := keys[stateKey].state, keys[stateKey].index;
      var nextIndex := currentIndex + 1;
      keys := keys[stateKey := StateHash(newState, currentIndex)];
      keys := keys[stateKey := StateHash(newState, nextIndex)];
      assert keys == old(keys)[stateKey := StateHash(newState, nextIndex)];
      keys := keys[idemKey := ReceiptHash(newState, nextIndex, event)];
      return Reply(0, currentState, newState, nextIndex);
    }
  }

  /** A call run without interference: the three steps of a client in a row. */
  function Alone(keys: Keys, req: Request): (Keys, Result) {
    var (s1, r1) := Next(System(keys, map[]), Exists(0, req));
    if r1.Done? then (s1.keys, r1.result) else
      var (s2, r2) := Next(s1, Read(0));
      if r2.Done? then (s2.keys, r2.result) else
        var (s3, r3) := Next(s2, Eval(0, false));
        (s3.keys, if r3.Done? then r3.result else FAILED)
  }

  /**
   An uninterrupted call leaves the same interactions and receipts as the in-memory one, and answers alike
   except when the key is recorded and its event is no longer allowed: the event is checked before the key.
   */
  lemma UninterruptedCallAgrees(keys: Keys, m: Mem.Coordinator, req: Request)
    requires KeysInv(keys) && Agree(keys, m) && Mem.ColonFree(req.id)
    ensures Agree(Alone(keys, req).0, MemTransition(m, req).0)
    ensures Alone(keys, req).1 == MemTransition(m, req).1 <==>
            !(&& req.id in m.interactions && Mem.IdemKey(req.id, req.key) in m.receipts
              && !CanTransition(m.interactions[req.id].state, req.event))
  {
    hide StateKey, IdemKey, Mem.IdemKey, KeysInv, Agree, Script, EvalScript;
    AgreeAt(keys, m, req.id);
    if req.id in m.interactions {
      var state := m.interactions[req.id].state;
      StateRoundTrip(state);
      if CanTransition(state, req.event) {
        ScriptAgreesIff(keys, m, req, state);
      }
    }
  }

  /** So an uninterrupted close of an open interaction under a fresh key is applied on the server too. */
  lemma CloseAppliesAlone(keys: Keys, m: Mem.Coordinator, id: string, key: string)
    requires KeysInv(keys) && Agree(keys, m) && Mem.ColonFree(id)
    requires id in m.interactions && m.interactions[id].state != Closed && Mem.IdemKey(id, key) !in m.receipts
    ensures Alone(keys, Request(id, Close, key)).1 ==
            Mem.TransitionResult(Mem.Applied, m.interactions[id].state, Closed, m.interactions[id].index + 1)
  {
    hide KeysInv, Agree, Alone, Mem.IdemKey;
    UninterruptedCallAgrees(keys, m, Request(id, Close, key));
    TransitionTable(m.interactions[id].state, Close);
  }

  /** Which of its replies the script gives, and that only the reply of an applied call goes with a write. */
  lemma ScriptReplies(keys: Keys, stateKey: string, idemKey: string, event: int, newState: int)
    ensures
      var (keys', reply) := Script(keys, stateKey, idemKey, event, newState);
      var present, recorded := stateKey in keys, idemKey in keys;
      && (reply == Reply(3, 0, 0, 0) <==> !present)
      && (reply == ScriptError <==>
            present && if recorded then !keys[idemKey].ReceiptHash? else !keys[stateKey].StateHash?)
      && (present && recorded && keys[idemKey].ReceiptHash? ==> reply.Reply? && reply.outcome == 1)
      && (reply.Reply? && reply.outcome == 0 <==> present && !recorded && keys[stateKey].StateHash?)
      && (!(reply.Reply? && reply.outcome == 0) ==> keys' == keys)
  {
  }

  /** The codes and keys other programs read. */
  lemma CodesAndKeys()
    ensures StateToInt(Draft) == 0 && StateToInt(Ready) == 1 && StateToInt(Sent) == 2
    ensures StateToInt(Responded) == 3 && StateToInt(Closed) == 4
    ensures EventToInt(Prepare) == 0 && EventToInt(Send) == 1 && EventToInt(ReceiveReply) == 2 && EventToInt(Close) == 3
    ensures forall s :: IntToState(StateToInt(s)) == s
    ensures StateKey("7") == "ccmcp:interaction:7:state" && IdemKey("7", "k") == "ccmcp:interaction:7:idem:k"
    ensures Parse(Reply(0, 0, 1, 1)) == Mem.TransitionResult(Mem.Applied, Draft, Ready, 1)
    ensures Parse(Reply(1, 1, 1, 1)) == Mem.TransitionResult(Mem.AlreadyApplied, Ready, Ready, 1)
    ensures Parse(Reply(2, 0, 0, 0)).outcome == Mem.Conflict && Parse(Reply(3, 0, 0, 0)).outcome == Mem.NotFound
    ensures forall o :: !(0 <= o <= 3) ==> Parse(Reply(o, 0, 0, 0)).outcome == Mem.BackendError
    ensures Parse(ScriptError) == Mem.TransitionResult(Mem.BackendError, Draft, Draft, 0)
  {
  }

  class RedisInteractionCoordinator {
    const redis: RedisServer

    constructor (redis: RedisServer)
      ensures this.redis == redis
    {
      this.redis := redis;
    }

    method ApplyTransition(req: Request) returns (result: Result)
      modifies redis
      ensures (redis.keys, result) == Alone(old(redis.keys), req)
    {
      hide StateKey, IdemKey;
      var stateKey, idemKey := StateKey(req.id), IdemKey(req.id, req.key);
      if stateKey !in redis.keys {
        return Mem.TransitionResult(Mem.NotFound, Draft, Draft, 0);
      }
      var stateMap := redis.keys[stateKey];
      if !stateMap.StateHash? {
        return FAILED;
      }
      var currentState := IntToState(stateMap.state);
      if !CanTransition(currentState, req.event) {
        return Mem.TransitionResult(Mem.InvalidTransition, currentState, currentState, stateMap.index);
      }
      var newState := ApplyEvent(currentState, req.event);
      var reply := redis.EvalSha(stateKey, idemKey, EventToInt(req.event), StateToInt(newState));
      return Parse(reply);
    }
  }
}
