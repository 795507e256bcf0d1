/** The interaction state machine (src/domain/interaction.cpp). */
module Interaction {
  datatype State = Draft | Ready | Sent | Responded | Closed

  datatype Event = Prepare | Send | ReceiveReply | Close

  predicate CanTransition(s: State, e: Event) {
    match s
    case Draft => e == Prepare || e == Close
    case Ready => e == Send || e == Close
    case Sent => e == ReceiveReply || e == Close
    case Responded => e == Close
    case Closed => false
  }

  /** Where an accepted event leads; the source state does not matter. */
  function Target(e: Event): State {
    match e
    case Prepare => Ready
    case Send => Sent
    case ReceiveReply => Responded
    case Close => Closed
  }

  /** The state an event list leads to from Draft. */
  function After(events: seq<Event>): State {
    if events == [] then Draft else Target(events[|events| - 1])
  }

  /** Each event is allowed where the ones before it lead. */
  predicate Legal(events: seq<Event>) {
    events == [] ||
    (Legal(events[..|events| - 1]) && CanTransition(After(events[..|events| - 1]), events[|events| - 1]))
  }

  function Rank(s: State): nat {
    match s
    case Draft => 0
    case Ready => 1
    case Sent => 2
    case Responded => 3
    case Closed => 4
  }

  /** The table through ranks: an open interaction may close, or move to the state of the next rank; nothing else. */
  lemma TransitionTable(s: State, e: Event)
    ensures CanTransition(s, e) <==> s != Closed && (e == Close || Rank(Target(e)) == Rank(s) + 1)
    ensures Target(Prepare) == Ready && Target(Send) == Sent
    ensures Target(ReceiveReply) == Responded && Target(Close) == Closed
  {
  }

  /** Every state is reached, each open one by a history of exactly as many events as its rank. */
  lemma EveryStateReached(s: State) returns (events: seq<Event>)
    ensures Legal(events) && After(events) == s && (s != Closed ==> |events| == Rank(s))
  {
    if s == Closed {
      events := [Close];
      assert [Close][..0] == [];
    } else {
      events := [Prepare, Send, ReceiveReply][..Rank(s)];
      StraightHistory(Rank(s));
    }
  }

  lemma {:induction false} StraightHistory(n: nat)
    requires n <= 3
    ensures
      var events := [Prepare, Send, ReceiveReply][..n];
      Legal(events) && Rank(After(events)) == n && After(events) != Closed
  {
    if n > 0 {
      StraightHistory(n - 1);
      var events := [Prepare, Send, ReceiveReply][..n];
      assert events[..n - 1] == [Prepare, Send, ReceiveReply][..n - 1];
    }
  }

  /** An open interaction tells its age: every legal history to it has as many events as its rank. */
  lemma {:induction false} OpenStateTellsLength(events: seq<Event>)
    requires Legal(events) && After(events) != Closed
    ensures |events| == Rank(After(events))
  {
    if events != [] {
      TransitionTable(After(events[..|events| - 1]), events[|events| - 1]);
      OpenStateTellsLength(events[..|events| - 1]);
    }
  }

  lemma {:induction false} LegalRises(events: seq<Event>, i: nat)
    requires Legal(events) && i < |events|
    ensures Legal(events[..i])
    ensures Rank(After(events[..i])) < Rank(Target(events[i])) <= Rank(After(events))
    ensures |events| <= Rank(After(events))
  {
    var n := |events| - 1;
    if i < n {
      LegalRises(events[..n], i);
      assert events[..n][..i] == events[..i];
    } else if n > 0 {
      LegalRises(events[..n], n - 1);
    }
  }

  /** A legal history has at most four events and uses no event twice. */
  lemma LegalHistoryIsShort(events: seq<Event>)
    requires Legal(events)
    ensures |events| <= 4
    ensures forall i, j :: 0 <= i < j < |events| ==> events[i] != events[j]
  {
    if events != [] {
      LegalRises(events, 0);
    }
    forall i, j | 0 <= i < j < |events|
      ensures events[i] != events[j]
    {
      LegalRises(events, j);
      LegalRises(events[..j], i);
    }
  }

  class InteractionRecord {
    var state: State

    constructor ()
      ensures state == Draft
    {
      state := Draft;
    }

    method Apply(event: Event) returns (applied: bool)
      modifies this
      ensures applied <==> CanTransition(old(state), event)
      ensures state == if applied then Target(event) else old(state)
      ensures applied ==> Rank(old(state)) < Rank(state)
    {
      if !CanTransition(state, event) {
        return false;
      }
      match event {
        case Prepare => state := Ready;
        case Send => state := Sent;
        case ReceiveReply => state := Responded;
        case Close => state := Closed;
      }
      return true;
    }
  }
}
