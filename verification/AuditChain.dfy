/** Audit events, their serialised form, and the per-trace hash chain (src/storage/audit_chain.cpp). */
module AuditChain {
  import opened Octets
  import opened Fips180
  import Sha256

  datatype AuditEvent = AuditEvent(
    eventId: Bytes, traceId: Bytes, eventType: Bytes, payload: Bytes, createdAt: Bytes,
    refs: seq<Bytes>, previousHash: Bytes, eventHash: Bytes)

  function GenesisHash(): (g: Bytes)
    ensures |g| == 64 && forall i :: 0 <= i < 64 ==> g[i] == 48
  {
    seq(64, _ => 48)
  }

  // ---------- the JSON text that is hashed (RFC 8259 strings, keys in alphabetical order) ----------

  const QUOTE: byte := 34
  const BACKSLASH: byte := 92

  /** One byte inside a JSON string literal. */
  function Escape(b: byte): (e: Bytes)
    ensures |e| > 0 && e[0] != QUOTE
  {
    if b == QUOTE || b == BACKSLASH then [BACKSLASH, b]
    else if b == 8 then [BACKSLASH, 98]
    else if b == 9 then [BACKSLASH, 116]
    else if b == 10 then [BACKSLASH, 110]
    else if b == 12 then [BACKSLASH, 102]
    else if b == 13 then [BACKSLASH, 114]
    else if b < 32 then [BACKSLASH, 117, 48, 48, HexDigit(b as int / 16), HexDigit(b as int % 16)]
    else [b]
  }

  function EscapeAll(s: Bytes): (r: Bytes)
    ensures s != [] ==> |r| > 0 && r[0] != QUOTE
  {
    if s == [] then [] else Escape(s[0]) + EscapeAll(s[1..])
  }

  function JsonString(s: Bytes): (r: Bytes)
    ensures |r| > 0 && r[0] == QUOTE
  {
    [QUOTE] + (EscapeAll(s) + [QUOTE])
  }

  /** What follows the opening bracket or an element of an array. */
  function JsonElements(refs: seq<Bytes>, first: bool): (r: Bytes)
    ensures |r| > 0 && r[0] == if refs == [] then 93 else if first then QUOTE else 44
  {
    if refs == [] then [93]
    else (if first then [] else [44]) + (JsonString(refs[0]) + JsonElements(refs[1..], false))
  }

  /** An object member with a string value, and the text after it. */
  function Member(key: string, value: Bytes, rest: Bytes): Bytes {
    Ascii(key) + (JsonString(value) + rest)
  }

  /** The serialised event followed by the previous hash. */
  function HashInput(e: AuditEvent, previousHash: Bytes): Bytes {
    Member("{\"created_at\":", e.createdAt,
    Member(",\"event_id\":", e.eventId,
    Member(",\"event_type\":", e.eventType,
    Member(",\"payload\":", e.payload,
    Ascii(",\"refs\":[") + (JsonElements(e.refs, true) +
    Member(",\"trace_id\":", e.traceId, Ascii("}") + previousHash))))))
  }

  function Dump(e: AuditEvent): Bytes { HashInput(e, []) }

  /** The fields that go into the hash. */
  predicate SameContent(e: AuditEvent, f: AuditEvent) {
    e.(previousHash := [], eventHash := []) == f.(previousHash := [], eventHash := [])
  }

  lemma CancelPrefix(p: Bytes, u: Bytes, v: Bytes)
    requires p + u == p + v
    ensures u == v
  {
    assert u == (p + u)[|p|..] && v == (p + v)[|p|..];
  }

  /** The byte a hex digit, upper or lower case, stands for; -1 for any other byte. */
  function HexValue(b: byte): int {
    if 48 <= b <= 57 then b as int - 48
    else if 65 <= b <= 70 then b as int - 55
    else if 97 <= b <= 102 then b as int - 87
    else -1
  }

  /** The byte below 256 one JSON character denotes (section 7 of RFC 8259); -1 when it is not one such character. */
  function JsonChar(e: Bytes): int {
    if |e| == 1 then if e[0] == QUOTE || e[0] == BACKSLASH || e[0] < 32 then -1 else e[0] as int
    else if |e| == 2 && e[0] == BACKSLASH then
      match e[1]
      case 34 => 34
      case 92 => 92
      case 47 => 47
      case 98 => 8
      case 102 => 12
      case 110 => 10
      case 114 => 13
      case 116 => 9
      case _ => -1
    else if |e| == 6 && e[..4] == [BACKSLASH, 117, 48, 48] && HexValue(e[4]) >= 0 && HexValue(e[5]) >= 0 then
      16 * HexValue(e[4]) + HexValue(e[5])
    else -1
  }

  /** Every byte is written as a JSON character that denotes it. */
  lemma EscapeMeans(b: byte)
    ensures JsonChar(Escape(b)) == b as int
  {
    if b < 32 {
      assert b as int / 16 * 16 + b as int % 16 == b as int;
    }
  }

  /** No letter A to Z, so that hex digits are lower-case. */
  predicate NoCapital(e: Bytes) { forall i :: 0 <= i < |e| ==> !(65 <= e[i] <= 90) }

  /** The form chosen for a byte is a shortest one, with lower-case digits where it needs digits. */
  lemma EscapeIsShortest(b: byte, e: Bytes)
    requires JsonChar(e) == b as int
    ensures |Escape(b)| <= |e|
    ensures |Escape(b)| == 6 ==> NoCapital(Escape(b))
  {
  }

  /** It is the only such form. */
  lemma EscapeIsOnlyForm(b: byte, e: Bytes)
    requires JsonChar(e) == b as int && |e| == |Escape(b)| && (|e| == 6 ==> NoCapital(e))
    ensures e == Escape(b)
  {
    if |e| == 6 {
      assert e == e[..4] + [e[4], e[5]];
    }
  }

  /** Escapes form a prefix-free code. */
  lemma EscapePrefixFree(a: byte, b: byte, u: Bytes, v: Bytes)
    requires Escape(a) + u == Escape(b) + v
    ensures a == b && u == v
  {
    var x, y := Escape(a) + u, Escape(b) + v;
    assert x[0] == Escape(a)[0] && y[0] == Escape(b)[0];
    if x[0] == BACKSLASH {
      assert x[1] == Escape(a)[1] && y[1] == Escape(b)[1];
      if x[1] == 117 {
        assert x[4] == Escape(a)[4] && y[4] == Escape(b)[4];
        assert x[5] == Escape(a)[5] && y[5] == Escape(b)[5];
      }
    }
    assert a == b;
    CancelPrefix(Escape(a), u, v);
  }

  lemma {:induction false} StringBodyPrefixFree(s: Bytes, t: Bytes, u: Bytes, v: Bytes)
    requires EscapeAll(s) + ([QUOTE] + u) == EscapeAll(t) + ([QUOTE] + v)
    ensures s == t && u == v
  {
    hide Escape;
    var x, y := EscapeAll(s) + ([QUOTE] + u), EscapeAll(t) + ([QUOTE] + v);
    assert x[0] == (EscapeAll(s) + [QUOTE])[0] && y[0] == (EscapeAll(t) + [QUOTE])[0];
    if s == [] || t == [] {
      assert s == t;
      assert x == [QUOTE] + u && y == [QUOTE] + v;
      CancelPrefix([QUOTE], u, v);
    } else {
      var s', t' := EscapeAll(s[1..]) + ([QUOTE] + u), EscapeAll(t[1..]) + ([QUOTE] + v);
      assert x == Escape(s[0]) + s' && y == Escape(t[0]) + t';
      EscapePrefixFree(s[0], t[0], s', t');
      StringBodyPrefixFree(s[1..], t[1..], u, v);
    }
  }

  lemma JsonStringPrefixFree(s: Bytes, t: Bytes, u: Bytes, v: Bytes)
    requires JsonString(s) + u == JsonString(t) + v
    ensures s == t && u == v
  {
    var x, y := EscapeAll(s) + ([QUOTE] + u), EscapeAll(t) + ([QUOTE] + v);
    assert JsonString(s) + u == [QUOTE] + x && JsonString(t) + v == [QUOTE] + y;
    CancelPrefix([QUOTE], x, y);
    StringBodyPrefixFree(s, t, u, v);
  }

  lemma {:induction false} JsonElementsPrefixFree(a: seq<Bytes>, b: seq<Bytes>, first: bool, u: Bytes, v: Bytes)
    requires JsonElements(a, first) + u == JsonElements(b, first) + v
    ensures a == b && u == v
  {
    hide JsonString;
    var x, y := JsonElements(a, first) + u, JsonElements(b, first) + v;
    assert x[0] == JsonElements(a, first)[0] && y[0] == JsonElements(b, first)[0];
    if a == [] || b == [] {
      assert a == b;
      CancelPrefix([93], u, v);
    } else {
      var a', b' := JsonElements(a[1..], false) + u, JsonElements(b[1..], false) + v;
      var sep: Bytes := if first then [] else [44];
      assert x == sep + (JsonString(a[0]) + a') && y == sep + (JsonString(b[0]) + b');
      CancelPrefix(sep, JsonString(a[0]) + a', JsonString(b[0]) + b');
      JsonStringPrefixFree(a[0], b[0], a', b');
      JsonElementsPrefixFree(a[1..], b[1..], false, u, v);
    }
  }

  lemma MemberPrefixFree(key: string, s: Bytes, t: Bytes, u: Bytes, v: Bytes)
    requires Member(key, s, u) == Member(key, t, v)
    ensures s == t && u == v
  {
    CancelPrefix(Ascii(key), JsonString(s) + u, JsonString(t) + v);
    JsonStringPrefixFree(s, t, u, v);
  }

  lemma MemberThen(key: string, value: Bytes, rest: Bytes, tail: Bytes)
    ensures Member(key, value, rest + tail) == Member(key, value, rest) + tail
  {
    var q := JsonString(value);
    assert q + (rest + tail) == (q + rest) + tail;
  }

  /** What is hashed is the serialised event with the previous hash appended. */
  lemma HashInputIsDumpThenHash(e: AuditEvent, p: Bytes)
    ensures HashInput(e, p) == Dump(e) + p
  {
    hide Member, JsonElements;
    var r5, r5p := Ascii("}") + [], Ascii("}") + p;
    assert r5p == r5 + p;
    MemberThen(",\"trace_id\":", e.traceId, r5, p);
    var t, tp := Member(",\"trace_id\":", e.traceId, r5), Member(",\"trace_id\":", e.traceId, r5p);
    var els, key := JsonElements(e.refs, true), Ascii(",\"refs\":[");
    assert key + (els + tp) == (key + (els + t)) + p;
    var r4 := key + (els + t);
    MemberThen(",\"payload\":", e.payload, r4, p);
    var r3 := Member(",\"payload\":", e.payload, r4);
    MemberThen(",\"event_type\":", e.eventType, r3, p);
    var r2 := Member(",\"event_type\":", e.eventType, r3);
    MemberThen(",\"event_id\":", e.eventId, r2, p);
    MemberThen("{\"created_at\":", e.createdAt, Member(",\"event_id\":", e.eventId, r2), p);
  }

  /** The hashed text determines every hashed field and the previous hash. */
  lemma HashInputInjective(e: AuditEvent, f: AuditEvent, p: Bytes, q: Bytes)
    requires HashInput(e, p) == HashInput(f, q)
    ensures SameContent(e, f) && p == q
  {
    hide Member, JsonElements;
    var e5, f5 := Ascii("}") + p, Ascii("}") + q;
    var et, ft := Member(",\"trace_id\":", e.traceId, e5), Member(",\"trace_id\":", f.traceId, f5);
    var key, ee, fe := Ascii(",\"refs\":["), JsonElements(e.refs, true), JsonElements(f.refs, true);
    var e4, f4 := key + (ee + et), key + (fe + ft);
    var e3, f3 := Member(",\"payload\":", e.payload, e4), Member(",\"payload\":", f.payload, f4);
    var e2, f2 := Member(",\"event_type\":", e.eventType, e3), Member(",\"event_type\":", f.eventType, f3);
    var e1, f1 := Member(",\"event_id\":", e.eventId, e2), Member(",\"event_id\":", f.eventId, f2);
    MemberPrefixFree("{\"created_at\":", e.createdAt, f.createdAt, e1, f1);
    MemberPrefixFree(",\"event_id\":", e.eventId, f.eventId, e2, f2);
    MemberPrefixFree(",\"event_type\":", e.eventType, f.eventType, e3, f3);
    MemberPrefixFree(",\"payload\":", e.payload, f.payload, e4, f4);
    CancelPrefix(key, ee + et, fe + ft);
    JsonElementsPrefixFree(e.refs, f.refs, true, et, ft);
    MemberPrefixFree(",\"trace_id\":", e.traceId, f.traceId, e5, f5);
    CancelPrefix(Ascii("}"), p, q);
  }

  // ---------- the chain ----------

  function EventHash(e: AuditEvent, previousHash: Bytes): Bytes {
    Digest(HashInput(e, previousHash))
  }

  method ComputeEventHash(e: AuditEvent, previousHash: Bytes) returns (hash: Bytes)
    ensures hash == EventHash(e, previousHash)
  {
    hide HashInput, Digest;
    HashInputIsDumpThenHash(e, previousHash);
    hash := Sha256.Sha256Hex(Dump(e) + previousHash);
  }

  /** What event i must carry as previous hash. */
  function ExpectedPrevious(events: seq<AuditEvent>, i: nat): Bytes
    requires i <= |events|
  {
    if i == 0 then GenesisHash() else events[i - 1].eventHash
  }

  predicate LinkHolds(events: seq<AuditEvent>, i: nat)
    requires i < |events|
  {
    && events[i].previousHash == ExpectedPrevious(events, i)
    && events[i].eventHash == EventHash(events[i], events[i].previousHash)
  }

  ghost predicate ValidChain(events: seq<AuditEvent>) {
    forall i :: 0 <= i < |events| ==> LinkHolds(events, i)
  }

  datatype Fault = NoFault | PreviousHashMismatch | EventHashMismatch

  datatype Verification = Verification(valid: bool, firstInvalidIndex: nat, error: Fault)

  /** The verdict owed to a list of events: intact, or the least index whose link fails and why. */
  ghost predicate IsVerdict(events: seq<AuditEvent>, v: Verification) {
    && v.firstInvalidIndex <= |events|
    && v.valid == (v.firstInvalidIndex == |events|)
    && (forall j :: 0 <= j < v.firstInvalidIndex ==> LinkHolds(events, j))
    && (v.valid ==> v.error == NoFault)
    && (!v.valid ==>
          var i := v.firstInvalidIndex;
          && !LinkHolds(events, i)
          && v.error == if events[i].previousHash != ExpectedPrevious(events, i)
                        then PreviousHashMismatch else EventHashMismatch)
  }

  method VerifyAuditChain(events: seq<AuditEvent>) returns (v: Verification)
    ensures IsVerdict(events, v)
    ensures v.valid <==> ValidChain(events)
  {
    hide EventHash;
    if events == [] {
      return Verification(true, 0, NoFault);
    }
    var expectedPrevious := GenesisHash();
    for i := 0 to |events|
      invariant expectedPrevious == ExpectedPrevious(events, i)
      invariant forall j :: 0 <= j < i ==> LinkHolds(events, j)
    {
      var ev := events[i];
      if ev.previousHash != expectedPrevious {
        assert !LinkHolds(events, i);
        return Verification(false, i, PreviousHashMismatch);
      }
      var computed := ComputeEventHash(ev, ev.previousHash);
      if ev.eventHash != computed {
        assert !LinkHolds(events, i);
        return Verification(false, i, EventHashMismatch);
      }
      expectedPrevious := ev.eventHash;
    }
    return Verification(true, |events|, NoFault);
  }

  // ---------- tamper evidence ----------

  /** A preimage of the all-zero digest: a text whose digest is the genesis hash. */
  predicate HashesToGenesis(m: Bytes) { Digest(m) == GenesisHash() }

  /** Two sealed events with one hash are the same event, or their hashed texts collide. */
  lemma SealedEventPinned(e: AuditEvent, f: AuditEvent)
    requires e.eventHash == EventHash(e, e.previousHash) && f.eventHash == EventHash(f, f.previousHash)
    requires e.eventHash == f.eventHash
    ensures e == f || Collision(HashInput(e, e.previousHash), HashInput(f, f.previousHash))
  {
    hide HashInput, Digest;
    if HashInput(e, e.previousHash) == HashInput(f, f.previousHash) {
      HashInputInjective(e, f, e.previousHash, f.previousHash);
    }
  }

  /**
   The last hash of a valid chain pins the whole chain: two valid chains that end in the same hash are
   equal, or two different texts with one digest are at hand, or a text that hashes to the genesis value.
   No assumption on the lengths.
   */
  lemma {:induction false} LastHashPinsChain(a: seq<AuditEvent>, b: seq<AuditEvent>)
    returns (m: Bytes, m': Bytes)
    requires ValidChain(a) && ValidChain(b)
    requires ExpectedPrevious(a, |a|) == ExpectedPrevious(b, |b|)
    ensures a == b || Collision(m, m') || (|a| != |b| && HashesToGenesis(m))
    decreases |a|
  {
    hide HashInput, Digest;
    m, m' := [], [];
    if a == [] && b != [] {
      assert LinkHolds(b, |b| - 1);
      m := HashInput(b[|b| - 1], b[|b| - 1].previousHash);
    } else if a != [] && b == [] {
      assert LinkHolds(a, |a| - 1);
      m := HashInput(a[|a| - 1], a[|a| - 1].previousHash);
    } else if a != [] {
      var i, j := |a| - 1, |b| - 1;
      assert LinkHolds(a, i) && LinkHolds(b, j);
      SealedEventPinned(a[i], b[j]);
      if a[i] != b[j] {
        m, m' := HashInput(a[i], a[i].previousHash), HashInput(b[j], b[j].previousHash);
      } else {
        PrefixValid(a, i);
        PrefixValid(b, j);
        m, m' := LastHashPinsChain(a[..i], b[..j]);
        assert a[..i] == b[..j] ==> a == a[..i] + [a[i]] && b == b[..j] + [b[j]];
      }
    }
  }

  lemma PrefixValid(a: seq<AuditEvent>, n: nat)
    requires ValidChain(a) && n <= |a|
    ensures ValidChain(a[..n])
  {
    hide EventHash;
    forall i | 0 <= i < n
      ensures LinkHolds(a[..n], i)
    {
      assert LinkHolds(a, i);
    }
  }

  /** An altered event whose stored hash was recomputed and whose back link was kept. */
  predicate Resealed(was: AuditEvent, now: AuditEvent) {
    now.previousHash == was.previousHash && now.eventHash == EventHash(now, now.previousHash)
  }

  /**
   Replacing event i of a valid chain by a different event `now` is reported at exactly i, unless the
   new event was resealed; a resealed one is reported at i + 1, or not at all when it is the last; the
   only other outcome is a collision, and then too the altered event itself is not reported.
   */
  lemma AlterationReported(events: seq<AuditEvent>, i: nat, now: AuditEvent, v: Verification)
    requires ValidChain(events) && i < |events| && now != events[i]
    requires IsVerdict(events[i := now], v)
    ensures !Resealed(events[i], now) ==> !v.valid && v.firstInvalidIndex == i
    ensures Resealed(events[i], now) ==> v.firstInvalidIndex != i
    ensures Resealed(events[i], now) ==>
      || v.firstInvalidIndex == i + 1
      || Collision(HashInput(now, now.previousHash), HashInput(events[i], events[i].previousHash))
  {
    hide EventHash;
    var altered := events[i := now];
    forall j | 0 <= j < |events| && j != i && j != i + 1
      ensures LinkHolds(altered, j)
    {
      assert LinkHolds(events, j);
    }
    assert LinkHolds(events, i);
    assert LinkHolds(altered, i) <==> Resealed(events[i], now);
    if Resealed(events[i], now) {
      if now.eventHash == events[i].eventHash {
        SealedEventPinned(now, events[i]);
      } else if i + 1 < |events| {
        assert LinkHolds(events, i + 1);
        assert !LinkHolds(altered, i + 1);
      }
    }
  }

  /** The cause named for an alteration: the back link, its own or that of the next event, where it no longer fits. */
  lemma AlterationCause(events: seq<AuditEvent>, i: nat, now: AuditEvent, v: Verification)
    requires ValidChain(events) && i < |events| && now != events[i]
    requires IsVerdict(events[i := now], v)
    ensures !Resealed(events[i], now) && now.previousHash != events[i].previousHash ==> v.error == PreviousHashMismatch
    ensures !Resealed(events[i], now) && now.previousHash == events[i].previousHash ==> v.error == EventHashMismatch
    ensures Resealed(events[i], now) && !v.valid ==> v.error == PreviousHashMismatch
  {
    hide EventHash, HashInput, Digest;
    AlterationReported(events, i, now, v);
    var altered := events[i := now];
    assert LinkHolds(events, i) && ExpectedPrevious(altered, i) == ExpectedPrevious(events, i);
    if Resealed(events[i], now) && !v.valid {
      ResealedCause(events, i, now, v.firstInvalidIndex);
    }
  }

  lemma ResealedCause(events: seq<AuditEvent>, i: nat, now: AuditEvent, k: nat)
    requires ValidChain(events) && i < |events| && Resealed(events[i], now) && k < |events|
    requires !LinkHolds(events[i := now], k)
    ensures k == i + 1 && events[i := now][k].previousHash != ExpectedPrevious(events[i := now], k)
  {
    hide EventHash;
    assert LinkHolds(events, k) && LinkHolds(events, i);
  }

  /** In particular, any alteration that leaves the stored event hash in place is caught where it was made. */
  lemma KeptHashAlterationCaught(events: seq<AuditEvent>, i: nat, now: AuditEvent, v: Verification)
    requires ValidChain(events) && i < |events| && now != events[i]
    requires now.eventHash == events[i].eventHash
    requires IsVerdict(events[i := now], v)
    ensures
      || (!v.valid && v.firstInvalidIndex == i)
      || Collision(HashInput(now, now.previousHash), HashInput(events[i], events[i].previousHash))
  {
    hide EventHash;
    assert LinkHolds(events, i);
    AlterationReported(events, i, now, v);
    if Resealed(events[i], now) {
      SealedEventPinned(now, events[i]);
    }
  }

  /** A resealed last event goes unnoticed: the chain has no anchor after its tip. */
  lemma ResealedTipUnnoticed(events: seq<AuditEvent>, now: AuditEvent)
    requires ValidChain(events) && events != []
    requires Resealed(events[|events| - 1], now)
    ensures ValidChain(events[|events| - 1 := now])
  {
    hide EventHash;
    var altered := events[|events| - 1 := now];
    forall j | 0 <= j < |events|
      ensures LinkHolds(altered, j)
    {
      assert LinkHolds(events, j);
    }
  }
}
