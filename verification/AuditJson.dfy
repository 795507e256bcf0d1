/**
 A reader for the JSON texts the audit log hashes: objects whose values are strings or arrays of strings
 (RFC 8259).  Reading a hashed text gives back the event's fields under their names, and then the previous hash.
 */
module AuditJson {
  import opened Octets
  import opened AuditChain

  datatype Option<T> = None | Some(value: T)

  datatype Value = Text(text: Bytes) | List(items: seq<Bytes>)

  const COMMA: byte := 44
  const COLON: byte := 58
  const OPEN_ARRAY: byte := 91
  const CLOSE_ARRAY: byte := 93
  const OPEN_OBJECT: byte := 123
  const CLOSE_OBJECT: byte := 125

  // ---------- the reader ----------

  /** How many bytes the next character of a string takes. */
  function CharLength(b: Bytes): nat {
    if b == [] || b[0] != BACKSLASH then 1 else if |b| > 1 && b[1] == 117 then 6 else 2
  }

  /** The rest of a string after its opening quote, and what follows it. */
  function ReadBody(b: Bytes): (r: Option<(Bytes, Bytes)>)
    ensures r.Some? ==> |r.value.1| < |b|
    decreases |b|
  {
    if b == [] then None
    else if b[0] == QUOTE then Some(([], b[1..]))
    else
      var n := CharLength(b);
      if |b| < n then None else
        var c := JsonChar(b[..n]);
        var more := ReadBody(b[n..]);
        if !(0 <= c < 256) || more == None then None else Some(([c as byte] + more.value.0, more.value.1))
  }

  function ReadString(b: Bytes): (r: Option<(Bytes, Bytes)>)
    ensures r.Some? ==> |r.value.1| < |b|
  {
    if b == [] || b[0] != QUOTE then None else ReadBody(b[1..])
  }

  /** Items after the first, up to the closing bracket. */
  function ReadMore(b: Bytes): (r: Option<(seq<Bytes>, Bytes)>)
    ensures r.Some? ==> |r.value.1| < |b|
    decreases |b|
  {
    if b == [] then None
    else if b[0] == CLOSE_ARRAY then Some(([], b[1..]))
    else if b[0] != COMMA then None
    else
      var item := ReadString(b[1..]);
      if item == None then None else
        var more := ReadMore(item.value.1);
        if more == None then None else Some(([item.value.0] + more.value.0, more.value.1))
  }

  function ReadArray(b: Bytes): (r: Option<(seq<Bytes>, Bytes)>)
    ensures r.Some? ==> |r.value.1| < |b|
  {
    if b == [] then None
    else if b[0] == CLOSE_ARRAY then Some(([], b[1..]))
    else
      var item := ReadString(b);
      if item == None then None else
        var more := ReadMore(item.value.1);
        if more == None then None else Some(([item.value.0] + more.value.0, more.value.1))
  }

  function ReadValue(b: Bytes): (r: Option<(Value, Bytes)>)
    ensures r.Some? ==> |r.value.1| < |b|
  {
    if b != [] && b[0] == OPEN_ARRAY then
      var list := ReadArray(b[1..]);
      if list == None then None else Some((List(list.value.0), list.value.1))
    else
      var text := ReadString(b);
      if text == None then None else Some((Text(text.value.0), text.value.1))
  }

  /** One or more members, up to the closing brace. */
  function ReadMembers(b: Bytes): Option<(seq<(Bytes, Value)>, Bytes)>
    decreases |b|
  {
    var key := ReadString(b);
    if key == None || key.value.1 == [] || key.value.1[0] != COLON then None else
      var v := ReadValue(key.value.1[1..]);
      if v == None || v.value.1 == [] then None else
        var member, rest := (key.value.0, v.value.0), v.value.1;
        if rest[0] == CLOSE_OBJECT then Some(([member], rest[1..]))
        else if rest[0] != COMMA then None
        else
          var more := ReadMembers(rest[1..]);
          if more == None then None else Some(([member] + more.value.0, more.value.1))
  }

  function ReadObject(b: Bytes): Option<(seq<(Bytes, Value)>, Bytes)> {
    if b == [] || b[0] != OPEN_OBJECT then None else ReadMembers(b[1..])
  }

  // ---------- reading back what was written ----------

  /** A written character is read as itself. */
  lemma ReadOne(c: byte, u: Bytes)
    ensures
      var more := ReadBody(u);
      ReadBody(Escape(c) + u) == if more == None then None else Some(([c] + more.value.0, more.value.1))
  {
    EscapeMeans(c);
    var e := Escape(c);
    var w := e + u;
    EscapeLength(c, u);
    hide Escape, JsonChar;
    assert w[..|e|] == e && w[|e|..] == u && w[0] == e[0];
  }

  lemma EscapeLength(c: byte, u: Bytes)
    ensures CharLength(Escape(c) + u) == |Escape(c)|
  {
    var w := Escape(c) + u;
    assert w[0] == Escape(c)[0] && (|Escape(c)| > 1 ==> w[1] == Escape(c)[1]);
  }

  lemma ReadQuote(rest: Bytes)
    ensures ReadBody(EscapeAll([]) + ([QUOTE] + rest)) == Some(([], rest))
  {
    hide Escape, JsonChar;
    var w := EscapeAll([]) + ([QUOTE] + rest);
    assert w[0] == QUOTE && w[1..] == rest;
  }

  /** The first character of a text is written first. */
  lemma EscapeStep(s: Bytes, u: Bytes)
    requires s != []
    ensures EscapeAll(s) + u == Escape(s[0]) + (EscapeAll(s[1..]) + u)
  {
    hide Escape;
  }

  /** A written text is read as itself, up to its closing quote. */
  lemma {:induction false} ReadBodyOf(s: Bytes, rest: Bytes)
    ensures ReadBody(EscapeAll(s) + ([QUOTE] + rest)) == Some((s, rest))
  {
    hide *;
    if s == [] {
      ReadQuote(rest);
    } else {
      var more := [QUOTE] + rest;
      ReadBodyOf(s[1..], rest);
      ReadOne(s[0], EscapeAll(s[1..]) + more);
      EscapeStep(s, more);
      assert s == [s[0]] + s[1..];
    }
  }

  lemma ReadStringOf(s: Bytes, rest: Bytes)
    ensures ReadString(JsonString(s) + rest) == Some((s, rest))
  {
    hide EscapeAll, ReadBody;
    ReadBodyOf(s, rest);
    var w := JsonString(s) + rest;
    assert w[0] == QUOTE && w[1..] == EscapeAll(s) + ([QUOTE] + rest);
  }

  lemma {:induction false} ReadMoreOf(items: seq<Bytes>, rest: Bytes)
    ensures ReadMore(JsonElements(items, false) + rest) == Some((items, rest))
  {
    hide JsonString, ReadString;
    var w := JsonElements(items, false) + rest;
    if items == [] {
      assert w[1..] == rest;
    } else {
      ReadMoreOf(items[1..], rest);
      var tail := JsonElements(items[1..], false) + rest;
      ReadStringOf(items[0], tail);
      assert w[0] == COMMA && w[1..] == JsonString(items[0]) + tail;
      assert items == [items[0]] + items[1..];
    }
  }

  lemma FirstElement(items: seq<Bytes>, rest: Bytes)
    requires items != []
    ensures JsonElements(items, true) + rest == JsonString(items[0]) + (JsonElements(items[1..], false) + rest)
  {
    hide JsonString;
    var first := JsonString(items[0]) + JsonElements(items[1..], false);
    assert [] + first == first;
  }

  lemma ReadArrayOf(items: seq<Bytes>, rest: Bytes)
    ensures ReadArray(JsonElements(items, true) + rest) == Some((items, rest))
  {
    hide JsonString, JsonElements, ReadString, ReadMore;
    if items == [] {
      NoElements(rest);
    } else {
      ReadMoreOf(items[1..], rest);
      var tail := JsonElements(items[1..], false) + rest;
      ReadStringOf(items[0], tail);
      FirstElement(items, rest);
      QuoteFirst(items[0], tail);
      assert items == [items[0]] + items[1..];
    }
  }

  lemma NoElements(rest: Bytes)
    ensures ReadArray(JsonElements([], true) + rest) == Some(([], rest))
  {
    assert (JsonElements([], true) + rest)[1..] == rest;
  }

  lemma QuoteFirst(s: Bytes, rest: Bytes)
    ensures (JsonString(s) + rest)[0] == QUOTE
  {
  }

  // ---------- values and objects ----------

  function ValueText(v: Value): (r: Bytes) {
    match v
    case Text(text) => JsonString(text)
    case List(items) => [OPEN_ARRAY] + JsonElements(items, true)
  }

  lemma ReadValueOf(v: Value, rest: Bytes)
    ensures ReadValue(ValueText(v) + rest) == Some((v, rest))
  {
    hide JsonString, JsonElements, ReadString, ReadArray;
    var w := ValueText(v) + rest;
    match v
    case Text(text) =>
      ReadStringOf(text, rest);
      QuoteFirst(text, rest);
    case List(items) =>
      ReadArrayOf(items, rest);
      assert w[0] == OPEN_ARRAY && w[1..] == JsonElements(items, true) + rest;
  }

  /** The members of an object, its closing brace, and what follows the object. */
  function MembersText(members: seq<(Bytes, Value)>, tail: Bytes): (r: Bytes)
    requires members != []
    decreases |members|, 0
  {
    var (key, v) := members[0];
    JsonString(key) + ([COLON] + (ValueText(v) + AfterMember(members[1..], tail)))
  }

  function AfterMember(members: seq<(Bytes, Value)>, tail: Bytes): (r: Bytes)
    ensures r != []
    decreases |members|, 1
  {
    if members == [] then [CLOSE_OBJECT] + tail else [COMMA] + MembersText(members, tail)
  }

  lemma ReadFirst(key: Bytes, v: Value, rest: Bytes)
    requires rest != []
    ensures
      var more := ReadMembers(rest[1..]);
      ReadMembers(JsonString(key) + ([COLON] + (ValueText(v) + rest))) ==
      if rest[0] == CLOSE_OBJECT then Some(([(key, v)], rest[1..]))
      else if rest[0] != COMMA || more == None then None
      else Some(([(key, v)] + more.value.0, more.value.1))
  {
    hide JsonString, ValueText, ReadString, ReadValue;
    var after := [COLON] + (ValueText(v) + rest);
    ReadStringOf(key, after);
    assert after[0] == COLON && after[1..] == ValueText(v) + rest;
    ReadValueOf(v, rest);
  }

  /** A written object is read back member by member, up to what follows it. */
  lemma {:induction false} ReadMembersOf(members: seq<(Bytes, Value)>, tail: Bytes)
    requires members != []
    ensures ReadMembers(MembersText(members, tail)) == Some((members, tail))
  {
    hide JsonString, ValueText, ReadMembers;
    var rest := AfterMember(members[1..], tail);
    ReadFirst(members[0].0, members[0].1, rest);
    assert members == [members[0]] + members[1..];
    if |members| == 1 {
      assert rest == [CLOSE_OBJECT] + tail && rest[1..] == tail;
      assert members == [(members[0].0, members[0].1)];
    } else {
      ReadMembersOf(members[1..], tail);
      assert rest[1..] == MembersText(members[1..], tail);
    }
  }

  // ---------- the hashed text ----------

  predicate IsPlain(s: Bytes) {
    forall i :: 0 <= i < |s| ==> 32 <= s[i] && s[i] != QUOTE && s[i] != BACKSLASH
  }

  lemma {:induction false} PlainIsWritten(s: Bytes)
    requires IsPlain(s)
    ensures EscapeAll(s) == s
  {
    if s != [] {
      PlainIsWritten(s[1..]);
      assert s == [s[0]] + s[1..];
    }
  }

  /** A literal key with the byte before it. */
  lemma KeyIs(lead: char, key: string)
    requires lead < 256 as char && IsPlain(Ascii(key))
    ensures Ascii([lead] + ("\"" + (key + "\":"))) == [lead as int as byte] + (JsonString(Ascii(key)) + [COLON])
  {
    PlainIsWritten(Ascii(key));
  }

  lemma MemberIs(lead: char, key: string, value: Bytes, rest: Bytes)
    requires lead < 256 as char && IsPlain(Ascii(key))
    ensures
      Member([lead] + ("\"" + (key + "\":")), value, rest) ==
      [lead as int as byte] + (JsonString(Ascii(key)) + ([COLON] + (ValueText(Text(value)) + rest)))
  {
    KeyIs(lead, key);
    hide JsonString;
    var j, u := JsonString(Ascii(key)), JsonString(value) + rest;
    assert ([lead as int as byte] + (j + [COLON])) + u == [lead as int as byte] + (j + ([COLON] + u));
  }

  /** The hashed fields under their names, in the order of their names. */
  function NamedFields(e: AuditEvent): seq<(Bytes, Value)> {
    [(Ascii("created_at"), Text(e.createdAt)), (Ascii("event_id"), Text(e.eventId)),
     (Ascii("event_type"), Text(e.eventType)), (Ascii("payload"), Text(e.payload)),
     (Ascii("refs"), List(e.refs)), (Ascii("trace_id"), Text(e.traceId))]
  }

  lemma FieldWritten(text: string, lead: char, key: string, value: Bytes, fields: seq<(Bytes, Value)>, tail: Bytes)
    requires lead < 256 as char && IsPlain(Ascii(key)) && text == [lead] + ("\"" + (key + "\":"))
    requires fields != [] && fields[0] == (Ascii(key), Text(value))
    ensures
      Member(text, value, AfterMember(fields[1..], tail)) == [lead as int as byte] + MembersText(fields, tail)
  {
    MemberIs(lead, key, value, AfterMember(fields[1..], tail));
    hide Member, JsonString, AfterMember, Ascii;
  }

  lemma RefsKey()
    ensures Ascii(",\"refs\":[") == ([COMMA] + (JsonString(Ascii("refs")) + [COLON])) + [OPEN_ARRAY]
  {
    KeyIs(',', "refs");
    hide JsonString, Ascii;
    var key := [','] + ("\"" + ("refs" + "\":"));
    assert ",\"refs\":[" == key + "[";
    AsciiAppend(key, "[");
    Bracket();
  }

  lemma AsciiAppend(s: string, t: string)
    ensures Ascii(s + t) == Ascii(s) + Ascii(t)
  {
  }

  lemma Bracket()
    ensures Ascii("[") == [OPEN_ARRAY]
  {
  }

  lemma Regroup(key: Bytes, items: Bytes, after: Bytes)
    ensures
      (([COMMA] + (key + [COLON])) + [OPEN_ARRAY]) + (items + after) ==
      [COMMA] + (key + ([COLON] + (([OPEN_ARRAY] + items) + after)))
  {
  }

  lemma RefsWritten(e: AuditEvent, fields: seq<(Bytes, Value)>, tail: Bytes)
    requires fields != [] && fields[0] == (Ascii("refs"), List(e.refs))
    ensures
      Ascii(",\"refs\":[") + (JsonElements(e.refs, true) + AfterMember(fields[1..], tail)) ==
      [COMMA] + MembersText(fields, tail)
  {
    hide JsonString, JsonElements, AfterMember, Ascii;
    RefsKey();
    Regroup(JsonString(Ascii("refs")), JsonElements(e.refs, true), AfterMember(fields[1..], tail));
  }

  lemma After(fields: seq<(Bytes, Value)>, k: nat, tail: Bytes)
    requires k < |fields|
    ensures AfterMember(fields[k..], tail) == [COMMA] + MembersText(fields[k..], tail)
    ensures fields[k..][1..] == fields[k + 1..] && fields[k..][0] == fields[k]
  {
    hide MembersText;
  }

  /** The text after the members before the k-th one, as the program writes it. */
  lemma HashInputTail(e: AuditEvent, p: Bytes)
    ensures
      Ascii(",\"refs\":[") + (JsonElements(e.refs, true) +
      Member(",\"trace_id\":", e.traceId, Ascii("}") + p)) == AfterMember(NamedFields(e)[4..], p)
  {
    var f := NamedFields(e);
    hide JsonString, JsonElements, MembersText, Member;
    assert Ascii("}") + p == AfterMember(f[6..], p);
    After(f, 5, p);
    After(f, 4, p);
    FieldWritten(",\"trace_id\":", ',', "trace_id", e.traceId, f[5..], p);
    RefsWritten(e, f[4..], p);
  }

  lemma PlainKey(key: string)
    requires forall i :: 0 <= i < |key| ==> '_' <= key[i] <= 'z'
    ensures IsPlain(Ascii(key))
  {
  }

  /** The literal keys hold no character that needs an escape. */
  lemma KeysArePlain()
    ensures IsPlain(Ascii("created_at")) && IsPlain(Ascii("event_id")) && IsPlain(Ascii("event_type"))
    ensures IsPlain(Ascii("payload"))
  {
    hide Ascii, IsPlain;
    PlainKey("created_at");
    PlainKey("event_id");
    PlainKey("event_type");
    PlainKey("payload");
  }

  lemma KeyLiterals()
    ensures "{\"created_at\":" == ['{'] + ("\"" + ("created_at" + "\":"))
    ensures ",\"event_id\":" == [','] + ("\"" + ("event_id" + "\":"))
    ensures ",\"event_type\":" == [','] + ("\"" + ("event_type" + "\":"))
    ensures ",\"payload\":" == [','] + ("\"" + ("payload" + "\":"))
  {
  }

  lemma PayloadWritten(e: AuditEvent, p: Bytes)
    ensures
      var f := NamedFields(e);
      Member(",\"payload\":", e.payload, AfterMember(f[4..], p)) == AfterMember(f[3..], p)
  {
    var f := NamedFields(e);
    hide IsPlain, Ascii, JsonString, MembersText, AfterMember, Member;
    After(f, 3, p);
    KeysArePlain();
    KeyLiterals();
    FieldWritten(",\"payload\":", ',', "payload", e.payload, f[3..], p);
  }

  lemma EventTypeWritten(e: AuditEvent, p: Bytes)
    ensures
      var f := NamedFields(e);
      Member(",\"event_type\":", e.eventType, AfterMember(f[3..], p)) == AfterMember(f[2..], p)
  {
    var f := NamedFields(e);
    hide IsPlain, Ascii, JsonString, MembersText, AfterMember, Member;
    After(f, 2, p);
    KeysArePlain();
    KeyLiterals();
    FieldWritten(",\"event_type\":", ',', "event_type", e.eventType, f[2..], p);
  }

  lemma EventIdWritten(e: AuditEvent, p: Bytes)
    ensures
      var f := NamedFields(e);
      Member(",\"event_id\":", e.eventId, AfterMember(f[2..], p)) == AfterMember(f[1..], p)
  {
    var f := NamedFields(e);
    hide IsPlain, Ascii, JsonString, MembersText, AfterMember, Member;
    After(f, 1, p);
    KeysArePlain();
    KeyLiterals();
    FieldWritten(",\"event_id\":", ',', "event_id", e.eventId, f[1..], p);
  }

  lemma CreatedAtWritten(e: AuditEvent, p: Bytes)
    ensures
      var f := NamedFields(e);
      Member("{\"created_at\":", e.createdAt, AfterMember(f[1..], p)) == [OPEN_OBJECT] + MembersText(f, p)
  {
    hide IsPlain, Ascii, JsonString, MembersText, AfterMember, Member;
    KeysArePlain();
    KeyLiterals();
    FieldWritten("{\"created_at\":", '{', "created_at", e.createdAt, NamedFields(e), p);
  }

  /** The hashed text is a JSON object of the hashed fields under their names, then the previous hash. */
  lemma HashInputIsObject(e: AuditEvent, p: Bytes)
    ensures HashInput(e, p) == [OPEN_OBJECT] + MembersText(NamedFields(e), p)
  {
    hide NamedFields, JsonElements, MembersText, AfterMember, Member, Ascii;
    HashInputTail(e, p);
    PayloadWritten(e, p);
    EventTypeWritten(e, p);
    EventIdWritten(e, p);
    CreatedAtWritten(e, p);
  }

  /** A reader gets back each hashed field under its own name, and then the previous hash. */
  lemma ReadHashInput(e: AuditEvent, p: Bytes)
    ensures
      ReadObject(HashInput(e, p)) ==
      Some(([(Ascii("created_at"), Text(e.createdAt)), (Ascii("event_id"), Text(e.eventId)),
             (Ascii("event_type"), Text(e.eventType)), (Ascii("payload"), Text(e.payload)),
             (Ascii("refs"), List(e.refs)), (Ascii("trace_id"), Text(e.traceId))], p))
  {
    hide HashInput, MembersText, Ascii;
    HashInputIsObject(e, p);
    ReadMembersOf(NamedFields(e), p);
    var body := MembersText(NamedFields(e), p);
    assert ([OPEN_OBJECT] + body)[1..] == body;
  }
}