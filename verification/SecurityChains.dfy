/**
 * The two entry types of the security chains
 * (ndn-dashboard-core/src/security_chains.rs): the audit log and the schema journal.
 */
module SecurityChains {
  import opened Common
  import opened Tlv
  import opened Chain
  import Messages

  /** Well-formed UTF-8, as section 4 of RFC 3629 spells it. */
  predicate Utf8(b: Bytes)
    decreases |b|
  {
    if b == [] then true
    else if b[0] <= 0x7F then Utf8(b[1..])
    else if 0xC2 <= b[0] <= 0xDF then |b| >= 2 && Tail(b[1]) && Utf8(b[2..])
    else if 0xE0 <= b[0] <= 0xEF then
      |b| >= 3 && Tail(b[1]) && Tail(b[2]) && (b[0] == 0xE0 ==> b[1] >= 0xA0) && (b[0] == 0xED ==> b[1] <= 0x9F)
        && Utf8(b[3..])
    else if 0xF0 <= b[0] <= 0xF4 then
      |b| >= 4 && Tail(b[1]) && Tail(b[2]) && Tail(b[3])
      && (b[0] == 0xF0 ==> b[1] >= 0x90) && (b[0] == 0xF4 ==> b[1] <= 0x8F) && Utf8(b[4..])
    else false
  }

  predicate Tail(b: Byte) {
    0x80 <= b <= 0xBF
  }

  /** A Unicode scalar value. */
  predicate Scalar(c: nat) {
    c < 0xD800 || 0xE000 <= c < 0x11_0000
  }

  /** The bytes of one scalar value: its bits in groups of six from the right. */
  function CharBytes(c: nat): Bytes
    requires Scalar(c)
  {
    if c < 0x80 then [c as Byte]
    else if c < 0x800 then [(0xC0 + c / 64) as Byte, (0x80 + c % 64) as Byte]
    else if c < 0x1_0000 then [(0xE0 + c / 4096) as Byte, (0x80 + c / 64 % 64) as Byte, (0x80 + c % 64) as Byte]
    else [(0xF0 + c / 262144) as Byte, (0x80 + c / 4096 % 64) as Byte, (0x80 + c / 64 % 64) as Byte,
          (0x80 + c % 64) as Byte]
  }

  ghost predicate Scalars(cs: seq<nat>) {
    forall k :: 0 <= k < |cs| ==> Scalar(cs[k])
  }

  function CharsBytes(cs: seq<nat>): Bytes
    requires Scalars(cs)
  {
    if cs == [] then [] else CharBytes(cs[0]) + CharsBytes(cs[1..])
  }

  lemma CharIsUtf8(c: nat, rest: Bytes)
    requires Scalar(c)
    ensures Utf8(CharBytes(c) + rest) == Utf8(rest)
  {
    var b, n := CharBytes(c) + rest, |CharBytes(c)|;
    assert b[n..] == rest && forall k :: 0 <= k < n ==> b[k] == CharBytes(c)[k];
    if c < 0x80 {
    } else if c < 0x800 {
      assert Utf8(b) == Utf8(b[2..]);
    } else if c < 0x1_0000 {
      assert Utf8(b) == Utf8(b[3..]);
    } else {
      assert Utf8(b) == Utf8(b[4..]);
    }
  }

  /** The character that well-formed bytes begin with. */
  lemma FirstChar(b: Bytes) returns (c: nat)
    requires b != [] && Utf8(b)
    ensures Scalar(c) && CharBytes(c) <= b && Utf8(b[|CharBytes(c)|..])
  {
    if b[0] <= 0x7F {
      c := b[0] as nat;
      assert CharBytes(c) == b[..1];
    } else if b[0] <= 0xDF {
      c := TwoByteChar(b[0], b[1]);
      assert b[..2] == [b[0], b[1]];
    } else if b[0] <= 0xEF {
      c := ThreeByteChar(b[0], b[1], b[2]);
      assert b[..3] == [b[0], b[1], b[2]];
    } else {
      c := FourByteChar(b[0], b[1], b[2], b[3]);
      assert b[..4] == [b[0], b[1], b[2], b[3]];
    }
  }

  lemma TwoByteChar(x: Byte, y: Byte) returns (c: nat)
    requires 0xC2 <= x <= 0xDF && Tail(y)
    ensures Scalar(c) && CharBytes(c) == [x, y]
  {
    c := (x as nat - 0xC0) * 64 + (y as nat - 0x80);
  }

  lemma ThreeByteChar(x: Byte, y: Byte, z: Byte) returns (c: nat)
    requires 0xE0 <= x <= 0xEF && Tail(y) && Tail(z) && (x == 0xE0 ==> y >= 0xA0) && (x == 0xED ==> y <= 0x9F)
    ensures Scalar(c) && CharBytes(c) == [x, y, z]
  {
    var a, b, d := x as nat - 0xE0, y as nat - 0x80, z as nat - 0x80;
    c := a * 4096 + b * 64 + d;
    ThreeParts(a, b, d);
    assert c >= 0x800 && c < 0x1_0000;
    assert Scalar(c) by {
      assert a == 13 ==> b < 32;
    }
  }

  lemma FourByteChar(w: Byte, x: Byte, y: Byte, z: Byte) returns (c: nat)
    requires 0xF0 <= w <= 0xF4 && Tail(x) && Tail(y) && Tail(z)
    requires (w == 0xF0 ==> x >= 0x90) && (w == 0xF4 ==> x <= 0x8F)
    ensures Scalar(c) && CharBytes(c) == [w, x, y, z]
  {
    var h, a, b, d := w as nat - 0xF0, x as nat - 0x80, y as nat - 0x80, z as nat - 0x80;
    var low := a * 4096 + b * 64 + d;
    c := h * 262144 + low;
    ThreeParts(a, b, d);
    FourParts(h, low);
    assert a % 64 == a;
    assert c >= 0x1_0000 && c < 0x11_0000;
  }

  lemma ThreeParts(x: nat, y: nat, z: nat)
    requires y < 64 && z < 64
    ensures var c := x * 4096 + y * 64 + z; c / 4096 == x && c / 64 % 64 == y && c % 64 == z
  {
    var c := x * 4096 + y * 64 + z;
    assert c == (x * 64 + y) * 64 + z;
    assert c / 64 == x * 64 + y;
  }

  lemma FourParts(w: nat, low: nat)
    requires low < 262144
    ensures var c := w * 262144 + low;
            c / 262144 == w && c / 4096 % 64 == low / 4096 % 64 && c / 64 % 64 == low / 64 % 64 && c % 64 == low % 64
  {
    Cut(w * 64, low, 4096);
    Cut(w * 4096, low, 64);
    SameRest(w, low / 4096);
    SameRest(w * 64, low / 64);
    SameRest(w * 4096, low);
  }

  lemma Cut(w: nat, low: nat, m: nat)
    requires m > 0
    ensures (w * m + low) / m == w + low / m
  {
    var q, r := low / m, low % m;
    assert w * m + low == (w + q) * m + r;
    DivOf(w * m + low, m, w + q, r);
  }

  lemma DivOf(n: nat, m: nat, q: nat, r: nat)
    requires r < m && n == q * m + r
    ensures n / m == q
  {
    var q' := n / m;
    assert n == q' * m + n % m;
    Times(q', q + 1, m);
    Times(q, q' + 1, m);
  }

  lemma Times(a: nat, b: nat, m: nat)
    ensures a >= b ==> a * m >= b * m
  {
  }

  lemma SameRest(w: nat, n: nat)
    ensures (w * 64 + n) % 64 == n % 64
  {
  }

  /** The test accepts exactly the bytes of some scalar values: no overlong form, no
      surrogate, nothing cut off. */
  lemma {:induction false} Utf8Iff(b: Bytes)
    ensures Utf8(b) <==> exists cs :: Scalars(cs) && b == CharsBytes(cs)
    decreases |b|
  {
    hide Utf8, CharBytes, Scalar;
    if Utf8(b) {
      Utf8IsChars(b);
    }
    if cs :| Scalars(cs) && b == CharsBytes(cs) {
      CharsAreUtf8(cs);
    }
  }

  lemma {:induction false} Utf8IsChars(b: Bytes)
    requires Utf8(b)
    ensures exists cs :: Scalars(cs) && b == CharsBytes(cs)
    decreases |b|
  {
    hide Utf8, Scalar;
    if b == [] {
      assert Scalars([]) && CharsBytes([]) == b;
    } else {
      var c := FirstChar(b);
      var rest := b[|CharBytes(c)|..];
      Utf8IsChars(rest);
      var cs :| Scalars(cs) && rest == CharsBytes(cs);
      assert ([c] + cs)[0] == c && ([c] + cs)[1..] == cs;
      assert Scalars([c] + cs) && b == CharBytes(c) + rest == CharsBytes([c] + cs);
    }
  }

  lemma {:induction false} CharsAreUtf8(cs: seq<nat>)
    requires Scalars(cs)
    ensures Utf8(CharsBytes(cs))
  {
    hide CharBytes, Scalar;
    if cs != [] {
      CharsAreUtf8(cs[1..]);
      CharIsUtf8(cs[0], CharsBytes(cs[1..]));
    } else {
      NothingIsUtf8();
    }
  }

  lemma NothingIsUtf8()
    ensures Utf8([])
  {
  }

  /** A `String`, as its bytes. */
  type Text = b: Bytes | Utf8(b)

  /** A `u64`. */
  type Word = n: int | 0 <= n < U64

  datatype AuditOutcome = Accepted | Rejected | Info | Warning

  datatype AuditLogEntry = AuditLogEntry(tsUnixNs: Word, outcome: AuditOutcome, subject: Text, detail: Text)

  datatype SchemaJournalKind = AnchorAdd | AnchorRemove | SchemaRuleAdd | SchemaRuleRemove

  datatype SchemaJournalEntry = SchemaJournalEntry(tsUnixNs: Word, kind: SchemaJournalKind, subjectName: Text,
                                                   initiatorName: Text)

  function OutcomeCode(o: AuditOutcome): Byte {
    match o
    case Accepted => 0
    case Rejected => 1
    case Info => 2
    case Warning => 3
  }

  function OutcomeOf(c: Byte): Result<AuditOutcome, string> {
    if c == 0 then Ok(Accepted)
    else if c == 1 then Ok(Rejected)
    else if c == 2 then Ok(Info)
    else if c == 3 then Ok(Warning)
    else Err("AuditOutcome: unknown code")
  }

  function KindCode(k: SchemaJournalKind): Byte {
    match k
    case AnchorAdd => 0
    case AnchorRemove => 1
    case SchemaRuleAdd => 2
    case SchemaRuleRemove => 3
  }

  function KindOf(c: Byte): Result<SchemaJournalKind, string> {
    if c == 0 then Ok(AnchorAdd)
    else if c == 1 then Ok(AnchorRemove)
    else if c == 2 then Ok(SchemaRuleAdd)
    else if c == 3 then Ok(SchemaRuleRemove)
    else Err("SchemaJournalKind: unknown code")
  }

  // -------------------------------------------------------- the four fields both types have

  const TS_UNIX_NS: nat := 3
  const OUTCOME_OR_KIND: nat := 4
  const FIRST_TEXT: nat := 5
  const SECOND_TEXT: nat := 6

  function EncodeFields(ts: Word, code: Byte, first: Text, second: Text): Bytes {
    WriteTlv(TS_UNIX_NS, EncodeNni(ts))
    + (WriteTlv(OUTCOME_OR_KIND, [code]) + (WriteTlv(FIRST_TEXT, first) + WriteTlv(SECOND_TEXT, second)))
  }

  /** `bytes_to_string`. */
  function TakeText(tag: nat, buf: Bytes): Result<(Text, Bytes), string> {
    match TakeTag(tag, buf)
    case Err(e) => Err(e)
    case Ok((v, rest)) => if Utf8(v) then Ok((v, rest)) else Err("not UTF-8")
  }

  /** Field by field, in order; `known` decodes the code. */
  function DecodeFields<C>(known: Byte -> Result<C, string>, buf: Bytes): Result<(Word, C, Text, Text), string> {
    match TakeTag(TS_UNIX_NS, buf)
    case Err(e) => Err(e)
    case Ok((v0, rest0)) =>
      match DecodeNni(v0)
      case Err(e) => Err(e)
      case Ok(ts) =>
        if ts >= U64 then Err("not a u64")
        else match TakeTag(OUTCOME_OR_KIND, rest0)
             case Err(e) => Err(e)
             case Ok((v1, rest1)) =>
               if |v1| != 1 then Err("must be 1 byte")
               else match known(v1[0])
                    case Err(e) => Err(e)
                    case Ok(c) =>
                      match TakeText(FIRST_TEXT, rest1)
                      case Err(e) => Err(e)
                      case Ok((first, rest2)) =>
                        match TakeText(SECOND_TEXT, rest2)
                        case Err(e) => Err(e)
                        case Ok((second, _)) => Ok((ts, c, first, second))
  }

  lemma FieldsReadBack<C>(known: Byte -> Result<C, string>, ts: Word, code: Byte, first: Text, second: Text)
    requires known(code).Ok? && |EncodeFields(ts, code, first, second)| < U64
    ensures DecodeFields(known, EncodeFields(ts, code, first, second)) == Ok((ts, known(code).value, first, second))
  {
    hide TakeTag, WriteTlv, EncodeNni, DecodeNni, Utf8;
    NniRoundTrip(ts);
    TlvSize(FIRST_TEXT, first);
    TlvSize(SECOND_TEXT, second);
    var texts := WriteTlv(FIRST_TEXT, first) + WriteTlv(SECOND_TEXT, second);
    TagRoundTrip(TS_UNIX_NS, EncodeNni(ts), WriteTlv(OUTCOME_OR_KIND, [code]) + texts);
    TagRoundTrip(OUTCOME_OR_KIND, [code], texts);
    TagRoundTrip(FIRST_TEXT, first, WriteTlv(SECOND_TEXT, second));
    TagRoundTrip(SECOND_TEXT, second, []);
    assert WriteTlv(SECOND_TEXT, second) + [] == WriteTlv(SECOND_TEXT, second);
  }

  /** The bytes of the four fields, the number in whichever of its widths. */
  function FieldsBytes(v: Bytes, code: Byte, first: Bytes, second: Bytes): Bytes {
    WriteTlv(3, v) + (WriteTlv(4, [code]) + (WriteTlv(5, first) + WriteTlv(6, second)))
  }

  lemma FieldsSeams(v: Bytes, code: Byte, first: Bytes, second: Bytes, rest: Bytes)
    ensures FieldsBytes(v, code, first, second) + rest
            == WriteTlv(3, v) + (WriteTlv(4, [code]) + (WriteTlv(5, first) + (WriteTlv(6, second) + rest)))
  {
    hide WriteTlv;
  }

  lemma NniIsWord(v: Bytes, n: nat)
    ensures IsNni(v, n) ==> |v| <= 8 && n < U64
  {
    if IsNni(v, n) {
      Powers();
      BeInverse(v);
    }
  }

  /** The four fields are read from exactly these bytes, whatever follows them: a number, a
      code that is known, and two texts. */
  lemma FieldsReadIff<C>(known: Byte -> Result<C, string>, buf: Bytes, ts: Word, c: C, first: Text, second: Text)
    ensures DecodeFields(known, buf) == Ok((ts, c, first, second)) <==>
            && |first| < U64 && |second| < U64
            && exists v, code, rest :: IsNni(v, ts) && known(code) == Ok(c)
                                       && buf == FieldsBytes(v, code, first, second) + rest
  {
    hide TakeTag, WriteTlv, DecodeNni, IsNni, FieldsBytes, Utf8;
    if DecodeFields(known, buf) == Ok((ts, c, first, second)) {
      var (v0, rest0) := TakeTag(3, buf).value;
      var (v1, rest1) := TakeTag(4, rest0).value;
      var (v2, rest2) := TakeTag(5, rest1).value;
      var (v3, rest3) := TakeTag(6, rest2).value;
      TagReadIff(3, buf, v0, rest0);
      TagReadIff(4, rest0, v1, rest1);
      TagReadIff(5, rest1, v2, rest2);
      TagReadIff(6, rest2, v3, rest3);
      NniReadIff(v0, ts);
      assert v1 == [v1[0]];
      FieldsSeams(v0, v1[0], first, second, rest3);
    }
    if v, code, rest :| && |first| < U64 && |second| < U64 && IsNni(v, ts) && known(code) == Ok(c)
                        && buf == FieldsBytes(v, code, first, second) + rest
    {
      FieldsSeams(v, code, first, second, rest);
      NniReadIff(v, ts);
      NniIsWord(v, ts);
      var rest2 := WriteTlv(6, second) + rest;
      var rest1 := WriteTlv(5, first) + rest2;
      TagReadIff(3, buf, v, WriteTlv(4, [code]) + rest1);
      TagReadIff(4, WriteTlv(4, [code]) + rest1, [code], rest1);
      TagReadIff(5, rest1, first, rest2);
      TagReadIff(6, rest2, second, rest);
    }
  }

  // ------------------------------------------------------------------------- the entry types

  function EncodeAudit(e: AuditLogEntry): Bytes {
    EncodeFields(e.tsUnixNs, OutcomeCode(e.outcome), e.subject, e.detail)
  }

  function DecodeAudit(buf: Bytes): Result<AuditLogEntry, string> {
    match DecodeFields(OutcomeOf, buf)
    case Err(e) => Err(e)
    case Ok((ts, outcome, subject, detail)) => Ok(AuditLogEntry(ts, outcome, subject, detail))
  }

  function EncodeJournal(e: SchemaJournalEntry): Bytes {
    EncodeFields(e.tsUnixNs, KindCode(e.kind), e.subjectName, e.initiatorName)
  }

  function DecodeJournal(buf: Bytes): Result<SchemaJournalEntry, string> {
    match DecodeFields(KindOf, buf)
    case Err(e) => Err(e)
    case Ok((ts, kind, subject, initiator)) => Ok(SchemaJournalEntry(ts, kind, subject, initiator))
  }

  function AuditLog(): EntryType<AuditLogEntry> {
    EntryType(1, EncodeAudit, DecodeAudit)
  }

  function SchemaJournal(): EntryType<SchemaJournalEntry> {
    EntryType(1, EncodeJournal, DecodeJournal)
  }

  lemma AuditLogIsLawful()
    ensures Lawful(AuditLog())
  {
    hide EncodeFields, DecodeFields;
    forall e: AuditLogEntry | |EncodeAudit(e)| < U64
      ensures DecodeAudit(EncodeAudit(e)) == Ok(e)
    {
      FieldsReadBack(OutcomeOf, e.tsUnixNs, OutcomeCode(e.outcome), e.subject, e.detail);
    }
  }

  lemma SchemaJournalIsLawful()
    ensures Lawful(SchemaJournal())
  {
    hide EncodeFields, DecodeFields;
    forall e: SchemaJournalEntry | |EncodeJournal(e)| < U64
      ensures DecodeJournal(EncodeJournal(e)) == Ok(e)
    {
      FieldsReadBack(KindOf, e.tsUnixNs, KindCode(e.kind), e.subjectName, e.initiatorName);
    }
  }

  predicate CodeOfOutcome(code: Byte, o: AuditOutcome) {
    (code == 0 && o.Accepted?) || (code == 1 && o.Rejected?) || (code == 2 && o.Info?) || (code == 3 && o.Warning?)
  }

  predicate CodeOfKind(code: Byte, k: SchemaJournalKind) {
    || (code == 0 && k.AnchorAdd?) || (code == 1 && k.AnchorRemove?)
    || (code == 2 && k.SchemaRuleAdd?) || (code == 3 && k.SchemaRuleRemove?)
  }

  /** An audit entry is read from its fields, with 0 for accepted, 1 for rejected, 2 for
      info, 3 for a warning, and no other code. */
  lemma AuditReadIff(buf: Bytes, e: AuditLogEntry)
    ensures DecodeAudit(buf) == Ok(e) <==>
            && |e.subject| < U64 && |e.detail| < U64
            && exists v, code, rest :: IsNni(v, e.tsUnixNs) && CodeOfOutcome(code, e.outcome)
                                       && buf == FieldsBytes(v, code, e.subject, e.detail) + rest
  {
    hide DecodeFields, FieldsBytes, IsNni, Utf8;
    FieldsReadIff(OutcomeOf, buf, e.tsUnixNs, e.outcome, e.subject, e.detail);
    assert forall c: Byte :: OutcomeOf(c) == Ok(e.outcome) <==> CodeOfOutcome(c, e.outcome);
  }

  /** And a journal entry, with 0 and 1 for an anchor added and removed, 2 and 3 for a rule. */
  lemma JournalReadIff(buf: Bytes, e: SchemaJournalEntry)
    ensures DecodeJournal(buf) == Ok(e) <==>
            && |e.subjectName| < U64 && |e.initiatorName| < U64
            && exists v, code, rest :: IsNni(v, e.tsUnixNs) && CodeOfKind(code, e.kind)
                                       && buf == FieldsBytes(v, code, e.subjectName, e.initiatorName) + rest
  {
    hide DecodeFields, FieldsBytes, IsNni, Utf8;
    FieldsReadIff(KindOf, buf, e.tsUnixNs, e.kind, e.subjectName, e.initiatorName);
    assert forall c: Byte :: KindOf(c) == Ok(e.kind) <==> CodeOfKind(c, e.kind);
  }

  /** Entries of both types begin with the version 1. */
  lemma VersionBytes(prev: Hash, payload: Bytes)
    ensures [0, 1, 1] <= EntryContent(AuditLog().version, prev, payload)
    ensures [0, 1, 1] <= EntryContent(SchemaJournal().version, prev, payload)
  {
    assert WriteTlv(0, [1]) == [0, 1, 1];
  }

  /** An audit chain grown from nothing tells exactly the entries that were accepted. */
  lemma AuditChainTellsAll(root: Messages.Name, hash: Bytes -> Hash, vouched: Data -> bool,
                           qs: seq<Request<AuditLogEntry>>)
    requires Messages.WellFormedName(root) && |qs| < U64 && Trusted(AuditLog(), root, hash, vouched, qs)
    ensures Tells(AuditLog(), vouched, hash, AfterRequests(AuditLog(), root, hash, [], qs),
                  Chain.Accepted(AuditLog(), root, hash, [], qs))
  {
    hide AfterRequests, Chain.Accepted, Lawful, Trusted;
    AuditLogIsLawful();
    EveryRunVerifies(AuditLog(), root, hash, vouched, [], [], qs);
    assert [] + Chain.Accepted(AuditLog(), root, hash, [], qs) == Chain.Accepted(AuditLog(), root, hash, [], qs);
  }

  /** And so does a schema journal. */
  lemma SchemaJournalTellsAll(root: Messages.Name, hash: Bytes -> Hash, vouched: Data -> bool,
                              qs: seq<Request<SchemaJournalEntry>>)
    requires Messages.WellFormedName(root) && |qs| < U64 && Trusted(SchemaJournal(), root, hash, vouched, qs)
    ensures Tells(SchemaJournal(), vouched, hash, AfterRequests(SchemaJournal(), root, hash, [], qs),
                  Chain.Accepted(SchemaJournal(), root, hash, [], qs))
  {
    hide AfterRequests, Chain.Accepted, Lawful, Trusted;
    SchemaJournalIsLawful();
    EveryRunVerifies(SchemaJournal(), root, hash, vouched, [], [], qs);
    assert [] + Chain.Accepted(SchemaJournal(), root, hash, [], qs)
      == Chain.Accepted(SchemaJournal(), root, hash, [], qs);
  }
}
