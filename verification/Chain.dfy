/**
 * The append-only chain of signed Data packets (SignedDataChainStore in
 * ndn-dashboard-core/src/signed_data_chain.rs): each entry carries the digest of
 * the one before it, and `verify` walks the links.
 */
module Chain {
  import opened Common
  import opened Tlv
  import opened Messages
  import Meaning
  import FileStore

  type Hash = h: Bytes | |h| == 32 witness seq(32, _ => 0)

  const ZERO: Hash :=
    [0, 0, 0, 0, 0, 0, 0, 0, 0, 0, 0, 0, 0, 0, 0, 0, 0, 0, 0, 0, 0, 0, 0, 0, 0, 0, 0, 0, 0, 0, 0, 0]

  const SCHEMA_VERSION: nat := 0
  const AUTHORED_UNDER: nat := 1
  const PREV_ENTRY_HASH: nat := 2

  const SEQUENCE_NUM: nat := 58
  const CONTENT: nat := 0x15
  const SIGNATURE_INFO: nat := 0x16
  const SIGNATURE_VALUE: nat := 0x17

  datatype ChainError =
    | DataWire
    | Sign(why: string)
    | BrokenChain(seqNo: nat)
    | Decode(why: string)
    | Backend
    | Gone                      // no answer: the process ended in the middle

  // -------------------------------------------------------------- NonNegativeInteger

  /** 1, 2, 4 or 8 bytes big-endian, the shortest that fits. */
  function EncodeNni(value: nat): (b: Bytes)
    ensures |b| in {1, 2, 4, 8}
  {
    if value <= 0xFF then [value as Byte]
    else if value <= 0xFFFF then ToBe(value, 2)
    else if value <= 0xFFFF_FFFF then ToBe(value, 4)
    else ToBe(value, 8)
  }

  function DecodeNni(b: Bytes): Result<nat, string> {
    if |b| == 1 then Ok(b[0] as nat)
    else if |b| == 2 || |b| == 4 || |b| == 8 then Ok(FromBe(b))
    else Err("NonNegativeInteger must be 1/2/4/8 bytes")
  }

  lemma NniRoundTrip(value: nat)
    requires value < U64
    ensures DecodeNni(EncodeNni(value)) == Ok(value)
  {
    Powers();
    if value > 0xFF {
      BeRoundTrip(value, |EncodeNni(value)|);
    }
  }

  // ---------------------------------------------------------------------- Data packets

  /** A decoded packet: it keeps the wire it was decoded from. */
  datatype Data = Data(wire: Bytes, name: Name, content: Option<Bytes>)

  /** The first Content among the elements after the Name. */
  function FindContent(elements: Bytes): Result<Option<Bytes>, Fault>
    decreases |elements|
  {
    if elements == [] then Ok(None)
    else match NextField(elements)
         case Err(m) => Err(BadTlv(m))
         case Ok((f, rest)) =>
           if f.t == CONTENT then Ok(Some(f.value))
           else if |rest| < |elements| then FindContent(rest)
           else Ok(None)
  }

  /** `Data::decode`, as far as a chain reads a packet. */
  function DecodeData(wire: Bytes): Result<Data, Fault> {
    match NextField(wire)
    case Err(m) => Err(BadTlv(m))
    case Ok((packet, after)) =>
      if packet.t != DATA || after != [] then Err(BadLength(packet.t, |after|))
      else match NextField(packet.value)
           case Err(m) => Err(BadTlv(m))
           case Ok((name, elements)) =>
             if name.t != NAME then Err(NotAName(name.t))
             else match DecodeName(name.value)
                  case Err(e) => Err(e)
                  case Ok(n) =>
                    match FindContent(elements)
                    case Err(e) => Err(e)
                    case Ok(content) => Ok(Data(wire, n, content))
  }

  /** Elements that are no Content. */
  ghost predicate NoContents(fs: seq<Field>) {
    forall f :: f in fs ==> f.Writable() && f.t != 0x15
  }

  /** The content is the first Content element, behind any others. */
  ghost predicate ContentIs(elements: Bytes, content: Option<Bytes>) {
    match content
    case None => exists fs :: NoContents(fs) && elements == Encoded(fs)
    case Some(c) => |c| < U64 && exists fs :: NoContents(fs) && Encoded(fs) + WriteTlv(0x15, c) <= elements
  }

  lemma {:induction false} ContentFoundIs(elements: Bytes)
    requires FindContent(elements).Ok?
    ensures ContentIs(elements, FindContent(elements).value)
    decreases |elements|
  {
    hide WriteTlv, NextField;
    if elements == [] {
      assert NoContents([]) && Encoded([]) == [];
    } else {
      FieldCanonical(elements);
      var (f, rest) := NextField(elements).value;
      if f.t == 0x15 {
        assert NoContents([]) && Encoded([]) + WriteTlv(0x15, f.value) == f.Whole();
      } else {
        ContentFoundIs(rest);
        ContentBehind(f, rest, FindContent(rest).value);
      }
    }
  }

  lemma ContentBehind(f: Field, rest: Bytes, content: Option<Bytes>)
    requires f.Writable() && f.t != 0x15 && ContentIs(rest, content)
    ensures ContentIs(f.Whole() + rest, content)
  {
    hide WriteTlv;
    var tail: Bytes := if content.Some? then WriteTlv(0x15, content.value) else [];
    var fs :| NoContents(fs) && if content.Some? then Encoded(fs) + tail <= rest else rest == Encoded(fs);
    assert ([f] + fs)[0] == f && ([f] + fs)[1..] == fs;
    assert NoContents([f] + fs) && Encoded([f] + fs) == f.Whole() + Encoded(fs);
    Assoc(f.Whole(), Encoded(fs), tail);
    if content.Some? {
      assert f.Whole() + (Encoded(fs) + tail) <= f.Whole() + rest by {
        PrefixUnder(f.Whole(), Encoded(fs) + tail, rest);
      }
    }
  }

  lemma PrefixUnder(a: Bytes, b: Bytes, c: Bytes)
    requires b <= c
    ensures a + b <= a + c
  {
    assert c == b + c[|b|..];
    Assoc(a, b, c[|b|..]);
  }

  lemma {:induction false} ContentIsFound(fs: seq<Field>, content: Option<Bytes>, more: Bytes)
    requires NoContents(fs) && (content.Some? ==> |content.value| < U64) && (content.None? ==> more == [])
    ensures FindContent(Encoded(fs) + ((if content.Some? then WriteTlv(0x15, content.value) else []) + more))
            == Ok(content)
    decreases |fs|
  {
    hide WriteTlv, NextField;
    var tail := (if content.Some? then WriteTlv(0x15, content.value) else []) + more;
    if fs == [] {
      assert Encoded(fs) + tail == tail;
      if content.Some? {
        FieldRoundTrip(Field(0x15, content.value), more);
      }
    } else {
      var f := fs[0];
      ContentIsFound(fs[1..], content, more);
      Assoc(f.Whole(), Encoded(fs[1..]), tail);
      FieldRoundTrip(f, Encoded(fs[1..]) + tail);
    }
  }

  lemma ContentReadIff(elements: Bytes, content: Option<Bytes>)
    ensures FindContent(elements) == Ok(content) <==> ContentIs(elements, content)
  {
    hide WriteTlv, NextField, FindContent;
    if FindContent(elements).Ok? {
      ContentFoundIs(elements);
    }
    if ContentIs(elements, content) {
      var tail: Bytes := if content.Some? then WriteTlv(0x15, content.value) else [];
      var fs :| NoContents(fs) && if content.Some? then Encoded(fs) + tail <= elements else elements == Encoded(fs);
      var more := elements[|Encoded(fs) + tail|..];
      assert elements == Encoded(fs) + tail + more;
      Assoc(Encoded(fs), tail, more);
      ContentIsFound(fs, content, more);
    }
  }

  /** A packet is read from exactly one Data TLV with a whole name first and then elements;
      its content is that of the first Content element, if there is one. */
  lemma DataReadIff(wire: Bytes, d: Data)
    ensures DecodeData(wire) == Ok(d) <==>
            && d.wire == wire && WellFormedName(d.name)
            && exists elements :: && |EncodeName(d.name) + elements| < U64
                                  && wire == WriteTlv(6, EncodeName(d.name) + elements)
                                  && ContentIs(elements, d.content)
  {
    hide WriteTlv, NextField, DecodeName, NameValue, WellFormedName, FindContent, ContentIs;
    if DecodeData(wire) == Ok(d) {
      FieldCanonical(wire);
      var packet := NextField(wire).value.0;
      FieldCanonical(packet.value);
      var (name, elements) := NextField(packet.value).value;
      Meaning.NameReadIff(name.value, d.name);
      ContentReadIff(elements, d.content);
      assert packet.Whole() + [] == packet.Whole();
    }
    if elements :| WellFormedName(d.name) && |EncodeName(d.name) + elements| < U64
                   && wire == WriteTlv(6, EncodeName(d.name) + elements) && ContentIs(elements, d.content)
    {
      var packet := Field(6, EncodeName(d.name) + elements);
      FieldRoundTrip(packet, []);
      assert packet.Whole() + [] == packet.Whole();
      TlvSize(NAME, NameValue(d.name));
      FieldRoundTrip(Field(NAME, NameValue(d.name)), elements);
      Meaning.NameReadIff(NameValue(d.name), d.name);
      ContentReadIff(elements, d.content);
    }
  }

  /** The part of a packet its signature covers. */
  function SignedRegion(name: Name, content: Bytes, info: Bytes): Bytes {
    EncodeName(name) + (WriteTlv(CONTENT, content) + WriteTlv(SIGNATURE_INFO, info))
  }

  function BuildData(name: Name, content: Bytes, info: Bytes, signature: Bytes): Bytes {
    WriteTlv(DATA, EncodeName(name) + (WriteTlv(CONTENT, content) + (WriteTlv(SIGNATURE_INFO, info)
                                                                     + WriteTlv(SIGNATURE_VALUE, signature))))
  }

  lemma TlvSize(t: nat, value: Bytes)
    ensures |WriteTlv(t, value)| > |value|
  {
  }

  lemma BuiltDataDecodes(name: Name, content: Bytes, info: Bytes, signature: Bytes)
    requires WellFormedName(name) && |BuildData(name, content, info, signature)| < U64
    ensures DecodeData(BuildData(name, content, info, signature))
            == Ok(Data(BuildData(name, content, info, signature), name, Some(content)))
  {
    hide WriteTlv, NextField, DecodeName, NameValue;
    var tail := WriteTlv(SIGNATURE_INFO, info) + WriteTlv(SIGNATURE_VALUE, signature);
    var value := EncodeName(name) + (WriteTlv(CONTENT, content) + tail);
    var wire := WriteTlv(DATA, value);
    TlvSize(DATA, value);
    TlvSize(NAME, NameValue(name));
    TlvSize(CONTENT, content);
    FieldRoundTrip(Field(DATA, value), []);
    assert wire + [] == wire;
    FieldRoundTrip(Field(NAME, NameValue(name)), WriteTlv(CONTENT, content) + tail);
    NameRoundTrip(name);
    FieldRoundTrip(Field(CONTENT, content), tail);
    assert WriteTlv(CONTENT, content) + tail != [];
  }

  // ------------------------------------------------------------------ header and payload

  datatype ParsedHeader = ParsedHeader(schemaVersion: nat, authoredUnder: Option<Hash>, prev: Hash)

  /** `read_tlv`, then a check of the tag: the value, and the reader's rest. */
  function TakeTag(tag: nat, buf: Bytes): Result<(Bytes, Bytes), string> {
    match NextField(buf)
    case Err(_) => Err("truncated")
    case Ok((f, rest)) => if f.t == tag then Ok((f.value, rest)) else Err("unexpected tag")
  }

  lemma TagRoundTrip(tag: nat, value: Bytes, rest: Bytes)
    requires tag < U64 && |value| < U64
    ensures TakeTag(tag, WriteTlv(tag, value) + rest) == Ok((value, rest))
  {
    FieldRoundTrip(Field(tag, value), rest);
  }

  /** `ParsedHeader::read_from`: the header, and what the reader is left with. */
  function ReadHeader(buf: Bytes): Result<(ParsedHeader, Bytes), string> {
    match TakeTag(SCHEMA_VERSION, buf)
    case Err(e) => Err(e)
    case Ok((v0, rest0)) =>
      match DecodeNni(v0)
      case Err(e) => Err(e)
      case Ok(version) =>
        if version > 0xFFFF then Err("schema_version does not fit in u16")
        else match TakeTag(AUTHORED_UNDER, rest0)
             case Err(e) => Err(e)
             case Ok((v1, rest1)) =>
               if |v1| != 0 && |v1| != 32 then Err("authored_under must be 0 or 32 bytes")
               else match TakeTag(PREV_ENTRY_HASH, rest1)
                    case Err(e) => Err(e)
                    case Ok((v2, rest2)) =>
                      if |v2| != 32 then Err("prev_entry_hash must be 32 bytes")
                      else Ok((ParsedHeader(version, if |v1| == 32 then Some(v1) else None, v2), rest2))
  }

  function EntryContent(version: nat, prev: Hash, payload: Bytes): Bytes {
    WriteTlv(SCHEMA_VERSION, EncodeNni(version))
    + (WriteTlv(AUTHORED_UNDER, []) + (WriteTlv(PREV_ENTRY_HASH, prev) + payload))
  }

  lemma HeaderReadsBack(version: nat, prev: Hash, payload: Bytes)
    requires version <= 0xFFFF
    ensures ReadHeader(EntryContent(version, prev, payload)) == Ok((ParsedHeader(version, None, prev), payload))
  {
    hide TakeTag, WriteTlv, EncodeNni, DecodeNni;
    NniRoundTrip(version);
    var rest1 := WriteTlv(PREV_ENTRY_HASH, prev) + payload;
    TagRoundTrip(SCHEMA_VERSION, EncodeNni(version), WriteTlv(AUTHORED_UNDER, []) + rest1);
    TagRoundTrip(AUTHORED_UNDER, [], rest1);
    TagRoundTrip(PREV_ENTRY_HASH, prev, payload);
  }

  /** A number in 1, 2, 4 or 8 bytes, big-endian. */
  predicate IsNni(b: Bytes, value: nat) {
    |b| in {1, 2, 4, 8} && FromBe(b) == value
  }

  lemma NniReadIff(b: Bytes, value: nat)
    ensures DecodeNni(b) == Ok(value) <==> IsNni(b, value)
  {
    if |b| == 1 {
      assert b[..0] == [] && FromBe(b[..0]) == 0;
    }
  }

  /** No shorter bytes tell the number. */
  lemma NniIsShortest(value: nat, b: Bytes)
    requires value < U64 && IsNni(b, value)
    ensures |EncodeNni(value)| <= |b|
  {
    Powers();
    BeInverse(b);
  }

  /** The bytes of a header: a version, the key it was authored under if any, a digest. */
  function HeaderBytes(v: Bytes, authored: Option<Hash>, prev: Hash): Bytes {
    WriteTlv(0, v) + (WriteTlv(1, if authored.Some? then authored.value else []) + WriteTlv(2, prev))
  }

  lemma TagReadIff(tag: nat, buf: Bytes, value: Bytes, rest: Bytes)
    requires tag < U64
    ensures TakeTag(tag, buf) == Ok((value, rest)) <==> |value| < U64 && buf == WriteTlv(tag, value) + rest
  {
    hide WriteTlv, NextField;
    if TakeTag(tag, buf) == Ok((value, rest)) {
      FieldCanonical(buf);
    }
    if |value| < U64 && buf == WriteTlv(tag, value) + rest {
      TagRoundTrip(tag, value, rest);
    }
  }

  /** A header is read from exactly these bytes, whatever follows them; the version is
      one of 16 bits, in whichever of the four widths. */
  lemma HeaderReadIff(buf: Bytes, h: ParsedHeader, rest: Bytes)
    ensures ReadHeader(buf) == Ok((h, rest)) <==>
            h.schemaVersion <= 0xFFFF &&
            exists v: Bytes :: IsNni(v, h.schemaVersion) && buf == HeaderBytes(v, h.authoredUnder, h.prev) + rest
  {
    hide WriteTlv, TakeTag, DecodeNni, IsNni;
    if ReadHeader(buf) == Ok((h, rest)) {
      var (v0, rest0) := TakeTag(SCHEMA_VERSION, buf).value;
      var (v1, rest1) := TakeTag(AUTHORED_UNDER, rest0).value;
      TagReadIff(SCHEMA_VERSION, buf, v0, rest0);
      TagReadIff(AUTHORED_UNDER, rest0, v1, rest1);
      TagReadIff(PREV_ENTRY_HASH, rest1, h.prev, rest);
      NniReadIff(v0, h.schemaVersion);
      HeaderSeams(v0, h, rest);
      assert v1 == if h.authoredUnder.Some? then h.authoredUnder.value else [];
    }
    if v: Bytes :| h.schemaVersion <= 0xFFFF && IsNni(v, h.schemaVersion)
                   && buf == HeaderBytes(v, h.authoredUnder, h.prev) + rest
    {
      var authored: Bytes := if h.authoredUnder.Some? then h.authoredUnder.value else [];
      HeaderSeams(v, h, rest);
      NniReadIff(v, h.schemaVersion);
      NniIsShort(v, h.schemaVersion);
      var rest1 := WriteTlv(2, h.prev) + rest;
      TagReadIff(SCHEMA_VERSION, buf, v, WriteTlv(1, authored) + rest1);
      TagReadIff(AUTHORED_UNDER, WriteTlv(1, authored) + rest1, authored, rest1);
      TagReadIff(PREV_ENTRY_HASH, rest1, h.prev, rest);
    }
  }

  lemma NniIsShort(v: Bytes, value: nat)
    requires IsNni(v, value)
    ensures |v| <= 8
  {
  }

  lemma HeaderSeams(v: Bytes, h: ParsedHeader, rest: Bytes)
    ensures var authored: Bytes := if h.authoredUnder.Some? then h.authoredUnder.value else [];
            HeaderBytes(v, h.authoredUnder, h.prev) + rest
            == WriteTlv(0, v) + (WriteTlv(1, authored) + (WriteTlv(2, h.prev) + rest))
  {
    hide WriteTlv;
  }

  // ------------------------------------------------------------------------ entry types

  /** What an entry type brings: its version and its payload fields (`ChainEntry`). */
  datatype EntryType<!T> = EntryType(version: nat, encode: T -> Bytes, decode: Bytes -> Result<T, string>)

  /** What is decoded is what was encoded. */
  ghost predicate Lawful<T(!new)>(t: EntryType<T>) {
    t.version <= 0xFFFF && forall x: T :: |t.encode(x)| < U64 ==> t.decode(t.encode(x)) == Ok(x)
  }

  /** `DataSigner`: what it puts in SignatureInfo, and how it signs. */
  datatype Signer = Signer(info: Bytes, sign: Bytes -> Result<Bytes, string>)

  // -------------------------------------------------------------------------- the chain

  function EntryName(root: Name, seqNo: nat): Name {
    root + [Component(SEQUENCE_NUM, EncodeNni(seqNo))]
  }

  /** The sequence number in the last component of a name. */
  function SeqOf(name: Name): Option<nat> {
    if name == [] then None
    else
      var last := name[|name| - 1];
      if last.typ != SEQUENCE_NUM then None
      else match DecodeNni(last.value)
           case Err(_) => None
           case Ok(n) => Some(n)
  }

  function Digest(hash: Bytes -> Hash, d: Data): Hash {
    hash(d.wire)
  }

  function HeadHash(hash: Bytes -> Hash, entries: seq<Data>): Hash {
    if entries == [] then ZERO else Digest(hash, entries[|entries| - 1])
  }

  function ContentOf(d: Data): Bytes {
    if d.content.Some? then d.content.value else []
  }

  /** `e` is a good entry number `seqNo`, after one with digest `prev`. */
  predicate Links(version: nat, vouched: Data -> bool, e: Data, seqNo: nat, prev: Hash) {
    && SeqOf(e.name) == Some(seqNo)
    && ReadHeader(ContentOf(e)).Ok?
    && ReadHeader(ContentOf(e)).value.0.schemaVersion == version
    && ReadHeader(ContentOf(e)).value.0.prev == prev
    && vouched(e)
  }

  /** What `verify` accepts: every entry links to the one before it. */
  predicate Verified(version: nat, vouched: Data -> bool, hash: Bytes -> Hash, entries: seq<Data>) {
    forall i :: 0 <= i < |entries| ==> Links(version, vouched, entries[i], i, HeadHash(hash, entries[..i]))
  }

  /** Told from bytes alone: an entry links if its name ends in its number, and its content
      begins with the version and the digest of the entry before it. */
  lemma LinksIff(version: nat, vouched: Data -> bool, e: Data, seqNo: nat, prev: Hash)
    ensures Links(version, vouched, e, seqNo, prev) <==>
            && e.name != [] && e.name[|e.name| - 1].typ == 58 && IsNni(e.name[|e.name| - 1].value, seqNo)
            && version <= 0xFFFF
            && (exists v, authored, rest :: IsNni(v, version) && ContentOf(e) == HeaderBytes(v, authored, prev) + rest)
            && vouched(e)
  {
    hide IsNni, DecodeNni, HeaderBytes, ReadHeader;
    if e.name != [] {
      SeqReadIff(e.name, seqNo);
    }
    if Links(version, vouched, e, seqNo, prev) {
      var (h, rest) := ReadHeader(ContentOf(e)).value;
      HeaderReadIff(ContentOf(e), h, rest);
    }
    if v, authored, rest :| version <= 0xFFFF && IsNni(v, version)
                            && ContentOf(e) == HeaderBytes(v, authored, prev) + rest
    {
      HeaderReadIff(ContentOf(e), ParsedHeader(version, authored, prev), rest);
    }
  }

  lemma SeqReadIff(name: Name, seqNo: nat)
    requires name != []
    ensures SeqOf(name) == Some(seqNo) <==> name[|name| - 1].typ == 58 && IsNni(name[|name| - 1].value, seqNo)
  {
    hide IsNni, DecodeNni;
    NniReadIff(name[|name| - 1].value, seqNo);
  }

  /** The packet `append` builds, signs and decodes again. No buffer reaches 2^64
      bytes; the allocation fails before that. */
  function NewEntry<T>(t: EntryType<T>, root: Name, hash: Bytes -> Hash, entries: seq<Data>, payload: T, signer: Signer)
    : Result<Data, ChainError>
  {
    var name := EntryName(root, |entries|);
    var content := EntryContent(t.version, HeadHash(hash, entries), t.encode(payload));
    match signer.sign(SignedRegion(name, content, signer.info))
    case Err(e) => Err(Sign(e))
    case Ok(signature) =>
      var wire := BuildData(name, content, signer.info, signature);
      if |wire| >= U64 then Err(DataWire)
      else match DecodeData(wire)
           case Err(_) => Err(DataWire)
           case Ok(d) => Ok(d)
  }

  function DecodeEntry<T>(t: EntryType<T>, entries: seq<Data>, index: nat): Result<T, ChainError> {
    if index >= |entries| then Err(Backend)
    else match ReadHeader(ContentOf(entries[index]))
         case Err(e) => Err(Decode(e))
         case Ok((_, rest)) =>
           match t.decode(rest)
           case Err(e) => Err(Decode(e))
           case Ok(x) => Ok(x)
  }

  /** The append succeeds exactly when the signer signs and the packet built has a
      length; its own decoding never fails. */
  lemma NewEntrySucceedsIff<T>(t: EntryType<T>, root: Name, hash: Bytes -> Hash, entries: seq<Data>, payload: T,
                               signer: Signer)
    requires WellFormedName(root)
    ensures var name := EntryName(root, |entries|);
            var content := EntryContent(t.version, HeadHash(hash, entries), t.encode(payload));
            var signed := signer.sign(SignedRegion(name, content, signer.info));
            NewEntry(t, root, hash, entries, payload, signer).Ok? <==>
              signed.Ok? && |BuildData(name, content, signer.info, signed.value)| < U64
  {
    hide DecodeData, BuildData, EncodeNni, EntryContent, SignedRegion, HeadHash;
    var name := EntryName(root, |entries|);
    var content := EntryContent(t.version, HeadHash(hash, entries), t.encode(payload));
    var signed := signer.sign(SignedRegion(name, content, signer.info));
    if signed.Ok? && |BuildData(name, content, signer.info, signed.value)| < U64 {
      BuiltDataDecodes(name, content, signer.info, signed.value);
    }
  }

  /** The entry appended carries its place, the link and the payload. */
  lemma NewEntryIsGood<T(!new)>(t: EntryType<T>, root: Name, hash: Bytes -> Hash, entries: seq<Data>, payload: T,
                                signer: Signer)
    requires Lawful(t) && WellFormedName(root) && |entries| < U64
    requires NewEntry(t, root, hash, entries, payload, signer).Ok?
    ensures var d := NewEntry(t, root, hash, entries, payload, signer).value;
            && d.name == EntryName(root, |entries|) && SeqOf(d.name) == Some(|entries|)
            && DecodeData(d.wire) == Ok(d)
            && ReadHeader(ContentOf(d))
              == Ok((ParsedHeader(t.version, None, HeadHash(hash, entries)), t.encode(payload)))
            && t.decode(t.encode(payload)) == Ok(payload)
  {
    hide DecodeData, BuildData, EncodeNni, DecodeNni, ReadHeader, EntryContent, SignedRegion, HeadHash;
    var name := EntryName(root, |entries|);
    var prev := HeadHash(hash, entries);
    var content := EntryContent(t.version, prev, t.encode(payload));
    var signature := signer.sign(SignedRegion(name, content, signer.info)).value;
    BuiltDataDecodes(name, content, signer.info, signature);
    HeaderReadsBack(t.version, prev, t.encode(payload));
    NniRoundTrip(|entries|);
    ContentIsSmaller(name, content, signer.info, signature);
    PayloadIsSmaller(t.version, prev, t.encode(payload));
  }

  lemma ContentIsSmaller(name: Name, content: Bytes, info: Bytes, signature: Bytes)
    ensures |content| < |BuildData(name, content, info, signature)|
  {
    hide WriteTlv, EncodeName;
    TlvSize(CONTENT, content);
    var tail := WriteTlv(SIGNATURE_INFO, info) + WriteTlv(SIGNATURE_VALUE, signature);
    TlvSize(DATA, EncodeName(name) + (WriteTlv(CONTENT, content) + tail));
  }

  lemma PayloadIsSmaller(version: nat, prev: Hash, payload: Bytes)
    ensures |payload| <= |EntryContent(version, prev, payload)|
  {
    hide WriteTlv, EncodeNni;
  }

  /** An accepted signer's append keeps the chain verified, and is read back. */
  lemma AppendKeepsVerified<T(!new)>(t: EntryType<T>, root: Name, hash: Bytes -> Hash, vouched: Data -> bool,
                                     entries: seq<Data>, payload: T, signer: Signer)
    requires Lawful(t) && WellFormedName(root) && |entries| < U64
    requires Verified(t.version, vouched, hash, entries)
    requires NewEntry(t, root, hash, entries, payload, signer).Ok?
    requires vouched(NewEntry(t, root, hash, entries, payload, signer).value)
    ensures var after := entries + [NewEntry(t, root, hash, entries, payload, signer).value];
            && Verified(t.version, vouched, hash, after)
            && DecodeEntry(t, after, |entries|) == Ok(payload)
  {
    hide NewEntry, ReadHeader, SeqOf, HeadHash, EntryName;
    NewEntryIsGood(t, root, hash, entries, payload, signer);
    var after := entries + [NewEntry(t, root, hash, entries, payload, signer).value];
    forall i | 0 <= i < |after|
      ensures Links(t.version, vouched, after[i], i, HeadHash(hash, after[..i]))
    {
      if i < |entries| {
        assert after[..i] == entries[..i];
      } else {
        assert after[..i] == entries;
      }
    }
  }

  /** Every prefix of a verified chain is one. */
  lemma PrefixVerifies(version: nat, vouched: Data -> bool, hash: Bytes -> Hash, entries: seq<Data>, n: nat)
    requires Verified(version, vouched, hash, entries) && n <= |entries|
    ensures Verified(version, vouched, hash, entries[..n])
  {
    hide Links, HeadHash;
    forall i | 0 <= i < n
      ensures Links(version, vouched, entries[..n][i], i, HeadHash(hash, entries[..n][..i]))
    {
      assert entries[..n][..i] == entries[..i];
    }
  }

  /** Two different packets of the chains with one digest. */
  ghost predicate Collides(hash: Bytes -> Hash, a: seq<Data>, b: seq<Data>) {
    exists i, j :: 0 <= i < |a| && 0 <= j < |b| && a[i].wire != b[j].wire && Digest(hash, a[i]) == Digest(hash, b[j])
  }

  /** A packet of the chain with the digest an empty chain shows. */
  ghost predicate HitsZero(hash: Bytes -> Hash, a: seq<Data>) {
    exists i :: 0 <= i < |a| && Digest(hash, a[i]) == ZERO
  }

  /** The store holds what its wires decode to. */
  ghost predicate AllDecoded(entries: seq<Data>) {
    forall i :: 0 <= i < |entries| ==> DecodeData(entries[i].wire) == Ok(entries[i])
  }

  lemma LastLinks(version: nat, vouched: Data -> bool, hash: Bytes -> Hash, entries: seq<Data>)
    requires Verified(version, vouched, hash, entries) && entries != []
    ensures SeqOf(entries[|entries| - 1].name) == Some(|entries| - 1)
    ensures ReadHeader(ContentOf(entries[|entries| - 1])).Ok?
    ensures ReadHeader(ContentOf(entries[|entries| - 1])).value.0.prev == HeadHash(hash, entries[..|entries| - 1])
  {
    hide SeqOf, ReadHeader, HeadHash;
    assert Links(version, vouched, entries[|entries| - 1], |entries| - 1, HeadHash(hash, entries[..|entries| - 1]));
  }

  /**
   * Tamper evidence: two verified chains with one head hash are the same chain,
   * entry for entry, or they exhibit two packets with one digest, or a packet
   * whose digest is zero.
   */
  lemma {:induction false} TamperEvidence(version: nat, vouched: Data -> bool, hash: Bytes -> Hash, a: seq<Data>,
                                          b: seq<Data>)
    requires Verified(version, vouched, hash, a) && Verified(version, vouched, hash, b)
    requires AllDecoded(a) && AllDecoded(b)
    requires HeadHash(hash, a) == HeadHash(hash, b)
    ensures a == b || Collides(hash, a, b) || HitsZero(hash, a) || HitsZero(hash, b)
    decreases |a|
  {
    hide Verified, SeqOf, ReadHeader, DecodeData, Digest;
    if a == [] || b == [] {
      if a != [] {
        assert Digest(hash, a[|a| - 1]) == ZERO;
      }
      if b != [] {
        assert Digest(hash, b[|b| - 1]) == ZERO;
      }
    } else {
      var m, n := |a| - 1, |b| - 1;
      assert Digest(hash, a[m]) == Digest(hash, b[n]);
      if a[m].wire == b[n].wire {
        assert a[m] == b[n] by { assert DecodeData(a[m].wire) == Ok(a[m]); assert DecodeData(b[n].wire) == Ok(b[n]); }
        LastLinks(version, vouched, hash, a);
        LastLinks(version, vouched, hash, b);
        PrefixVerifies(version, vouched, hash, a, m);
        PrefixVerifies(version, vouched, hash, b, n);
        TamperEvidence(version, vouched, hash, a[..m], b[..n]);
        PrefixEvidence(hash, a, b, m, n);
        assert a == a[..m] + [a[m]] && b == b[..n] + [b[n]];
      }
    }
  }

  lemma PrefixEvidence(hash: Bytes -> Hash, a: seq<Data>, b: seq<Data>, m: nat, n: nat)
    requires m <= |a| && n <= |b|
    ensures Collides(hash, a[..m], b[..n]) ==> Collides(hash, a, b)
    ensures HitsZero(hash, a[..m]) ==> HitsZero(hash, a)
    ensures HitsZero(hash, b[..n]) ==> HitsZero(hash, b)
  {
    hide Digest;
    if Collides(hash, a[..m], b[..n]) {
      var i, j :| 0 <= i < m && 0 <= j < n && a[..m][i].wire != b[..n][j].wire
                  && Digest(hash, a[..m][i]) == Digest(hash, b[..n][j]);
      assert a[i].wire != b[j].wire && Digest(hash, a[i]) == Digest(hash, b[j]);
    }
    if HitsZero(hash, a[..m]) {
      var i :| 0 <= i < m && Digest(hash, a[..m][i]) == ZERO;
      assert Digest(hash, a[i]) == ZERO;
    }
    if HitsZero(hash, b[..n]) {
      var i :| 0 <= i < n && Digest(hash, b[..n][i]) == ZERO;
      assert Digest(hash, b[i]) == ZERO;
    }
  }

  // ---------------------------------------------------------------------- any run of appends

  /** One `append`: its signer, and whether the backend takes the entry. */
  datatype Request<T> = Request(payload: T, signer: Signer, stored: bool)

  function AfterRequest<T>(t: EntryType<T>, root: Name, hash: Bytes -> Hash, entries: seq<Data>,
                           q: Request<T>): seq<Data>
  {
    match NewEntry(t, root, hash, entries, q.payload, q.signer)
    case Err(_) => entries
    case Ok(d) => if q.stored then entries + [d] else entries
  }

  function AfterRequests<T>(t: EntryType<T>, root: Name, hash: Bytes -> Hash, entries: seq<Data>, qs: seq<Request<T>>)
    : seq<Data>
    decreases |qs|
  {
    if qs == [] then entries
    else AfterRequests(t, root, hash, AfterRequest(t, root, hash, entries, qs[0]), qs[1..])
  }

  /** The payloads whose append succeeded, in order. */
  function Accepted<T>(t: EntryType<T>, root: Name, hash: Bytes -> Hash, entries: seq<Data>,
                       qs: seq<Request<T>>): seq<T>
    decreases |qs|
  {
    if qs == [] then []
    else
      var after := AfterRequest(t, root, hash, entries, qs[0]);
      (if |after| > |entries| then [qs[0].payload] else []) + Accepted(t, root, hash, after, qs[1..])
  }

  /** The entries are those of `payloads`, in order, and verify. */
  ghost predicate Tells<T(!new)>(t: EntryType<T>, vouched: Data -> bool, hash: Bytes -> Hash, entries: seq<Data>,
                                 payloads: seq<T>)
  {
    && |entries| == |payloads| && Verified(t.version, vouched, hash, entries) && AllDecoded(entries)
    && forall i :: 0 <= i < |entries| ==> DecodeEntry(t, entries, i) == Ok(payloads[i])
  }

  lemma RequestTells<T(!new)>(t: EntryType<T>, root: Name, hash: Bytes -> Hash, vouched: Data -> bool,
                              entries: seq<Data>, payloads: seq<T>, q: Request<T>)
    requires Lawful(t) && WellFormedName(root) && |entries| < U64 && Tells(t, vouched, hash, entries, payloads)
    requires NewEntry(t, root, hash, entries, q.payload, q.signer).Ok?
             ==> vouched(NewEntry(t, root, hash, entries, q.payload, q.signer).value)
    ensures var after := AfterRequest(t, root, hash, entries, q);
            && |entries| <= |after| <= |entries| + 1
            && Tells(t, vouched, hash, after, if |after| > |entries| then payloads + [q.payload] else payloads)
  {
    hide Lawful, NewEntry, Verified, DecodeData, ReadHeader, ContentOf;
    if NewEntry(t, root, hash, entries, q.payload, q.signer).Ok? && q.stored {
      AppendKeepsVerified(t, root, hash, vouched, entries, q.payload, q.signer);
      NewEntryIsGood(t, root, hash, entries, q.payload, q.signer);
      var after := AfterRequest(t, root, hash, entries, q);
      forall i | 0 <= i < |entries|
        ensures DecodeEntry(t, after, i) == Ok(payloads[i])
      {
        assert DecodeEntry(t, entries, i) == Ok(payloads[i]);
        assert after[i] == entries[i];
      }
    }
  }

  /** Whether `vouched` accepts what the signers of a run make. */
  ghost predicate Trusted<T(!new)>(t: EntryType<T>, root: Name, hash: Bytes -> Hash, vouched: Data -> bool,
                                   qs: seq<Request<T>>)
  {
    forall i, entries: seq<Data> :: 0 <= i < |qs| && NewEntry(t, root, hash, entries, qs[i].payload, qs[i].signer).Ok?
      ==> vouched(NewEntry(t, root, hash, entries, qs[i].payload, qs[i].signer).value)
  }

  /**
   * After any appends by accepted signers, whichever of them failed, the chain
   * verifies and entry `i` decodes to the `i`-th payload that was accepted.
   */
  lemma {:induction false} EveryRunVerifies<T(!new)>(t: EntryType<T>, root: Name, hash: Bytes -> Hash,
                                                     vouched: Data -> bool,
                                                     entries: seq<Data>, payloads: seq<T>, qs: seq<Request<T>>)
    requires Lawful(t) && WellFormedName(root) && |entries| + |qs| < U64
    requires Tells(t, vouched, hash, entries, payloads) && Trusted(t, root, hash, vouched, qs)
    ensures Tells(t, vouched, hash, AfterRequests(t, root, hash, entries, qs),
                  payloads + Accepted(t, root, hash, entries, qs))
    decreases |qs|
  {
    hide Lawful, Tells, NewEntry, AfterRequest;
    if qs == [] {
      assert payloads + [] == payloads;
    } else {
      RequestTells(t, root, hash, vouched, entries, payloads, qs[0]);
      var after := AfterRequest(t, root, hash, entries, qs[0]);
      forall i, es: seq<Data> | 0 <= i < |qs[1..]|
        && NewEntry(t, root, hash, es, qs[1..][i].payload, qs[1..][i].signer).Ok?
        ensures vouched(NewEntry(t, root, hash, es, qs[1..][i].payload, qs[1..][i].signer).value)
      {
        assert qs[1..][i] == qs[i + 1];
      }
      var rest := Accepted(t, root, hash, after, qs[1..]);
      if |after| > |entries| {
        EveryRunVerifies(t, root, hash, vouched, after, payloads + [qs[0].payload], qs[1..]);
        Assoc(payloads, [qs[0].payload], rest);
      } else {
        EveryRunVerifies(t, root, hash, vouched, after, payloads, qs[1..]);
        assert [] + rest == rest;
      }
    }
  }

  // --------------------------------------------------------------------------- the store

  class MemoryStore {
    var entries: seq<Bytes>

    constructor ()
      ensures entries == []
    {
      entries := [];
    }

    method Append(seqNo: nat, wire: Bytes) returns (ok: bool)
      modifies this
      ensures ok <==> seqNo == |old(entries)|
      ensures entries == if ok then old(entries) + [wire] else old(entries)
    {
      if seqNo != |entries| {
        return false;
      }
      entries := entries + [wire];
      return true;
    }
  }

  datatype Backing = InMemory(memory: MemoryStore) | OnDisk(disk: FileStore.FileStore) {
    function Parts(): set<object> {
      match this
      case InMemory(m) => {m}
      case OnDisk(f) => {f}
    }

    ghost predicate Valid()
      reads Parts()
    {
      OnDisk? ==> disk.Valid()
    }

    ghost function Wires(): seq<Bytes>
      reads Parts()
    {
      match this
      case InMemory(m) => m.entries
      case OnDisk(f) => f.wires
    }

    method LoadAll() returns (r: seq<Bytes>)
      requires Valid()
      ensures r == Wires()
    {
      match this {
        case InMemory(m) => r := m.entries;
        case OnDisk(f) => r := f.LoadAll();
      }
    }

    /** `stop` is where writing to disk goes wrong, if it does. */
    method Append(seqNo: nat, wire: Bytes, stop: Option<FileStore.Stop>) returns (r: Result<(), ChainError>)
      requires Valid() && |Wires()| < U64 && (OnDisk? ==> seqNo == |Wires()|)
      modifies Parts()
      ensures Valid()
      ensures r.Ok? <==> seqNo == |old(Wires())| && (InMemory? || stop.None?)
      ensures r.Ok? ==> Wires() == old(Wires()) + [wire]
      ensures r.Err? ==> Wires() == old(Wires()) || (r.error == Gone && Wires() == old(Wires()) + [wire])
      ensures OnDisk? ==> && (r == Err(Gone) <==> stop.Some? && stop.value.crash)
                          && Wires() == if FileStore.Placed(stop) then old(Wires()) + [wire] else old(Wires())
    {
      match this {
        case InMemory(m) =>
          var ok := m.Append(seqNo, wire);
          r := if ok then Ok(()) else Err(Backend);
        case OnDisk(f) =>
          var outcome := f.Append(seqNo, wire, stop);
          r := match outcome case Done => Ok(()) case Failed => Err(Backend) case Crashed => Err(Gone);
      }
    }
  }

  function WiresOf(entries: seq<Data>): seq<Bytes> {
    seq(|entries|, i requires 0 <= i < |entries| => entries[i].wire)
  }

  ghost predicate Decodable(wires: seq<Bytes>) {
    forall i :: 0 <= i < |wires| ==> DecodeData(wires[i]).Ok?
  }

  class SignedDataChainStore<!T> {
    const root: Name
    const kind: EntryType<T>
    const hash: Bytes -> Hash
    const backend: Backing
    var entries: seq<Data>

    /** What is in memory is what the backend holds. */
    ghost predicate Valid()
      reads this, backend.Parts()
    {
      && this !in backend.Parts() && backend.Valid()
      && AllDecoded(entries) && backend.Wires() == WiresOf(entries)
    }

    constructor Of(root: Name, kind: EntryType<T>, hash: Bytes -> Hash, backend: Backing, entries: seq<Data>)
      requires backend.Valid() && AllDecoded(entries) && backend.Wires() == WiresOf(entries)
      ensures this.root == root && this.kind == kind && this.hash == hash && this.backend == backend
      ensures this.entries == entries && Valid()
    {
      this.root, this.kind, this.hash, this.backend, this.entries := root, kind, hash, backend, entries;
    }

    /** Open a chain, replaying what the backend holds; one wire that does not
        decode refuses it all. */
    static method Open(root: Name, kind: EntryType<T>, hash: Bytes -> Hash, backend: Backing)
      returns (r: Result<SignedDataChainStore<T>, ChainError>)
      requires backend.Valid()
      ensures r.Ok? <==> Decodable(backend.Wires())
      ensures r.Ok? ==> && fresh(r.value) && r.value.Valid() && r.value.backend == backend
                        && r.value.root == root && r.value.kind == kind && r.value.hash == hash
      ensures r.Err? ==> r.error == DataWire
    {
      hide DecodeData, AllDecoded, WiresOf, Decodable;
      var wires := backend.LoadAll();
      var entries := DecodeAll(wires);
      if entries.Err? {
        return Err(entries.error);
      }
      var store := new SignedDataChainStore<T>.Of(root, kind, hash, backend, entries.value);
      r := Ok(store);
    }

    static method DecodeAll(wires: seq<Bytes>) returns (r: Result<seq<Data>, ChainError>)
      ensures r.Ok? <==> Decodable(wires)
      ensures r.Ok? ==> AllDecoded(r.value) && WiresOf(r.value) == wires
      ensures r.Err? ==> r.error == DataWire
    {
      hide DecodeData;
      var entries: seq<Data> := [];
      for i := 0 to |wires|
        invariant AllDecoded(entries) && WiresOf(entries) == wires[..i]
        invariant forall k :: 0 <= k < i ==> DecodeData(wires[k]).Ok?
      {
        var d := DecodeData(wires[i]);
        if d.Err? {
          return Err(DataWire);
        }
        DecodedKeepsWire(wires[i]);
        entries := entries + [d.value];
      }
      assert wires[..|wires|] == wires;
      r := Ok(entries);
    }

    method Head() returns (h: Hash)
      ensures h == HeadHash(hash, entries)
    {
      h := if entries == [] then ZERO else hash(entries[|entries| - 1].wire);
    }

    /** Sign and append one payload; on any failure nothing has changed. Only when
        the process ends in the middle may the backend be one entry ahead. */
    method Append(payload: T, signer: Signer, stop: Option<FileStore.Stop>) returns (r: Result<Hash, ChainError>)
      requires Valid() && |entries| < U64
      modifies this, backend.Parts()
      ensures var made := NewEntry(kind, root, hash, old(entries), payload, signer);
              && (r.Ok? <==> made.Ok? && (backend.InMemory? || stop.None?))
              && (r.Ok? ==> Valid() && entries == old(entries) + [made.value] && r.value == Digest(hash, made.value))
              && (r.Err? ==> entries == old(entries) && (made.Err? ==> r.error == made.error))
              && (r.Err? && r.error != Gone ==> Valid())
              && (r == Err(Gone) ==> && backend.Valid() && made.Ok? && backend.OnDisk?
                                     && backend.Wires() == WiresOf(if FileStore.Placed(stop) then entries + [made.value]
                                                                   else entries))
              && (r.Ok? ==> backend.OnDisk? ==> FileStore.Placed(stop))
              && (r.Err? && r.error != Gone && made.Ok? ==> backend.OnDisk? && !FileStore.Placed(stop))
    {
      hide NewEntry, DecodeData, HeadHash;
      var made := NewEntry(kind, root, hash, entries, payload, signer);
      NewEntryDecodes(kind, root, hash, entries, payload, signer);
      if made.Err? {
        return Err(made.error);
      }
      assert WiresOf(entries + [made.value]) == WiresOf(entries) + [made.value.wire];
      var stored := backend.Append(|entries|, made.value.wire, stop);
      if stored.Err? {
        return Err(stored.error);
      }
      entries := entries + [made.value];
      r := Ok(hash(made.value.wire));
    }

    /** Accepts exactly the chains all of whose links are good; otherwise names the
        first entry that is not. */
    method Verify(vouched: Data -> bool) returns (r: Result<(), ChainError>)
      ensures r.Ok? <==> Verified(kind.version, vouched, hash, entries)
      ensures r.Err? ==> && r.error.BrokenChain? && r.error.seqNo < |entries|
                         && Verified(kind.version, vouched, hash, entries[..r.error.seqNo])
                         && !Links(kind.version, vouched, entries[r.error.seqNo], r.error.seqNo,
                                   HeadHash(hash, entries[..r.error.seqNo]))
    {
      hide SeqOf, ReadHeader, Links, HeadHash, Verified;
      var expected: Hash := ZERO;
      NothingToVerify(kind.version, vouched, hash, entries);
      for i := 0 to |entries|
        invariant expected == HeadHash(hash, entries[..i])
        invariant Verified(kind.version, vouched, hash, entries[..i])
      {
        var entry := entries[i];
        LinkChecks(kind.version, vouched, entry, i, expected);
        OneMoreLink(kind.version, vouched, hash, entries, i);
        var seqNo := SeqOf(entry.name);
        if seqNo != Some(i) {
          return Err(BrokenChain(i));
        }
        var header := ReadHeader(ContentOf(entry));
        if header.Err? || header.value.0.schemaVersion != kind.version || header.value.0.prev != expected {
          return Err(BrokenChain(i));
        }
        if !vouched(entry) {
          return Err(BrokenChain(i));
        }
        expected := hash(entry.wire);
      }
      assert entries[..|entries|] == entries;
      r := Ok(());
    }
  }

  lemma NothingToVerify(version: nat, vouched: Data -> bool, hash: Bytes -> Hash, entries: seq<Data>)
    ensures Verified(version, vouched, hash, entries[..0]) && HeadHash(hash, entries[..0]) == ZERO
  {
  }

  lemma LinkChecks(version: nat, vouched: Data -> bool, e: Data, seqNo: nat, prev: Hash)
    ensures Links(version, vouched, e, seqNo, prev) <==>
              && SeqOf(e.name) == Some(seqNo) && ReadHeader(ContentOf(e)).Ok?
              && ReadHeader(ContentOf(e)).value.0.schemaVersion == version
              && ReadHeader(ContentOf(e)).value.0.prev == prev && vouched(e)
  {
    hide SeqOf, ReadHeader;
  }

  lemma DecodedKeepsWire(wire: Bytes)
    requires DecodeData(wire).Ok?
    ensures DecodeData(wire).value.wire == wire
  {
    hide FindContent, NextField, DecodeName;
  }

  lemma NewEntryDecodes<T>(t: EntryType<T>, root: Name, hash: Bytes -> Hash, entries: seq<Data>, payload: T,
                           signer: Signer)
    ensures NewEntry(t, root, hash, entries, payload, signer).Ok? ==>
              var d := NewEntry(t, root, hash, entries, payload, signer).value;
              DecodeData(d.wire) == Ok(d)
    ensures NewEntry(t, root, hash, entries, payload, signer).Err? ==>
              NewEntry(t, root, hash, entries, payload, signer).error in {DataWire} ||
              NewEntry(t, root, hash, entries, payload, signer).error.Sign?
  {
    hide DecodeData, BuildData, EntryContent, SignedRegion, HeadHash;
    var name := EntryName(root, |entries|);
    var content := EntryContent(t.version, HeadHash(hash, entries), t.encode(payload));
    var signed := signer.sign(SignedRegion(name, content, signer.info));
    if signed.Ok? {
      var wire := BuildData(name, content, signer.info, signed.value);
      if DecodeData(wire).Ok? {
        DecodedKeepsWire(wire);
      }
    }
  }

  lemma OneMoreLink(version: nat, vouched: Data -> bool, hash: Bytes -> Hash, entries: seq<Data>, i: nat)
    requires i < |entries| && Verified(version, vouched, hash, entries[..i])
    ensures Links(version, vouched, entries[i], i, HeadHash(hash, entries[..i])) ==>
              Verified(version, vouched, hash, entries[..i + 1])
    ensures Verified(version, vouched, hash, entries)
      ==> Links(version, vouched, entries[i], i, HeadHash(hash, entries[..i]))
    ensures HeadHash(hash, entries[..i + 1]) == hash(entries[i].wire)
  {
    hide Links;
    var before, now := entries[..i], entries[..i + 1];
    assert now[i] == entries[i];
    if Links(version, vouched, entries[i], i, HeadHash(hash, before)) {
      forall k | 0 <= k < |now|
        ensures Links(version, vouched, now[k], k, HeadHash(hash, now[..k]))
      {
        assert now[..k] == entries[..k];
        if k < i {
          assert before[..k] == entries[..k] && before[k] == now[k];
        }
      }
    }
  }

  /** A store that is valid opens again, to the same chain. */
  lemma ReopensTheSame(entries: seq<Data>, again: seq<Data>)
    requires AllDecoded(entries) && AllDecoded(again) && WiresOf(entries) == WiresOf(again)
    ensures entries == again
    ensures Decodable(WiresOf(entries))
  {
    hide DecodeData;
    assert |WiresOf(entries)| == |entries| && |WiresOf(again)| == |again|;
    forall i | 0 <= i < |entries|
      ensures entries[i] == again[i] && DecodeData(WiresOf(entries)[i]).Ok?
    {
      assert WiresOf(entries)[i] == entries[i].wire && WiresOf(again)[i] == again[i].wire;
    }
  }

  // ------------------------------------------------------------ whose chain it is

  /** The entries carry the root's own names. */
  predicate OfRoot(root: Name, entries: seq<Data>) {
    forall i :: 0 <= i < |entries| ==> entries[i].name == EntryName(root, i)
  }

  /** What can be read off a name: the root before its last component, and a sequence
      number in its shortest form. */
  predicate NamedUnder(root: Name, name: Name) {
    && name != [] && name[..|name| - 1] == root
    && DecodeNni(name[|name| - 1].value).Ok?
    && |name[|name| - 1].value| == |EncodeNni(DecodeNni(name[|name| - 1].value).value)|
  }

  lemma ShortestNni(b: Bytes)
    requires DecodeNni(b).Ok? && |b| == |EncodeNni(DecodeNni(b).value)|
    ensures b == EncodeNni(DecodeNni(b).value)
  {
    Powers();
    BeInverse(b);
    if |b| == 1 {
      assert b == [b[0]];
    }
  }

  /** A chain that verifies is of a root exactly when every name is under it. */
  lemma OfRootIff(version: nat, vouched: Data -> bool, hash: Bytes -> Hash, root: Name, entries: seq<Data>)
    requires Verified(version, vouched, hash, entries)
    ensures OfRoot(root, entries) <==> forall i :: 0 <= i < |entries| ==> NamedUnder(root, entries[i].name)
  {
    hide Verified, NamedUnder, EntryName;
    forall i | 0 <= i < |entries|
      ensures entries[i].name == EntryName(root, i) <==> NamedUnder(root, entries[i].name)
    {
      PrefixVerifies(version, vouched, hash, entries, i + 1);
      LastLinks(version, vouched, hash, entries[..i + 1]);
      NameIff(root, entries[i].name, i);
    }
  }

  lemma NameIff(root: Name, name: Name, i: nat)
    requires SeqOf(name) == Some(i)
    ensures name == EntryName(root, i) <==> NamedUnder(root, name)
  {
    hide EncodeNni, DecodeNni;
    var last := name[|name| - 1];
    assert name == name[..|name| - 1] + [last];
    if NamedUnder(root, name) {
      ShortestNni(last.value);
      assert last == Component(SEQUENCE_NUM, EncodeNni(i));
    }
    if name == EntryName(root, i) {
      assert last == Component(SEQUENCE_NUM, EncodeNni(i)) && name[..|name| - 1] == root;
    }
  }

  lemma {:induction false} AppendsKeepRoot<T(!new)>(t: EntryType<T>, root: Name, hash: Bytes -> Hash,
                                                    entries: seq<Data>, qs: seq<Request<T>>)
    requires Lawful(t) && WellFormedName(root) && |entries| + |qs| < U64
    ensures entries <= AfterRequests(t, root, hash, entries, qs)
    ensures OfRoot(root, entries) ==> OfRoot(root, AfterRequests(t, root, hash, entries, qs))
    decreases |qs|
  {
    hide Lawful, NewEntry, EntryName, ReadHeader, DecodeData;
    if qs != [] {
      var q := qs[0];
      if NewEntry(t, root, hash, entries, q.payload, q.signer).Ok? {
        NewEntryIsGood(t, root, hash, entries, q.payload, q.signer);
      }
      AppendsKeepRoot(t, root, hash, AfterRequest(t, root, hash, entries, q), qs[1..]);
    }
  }

  /**
   * `verify` does not look at the root: a chain grown under one root opens in a store
   * of another one, is continued there, and verifies, though it is not of that root.
   */
  lemma OtherRootGoesUnnoticed<T(!new)>(t: EntryType<T>, root: Name, other: Name, hash: Bytes -> Hash,
                                        vouched: Data -> bool,
                                        qs: seq<Request<T>>, more: seq<Request<T>>)
    requires Lawful(t) && WellFormedName(root) && WellFormedName(other) && root != other && |qs| + |more| < U64
    requires Trusted(t, root, hash, vouched, qs) && Trusted(t, other, hash, vouched, more)
    ensures var grown := AfterRequests(t, root, hash, [], qs);
            var all := AfterRequests(t, other, hash, grown, more);
            && OfRoot(root, grown) && Decodable(WiresOf(grown)) && Decodable(WiresOf(all))
            && Tells(t, vouched, hash, all, Accepted(t, root, hash, [], qs) + Accepted(t, other, hash, grown, more))
            && (grown != [] ==> !OfRoot(other, all))
  {
    hide Lawful, Trusted, Tells, OfRoot, AfterRequests, Accepted, WellFormedName, WiresOf, Decodable;
    GrownFromNothing(t, root, hash, vouched, qs);
    var grown, told := AfterRequests(t, root, hash, [], qs), Accepted(t, root, hash, [], qs);
    EveryRunVerifies(t, other, hash, vouched, grown, told, more);
    var all := AfterRequests(t, other, hash, grown, more);
    AppendsKeepRoot(t, other, hash, grown, more);
    TellsDecodes(t, vouched, hash, all, told + Accepted(t, other, hash, grown, more));
    NotOfBoth(root, other, grown, all);
  }

  /** From nothing the chain grows exactly if some append that is stored succeeds as
      the first. */
  lemma {:induction false} GrowsIff<T>(t: EntryType<T>, root: Name, hash: Bytes -> Hash, qs: seq<Request<T>>)
    ensures AfterRequests(t, root, hash, [], qs) != [] <==>
            exists k :: 0 <= k < |qs| && qs[k].stored && NewEntry(t, root, hash, [], qs[k].payload, qs[k].signer).Ok?
    decreases |qs|
  {
    hide NewEntry;
    if qs != [] {
      var after := AfterRequest(t, root, hash, [], qs[0]);
      if after != [] {
        OnlyGrows(t, root, hash, after, qs[1..]);
      } else {
        GrowsIff(t, root, hash, qs[1..]);
        assert forall k :: 0 < k < |qs| ==> qs[k] == qs[1..][k - 1];
        assert forall k :: 0 <= k < |qs[1..]| ==> qs[1..][k] == qs[k + 1];
      }
    }
  }

  lemma {:induction false} OnlyGrows<T>(t: EntryType<T>, root: Name, hash: Bytes -> Hash, entries: seq<Data>,
                                        qs: seq<Request<T>>)
    ensures |AfterRequests(t, root, hash, entries, qs)| >= |entries|
    decreases |qs|
  {
    hide NewEntry;
    if qs != [] {
      OnlyGrows(t, root, hash, AfterRequest(t, root, hash, entries, qs[0]), qs[1..]);
    }
  }

  lemma TlvBound(t: nat, value: Bytes)
    ensures |WriteTlv(t, value)| <= |value| + 18
  {
  }

  /** One request to append `payload`, signed with no bytes at all. */
  function Unsigned<T>(payload: T): Request<T> {
    Request(payload, Signer([], _ => Ok([])), true)
  }

  lemma SmallPacket(name: Name, content: Bytes)
    ensures |BuildData(name, content, [], [])| <= |NameValue(name)| + |content| + 90
  {
    hide WriteTlv, NameValue;
    TlvBound(NAME, NameValue(name));
    TlvBound(CONTENT, content);
    TlvBound(SIGNATURE_INFO, []);
    TlvBound(SIGNATURE_VALUE, []);
    TlvBound(DATA, EncodeName(name) + (WriteTlv(CONTENT, content) + (WriteTlv(SIGNATURE_INFO, [])
                                                                     + WriteTlv(SIGNATURE_VALUE, []))));
  }

  lemma SmallContent(version: nat, prev: Hash, payload: Bytes)
    ensures |EntryContent(version, prev, payload)| <= |payload| + 94
  {
    hide WriteTlv, EncodeNni;
    TlvBound(SCHEMA_VERSION, EncodeNni(version));
    TlvBound(AUTHORED_UNDER, []);
    TlvBound(PREV_ENTRY_HASH, prev);
  }

  lemma FirstName()
    ensures |NameValue(EntryName([], 0))| <= 19
  {
    hide WriteTlv;
    var c := Component(SEQUENCE_NUM, [0]);
    assert EntryName([], 0) == [c];
    assert NameFields([c]) == [Field(SEQUENCE_NUM, [0])];
    assert Encoded([Field(SEQUENCE_NUM, [0])]) == WriteTlv(SEQUENCE_NUM, [0]) + Encoded([]);
    TlvBound(SEQUENCE_NUM, [0]);
  }

  lemma FirstAppend<T>(t: EntryType<T>, hash: Bytes -> Hash, payload: T)
    requires |t.encode(payload)| <= 0xFFFF_FFFF
    ensures NewEntry(t, [], hash, [], payload, Unsigned(payload).signer).Ok?
  {
    hide NewEntry, BuildData, EntryContent, EntryName, SignedRegion, NameValue;
    var content := EntryContent(t.version, HeadHash(hash, []), t.encode(payload));
    NewEntrySucceedsIff(t, [], hash, [], payload, Unsigned(payload).signer);
    SmallContent(t.version, HeadHash(hash, []), t.encode(payload));
    FirstName();
    SmallPacket(EntryName([], 0), content);
  }

  /** So there is such a chain: one entry made under the empty name verifies in a store
      of any other root. */
  lemma OtherRootExample<T(!new)>(t: EntryType<T>, other: Name, hash: Bytes -> Hash, payload: T)
    requires Lawful(t) && WellFormedName(other) && other != [] && |t.encode(payload)| <= 0xFFFF_FFFF
    ensures var grown := AfterRequests(t, [], hash, [], [Unsigned(payload)]);
            && Tells(t, _ => true, hash, grown, [payload]) && OfRoot([], grown) && !OfRoot(other, grown)
  {
    hide Lawful, Tells, OfRoot, NewEntry;
    FirstAppend(t, hash, payload);
    GrowsIff(t, [], hash, [Unsigned(payload)]);
    var grown := AfterRequests(t, [], hash, [], [Unsigned(payload)]);
    OtherRootGoesUnnoticed(t, [], other, hash, _ => true, [Unsigned(payload)], []);
    GrownFromNothing(t, [], hash, _ => true, [Unsigned(payload)]);
    assert Accepted(t, [], hash, [], [Unsigned(payload)]) == [payload];
    assert AfterRequests(t, other, hash, grown, []) == grown;
  }

  lemma GrownFromNothing<T(!new)>(t: EntryType<T>, root: Name, hash: Bytes -> Hash, vouched: Data -> bool,
                                  qs: seq<Request<T>>)
    requires Lawful(t) && WellFormedName(root) && |qs| < U64 && Trusted(t, root, hash, vouched, qs)
    ensures var grown := AfterRequests(t, root, hash, [], qs);
            && Tells(t, vouched, hash, grown, Accepted(t, root, hash, [], qs))
            && OfRoot(root, grown) && |grown| <= |qs| && Decodable(WiresOf(grown))
  {
    hide Lawful, Trusted, Tells, OfRoot, AfterRequests, Accepted, WellFormedName, WiresOf, Decodable;
    NothingTells(t, root, vouched, hash);
    EveryRunVerifies(t, root, hash, vouched, [], [], qs);
    var told := Accepted(t, root, hash, [], qs);
    assert [] + told == told;
    AfterRequestsSize(t, root, hash, [], qs);
    AppendsKeepRoot(t, root, hash, [], qs);
    TellsDecodes(t, vouched, hash, AfterRequests(t, root, hash, [], qs), told);
  }

  lemma NothingTells<T(!new)>(t: EntryType<T>, root: Name, vouched: Data -> bool, hash: Bytes -> Hash)
    ensures Tells(t, vouched, hash, [], []) && OfRoot(root, [])
  {
  }

  lemma TellsDecodes<T(!new)>(t: EntryType<T>, vouched: Data -> bool, hash: Bytes -> Hash, entries: seq<Data>,
                              payloads: seq<T>)
    requires Tells(t, vouched, hash, entries, payloads)
    ensures Decodable(WiresOf(entries)) && AllDecoded(entries) && Verified(t.version, vouched, hash, entries)
  {
    hide DecodeData, Verified, DecodeEntry;
  }

  lemma NotOfBoth(root: Name, other: Name, grown: seq<Data>, all: seq<Data>)
    requires OfRoot(root, grown) && grown <= all && root != other
    ensures grown != [] ==> !OfRoot(other, all)
  {
    hide EncodeNni;
    EntryNameTellsRoot(root, 0);
    EntryNameTellsRoot(other, 0);
    assert grown != [] ==> grown[0] == all[0];
  }

  lemma EntryNameTellsRoot(root: Name, i: nat)
    ensures EntryName(root, i)[..|EntryName(root, i)| - 1] == root
  {
    hide EncodeNni;
  }

  lemma {:induction false} AfterRequestsSize<T>(t: EntryType<T>, root: Name, hash: Bytes -> Hash, entries: seq<Data>,
                                                qs: seq<Request<T>>)
    ensures |AfterRequests(t, root, hash, entries, qs)| <= |entries| + |qs|
    decreases |qs|
  {
    hide NewEntry;
    if qs != [] {
      AfterRequestsSize(t, root, hash, AfterRequest(t, root, hash, entries, qs[0]), qs[1..]);
    }
  }

  // ------------------------------------------------------- a chain on disk, crash by crash

  /** One append to a chain on disk, and what goes wrong while it is stored. */
  datatype DiskRequest<T> = DiskRequest(payload: T, signer: Signer, stop: Option<FileStore.Stop>)

  /** An entry is kept when its file was put in place, be the answer lost or not. */
  function Kept<T>(qs: seq<DiskRequest<T>>): seq<Request<T>> {
    seq(|qs|, i requires 0 <= i < |qs| => AsKept(qs[i]))
  }

  function AsKept<T>(q: DiskRequest<T>): Request<T> {
    Request(q.payload, q.signer, FileStore.Placed(q.stop))
  }

  lemma {:induction false} OneMoreRequest<T>(t: EntryType<T>, root: Name, hash: Bytes -> Hash, entries: seq<Data>,
                                             qs: seq<Request<T>>, q: Request<T>)
    ensures AfterRequests(t, root, hash, entries, qs + [q]) ==
            AfterRequest(t, root, hash, AfterRequests(t, root, hash, entries, qs), q)
    decreases |qs|
  {
    hide AfterRequest;
    if qs == [] {
      assert [] + [q] == [q] && [q][1..] == [];
    } else {
      assert (qs + [q])[0] == qs[0] && (qs + [q])[1..] == qs[1..] + [q];
      OneMoreRequest(t, root, hash, AfterRequest(t, root, hash, entries, qs[0]), qs[1..], q);
    }
  }

  lemma KeptMore<T>(qs: seq<DiskRequest<T>>, k: nat)
    requires k < |qs|
    ensures Kept(qs[..k + 1]) == Kept(qs[..k]) + [AsKept(qs[k])]
  {
  }

  /** One append, and the chain opened again if it took the process with it. */
  method AppendOnDisk<T(!new)>(store: SignedDataChainStore<T>, disk: FileStore.FileStore, q: DiskRequest<T>)
      returns (next: SignedDataChainStore<T>)
    requires store.Valid() && store.backend == OnDisk(disk) && |store.entries| < U64
    modifies store, disk
    ensures next == store || fresh(next)
    ensures next.Valid() && next.backend == OnDisk(disk)
    ensures next.root == store.root && next.kind == store.kind && next.hash == store.hash
    ensures next.entries == AfterRequest(store.kind, store.root, store.hash, old(store.entries), AsKept(q))
    ensures |next.entries| <= |old(store.entries)| + 1
  {
    hide AfterRequest, NewEntry, WiresOf, AllDecoded, FileStore.Placed, AsKept;
    ghost var before := store.entries;
    AfterOne(store.kind, store.root, store.hash, before, q);
    KeptIsDecoded(store.kind, store.root, store.hash, before, q);
    var answer := store.Append(q.payload, q.signer, q.stop);
    if answer == Err(Gone) {
      next := Reopened(store.root, store.kind, store.hash, disk,
                       AfterRequest(store.kind, store.root, store.hash, before, AsKept(q)));
    } else {
      next := store;
    }
  }

  /**
   * Appends to a chain on disk, some of them failing, some taking the process with
   * them, after which the chain is opened again. Opening always succeeds, and what is
   * open at the end is the chain of the entries kept: it verifies, and its entries
   * decode to their payloads, in order.
   */
  method RunOnDisk<T(!new)>(root: Name, kind: EntryType<T>, hash: Bytes -> Hash, disk: FileStore.FileStore,
                            qs: seq<DiskRequest<T>>, ghost vouched: Data -> bool,
                            ghost start: seq<Data>, ghost payloads: seq<T>)
      returns (store: SignedDataChainStore<T>)
    requires disk.Valid() && disk.wires == WiresOf(start) && |start| + |qs| < U64
    requires Lawful(kind) && WellFormedName(root)
    requires Tells(kind, vouched, hash, start, payloads) && Trusted(kind, root, hash, vouched, Kept(qs))
    modifies disk
    ensures fresh(store) && store.Valid() && store.backend == OnDisk(disk) && disk.wires == WiresOf(store.entries)
    ensures store.entries == AfterRequests(kind, root, hash, start, Kept(qs))
    ensures Tells(kind, vouched, hash, store.entries, payloads + Accepted(kind, root, hash, start, Kept(qs)))
  {
    hide Lawful, Trusted, Tells, AfterRequests, AfterRequest, Accepted, Kept, AsKept, WiresOf, AllDecoded;
    TellsDecodes(kind, vouched, hash, start, payloads);
    store := Reopened(root, kind, hash, disk, start);
    NoRequests(kind, root, hash, start, qs);
    for k := 0 to |qs|
      invariant fresh(store) && store.Valid() && store.backend == OnDisk(disk)
      invariant store.root == root && store.kind == kind && store.hash == hash
      invariant store.entries == AfterRequests(kind, root, hash, start, Kept(qs[..k]))
      invariant |store.entries| <= |start| + k
    {
      store := AppendOnDisk(store, disk, qs[k]);
      KeptMore(qs, k);
      OneMoreRequest(kind, root, hash, start, Kept(qs[..k]), AsKept(qs[k]));
    }
    assert qs[..|qs|] == qs;
    KeptSize(qs);
    EveryRunVerifies(kind, root, hash, vouched, start, payloads, Kept(qs));
  }

  lemma KeptSize<T>(qs: seq<DiskRequest<T>>)
    ensures |Kept(qs)| == |qs|
  {
  }

  lemma NoRequests<T>(t: EntryType<T>, root: Name, hash: Bytes -> Hash, entries: seq<Data>, qs: seq<DiskRequest<T>>)
    ensures AfterRequests(t, root, hash, entries, Kept(qs[..0])) == entries
  {
  }

  lemma AfterOne<T>(t: EntryType<T>, root: Name, hash: Bytes -> Hash, entries: seq<Data>, q: DiskRequest<T>)
    ensures var made := NewEntry(t, root, hash, entries, q.payload, q.signer);
            AfterRequest(t, root, hash, entries, AsKept(q)) ==
            if made.Ok? && FileStore.Placed(q.stop) then entries + [made.value] else entries
  {
    hide NewEntry, FileStore.Placed;
  }

  lemma KeptIsDecoded<T>(t: EntryType<T>, root: Name, hash: Bytes -> Hash, entries: seq<Data>, q: DiskRequest<T>)
    requires AllDecoded(entries)
    ensures AllDecoded(AfterRequest(t, root, hash, entries, AsKept(q)))
  {
    hide NewEntry, FileStore.Placed, DecodeData;
    NewEntryDecodes(t, root, hash, entries, q.payload, q.signer);
  }

  /** Opening what is on disk gives the entries whose wires it holds. */
  method Reopened<T>(root: Name, kind: EntryType<T>, hash: Bytes -> Hash, disk: FileStore.FileStore,
                     ghost entries: seq<Data>)
      returns (store: SignedDataChainStore<T>)
    requires disk.Valid() && AllDecoded(entries) && disk.wires == WiresOf(entries)
    ensures fresh(store) && store.Valid() && store.backend == OnDisk(disk) && store.entries == entries
    ensures store.root == root && store.kind == kind && store.hash == hash
  {
    hide AllDecoded, WiresOf, Decodable;
    ReopensTheSame(entries, entries);
    var r := SignedDataChainStore<T>.Open(root, kind, hash, OnDisk(disk));
    store := r.value;
    ReopensTheSame(entries, store.entries);
  }
}
