/**
 * What the signatures of a chain cover: the signed part of each packet is read back
 * off its wire, and a verifier that accepts what the signers sign accepts the chain
 * (ndn-dashboard-core/src/signed_data_chain.rs).
 */
module Signing {
  import opened Common
  import opened Tlv
  import opened Messages
  import opened Chain

  // ---------------------------------------------------------------- reading it back

  /** Where the first SignatureValue among the elements of a packet starts, and its value. */
  function SignatureAt(elements: Bytes): Option<(nat, Bytes)>
    decreases |elements|
  {
    match NextField(elements)
    case Err(_) => None
    case Ok((f, rest)) =>
      if f.t == SIGNATURE_VALUE then Some((0, f.value))
      else if |rest| >= |elements| then None
      else match SignatureAt(rest)
           case None => None
           case Some((k, sig)) => Some((|elements| - |rest| + k, sig))
  }

  /** The signed part of a packet, all its elements before the signature, and the signature. */
  function SignedParts(wire: Bytes): Option<(Bytes, Bytes)> {
    match NextField(wire)
    case Err(_) => None
    case Ok((packet, after)) =>
      if packet.t != DATA || after != [] then None
      else match SignatureAt(packet.value)
           case None => None
           case Some((k, sig)) => if k <= |packet.value| then Some((packet.value[..k], sig)) else None
  }

  lemma SignatureBehind(f: Field, rest: Bytes)
    requires f.Writable()
    ensures f.t == SIGNATURE_VALUE ==> SignatureAt(f.Whole() + rest) == Some((0, f.value))
    ensures f.t != SIGNATURE_VALUE ==>
              SignatureAt(f.Whole() + rest) == match SignatureAt(rest)
                                               case None => None
                                               case Some((k, sig)) => Some((|f.Whole()| + k, sig))
  {
    hide NextField, WriteTlv;
    FieldRoundTrip(f, rest);
  }

  /** A packet is its signed part and the signature, in one Data TLV. */
  lemma SignedPartIsWhatPrecedes(name: Name, content: Bytes, info: Bytes, signature: Bytes)
    ensures BuildData(name, content, info, signature)
            == WriteTlv(DATA, SignedRegion(name, content, info) + WriteTlv(SIGNATURE_VALUE, signature))
  {
    hide WriteTlv, NameValue;
    var n, c, i, s := EncodeName(name), WriteTlv(CONTENT, content), WriteTlv(SIGNATURE_INFO, info),
      WriteTlv(SIGNATURE_VALUE, signature);
    Assoc(n, c + i, s);
    Assoc(c, i, s);
  }

  /** The signed part is the name, the content and the SignatureInfo, each in its TLV. */
  lemma SignedPartHasAll(name: Name, content: Bytes, info: Bytes, rest: Bytes)
    requires |SignedRegion(name, content, info)| < U64
    ensures var signed := SignedRegion(name, content, info);
            && NextField(signed + rest).Ok?
            && NextField(signed + rest).value.0 == Field(NAME, NameValue(name))
            && var rest1 := NextField(signed + rest).value.1;
               && NextField(rest1).Ok? && NextField(rest1).value.0 == Field(CONTENT, content)
               && var rest2 := NextField(rest1).value.1;
                  NextField(rest2) == Ok((Field(SIGNATURE_INFO, info), rest))
  {
    hide NextField, WriteTlv, NameValue;
    var n, c, i := Field(NAME, NameValue(name)), Field(CONTENT, content), Field(SIGNATURE_INFO, info);
    TlvSize(NAME, n.value);
    TlvSize(CONTENT, content);
    TlvSize(SIGNATURE_INFO, info);
    Assoc(n.Whole(), c.Whole() + i.Whole(), rest);
    Assoc(c.Whole(), i.Whole(), rest);
    FieldRoundTrip(n, c.Whole() + (i.Whole() + rest));
    FieldRoundTrip(c, i.Whole() + rest);
    FieldRoundTrip(i, rest);
  }

  /** From the wire of a packet built, a reader gets exactly what its signer was given,
      and the signature. */
  lemma SignedReadsBack(name: Name, content: Bytes, info: Bytes, signature: Bytes)
    requires |BuildData(name, content, info, signature)| < U64
    ensures SignedParts(BuildData(name, content, info, signature))
            == Some((SignedRegion(name, content, info), signature))
  {
    hide NextField, WriteTlv, NameValue, SignatureAt, BuildData, SignedRegion;
    SignedPartIsWhatPrecedes(name, content, info, signature);
    var signed, sig := SignedRegion(name, content, info), Field(SIGNATURE_VALUE, signature);
    var packet := Field(DATA, signed + sig.Whole());
    TlvSize(DATA, packet.value);
    TlvSize(SIGNATURE_VALUE, signature);
    FieldRoundTrip(packet, []);
    assert packet.Whole() + [] == packet.Whole();
    assert sig.Whole() + [] == sig.Whole();
    SignatureBehind(sig, []);
    PastSigned(name, content, info, sig.Whole());
    assert packet.value[..|signed|] == signed;
  }

  lemma PastSigned(name: Name, content: Bytes, info: Bytes, rest: Bytes)
    requires |SignedRegion(name, content, info)| < U64
    ensures var signed := SignedRegion(name, content, info);
            SignatureAt(signed + rest) == match SignatureAt(rest)
                                          case None => None
                                          case Some((k, sig)) => Some((|signed| + k, sig))
  {
    hide NextField, WriteTlv, NameValue, SignatureAt;
    var n, c, i := Field(NAME, NameValue(name)), Field(CONTENT, content), Field(SIGNATURE_INFO, info);
    TlvSize(NAME, n.value);
    TlvSize(CONTENT, content);
    TlvSize(SIGNATURE_INFO, info);
    Assoc(n.Whole(), c.Whole() + i.Whole(), rest);
    Assoc(c.Whole(), i.Whole(), rest);
    SignatureBehind(n, c.Whole() + (i.Whole() + rest));
    SignatureBehind(c, i.Whole() + rest);
    SignatureBehind(i, rest);
  }

  lemma {:induction false} SignatureIsThere(elements: Bytes)
    requires SignatureAt(elements).Some?
    ensures var (k, sig) := SignatureAt(elements).value;
            k <= |elements| && WriteTlv(0x17, sig) <= elements[k..]
    decreases |elements|
  {
    hide WriteTlv, NextField;
    FieldCanonical(elements);
    var (f, rest) := NextField(elements).value;
    if f.t == SIGNATURE_VALUE {
      assert elements[0..] == elements;
    } else {
      SignatureIsThere(rest);
      var (k, sig) := SignatureAt(rest).value;
      assert elements[|f.Whole()| + k..] == rest[k..];
    }
  }

  /** Of any packet, what is read as signed part and signature is the front of one Data TLV. */
  lemma SignedPartsAreThere(wire: Bytes)
    requires SignedParts(wire).Some?
    ensures var (signed, signature) := SignedParts(wire).value;
            exists rest: Bytes :: wire == WriteTlv(6, signed + WriteTlv(0x17, signature) + rest)
  {
    hide WriteTlv, NextField, SignatureAt;
    FieldCanonical(wire);
    var packet := NextField(wire).value.0;
    SignatureIsThere(packet.value);
    var (k, sig) := SignatureAt(packet.value).value;
    var rest := packet.value[k..][|WriteTlv(0x17, sig)|..];
    assert packet.value == packet.value[..k] + WriteTlv(0x17, sig) + rest;
    assert packet.Whole() + [] == packet.Whole();
  }

  /** What is signed tells name, content and SignatureInfo: no two packets that differ in
      one of them have one signed part. */
  lemma SignedPartTellsAll(name: Name, content: Bytes, info: Bytes, name': Name, content': Bytes, info': Bytes)
    requires WellFormedName(name) && WellFormedName(name')
    requires SignedRegion(name, content, info) == SignedRegion(name', content', info')
    requires |SignedRegion(name, content, info)| < U64
    ensures name == name' && content == content' && info == info'
  {
    hide NextField, NameValue, DecodeName, WellFormedName, SignedRegion;
    SignedPartHasAll(name, content, info, []);
    SignedPartHasAll(name', content', info', []);
    NameIsSmaller(name, content, info);
    NameIsSmaller(name', content', info');
    NameRoundTrip(name);
    NameRoundTrip(name');
  }

  lemma NameIsSmaller(name: Name, content: Bytes, info: Bytes)
    ensures |NameValue(name)| < |SignedRegion(name, content, info)|
  {
    hide WriteTlv, NameValue;
    TlvSize(NAME, NameValue(name));
  }

  // ---------------------------------------------------------------- who is accepted

  /** A verifier, given what it makes of signed bytes and a signature. */
  predicate Vouches(checks: (Bytes, Bytes) -> bool, d: Data) {
    match SignedParts(d.wire)
    case None => false
    case Some((signed, signature)) => checks(signed, signature)
  }

  /** It accepts every signature the signer makes. */
  ghost predicate Honours(checks: (Bytes, Bytes) -> bool, signer: Signer) {
    forall m :: signer.sign(m).Ok? ==> checks(m, signer.sign(m).value)
  }

  /** The packet an append stores carries what was signed, and the signature on it. */
  lemma AppendedIsSigned<T>(t: EntryType<T>, root: Name, hash: Bytes -> Hash, entries: seq<Data>, payload: T,
                            signer: Signer)
    requires WellFormedName(root) && NewEntry(t, root, hash, entries, payload, signer).Ok?
    ensures var d := NewEntry(t, root, hash, entries, payload, signer).value;
            && SignedParts(d.wire).Some?
            && var (signed, signature) := SignedParts(d.wire).value;
               signer.sign(signed) == Ok(signature)
  {
    hide DecodeData, BuildData, EncodeNni, EntryContent, SignedRegion, HeadHash, SignedParts;
    var name := EntryName(root, |entries|);
    var content := EntryContent(t.version, HeadHash(hash, entries), t.encode(payload));
    var signature := signer.sign(SignedRegion(name, content, signer.info)).value;
    BuiltDataDecodes(name, content, signer.info, signature);
    SignedReadsBack(name, content, signer.info, signature);
  }

  /** So a verifier that honours the signers of a run accepts all they append. */
  lemma HonouredIsTrusted<T(!new)>(t: EntryType<T>, root: Name, hash: Bytes -> Hash, checks: (Bytes, Bytes) -> bool,
                                   qs: seq<Request<T>>)
    requires WellFormedName(root) && forall i :: 0 <= i < |qs| ==> Honours(checks, qs[i].signer)
    ensures Trusted(t, root, hash, d => Vouches(checks, d), qs)
  {
    hide NewEntry, SignedParts;
    forall i, entries: seq<Data> | 0 <= i < |qs| && NewEntry(t, root, hash, entries, qs[i].payload, qs[i].signer).Ok?
      ensures Vouches(checks, NewEntry(t, root, hash, entries, qs[i].payload, qs[i].signer).value)
    {
      AppendedIsSigned(t, root, hash, entries, qs[i].payload, qs[i].signer);
    }
  }

  /**
   * Any appends by signers the verifier honours, whichever of them fail, leave a chain
   * that this verifier accepts and that tells the payloads accepted, in order.
   */
  lemma SignedRunVerifies<T(!new)>(t: EntryType<T>, root: Name, hash: Bytes -> Hash, checks: (Bytes, Bytes) -> bool,
                                   qs: seq<Request<T>>)
    requires Lawful(t) && WellFormedName(root) && |qs| < U64
    requires forall i :: 0 <= i < |qs| ==> Honours(checks, qs[i].signer)
    ensures Tells(t, d => Vouches(checks, d), hash, AfterRequests(t, root, hash, [], qs),
                  Accepted(t, root, hash, [], qs))
  {
    hide Lawful, Trusted, Tells, AfterRequests, Accepted, WellFormedName, WiresOf, Decodable, OfRoot, Honours;
    HonouredIsTrusted(t, root, hash, checks, qs);
    GrownFromNothing(t, root, hash, d => Vouches(checks, d), qs);
  }

  /** A packet a verifier accepts for signed bytes that some append had signed says what
      that append said: it has its name and its content. */
  lemma SignedSaysTheSame(wire: Bytes, d: Data, name: Name, content: Bytes, info: Bytes, signature: Bytes)
    requires DecodeData(wire) == Ok(d) && WellFormedName(name) && |wire| < U64
    requires SignedParts(wire) == Some((SignedRegion(name, content, info), signature))
    ensures d.name == name && d.content == Some(content)
  {
    hide NextField, NameValue, DecodeName, SignatureAt, SignedRegion, WellFormedName, FindContent;
    FieldCanonical(wire);
    var value := NextField(wire).value.0.value;
    WholeIsLonger(NextField(wire).value.0, NextField(wire).value.1);
    var signed := SignedRegion(name, content, info);
    var rest := value[|signed|..];
    assert value == signed + rest;
    SignedPartHasAll(name, content, info, rest);
    NameIsSmaller(name, content, info);
    NameRoundTrip(name);
    ContentFound(NextField(value).value.1, content);
  }

  lemma WholeIsLonger(f: Field, rest: Bytes)
    ensures |f.value| < |f.Whole() + rest|
  {
  }

  lemma ContentFound(elements: Bytes, content: Bytes)
    requires NextField(elements).Ok? && NextField(elements).value.0 == Field(CONTENT, content)
    ensures FindContent(elements) == Ok(Some(content))
  {
    FieldCanonical(elements);
  }

  /**
   * Nothing else gets in: if the verifier accepts only what was signed for the entries of
   * a chain, every packet it accepts has the name and the content of one of them.
   */
  lemma OnlySignedEntriesPass(checks: (Bytes, Bytes) -> bool, names: seq<Name>, contents: seq<Bytes>,
                              infos: seq<Bytes>, d: Data)
    requires |names| == |contents| == |infos| && forall i :: 0 <= i < |names| ==> WellFormedName(names[i])
    requires forall m, s :: checks(m, s) ==>
               exists i :: 0 <= i < |names| && m == SignedRegion(names[i], contents[i], infos[i])
    requires DecodeData(d.wire) == Ok(d) && |d.wire| < U64 && Vouches(checks, d)
    ensures exists i :: 0 <= i < |names| && d.name == names[i] && d.content == Some(contents[i])
  {
    hide DecodeData, SignedParts, SignedRegion, WellFormedName;
    var (signed, signature) := SignedParts(d.wire).value;
    var i :| 0 <= i < |names| && signed == SignedRegion(names[i], contents[i], infos[i]);
    SignedSaysTheSame(d.wire, d, names[i], contents[i], infos[i], signature);
  }
}
