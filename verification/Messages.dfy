/**
 * Link messages of ndn-face-quic (message.rs, membership.rs): what each
 * encoder writes, what each decoder accepts, and that they undo each other
 * on exactly the well-formed messages.
 */
module Messages {
  import opened Common
  import opened Tlv

  const LINK_HELLO := 0x0450
  const LINK_VERSION := 0x0451
  const LINK_VERDICT := 0x0452
  const ENROLLMENT_LINK := 0x0454
  const OBSERVED_ADDRESS := 0x0458
  const DIRECT_PATH := 0x045A
  const MEMBERSHIP := 0x045C
  const MEMBERSHIP_BINDING := 0x045E
  const REACHABILITY := 0x0440
  const HOLD_INTERESTS := 0x0442
  const WAKE_TOKEN := 0x0444
  const PRESENCE := 0x0446
  const PRESENT_DEVICE := 0x0448
  const KEY_DIGEST := 0x044A
  const DATA := 0x06
  const NAME := 0x07

  const LINK_PROTOCOL_VERSION: Byte := 1
  const MAX_MESSAGE := 64 * 1024
  const WAKE_TOKEN_MAX := 1024

  /** Why a message is refused. */
  datatype Fault =
    | BadTlv(m: Malformed)
    | UnknownCritical(t: nat)
    | BadLength(t: nat, len: nat)
    | BadNameComponent(t: nat)
    | NotAName(t: nat)
    | Missing(t: nat)
    | OtherVersion(v: Byte)
    | NoNamespaces

  // ------------------------------------------------------------------------ names

  datatype Component = Component(typ: nat, value: Bytes)

  type Name = seq<Component>

  predicate ComponentType(t: nat) {
    1 <= t <= 65535
  }

  predicate WellFormedName(n: Name) {
    forall k :: 0 <= k < |n| ==> ComponentType(n[k].typ)
  }

  function NameFields(n: Name): seq<Field> {
    seq(|n|, i requires 0 <= i < |n| => Field(n[i].typ, n[i].value))
  }

  /** The value of a Name TLV. */
  function NameValue(n: Name): Bytes {
    Encoded(NameFields(n))
  }

  function EncodeName(n: Name): Bytes {
    WriteTlv(NAME, NameValue(n))
  }

  function NameStep(n: Name, f: Field): Result<Name, Fault> {
    if ComponentType(f.t) then Ok(n + [Component(f.t, f.value)]) else Err(BadNameComponent(f.t))
  }

  function DecodeName(value: Bytes): Result<Name, Fault> {
    Fold(value, [], NameStep, m => BadTlv(m))
  }

  lemma {:induction false} NameFold(n: Name, k: nat, acc: Name)
    requires k <= |n| && WellFormedName(n)
    ensures FoldList(NameFields(n)[k..], acc, NameStep) == Ok(acc + n[k..])
    decreases |n| - k
  {
    var fs := NameFields(n);
    if k < |n| {
      assert fs[k..][0] == Field(n[k].typ, n[k].value) && fs[k..][1..] == fs[k + 1..];
      NameFold(n, k + 1, acc + [n[k]]);
      assert acc + [n[k]] + n[k + 1..] == acc + n[k..];
    } else {
      assert fs[k..] == [] && acc + n[k..] == acc;
    }
  }

  lemma NameRoundTrip(n: Name)
    requires WellFormedName(n) && |NameValue(n)| < U64
    ensures DecodeName(NameValue(n)) == Ok(n)
  {
    EncodedFits(NameFields(n));
    FoldAll(NameFields(n), [], NameStep, m => BadTlv(m));
    NameFold(n, 0, []);
    assert NameFields(n)[0..] == NameFields(n) && [] + n[0..] == n;
  }

  lemma DecodedNameIsWellFormed(value: Bytes)
    requires DecodeName(value).Ok?
    ensures WellFormedName(DecodeName(value).value)
  {
    FoldKeeps(value, [], NameStep, m => BadTlv(m), n => WellFormedName(n));
  }

  // ----------------------------------------------------------------- certificates

  /** One whole Data TLV. */
  predicate IsDataTlv(cert: Bytes) {
    NextField(cert).Ok? && NextField(cert).value.0.t == DATA && NextField(cert).value.1 == []
  }

  predicate AreDataTlvs(certs: seq<Bytes>) {
    forall k :: 0 <= k < |certs| ==> IsDataTlv(certs[k])
  }

  function CertFields(certs: seq<Bytes>): seq<Field>
    requires AreDataTlvs(certs)
  {
    seq(|certs|, i requires 0 <= i < |certs| => NextField(certs[i]).value.0)
  }

  lemma CertIsWhole(cert: Bytes)
    requires IsDataTlv(cert)
    ensures NextField(cert).Ok? && NextField(cert).value.0.t == DATA
    ensures NextField(cert).value.0.Whole() == cert && NextField(cert).value.0.Writable()
  {
    FieldCanonical(cert);
    assert NextField(cert).value.0.Whole() + [] == NextField(cert).value.0.Whole();
  }

  lemma WholeIsDataTlv(f: Field)
    requires f.t == DATA && f.Writable()
    ensures IsDataTlv(f.Whole())
  {
    FieldRoundTrip(f, []);
    assert f.Whole() + [] == f.Whole();
  }

  lemma {:induction false} CertsEncoded(certs: seq<Bytes>)
    requires AreDataTlvs(certs)
    ensures Encoded(CertFields(certs)) == Flatten(certs)
  {
    if certs != [] {
      CertIsWhole(certs[0]);
      CertsEncoded(certs[1..]);
      assert CertFields(certs)[1..] == CertFields(certs[1..]);
    }
  }

  // ------------------------------------------------------------------- Membership

  datatype Membership = Membership(certificates: seq<Bytes>, binding: Bytes)

  predicate WellFormedMembership(m: Membership) {
    m.certificates != [] && AreDataTlvs(m.certificates) && m.binding != []
  }

  function MembershipValue(m: Membership): Bytes {
    Flatten(m.certificates) + WriteTlv(MEMBERSHIP_BINDING, m.binding)
  }

  function EncodeMembership(m: Membership): Bytes {
    WriteTlv(MEMBERSHIP, MembershipValue(m))
  }

  datatype MembershipAcc = MembershipAcc(certificates: seq<Bytes>, binding: Option<Bytes>)

  function MembershipStep(acc: MembershipAcc, f: Field): Result<MembershipAcc, Fault> {
    if f.t == DATA then Ok(acc.(certificates := acc.certificates + [f.Whole()]))
    else if f.t == MEMBERSHIP_BINDING then
      if f.value == [] then Err(BadLength(f.t, 0)) else Ok(acc.(binding := Some(f.value)))
    else if Skippable(f.t) then Ok(acc)
    else Err(UnknownCritical(f.t))
  }

  function MembershipEnd(acc: MembershipAcc): Result<Membership, Fault> {
    if acc.certificates == [] then Err(Missing(DATA))
    else match acc.binding
         case None => Err(Missing(MEMBERSHIP_BINDING))
         case Some(b) => Ok(Membership(acc.certificates, b))
  }

  function DecodeMembership(value: Bytes): Result<Membership, Fault> {
    match Fold(value, MembershipAcc([], None), MembershipStep, m => BadTlv(m))
    case Err(e) => Err(e)
    case Ok(acc) => MembershipEnd(acc)
  }

  lemma {:induction false} MembershipCertsFold(certs: seq<Bytes>, k: nat, acc: MembershipAcc)
    requires AreDataTlvs(certs) && k <= |certs|
    ensures FoldList(CertFields(certs)[k..], acc, MembershipStep) ==
            Ok(acc.(certificates := acc.certificates + certs[k..]))
    decreases |certs| - k
  {
    hide NextField, IsDataTlv, WriteTlv;
    var fs := CertFields(certs);
    if k < |certs| {
      CertIsWhole(certs[k]);
      assert fs[k..][0] == fs[k] && fs[k..][1..] == fs[k + 1..];
      var acc' := acc.(certificates := acc.certificates + [certs[k]]);
      MembershipCertsFold(certs, k + 1, acc');
      assert acc'.certificates + certs[k + 1..] == acc.certificates + certs[k..];
    } else {
      assert fs[k..] == [] && acc.certificates + certs[k..] == acc.certificates;
    }
  }

  lemma MembershipRoundTrip(m: Membership)
    requires |MembershipValue(m)| < U64
    ensures DecodeMembership(MembershipValue(m)) == Ok(m) <==> WellFormedMembership(m)
  {
    if WellFormedMembership(m) {
      var certs := CertFields(m.certificates);
      var last := Field(MEMBERSHIP_BINDING, m.binding);
      CertsEncoded(m.certificates);
      EncodedAppend(certs, [last]);
      EncodedOne(last);
      CertFieldTypes(m.certificates);
      EncodedFits(certs + [last]);
      var init := MembershipAcc([], None);
      FoldAll(certs + [last], init, MembershipStep, m => BadTlv(m));
      FoldListAppend(certs, [last], init, MembershipStep);
      MembershipCertsFold(m.certificates, 0, init);
      assert certs[0..] == certs && [] + m.certificates[0..] == m.certificates;
      FoldOne(last, MembershipAcc(m.certificates, None), MembershipStep);
    } else if DecodeMembership(MembershipValue(m)) == Ok(m) {
      DecodedMembershipIsWellFormed(MembershipValue(m));
    }
  }

  /** A membership written on its own is one TLV, read back exactly when well-formed. */
  lemma MembershipReadsBack(m: Membership, rest: Bytes)
    requires |MembershipValue(m)| < U64
    ensures NextField(EncodeMembership(m) + rest) == Ok((Field(MEMBERSHIP, MembershipValue(m)), rest))
    ensures DecodeMembership(NextField(EncodeMembership(m) + rest).value.0.value) == Ok(m) <==> WellFormedMembership(m)
  {
    hide NextField, WriteTlv, DecodeMembership, WellFormedMembership, MembershipValue;
    FieldRoundTrip(Field(MEMBERSHIP, MembershipValue(m)), rest);
    MembershipRoundTrip(m);
  }

  lemma CertFieldTypes(certs: seq<Bytes>)
    requires AreDataTlvs(certs)
    ensures forall k :: 0 <= k < |CertFields(certs)| ==> CertFields(certs)[k].t == DATA
  {
  }

  lemma FoldOne<S, E>(f: Field, s: S, step: (S, Field) -> Result<S, E>)
    ensures FoldList([f], s, step) == step(s, f)
  {
    assert [f][1..] == [];
  }

  lemma DecodedMembershipIsWellFormed(value: Bytes)
    requires DecodeMembership(value).Ok?
    ensures WellFormedMembership(DecodeMembership(value).value)
  {
    var inv := (acc: MembershipAcc) => AreDataTlvs(acc.certificates) && acc.binding != Some([]);
    forall acc: MembershipAcc, f: Field | inv(acc) && f.Writable() && MembershipStep(acc, f).Ok?
      ensures inv(MembershipStep(acc, f).value)
    {
      if f.t == DATA {
        WholeIsDataTlv(f);
      }
    }
    FoldKeeps(value, MembershipAcc([], None), MembershipStep, m => BadTlv(m), inv);
  }

  lemma MembershipUnknownField(a: seq<Field>, u: Field, b: Bytes)
    requires forall k :: 0 <= k < |a| ==> a[k].Writable()
    requires u.Writable() && u.t !in {DATA, MEMBERSHIP_BINDING}
    ensures u.t > 31 && u.t % 2 == 0 ==>
              DecodeMembership(Encoded(a) + u.Whole() + b) == DecodeMembership(Encoded(a) + b)
    ensures u.t <= 31 || u.t % 2 == 1 ==> DecodeMembership(Encoded(a) + u.Whole() + b).Err?
  {
    if u.t > 31 && u.t % 2 == 0 {
      FoldIgnores(a, u, b, MembershipAcc([], None), MembershipStep, m => BadTlv(m));
    } else {
      FoldRefuses(a, u, b, MembershipAcc([], None), MembershipStep, m => BadTlv(m));
    }
  }

  // -------------------------------------------------------------------- LinkHello

  datatype LinkHello = LinkHello(certificates: seq<Bytes>, memberships: seq<Membership>, directPath: Option<Bytes>)

  predicate WellFormedHello(h: LinkHello) {
    && AreDataTlvs(h.certificates)
    && (forall k :: 0 <= k < |h.memberships| ==> WellFormedMembership(h.memberships[k]))
    && (h.directPath.Some? ==> |h.directPath.value| == 8)
  }

  function MembershipFields(ms: seq<Membership>): seq<Field> {
    seq(|ms|, i requires 0 <= i < |ms| => Field(MEMBERSHIP, MembershipValue(ms[i])))
  }

  function DirectPathFields(session: Option<Bytes>): seq<Field> {
    if session.Some? then [Field(DIRECT_PATH, session.value)] else []
  }

  /** What the encoder writes inside the hello. */
  function HelloValue(h: LinkHello): Bytes {
    WriteTlv(LINK_VERSION, [LINK_PROTOCOL_VERSION]) + Flatten(h.certificates)
      + Encoded(MembershipFields(h.memberships)) + Encoded(DirectPathFields(h.directPath))
  }

  function EncodeHello(h: LinkHello): Bytes {
    WriteTlv(LINK_HELLO, HelloValue(h))
  }

  datatype HelloAcc = HelloAcc(hello: LinkHello, version: Option<Byte>)

  const NO_HELLO := HelloAcc(LinkHello([], [], None), None)

  function HelloStep(acc: HelloAcc, f: Field): Result<HelloAcc, Fault> {
    if f.t == LINK_VERSION then
      if |f.value| == 1 then Ok(acc.(version := Some(f.value[0]))) else Err(BadLength(f.t, |f.value|))
    else if f.t == DATA then
      Ok(acc.(hello := acc.hello.(certificates := acc.hello.certificates + [f.Whole()])))
    else if f.t == MEMBERSHIP then
      match DecodeMembership(f.value)
      case Err(e) => Err(e)
      case Ok(m) => Ok(acc.(hello := acc.hello.(memberships := acc.hello.memberships + [m])))
    else if f.t == DIRECT_PATH then
      if |f.value| == 8 then Ok(acc.(hello := acc.hello.(directPath := Some(f.value))))
      else Err(BadLength(f.t, |f.value|))
    else if Skippable(f.t) then Ok(acc)
    else Err(UnknownCritical(f.t))
  }

  function HelloEnd(acc: HelloAcc): Result<LinkHello, Fault> {
    match acc.version
    case None => Err(Missing(LINK_VERSION))
    case Some(v) => if v == LINK_PROTOCOL_VERSION then Ok(acc.hello) else Err(OtherVersion(v))
  }

  function HelloOf(value: Bytes): Result<LinkHello, Fault> {
    match Fold(value, NO_HELLO, HelloStep, m => BadTlv(m))
    case Err(e) => Err(e)
    case Ok(acc) => HelloEnd(acc)
  }

  method DecodeHello(value: Bytes) returns (r: Result<LinkHello, Fault>)
    ensures r == HelloOf(value)
    ensures r.Ok? ==> WellFormedHello(r.value)
  {
    var acc := RunFields(value, NO_HELLO, HelloStep, m => BadTlv(m));
    if acc.Err? {
      return Err(acc.error);
    }
    r := HelloEnd(acc.value);
    if r.Ok? {
      DecodedHelloIsWellFormed(value);
    }
  }

  lemma {:induction false} HelloCertsFold(certs: seq<Bytes>, k: nat, acc: HelloAcc)
    requires AreDataTlvs(certs) && k <= |certs|
    ensures FoldList(CertFields(certs)[k..], acc, HelloStep) ==
            Ok(acc.(hello := acc.hello.(certificates := acc.hello.certificates + certs[k..])))
    decreases |certs| - k
  {
    hide NextField, IsDataTlv, WriteTlv;
    var fs := CertFields(certs);
    if k < |certs| {
      CertIsWhole(certs[k]);
      assert fs[k..][0] == fs[k] && fs[k..][1..] == fs[k + 1..];
      var acc' := acc.(hello := acc.hello.(certificates := acc.hello.certificates + [certs[k]]));
      HelloCertsFold(certs, k + 1, acc');
      assert acc'.hello.certificates + certs[k + 1..] == acc.hello.certificates + certs[k..];
    } else {
      assert fs[k..] == [] && acc.hello.certificates + certs[k..] == acc.hello.certificates;
    }
  }

  lemma {:induction false} HelloMembershipsFold(ms: seq<Membership>, k: nat, acc: HelloAcc)
    requires k <= |ms| && forall i :: 0 <= i < |ms| ==> WellFormedMembership(ms[i]) && |MembershipValue(ms[i])| < U64
    ensures FoldList(MembershipFields(ms)[k..], acc, HelloStep) ==
            Ok(acc.(hello := acc.hello.(memberships := acc.hello.memberships + ms[k..])))
    decreases |ms| - k
  {
    hide DecodeMembership, MembershipValue, WellFormedMembership;
    var fs := MembershipFields(ms);
    if k < |ms| {
      MembershipRoundTrip(ms[k]);
      assert fs[k..][0] == fs[k] && fs[k..][1..] == fs[k + 1..];
      var acc' := acc.(hello := acc.hello.(memberships := acc.hello.memberships + [ms[k]]));
      HelloMembershipsFold(ms, k + 1, acc');
      assert acc'.hello.memberships + ms[k + 1..] == acc.hello.memberships + ms[k..];
    } else {
      assert fs[k..] == [] && acc.hello.memberships + ms[k..] == acc.hello.memberships;
    }
  }

  function HelloFields(h: LinkHello): seq<Field>
    requires AreDataTlvs(h.certificates)
  {
    [Field(LINK_VERSION, [LINK_PROTOCOL_VERSION])] + CertFields(h.certificates)
      + MembershipFields(h.memberships) + DirectPathFields(h.directPath)
  }

  lemma HelloIsFields(h: LinkHello)
    requires WellFormedHello(h) && |HelloValue(h)| < U64
    ensures Encoded(HelloFields(h)) == HelloValue(h)
    ensures forall k :: 0 <= k < |HelloFields(h)| ==> HelloFields(h)[k].Writable()
    ensures forall i :: 0 <= i < |h.memberships| ==> |MembershipValue(h.memberships[i])| < U64
  {
    hide MembershipValue, WellFormedMembership, WriteTlv, Encoded, CertFields, IsDataTlv;
    var v, c := [Field(LINK_VERSION, [LINK_PROTOCOL_VERSION])], CertFields(h.certificates);
    var m, d := MembershipFields(h.memberships), DirectPathFields(h.directPath);
    EncodedAppend(v + c + m, d);
    EncodedAppend(v + c, m);
    EncodedAppend(v, c);
    EncodedOne(v[0]);
    CertsEncoded(h.certificates);
    CertFieldTypes(h.certificates);
    EncodedFits(HelloFields(h));
    forall i | 0 <= i < |h.memberships|
      ensures |MembershipValue(h.memberships[i])| < U64
    {
      assert HelloFields(h)[1 + |c| + i] == m[i];
    }
  }

  lemma WellFormedHelloDecodes(h: LinkHello)
    requires WellFormedHello(h) && |HelloValue(h)| < U64
    ensures HelloOf(HelloValue(h)) == Ok(h)
  {
    hide MembershipValue, WellFormedMembership, WriteTlv, Encoded, CertFields, IsDataTlv, DecodeMembership, HelloValue;
    HelloIsFields(h);
    var v, c := [Field(LINK_VERSION, [LINK_PROTOCOL_VERSION])], CertFields(h.certificates);
    var m, d := MembershipFields(h.memberships), DirectPathFields(h.directPath);
    FoldAll(HelloFields(h), NO_HELLO, HelloStep, m => BadTlv(m));
    FoldListAppend(v + c + m, d, NO_HELLO, HelloStep);
    FoldListAppend(v + c, m, NO_HELLO, HelloStep);
    FoldListAppend(v, c, NO_HELLO, HelloStep);
    FoldOne(v[0], NO_HELLO, HelloStep);
    var a1 := HelloAcc(LinkHello([], [], None), Some(LINK_PROTOCOL_VERSION));
    HelloCertsFold(h.certificates, 0, a1);
    assert c[0..] == c && [] + h.certificates[0..] == h.certificates;
    var a2 := HelloAcc(LinkHello(h.certificates, [], None), Some(LINK_PROTOCOL_VERSION));
    HelloMembershipsFold(h.memberships, 0, a2);
    assert m[0..] == m && [] + h.memberships[0..] == h.memberships;
    if h.directPath.Some? {
      FoldOne(d[0], a2.(hello := a2.hello.(memberships := h.memberships)), HelloStep);
    }
  }

  lemma DecodedHelloIsWellFormed(value: Bytes)
    requires HelloOf(value).Ok?
    ensures WellFormedHello(HelloOf(value).value)
  {
    var inv := (acc: HelloAcc) => WellFormedHello(acc.hello);
    forall acc: HelloAcc, f: Field | inv(acc) && f.Writable() && HelloStep(acc, f).Ok?
      ensures inv(HelloStep(acc, f).value)
    {
      if f.t == DATA {
        WholeIsDataTlv(f);
      } else if f.t == MEMBERSHIP {
        DecodedMembershipIsWellFormed(f.value);
      }
    }
    FoldKeeps(value, NO_HELLO, HelloStep, m => BadTlv(m), inv);
  }

  /** Decoding undoes encoding on exactly the well-formed hellos. */
  lemma HelloRoundTrip(h: LinkHello)
    requires |HelloValue(h)| < U64
    ensures HelloOf(HelloValue(h)) == Ok(h) <==> WellFormedHello(h)
  {
    if WellFormedHello(h) {
      WellFormedHelloDecodes(h);
    } else if HelloOf(HelloValue(h)) == Ok(h) {
      DecodedHelloIsWellFormed(HelloValue(h));
    }
  }

  /** An unrecognized field between others is passed over if its type is even and above
      31, and fails the message if not. */
  lemma HelloUnknownField(a: seq<Field>, u: Field, b: Bytes)
    requires forall k :: 0 <= k < |a| ==> a[k].Writable()
    requires u.Writable() && u.t !in {LINK_VERSION, DATA, MEMBERSHIP, DIRECT_PATH}
    ensures u.t > 31 && u.t % 2 == 0 ==> HelloOf(Encoded(a) + u.Whole() + b) == HelloOf(Encoded(a) + b)
    ensures u.t <= 31 || u.t % 2 == 1 ==> HelloOf(Encoded(a) + u.Whole() + b).Err?
  {
    if u.t > 31 && u.t % 2 == 0 {
      FoldIgnores(a, u, b, NO_HELLO, HelloStep, m => BadTlv(m));
    } else {
      FoldRefuses(a, u, b, NO_HELLO, HelloStep, m => BadTlv(m));
    }
  }

  // ------------------------------------------------------------------ LinkVerdict

  datatype LinkVerdict = LinkVerdict(enrollmentLink: Option<seq<Name>>)

  predicate WellFormedNames(names: seq<Name>) {
    forall k :: 0 <= k < |names| ==> WellFormedName(names[k])
  }

  function NamesFields(names: seq<Name>): seq<Field> {
    seq(|names|, i requires 0 <= i < |names| => Field(NAME, NameValue(names[i])))
  }

  function VerdictValue(v: LinkVerdict): Bytes {
    if v.enrollmentLink.Some? then WriteTlv(ENROLLMENT_LINK, Encoded(NamesFields(v.enrollmentLink.value))) else []
  }

  function EncodeVerdict(v: LinkVerdict): Bytes {
    WriteTlv(LINK_VERDICT, VerdictValue(v))
  }

  function NamesStep(names: seq<Name>, f: Field): Result<seq<Name>, Fault> {
    if f.t != NAME then Err(NotAName(f.t))
    else match DecodeName(f.value)
         case Err(e) => Err(e)
         case Ok(n) => Ok(names + [n])
  }

  function DecodeNames(value: Bytes): Result<seq<Name>, Fault> {
    Fold(value, [], NamesStep, m => BadTlv(m))
  }

  function VerdictStep(v: LinkVerdict, f: Field): Result<LinkVerdict, Fault> {
    if f.t == ENROLLMENT_LINK then
      match DecodeNames(f.value)
      case Err(e) => Err(e)
      case Ok(names) => if names == [] then Err(NoNamespaces) else Ok(LinkVerdict(Some(names)))
    else if Skippable(f.t) then Ok(v)
    else Err(UnknownCritical(f.t))
  }

  function VerdictOf(value: Bytes): Result<LinkVerdict, Fault> {
    Fold(value, LinkVerdict(None), VerdictStep, m => BadTlv(m))
  }

  method DecodeVerdict(value: Bytes) returns (r: Result<LinkVerdict, Fault>)
    ensures r == VerdictOf(value)
    ensures r.Ok? ==> WellFormedVerdict(r.value)
  {
    r := RunFields(value, LinkVerdict(None), VerdictStep, m => BadTlv(m));
    if r.Ok? {
      DecodedVerdictIsWellFormed(value);
    }
  }

  lemma {:induction false} NamesFold(names: seq<Name>, k: nat, acc: seq<Name>)
    requires k <= |names| && WellFormedNames(names)
    requires forall i :: 0 <= i < |names| ==> |NameValue(names[i])| < U64
    ensures FoldList(NamesFields(names)[k..], acc, NamesStep) == Ok(acc + names[k..])
    decreases |names| - k
  {
    hide DecodeName, NameValue, WellFormedName;
    var fs := NamesFields(names);
    if k < |names| {
      NameRoundTrip(names[k]);
      assert fs[k..][0] == fs[k] && fs[k..][1..] == fs[k + 1..];
      NamesFold(names, k + 1, acc + [names[k]]);
      assert acc + [names[k]] + names[k + 1..] == acc + names[k..];
    } else {
      assert fs[k..] == [] && acc + names[k..] == acc;
    }
  }

  lemma NamesRoundTrip(names: seq<Name>)
    requires WellFormedNames(names) && |Encoded(NamesFields(names))| < U64
    ensures DecodeNames(Encoded(NamesFields(names))) == Ok(names)
  {
    hide DecodeName, NameValue, WellFormedName, WriteTlv, Encoded;
    var fs := NamesFields(names);
    EncodedFits(fs);
    forall i | 0 <= i < |names| ensures |NameValue(names[i])| < U64 { assert fs[i].Writable(); }
    FoldAll(fs, [], NamesStep, m => BadTlv(m));
    NamesFold(names, 0, []);
    assert fs[0..] == fs && [] + names[0..] == names;
  }

  predicate WellFormedVerdict(v: LinkVerdict) {
    v.enrollmentLink.Some? ==> v.enrollmentLink.value != [] && WellFormedNames(v.enrollmentLink.value)
  }

  lemma DecodedNamesAreWellFormed(value: Bytes)
    requires DecodeNames(value).Ok?
    ensures WellFormedNames(DecodeNames(value).value)
  {
    hide DecodeName, WellFormedName;
    var inv := (names: seq<Name>) => WellFormedNames(names);
    forall names: seq<Name>, f: Field | inv(names) && f.Writable() && NamesStep(names, f).Ok?
      ensures inv(NamesStep(names, f).value)
    {
      DecodedNameIsWellFormed(f.value);
    }
    FoldKeeps(value, [], NamesStep, m => BadTlv(m), inv);
  }

  lemma DecodedVerdictIsWellFormed(value: Bytes)
    requires VerdictOf(value).Ok?
    ensures WellFormedVerdict(VerdictOf(value).value)
  {
    hide DecodeNames, WellFormedNames;
    var inv := (v: LinkVerdict) => WellFormedVerdict(v);
    forall v: LinkVerdict, f: Field | inv(v) && f.Writable() && VerdictStep(v, f).Ok?
      ensures inv(VerdictStep(v, f).value)
    {
      if f.t == ENROLLMENT_LINK {
        DecodedNamesAreWellFormed(f.value);
      }
    }
    FoldKeeps(value, LinkVerdict(None), VerdictStep, m => BadTlv(m), inv);
  }

  /** Decoding undoes encoding on exactly the well-formed verdicts. */
  lemma VerdictRoundTrip(v: LinkVerdict)
    requires |VerdictValue(v)| < U64
    ensures VerdictOf(VerdictValue(v)) == Ok(v) <==> WellFormedVerdict(v)
  {
    hide DecodeNames, NamesFields, WellFormedNames, Encoded, WriteTlv, VerdictStep;
    if WellFormedVerdict(v) {
      if v.enrollmentLink.Some? {
        var names := v.enrollmentLink.value;
        var f := Field(ENROLLMENT_LINK, Encoded(NamesFields(names)));
        VerdictFieldFits(f);
        NamesRoundTrip(names);
        EncodedOne(f);
        FoldAll([f], LinkVerdict(None), VerdictStep, m => BadTlv(m));
        FoldOne(f, LinkVerdict(None), VerdictStep);
        VerdictStepOnNames(names, f.value);
        assert VerdictValue(v) == f.Whole();
      }
    } else if VerdictOf(VerdictValue(v)) == Ok(v) {
      DecodedVerdictIsWellFormed(VerdictValue(v));
    }
  }

  lemma VerdictStepOnNames(names: seq<Name>, value: Bytes)
    requires DecodeNames(value) == Ok(names) && names != []
    ensures VerdictStep(LinkVerdict(None), Field(ENROLLMENT_LINK, value)) == Ok(LinkVerdict(Some(names)))
  {
    hide DecodeNames;
  }

  /** A TLV in range holds a value in range. */
  lemma VerdictFieldFits(f: Field)
    requires |f.Whole()| < U64 && f.t < U64
    ensures f.Writable()
  {
  }

  lemma VerdictUnknownField(a: seq<Field>, u: Field, b: Bytes)
    requires forall k :: 0 <= k < |a| ==> a[k].Writable()
    requires u.Writable() && u.t != ENROLLMENT_LINK
    ensures u.t > 31 && u.t % 2 == 0 ==> VerdictOf(Encoded(a) + u.Whole() + b) == VerdictOf(Encoded(a) + b)
    ensures u.t <= 31 || u.t % 2 == 1 ==> VerdictOf(Encoded(a) + u.Whole() + b).Err?
  {
    if u.t > 31 && u.t % 2 == 0 {
      FoldIgnores(a, u, b, LinkVerdict(None), VerdictStep, m => BadTlv(m));
    } else {
      FoldRefuses(a, u, b, LinkVerdict(None), VerdictStep, m => BadTlv(m));
    }
  }

  // ----------------------------------------------------------------- Reachability

  datatype Reachability = Reachability(hold: bool, wakeToken: Option<Bytes>)

  const UNREACHABLE := Reachability(false, None)

  predicate WellFormedReachability(r: Reachability) {
    r.wakeToken.Some? ==> 1 <= |r.wakeToken.value| <= WAKE_TOKEN_MAX
  }

  function ReachabilityFields(r: Reachability): seq<Field> {
    (if r.hold then [Field(HOLD_INTERESTS, [])] else [])
      + (if r.wakeToken.Some? then [Field(WAKE_TOKEN, r.wakeToken.value)] else [])
  }

  function ReachabilityValue(r: Reachability): Bytes {
    Encoded(ReachabilityFields(r))
  }

  function EncodeReachability(r: Reachability): Bytes {
    WriteTlv(REACHABILITY, ReachabilityValue(r))
  }

  function ReachabilityStep(r: Reachability, f: Field): Result<Reachability, Fault> {
    if f.t == HOLD_INTERESTS then
      if f.value == [] then Ok(r.(hold := true)) else Err(BadLength(f.t, |f.value|))
    else if f.t == WAKE_TOKEN then
      if 1 <= |f.value| <= WAKE_TOKEN_MAX then Ok(r.(wakeToken := Some(f.value))) else Err(BadLength(f.t, |f.value|))
    else if Skippable(f.t) then Ok(r)
    else Err(UnknownCritical(f.t))
  }

  function ReachabilityOf(value: Bytes): Result<Reachability, Fault> {
    Fold(value, UNREACHABLE, ReachabilityStep, m => BadTlv(m))
  }

  method DecodeReachability(value: Bytes) returns (r: Result<Reachability, Fault>)
    ensures r == ReachabilityOf(value)
    ensures r.Ok? ==> WellFormedReachability(r.value)
  {
    r := RunFields(value, UNREACHABLE, ReachabilityStep, m => BadTlv(m));
    if r.Ok? {
      DecodedReachabilityIsWellFormed(value);
    }
  }

  lemma DecodedReachabilityIsWellFormed(value: Bytes)
    requires ReachabilityOf(value).Ok?
    ensures WellFormedReachability(ReachabilityOf(value).value)
  {
    FoldKeeps(value, UNREACHABLE, ReachabilityStep, m => BadTlv(m), (r: Reachability) => WellFormedReachability(r));
  }

  /** Decoding undoes encoding exactly for a token of 1 to 1024 bytes or none. */
  lemma ReachabilityRoundTrip(r: Reachability)
    requires |ReachabilityValue(r)| < U64
    ensures ReachabilityOf(ReachabilityValue(r)) == Ok(r) <==> WellFormedReachability(r)
  {
    if WellFormedReachability(r) {
      var hold := if r.hold then [Field(HOLD_INTERESTS, [])] else [];
      var token := if r.wakeToken.Some? then [Field(WAKE_TOKEN, r.wakeToken.value)] else [];
      EncodedFits(ReachabilityFields(r));
      FoldAll(ReachabilityFields(r), UNREACHABLE, ReachabilityStep, m => BadTlv(m));
      FoldListAppend(hold, token, UNREACHABLE, ReachabilityStep);
      var held := Reachability(r.hold, None);
      if r.hold {
        FoldOne(hold[0], UNREACHABLE, ReachabilityStep);
      }
      if r.wakeToken.Some? {
        FoldOne(token[0], held, ReachabilityStep);
      }
    } else if ReachabilityOf(ReachabilityValue(r)) == Ok(r) {
      DecodedReachabilityIsWellFormed(ReachabilityValue(r));
    }
  }

  lemma ReachabilityUnknownField(a: seq<Field>, u: Field, b: Bytes)
    requires forall k :: 0 <= k < |a| ==> a[k].Writable()
    requires u.Writable() && u.t !in {HOLD_INTERESTS, WAKE_TOKEN}
    ensures u.t > 31 && u.t % 2 == 0 ==> ReachabilityOf(Encoded(a) + u.Whole() + b) == ReachabilityOf(Encoded(a) + b)
    ensures u.t <= 31 || u.t % 2 == 1 ==> ReachabilityOf(Encoded(a) + u.Whole() + b).Err?
  {
    if u.t > 31 && u.t % 2 == 0 {
      FoldIgnores(a, u, b, UNREACHABLE, ReachabilityStep, m => BadTlv(m));
    } else {
      FoldRefuses(a, u, b, UNREACHABLE, ReachabilityStep, m => BadTlv(m));
    }
  }

  // --------------------------------------------------------------------- Presence

  datatype PresentDevice = PresentDevice(device: Name, key: Bytes)

  datatype Presence = Presence(namespace: Name, devices: seq<PresentDevice>)

  predicate WellFormedDevice(d: PresentDevice) {
    WellFormedName(d.device) && |d.key| == 32
  }

  predicate WellFormedPresence(p: Presence) {
    WellFormedName(p.namespace) && forall k :: 0 <= k < |p.devices| ==> WellFormedDevice(p.devices[k])
  }

  function DeviceFields(d: PresentDevice): seq<Field> {
    [Field(NAME, NameValue(d.device)), Field(KEY_DIGEST, d.key)]
  }

  function DeviceValue(d: PresentDevice): Bytes {
    Encoded(DeviceFields(d))
  }

  function DevicesFields(ds: seq<PresentDevice>): seq<Field> {
    seq(|ds|, i requires 0 <= i < |ds| => Field(PRESENT_DEVICE, DeviceValue(ds[i])))
  }

  function PresenceFields(p: Presence): seq<Field> {
    [Field(NAME, NameValue(p.namespace))] + DevicesFields(p.devices)
  }

  function PresenceValue(p: Presence): Bytes {
    Encoded(PresenceFields(p))
  }

  function EncodePresence(p: Presence): Bytes {
    WriteTlv(PRESENCE, PresenceValue(p))
  }

  datatype DeviceAcc = DeviceAcc(device: Option<Name>, key: Option<Bytes>)

  function DeviceStep(acc: DeviceAcc, f: Field): Result<DeviceAcc, Fault> {
    if f.t == NAME then
      match DecodeName(f.value)
      case Err(e) => Err(e)
      case Ok(n) => Ok(acc.(device := Some(n)))
    else if f.t == KEY_DIGEST then
      if |f.value| == 32 then Ok(acc.(key := Some(f.value))) else Err(BadLength(f.t, |f.value|))
    else if Skippable(f.t) then Ok(acc)
    else Err(UnknownCritical(f.t))
  }

  function DecodePresentDevice(value: Bytes): Result<PresentDevice, Fault> {
    match Fold(value, DeviceAcc(None, None), DeviceStep, m => BadTlv(m))
    case Err(e) => Err(e)
    case Ok(acc) =>
      if acc.device.Some? && acc.key.Some? then Ok(PresentDevice(acc.device.value, acc.key.value))
      else Err(Missing(PRESENT_DEVICE))
  }

  datatype PresenceAcc = PresenceAcc(namespace: Option<Name>, devices: seq<PresentDevice>)

  function PresenceStep(acc: PresenceAcc, f: Field): Result<PresenceAcc, Fault> {
    if f.t == NAME then
      match DecodeName(f.value)
      case Err(e) => Err(e)
      case Ok(n) => Ok(acc.(namespace := Some(n)))
    else if f.t == PRESENT_DEVICE then
      match DecodePresentDevice(f.value)
      case Err(e) => Err(e)
      case Ok(d) => Ok(acc.(devices := acc.devices + [d]))
    else if Skippable(f.t) then Ok(acc)
    else Err(UnknownCritical(f.t))
  }

  function PresenceEnd(acc: PresenceAcc): Result<Presence, Fault> {
    match acc.namespace
    case None => Err(Missing(NAME))
    case Some(ns) => Ok(Presence(ns, acc.devices))
  }

  function PresenceOf(value: Bytes): Result<Presence, Fault> {
    match Fold(value, PresenceAcc(None, []), PresenceStep, m => BadTlv(m))
    case Err(e) => Err(e)
    case Ok(acc) => PresenceEnd(acc)
  }

  method DecodePresence(value: Bytes) returns (r: Result<Presence, Fault>)
    ensures r == PresenceOf(value)
    ensures r.Ok? ==> WellFormedPresence(r.value)
  {
    var acc := RunFields(value, PresenceAcc(None, []), PresenceStep, m => BadTlv(m));
    if acc.Err? {
      return Err(acc.error);
    }
    r := PresenceEnd(acc.value);
    if r.Ok? {
      DecodedPresenceIsWellFormed(value);
    }
  }

  lemma DecodedDeviceIsWellFormed(value: Bytes)
    requires DecodePresentDevice(value).Ok?
    ensures WellFormedDevice(DecodePresentDevice(value).value)
  {
    var inv := (acc: DeviceAcc) =>
      (acc.device.Some? ==> WellFormedName(acc.device.value)) && (acc.key.Some? ==> |acc.key.value| == 32);
    forall acc: DeviceAcc, f: Field | inv(acc) && f.Writable() && DeviceStep(acc, f).Ok?
      ensures inv(DeviceStep(acc, f).value)
    {
      if f.t == NAME {
        DecodedNameIsWellFormed(f.value);
      }
    }
    FoldKeeps(value, DeviceAcc(None, None), DeviceStep, m => BadTlv(m), inv);
  }

  lemma DecodedPresenceIsWellFormed(value: Bytes)
    requires PresenceOf(value).Ok?
    ensures WellFormedPresence(PresenceOf(value).value)
  {
    hide WellFormedName, WellFormedDevice, DecodeName, DecodePresentDevice;
    var inv := (acc: PresenceAcc) =>
      && (acc.namespace.Some? ==> WellFormedName(acc.namespace.value))
      && (forall k :: 0 <= k < |acc.devices| ==> WellFormedDevice(acc.devices[k]));
    forall acc: PresenceAcc, f: Field | inv(acc) && f.Writable() && PresenceStep(acc, f).Ok?
      ensures inv(PresenceStep(acc, f).value)
    {
      if f.t == NAME {
        DecodedNameIsWellFormed(f.value);
      } else if f.t == PRESENT_DEVICE {
        DecodedDeviceIsWellFormed(f.value);
      }
    }
    FoldKeeps(value, PresenceAcc(None, []), PresenceStep, m => BadTlv(m), inv);
  }

  lemma DeviceRoundTrip(d: PresentDevice)
    requires WellFormedDevice(d) && |DeviceValue(d)| < U64
    ensures DecodePresentDevice(DeviceValue(d)) == Ok(d)
  {
    hide DecodeName, NameValue, WellFormedName, WriteTlv, Encoded;
    var fs := DeviceFields(d);
    EncodedFits(fs);
    assert fs[0].Writable();
    NameRoundTrip(d.device);
    FoldAll(fs, DeviceAcc(None, None), DeviceStep, m => BadTlv(m));
    assert fs[1..] == [fs[1]];
    FoldOne(fs[1], DeviceAcc(Some(d.device), None), DeviceStep);
  }

  lemma DeviceUnknownField(a: seq<Field>, u: Field, b: Bytes)
    requires forall k :: 0 <= k < |a| ==> a[k].Writable()
    requires u.Writable() && u.t !in {NAME, KEY_DIGEST}
    ensures u.t > 31 && u.t % 2 == 0 ==>
              DecodePresentDevice(Encoded(a) + u.Whole() + b) == DecodePresentDevice(Encoded(a) + b)
    ensures u.t <= 31 || u.t % 2 == 1 ==> DecodePresentDevice(Encoded(a) + u.Whole() + b).Err?
  {
    if u.t > 31 && u.t % 2 == 0 {
      FoldIgnores(a, u, b, DeviceAcc(None, None), DeviceStep, m => BadTlv(m));
    } else {
      FoldRefuses(a, u, b, DeviceAcc(None, None), DeviceStep, m => BadTlv(m));
    }
  }

  lemma {:induction false} DevicesFold(ds: seq<PresentDevice>, k: nat, acc: PresenceAcc)
    requires k <= |ds|
    requires forall i :: 0 <= i < |ds| ==> WellFormedDevice(ds[i]) && |DeviceValue(ds[i])| < U64
    ensures FoldList(DevicesFields(ds)[k..], acc, PresenceStep) == Ok(acc.(devices := acc.devices + ds[k..]))
    decreases |ds| - k
  {
    hide DecodePresentDevice, DeviceValue, WellFormedDevice;
    var fs := DevicesFields(ds);
    if k < |ds| {
      DeviceRoundTrip(ds[k]);
      assert fs[k..][0] == fs[k] && fs[k..][1..] == fs[k + 1..];
      var acc' := acc.(devices := acc.devices + [ds[k]]);
      DevicesFold(ds, k + 1, acc');
      assert acc'.devices + ds[k + 1..] == acc.devices + ds[k..];
    } else {
      assert fs[k..] == [] && acc.devices + ds[k..] == acc.devices;
    }
  }

  /** Decoding undoes encoding on exactly the well-formed presence messages. */
  lemma PresenceRoundTrip(p: Presence)
    requires |PresenceValue(p)| < U64
    ensures PresenceOf(PresenceValue(p)) == Ok(p) <==> WellFormedPresence(p)
  {
    hide DecodeName, NameValue, WellFormedName, DecodePresentDevice, DeviceValue, WellFormedDevice, WriteTlv, Encoded;
    if WellFormedPresence(p) {
      var fs, ds := PresenceFields(p), DevicesFields(p.devices);
      EncodedFits(fs);
      assert fs[0].Writable();
      NameRoundTrip(p.namespace);
      forall i | 0 <= i < |p.devices|
        ensures |DeviceValue(p.devices[i])| < U64
      {
        assert fs[1 + i] == ds[i];
      }
      FoldAll(fs, PresenceAcc(None, []), PresenceStep, m => BadTlv(m));
      assert fs[1..] == ds && ds[0..] == ds && [] + p.devices[0..] == p.devices;
      DevicesFold(p.devices, 0, PresenceAcc(Some(p.namespace), []));
    } else if PresenceOf(PresenceValue(p)) == Ok(p) {
      DecodedPresenceIsWellFormed(PresenceValue(p));
    }
  }

  lemma PresenceUnknownField(a: seq<Field>, u: Field, b: Bytes)
    requires forall k :: 0 <= k < |a| ==> a[k].Writable()
    requires u.Writable() && u.t !in {NAME, PRESENT_DEVICE}
    ensures u.t > 31 && u.t % 2 == 0 ==> PresenceOf(Encoded(a) + u.Whole() + b) == PresenceOf(Encoded(a) + b)
    ensures u.t <= 31 || u.t % 2 == 1 ==> PresenceOf(Encoded(a) + u.Whole() + b).Err?
  {
    if u.t > 31 && u.t % 2 == 0 {
      FoldIgnores(a, u, b, PresenceAcc(None, []), PresenceStep, m => BadTlv(m));
    } else {
      FoldRefuses(a, u, b, PresenceAcc(None, []), PresenceStep, m => BadTlv(m));
    }
  }

  // -------------------------------------------------------------- ObservedAddress

  /** An IP address (4 or 16 bytes) and a port. */
  datatype SocketAddr = SocketAddr(ip: Bytes, port: nat)

  predicate ValidAddr(a: SocketAddr) {
    (|a.ip| == 4 || |a.ip| == 16) && a.port < 0x1_0000
  }

  const MAPPED_PREFIX: Bytes := [0, 0, 0, 0, 0, 0, 0, 0, 0, 0, 255, 255]

  /** `to_canonical`: an IPv4-mapped IPv6 address stands for the IPv4 one. */
  function Canonical(a: SocketAddr): SocketAddr {
    if |a.ip| == 16 && a.ip[..12] == MAPPED_PREFIX then SocketAddr(a.ip[12..], a.port) else a
  }

  function EncodeUdpAddress(a: SocketAddr): Bytes {
    Canonical(a).ip + ToBe(a.port, 2)
  }

  function DecodeUdpAddress(value: Bytes): Result<SocketAddr, Fault> {
    if |value| == 6 then Ok(SocketAddr(value[..4], FromBe(value[4..])))
    else if |value| == 18 then Ok(SocketAddr(value[..16], FromBe(value[16..])))
    else Err(BadLength(OBSERVED_ADDRESS, |value|))
  }

  function EncodeObservedAddress(a: SocketAddr): Bytes {
    WriteTlv(OBSERVED_ADDRESS, EncodeUdpAddress(a))
  }

  /** The peer learns the address, or for an IPv6 address that maps an IPv4 one, that one. */
  lemma AddressRoundTrip(a: SocketAddr)
    requires ValidAddr(a)
    ensures DecodeUdpAddress(EncodeUdpAddress(a)) == Ok(Canonical(a))
    ensures (exists v4: Bytes :: |v4| == 4 && a.ip == [0, 0, 0, 0, 0, 0, 0, 0, 0, 0, 255, 255] + v4) ==>
              |a.ip| == 16 && DecodeUdpAddress(EncodeUdpAddress(a)) == Ok(SocketAddr(a.ip[12..], a.port))
    ensures (forall v4: Bytes :: |v4| == 4 ==> a.ip != [0, 0, 0, 0, 0, 0, 0, 0, 0, 0, 255, 255] + v4) ==>
              DecodeUdpAddress(EncodeUdpAddress(a)) == Ok(a)
  {
    if |a.ip| == 16 && a.ip[..12] == MAPPED_PREFIX {
      assert a.ip == [0, 0, 0, 0, 0, 0, 0, 0, 0, 0, 255, 255] + a.ip[12..];
    }
    Powers();
    BeRoundTrip(a.port, 2);
    var ip := Canonical(a).ip;
    assert (ip + ToBe(a.port, 2))[..|ip|] == ip && (ip + ToBe(a.port, 2))[|ip|..] == ToBe(a.port, 2);
  }
}
