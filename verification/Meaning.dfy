/**
 * What each link message says, told from the list of its fields at once: which lists
 * are accepted, and what value they stand for (ndn-face-quic: message.rs, membership.rs).
 */
module Meaning {
  import opened Common
  import opened Tlv
  import opened Messages

  // ------------------------------------------------------------------------ fields

  /** The values of the fields of one type, in order. */
  function Values(fs: seq<Field>, t: nat): seq<Bytes> {
    if fs == [] then []
    else
      var last := fs[|fs| - 1];
      Values(fs[..|fs| - 1], t) + (if last.t == t then [last.value] else [])
  }

  /** The value of the last field of one type. */
  function LastValue(fs: seq<Field>, t: nat): Option<Bytes> {
    var vs := Values(fs, t);
    if vs == [] then None else Some(vs[|vs| - 1])
  }

  ghost predicate AllWritable(fs: seq<Field>) {
    forall f :: f in fs ==> f.Writable()
  }

  lemma OneMoreField(fs: seq<Field>, f: Field, t: nat)
    ensures Values(fs + [f], t) == Values(fs, t) + (if f.t == t then [f.value] else [])
    ensures LastValue(fs + [f], t) == if f.t == t then Some(f.value) else LastValue(fs, t)
  {
    assert (fs + [f])[..|fs|] == fs;
    assert Values(fs, t) + [] == Values(fs, t);
  }

  lemma FoldSnoc<S, E>(fs: seq<Field>, f: Field, s: S, step: (S, Field) -> Result<S, E>)
    ensures FoldList(fs + [f], s, step) ==
            match FoldList(fs, s, step)
            case Err(e) => Err(e)
            case Ok(s') => step(s', f)
  {
    FoldListAppend(fs, [f], s, step);
    if FoldList(fs, s, step).Ok? {
      FoldOne(f, FoldList(fs, s, step).value, step);
    }
  }

  lemma Snoc(fs: seq<Field>)
    requires fs != []
    ensures fs == fs[..|fs| - 1] + [fs[|fs| - 1]]
    ensures forall f :: f in fs <==> f in fs[..|fs| - 1] || f == fs[|fs| - 1]
  {
  }

  /** Bytes that any decoder accepts are a list of fields, with nothing left over. */
  lemma {:induction false} AcceptedIsFields<S, E>(buf: Bytes, s: S, step: (S, Field) -> Result<S, E>,
                                                  malformed: Malformed -> E) returns (fs: seq<Field>)
    requires Fold(buf, s, step, malformed).Ok?
    ensures AllWritable(fs) && buf == Encoded(fs) && FoldList(fs, s, step) == Fold(buf, s, step, malformed)
    decreases |buf|
  {
    if buf == [] {
      fs := [];
    } else {
      FieldCanonical(buf);
      var (f, rest) := NextField(buf).value;
      var later := AcceptedIsFields(rest, step(s, f).value, step, malformed);
      fs := [f] + later;
      assert fs[0] == f && fs[1..] == later;
    }
  }

  // ------------------------------------------------------------------------ names

  /** The components are the fields, whose types are all from 1 to 65535. */
  lemma {:induction false} NameMeans(fs: seq<Field>)
    ensures FoldList(fs, [], NameStep).Ok? <==> forall f :: f in fs ==> 1 <= f.t <= 65535
    ensures FoldList(fs, [], NameStep).Ok? ==> NameFields(FoldList(fs, [], NameStep).value) == fs
    decreases |fs|
  {
    if fs != [] {
      var before, f := fs[..|fs| - 1], fs[|fs| - 1];
      Snoc(fs);
      NameMeans(before);
      FoldSnoc(before, f, [], NameStep);
    }
  }

  /** A name is read from exactly the bytes that it is written as. */
  lemma NameReadIff(value: Bytes, n: Name)
    ensures DecodeName(value) == Ok(n) ==> WellFormedName(n) && value == NameValue(n)
    ensures WellFormedName(n) && value == NameValue(n) && |value| < U64 ==> DecodeName(value) == Ok(n)
  {
    if DecodeName(value) == Ok(n) {
      var fs := AcceptedIsFields(value, [], NameStep, m => BadTlv(m));
      NameMeans(fs);
      DecodedNameIsWellFormed(value);
    }
    if WellFormedName(n) && value == NameValue(n) && |value| < U64 {
      NameRoundTrip(n);
    }
  }

  /** `names` are what the bodies `values` stand for. */
  ghost predicate AreNames(values: seq<Bytes>, names: seq<Name>) {
    |names| == |values| && forall k :: 0 <= k < |values| ==> DecodeName(values[k]) == Ok(names[k])
  }

  lemma {:induction false} NamesMean(fs: seq<Field>)
    ensures FoldList(fs, [], NamesStep).Ok? <==> forall f :: f in fs ==> f.t == NAME && DecodeName(f.value).Ok?
    ensures FoldList(fs, [], NamesStep).Ok? ==>
              |Values(fs, NAME)| == |fs| && AreNames(Values(fs, NAME), FoldList(fs, [], NamesStep).value)
    decreases |fs|
  {
    hide DecodeName;
    if fs != [] {
      var before, f := fs[..|fs| - 1], fs[|fs| - 1];
      Snoc(fs);
      NamesMean(before);
      FoldSnoc(before, f, [], NamesStep);
      OneMoreField(before, f, NAME);
    }
  }

  // ------------------------------------------------------------------- memberships

  ghost predicate GoodMembershipField(f: Field) {
    && (f.t == MEMBERSHIP_BINDING ==> f.value != [])
    && (f.t !in {DATA, MEMBERSHIP_BINDING} ==> f.t > 31 && f.t % 2 == 0)
  }

  function DataTlvs(values: seq<Bytes>): seq<Bytes> {
    seq(|values|, i requires 0 <= i < |values| => WriteTlv(0x06, values[i]))
  }

  lemma DataTlvsSnoc(values: seq<Bytes>, v: Bytes)
    ensures DataTlvs(values + [v]) == DataTlvs(values) + [WriteTlv(0x06, v)]
  {
    hide WriteTlv;
  }

  lemma {:induction false} MembershipFold(fs: seq<Field>)
    ensures var r := FoldList(fs, MembershipAcc([], None), MembershipStep);
            && (r.Ok? <==> forall f :: f in fs ==> GoodMembershipField(f))
            && (r.Ok? ==> r.value == MembershipAcc(DataTlvs(Values(fs, DATA)), LastValue(fs, MEMBERSHIP_BINDING)))
    decreases |fs|
  {
    hide WriteTlv;
    if fs != [] {
      var before, f := fs[..|fs| - 1], fs[|fs| - 1];
      Snoc(fs);
      assert (forall g :: g in fs ==> GoodMembershipField(g)) <==>
        (forall g :: g in before ==> GoodMembershipField(g)) && GoodMembershipField(f);
      MembershipFold(before);
      FoldSnoc(before, f, MembershipAcc([], None), MembershipStep);
      OneMoreField(before, f, DATA);
      OneMoreField(before, f, MEMBERSHIP_BINDING);
      DataTlvsSnoc(Values(before, DATA), f.value);
      assert Values(before, DATA) + [] == Values(before, DATA);
    }
  }

  /** A list of fields stands for a membership exactly when it holds a certificate, a
      binding, none of them empty, and nothing critical besides; the certificates are
      its Data TLVs in order, the binding the last one. */
  lemma MembershipMeans(fs: seq<Field>, m: Membership)
    requires AllWritable(fs)
    ensures DecodeMembership(Encoded(fs)) == Ok(m) <==>
            && (forall f :: f in fs ==> GoodMembershipField(f))
            && m.certificates == DataTlvs(Values(fs, DATA)) && m.certificates != []
            && Some(m.binding) == LastValue(fs, MEMBERSHIP_BINDING)
  {
    hide FoldList, Values, LastValue, DataTlvs, GoodMembershipField;
    FoldAll(fs, MembershipAcc([], None), MembershipStep, m => BadTlv(m));
    MembershipFold(fs);
  }

  // ------------------------------------------------------------------------ hellos

  ghost predicate GoodHelloField(f: Field) {
    && (f.t == LINK_VERSION ==> |f.value| == 1)
    && (f.t == MEMBERSHIP ==> DecodeMembership(f.value).Ok?)
    && (f.t == DIRECT_PATH ==> |f.value| == 8)
    && (f.t !in {LINK_VERSION, MEMBERSHIP, DIRECT_PATH, DATA} ==> f.t > 31 && f.t % 2 == 0)
  }

  ghost predicate AreMemberships(values: seq<Bytes>, ms: seq<Membership>) {
    |ms| == |values| && forall k :: 0 <= k < |values| ==> DecodeMembership(values[k]) == Ok(ms[k])
  }

  ghost predicate HelloSays(fs: seq<Field>, h: LinkHello) {
    && h.certificates == DataTlvs(Values(fs, DATA))
    && AreMemberships(Values(fs, MEMBERSHIP), h.memberships)
    && h.directPath == LastValue(fs, DIRECT_PATH)
  }

  lemma {:induction false} HelloFold(fs: seq<Field>)
    ensures var r := FoldList(fs, NO_HELLO, HelloStep);
            && (r.Ok? <==> forall f :: f in fs ==> GoodHelloField(f))
            && (r.Ok? ==> HelloSays(fs, r.value.hello) && r.value.version.Some? == LastValue(fs, LINK_VERSION).Some?)
            && (r.Ok? && r.value.version.Some? ==> LastValue(fs, LINK_VERSION) == Some([r.value.version.value]))
    decreases |fs|
  {
    hide WriteTlv, DecodeMembership, LastValue;
    if fs == [] {
      assert LastValue([], LINK_VERSION).None? && LastValue([], DIRECT_PATH).None? by { NoValues(); }
      assert DataTlvs([]) == [];
    } else {
      var before, f := fs[..|fs| - 1], fs[|fs| - 1];
      Snoc(fs);
      assert (forall g :: g in fs ==> GoodHelloField(g)) <==>
        (forall g :: g in before ==> GoodHelloField(g)) && GoodHelloField(f);
      HelloFold(before);
      FoldSnoc(before, f, NO_HELLO, HelloStep);
      OneMoreField(before, f, DATA);
      OneMoreField(before, f, MEMBERSHIP);
      OneMoreField(before, f, DIRECT_PATH);
      OneMoreField(before, f, LINK_VERSION);
      DataTlvsSnoc(Values(before, DATA), f.value);
      assert Values(before, DATA) + [] == Values(before, DATA);
      assert Values(before, MEMBERSHIP) + [] == Values(before, MEMBERSHIP);
      if f.t == LINK_VERSION && |f.value| == 1 {
        assert f.value == [f.value[0]];
      }
    }
  }

  lemma NoValues()
    ensures forall t :: LastValue([], t) == None
  {
  }

  /**
   * A list of fields stands for a hello exactly when its version, the last one given, is
   * 1, each field is good and nothing critical is unknown; the hello has the certificates
   * and memberships in order and the last direct path.
   */
  lemma HelloMeans(fs: seq<Field>, h: LinkHello)
    requires AllWritable(fs)
    ensures HelloOf(Encoded(fs)) == Ok(h) <==>
            && (forall f :: f in fs ==> GoodHelloField(f))
            && LastValue(fs, LINK_VERSION) == Some([1]) && HelloSays(fs, h)
    ensures LastValue(fs, LINK_VERSION) == None ==> HelloOf(Encoded(fs)).Err?
    ensures (forall f :: f in fs ==> GoodHelloField(f)) && LastValue(fs, LINK_VERSION) == None ==>
              HelloOf(Encoded(fs)) == Err(Missing(LINK_VERSION))
    ensures forall v :: (forall f :: f in fs ==> GoodHelloField(f)) && v != 1 ==>
              LastValue(fs, LINK_VERSION) == Some([v]) ==> HelloOf(Encoded(fs)) == Err(OtherVersion(v))
  {
    hide FoldList, Values, LastValue, GoodHelloField, HelloSays;
    FoldAll(fs, NO_HELLO, HelloStep, m => BadTlv(m));
    HelloFold(fs);
    var r := FoldList(fs, NO_HELLO, HelloStep);
    if r.Ok? && HelloSays(fs, h) {
      HelloIsOne(fs, h, r.value.hello);
    }
    if r.Ok? && r.value.version.Some? {
      assert forall v :: [r.value.version.value] == [v] ==> v == [r.value.version.value][0];
    }
  }

  lemma HelloIsOne(fs: seq<Field>, a: LinkHello, b: LinkHello)
    requires HelloSays(fs, a) && HelloSays(fs, b)
    ensures a == b
  {
    hide Values, LastValue, DecodeMembership;
    assert a.memberships == b.memberships;
  }

  // ---------------------------------------------------------------------- verdicts

  ghost predicate GoodVerdictField(f: Field) {
    && (f.t == ENROLLMENT_LINK ==> DecodeNames(f.value).Ok? && DecodeNames(f.value).value != [])
    && (f.t != ENROLLMENT_LINK ==> f.t > 31 && f.t % 2 == 0)
  }

  ghost predicate VerdictSays(fs: seq<Field>, v: LinkVerdict) {
    match LastValue(fs, ENROLLMENT_LINK)
    case None => v.enrollmentLink == None
    case Some(list) => v.enrollmentLink.Some? && DecodeNames(list) == Ok(v.enrollmentLink.value)
  }

  lemma {:induction false} VerdictFold(fs: seq<Field>)
    ensures var r := FoldList(fs, LinkVerdict(None), VerdictStep);
            && (r.Ok? <==> forall f :: f in fs ==> GoodVerdictField(f))
            && (r.Ok? ==> VerdictSays(fs, r.value))
    decreases |fs|
  {
    hide DecodeNames, LastValue;
    if fs == [] {
      NoValues();
    } else {
      var before, f := fs[..|fs| - 1], fs[|fs| - 1];
      Snoc(fs);
      assert (forall g :: g in fs ==> GoodVerdictField(g)) <==>
        (forall g :: g in before ==> GoodVerdictField(g)) && GoodVerdictField(f);
      VerdictFold(before);
      FoldSnoc(before, f, LinkVerdict(None), VerdictStep);
      OneMoreField(before, f, ENROLLMENT_LINK);
    }
  }

  /** A verdict tells the names of its last enrollment list, which are some; of names
      and nothing else is such a list made. */
  lemma VerdictMeans(fs: seq<Field>, v: LinkVerdict)
    requires AllWritable(fs)
    ensures VerdictOf(Encoded(fs)) == Ok(v) <==> (forall f :: f in fs ==> GoodVerdictField(f)) && VerdictSays(fs, v)
  {
    hide FoldList, Values, LastValue, GoodVerdictField;
    FoldAll(fs, LinkVerdict(None), VerdictStep, m => BadTlv(m));
    VerdictFold(fs);
  }

  lemma NameListMeans(fs: seq<Field>, names: seq<Name>)
    requires AllWritable(fs)
    ensures DecodeNames(Encoded(fs)) == Ok(names) <==>
            (forall f :: f in fs ==> f.t == NAME) && AreNames(Values(fs, NAME), names)
  {
    hide FoldList, DecodeName;
    FoldAll(fs, [], NamesStep, m => BadTlv(m));
    NamesMean(fs);
    var r := FoldList(fs, [], NamesStep);
    ValuesOfAll(fs, NAME);
    if r.Ok? && AreNames(Values(fs, NAME), names) {
      assert r.value == names;
    }
    if (forall f :: f in fs ==> f.t == NAME) && AreNames(Values(fs, NAME), names) {
      forall f | f in fs
        ensures DecodeName(f.value).Ok?
      {
        var k :| 0 <= k < |fs| && fs[k] == f;
        assert Values(fs, NAME)[k] == f.value;
      }
    }
  }

  lemma {:induction false} ValuesOfAll(fs: seq<Field>, t: nat)
    ensures (forall f :: f in fs ==> f.t == t) ==>
              |Values(fs, t)| == |fs| && forall k :: 0 <= k < |fs| ==> Values(fs, t)[k] == fs[k].value
    decreases |fs|
  {
    if fs != [] {
      Snoc(fs);
      ValuesOfAll(fs[..|fs| - 1], t);
    }
  }

  // ------------------------------------------------------------------ reachability

  ghost predicate GoodReachabilityField(f: Field) {
    && (f.t == HOLD_INTERESTS ==> f.value == [])
    && (f.t == WAKE_TOKEN ==> 1 <= |f.value| <= 1024)
    && (f.t !in {HOLD_INTERESTS, WAKE_TOKEN} ==> f.t > 31 && f.t % 2 == 0)
  }

  lemma {:induction false} ReachabilityFold(fs: seq<Field>)
    ensures var r := FoldList(fs, UNREACHABLE, ReachabilityStep);
            && (r.Ok? <==> forall f :: f in fs ==> GoodReachabilityField(f))
            && (r.Ok? ==> r.value == Reachability(Values(fs, HOLD_INTERESTS) != [], LastValue(fs, WAKE_TOKEN)))
    decreases |fs|
  {
    hide LastValue;
    if fs == [] {
      NoValues();
    } else {
      var before, f := fs[..|fs| - 1], fs[|fs| - 1];
      Snoc(fs);
      assert (forall g :: g in fs ==> GoodReachabilityField(g)) <==>
        (forall g :: g in before ==> GoodReachabilityField(g)) && GoodReachabilityField(f);
      ReachabilityFold(before);
      FoldSnoc(before, f, UNREACHABLE, ReachabilityStep);
      OneMoreField(before, f, HOLD_INTERESTS);
      OneMoreField(before, f, WAKE_TOKEN);
    }
  }

  /** Interests are held if some field says so; the last token counts. */
  lemma ReachabilityMeans(fs: seq<Field>, r: Reachability)
    requires AllWritable(fs)
    ensures ReachabilityOf(Encoded(fs)) == Ok(r) <==>
            && (forall f :: f in fs ==> GoodReachabilityField(f))
            && r == Reachability(Values(fs, HOLD_INTERESTS) != [], LastValue(fs, WAKE_TOKEN))
  {
    hide FoldList, Values, LastValue, GoodReachabilityField;
    FoldAll(fs, UNREACHABLE, ReachabilityStep, m => BadTlv(m));
    ReachabilityFold(fs);
  }

  // ---------------------------------------------------------------------- presence

  ghost predicate GoodDeviceField(f: Field) {
    && (f.t == NAME ==> DecodeName(f.value).Ok?)
    && (f.t == KEY_DIGEST ==> |f.value| == 32)
    && (f.t !in {NAME, KEY_DIGEST} ==> f.t > 31 && f.t % 2 == 0)
  }

  /** `name` is what the body in `value` stands for, if there is one. */
  ghost predicate IsName(value: Option<Bytes>, name: Option<Name>) {
    match value
    case None => name == None
    case Some(v) => name.Some? && DecodeName(v) == Ok(name.value)
  }

  lemma {:induction false} DeviceFold(fs: seq<Field>)
    ensures var r := FoldList(fs, DeviceAcc(None, None), DeviceStep);
            && (r.Ok? <==> forall f :: f in fs ==> GoodDeviceField(f))
            && (r.Ok? ==> IsName(LastValue(fs, NAME), r.value.device) && r.value.key == LastValue(fs, KEY_DIGEST))
    decreases |fs|
  {
    hide DecodeName, LastValue;
    if fs == [] {
      NoValues();
    } else {
      var before, f := fs[..|fs| - 1], fs[|fs| - 1];
      Snoc(fs);
      assert (forall g :: g in fs ==> GoodDeviceField(g)) <==>
        (forall g :: g in before ==> GoodDeviceField(g)) && GoodDeviceField(f);
      DeviceFold(before);
      FoldSnoc(before, f, DeviceAcc(None, None), DeviceStep);
      OneMoreField(before, f, NAME);
      OneMoreField(before, f, KEY_DIGEST);
    }
  }

  /** A device is its last name and its last key digest, and has both. */
  lemma DeviceMeans(fs: seq<Field>, d: PresentDevice)
    requires AllWritable(fs)
    ensures DecodePresentDevice(Encoded(fs)) == Ok(d) <==>
            && (forall f :: f in fs ==> GoodDeviceField(f))
            && IsName(LastValue(fs, NAME), Some(d.device)) && LastValue(fs, KEY_DIGEST) == Some(d.key)
  {
    hide FoldList, Values, LastValue, GoodDeviceField;
    FoldAll(fs, DeviceAcc(None, None), DeviceStep, m => BadTlv(m));
    DeviceFold(fs);
  }

  ghost predicate GoodPresenceField(f: Field) {
    && (f.t == NAME ==> DecodeName(f.value).Ok?)
    && (f.t == PRESENT_DEVICE ==> DecodePresentDevice(f.value).Ok?)
    && (f.t !in {NAME, PRESENT_DEVICE} ==> f.t > 31 && f.t % 2 == 0)
  }

  ghost predicate AreDevices(values: seq<Bytes>, ds: seq<PresentDevice>) {
    |ds| == |values| && forall k :: 0 <= k < |values| ==> DecodePresentDevice(values[k]) == Ok(ds[k])
  }

  lemma {:induction false} PresenceFold(fs: seq<Field>)
    ensures var r := FoldList(fs, PresenceAcc(None, []), PresenceStep);
            && (r.Ok? <==> forall f :: f in fs ==> GoodPresenceField(f))
            && (r.Ok? ==> && IsName(LastValue(fs, NAME), r.value.namespace)
                          && AreDevices(Values(fs, PRESENT_DEVICE), r.value.devices))
    decreases |fs|
  {
    hide DecodeName, DecodePresentDevice, LastValue;
    if fs == [] {
      NoValues();
    } else {
      var before, f := fs[..|fs| - 1], fs[|fs| - 1];
      Snoc(fs);
      assert (forall g :: g in fs ==> GoodPresenceField(g)) <==>
        (forall g :: g in before ==> GoodPresenceField(g)) && GoodPresenceField(f);
      PresenceFold(before);
      FoldSnoc(before, f, PresenceAcc(None, []), PresenceStep);
      OneMoreField(before, f, NAME);
      OneMoreField(before, f, PRESENT_DEVICE);
      assert Values(before, PRESENT_DEVICE) + [] == Values(before, PRESENT_DEVICE);
    }
  }

  /** A presence message is its last name and all its devices in order. */
  lemma PresenceMeans(fs: seq<Field>, p: Presence)
    requires AllWritable(fs)
    ensures PresenceOf(Encoded(fs)) == Ok(p) <==>
            && (forall f :: f in fs ==> GoodPresenceField(f))
            && IsName(LastValue(fs, NAME), Some(p.namespace)) && AreDevices(Values(fs, PRESENT_DEVICE), p.devices)
  {
    hide FoldList, Values, LastValue, GoodPresenceField, DecodePresentDevice;
    FoldAll(fs, PresenceAcc(None, []), PresenceStep, m => BadTlv(m));
    PresenceFold(fs);
    var r := FoldList(fs, PresenceAcc(None, []), PresenceStep);
    if r.Ok? && AreDevices(Values(fs, PRESENT_DEVICE), p.devices) {
      assert r.value.devices == p.devices;
    }
  }

  /** Whatever is accepted as one of the messages is a list of fields, so the five
      characterisations tell all there is to accept. */
  lemma AcceptedMessages(value: Bytes)
    ensures HelloOf(value).Ok? || VerdictOf(value).Ok? || ReachabilityOf(value).Ok? || PresenceOf(value).Ok?
            || DecodeMembership(value).Ok? ==>
              exists fs :: AllWritable(fs) && value == Encoded(fs)
  {
    hide Encoded, AllWritable;
    if HelloOf(value).Ok? {
      var fs := AcceptedIsFields(value, NO_HELLO, HelloStep, m => BadTlv(m));
    } else if VerdictOf(value).Ok? {
      var fs := AcceptedIsFields(value, LinkVerdict(None), VerdictStep, m => BadTlv(m));
    } else if ReachabilityOf(value).Ok? {
      var fs := AcceptedIsFields(value, UNREACHABLE, ReachabilityStep, m => BadTlv(m));
    } else if PresenceOf(value).Ok? {
      var fs := AcceptedIsFields(value, PresenceAcc(None, []), PresenceStep, m => BadTlv(m));
    } else if DecodeMembership(value).Ok? {
      var fs := AcceptedIsFields(value, MembershipAcc([], None), MembershipStep, m => BadTlv(m));
    }
  }

  // ------------------------------------------------------------------- on the wire

  lemma TlvBytes(t: nat, value: Bytes)
    requires 253 <= t < 0x1_0000 && |value| < 253
    ensures WriteTlv(t, value) == [253, (t / 256) as Byte, (t % 256) as Byte, |value| as Byte] + value
  {
    var high := t / 256;
    assert ToBe(high, 1) == ToBe(0, 0) + [(high % 256) as Byte] == [high as Byte];
    assert ToBe(t, 2) == ToBe(high, 1) + [(t % 256) as Byte];
  }

  lemma ShortTlvBytes(t: nat, value: Bytes)
    requires t < 253 && |value| < 253
    ensures WriteTlv(t, value) == [t as Byte, |value| as Byte] + value
  {
  }

  lemma TwoFields(f: Field, g: Field)
    ensures Encoded([f]) == f.Whole() && Encoded([f, g]) == f.Whole() + g.Whole()
  {
    EncodedOne(f);
    EncodedOne(g);
    assert [f, g][0] == f && [f, g][1..] == [g];
  }

  /** The bytes of a hello that opens the direct path of session 1. */
  lemma HelloBytes()
    ensures EncodeHello(LinkHello([], [], Some([0, 0, 0, 0, 0, 0, 0, 1]))) ==
            [253, 0x04, 0x50, 17] + [253, 0x04, 0x51, 1, 1] + [253, 0x04, 0x5A, 8, 0, 0, 0, 0, 0, 0, 0, 1]
  {
    hide WriteTlv;
    var session: Bytes := [0, 0, 0, 0, 0, 0, 0, 1];
    TwoFields(Field(DIRECT_PATH, session), Field(DIRECT_PATH, session));
    TlvBytes(LINK_VERSION, [1]);
    TlvBytes(DIRECT_PATH, session);
    TlvBytes(LINK_HELLO, HelloValue(LinkHello([], [], Some(session))));
  }

  const ALICE: Name := [Component(8, [97])]

  lemma AliceBytes()
    ensures EncodeName(ALICE) == [7, 3, 8, 1, 97] && NameValue(ALICE) == [8, 1, 97]
  {
    hide WriteTlv;
    assert NameFields(ALICE) == [Field(8, [97])];
    EncodedOne(Field(8, [97]));
    ShortTlvBytes(8, [97]);
    var inner: Bytes := [8, 1, 97];
    assert NameValue(ALICE) == [8, 1] + [97] == inner;
    ShortTlvBytes(NAME, inner);
    assert [7, 3] + inner == [7, 3, 8, 1, 97];
  }

  /** Of a verdict that enrolls under the name `/a`. */
  lemma VerdictBytes()
    ensures EncodeVerdict(LinkVerdict(Some([ALICE]))) ==
            [253, 0x04, 0x52, 9] + [253, 0x04, 0x54, 5] + [7, 3, 8, 1, 97]
  {
    hide WriteTlv, NameValue;
    AliceBytes();
    assert NamesFields([ALICE]) == [Field(NAME, NameValue(ALICE))];
    EncodedOne(Field(NAME, NameValue(ALICE)));
    TlvBytes(ENROLLMENT_LINK, [7, 3, 8, 1, 97]);
    TlvBytes(LINK_VERDICT, VerdictValue(LinkVerdict(Some([ALICE]))));
  }

  /** Of a request to hold Interests, with a one-byte token. */
  lemma ReachabilityBytes()
    ensures EncodeReachability(Reachability(true, Some([7]))) ==
            [253, 0x04, 0x40, 9] + [253, 0x04, 0x42, 0] + [253, 0x04, 0x44, 1, 7]
  {
    hide WriteTlv;
    TwoFields(Field(HOLD_INTERESTS, []), Field(WAKE_TOKEN, [7]));
    assert ReachabilityFields(Reachability(true, Some([7]))) == [Field(HOLD_INTERESTS, []), Field(WAKE_TOKEN, [7])];
    TlvBytes(HOLD_INTERESTS, []);
    TlvBytes(WAKE_TOKEN, [7]);
    TlvBytes(REACHABILITY, ReachabilityValue(Reachability(true, Some([7]))));
  }

  /** Of the presence of one device `/a`, known by `key`, in the namespace `/a`. */
  lemma PresenceBytes(key: Bytes)
    requires |key| == 32
    ensures EncodePresence(Presence(ALICE, [PresentDevice(ALICE, key)])) ==
            [253, 0x04, 0x46, 50] + [7, 3, 8, 1, 97] + ([253, 0x04, 0x48, 41] + [7, 3, 8, 1, 97]
                                                        + ([253, 0x04, 0x4A, 32] + key))
  {
    hide WriteTlv, NameValue;
    AliceBytes();
    var d := PresentDevice(ALICE, key);
    TwoFields(Field(NAME, NameValue(ALICE)), Field(KEY_DIGEST, key));
    TlvBytes(KEY_DIGEST, key);
    TlvBytes(PRESENT_DEVICE, DeviceValue(d));
    TwoFields(Field(NAME, NameValue(ALICE)), Field(PRESENT_DEVICE, DeviceValue(d)));
    assert PresenceFields(Presence(ALICE, [d])) ==
           [Field(NAME, NameValue(ALICE)), Field(PRESENT_DEVICE, DeviceValue(d))];
    TlvBytes(PRESENCE, PresenceValue(Presence(ALICE, [d])));
  }

  /** Of the address 192.0.2.1 at port 6363, and of the same one mapped into IPv6. */
  lemma AddressBytes()
    ensures EncodeObservedAddress(SocketAddr([192, 0, 2, 1], 6363)) == [253, 0x04, 0x58, 6, 192, 0, 2, 1, 0x18, 0xDB]
    ensures EncodeObservedAddress(SocketAddr([0, 0, 0, 0, 0, 0, 0, 0, 0, 0, 255, 255, 192, 0, 2, 1], 6363))
            == [253, 0x04, 0x58, 6, 192, 0, 2, 1, 0x18, 0xDB]
  {
    hide WriteTlv;
    assert ToBe(6363, 2) == [0x18, 0xDB] by { PortBytes(); }
    var v4: Bytes := [192, 0, 2, 1];
    var mapped: Bytes := [0, 0, 0, 0, 0, 0, 0, 0, 0, 0, 255, 255, 192, 0, 2, 1];
    assert mapped[..12] == MAPPED_PREFIX && mapped[12..] == v4;
    assert v4 + [0x18, 0xDB] == [192, 0, 2, 1, 0x18, 0xDB];
    TlvBytes(OBSERVED_ADDRESS, [192, 0, 2, 1, 0x18, 0xDB]);
  }

  lemma PortBytes()
    ensures ToBe(6363, 2) == [0x18, 0xDB]
  {
    assert ToBe(24, 1) == ToBe(0, 0) + [24] == [24];
    assert 6363 / 256 == 24 && 6363 % 256 == 0xDB;
  }

  /** Of a membership of one empty Data TLV and a one-byte binding. */
  lemma MembershipBytes()
    ensures EncodeMembership(Membership([[6, 0]], [9])) == [253, 0x04, 0x5C, 7] + [6, 0] + [253, 0x04, 0x5E, 1, 9]
  {
    hide WriteTlv;
    assert Flatten([[6, 0]]) == [6, 0] + Flatten([]);
    TlvBytes(MEMBERSHIP_BINDING, [9]);
    TlvBytes(MEMBERSHIP, MembershipValue(Membership([[6, 0]], [9])));
  }
}
