/** The content that stands for a result not ready yet (ndn-compute/src/thunk.rs). */
module Thunk {
  import opened Common
  import opened Tlv
  import Messages
  import opened Meaning

  type Name = Messages.Name

  const THUNK_TYPE: nat := 0xC910
  const THUNK_NAME_TYPE: nat := 0xC911
  const THUNK_ETA_TYPE: nat := 0xC913

  /** Where the result will be, and in how many milliseconds to look. */
  datatype Thunk = Thunk(thunkName: Name, eta: nat)

  function ToContent(t: Thunk): Bytes {
    WriteTlv(THUNK_TYPE, Encoded(ThunkFields(t)))
  }

  function ThunkFields(t: Thunk): seq<Field> {
    [Field(THUNK_NAME_TYPE, Messages.EncodeName(t.thunkName)), Field(THUNK_ETA_TYPE, ToBe(t.eta, 8))]
  }

  /** `decode_nonneg`: at most the first 8 bytes, big-endian. */
  function DecodeNonNeg(b: Bytes): nat {
    FromBe(if |b| > 8 then b[..8] else b)
  }

  /** `Name::decode_from_tlv`. */
  function NameOf(v: Bytes): Option<Name> {
    match NextField(v)
    case Err(_) => None
    case Ok((f, rest)) =>
      if f.t != Messages.NAME || rest != [] then None
      else match Messages.DecodeName(f.value)
           case Err(_) => None
           case Ok(n) => Some(n)
  }

  datatype Partial = Partial(name: Option<Name>, eta: nat)

  /** Fields of other types are passed over; the last of a type counts. */
  function Step(p: Partial, f: Field): Result<Partial, ()> {
    if f.t == THUNK_NAME_TYPE then Ok(p.(name := NameOf(f.value)))
    else if f.t == THUNK_ETA_TYPE then Ok(p.(eta := DecodeNonNeg(f.value)))
    else Ok(p)
  }

  function NoThunk(m: Malformed): () {
    ()
  }

  function FromContent(content: Bytes): Option<Thunk> {
    match NextField(content)
    case Err(_) => None
    case Ok((f, _)) =>
      if f.t != THUNK_TYPE then None
      else match Fold(f.value, Partial(None, 0), Step, NoThunk)
           case Err(_) => None
           case Ok(p) => if p.name.None? then None else Some(Thunk(p.name.value, p.eta))
  }

  /** `content_is_thunk`: by the leading TLV type alone. */
  predicate ContentIsThunk(content: Bytes) {
    ReadVar(content).Some? && ReadVar(content).value.0 == THUNK_TYPE
  }

  predicate Sendable(t: Thunk) {
    Messages.WellFormedName(t.thunkName) && |ToContent(t)| < U64
  }

  lemma NameTlvReadsBack(n: Name)
    requires Messages.WellFormedName(n) && |Messages.EncodeName(n)| < U64
    ensures NameOf(Messages.EncodeName(n)) == Some(n)
  {
    hide WriteTlv, Messages.DecodeName, Messages.NameValue, NextField;
    var f := Field(Messages.NAME, Messages.NameValue(n));
    Bigger(f.t, f.value);
    FieldRoundTrip(f, []);
    assert f.Whole() + [] == f.Whole();
    Messages.NameRoundTrip(n);
  }

  lemma Bigger(t: nat, value: Bytes)
    ensures |WriteTlv(t, value)| > |value|
  {
  }

  /** `k` bytes keep a number modulo `256^k`. */
  lemma {:induction false} BeKeepsLowBytes(n: nat, k: nat)
    ensures Pow256(k) > 0 && FromBe(ToBe(n, k)) == n % Pow256(k)
  {
    if k == 0 {
      assert n % 1 == 0;
    } else {
      BeKeepsLowBytes(n / 256, k - 1);
      var s, p := ToBe(n, k), Pow256(k - 1);
      assert s[..|s| - 1] == ToBe(n / 256, k - 1);
      SplitMod(n, p);
    }
  }

  lemma SplitMod(n: nat, p: nat)
    requires p > 0
    ensures n % (256 * p) == n / 256 % p * 256 + n % 256
  {
    var q, r := n / 256 / p, n / 256 % p;
    assert n / 256 == q * p + r;
    var low := r * 256 + n % 256;
    assert low < 256 * p;
    assert n == q * (256 * p) + low;
    ModOf(n, 256 * p, q, low);
  }

  lemma ModOf(n: nat, m: nat, q: nat, low: nat)
    requires low < m && n == q * m + low
    ensures n % m == low
  {
    var q' := n / m;
    assert n == q' * m + n % m;
    assert (q - q') * m == n % m - low;
    Small(q - q', m, n % m - low);
  }

  lemma Small(d: int, m: int, x: int)
    requires d * m == x && -m < x < m
    ensures x == 0
  {
    assert d >= 1 ==> d * m >= m;
    assert d <= -1 ==> d * m <= -m;
  }

  lemma EtaReadsBack(eta: nat)
    ensures DecodeNonNeg(ToBe(eta, 8)) == eta % U64
  {
    Powers();
    BeKeepsLowBytes(eta, 8);
  }

  lemma TwoSteps(a: Field, b: Field, p: Partial)
    requires Step(p, a).Ok?
    ensures FoldList([a, b], p, Step) == Step(Step(p, a).value, b)
  {
    hide Step;
    assert [a, b][1..] == [b] && [b][1..] == [];
    var p1 := Step(p, a).value;
    assert FoldList([b], p1, Step) == match Step(p1, b) case Err(e) => Err(e) case Ok(p2) => FoldList([], p2, Step);
  }

  /** A thunk is read back as it was sent (its estimate as the 64 bits it is sent
      in), and known for one by its first bytes. */
  lemma ThunkRoundTrip(t: Thunk)
    requires Sendable(t)
    ensures FromContent(ToContent(t)) == Some(Thunk(t.thunkName, t.eta % U64))
    ensures ContentIsThunk(ToContent(t))
  {
    hide WriteTlv, Encoded, NextField, Fold, Step, NameOf, DecodeNonNeg, Messages.EncodeName, ReadVar, ToBe;
    var fields := ThunkFields(t);
    var body := Encoded(fields);
    Bigger(THUNK_TYPE, body);
    EncodedFits(fields);
    FieldRoundTrip(Field(THUNK_TYPE, body), []);
    assert ToContent(t) + [] == ToContent(t);
    FoldAll(fields, Partial(None, 0), Step, NoThunk);
    NameFits(t);
    NameTlvReadsBack(t.thunkName);
    EtaReadsBack(t.eta);
    StepsOf(t);
    TwoSteps(fields[0], fields[1], Partial(None, 0));
    LeadingType(THUNK_TYPE, body);
  }

  lemma NameFits(t: Thunk)
    requires Sendable(t)
    ensures |Messages.EncodeName(t.thunkName)| < U64
  {
    hide WriteTlv, Encoded, Messages.EncodeName, ToBe;
    Bigger(THUNK_TYPE, Encoded(ThunkFields(t)));
    EncodedFits(ThunkFields(t));
    assert ThunkFields(t)[0].Writable();
  }

  lemma StepsOf(t: Thunk)
    requires NameOf(Messages.EncodeName(t.thunkName)) == Some(t.thunkName)
      && DecodeNonNeg(ToBe(t.eta, 8)) == t.eta % U64
    ensures var fields := ThunkFields(t);
            && Step(Partial(None, 0), fields[0]) == Ok(Partial(Some(t.thunkName), 0))
            && Step(Partial(Some(t.thunkName), 0), fields[1]) == Ok(Partial(Some(t.thunkName), t.eta % U64))
  {
    hide NameOf, DecodeNonNeg, Messages.EncodeName, ToBe;
  }

  lemma LeadingType(t: nat, value: Bytes)
    requires t < U64
    ensures ReadVar(WriteTlv(t, value)).Some? && ReadVar(WriteTlv(t, value)).value.0 == t
  {
    hide ReadVar, WriteVar;
    Assoc(WriteVar(t), WriteVar(|value|), value);
    VarRoundTrip(t, WriteVar(|value|) + value);
  }

  /** Content is taken for a thunk by its first three bytes, and by nothing else. */
  lemma ThunkIsToldBy(content: Bytes)
    ensures ContentIsThunk(content) <==> [0xFD, 0xC9, 0x10] <= content
  {
    hide WriteVar;
    assert WriteVar(0xC910) == [0xFD, 0xC9, 0x10] by { ThunkTypeBytes(); }
    if ContentIsThunk(content) {
      VarCanonical(content);
    }
    if [0xFD, 0xC9, 0x10] <= content {
      VarRoundTrip(0xC910, content[3..]);
      assert content == WriteVar(0xC910) + content[3..];
    }
  }

  lemma ThunkTypeBytes()
    ensures WriteVar(0xC910) == [0xFD, 0xC9, 0x10]
  {
    assert ToBe(0xC9, 1) == ToBe(0, 0) + [0xC9] == [0xC9];
    assert 0xC910 / 256 == 0xC9 && 0xC910 % 256 == 0x10;
  }

  lemma {:induction false} ThunkFold(fs: seq<Field>)
    ensures FoldList(fs, Partial(None, 0), Step) ==
            Ok(Partial(match LastValue(fs, THUNK_NAME_TYPE) case None => None case Some(v) => NameOf(v),
                       match LastValue(fs, THUNK_ETA_TYPE) case None => 0 case Some(v) => DecodeNonNeg(v)))
    decreases |fs|
  {
    hide NameOf, DecodeNonNeg, LastValue;
    if fs == [] {
      NoValues();
    } else {
      var before, f := fs[..|fs| - 1], fs[|fs| - 1];
      Snoc(fs);
      ThunkFold(before);
      FoldSnoc(before, f, Partial(None, 0), Step);
      OneMoreField(before, f, THUNK_NAME_TYPE);
      OneMoreField(before, f, THUNK_ETA_TYPE);
    }
  }

  /**
   * Which thunk a list of fields stands for: the last name, which has to be a whole Name
   * TLV, and the last estimate, of which 8 bytes count at most; no estimate is 0, and
   * fields of other types, critical ones too, say nothing.
   */
  lemma ThunkMeans(fs: seq<Field>, rest: Bytes, t: Thunk)
    requires AllWritable(fs) && |Encoded(fs)| < U64
    ensures FromContent(WriteTlv(0xC910, Encoded(fs)) + rest) == Some(t) <==>
            && LastValue(fs, 0xC911).Some? && NameOf(LastValue(fs, 0xC911).value) == Some(t.thunkName)
            && t.eta == match LastValue(fs, 0xC913)
                        case None => 0
                        case Some(v) => FromBe(if |v| <= 8 then v else v[..8])
  {
    hide NameOf, LastValue, NextField, WriteTlv, Fold, FoldList;
    FieldRoundTrip(Field(0xC910, Encoded(fs)), rest);
    FoldAll(fs, Partial(None, 0), Step, NoThunk);
    ThunkFold(fs);
  }

  /** A whole Name TLV and nothing behind it is read as its name. */
  lemma NameOfIff(v: Bytes, n: Name)
    requires |v| < U64
    ensures NameOf(v) == Some(n) <==> Messages.WellFormedName(n) && v == Messages.EncodeName(n)
  {
    hide NextField, WriteTlv, Messages.DecodeName, Messages.NameValue, Messages.WellFormedName;
    if NameOf(v) == Some(n) {
      FieldCanonical(v);
      var f := NextField(v).value.0;
      NameReadIff(f.value, n);
      assert f.Whole() + [] == f.Whole();
    }
    if Messages.WellFormedName(n) && v == Messages.EncodeName(n) {
      NameTlvReadsBack(n);
    }
  }

  /** No other type of content has a thunk in it. */
  lemma NoOtherThunk(content: Bytes)
    ensures FromContent(content).Some? ==> ContentIsThunk(content)
  {
    hide ReadVar, WriteTlv, NextField, Fold, NameOf;
    if FromContent(content).Some? {
      FieldCanonical(content);
      var (f, rest) := NextField(content).value;
      LeadingTypeOf(f, rest);
    }
  }

  lemma LeadingTypeOf(f: Field, rest: Bytes)
    requires f.t < U64
    ensures ReadVar(f.Whole() + rest).Some? && ReadVar(f.Whole() + rest).value.0 == f.t
  {
    hide ReadVar, WriteVar;
    Assoc(WriteVar(f.t), WriteVar(|f.value|), f.value + rest);
    Assoc(WriteVar(f.t) + WriteVar(|f.value|), f.value, rest);
    VarRoundTrip(f.t, WriteVar(|f.value|) + (f.value + rest));
  }

  /** The decoder's loop. */
  method Decode(content: Bytes) returns (r: Option<Thunk>)
    ensures r == FromContent(content)
  {
    var outer := NextField(content);
    if outer.Err? || outer.value.0.t != THUNK_TYPE {
      return None;
    }
    var p := RunFields(outer.value.0.value, Partial(None, 0), Step, NoThunk);
    if p.Err? || p.value.name.None? {
      return None;
    }
    r := Some(Thunk(p.value.name.value, p.value.eta));
  }
}
