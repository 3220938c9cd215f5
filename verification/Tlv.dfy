/**
 * TLV encoding (section "TLV Encoding" of the NDN Packet Format Specification)
 * and `split_tlv`, `header` and `skippable` of ndn-face-quic.
 */
module Tlv {
  import opened Common

  // --------------------------------------------------------- big-endian numbers

  function Pow256(k: nat): nat {
    if k == 0 then 1 else 256 * Pow256(k - 1)
  }

  /** The low `k` bytes of `n`, most significant first (`to_be_bytes`). */
  function ToBe(n: nat, k: nat): (s: Bytes)
    ensures |s| == k
  {
    if k == 0 then [] else ToBe(n / 256, k - 1) + [(n % 256) as Byte]
  }

  function FromBe(s: Bytes): nat {
    if s == [] then 0 else FromBe(s[..|s| - 1]) * 256 + s[|s| - 1] as nat
  }

  lemma {:induction false} BeRoundTrip(n: nat, k: nat)
    requires n < Pow256(k)
    ensures FromBe(ToBe(n, k)) == n
  {
    if k > 0 {
      BeRoundTrip(n / 256, k - 1);
      var s := ToBe(n, k);
      assert s[..|s| - 1] == ToBe(n / 256, k - 1);
    }
  }

  lemma {:induction false} BeInverse(s: Bytes)
    ensures FromBe(s) < Pow256(|s|) && ToBe(FromBe(s), |s|) == s
  {
    if s != [] {
      BeInverse(s[..|s| - 1]);
      assert s == s[..|s| - 1] + [s[|s| - 1]];
    }
  }

  lemma Powers()
    ensures Pow256(1) == 0x100 && Pow256(2) == 0x1_0000 && Pow256(4) == 0x1_0000_0000 && Pow256(8) == U64
  {
    assert Pow256(3) == 256 * Pow256(2);
    assert Pow256(5) == 256 * Pow256(4);
    assert Pow256(6) == 256 * Pow256(5);
    assert Pow256(7) == 256 * Pow256(6);
  }

  // ----------------------------------------------------------------- VAR-NUMBER

  /** Bytes after the first one. */
  function Width(first: Byte): nat {
    if first < 253 then 0 else if first == 253 then 2 else if first == 254 then 4 else 8
  }

  /** Shortest form; a length is a `u64`, so only the low 64 bits are written. */
  function WriteVar(n: nat): Bytes {
    if n < 253 then [n as Byte]
    else if n < 0x1_0000 then [253] + ToBe(n, 2)
    else if n < 0x1_0000_0000 then [254] + ToBe(n, 4)
    else [255] + ToBe(n, 8)
  }

  /** The number at the head of `b` and its width; a longer form than needed is refused. */
  function ReadVar(b: Bytes): Option<(nat, nat)> {
    if b == [] then None
    else if b[0] < 253 then Some((b[0] as nat, 1))
    else
      var w := Width(b[0]);
      if |b| < 1 + w then None
      else
        var n := FromBe(b[1..1 + w]);
        if |WriteVar(n)| == 1 + w then Some((n, 1 + w)) else None
  }

  lemma VarRoundTrip(n: nat, rest: Bytes)
    requires n < U64
    ensures ReadVar(WriteVar(n) + rest) == Some((n, |WriteVar(n)|))
  {
    Powers();
    var w := WriteVar(n);
    if n >= 253 {
      BeRoundTrip(n, Width(w[0]));
      assert (w + rest)[1..|w|] == w[1..] == ToBe(n, Width(w[0]));
    }
  }

  /** The four forms of a number, each for the numbers no shorter one has room for, and no
      other is read. */
  lemma VarReadIff(b: Bytes, n: nat, k: nat)
    ensures ReadVar(b) == Some((n, k)) <==>
            && k <= |b|
            && (|| (n < 253 && k == 1 && b[0] as nat == n)
                || (253 <= n < 0x1_0000 && k == 3 && b[0] == 253 && FromBe(b[1..3]) == n)
                || (0x1_0000 <= n < 0x1_0000_0000 && k == 5 && b[0] == 254 && FromBe(b[1..5]) == n)
                || (0x1_0000_0000 <= n && k == 9 && b[0] == 255 && FromBe(b[1..9]) == n))
  {
    Powers();
    if b != [] && b[0] >= 253 && |b| >= 1 + Width(b[0]) {
      BeInverse(b[1..1 + Width(b[0])]);
    }
  }

  /** What parses is the canonical encoding. */
  lemma VarCanonical(b: Bytes)
    requires ReadVar(b).Some?
    ensures var (n, k) := ReadVar(b).value;
            n < U64 && 0 < k <= |b| && k <= 9 && b[..k] == WriteVar(n)
  {
    Powers();
    if b[0] >= 253 {
      var w := Width(b[0]);
      BeInverse(b[1..1 + w]);
      assert b[..1 + w] == [b[0]] + b[1..1 + w];
    }
  }

  /** A number is read the same whatever follows it, and not at all from less of it. */
  lemma VarIsPrefixFree(b: Bytes, more: Bytes, j: nat)
    requires ReadVar(b).Some? && j <= |b|
    ensures ReadVar(b + more) == ReadVar(b)
    ensures j < ReadVar(b).value.1 ==> ReadVar(b[..j]) == None
    ensures j >= ReadVar(b).value.1 ==> ReadVar(b[..j]) == ReadVar(b)
  {
    var w := Width(b[0]);
    assert (b + more)[0] == b[0];
    if b[0] >= 253 {
      assert (b + more)[1..1 + w] == b[1..1 + w];
      if j >= 1 + w {
        assert b[..j][1..1 + w] == b[1..1 + w];
      }
    }
  }

  // ------------------------------------------------------------------------ TLVs

  datatype Malformed = TruncatedType | TruncatedLength | TruncatedValue

  function WriteTlv(t: nat, value: Bytes): Bytes {
    WriteVar(t) + WriteVar(|value|) + value
  }

  /** Type, value offset and value length of a complete header. */
  function Header(buf: Bytes): Option<(nat, nat, nat)> {
    match ReadVar(buf)
    case None => None
    case Some((t, tn)) =>
      if tn > |buf| then None
      else match ReadVar(buf[tn..])
           case None => None
           case Some((l, ln)) => Some((t, tn + ln, l))
  }

  /** `split_tlv`: type, value start and end of the TLV at the head of `buf`. */
  function SplitTlv(buf: Bytes): Result<(nat, nat, nat), Malformed> {
    match ReadVar(buf)
    case None => Err(TruncatedType)
    case Some((t, tn)) =>
      if tn > |buf| then Err(TruncatedType)
      else match ReadVar(buf[tn..])
           case None => Err(TruncatedLength)
           case Some((l, ln)) =>
             if tn + ln + l <= |buf| then Ok((t, tn + ln, tn + ln + l)) else Err(TruncatedValue)
  }

  predicate Skippable(t: nat) {
    t > 31 && t % 2 == 0
  }

  lemma HeaderRoundTrip(t: nat, len: nat, rest: Bytes)
    requires t < U64 && len < U64
    ensures Header(WriteVar(t) + WriteVar(len) + rest) == Some((t, |WriteVar(t)| + |WriteVar(len)|, len))
  {
    var buf := WriteVar(t) + WriteVar(len) + rest;
    Assoc(WriteVar(t), WriteVar(len), rest);
    VarRoundTrip(t, WriteVar(len) + rest);
    assert buf[|WriteVar(t)|..] == WriteVar(len) + rest;
    VarRoundTrip(len, rest);
  }

  lemma HeaderCanonical(buf: Bytes)
    requires Header(buf).Some?
    ensures var (t, start, len) := Header(buf).value;
            && t < U64 && len < U64 && start <= |buf| && 0 < start <= 18
            && buf[..start] == WriteVar(t) + WriteVar(len)
  {
    hide ReadVar, WriteVar;
    VarCanonical(buf);
    var (t, tn) := ReadVar(buf).value;
    VarCanonical(buf[tn..]);
    var (l, ln) := ReadVar(buf[tn..]).value;
    assert buf[..tn + ln] == buf[..tn] + buf[tn..][..ln];
  }

  /** A header is complete exactly from its last byte on. */
  lemma HeaderIsPrefixFree(buf: Bytes, j: nat)
    requires Header(buf).Some? && j <= |buf|
    ensures j < Header(buf).value.1 ==> Header(buf[..j]) == None
    ensures j >= Header(buf).value.1 ==> Header(buf[..j]) == Header(buf)
  {
    hide ReadVar, WriteVar;
    HeaderCanonical(buf);
    var (t, tn) := ReadVar(buf).value;
    VarIsPrefixFree(buf, [], j);
    if tn <= j {
      assert buf[..j][tn..] == buf[tn..][..j - tn];
      VarIsPrefixFree(buf[tn..], [], j - tn);
    }
  }

  /** A prefix's header is the whole buffer's. */
  lemma HeaderExtends(buf: Bytes, more: Bytes)
    requires Header(buf).Some?
    ensures Header(buf + more) == Header(buf)
  {
    hide ReadVar, WriteVar;
    VarCanonical(buf);
    VarIsPrefixFree(buf, more, 0);
    var (t, tn) := ReadVar(buf).value;
    assert (buf + more)[tn..] == buf[tn..] + more;
    VarIsPrefixFree(buf[tn..], more, 0);
  }

  // ---------------------------------------------------------------------- fields

  /** One TLV of a message: `cur[start..end]` under its type. */
  datatype Field = Field(t: nat, value: Bytes) {
    /** The whole TLV, `cur[..end]`. */
    function Whole(): Bytes {
      WriteTlv(t, value)
    }

    ghost predicate Writable() {
      t < U64 && |value| < U64
    }
  }

  /** The field at the head of `buf` and what follows it. */
  function NextField(buf: Bytes): Result<(Field, Bytes), Malformed> {
    match SplitTlv(buf)
    case Err(e) => Err(e)
    case Ok((t, start, end)) =>
      if start <= end <= |buf| then Ok((Field(t, buf[start..end]), buf[end..])) else Err(TruncatedValue)
  }

  lemma SplitRoundTrip(t: nat, value: Bytes, rest: Bytes)
    requires t < U64 && |value| < U64
    ensures var start := |WriteVar(t)| + |WriteVar(|value|)|;
            && SplitTlv(WriteTlv(t, value) + rest) == Ok((t, start, start + |value|))
            && (WriteTlv(t, value) + rest)[start..start + |value|] == value
            && (WriteTlv(t, value) + rest)[..start + |value|] == WriteTlv(t, value)
            && (WriteTlv(t, value) + rest)[start + |value|..] == rest
  {
    var head := WriteVar(t) + WriteVar(|value|);
    HeaderRoundTrip(t, |value|, value + rest);
    Assoc(head, value, rest);
    Seams(head, value, rest);
    var buf := WriteTlv(t, value) + rest;
    var (t', tn) := ReadVar(buf).value;
    var (l, ln) := ReadVar(buf[tn..]).value;
    assert tn + ln == |head| && l == |value|;
  }

  /** A split reads back exactly one written TLV. */
  lemma SplitCanonical(buf: Bytes)
    requires SplitTlv(buf).Ok?
    ensures var (t, start, end) := SplitTlv(buf).value;
            && t < U64 && 0 < start <= end <= |buf| && end - start < U64
            && buf[..end] == WriteTlv(t, buf[start..end])
  {
    HeaderCanonical(buf);
    var (t, start, end) := SplitTlv(buf).value;
    assert buf[..end] == buf[..start] + buf[start..end];
  }

  lemma FieldRoundTrip(f: Field, rest: Bytes)
    requires f.Writable()
    ensures NextField(f.Whole() + rest) == Ok((f, rest))
    ensures f.Whole() != []
  {
    SplitRoundTrip(f.t, f.value, rest);
  }

  lemma FieldCanonical(buf: Bytes)
    requires NextField(buf).Ok?
    ensures var (f, rest) := NextField(buf).value;
            f.Writable() && buf == f.Whole() + rest && |rest| < |buf|
  {
    SplitCanonical(buf);
    var (t, start, end) := SplitTlv(buf).value;
    assert buf == buf[..end] + buf[end..];
  }

  function Encoded(fields: seq<Field>): Bytes {
    if fields == [] then [] else fields[0].Whole() + Encoded(fields[1..])
  }

  lemma {:induction false} EncodedAppend(a: seq<Field>, b: seq<Field>)
    ensures Encoded(a + b) == Encoded(a) + Encoded(b)
  {
    hide WriteTlv;
    if a == [] {
      assert a + b == b;
    } else {
      EncodedAppend(a[1..], b);
      assert (a + b)[0] == a[0] && (a + b)[1..] == a[1..] + b;
      Assoc(a[0].Whole(), Encoded(a[1..]), Encoded(b));
    }
  }

  lemma EncodedOne(f: Field)
    ensures Encoded([f]) == f.Whole()
  {
    assert [f][1..] == [];
    assert f.Whole() + [] == f.Whole();
  }

  /** Total size bounds every field. */
  lemma {:induction false} EncodedFits(fields: seq<Field>)
    requires |Encoded(fields)| < U64 && forall k :: 0 <= k < |fields| ==> fields[k].t < U64
    ensures forall k :: 0 <= k < |fields| ==> fields[k].Writable()
  {
    if fields != [] {
      EncodedFits(fields[1..]);
      forall k | 0 <= k < |fields|
        ensures fields[k].Writable()
      {
        if k > 0 {
          assert fields[k] == fields[1..][k - 1];
        }
      }
    }
  }

  // ------------------------------------------------------- the shared decode loop

  /** Run `step` over the fields of `buf`, in order; the first fault wins. */
  function Fold<S, E>(buf: Bytes, s: S, step: (S, Field) -> Result<S, E>, malformed: Malformed -> E): Result<S, E>
    decreases |buf|
  {
    if buf == [] then Ok(s)
    else
      match NextField(buf)
      case Err(e) => Err(malformed(e))
      case Ok((f, rest)) =>
        FieldCanonical(buf);
        match step(s, f)
        case Err(e) => Err(e)
        case Ok(s') => Fold(rest, s', step, malformed)
  }

  /** The same over a list of fields. */
  function FoldList<S, E>(fields: seq<Field>, s: S, step: (S, Field) -> Result<S, E>): Result<S, E> {
    if fields == [] then Ok(s)
    else match step(s, fields[0])
         case Err(e) => Err(e)
         case Ok(s') => FoldList(fields[1..], s', step)
  }

  lemma {:induction false} FoldEncoded<S, E>(fields: seq<Field>, rest: Bytes, s: S,
                                             step: (S, Field) -> Result<S, E>, malformed: Malformed -> E)
    requires forall k :: 0 <= k < |fields| ==> fields[k].Writable()
    ensures Fold(Encoded(fields) + rest, s, step, malformed) ==
            match FoldList(fields, s, step)
            case Err(e) => Err(e)
            case Ok(s') => Fold(rest, s', step, malformed)
    decreases |fields|
  {
    if fields == [] {
      assert Encoded(fields) + rest == rest;
    } else {
      var f := fields[0];
      assert f.Writable();
      Assoc(f.Whole(), Encoded(fields[1..]), rest);
      FieldRoundTrip(f, Encoded(fields[1..]) + rest);
      match step(s, f)
      case Err(e) =>
      case Ok(s') =>
        forall k | 0 <= k < |fields[1..]| ensures fields[1..][k].Writable() { assert fields[1..][k] == fields[k + 1]; }
        FoldEncoded(fields[1..], rest, s', step, malformed);
    }
  }

  lemma FoldAll<S, E>(fields: seq<Field>, s: S, step: (S, Field) -> Result<S, E>, malformed: Malformed -> E)
    requires forall k :: 0 <= k < |fields| ==> fields[k].Writable()
    ensures Fold(Encoded(fields), s, step, malformed) == FoldList(fields, s, step)
  {
    FoldEncoded(fields, [], s, step, malformed);
    assert Encoded(fields) + [] == Encoded(fields);
  }

  lemma {:induction false} FoldListAppend<S, E>(a: seq<Field>, b: seq<Field>, s: S, step: (S, Field) -> Result<S, E>)
    ensures FoldList(a + b, s, step) ==
            match FoldList(a, s, step)
            case Err(e) => Err(e)
            case Ok(s') => FoldList(b, s', step)
    decreases |a|
  {
    if a == [] {
      assert a + b == b;
    } else {
      assert (a + b)[0] == a[0] && (a + b)[1..] == a[1..] + b;
      match step(s, a[0])
      case Err(e) =>
      case Ok(s') => FoldListAppend(a[1..], b, s', step);
    }
  }

  /** A field `step` passes over may stand anywhere between others. */
  lemma FoldIgnores<S(!new), E>(a: seq<Field>, u: Field, b: Bytes, s: S,
                                step: (S, Field) -> Result<S, E>, malformed: Malformed -> E)
    requires forall k :: 0 <= k < |a| ==> a[k].Writable()
    requires u.Writable() && forall s' :: step(s', u) == Ok(s')
    ensures Fold(Encoded(a) + u.Whole() + b, s, step, malformed) == Fold(Encoded(a) + b, s, step, malformed)
  {
    Assoc(Encoded(a), u.Whole(), b);
    FoldEncoded(a, u.Whole() + b, s, step, malformed);
    FoldEncoded(a, b, s, step, malformed);
    FieldRoundTrip(u, b);
  }

  /** A field `step` refuses fails the message wherever it stands. */
  lemma FoldRefuses<S(!new), E>(a: seq<Field>, u: Field, b: Bytes, s: S,
                                step: (S, Field) -> Result<S, E>, malformed: Malformed -> E)
    requires forall k :: 0 <= k < |a| ==> a[k].Writable()
    requires u.Writable() && forall s' :: step(s', u).Err?
    ensures Fold(Encoded(a) + u.Whole() + b, s, step, malformed).Err?
  {
    Assoc(Encoded(a), u.Whole(), b);
    FoldEncoded(a, u.Whole() + b, s, step, malformed);
    FieldRoundTrip(u, b);
  }

  /** What every accepting step keeps holds of what the fold accepts. */
  lemma {:induction false} FoldKeeps<S(!new), E>(buf: Bytes, s: S, step: (S, Field) -> Result<S, E>,
                                                 malformed: Malformed -> E, inv: S -> bool)
    requires inv(s)
    requires forall s', f: Field :: inv(s') && f.Writable() && step(s', f).Ok? ==> inv(step(s', f).value)
    ensures Fold(buf, s, step, malformed).Ok? ==> inv(Fold(buf, s, step, malformed).value)
    decreases |buf|
  {
    if buf != [] && NextField(buf).Ok? {
      FieldCanonical(buf);
      var (f, rest) := NextField(buf).value;
      if step(s, f).Ok? {
        FoldKeeps(rest, step(s, f).value, step, malformed, inv);
      }
    }
  }

  /** The loop every decoder runs: split the next TLV off `cur`, act on it, go on. */
  method RunFields<S, E>(value: Bytes, init: S, step: (S, Field) -> Result<S, E>, malformed: Malformed -> E)
      returns (r: Result<S, E>)
    ensures r == Fold(value, init, step, malformed)
  {
    var cur := value;
    var s := init;
    while cur != []
      invariant Fold(cur, s, step, malformed) == Fold(value, init, step, malformed)
      decreases |cur|
    {
      var split := SplitTlv(cur);
      if split.Err? {
        return Err(malformed(split.error));
      }
      SplitCanonical(cur);
      var (t, start, end) := split.value;
      var next := step(s, Field(t, cur[start..end]));
      if next.Err? {
        return Err(next.error);
      }
      s := next.value;
      cur := cur[end..];
    }
    return Ok(s);
  }
}
