/**
 * Scoped links (ndn-face-quic/src/scope.rs): which frames cross, what the rate
 * buckets let in, and how the fragments of a packet follow its head.
 */
module Scope {
  import opened Common
  import opened Tlv
  import Messages
  import Meaning

  type Name = Messages.Name

  const LP_PACKET := 0x64
  const INTEREST := 0x05
  const REMEMBERED_FRAGMENTED := 32

  datatype Kind = Interest | Data | Nack

  datatype Carries = Interests | Answers | Everything

  datatype RateLimit = RateLimit(burst: nat, perSec: nat)

  datatype LinkScope = LinkScope(receives: Carries, sends: Carries, names: Name -> bool, rate: RateLimit)

  datatype Judged = Pass | Drop(nack: Option<Bytes>)

  // ---------------------------------------------------------------- reading a frame

  /** What a frame carries, as far as a scope cares. */
  datatype Packet =
    | LinkOnly
    | Network(kind: Kind, name: Name, whole: Option<Bytes>, firstOf: Option<nat>)
    | LaterFragment(base: nat)

  /** The NDNLPv2 fields `LpPacket::decode` finds in a frame. */
  datatype LpPacket = LpPacket(fragment: Option<Bytes>, fragCount: Option<nat>, fragIndex: Option<nat>,
                               sequence: Option<nat>, nack: bool)

  function Default(o: Option<nat>, d: nat): nat {
    if o.Some? then o.value else d
  }

  /** The value of the Name TLV that starts `rest`, if it is all there. */
  function LeadingName(rest: Bytes): Option<Name> {
    match Header(rest)
    case None => None
    case Some((nt, start, nl)) =>
      if nt != Messages.NAME || start + nl > |rest| then None
      else match Messages.DecodeName(rest[start..start + nl])
           case Err(_) => None
           case Ok(name) => Some(name)
  }

  /** The kind and name at the head of a packet, or of its first fragment. */
  function Head(packet: Bytes): Option<(Kind, Name)> {
    match Header(packet)
    case None => None
    case Some((t, start, _)) =>
      if (t != INTEREST && t != Messages.DATA) || start > |packet| then None
      else match LeadingName(packet[start..])
           case None => None
           case Some(name) => Some((if t == INTEREST then Interest else Data, name))
  }

  /** `Packet::of`; `lp` is what the NDNLPv2 decoder makes of the frame. */
  function PacketOf(frame: Bytes, lp: Option<LpPacket>): Option<Packet> {
    match ReadVar(frame)
    case None => None
    case Some((t, _)) =>
      if t != LP_PACKET then
        match Head(frame)
        case None => None
        case Some((kind, name)) => Some(Network(kind, name, Some(frame), None))
      else if lp.None? then None
      else if lp.value.fragment.None? then Some(LinkOnly)
      else
        var fragment := lp.value.fragment.value;
        var count, index := Default(lp.value.fragCount, 1), Default(lp.value.fragIndex, 0);
        if count > 1 then
          if lp.value.sequence.None? || lp.value.sequence.value < index then None
          else if index > 0 then Some(LaterFragment(lp.value.sequence.value - index))
          else match Head(fragment)
               case None => None
               case Some((kind, name)) =>
                 Some(Network(if lp.value.nack then Nack else kind, name, None, Some(lp.value.sequence.value)))
        else
          match Head(fragment)
          case None => None
          case Some((kind, name)) => Some(Network(if lp.value.nack then Nack else kind, name, Some(fragment), None))
  }

  /** The bytes of a packet up to the end of its name: a type, a length, the name. */
  function HeadBytes(t: nat, len: nat, name: Name): Bytes {
    WriteVar(t) + WriteVar(len) + Messages.EncodeName(name)
  }

  /** A packet of type `t` under `name`, whole or cut anywhere behind its name. */
  ghost predicate BeginsAs(packet: Bytes, t: nat, name: Name) {
    && Messages.WellFormedName(name) && |Messages.NameValue(name)| < U64
    && exists len: nat :: len < U64 && HeadBytes(t, len, name) <= packet
  }

  lemma LeadingNameIff(rest: Bytes, name: Name)
    ensures LeadingName(rest) == Some(name) <==>
            && Messages.WellFormedName(name) && |Messages.NameValue(name)| < U64
            && Messages.EncodeName(name) <= rest
  {
    hide ReadVar, WriteVar, Header, Messages.DecodeName, Messages.NameValue, Messages.WellFormedName;
    if LeadingName(rest) == Some(name) {
      HeaderCanonical(rest);
      var (t, start, len) := Header(rest).value;
      Meaning.NameReadIff(rest[start..start + len], name);
      assert rest[..start + len] == rest[..start] + rest[start..start + len];
      assert rest[..start + len] == Messages.EncodeName(name);
    }
    if Messages.WellFormedName(name) && |Messages.NameValue(name)| < U64 && Messages.EncodeName(name) <= rest {
      var value, more := Messages.NameValue(name), rest[|Messages.EncodeName(name)|..];
      assert rest == WriteVar(Messages.NAME) + WriteVar(|value|) + (value + more) by {
        Assoc(WriteVar(Messages.NAME) + WriteVar(|value|), value, more);
      }
      HeaderRoundTrip(Messages.NAME, |value|, value + more);
      var start := |WriteVar(Messages.NAME)| + |WriteVar(|value|)|;
      assert rest[start..] == value + more;
      assert rest[start..start + |value|] == value;
      Meaning.NameReadIff(value, name);
    }
  }

  /** A head is an Interest's (type 5) or a Data packet's (type 6), with its name. */
  lemma HeadIff(packet: Bytes, name: Name)
    ensures Head(packet) == Some((Interest, name)) <==> BeginsAs(packet, 5, name)
    ensures Head(packet) == Some((Data, name)) <==> BeginsAs(packet, 6, name)
    ensures Head(packet) != Some((Nack, name))
  {
    hide ReadVar, WriteVar, Header, Messages.EncodeName, Messages.NameValue, Messages.WellFormedName, LeadingName;
    if Head(packet).Some? {
      HeaderCanonical(packet);
      var (t, start, len) := Header(packet).value;
      LeadingNameIff(packet[start..], name);
      if Head(packet).value.1 == name {
        assert packet[..start + |Messages.EncodeName(name)|] == HeadBytes(t, len, name);
      }
    }
    BeginsHead(packet, 5, name);
    BeginsHead(packet, 6, name);
  }

  lemma BeginsHead(packet: Bytes, t: nat, name: Name)
    requires t == 5 || t == 6
    ensures BeginsAs(packet, t, name) ==> Head(packet) == Some((if t == 5 then Interest else Data, name))
  {
    hide ReadVar, WriteVar, Header, Messages.EncodeName, Messages.NameValue, Messages.WellFormedName, LeadingName;
    if BeginsAs(packet, t, name) {
      var len: nat :| len < U64 && HeadBytes(t, len, name) <= packet;
      var start := |WriteVar(t)| + |WriteVar(len)|;
      assert packet == WriteVar(t) + WriteVar(len) + packet[start..];
      HeaderRoundTrip(t, len, packet[start..]);
      assert packet[start..][..|Messages.EncodeName(name)|] == Messages.EncodeName(name);
      LeadingNameIff(packet[start..], name);
    }
  }

  /** No head at all: what is neither Interest nor Data, or shows no whole name. */
  lemma NoHeadIff(packet: Bytes)
    ensures Head(packet).None? <==> forall name :: !BeginsAs(packet, 5, name) && !BeginsAs(packet, 6, name)
  {
    hide Head, BeginsAs;
    forall name
      ensures Head(packet) == Some((Interest, name)) <==> BeginsAs(packet, 5, name)
      ensures Head(packet) == Some((Data, name)) <==> BeginsAs(packet, 6, name)
      ensures Head(packet) != Some((Nack, name))
    {
      HeadIff(packet, name);
    }
    if Head(packet).Some? {
      var (kind, name) := Head(packet).value;
      assert kind == Interest || kind == Data by { HeadIff(packet, name); }
    }
  }

  /** A frame that is a packet itself, not in an NDNLPv2 one, is judged by its own head,
      and may go into a Nack whole. */
  lemma BareFrameMeans(frame: Bytes, lp: Option<LpPacket>, name: Name)
    requires ReadVar(frame).Some? && ReadVar(frame).value.0 != 100
    ensures BeginsAs(frame, 5, name) ==> PacketOf(frame, lp) == Some(Network(Interest, name, Some(frame), None))
    ensures BeginsAs(frame, 6, name) ==> PacketOf(frame, lp) == Some(Network(Data, name, Some(frame), None))
    ensures (forall n :: !BeginsAs(frame, 5, n) && !BeginsAs(frame, 6, n)) ==> PacketOf(frame, lp) == None
  {
    hide ReadVar, Head, BeginsAs;
    HeadIff(frame, name);
    NoHeadIff(frame);
  }

  /** The kind a head tells, but for the packet that a Nack carries back. */
  function Told(t: nat, nack: bool): Kind {
    if nack then Nack else if t == 5 then Interest else Data
  }

  /**
   * What a frame that is an NDNLPv2 packet says: nothing for the scope without a
   * fragment; the fragment's head if that is whole, one of at most one, or the first of
   * several; the base of its packet if it is a later one.
   */
  lemma LpFrameMeans(frame: Bytes, lp: LpPacket, t: nat, name: Name)
    requires ReadVar(frame).Some? && ReadVar(frame).value.0 == 100 && (t == 5 || t == 6)
    ensures lp.fragment.None? ==> PacketOf(frame, Some(lp)) == Some(LinkOnly)
    ensures lp.fragment.Some? && (lp.fragCount.None? || lp.fragCount.value <= 1) && BeginsAs(lp.fragment.value, t, name)
            ==> PacketOf(frame, Some(lp)) == Some(Network(Told(t, lp.nack), name, lp.fragment, None))
    ensures lp.fragment.Some? && lp.fragCount.Some? && lp.fragCount.value > 1
            && (lp.sequence.None? || (lp.fragIndex.Some? && lp.sequence.value < lp.fragIndex.value))
            ==> PacketOf(frame, Some(lp)) == None
    ensures lp.fragment.Some? && lp.fragCount.Some? && lp.fragCount.value > 1 && lp.sequence.Some?
            && (lp.fragIndex.None? || lp.fragIndex == Some(0)) && BeginsAs(lp.fragment.value, t, name)
            ==> PacketOf(frame, Some(lp)) == Some(Network(Told(t, lp.nack), name, None, lp.sequence))
    ensures lp.fragment.Some? && lp.fragCount.Some? && lp.fragCount.value > 1 && lp.sequence.Some?
            && lp.fragIndex.Some? && 0 < lp.fragIndex.value <= lp.sequence.value
            ==> PacketOf(frame, Some(lp)) == Some(LaterFragment(lp.sequence.value - lp.fragIndex.value))
    ensures lp.fragment.Some? && (lp.fragCount.None? || lp.fragCount.value <= 1 || lp.fragIndex.None?
                                  || lp.fragIndex == Some(0))
            && (forall n :: !BeginsAs(lp.fragment.value, 5, n) && !BeginsAs(lp.fragment.value, 6, n))
            ==> PacketOf(frame, Some(lp)) == None
    ensures PacketOf(frame, None) == None
  {
    hide ReadVar, Head, BeginsAs;
    if lp.fragment.Some? {
      HeadIff(lp.fragment.value, name);
      NoHeadIff(lp.fragment.value);
    }
  }

  lemma LeadingNameExtends(rest: Bytes, more: Bytes)
    requires LeadingName(rest).Some?
    ensures LeadingName(rest + more) == LeadingName(rest)
  {
    hide Header, ReadVar, WriteVar, Messages.DecodeName;
    HeaderExtends(rest, more);
    var (_, start, nl) := Header(rest).value;
    assert (rest + more)[start..start + nl] == rest[start..start + nl];
  }

  /** The head a first fragment shows is the head of the whole packet, whatever
      the later fragments add. */
  lemma HeadExtends(first: Bytes, more: Bytes)
    requires Head(first).Some?
    ensures Head(first + more) == Head(first)
  {
    hide Header, ReadVar, WriteVar, LeadingName;
    HeaderExtends(first, more);
    var (_, start, _) := Header(first).value;
    assert (first + more)[start..] == first[start..] + more;
    LeadingNameExtends(first[start..], more);
  }

  /** The name a scope judges a fragmented packet by is the reassembled packet's. */
  lemma FirstFragmentShowsTheName(frame: Bytes, lp: LpPacket, later: Bytes)
    requires PacketOf(frame, Some(lp)).Some? && PacketOf(frame, Some(lp)).value.Network?
    requires PacketOf(frame, Some(lp)).value.firstOf.Some?
    ensures var p := PacketOf(frame, Some(lp)).value;
            var whole := lp.fragment.value + later;
            && Head(whole).Some? && Head(whole).value.1 == p.name
            && (p.kind == Nack || p.kind == Head(whole).value.0)
  {
    hide Head, ReadVar;
    HeadExtends(lp.fragment.value, later);
  }

  /** The fragments of one packet, numbered from `first`, are all told by it. */
  lemma FragmentsShareTheirBase(frame: Bytes, lp: LpPacket, first: nat, index: nat)
    requires ReadVar(frame).Some? && ReadVar(frame).value.0 == LP_PACKET
    requires lp.fragment.Some? && lp.fragCount.Some? && lp.fragCount.value > 1
    requires lp.sequence == Some(first + index) && Default(lp.fragIndex, 0) == index
    ensures index > 0 ==> PacketOf(frame, Some(lp)) == Some(LaterFragment(first))
    ensures index == 0 && PacketOf(frame, Some(lp)).Some? ==>
              PacketOf(frame, Some(lp)).value.Network? && PacketOf(frame, Some(lp)).value.firstOf == Some(first)
    ensures index == 0 ==> (PacketOf(frame, Some(lp)).Some? <==> Head(lp.fragment.value).Some?)
  {
    hide ReadVar, Head;
  }

  // -------------------------------------------------------------------- rate buckets

  datatype BucketView = BucketView(tokens: real, at: real)

  function Min(a: real, b: real): real {
    if a <= b then a else b
  }

  function Elapsed(since: real, now: real): real {
    if now >= since then now - since else 0.0
  }

  /** Refill for the time since the last take, then take a token if there is one. */
  function TakeStep(b: BucketView, rate: RateLimit, now: real): (BucketView, bool) {
    var refilled := Min(b.tokens + Elapsed(b.at, now) * rate.perSec as real, rate.burst as real);
    if refilled >= 1.0 then (BucketView(refilled - 1.0, now), true) else (BucketView(refilled, now), false)
  }

  class Bucket {
    var tokens: real
    var at: real

    constructor Full(rate: RateLimit, now: real)
      ensures View() == BucketView(rate.burst as real, now)
    {
      tokens, at := rate.burst as real, now;
    }

    function View(): BucketView
      reads this
    {
      BucketView(tokens, at)
    }

    method Take(rate: RateLimit, now: real) returns (ok: bool)
      modifies this
      ensures (View(), ok) == TakeStep(old(View()), rate, now)
      ensures old(at) <= now ==> (ok <==> Fits(old(View()), rate, [now]))
    {
      OneTakeFits(View(), rate, now);
      var refill := Elapsed(at, now) * rate.perSec as real;
      tokens := Min(tokens + refill, rate.burst as real);
      at := now;
      if tokens >= 1.0 {
        tokens := tokens - 1.0;
        ok := true;
      } else {
        ok := false;
      }
    }
  }

  ghost predicate InRange(b: BucketView, rate: RateLimit) {
    0.0 <= b.tokens <= rate.burst as real
  }

  ghost predicate Ascending(times: seq<real>, from: real, to: real) {
    && (forall i :: 0 <= i < |times| ==> from <= times[i] <= to)
    && (forall i, j :: 0 <= i < j < |times| ==> times[i] <= times[j])
  }

  /** How many of the takes at `times` are granted. */
  function Grants(b: BucketView, rate: RateLimit, times: seq<real>): nat
    decreases |times|
  {
    if times == [] then 0
    else
      var (b', ok) := TakeStep(b, rate, times[0]);
      (if ok then 1 else 0) + Grants(b', rate, times[1..])
  }

  /** What a bucket refills between two times. */
  function Refilled(rate: RateLimit, from: real, to: real): real {
    rate.perSec as real * (to - from)
  }

  lemma RefilledAdds(rate: RateLimit, a: real, b: real, c: real)
    requires a <= b <= c
    ensures Refilled(rate, a, c) == Refilled(rate, a, b) + Refilled(rate, b, c)
    ensures Refilled(rate, a, b) >= 0.0 && Refilled(rate, b, c) >= 0.0
  {
  }

  /** A take keeps the tokens in range and pays for what it grants. */
  lemma TakePays(b: BucketView, rate: RateLimit, now: real)
    requires InRange(b, rate) && b.at <= now
    ensures var (b', ok) := TakeStep(b, rate, now);
            && InRange(b', rate) && b'.at == now
            && b'.tokens + (if ok then 1.0 else 0.0) <= rate.burst as real
            && b'.tokens + (if ok then 1.0 else 0.0) <= b.tokens + Refilled(rate, b.at, now)
  {
    assert (now - b.at) * rate.perSec as real == Refilled(rate, b.at, now) >= 0.0;
  }

  lemma GrantsUnfold(b: BucketView, rate: RateLimit, times: seq<real>)
    requires times != []
    ensures var (b', ok) := TakeStep(b, rate, times[0]);
            Grants(b, rate, times) as real == (if ok then 1.0 else 0.0) + Grants(b', rate, times[1..]) as real
  {
  }

  /** Grants up to `to` are paid from the tokens at hand and the refill since. */
  lemma {:induction false} GrantsFromTokens(b: BucketView, rate: RateLimit, times: seq<real>, to: real)
    requires InRange(b, rate) && Ascending(times, b.at, to) && b.at <= to
    ensures Grants(b, rate, times) as real <= b.tokens + Refilled(rate, b.at, to)
    decreases |times|
  {
    hide TakeStep, Refilled, Grants;
    if times == [] {
      NoGrants(b, rate);
      RefilledAdds(rate, b.at, b.at, to);
    } else {
      var now := times[0];
      TakePays(b, rate, now);
      GrantsUnfold(b, rate, times);
      AscendingTail(times, b.at, to);
      RefilledAdds(rate, b.at, now, to);
      GrantsFromTokens(TakeStep(b, rate, now).0, rate, times[1..], to);
    }
  }

  lemma AscendingTail(times: seq<real>, from: real, to: real)
    requires Ascending(times, from, to) && times != []
    ensures Ascending(times[1..], times[0], to) && from <= times[0] <= to
  {
    forall i | 0 <= i < |times[1..]|
      ensures times[0] <= times[1..][i] <= to
    {
      assert times[1..][i] == times[i + 1];
    }
  }

  /** In any interval, at most the burst and what the interval refills is granted. */
  lemma GrantBound(b: BucketView, rate: RateLimit, times: seq<real>, from: real, to: real)
    requires InRange(b, rate) && b.at <= from <= to && Ascending(times, from, to)
    ensures Grants(b, rate, times) as real <= rate.burst as real + Refilled(rate, from, to)
  {
    hide TakeStep, Grants, Refilled;
    if times != [] {
      var now := times[0];
      AscendingTail(times, from, to);
      TakePays(b, rate, now);
      GrantsUnfold(b, rate, times);
      RefilledAdds(rate, from, now, to);
      GrantsFromTokens(TakeStep(b, rate, now).0, rate, times[1..], to);
    } else {
      NoGrants(b, rate);
      RefilledAdds(rate, from, from, to);
    }
  }

  lemma NoGrants(b: BucketView, rate: RateLimit)
    ensures Grants(b, rate, []) == 0
  {
  }

  // ---------------------------------------------------------- what a bucket does grant

  /** Every stretch of `times` is within the burst and what the stretch refills. */
  ghost predicate Spaced(rate: RateLimit, times: seq<real>) {
    forall i, j :: 0 <= i <= j < |times| ==>
      (j - i + 1) as real <= rate.burst as real + Refilled(rate, times[i], times[j])
  }

  /** And every start of it within the tokens at hand and the refill since. */
  ghost predicate Fits(b: BucketView, rate: RateLimit, times: seq<real>) {
    && Spaced(rate, times)
    && forall j :: 0 <= j < |times| ==> (j + 1) as real <= b.tokens + Refilled(rate, b.at, times[j])
  }

  /** Those of the takes at `times` that are granted. */
  function GrantedOf(b: BucketView, rate: RateLimit, times: seq<real>): seq<real>
    decreases |times|
  {
    if times == [] then []
    else
      var (b', ok) := TakeStep(b, rate, times[0]);
      (if ok then [times[0]] else []) + GrantedOf(b', rate, times[1..])
  }

  function AfterTakes(b: BucketView, rate: RateLimit, times: seq<real>): BucketView
    decreases |times|
  {
    if times == [] then b else AfterTakes(TakeStep(b, rate, times[0]).0, rate, times[1..])
  }

  lemma TakeTells(b: BucketView, rate: RateLimit, now: real)
    requires b.at <= now
    ensures var (b', ok) := TakeStep(b, rate, now);
            var full, had := rate.burst as real, b.tokens + Refilled(rate, b.at, now);
            && (ok <==> 1.0 <= full && 1.0 <= had)
            && b' == BucketView((if had <= full then had else full) - (if ok then 1.0 else 0.0), now)
  {
    assert (now - b.at) * rate.perSec as real == Refilled(rate, b.at, now);
  }

  lemma SpacedCons(rate: RateLimit, now: real, later: seq<real>)
    ensures Spaced(rate, [now] + later) <==>
            && Spaced(rate, later) && 1.0 <= rate.burst as real
            && forall j :: 0 <= j < |later| ==>
                 (j + 2) as real <= rate.burst as real + Refilled(rate, now, later[j])
  {
    hide Refilled;
    var times := [now] + later;
    assert Refilled(rate, now, now) == 0.0 by { NothingRefilled(rate, now); }
    assert forall j :: 0 <= j < |later| ==> times[j + 1] == later[j];
    if Spaced(rate, times) {
      assert times[0] == now;
      forall i, j | 0 <= i <= j < |later|
        ensures (j - i + 1) as real <= rate.burst as real + Refilled(rate, later[i], later[j])
      {
        assert times[i + 1] == later[i] && times[j + 1] == later[j];
      }
      forall j | 0 <= j < |later|
        ensures (j + 2) as real <= rate.burst as real + Refilled(rate, now, later[j])
      {
        assert times[0] == now && times[j + 1] == later[j];
      }
    }
  }

  lemma NothingRefilled(rate: RateLimit, now: real)
    ensures Refilled(rate, now, now) == 0.0
  {
  }

  /** The first take is granted, and the later ones fit the bucket it leaves. */
  lemma FitsCons(b: BucketView, rate: RateLimit, now: real, later: seq<real>, to: real)
    requires b.at <= now && Ascending(later, now, to)
    ensures var (b', ok) := TakeStep(b, rate, now);
            && (ok ==> (Fits(b, rate, [now] + later) <==> Fits(b', rate, later)))
            && (!ok ==> !Fits(b, rate, [now] + later))
            && (!ok ==> (Fits(b, rate, later) <==> Fits(b', rate, later)))
  {
    hide TakeStep, Refilled, Spaced;
    TakeTells(b, rate, now);
    SpacedCons(rate, now, later);
    SpacedFromFirst(rate, later);
    assert ([now] + later)[0] == now;
    assert forall j :: 0 <= j < |later| ==> ([now] + later)[j + 1] == later[j];
    forall j | 0 <= j < |later|
      ensures Refilled(rate, b.at, later[j]) == Refilled(rate, b.at, now) + Refilled(rate, now, later[j])
      ensures Refilled(rate, now, later[j]) >= Refilled(rate, later[0], later[j])
    {
      RefilledAdds(rate, b.at, now, later[j]);
      RefilledAdds(rate, now, later[0], later[j]);
    }
    assert Fits(b, rate, [now] + later) <==>
      && Spaced(rate, [now] + later) && 1.0 <= b.tokens + Refilled(rate, b.at, now)
      && forall j :: 0 <= j < |later| ==> (j + 2) as real <= b.tokens + Refilled(rate, b.at, later[j])
    by {
      FitsUnfold(b, rate, now, later);
    }
  }

  lemma FitsUnfold(b: BucketView, rate: RateLimit, now: real, later: seq<real>)
    ensures Fits(b, rate, [now] + later) <==>
            && Spaced(rate, [now] + later) && 1.0 <= b.tokens + Refilled(rate, b.at, now)
            && forall j :: 0 <= j < |later| ==> (j + 2) as real <= b.tokens + Refilled(rate, b.at, later[j])
  {
    hide Refilled, Spaced;
    var times := [now] + later;
    assert times[0] == now && forall j :: 0 <= j < |later| ==> times[j + 1] == later[j];
    if Fits(b, rate, times) {
      forall j | 0 <= j < |later|
        ensures (j + 2) as real <= b.tokens + Refilled(rate, b.at, later[j])
      {
        assert times[j + 1] == later[j];
      }
    }
  }

  lemma SpacedFromFirst(rate: RateLimit, times: seq<real>)
    ensures Spaced(rate, times) ==>
              forall j :: 0 <= j < |times| ==>
                (j + 1) as real <= rate.burst as real + Refilled(rate, times[0], times[j])
  {
    hide Refilled;
  }

  lemma {:induction false} GrantedAscend(b: BucketView, rate: RateLimit, times: seq<real>, from: real, to: real)
    requires Ascending(times, from, to)
    ensures Ascending(GrantedOf(b, rate, times), from, to)
    ensures |GrantedOf(b, rate, times)| == Grants(b, rate, times) <= |times|
    ensures Grants(b, rate, times) == |times| <==> GrantedOf(b, rate, times) == times
    decreases |times|
  {
    hide TakeStep, Ascending;
    if times == [] {
    } else {
      AscendingTail(times, from, to);
      var (b', ok) := TakeStep(b, rate, times[0]);
      GrantedAscend(b', rate, times[1..], times[0], to);
      var later := GrantedOf(b', rate, times[1..]);
      if ok {
        AscendingCons(times[0], later, from, to);
        assert ([times[0]] + later)[1..] == later && times == [times[0]] + times[1..];
      } else {
        assert [] + later == later;
        AscendingSooner(later, from, times[0], to);
      }
    }
  }

  lemma OneTakeFits(b: BucketView, rate: RateLimit, now: real)
    ensures b.at <= now ==> (TakeStep(b, rate, now).1 <==> Fits(b, rate, [now]))
  {
    hide TakeStep, Fits, Ascending;
    if b.at <= now {
      assert [now] + [] == [now];
      NothingAscends(now, now);
      FitsCons(b, rate, now, [], now);
      FitsNone(TakeStep(b, rate, now).0, rate);
    }
  }

  /** A clock that reads earlier than at the last take refills nothing and costs nothing. */
  lemma ClockBehind(b: BucketView, rate: RateLimit, now: real)
    requires InRange(b, rate) && now <= b.at
    ensures TakeStep(b, rate, now) ==
            if b.tokens >= 1.0 then (BucketView(b.tokens - 1.0, now), true) else (BucketView(b.tokens, now), false)
  {
  }

  /**
   * A bucket is fair: whatever takes were refused before, one is granted exactly when
   * it and those granted before it are within the tokens, the burst and the refill.
   */
  lemma {:induction false} TakeGrantedIff(b: BucketView, rate: RateLimit, times: seq<real>, now: real)
    requires Ascending(times, b.at, now) && b.at <= now
    ensures TakeStep(AfterTakes(b, rate, times), rate, now).1 <==>
            Fits(b, rate, GrantedOf(b, rate, times) + [now])
    decreases |times|
  {
    hide TakeStep, Ascending, Fits;
    if times == [] {
      assert [] + [now] == [now];
      OneTakeFits(b, rate, now);
    } else {
      AscendingTail(times, b.at, now);
      var (b', ok) := TakeStep(b, rate, times[0]);
      TakeTells(b, rate, times[0]);
      TakeGrantedIff(b', rate, times[1..], now);
      var later := GrantedOf(b', rate, times[1..]);
      GrantedAscend(b', rate, times[1..], times[0], now);
      AscendingSnoc(later, times[0], now);
      FitsCons(b, rate, times[0], later + [now], now);
      Assoc([times[0]], later, [now]);
      assert [] + later == later;
    }
  }

  lemma FitsNone(b: BucketView, rate: RateLimit)
    ensures Fits(b, rate, [])
  {
  }

  lemma AscendingSnoc(times: seq<real>, from: real, to: real)
    requires from <= to && Ascending(times, from, to)
    ensures Ascending(times + [to], from, to)
  {
  }

  /** So all takes are granted exactly when they fit. */
  lemma {:induction false} AllGrantedIff(b: BucketView, rate: RateLimit, times: seq<real>, to: real)
    requires Ascending(times, b.at, to)
    ensures Grants(b, rate, times) == |times| <==> Fits(b, rate, times)
    decreases |times|
  {
    hide TakeStep, Ascending, Fits;
    if times == [] {
      FitsNone(b, rate);
    } else {
      AscendingTail(times, b.at, to);
      TakeTells(b, rate, times[0]);
      var (b', ok) := TakeStep(b, rate, times[0]);
      AllGrantedIff(b', rate, times[1..], to);
      FitsCons(b, rate, times[0], times[1..], to);
      assert times == [times[0]] + times[1..];
      GrantedAscend(b', rate, times[1..], times[0], to);
    }
  }

  /** From a full bucket that means: spaced as the limit says. */
  lemma FullBucketGrantsIff(rate: RateLimit, times: seq<real>, from: real, to: real)
    requires Ascending(times, from, to)
    ensures Grants(BucketView(rate.burst as real, from), rate, times) == |times| <==> Spaced(rate, times)
  {
    hide Refilled, Spaced, Grants;
    var b := BucketView(rate.burst as real, from);
    AllGrantedIff(b, rate, times, to);
    SpacedFromFirst(rate, times);
    forall j | 0 <= j < |times|
      ensures Refilled(rate, b.at, times[j]) >= Refilled(rate, times[0], times[j])
    {
      RefilledAdds(rate, b.at, times[0], times[j]);
    }
  }

  // ------------------------------------------------------------- fragments and verdicts

  /** `Fragmented::remember`: the oldest of 32 makes room. */
  function Remember(passed: seq<nat>, base: nat): seq<nat> {
    (if |passed| == REMEMBERED_FRAGMENTED then passed[1..] else passed) + [base]
  }

  predicate Carried(kind: Kind, carries: Carries) {
    match carries
    case Interests => kind == Interest
    case Answers => kind != Interest
    case Everything => true
  }

  /** `judge`: the verdict on a frame, and the passed bases remembered after it. */
  function JudgeStep(names: Name -> bool, carries: Carries, packet: Option<Packet>, passed: seq<nat>)
    : (Judged, seq<nat>)
  {
    match packet
    case None => (Drop(None), passed)
    case Some(LinkOnly) => (Pass, passed)
    case Some(LaterFragment(base)) => (if base in passed then Pass else Drop(None), passed)
    case Some(Network(kind, name, whole, firstOf)) =>
      if Carried(kind, carries) && names(name) then
        (Pass, if firstOf.Some? then Remember(passed, firstOf.value) else passed)
      else
        (Drop(if kind == Interest then whole else None), passed)
  }

  /** The mutable state of one scoped link. */
  datatype ScopeView = ScopeView(inbound: seq<nat>, outbound: seq<nat>, bucket: BucketView,
                                 lastPassed: real, dropped: nat)

  function Account(v: ScopeView, packet: Option<Packet>, judged: Judged, now: real): ScopeView {
    if judged.Drop? then v.(dropped := v.dropped + 1)
    else if packet == Some(LinkOnly) then v
    else v.(lastPassed := now)
  }

  function SendingStep(s: LinkScope, v: ScopeView, packet: Option<Packet>, now: real): (ScopeView, Judged) {
    var (judged, outbound) := JudgeStep(s.names, s.sends, packet, v.outbound);
    (Account(v.(outbound := outbound), packet, judged, now), judged)
  }

  /** A pool shared by several links, if any. */
  type Pool = Option<(RateLimit, BucketView)>

  function TakePool(pool: Pool, now: real): (Pool, bool) {
    match pool
    case None => (None, true)
    case Some((rate, b)) =>
      var (b', ok) := TakeStep(b, rate, now);
      (Some((rate, b')), ok)
  }

  function ReceivedStep(s: LinkScope, v: ScopeView, pool: Pool, packet: Option<Packet>, now: real)
    : (ScopeView, Pool, Judged)
  {
    if packet == Some(LinkOnly) then (v, pool, Pass)
    else
      var (bucket, own) := TakeStep(v.bucket, s.rate, now);
      var v1 := v.(bucket := bucket);
      if !own then (Account(v1, packet, Drop(None), now), pool, Drop(None))
      else
        var (pool', shared) := TakePool(pool, now);
        if !shared then (Account(v1, packet, Drop(None), now), pool', Drop(None))
        else
          var (judged, inbound) := JudgeStep(s.names, s.receives, packet, v1.inbound);
          (Account(v1.(inbound := inbound), packet, judged, now), pool', judged)
  }

  class SharedRate {
    const rate: RateLimit
    const bucket: Bucket

    constructor (rate: RateLimit, now: real)
      ensures this.rate == rate && fresh(bucket) && bucket.View() == BucketView(rate.burst as real, now)
    {
      this.rate := rate;
      this.bucket := new Bucket.Full(rate, now);
    }
  }

  class ScopeState {
    const scope: LinkScope
    const bucket: Bucket
    const shared: SharedRate?
    var inbound: seq<nat>
    var outbound: seq<nat>
    var lastPassed: real
    var dropped: nat

    constructor (scope: LinkScope, shared: SharedRate?, now: real)
      ensures this.scope == scope && this.shared == shared && fresh(bucket)
      ensures View() == ScopeView([], [], BucketView(scope.rate.burst as real, now), now, 0)
    {
      this.scope, this.shared := scope, shared;
      this.bucket := new Bucket.Full(scope.rate, now);
      inbound, outbound, lastPassed, dropped := [], [], now, 0;
    }

    ghost predicate Valid() {
      shared != null ==> shared.bucket != bucket
    }

    function View(): ScopeView
      reads this, bucket
    {
      ScopeView(inbound, outbound, bucket.View(), lastPassed, dropped)
    }

    function PoolView(): Pool
      reads if shared == null then {} else {shared.bucket}
    {
      if shared == null then None else Some((shared.rate, shared.bucket.View()))
    }

    /** Judge a frame the peer sent. */
    method Received(packet: Option<Packet>, now: real) returns (judged: Judged)
      requires Valid()
      modifies this, bucket, if shared == null then {} else {shared.bucket}
      ensures (View(), PoolView(), judged) == ReceivedStep(scope, old(View()), old(PoolView()), packet, now)
    {
      if packet != Some(LinkOnly) {
        var own := bucket.Take(scope.rate, now);
        if !own {
          dropped := dropped + 1;
          return Drop(None);
        }
        if shared != null {
          var ok := shared.bucket.Take(shared.rate, now);
          if !ok {
            dropped := dropped + 1;
            return Drop(None);
          }
        }
      }
      judged := Judge(packet, scope.receives, true, now);
    }

    /** Judge a frame this side would send. */
    method Sending(packet: Option<Packet>, now: real) returns (judged: Judged)
      modifies this
      ensures (View(), judged) == SendingStep(scope, old(View()), packet, now)
    {
      judged := Judge(packet, scope.sends, false, now);
    }

    method Judge(packet: Option<Packet>, carries: Carries, received: bool, now: real) returns (judged: Judged)
      modifies this
      ensures bucket.View() == old(bucket.View()) && PoolView() == old(PoolView())
      ensures var (j, passed) := JudgeStep(scope.names, carries, packet,
                                           if received then old(inbound) else old(outbound));
              judged == j &&
              View() == Account(if received then old(View()).(inbound := passed) else old(View()).(outbound := passed),
                                packet, j, now)
    {
      if packet.None? {
        dropped := dropped + 1;
        return Drop(None);
      }
      var passed := if received then inbound else outbound;
      match packet.value {
      case LinkOnly =>
        return Pass;
      case LaterFragment(base) =>
        if base in passed {
          judged := Pass;
        } else {
          dropped := dropped + 1;
          judged := Drop(None);
        }
      case Network(kind, name, whole, firstOf) =>
        if Carried(kind, carries) && scope.names(name) {
          if firstOf.Some? {
            if |passed| == REMEMBERED_FRAGMENTED {
              passed := passed[1..];
            }
            passed := passed + [firstOf.value];
            if received {
              inbound := passed;
            } else {
              outbound := passed;
            }
          }
          judged := Pass;
        } else {
          dropped := dropped + 1;
          judged := Drop(if kind == Interest then whole else None);
        }
      }
      if judged == Pass {
        lastPassed := now;
      }
    }
  }

  // ------------------------------------------------- many links, one shared pool or more

  /** A link's scope, and which pool (if any) its received packets also draw on. */
  datatype LinkConfig = LinkConfig(scope: LinkScope, pool: Option<nat>)

  datatype Relay = Relay(links: seq<LinkConfig>, pools: seq<RateLimit>)

  datatype World = World(links: seq<ScopeView>, pools: seq<BucketView>)

  /** A frame on `link`, received or to be sent, at `now`. */
  datatype Event = Event(link: nat, received: bool, packet: Option<Packet>, now: real)

  ghost predicate Matches(r: Relay, w: World) {
    && |w.links| == |r.links| && |w.pools| == |r.pools|
    && (forall l :: 0 <= l < |r.links| ==> InRange(w.links[l].bucket, r.links[l].scope.rate))
    && (forall p :: 0 <= p < |r.pools| ==> InRange(w.pools[p], r.pools[p]))
    && (forall l :: 0 <= l < |r.links| && r.links[l].pool.Some? ==> r.links[l].pool.value < |r.pools|)
  }

  function PoolOf(r: Relay, w: World, link: nat): Pool
    requires link < |r.links|
  {
    var p := r.links[link].pool;
    if p.Some? && p.value < |r.pools| && p.value < |w.pools| then Some((r.pools[p.value], w.pools[p.value])) else None
  }

  function WorldStep(r: Relay, w: World, e: Event): (World, Judged)
    requires e.link < |r.links| && e.link < |w.links|
  {
    var s, v := r.links[e.link].scope, w.links[e.link];
    if !e.received then
      var (v', judged) := SendingStep(s, v, e.packet, e.now);
      (w.(links := w.links[e.link := v']), judged)
    else
      var (v', pool, judged) := ReceivedStep(s, v, PoolOf(r, w, e.link), e.packet, e.now);
      (World(w.links[e.link := v'],
             if pool.Some? && r.links[e.link].pool.Some? && r.links[e.link].pool.value < |w.pools|
             then w.pools[r.links[e.link].pool.value := pool.value.1] else w.pools), judged)
  }

  ghost predicate Addressed(r: Relay, events: seq<Event>) {
    forall k :: 0 <= k < |events| ==> events[k].link < |r.links|
  }

  function WorldRun(r: Relay, w: World, events: seq<Event>): World
    requires |w.links| == |r.links| && forall k :: 0 <= k < |events| ==> events[k].link < |r.links|
    decreases |events|
  {
    if events == [] then w else WorldRun(r, WorldStep(r, w, events[0]).0, events[1..])
  }

  /** The clock only moves forward, and past what the buckets have seen. */
  ghost predicate Clocked(w: World, events: seq<Event>, from: real, to: real) {
    && from <= to
    && (forall l :: 0 <= l < |w.links| ==> w.links[l].bucket.at <= from)
    && (forall p :: 0 <= p < |w.pools| ==> w.pools[p].at <= from)
    && (forall k :: 0 <= k < |events| ==> from <= events[k].now <= to)
    && (forall i, j :: 0 <= i < j < |events| ==> events[i].now <= events[j].now)
  }

  /** A network frame received on a link of `who` crosses. */
  predicate Crosses(r: Relay, w: World, e: Event, who: set<nat>)
    requires e.link < |r.links| && e.link < |w.links|
  {
    e.link in who && e.received && e.packet != Some(LinkOnly) && WorldStep(r, w, e).1 == Pass
  }

  /** How many network frames received on the links `who` cross. */
  function Crossed(r: Relay, w: World, events: seq<Event>, who: set<nat>): nat
    requires |w.links| == |r.links| && forall k :: 0 <= k < |events| ==> events[k].link < |r.links|
    decreases |events|
  {
    if events == [] then 0
    else (if Crosses(r, w, events[0], who) then 1 else 0) + Crossed(r, WorldStep(r, w, events[0]).0, events[1..], who)
  }

  /** When the own bucket of link `l` is asked. */
  function OwnTakes(events: seq<Event>, l: nat): seq<real> {
    if events == [] then []
    else (if events[0].link == l && events[0].received && events[0].packet != Some(LinkOnly)
      then [events[0].now] else [])
         + OwnTakes(events[1..], l)
  }

  /** Whether a frame reaches pool `p`: it passed its link's own bucket first. */
  predicate AsksPool(r: Relay, w: World, e: Event, p: nat)
    requires e.link < |r.links| && e.link < |w.links|
  {
    && e.received && e.packet != Some(LinkOnly) && r.links[e.link].pool == Some(p)
    && TakeStep(w.links[e.link].bucket, r.links[e.link].scope.rate, e.now).1
  }

  /** When pool `p` is asked. */
  function PoolTakes(r: Relay, w: World, events: seq<Event>, p: nat): seq<real>
    requires |w.links| == |r.links| && forall k :: 0 <= k < |events| ==> events[k].link < |r.links|
    decreases |events|
  {
    if events == [] then []
    else (if AsksPool(r, w, events[0], p) then [events[0].now] else [])
         + PoolTakes(r, WorldStep(r, w, events[0]).0, events[1..], p)
  }

  lemma SendingKeepsBucket(s: LinkScope, v: ScopeView, packet: Option<Packet>, now: real)
    ensures SendingStep(s, v, packet, now).0.bucket == v.bucket
  {
    hide JudgeStep;
  }

  /** A received frame pays the own bucket first, and the pool only after that. */
  lemma ReceivedPays(s: LinkScope, v: ScopeView, pool: Pool, packet: Option<Packet>, now: real)
    requires packet != Some(LinkOnly)
    ensures var (v', pool', judged) := ReceivedStep(s, v, pool, packet, now);
            var (bucket, own) := TakeStep(v.bucket, s.rate, now);
            && v'.bucket == bucket
            && pool' == (if own then TakePool(pool, now).0 else pool)
            && (judged == Pass ==> own && TakePool(pool, now).1)
  {
    hide TakeStep, JudgeStep, TakePool;
  }

  ghost predicate Sized(r: Relay, w: World) {
    |w.links| == |r.links| && |w.pools| == |r.pools|
  }

  lemma MatchesSized(r: Relay, w: World)
    requires Matches(r, w)
    ensures Sized(r, w)
  {
    hide InRange;
  }

  /** One frame changes its link's bucket if it asks, and crosses only if granted. */
  lemma StepOwnBucket(r: Relay, w: World, e: Event, l: nat)
    requires Sized(r, w) && e.link < |r.links| && l < |r.links|
    ensures Sized(r, WorldStep(r, w, e).0)
    ensures var asks := e.link == l && e.received && e.packet != Some(LinkOnly);
            var (bucket, own) := TakeStep(w.links[l].bucket, r.links[l].scope.rate, e.now);
            && WorldStep(r, w, e).0.links[l].bucket == (if asks then bucket else w.links[l].bucket)
            && (Crosses(r, w, e, {l}) ==> asks && own)
  {
    hide TakeStep, SendingStep, ReceivedStep, PoolOf;
    var s, v := r.links[e.link].scope, w.links[e.link];
    SendingKeepsBucket(s, v, e.packet, e.now);
    if e.received {
      if e.packet == Some(LinkOnly) {
        LinkOnlyReceived(s, v, PoolOf(r, w, e.link), e.now);
      } else {
        ReceivedPays(s, v, PoolOf(r, w, e.link), e.packet, e.now);
      }
    }
  }

  lemma LinkOnlyReceived(s: LinkScope, v: ScopeView, pool: Pool, now: real)
    ensures ReceivedStep(s, v, pool, Some(LinkOnly), now) == (v, pool, Pass)
  {
  }

  /** Likewise for a pool, which only frames their own bucket granted reach. */
  lemma StepPool(r: Relay, w: World, e: Event, p: nat, who: set<nat>)
    requires Sized(r, w) && e.link < |r.links| && p < |r.pools|
    ensures var (bucket, shared) := TakeStep(w.pools[p], r.pools[p], e.now);
            var asks := AsksPool(r, w, e, p);
            && Sized(r, WorldStep(r, w, e).0)
            && WorldStep(r, w, e).0.pools[p] == (if asks then bucket else w.pools[p])
            && (Crosses(r, w, e, who) && r.links[e.link].pool == Some(p) ==> asks && shared)
  {
    hide TakeStep, SendingStep, ReceivedStep;
    var s, v := r.links[e.link].scope, w.links[e.link];
    StepOwnBucket(r, w, e, e.link);
    if e.received {
      if e.packet == Some(LinkOnly) {
        LinkOnlyReceived(s, v, PoolOf(r, w, e.link), e.now);
      } else {
        ReceivedPays(s, v, PoolOf(r, w, e.link), e.packet, e.now);
      }
    }
  }

  lemma StepMatches(r: Relay, w: World, e: Event, events: seq<Event>, from: real, to: real)
    requires Matches(r, w) && e.link < |r.links| && Clocked(w, [e] + events, from, to)
    ensures Matches(r, WorldStep(r, w, e).0)
    ensures Clocked(WorldStep(r, w, e).0, events, e.now, to)
  {
    hide TakeStep, WorldStep, AsksPool, Crosses, InRange;
    var w' := WorldStep(r, w, e).0;
    assert ([e] + events)[0] == e;
    assert forall k :: 0 <= k < |events| ==> events[k] == ([e] + events)[k + 1];
    StepOwnBucket(r, w, e, e.link);
    forall l | 0 <= l < |r.links|
      ensures InRange(w'.links[l].bucket, r.links[l].scope.rate) && w'.links[l].bucket.at <= e.now
    {
      StepOwnBucket(r, w, e, l);
      TakePays(w.links[l].bucket, r.links[l].scope.rate, e.now);
    }
    forall p | 0 <= p < |r.pools|
      ensures InRange(w'.pools[p], r.pools[p]) && w'.pools[p].at <= e.now
    {
      StepPool(r, w, e, p, {});
      TakePays(w.pools[p], r.pools[p], e.now);
    }
  }

  lemma EventsCut(r: Relay, w: World, events: seq<Event>, from: real, to: real)
    requires events != [] && Matches(r, w) && Addressed(r, events) && Clocked(w, events, from, to)
    ensures var w' := WorldStep(r, w, events[0]).0;
            Matches(r, w') && Addressed(r, events[1..]) && Clocked(w', events[1..], events[0].now, to)
  {
    hide WorldStep, Matches, Clocked;
    assert events == [events[0]] + events[1..];
    assert forall k :: 0 <= k < |events[1..]| ==> events[1..][k] == events[k + 1];
    StepMatches(r, w, events[0], events[1..], from, to);
  }

  lemma GrantsCons(b: BucketView, rate: RateLimit, now: real, later: seq<real>)
    ensures var (b', ok) := TakeStep(b, rate, now);
            Grants(b, rate, [now] + later) == (if ok then 1 else 0) + Grants(b', rate, later)
  {
    assert ([now] + later)[1..] == later;
  }

  /** What crosses a link is granted by its own bucket. */
  lemma {:induction false} CrossedIsGranted(r: Relay, w: World, events: seq<Event>, l: nat, from: real, to: real)
    requires Matches(r, w) && Addressed(r, events) && Clocked(w, events, from, to) && l < |r.links|
    ensures Crossed(r, w, events, {l}) <= Grants(w.links[l].bucket, r.links[l].scope.rate, OwnTakes(events, l))
    ensures Ascending(OwnTakes(events, l), from, to)
    decreases |events|
  {
    hide TakeStep, WorldStep, Crosses, Matches, Clocked, Grants, Ascending;
    MatchesSized(r, w);
    if events == [] {
      NothingAscends(from, to);
      NoGrants(w.links[l].bucket, r.links[l].scope.rate);
    } else {
      var e, w' := events[0], WorldStep(r, w, events[0]).0;
      EventsCut(r, w, events, from, to);
      CrossedIsGranted(r, w', events[1..], l, e.now, to);
      StepOwnBucket(r, w, e, l);
      ClockedHead(w, events, from, to);
      var later := OwnTakes(events[1..], l);
      if e.link == l && e.received && e.packet != Some(LinkOnly) {
        GrantsCons(w.links[l].bucket, r.links[l].scope.rate, e.now, later);
        AscendingCons(e.now, later, from, to);
      } else {
        assert [] + later == later;
        AscendingSooner(later, from, e.now, to);
      }
    }
  }

  lemma ClockedHead(w: World, events: seq<Event>, from: real, to: real)
    requires Clocked(w, events, from, to) && events != []
    ensures from <= events[0].now <= to
  {
  }

  lemma NothingAscends(from: real, to: real)
    ensures Ascending([], from, to)
  {
  }

  lemma AscendingSooner(times: seq<real>, from: real, now: real, to: real)
    requires from <= now && Ascending(times, now, to)
    ensures Ascending(times, from, to)
  {
  }

  lemma InWho(r: Relay, w: World, e: Event, p: nat, who: set<nat>)
    requires e.link < |r.links| && e.link < |w.links|
    requires forall l :: l in who ==> l < |r.links| && r.links[l].pool == Some(p)
    ensures Crosses(r, w, e, who) ==> r.links[e.link].pool == Some(p)
  {
    hide WorldStep;
  }

  lemma AscendingCons(now: real, later: seq<real>, from: real, to: real)
    requires from <= now <= to && Ascending(later, now, to)
    ensures Ascending([now] + later, from, to)
  {
    var all := [now] + later;
    assert forall i :: 0 < i < |all| ==> all[i] == later[i - 1];
  }

  /** What crosses any of the links sharing a pool is granted by the pool. */
  lemma {:induction false} CrossedIsPooled(r: Relay, w: World, events: seq<Event>, p: nat, who: set<nat>, from: real,
                                           to: real)
    requires Matches(r, w) && Addressed(r, events) && Clocked(w, events, from, to) && p < |r.pools|
    requires forall l :: l in who ==> l < |r.links| && r.links[l].pool == Some(p)
    ensures Crossed(r, w, events, who) <= Grants(w.pools[p], r.pools[p], PoolTakes(r, w, events, p))
    ensures Ascending(PoolTakes(r, w, events, p), from, to)
    decreases |events|
  {
    hide TakeStep, WorldStep, Crosses, AsksPool, Matches, Clocked, Grants, Ascending;
    MatchesSized(r, w);
    if events == [] {
      NothingAscends(from, to);
      NoGrants(w.pools[p], r.pools[p]);
    } else {
      var e, w' := events[0], WorldStep(r, w, events[0]).0;
      EventsCut(r, w, events, from, to);
      CrossedIsPooled(r, w', events[1..], p, who, e.now, to);
      StepPool(r, w, e, p, who);
      InWho(r, w, e, p, who);
      ClockedHead(w, events, from, to);
      var later := PoolTakes(r, w', events[1..], p);
      if AsksPool(r, w, e, p) {
        GrantsCons(w.pools[p], r.pools[p], e.now, later);
        AscendingCons(e.now, later, from, to);
      } else {
        assert [] + later == later;
        AscendingSooner(later, from, e.now, to);
      }
    }
  }

  /** Over any stretch of any run, a link lets in at most its burst and what the
      stretch refills. */
  lemma LinkRateBound(r: Relay, w: World, events: seq<Event>, l: nat, from: real, to: real)
    requires Matches(r, w) && Addressed(r, events) && Clocked(w, events, from, to) && l < |r.links|
    ensures var rate := r.links[l].scope.rate;
            Crossed(r, w, events, {l}) as real <= rate.burst as real + Refilled(rate, from, to)
  {
    hide Crossed, Grants, OwnTakes, Refilled;
    CrossedIsGranted(r, w, events, l, from, to);
    GrantBound(w.links[l].bucket, r.links[l].scope.rate, OwnTakes(events, l), from, to);
  }

  /** Together, the links sharing a pool let in no more than the pool's limit. */
  lemma SharedRateBound(r: Relay, w: World, events: seq<Event>, p: nat, who: set<nat>, from: real, to: real)
    requires Matches(r, w) && Addressed(r, events) && Clocked(w, events, from, to) && p < |r.pools|
    requires forall l :: l in who ==> l < |r.links| && r.links[l].pool == Some(p)
    ensures Crossed(r, w, events, who) as real <= r.pools[p].burst as real + Refilled(r.pools[p], from, to)
  {
    hide Crossed, Grants, PoolTakes, Refilled;
    CrossedIsPooled(r, w, events, p, who, from, to);
    GrantBound(w.pools[p], r.pools[p], PoolTakes(r, w, events, p), from, to);
  }

  /** What a run leaves of a link's bucket is what its takes leave. */
  lemma {:induction false} OwnBucketAfter(r: Relay, w: World, events: seq<Event>, l: nat)
    requires Sized(r, w) && Addressed(r, events) && l < |r.links|
    ensures Sized(r, WorldRun(r, w, events))
    ensures WorldRun(r, w, events).links[l].bucket ==
            AfterTakes(w.links[l].bucket, r.links[l].scope.rate, OwnTakes(events, l))
    decreases |events|
  {
    hide TakeStep, WorldStep, Crosses;
    if events != [] {
      assert forall k :: 0 <= k < |events[1..]| ==> events[1..][k] == events[k + 1];
      StepOwnBucket(r, w, events[0], l);
      OwnBucketAfter(r, WorldStep(r, w, events[0]).0, events[1..], l);
      var later := OwnTakes(events[1..], l);
      assert ([events[0].now] + later)[1..] == later && [] + later == later;
    }
  }

  lemma {:induction false} PoolAfter(r: Relay, w: World, events: seq<Event>, p: nat)
    requires Sized(r, w) && Addressed(r, events) && p < |r.pools|
    ensures Sized(r, WorldRun(r, w, events))
    ensures WorldRun(r, w, events).pools[p] == AfterTakes(w.pools[p], r.pools[p], PoolTakes(r, w, events, p))
    decreases |events|
  {
    hide TakeStep, WorldStep, Crosses, AsksPool;
    if events != [] {
      assert forall k :: 0 <= k < |events[1..]| ==> events[1..][k] == events[k + 1];
      StepPool(r, w, events[0], p, {});
      PoolAfter(r, WorldStep(r, w, events[0]).0, events[1..], p);
      var later := PoolTakes(r, WorldStep(r, w, events[0]).0, events[1..], p);
      assert ([events[0].now] + later)[1..] == later && [] + later == later;
    }
  }

  /** The takes granted so far leave room in the link's own limit for one now. */
  ghost predicate OwnRoom(r: Relay, w: World, events: seq<Event>, l: nat, now: real)
    requires Sized(r, w) && l < |r.links|
  {
    var b, rate := w.links[l].bucket, r.links[l].scope.rate;
    Fits(b, rate, GrantedOf(b, rate, OwnTakes(events, l)) + [now])
  }

  /** And in a pool's. */
  ghost predicate PoolRoom(r: Relay, w: World, events: seq<Event>, p: nat, now: real)
    requires Sized(r, w) && Addressed(r, events) && p < |r.pools|
  {
    Fits(w.pools[p], r.pools[p], GrantedOf(w.pools[p], r.pools[p], PoolTakes(r, w, events, p)) + [now])
  }

  /**
   * After any run, the head of a packet received on a link crosses exactly when it is
   * in scope and what was granted before leaves room for it: in the limit of the link
   * and, if it has one, of its pool.
   */
  lemma ReceivedHeadCrossesIff(r: Relay, w: World, events: seq<Event>, e: Event, from: real)
    requires Matches(r, w) && Addressed(r, events) && Clocked(w, events, from, e.now) && e.link < |r.links|
    requires e.received && e.packet.Some? && e.packet.value.Network?
    ensures Sized(r, w) && Sized(r, WorldRun(r, w, events))
    ensures var s, p, pool := r.links[e.link].scope, e.packet.value, r.links[e.link].pool;
            && (pool.Some? ==> pool.value < |r.pools|)
            && (WorldStep(r, WorldRun(r, w, events), e).1 == Pass <==>
                  && (s.receives == Everything || (s.receives == Interests <==> p.kind == Interest)) && s.names(p.name)
                  && OwnRoom(r, w, events, e.link, e.now)
                  && (pool.Some? ==> PoolRoom(r, w, events, pool.value, e.now)))
  {
    hide TakeStep, WorldStep, Fits, Ascending, Clocked, Matches, InRange, WorldRun, OwnTakes, PoolTakes, GrantedOf;
    MatchesSized(r, w);
    OwnBucketAfter(r, w, events, e.link);
    OwnTakesAscend(r, w, events, e.link, from, e.now);
    TakeGrantedIff(w.links[e.link].bucket, r.links[e.link].scope.rate, OwnTakes(events, e.link), e.now);
    PoolInRange(r, w, e.link);
    var pool := r.links[e.link].pool;
    if pool.Some? {
      PoolAfter(r, w, events, pool.value);
      PoolTakesAscend(r, w, events, pool.value, from, e.now);
      TakeGrantedIff(w.pools[pool.value], r.pools[pool.value], PoolTakes(r, w, events, pool.value), e.now);
    }
    HeadCrossesIff(r, WorldRun(r, w, events), e);
  }

  lemma PoolInRange(r: Relay, w: World, l: nat)
    requires Matches(r, w) && l < |r.links|
    ensures r.links[l].pool.Some? ==> r.links[l].pool.value < |r.pools|
  {
  }

  lemma OwnTakesAscend(r: Relay, w: World, events: seq<Event>, l: nat, from: real, to: real)
    requires Matches(r, w) && Addressed(r, events) && Clocked(w, events, from, to) && l < |r.links|
    ensures w.links[l].bucket.at <= to && Ascending(OwnTakes(events, l), w.links[l].bucket.at, to)
  {
    hide TakeStep, Grants, OwnTakes, Crossed, Ascending;
    CrossedIsGranted(r, w, events, l, from, to);
    AscendingSooner(OwnTakes(events, l), w.links[l].bucket.at, from, to);
  }

  lemma PoolTakesAscend(r: Relay, w: World, events: seq<Event>, p: nat, from: real, to: real)
    requires Matches(r, w) && Addressed(r, events) && Clocked(w, events, from, to) && p < |r.pools|
    ensures w.pools[p].at <= to && Ascending(PoolTakes(r, w, events, p), w.pools[p].at, to)
  {
    hide TakeStep, Grants, PoolTakes, Crossed, Ascending;
    CrossedIsPooled(r, w, events, p, {}, from, to);
    AscendingSooner(PoolTakes(r, w, events, p), w.pools[p].at, from, to);
  }

  /** Every packet received on `l` is a head that is in its scope. */
  ghost predicate AllInScope(r: Relay, events: seq<Event>, l: nat)
    requires l < |r.links|
  {
    forall k :: 0 <= k < |events| && events[k].link == l && events[k].received && events[k].packet != Some(LinkOnly) ==>
      HeadInScope(r.links[l].scope, events[k].packet)
  }

  predicate HeadInScope(s: LinkScope, packet: Option<Packet>) {
    packet.Some? && packet.value.Network? && Carried(packet.value.kind, s.receives) && s.names(packet.value.name)
  }

  lemma {:induction false} CrossedIsAllGranted(r: Relay, w: World, events: seq<Event>, l: nat)
    requires Sized(r, w) && Addressed(r, events) && l < |r.links| && r.links[l].pool.None? && AllInScope(r, events, l)
    ensures Crossed(r, w, events, {l}) == Grants(w.links[l].bucket, r.links[l].scope.rate, OwnTakes(events, l))
    decreases |events|
  {
    hide TakeStep, WorldStep, Crosses, Grants, HeadInScope;
    if events == [] {
      NoGrants(w.links[l].bucket, r.links[l].scope.rate);
    } else {
      var e, rest := events[0], events[1..];
      assert forall k :: 0 <= k < |rest| ==> rest[k] == events[k + 1];
      StepOwnBucket(r, w, e, l);
      CrossedIsAllGranted(r, WorldStep(r, w, e).0, rest, l);
      var later := OwnTakes(rest, l);
      if e.link == l && e.received && e.packet != Some(LinkOnly) {
        GrantsCons(w.links[l].bucket, r.links[l].scope.rate, e.now, later);
        GrantedHeadCrosses(r, w, e);
      } else {
        assert [] + later == later;
      }
    }
  }

  lemma GrantedHeadCrosses(r: Relay, w: World, e: Event)
    requires Sized(r, w) && e.link < |r.links| && r.links[e.link].pool.None?
    requires e.received && HeadInScope(r.links[e.link].scope, e.packet)
    ensures Crosses(r, w, e, {e.link}) <==> TakeStep(w.links[e.link].bucket, r.links[e.link].scope.rate, e.now).1
  {
    hide TakeStep, WorldStep;
    HeadCrossesIff(r, w, e);
  }

  /** On a link of its own limit only, with a full bucket, all the heads received cross
      exactly when they are spaced as the limit says; so the link never runs dry. */
  lemma SpacedHeadsAllCrossIff(r: Relay, w: World, events: seq<Event>, l: nat, from: real, to: real)
    requires Matches(r, w) && Addressed(r, events) && Clocked(w, events, from, to) && l < |r.links|
    requires r.links[l].pool.None? && AllInScope(r, events, l)
    requires w.links[l].bucket.tokens == r.links[l].scope.rate.burst as real
    ensures Crossed(r, w, events, {l}) == |OwnTakes(events, l)| <==>
            Spaced(r.links[l].scope.rate, OwnTakes(events, l))
  {
    hide TakeStep, Grants, OwnTakes, Crossed, Ascending, Clocked, Matches, Spaced, AllInScope;
    MatchesSized(r, w);
    CrossedIsAllGranted(r, w, events, l);
    OwnTakesAscend(r, w, events, l, from, to);
    FullBucketGrantsIff(r.links[l].scope.rate, OwnTakes(events, l), w.links[l].bucket.at, to);
  }

  /** Every state a run reaches is one the bounds start from. */
  lemma {:induction false} RunMatches(r: Relay, w: World, events: seq<Event>, from: real, to: real)
    requires Matches(r, w) && Addressed(r, events) && Clocked(w, events, from, to)
    ensures Matches(r, WorldRun(r, w, events)) && Clocked(WorldRun(r, w, events), [], to, to)
    decreases |events|
  {
    hide Matches, WorldStep;
    MatchesSized(r, w);
    if events == [] {
    } else {
      EventsCut(r, w, events, from, to);
      MatchesSized(r, WorldStep(r, w, events[0]).0);
      RunMatches(r, WorldStep(r, w, events[0]).0, events[1..], events[0].now, to);
    }
  }

  /** Acknowledgements cross without a token and leave the link as it was. */
  lemma LinkOnlyIsFree(r: Relay, w: World, e: Event)
    requires Matches(r, w) && e.link < |r.links| && e.packet == Some(LinkOnly)
    ensures WorldStep(r, w, e) == (w, Pass)
  {
    hide TakeStep;
    assert w.links[e.link := w.links[e.link]] == w.links;
    if r.links[e.link].pool.Some? {
      assert w.pools[r.links[e.link].pool.value := w.pools[r.links[e.link].pool.value]] == w.pools;
    }
  }

  // ------------------------------------------------------------- fragments over a run

  function Remembered(v: ScopeView, received: bool): seq<nat> {
    if received then v.inbound else v.outbound
  }

  function Direction(s: LinkScope, received: bool): Carries {
    if received then s.receives else s.sends
  }

  /** The bases of the first fragments that crossed `l` in one direction, in order. */
  function PassedFirsts(r: Relay, w: World, events: seq<Event>, l: nat, received: bool): seq<nat>
    requires |w.links| == |r.links| && forall k :: 0 <= k < |events| ==> events[k].link < |r.links|
    decreases |events|
  {
    if events == [] then []
    else
      var (w', judged) := WorldStep(r, w, events[0]);
      NewFirst(events[0], judged, l, received) + PassedFirsts(r, w', events[1..], l, received)
  }

  function NewFirst(e: Event, judged: Judged, l: nat, received: bool): seq<nat> {
    if FirstCrossed(e, judged, l, received) then [e.packet.value.firstOf.value] else []
  }

  predicate FirstCrossed(e: Event, judged: Judged, l: nat, received: bool) {
    && e.link == l && e.received == received && judged == Pass
    && e.packet.Some? && e.packet.value.Network? && e.packet.value.firstOf.Some?
  }

  function Last(s: seq<nat>): seq<nat> {
    if |s| <= REMEMBERED_FRAGMENTED then s else s[|s| - REMEMBERED_FRAGMENTED..]
  }

  lemma RememberIsLast(s: seq<nat>, base: nat)
    ensures Remember(Last(s), base) == Last(s + [base])
  {
  }

  /** What one event does to what link `l` remembers. */
  lemma StepRemembers(r: Relay, w: World, e: Event, l: nat, received: bool)
    requires |w.links| == |r.links| && e.link < |r.links| && l < |r.links|
    ensures var (w', judged) := WorldStep(r, w, e);
            && |w'.links| == |w.links|
            && Remembered(w'.links[l], received) ==
               (if FirstCrossed(e, judged, l, received)
                then Remember(Remembered(w.links[l], received), e.packet.value.firstOf.value)
                else Remembered(w.links[l], received))
  {
    hide TakeStep;
  }

  /** A link remembers exactly the last 32 first fragments it let cross. */
  lemma {:induction false} RemembersLast32(r: Relay, w: World, before: seq<nat>, events: seq<Event>, l: nat,
                                           received: bool)
    requires |w.links| == |r.links| && Addressed(r, events) && l < |r.links|
    requires Remembered(w.links[l], received) == Last(before)
    ensures |WorldRun(r, w, events).links| == |r.links|
    ensures Remembered(WorldRun(r, w, events).links[l], received) ==
            Last(before + PassedFirsts(r, w, events, l, received))
    decreases |events|
  {
    hide WorldStep, FirstCrossed, Last, Remember;
    if events == [] {
      assert before + [] == before;
    } else {
      var e, w' := events[0], WorldStep(r, w, events[0]).0;
      var judged := WorldStep(r, w, e).1;
      StepRemembers(r, w, e, l, received);
      assert forall k :: 0 <= k < |events[1..]| ==> events[1..][k] == events[k + 1];
      var later := PassedFirsts(r, w', events[1..], l, received);
      if FirstCrossed(e, judged, l, received) {
        FirstHasBase(e, judged, l, received);
        var base := e.packet.value.firstOf.value;
        RememberIsLast(before, base);
        RemembersLast32(r, w', before + [base], events[1..], l, received);
        Assoc(before, [base], later);
      } else {
        RemembersLast32(r, w', before, events[1..], l, received);
        assert [] + later == later;
      }
    }
  }

  lemma FirstHasBase(e: Event, judged: Judged, l: nat, received: bool)
    requires FirstCrossed(e, judged, l, received)
    ensures e.packet.Some? && e.packet.value.Network? && e.packet.value.firstOf.Some?
  {
  }

  /** The rate buckets let this frame on to the verdict. */
  predicate Granted(r: Relay, w: World, e: Event)
    requires e.link < |r.links| && e.link < |w.links|
  {
    e.received ==>
      && TakeStep(w.links[e.link].bucket, r.links[e.link].scope.rate, e.now).1
      && TakePool(PoolOf(r, w, e.link), e.now).1
  }

  /**
   * A packet's head crosses if and only if the buckets grant it and the scope
   * carries its kind and name that way; otherwise it is dropped, and the drop is
   * to be Nacked exactly for a whole Interest the scope (not a rate) refused.
   */
  lemma HeadCrossesIff(r: Relay, w: World, e: Event)
    requires e.link < |r.links| && e.link < |w.links| && e.packet.Some? && e.packet.value.Network?
    ensures var s, p := r.links[e.link].scope, e.packet.value;
            var carries := Direction(s, e.received);
            var inScope := (carries == Everything || (carries == Interests <==> p.kind == Interest)) && s.names(p.name);
            && (WorldStep(r, w, e).1 == Pass <==> Granted(r, w, e) && inScope)
            && (forall interest :: WorldStep(r, w, e).1 == Drop(Some(interest)) <==>
                  Granted(r, w, e) && !inScope && p.kind == Interest && p.whole == Some(interest))
  {
    hide TakeStep, Account, TakePool;
  }

  /** A frame that cannot be read never crosses, and asks for no Nack. */
  lemma UnreadableIsDropped(r: Relay, w: World, e: Event)
    requires e.link < |r.links| && e.link < |w.links| && e.packet == None
    ensures WorldStep(r, w, e).1 == Drop(None)
  {
    hide TakeStep, TakePool, Account;
  }

  /** How many frames on `l` were dropped over a run, for whatever reason. */
  function Drops(r: Relay, w: World, events: seq<Event>, l: nat): nat
    requires |w.links| == |r.links| && forall k :: 0 <= k < |events| ==> events[k].link < |r.links|
    decreases |events|
  {
    if events == [] then 0
    else
      var (w', judged) := WorldStep(r, w, events[0]);
      (if events[0].link == l && judged.Drop? then 1 else 0) + Drops(r, w', events[1..], l)
  }

  /** When a packet, not just an acknowledgement, last crossed `l`; else `before`. */
  function LastCrossing(r: Relay, w: World, events: seq<Event>, l: nat, before: real): real
    requires |w.links| == |r.links| && forall k :: 0 <= k < |events| ==> events[k].link < |r.links|
    decreases |events|
  {
    if events == [] then before
    else
      var (w', judged) := WorldStep(r, w, events[0]);
      var crossed := events[0].link == l && judged == Pass && events[0].packet != Some(LinkOnly);
      LastCrossing(r, w', events[1..], l, if crossed then events[0].now else before)
  }

  lemma StepAccounts(r: Relay, w: World, e: Event, l: nat)
    requires |w.links| == |r.links| && e.link < |r.links| && l < |r.links|
    ensures var (w', judged) := WorldStep(r, w, e);
            && |w'.links| == |w.links|
            && w'.links[l].dropped == w.links[l].dropped + (if e.link == l && judged.Drop? then 1 else 0)
            && w'.links[l].lastPassed == if e.link == l && judged == Pass && e.packet != Some(LinkOnly) then e.now
                                         else w.links[l].lastPassed
  {
    hide TakeStep, TakePool;
  }

  /** A link counts each frame it drops, and keeps the time of the last packet it passed. */
  lemma {:induction false} LinkKeepsAccount(r: Relay, w: World, events: seq<Event>, l: nat)
    requires |w.links| == |r.links| && Addressed(r, events) && l < |r.links|
    ensures |WorldRun(r, w, events).links| == |r.links|
    ensures WorldRun(r, w, events).links[l].dropped == w.links[l].dropped + Drops(r, w, events, l)
    ensures WorldRun(r, w, events).links[l].lastPassed == LastCrossing(r, w, events, l, w.links[l].lastPassed)
    decreases |events|
  {
    hide WorldStep;
    if events != [] {
      StepAccounts(r, w, events[0], l);
      assert forall k :: 0 <= k < |events[1..]| ==> events[1..][k] == events[k + 1];
      LinkKeepsAccount(r, WorldStep(r, w, events[0]).0, events[1..], l);
    }
  }

  ghost predicate Fresh(w: World) {
    forall l :: 0 <= l < |w.links| ==> w.links[l].inbound == [] && w.links[l].outbound == []
  }

  /**
   * Over any run, a later fragment crosses if and only if the rate buckets
   * grant it and its first fragment is among the last 32 that crossed that way.
   */
  lemma LaterFragmentFollowsFirst(r: Relay, w: World, events: seq<Event>, e: Event, base: nat)
    requires |w.links| == |r.links| && Fresh(w) && Addressed(r, events) && e.link < |r.links|
    requires e.packet == Some(LaterFragment(base))
    ensures |WorldRun(r, w, events).links| == |r.links|
    ensures WorldStep(r, WorldRun(r, w, events), e).1 == Pass <==>
            Granted(r, WorldRun(r, w, events), e) && base in Last(PassedFirsts(r, w, events, e.link, e.received))
  {
    hide WorldRun, PassedFirsts, Last, TakeStep;
    var firsts := PassedFirsts(r, w, events, e.link, e.received);
    assert Last([]) == [] by { NothingIsLast(); }
    RemembersLast32(r, w, [], events, e.link, e.received);
    assert [] + firsts == firsts;
  }

  lemma NothingIsLast()
    ensures Last([]) == []
  {
  }

  /** Every first fragment that crossed named a packet the scope carries. */
  lemma {:induction false} FirstsAreInScope(r: Relay, w: World, events: seq<Event>, l: nat, received: bool, base: nat)
    requires |w.links| == |r.links| && Addressed(r, events) && l < |r.links|
    requires base in PassedFirsts(r, w, events, l, received)
    ensures exists k :: 0 <= k < |events| && InScope(r, events[k], l, received, base)
    decreases |events|
  {
    var e, w' := events[0], WorldStep(r, w, events[0]).0;
    StepRemembers(r, w, e, l, received);
    assert forall k :: 0 <= k < |events[1..]| ==> events[1..][k] == events[k + 1];
    if FirstCrossed(e, WorldStep(r, w, e).1, l, received) && e.packet.value.firstOf.value == base {
      assert InScope(r, events[0], l, received, base);
    } else {
      FirstsAreInScope(r, w', events[1..], l, received, base);
      var k :| 0 <= k < |events[1..]| && InScope(r, events[1..][k], l, received, base);
      assert InScope(r, events[k + 1], l, received, base);
    }
  }

  /** A first fragment on `l` whose kind and name the scope carries that way. */
  predicate InScope(r: Relay, e: Event, l: nat, received: bool, base: nat) {
    && e.link == l < |r.links| && e.received == received
    && e.packet.Some? && e.packet.value.Network? && e.packet.value.firstOf == Some(base)
    && Carried(e.packet.value.kind, Direction(r.links[l].scope, received))
    && r.links[l].scope.names(e.packet.value.name)
  }

  /** So a later fragment crosses only behind a first fragment that was in scope. */
  lemma OnlyInScopePacketsReassemble(r: Relay, w: World, events: seq<Event>, e: Event, base: nat)
    requires |w.links| == |r.links| && Fresh(w) && Addressed(r, events) && e.link < |r.links|
    requires e.packet == Some(LaterFragment(base))
    requires |WorldRun(r, w, events).links| == |r.links| && WorldStep(r, WorldRun(r, w, events), e).1 == Pass
    ensures exists k :: 0 <= k < |events| && InScope(r, events[k], e.link, e.received, base)
  {
    hide WorldRun, PassedFirsts, WorldStep, InScope;
    LaterFragmentFollowsFirst(r, w, events, e, base);
    FirstsAreInScope(r, w, events, e.link, e.received, base);
  }

  /** A first fragment of the packet `base` on `l`, in one direction. */
  predicate IsFirst(e: Event, l: nat, received: bool, base: nat) {
    && e.link == l && e.received == received
    && e.packet.Some? && e.packet.value.Network? && e.packet.value.firstOf == Some(base)
  }

  lemma RunUnfold(r: Relay, w: World, events: seq<Event>, l: nat, received: bool)
    requires |w.links| == |r.links| && Addressed(r, events) && events != []
    ensures Addressed(r, events[1..]) && |WorldStep(r, w, events[0]).0.links| == |r.links|
    ensures var (w', judged) := WorldStep(r, w, events[0]);
            && WorldRun(r, w, events) == WorldRun(r, w', events[1..])
            && PassedFirsts(r, w, events, l, received) ==
               NewFirst(events[0], judged, l, received) + PassedFirsts(r, w', events[1..], l, received)
  {
    hide WorldStep, NewFirst;
    assert forall k :: 0 <= k < |events[1..]| ==> events[1..][k] == events[k + 1];
    StepRemembers(r, w, events[0], events[0].link, received);
  }

  lemma {:induction false} PassedFirstsAppend(r: Relay, w: World, a: seq<Event>, b: seq<Event>, l: nat, received: bool)
    requires |w.links| == |r.links| && Addressed(r, a) && Addressed(r, b)
    ensures Addressed(r, a + b) && |WorldRun(r, w, a).links| == |r.links|
    ensures PassedFirsts(r, w, a + b, l, received) ==
            PassedFirsts(r, w, a, l, received) + PassedFirsts(r, WorldRun(r, w, a), b, l, received)
    decreases |a|
  {
    hide WorldStep, NewFirst;
    if a == [] {
      assert a + b == b;
    } else {
      PassedFirstsAppendStep(r, w, a, b, l, received);
    }
  }

  lemma {:induction false} PassedFirstsAppendStep(r: Relay, w: World, a: seq<Event>, b: seq<Event>, l: nat,
                                                  received: bool)
    requires |w.links| == |r.links| && Addressed(r, a) && Addressed(r, b) && a != []
    ensures Addressed(r, a + b) && |WorldRun(r, w, a).links| == |r.links|
    ensures PassedFirsts(r, w, a + b, l, received) ==
            PassedFirsts(r, w, a, l, received) + PassedFirsts(r, WorldRun(r, w, a), b, l, received)
    decreases |a|, 0
  {
    hide WorldStep, NewFirst, PassedFirsts, WorldRun;
    assert (a + b)[0] == a[0] && (a + b)[1..] == a[1..] + b;
    RunUnfold(r, w, a, l, received);
    RunUnfold(r, w, a + b, l, received);
    var (w', judged) := WorldStep(r, w, a[0]);
    PassedFirstsAppend(r, w', a[1..], b, l, received);
    Assoc(NewFirst(a[0], judged, l, received), PassedFirsts(r, w', a[1..], l, received),
          PassedFirsts(r, WorldRun(r, w, a), b, l, received));
  }

  lemma NotAmongFirsts(r: Relay, w: World, events: seq<Event>, l: nat, received: bool, base: nat)
    requires |w.links| == |r.links| && Addressed(r, events) && l < |r.links|
    ensures base in PassedFirsts(r, w, events, l, received) ==>
              exists k :: 0 <= k < |events| && IsFirst(events[k], l, received, base)
  {
    hide WorldStep, PassedFirsts;
    if base in PassedFirsts(r, w, events, l, received) {
      FirstsAreInScope(r, w, events, l, received, base);
      var k :| 0 <= k < |events| && InScope(r, events[k], l, received, base);
      assert IsFirst(events[k], l, received, base);
    }
  }

  /** A first fragment dropped, by its name or by a rate, takes its packet along:
      while no other packet reuses its base, no later fragment of it crosses. */
  lemma DroppedFirstDropsRest(r: Relay, w: World, before: seq<Event>, first: Event, after: seq<Event>, e: Event,
                              base: nat)
    requires |w.links| == |r.links| && Fresh(w) && Addressed(r, before) && Addressed(r, after)
    requires e.link < |r.links| && e.packet == Some(LaterFragment(base))
    requires IsFirst(first, e.link, e.received, base)
    requires |WorldRun(r, w, before).links| == |r.links| && WorldStep(r, WorldRun(r, w, before), first).1 != Pass
    requires forall k :: 0 <= k < |before| ==> !IsFirst(before[k], e.link, e.received, base)
    requires forall k :: 0 <= k < |after| ==> !IsFirst(after[k], e.link, e.received, base)
    ensures Addressed(r, before + ([first] + after))
    ensures |WorldRun(r, w, before + ([first] + after)).links| == |r.links|
    ensures WorldStep(r, WorldRun(r, w, before + ([first] + after)), e).1 != Pass
  {
    hide WorldRun, WorldStep, IsFirst;
    var w1 := WorldRun(r, w, before);
    var events := before + ([first] + after);
    FirstIsAddressed(first, e.link, e.received, base);
    PassedFirstsAppend(r, w, before, [first] + after, e.link, e.received);
    NotAmongFirsts(r, w, before, e.link, e.received, base);
    StepRemembers(r, w1, first, e.link, e.received);
    assert ([first] + after)[0] == first && ([first] + after)[1..] == after;
    NotAmongFirsts(r, WorldStep(r, w1, first).0, after, e.link, e.received, base);
    assert base !in PassedFirsts(r, w, events, e.link, e.received);
    LaterFragmentFollowsFirst(r, w, events, e, base);
    LastIsPart(PassedFirsts(r, w, events, e.link, e.received), base);
  }

  lemma FirstIsAddressed(e: Event, l: nat, received: bool, base: nat)
    requires IsFirst(e, l, received, base)
    ensures e.link == l
  {
  }

  lemma LastIsPart(s: seq<nat>, base: nat)
    ensures base in Last(s) ==> base in s
  {
  }
}
