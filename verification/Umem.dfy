/**
 * Who owns each UMEM frame of an AF_XDP face (ndn-face-afxdp/src/af_xdp.rs): the
 * io thread and the kernel hand frames round four rings and a free pool.
 */
module Umem {
  import opened Common
  import Order

  const FRAME_SIZE: nat := 4096
  const NUM_FRAMES: nat := 4096
  const RX_FRAMES: nat := NUM_FRAMES / 2
  const TX_FRAMES: nat := NUM_FRAMES - RX_FRAMES
  const ETH_HDR: nat := 14
  const AREA_LEN: nat := FRAME_SIZE * NUM_FRAMES

  /** `NDN_ETHERTYPE` in network order. */
  const ETHERTYPE: Bytes := [0x86, 0x24]

  // ------------------------------------------------------------- the frame of an address

  function Base(addr: nat): nat {
    addr / FRAME_SIZE * FRAME_SIZE
  }

  function Pow2(k: nat): nat {
    if k == 0 then 1 else 2 * Pow2(k - 1)
  }

  /** Bitwise and. */
  function And(a: nat, b: nat): nat {
    if a == 0 then 0 else 2 * And(a / 2, b / 2) + (a % 2) * (b % 2)
  }

  /** `!(FRAME_SIZE as u64 - 1)`. */
  const FRAME_MASK: nat := 0xFFFF_FFFF_FFFF_F000

  lemma {:induction false} AndAllOnes(a: nat, k: nat)
    requires a < Pow2(k)
    ensures And(a, Pow2(k) - 1) == a
    decreases k
  {
    if a != 0 {
      assert (Pow2(k) - 1) / 2 == Pow2(k - 1) - 1 && (Pow2(k) - 1) % 2 == 1;
      AndAllOnes(a / 2, k - 1);
    }
  }

  function Halved(a: nat, j: nat): nat {
    if j == 0 then a else Halved(a / 2, j - 1)
  }

  function Shifted(m: nat, j: nat): nat {
    if j == 0 then m else 2 * Shifted(m, j - 1)
  }

  /** A mask whose low bits are clear leaves the rest to the mask above them. */
  lemma {:induction false} AndAbove(a: nat, m: nat, j: nat)
    ensures And(a, Shifted(m, j)) == Shifted(And(Halved(a, j), m), j)
  {
    if j > 0 {
      AndAbove(a / 2, m, j - 1);
      if a == 0 {
        assert And(a / 2, Shifted(m, j - 1)) == 0;
      } else {
        var rest := Shifted(m, j - 1);
        assert (2 * rest) / 2 == rest && (2 * rest) % 2 == 0;
      }
    }
  }

  lemma HalvedAgain(a: nat, i: nat, j: nat)
    ensures Halved(a, i + j) == Halved(Halved(a, i), j)
  {
  }

  lemma Halved4(a: nat)
    ensures Halved(a, 4) == a / 16
  {
    assert Halved(a, 4) == Halved(a / 2, 3) == Halved(a / 2 / 2, 2) == Halved(a / 2 / 2 / 2, 1);
  }

  lemma Shifted12(m: nat)
    ensures Shifted(m, 12) == 4096 * m
  {
    assert Shifted(m, 1) == 2 * m;
    assert Shifted(m, 2) == 4 * m;
    assert Shifted(m, 4) == 16 * m;
    assert Shifted(m, 6) == 64 * m;
    assert Shifted(m, 8) == 256 * m;
    assert Shifted(m, 10) == 1024 * m;
  }

  /** The mask recovers the frame base of any 64-bit address. */
  lemma MaskIsBase(addr: nat)
    requires addr < 0x1_0000_0000_0000_0000
    ensures And(addr, FRAME_MASK) == Base(addr)
  {
    hide And, Halved, Shifted, Pow2;
    var ones: nat := 0xF_FFFF_FFFF_FFFF;
    Power52();
    HalvedAgain(addr, 4, 8);
    HalvedAgain(addr / 16, 4, 4);
    Halved4(addr);
    Halved4(addr / 16);
    Halved4(addr / 256);
    AndAbove(addr, ones, 12);
    AndAllOnes(addr / 4096, 52);
    Shifted12(ones);
    Shifted12(addr / 4096);
  }

  lemma Power52()
    ensures Pow2(52) == 0x10_0000_0000_0000
  {
    assert Pow2(4) == 16;
    assert Pow2(12) == 0x1000;
    assert Pow2(20) == 0x10_0000;
    assert Pow2(28) == 0x1000_0000;
    assert Pow2(36) == 0x10_0000_0000;
    assert Pow2(44) == 0x1000_0000_0000;
  }

  // --------------------------------------------------------------------------- sequences

  function Map<A, B>(f: A -> B, s: seq<A>): (r: seq<B>)
    ensures |r| == |s| && forall i :: 0 <= i < |s| ==> r[i] == f(s[i])
  {
    seq(|s|, i requires 0 <= i < |s| => f(s[i]))
  }

  function Without<A>(s: seq<A>, i: nat): seq<A>
    requires i < |s|
  {
    s[..i] + s[i + 1..]
  }

  lemma MapAppend<A, B>(f: A -> B, a: seq<A>, x: A)
    ensures Map(f, a + [x]) == Map(f, a) + [f(x)]
  {
  }

  lemma MapPrefix<A, B>(f: A -> B, a: seq<A>, b: seq<A>)
    requires a <= b
    ensures Map(f, a) <= Map(f, b)
  {
  }

  lemma MapSize<A, B>(f: A -> B, a: seq<A>)
    ensures |Map(f, a)| == |a|
  {
  }

  lemma MapNothing<A, B>(f: A -> B)
    ensures Map(f, []) == []
  {
  }

  lemma PrefixOfSum<A>(a: seq<A>, b: seq<A>, c: seq<A>)
    requires b <= c
    ensures a + b <= a + c
  {
  }

  lemma MapTail<A, B>(f: A -> B, a: seq<A>)
    requires a != []
    ensures Map(f, a) == [f(a[0])] + Map(f, a[1..])
  {
  }

  lemma WithoutMultiset<A>(s: seq<A>, i: nat)
    requires i < |s|
    ensures multiset(s) == multiset(Without(s, i)) + multiset{s[i]}
  {
    assert s == s[..i] + [s[i]] + s[i + 1..];
  }

  lemma MapWithout<A, B>(f: A -> B, s: seq<A>, i: nat)
    requires i < |s|
    ensures Map(f, Without(s, i)) == Without(Map(f, s), i)
  {
  }

  lemma HeadMultiset<A>(s: seq<A>)
    requires s != []
    ensures multiset(s) == multiset{s[0]} + multiset(s[1..])
  {
    assert s == [s[0]] + s[1..];
  }

  lemma LastMultiset<A>(s: seq<A>)
    requires s != []
    ensures multiset(s) == multiset(s[..|s| - 1]) + multiset{s[|s| - 1]}
  {
    assert s == s[..|s| - 1] + [s[|s| - 1]];
  }

  // ------------------------------------------------------------------------- the machine

  datatype Desc = Desc(addr: nat, len: nat)

  /**
   * The face's memory, its four rings, what each side holds outside them, and
   * what has happened: `arrived` are the frames the kernel put in the RX ring,
   * `read` those the io thread took out, `offered` the payloads it passed on,
   * `submitted` the frames put in the TX ring, `wire` those the kernel sent.
   */
  datatype Nic = Nic(area: Bytes, hdr: Bytes,
                     fill: seq<nat>, kernelRx: seq<nat>, rx: seq<Desc>, recycle: seq<nat>,
                     freeTx: seq<nat>, tx: seq<Desc>, kernelTx: seq<Desc>, completion: seq<nat>,
                     arrived: seq<Bytes>, read: seq<Bytes>, offered: seq<Bytes>,
                     submitted: seq<Bytes>, wire: seq<Bytes>)

  function Frames(first: nat, count: nat): seq<nat> {
    seq(count, i requires 0 <= i < count => (first + i) * FRAME_SIZE)
  }

  function BaseOf(d: Desc): nat {
    Base(d.addr)
  }

  function Content(area: Bytes, d: Desc): Bytes {
    if d.addr + d.len <= |area| then area[d.addr..d.addr + d.len] else []
  }

  function Contents(area: Bytes, ds: seq<Desc>): seq<Bytes> {
    Map((d: Desc) => Content(area, d), ds)
  }

  function Written(area: Bytes, at: nat, data: Bytes): Bytes
    requires at + |data| <= |area|
  {
    area[..at] + data + area[at + |data|..]
  }

  /** The io thread passes on frames of the NDN ethertype, without their header. */
  predicate IsNdn(frame: Bytes) {
    |frame| > ETH_HDR && frame[12..14] == ETHERTYPE
  }

  function NdnPayloads(frames: seq<Bytes>): seq<Bytes> {
    if frames == [] then []
    else
      var last := frames[|frames| - 1];
      NdnPayloads(frames[..|frames| - 1]) + (if IsNdn(last) then [last[ETH_HDR..]] else [])
  }

  lemma {:induction false} PayloadsAppend(a: seq<Bytes>, b: seq<Bytes>)
    ensures NdnPayloads(a + b) == NdnPayloads(a) + NdnPayloads(b)
    decreases |b|
  {
    if b == [] {
      assert a + b == a;
    } else {
      var n := |b| - 1;
      assert (a + b)[..|a + b| - 1] == a + b[..n];
      PayloadsAppend(a, b[..n]);
    }
  }

  /** Of a frame with a payload, that payload is passed on if the frame's type is
      0x8624, the one of NDN, and nothing is if it is another. */
  lemma EthertypeDecides(dst: Bytes, src: Bytes, typ: Bytes, payload: Bytes)
    requires |dst| == 6 && |src| == 6 && |typ| == 2
    ensures NdnPayloads([dst + src + typ + payload])
            == if typ == [0x86, 0x24] && payload != [] then [payload] else []
  {
    var frame := dst + src + typ + payload;
    assert frame[12..14] == typ && frame[14..] == payload;
    var none: seq<Bytes> := [];
    assert [frame][..0] == none;
  }

  /** What is too short for a header has no payload. */
  lemma ShortFrames(frame: Bytes)
    requires |frame| < 14
    ensures NdnPayloads([frame]) == []
  {
    var none: seq<Bytes> := [];
    assert [frame][..0] == none;
  }

  /** A frame fewer, a payload fewer at most. */
  lemma WithoutOne(frames: seq<Bytes>, i: nat)
    requires i < |frames|
    ensures multiset(NdnPayloads(frames)) ==
            multiset(NdnPayloads(frames[..i] + frames[i + 1..])) + multiset(NdnPayloads([frames[i]]))
  {
    hide NdnPayloads;
    assert frames == frames[..i] + [frames[i]] + frames[i + 1..];
    PayloadsAppend(frames[..i] + [frames[i]], frames[i + 1..]);
    PayloadsAppend(frames[..i], [frames[i]]);
    PayloadsAppend(frames[..i], frames[i + 1..]);
  }

  lemma {:induction false} FewerFrames(a: seq<Bytes>, b: seq<Bytes>)
    requires multiset(a) <= multiset(b)
    ensures multiset(NdnPayloads(a)) <= multiset(NdnPayloads(b))
    decreases |a|
  {
    hide NdnPayloads;
    if a == [] {
      NoPayloads();
    } else {
      var x := a[|a| - 1];
      var a' := a[..|a| - 1];
      var i := TakenOut(a, b);
      var b' := b[..i] + b[i + 1..];
      FewerFrames(a', b');
      WithoutOne(b, i);
      assert a == a' + [x];
      PayloadsAppend(a', [x]);
      MoreOfBoth(multiset(NdnPayloads(a')), multiset(NdnPayloads(b')), multiset(NdnPayloads([x])));
    }
  }

  /** The last of `a` is somewhere in `b`, and the others are among what is left of it. */
  lemma TakenOut<T>(a: seq<T>, b: seq<T>) returns (i: nat)
    requires a != [] && multiset(a) <= multiset(b)
    ensures i < |b| && b[i] == a[|a| - 1]
    ensures multiset(a[..|a| - 1]) <= multiset(b[..i] + b[i + 1..])
  {
    var x := a[|a| - 1];
    assert x in multiset(a);
    i :| 0 <= i < |b| && b[i] == x;
    OneOut(b, i);
    OneOut(a, |a| - 1);
    assert a[..|a| - 1] + a[|a|..] == a[..|a| - 1];
    OneLess(multiset(a[..|a| - 1]), multiset(b[..i] + b[i + 1..]), x);
  }

  lemma OneOut<T>(s: seq<T>, i: nat)
    requires i < |s|
    ensures multiset(s) == multiset{s[i]} + multiset(s[..i] + s[i + 1..])
  {
    assert s == s[..i] + ([s[i]] + s[i + 1..]);
  }

  lemma MoreOfBoth<T>(a: multiset<T>, b: multiset<T>, more: multiset<T>)
    requires a <= b
    ensures a + more <= b + more
  {
  }

  lemma OneLess<T>(a: multiset<T>, b: multiset<T>, x: T)
    ensures multiset{x} + a <= multiset{x} + b ==> a <= b
  {
    if multiset{x} + a <= multiset{x} + b {
      forall y | y in a
        ensures a[y] <= b[y]
      {
        assert (multiset{x} + a)[y] <= (multiset{x} + b)[y];
      }
    }
  }

  lemma NoPayloads()
    ensures NdnPayloads([]) == []
  {
  }

  datatype Step =
    | KernelFill                                              // take a frame from the FILL ring
    | KernelArrive(i: nat, offset: nat, frame: Bytes)         // write a received frame, into the RX ring
    | KernelTake                                              // take a descriptor from the TX ring
    | KernelSend(i: nat, offset: nat)                         // send it, and into the COMPLETION ring
    | Read                                                    // one descriptor out of the RX ring
    | Refill                                                  // one frame back into the FILL ring
    | Reclaim                                                 // one frame out of the COMPLETION ring
    | Submit(payload: Bytes)                                  // fill a free frame, into the TX ring

  /** What the kernel may do, and when the io thread takes each of its steps. */
  predicate Enabled(n: Nic, s: Step) {
    match s
    case KernelFill => n.fill != []
    case KernelArrive(i, offset, frame) =>
      i < |n.kernelRx| && |n.rx| < RX_FRAMES && offset < FRAME_SIZE && offset + |frame| <= FRAME_SIZE
    case KernelTake => n.tx != []
    case KernelSend(i, offset) => i < |n.kernelTx| && |n.completion| < TX_FRAMES && offset < FRAME_SIZE
    case Read => n.rx != []
    case Refill => n.recycle != []
    case Reclaim => n.completion != []
    case Submit(payload) => n.freeTx != [] && ETH_HDR + |payload| <= FRAME_SIZE
  }

  /** An insert into a ring of `capacity`: without a slot, the entry is lost. */
  function Inserted<T>(ring: seq<T>, x: T, capacity: nat): seq<T> {
    if |ring| < capacity then ring + [x] else ring
  }

  function Next(n: Nic, s: Step): Nic
    requires Inv(n) && Enabled(n, s)
  {
    match s
    case KernelFill => n.(fill := n.fill[1..], kernelRx := n.kernelRx + [n.fill[0]])
    case KernelArrive(i, offset, frame) =>
      HeldFrame(n, n.kernelRx[i]);
      var at := n.kernelRx[i] + offset;
      n.(area := Written(n.area, at, frame), kernelRx := Without(n.kernelRx, i),
         rx := n.rx + [Desc(at, |frame|)], arrived := n.arrived + [frame])
    case KernelTake => n.(tx := n.tx[1..], kernelTx := n.kernelTx + [n.tx[0]])
    case KernelSend(i, offset) =>
      n.(kernelTx := Without(n.kernelTx, i), completion := n.completion + [Base(n.kernelTx[i].addr) + offset],
         wire := n.wire + [Content(n.area, n.kernelTx[i])])
    case Read =>
      var frame := Content(n.area, n.rx[0]);
      n.(rx := n.rx[1..], recycle := n.recycle + [Base(n.rx[0].addr)], read := n.read + [frame],
         offered := n.offered + (if IsNdn(frame) then [frame[ETH_HDR..]] else []))
    case Refill => n.(recycle := n.recycle[1..], fill := Inserted(n.fill, n.recycle[0], RX_FRAMES))
    case Reclaim => n.(completion := n.completion[1..], freeTx := n.freeTx + [Base(n.completion[0])])
    case Submit(payload) =>
      FreeFrame(n, n.freeTx[|n.freeTx| - 1]);
      var base, frame := n.freeTx[|n.freeTx| - 1], n.hdr + payload;
      n.(freeTx := n.freeTx[..|n.freeTx| - 1], area := Written(n.area, base, frame),
         tx := Inserted(n.tx, Desc(base, |frame|), TX_FRAMES), submitted := n.submitted + [frame])
  }

  /** The frames on the receiving side, wherever they are. */
  function RxSide(n: Nic): multiset<nat> {
    multiset(n.fill) + multiset(n.kernelRx) + multiset(Map(BaseOf, n.rx)) + multiset(n.recycle)
  }

  /** The frames on the sending side, wherever they are. */
  function TxSide(n: Nic): multiset<nat> {
    multiset(n.freeTx) + multiset(Map(BaseOf, n.tx)) + multiset(Map(BaseOf, n.kernelTx))
      + multiset(Map(Base, n.completion))
  }

  /** Each frame of the UMEM has exactly one owner, RX frames in the first half and
      TX frames in the second; a descriptor stays inside its frame. */
  ghost predicate Owned(n: Nic) {
    && RxSide(n) == multiset(Frames(0, RX_FRAMES))
    && TxSide(n) == multiset(Frames(RX_FRAMES, TX_FRAMES))
  }

  predicate InFrame(d: Desc) {
    d.addr + d.len <= Base(d.addr) + FRAME_SIZE
  }

  predicate Whole(d: Desc) {
    d.addr == Base(d.addr) && d.len <= FRAME_SIZE
  }

  ghost predicate Shaped(n: Nic) {
    && |n.area| == AREA_LEN && |n.hdr| == ETH_HDR
    && (forall d :: d in n.rx ==> InFrame(d))
    && (forall d :: d in n.tx ==> Whole(d))
    && (forall d :: d in n.kernelTx ==> Whole(d))
  }

  /** What is read is what arrived, in order, and what is passed on its payloads. */
  ghost predicate Reads(n: Nic) {
    && n.read + Contents(n.area, n.rx) == n.arrived
    && n.offered == NdnPayloads(n.read)
  }

  /** Every frame submitted is on the wire once or still waiting, unaltered. */
  ghost predicate Sends(n: Nic) {
    multiset(n.wire) + multiset(Contents(n.area, n.kernelTx)) + multiset(Contents(n.area, n.tx))
      == multiset(n.submitted)
  }

  ghost predicate Inv(n: Nic) {
    Shaped(n) && Owned(n) && Reads(n) && Sends(n)
  }

  lemma FrameOnce(first: nat, count: nat, f: nat)
    ensures multiset(Frames(first, count))[f] <= 1
    ensures f in multiset(Frames(first, count)) ==>
              f == Base(f) && first * FRAME_SIZE <= f && f + FRAME_SIZE <= (first + count) * FRAME_SIZE
  {
    var s := Frames(first, count);
    Order.DistinctIffCounts(s);
    assert Order.Distinct(s);
    if f in multiset(s) {
      assert f in s;
      var i :| 0 <= i < count && s[i] == f;
      assert f == (first + i) * FRAME_SIZE;
    }
  }

  /** A frame the receiving side has is a frame of the first half. */
  lemma HeldFrame(n: Nic, f: nat)
    requires Owned(n) && f in RxSide(n)
    ensures f == Base(f) && f + FRAME_SIZE <= RX_FRAMES * FRAME_SIZE
    ensures RxSide(n)[f] == 1 && f !in TxSide(n)
  {
    hide RxSide, TxSide, Frames;
    FrameOnce(0, RX_FRAMES, f);
    FrameOnce(RX_FRAMES, TX_FRAMES, f);
  }

  /** A frame the sending side has is a frame of the second half. */
  lemma FreeFrame(n: Nic, f: nat)
    requires Owned(n) && f in TxSide(n)
    ensures f == Base(f) && RX_FRAMES * FRAME_SIZE <= f && f + FRAME_SIZE <= AREA_LEN
    ensures TxSide(n)[f] == 1 && f !in RxSide(n)
  {
    hide RxSide, TxSide, Frames;
    FrameOnce(0, RX_FRAMES, f);
    FrameOnce(RX_FRAMES, TX_FRAMES, f);
  }

  /** No side ever has more frames than its rings have slots. */
  lemma Counts(n: Nic)
    requires Owned(n)
    ensures |n.fill| + |n.kernelRx| + |n.rx| + |n.recycle| == RX_FRAMES
    ensures |n.freeTx| + |n.tx| + |n.kernelTx| + |n.completion| == TX_FRAMES
  {
    assert |multiset(Frames(0, RX_FRAMES))| == RX_FRAMES;
    assert |multiset(Frames(RX_FRAMES, TX_FRAMES))| == TX_FRAMES;
  }

  // ------------------------------------------------------------- memory written elsewhere

  lemma ContentElsewhere(area: Bytes, at: nat, data: Bytes, d: Desc)
    requires at + |data| <= |area| && d.addr + d.len <= |area|
    requires d.addr + d.len <= at || at + |data| <= d.addr
    ensures Content(Written(area, at, data), d) == Content(area, d)
  {
    var after := Written(area, at, data);
    assert |after| == |area|;
    forall k | d.addr <= k < d.addr + d.len
      ensures after[k] == area[k]
    {
      WrittenAt(area, at, data, k);
    }
    assert after[d.addr..d.addr + d.len] == area[d.addr..d.addr + d.len];
  }

  lemma WrittenAt(area: Bytes, at: nat, data: Bytes, k: nat)
    requires at + |data| <= |area| && k < |area|
    ensures |Written(area, at, data)| == |area|
    ensures k < at || at + |data| <= k ==> Written(area, at, data)[k] == area[k]
  {
    if at + |data| <= k {
      assert area[at + |data|..][k - at - |data|] == area[k];
    }
  }

  /** Writing inside one frame alters no descriptor of another. */
  lemma ContentsElsewhere(area: Bytes, at: nat, data: Bytes, ds: seq<Desc>)
    requires at + |data| <= |area| == AREA_LEN && at + |data| <= Base(at) + FRAME_SIZE
    requires forall d :: d in ds ==> InFrame(d) && Base(d.addr) != Base(at) && Base(d.addr) + FRAME_SIZE <= AREA_LEN
    ensures Contents(Written(area, at, data), ds) == Contents(area, ds)
  {
    hide Written, Content;
    var after := Written(area, at, data);
    forall i | 0 <= i < |ds|
      ensures Content(after, ds[i]) == Content(area, ds[i])
    {
      assert ds[i] in ds;
      BasesApart(ds[i].addr, at);
      ContentElsewhere(area, at, data, ds[i]);
    }
    assert Contents(after, ds) == Contents(area, ds);
  }

  lemma BasesApart(a: nat, b: nat)
    requires Base(a) != Base(b)
    ensures Base(a) + FRAME_SIZE <= Base(b) || Base(b) + FRAME_SIZE <= Base(a)
    ensures Base(a) <= a < Base(a) + FRAME_SIZE && Base(b) <= b < Base(b) + FRAME_SIZE
  {
  }

  lemma BaseInFrame(base: nat, offset: nat)
    requires base == Base(base) && offset < FRAME_SIZE
    ensures Base(base + offset) == base
  {
  }

  lemma ContentWritten(area: Bytes, at: nat, data: Bytes)
    requires at + |data| <= |area|
    ensures Content(Written(area, at, data), Desc(at, |data|)) == data
    ensures |Written(area, at, data)| == |area|
  {
    Seams(area[..at], data, area[at + |data|..]);
  }

  lemma BasesOf(ds: seq<Desc>, f: nat)
    ensures f in multiset(Map(BaseOf, ds)) <==> exists d :: d in ds && Base(d.addr) == f
  {
    var bases := Map(BaseOf, ds);
    if f in multiset(bases) {
      assert f in bases;
      var i :| 0 <= i < |bases| && bases[i] == f;
      assert ds[i] in ds && Base(ds[i].addr) == f;
    }
    if d :| d in ds && Base(d.addr) == f {
      var i :| 0 <= i < |ds| && ds[i] == d;
      assert bases[i] == f;
      assert f in bases;
    }
  }

  /** Descriptors of frames other than `f`, all inside the UMEM. */
  ghost predicate Clear(ds: seq<Desc>, f: nat) {
    forall d :: d in ds ==> InFrame(d) && Base(d.addr) != f && Base(d.addr) + FRAME_SIZE <= AREA_LEN
  }

  lemma RxClear(n: Nic, f: nat)
    requires Owned(n) && Shaped(n) && f !in multiset(Map(BaseOf, n.rx))
    ensures Clear(n.rx, f)
  {
    hide Owned, Content;
    forall d | d in n.rx
      ensures InFrame(d) && Base(d.addr) != f && Base(d.addr) + FRAME_SIZE <= AREA_LEN
    {
      BasesOf(n.rx, f);
      BasesOf(n.rx, Base(d.addr));
      assert Base(d.addr) in RxSide(n);
      HeldFrame(n, Base(d.addr));
    }
  }

  lemma TxClear(n: Nic, f: nat)
    requires Owned(n) && Shaped(n)
    requires f !in multiset(Map(BaseOf, n.tx)) && f !in multiset(Map(BaseOf, n.kernelTx))
    ensures Clear(n.tx, f) && Clear(n.kernelTx, f)
  {
    hide Owned, Content;
    forall d | d in n.tx || d in n.kernelTx
      ensures InFrame(d) && Base(d.addr) != f && Base(d.addr) + FRAME_SIZE <= AREA_LEN
    {
      BasesOf(n.tx, f);
      BasesOf(n.kernelTx, f);
      BasesOf(n.tx, Base(d.addr));
      BasesOf(n.kernelTx, Base(d.addr));
      assert Base(d.addr) in TxSide(n);
      FreeFrame(n, Base(d.addr));
    }
  }

  // ------------------------------------------------------------------- every interleaving

  lemma KernelFillKeeps(n: Nic)
    requires Inv(n) && Enabled(n, KernelFill)
    ensures Inv(Next(n, KernelFill))
  {
    hide Contents, Map, Frames, NdnPayloads;
    HeadMultiset(n.fill);
  }

  lemma KernelTakeKeeps(n: Nic)
    requires Inv(n) && Enabled(n, KernelTake)
    ensures Inv(Next(n, KernelTake))
  {
    hide Contents, Map, Frames, NdnPayloads, Content, Base;
    var f := (d: Desc) => Content(n.area, d);
    MapTail(BaseOf, n.tx);
    MapAppend(BaseOf, n.kernelTx, n.tx[0]);
    ContentsTail(n.area, n.tx);
    ContentsAppend(n.area, n.kernelTx, n.tx[0]);
  }

  lemma ContentsTail(area: Bytes, ds: seq<Desc>)
    requires ds != []
    ensures Contents(area, ds) == [Content(area, ds[0])] + Contents(area, ds[1..])
  {
    hide Content;
  }

  lemma ContentsAppend(area: Bytes, ds: seq<Desc>, d: Desc)
    ensures Contents(area, ds + [d]) == Contents(area, ds) + [Content(area, d)]
  {
    hide Content;
  }

  lemma ContentsWithout(area: Bytes, ds: seq<Desc>, i: nat)
    requires i < |ds|
    ensures multiset(Contents(area, ds)) == multiset(Contents(area, Without(ds, i))) + multiset{Content(area, ds[i])}
  {
    hide Content;
    var f := (d: Desc) => Content(area, d);
    assert Contents(area, Without(ds, i)) == Without(Contents(area, ds), i);
    WithoutMultiset(Contents(area, ds), i);
  }

  lemma WithoutMembers(ds: seq<Desc>, i: nat)
    requires i < |ds|
    ensures forall d :: d in Without(ds, i) ==> d in ds
  {
  }

  lemma KernelSendMoves(n: Nic, i: nat, offset: nat)
    requires Inv(n) && Enabled(n, KernelSend(i, offset))
    ensures TxSide(Next(n, KernelSend(i, offset))) == TxSide(n)
  {
    hide Inv, Map, Frames, Content, Base, Without;
    var base: nat := Base(n.kernelTx[i].addr);
    var addr: nat := base + offset;
    MapWithout(BaseOf, n.kernelTx, i);
    WithoutMultiset(Map(BaseOf, n.kernelTx), i);
    BaseOfBase(n.kernelTx[i].addr);
    BaseInFrame(base, offset);
    MapAppend(Base, n.completion, addr);
    assert Map(BaseOf, n.kernelTx)[i] == base;
  }

  lemma KernelSendKeeps(n: Nic, i: nat, offset: nat)
    requires Inv(n) && Enabled(n, KernelSend(i, offset))
    ensures Inv(Next(n, KernelSend(i, offset)))
  {
    hide Contents, Map, Frames, NdnPayloads, Content, Base, TxSide, Without;
    KernelSendMoves(n, i, offset);
    WithoutMembers(n.kernelTx, i);
    ContentsWithout(n.area, n.kernelTx, i);
  }

  lemma BaseOfBase(a: nat)
    ensures Base(Base(a)) == Base(a)
  {
  }

  lemma ReadKeeps(n: Nic)
    requires Inv(n) && Enabled(n, Read)
    ensures Inv(Next(n, Read))
  {
    hide Contents, Map, Frames, Content, Base;
    var frame := Content(n.area, n.rx[0]);
    MapTail(BaseOf, n.rx);
    ContentsTail(n.area, n.rx);
    Assoc(n.read, [frame], Contents(n.area, n.rx[1..]));
    assert (n.read + [frame])[..|n.read|] == n.read;
  }

  lemma RefillKeeps(n: Nic)
    requires Inv(n) && Enabled(n, Refill)
    ensures |n.fill| < RX_FRAMES
    ensures Inv(Next(n, Refill))
  {
    hide Contents, Map, Frames, NdnPayloads;
    Counts(n);
    HeadMultiset(n.recycle);
  }

  lemma ReclaimKeeps(n: Nic)
    requires Inv(n) && Enabled(n, Reclaim)
    ensures Inv(Next(n, Reclaim))
  {
    hide Contents, Map, Frames, NdnPayloads, Base;
    MapTail(Base, n.completion);
  }

  lemma KernelArriveKeeps(n: Nic, i: nat, offset: nat, frame: Bytes)
    requires Inv(n) && Enabled(n, KernelArrive(i, offset, frame))
    ensures Inv(Next(n, KernelArrive(i, offset, frame)))
  {
    hide Contents, Map, Frames, NdnPayloads, Content, Base, Written, Without, Owned;
    var n', f := Next(n, KernelArrive(i, offset, frame)), n.kernelRx[i];
    var at: nat := f + offset;
    KernelArriveMoves(n, i, offset, frame);
    KernelArriveApart(n, i);
    BaseInFrame(f, offset);
    ContentWritten(n.area, at, frame);
    ContentsElsewhere(n.area, at, frame, n.rx);
    ContentsElsewhere(n.area, at, frame, n.tx);
    ContentsElsewhere(n.area, at, frame, n.kernelTx);
    ContentsAppend(n'.area, n.rx, Desc(at, |frame|));
    Assoc(n.read, Contents(n.area, n.rx), [frame]);
  }

  /** The kernel's frame is no other owner's. */
  lemma KernelArriveApart(n: Nic, i: nat)
    requires Owned(n) && Shaped(n) && i < |n.kernelRx|
    ensures var f := n.kernelRx[i];
            f == Base(f) && f + FRAME_SIZE <= AREA_LEN && Clear(n.rx, f) && Clear(n.tx, f) && Clear(n.kernelTx, f)
  {
    hide Map, Frames, Base, Owned, Clear;
    var f := n.kernelRx[i];
    assert f in RxSide(n) by { assert f in multiset(n.kernelRx); }
    HeldFrame(n, f);
    RxClear(n, f);
    TxClear(n, f);
  }

  lemma KernelArriveMoves(n: Nic, i: nat, offset: nat, frame: Bytes)
    requires Inv(n) && Enabled(n, KernelArrive(i, offset, frame))
    ensures Owned(Next(n, KernelArrive(i, offset, frame)))
    ensures n.kernelRx[i] == Base(n.kernelRx[i]) && n.kernelRx[i] + FRAME_SIZE <= AREA_LEN
  {
    hide Map, Frames, Base, Written, Without, Contents, Shaped;
    var f := n.kernelRx[i];
    assert f in RxSide(n) by { assert f in multiset(n.kernelRx); }
    HeldFrame(n, f);
    var at: nat := f + offset;
    WithoutMultiset(n.kernelRx, i);
    BaseInFrame(f, offset);
    MapAppend(BaseOf, n.rx, Desc(at, |frame|));
  }

  lemma SubmitMoves(n: Nic, payload: Bytes)
    requires Inv(n) && Enabled(n, Submit(payload))
    ensures |n.tx| < TX_FRAMES && Owned(Next(n, Submit(payload)))
  {
    hide Map, Frames, Base, Written, Contents;
    var f := n.freeTx[|n.freeTx| - 1];
    Counts(n);
    assert f in TxSide(n) by { assert f in multiset(n.freeTx); }
    FreeFrame(n, f);
    LastMultiset(n.freeTx);
    MapAppend(BaseOf, n.tx, Desc(f, |n.hdr + payload|));
  }

  lemma SubmitApart(n: Nic)
    requires Owned(n) && Shaped(n) && n.freeTx != []
    ensures var f := n.freeTx[|n.freeTx| - 1];
            f == Base(f) && f + FRAME_SIZE <= AREA_LEN && Clear(n.rx, f) && Clear(n.tx, f) && Clear(n.kernelTx, f)
  {
    hide Map, Frames, Base, Owned, Clear;
    var f := n.freeTx[|n.freeTx| - 1];
    assert f in multiset(n.freeTx);
    FreeFrame(n, f);
    RxClear(n, f);
    TxClear(n, f);
  }

  lemma SubmitKeeps(n: Nic, payload: Bytes)
    requires Inv(n) && Enabled(n, Submit(payload))
    ensures Inv(Next(n, Submit(payload)))
  {
    hide Contents, Map, Frames, NdnPayloads, Content, Base, Written, Owned;
    var n', f, frame := Next(n, Submit(payload)), n.freeTx[|n.freeTx| - 1], n.hdr + payload;
    SubmitMoves(n, payload);
    SubmitApart(n);
    ContentWritten(n.area, f, frame);
    ContentsElsewhere(n.area, f, frame, n.rx);
    ContentsElsewhere(n.area, f, frame, n.tx);
    ContentsElsewhere(n.area, f, frame, n.kernelTx);
    ContentsAppend(n'.area, n.tx, Desc(f, |frame|));
  }

  lemma StepKeepsNic(n: Nic, s: Step)
    requires Inv(n) && Enabled(n, s)
    ensures Inv(Next(n, s))
  {
    hide Inv, Next, Enabled;
    match s {
      case KernelFill => KernelFillKeeps(n);
      case KernelArrive(i, offset, frame) => KernelArriveKeeps(n, i, offset, frame);
      case KernelTake => KernelTakeKeeps(n);
      case KernelSend(i, offset) => KernelSendKeeps(n, i, offset);
      case Read => ReadKeeps(n);
      case Refill => RefillKeeps(n);
      case Reclaim => ReclaimKeeps(n);
      case Submit(payload) => SubmitKeeps(n, payload);
    }
  }

  ghost predicate Runs(n: Nic, steps: seq<Step>)
    requires Inv(n)
    decreases |steps|
  {
    steps == [] ||
    (Enabled(n, steps[0]) && (StepKeepsNic(n, steps[0]); Runs(Next(n, steps[0]), steps[1..])))
  }

  ghost function After(n: Nic, steps: seq<Step>): (r: Nic)
    requires Inv(n) && Runs(n, steps)
    ensures Inv(r)
    decreases |steps|
  {
    if steps == [] then n else (StepKeepsNic(n, steps[0]); After(Next(n, steps[0]), steps[1..]))
  }

  /** `s` is a step `n` can take, and takes it to `m`. */
  ghost predicate Steps(n: Nic, s: Step, m: Nic) {
    Inv(n) && Enabled(n, s) && m == Next(n, s)
  }

  /** `setup`: the FILL ring primed with the first half, the pool with the second. */
  function Start(area: Bytes, hdr: Bytes): Nic {
    Nic(area, hdr, Frames(0, RX_FRAMES), [], [], [], Frames(RX_FRAMES, TX_FRAMES), [], [], [], [], [], [], [], [])
  }

  lemma StartIsInv(area: Bytes, hdr: Bytes)
    requires |area| == AREA_LEN && |hdr| == ETH_HDR
    ensures Inv(Start(area, hdr))
  {
    hide Frames;
  }

  lemma FrameListed(first: nat, count: nat, f: nat)
    requires f == Base(f) && first * FRAME_SIZE <= f < (first + count) * FRAME_SIZE
    ensures multiset(Frames(first, count))[f] == 1
  {
    var i := f / FRAME_SIZE - first;
    assert Frames(first, count)[i] == f;
    assert f in multiset(Frames(first, count));
    FrameOnce(first, count, f);
  }

  /**
   * In every interleaving of the io thread and the kernel, each frame has exactly
   * one owner: the first half on the receiving side, the second on the sending side.
   */
  lemma EachFrameHasOneOwner(area: Bytes, hdr: Bytes, steps: seq<Step>, f: nat)
    requires |area| == AREA_LEN && |hdr| == ETH_HDR && f == Base(f) && f < AREA_LEN
    requires (StartIsInv(area, hdr); Runs(Start(area, hdr), steps))
    ensures (StartIsInv(area, hdr);
             var n := After(Start(area, hdr), steps);
             && RxSide(n)[f] == (if f < RX_FRAMES * FRAME_SIZE then 1 else 0)
             && TxSide(n)[f] == (if f < RX_FRAMES * FRAME_SIZE then 0 else 1))
  {
    hide RxSide, TxSide, Runs, After, Shaped, Reads, Sends, Start, Frames;
    StartIsInv(area, hdr);
    var n := After(Start(area, hdr), steps);
    if f < RX_FRAMES * FRAME_SIZE {
      FrameListed(0, RX_FRAMES, f);
      HeldFrame(n, f);
    } else {
      FrameListed(RX_FRAMES, TX_FRAMES, f);
      FreeFrame(n, f);
    }
  }

  /** A ring the io thread inserts into always has a slot, so nothing it inserts is lost. */
  lemma InsertsHaveSlots(n: Nic)
    requires Inv(n)
    ensures n.recycle != [] ==> |n.fill| < RX_FRAMES
    ensures n.freeTx != [] ==> |n.tx| < TX_FRAMES
  {
    Counts(n);
  }

  /** What the kernel sends was submitted, and goes out no more often than that;
      with the rings empty, all of it has gone out. */
  lemma SentIntact(n: Nic)
    requires Inv(n)
    ensures multiset(n.wire) <= multiset(n.submitted)
    ensures n.tx == [] && n.kernelTx == [] ==> multiset(n.wire) == multiset(n.submitted)
  {
    hide Shaped, Owned, Reads;
  }

  // ------------------------------------------------------------------------ the io thread

  function Masked(addr: nat): nat {
    And(addr, FRAME_MASK)
  }

  /** The frames submitted for `payloads`: those that fit one, with the header. */
  function Framed(hdr: Bytes, payloads: seq<Bytes>): seq<Bytes> {
    if payloads == [] then []
    else
      var last := payloads[|payloads| - 1];
      Framed(hdr, payloads[..|payloads| - 1]) + (if ETH_HDR + |last| > FRAME_SIZE then [] else [hdr + last])
  }

  class IoState {
    const area: array<Byte>
    const hdr: Bytes
    var fill: seq<nat>
    var rx: seq<Desc>
    var tx: seq<Desc>
    var completion: seq<nat>
    var freeTx: seq<nat>
    var recycle: seq<nat>
    /** The channel of payloads to send, and what was passed to the other one. */
    var queue: seq<Bytes>
    var offered: seq<Bytes>
    /** The kernel's side. */
    var kernelRx: seq<nat>
    var kernelTx: seq<Desc>
    var arrived: seq<Bytes>
    var wire: seq<Bytes>
    ghost var read: seq<Bytes>
    ghost var submitted: seq<Bytes>

    ghost function View(): Nic
      reads this, area
    {
      Nic(area[..], hdr, fill, kernelRx, rx, recycle, freeTx, tx, kernelTx, completion,
          arrived, read, offered, submitted, wire)
    }

    ghost predicate Valid()
      reads this, area
    {
      area.Length == AREA_LEN && Inv(View())
    }

    constructor (peer: Bytes, source: Bytes)
      requires |peer| == 6 && |source| == 6
      ensures Valid() && fresh(area)
      ensures View() == Start(area[..], peer + source + ETHERTYPE) && queue == []
    {
      area := new Byte[AREA_LEN](_ => 0);
      hdr := peer + source + ETHERTYPE;
      fill, freeTx := Frames(0, RX_FRAMES), Frames(RX_FRAMES, TX_FRAMES);
      rx, tx, completion, recycle, queue, offered := [], [], [], [], [], [];
      kernelRx, kernelTx, arrived, wire := [], [], [], [];
      read, submitted := [], [];
      new;
      StartIsInv(area[..], hdr);
    }

    // The kernel's four moves, each of which it can make whenever its ring allows.

    method KernelFills()
      requires Valid() && fill != []
      modifies this`fill, this`kernelRx
      ensures Valid() && Steps(old(View()), KernelFill, View())
      ensures old(rx) <= rx && old(completion) <= completion && old(arrived) <= arrived
    {
      hide Inv, Written, Next, Without, Content, Base;
      StepKeepsNic(View(), KernelFill);
      KernelEffect(View(), KernelFill);
      ghost var n := Next(View(), KernelFill);
      fill, kernelRx := fill[1..], kernelRx + [fill[0]];
      assert View() == n;
    }

    method KernelArrives(i: nat, offset: nat, frame: Bytes)
      requires Valid() && i < |kernelRx| && |rx| < RX_FRAMES && offset < FRAME_SIZE && offset + |frame| <= FRAME_SIZE
      modifies this`kernelRx, this`rx, this`arrived, area
      ensures Valid() && Steps(old(View()), KernelArrive(i, offset, frame), View())
      ensures old(rx) <= rx && old(completion) <= completion && old(arrived) <= arrived
    {
      hide Inv, Written, Next, Without, Content, Base;
      StepKeepsNic(View(), KernelArrive(i, offset, frame));
      KernelEffect(View(), KernelArrive(i, offset, frame));
      ghost var n := Next(View(), KernelArrive(i, offset, frame));
      var at := kernelRx[i] + offset;
      Copy(at, frame);
      kernelRx, rx, arrived := Without(kernelRx, i), rx + [Desc(at, |frame|)], arrived + [frame];
      assert View() == n;
    }

    method KernelTakes()
      requires Valid() && tx != []
      modifies this`tx, this`kernelTx
      ensures Valid() && Steps(old(View()), KernelTake, View())
      ensures old(rx) <= rx && old(completion) <= completion && old(arrived) <= arrived
    {
      hide Inv, Written, Next, Without, Content, Base;
      StepKeepsNic(View(), KernelTake);
      KernelEffect(View(), KernelTake);
      ghost var n := Next(View(), KernelTake);
      tx, kernelTx := tx[1..], kernelTx + [tx[0]];
      assert View() == n;
    }

    method KernelSends(i: nat, offset: nat)
      requires Valid() && i < |kernelTx| && |completion| < TX_FRAMES && offset < FRAME_SIZE
      modifies this`kernelTx, this`completion, this`wire
      ensures Valid() && Steps(old(View()), KernelSend(i, offset), View())
      ensures old(rx) <= rx && old(completion) <= completion && old(arrived) <= arrived
    {
      hide Inv, Written, Next, Without, Content, Base;
      StepKeepsNic(View(), KernelSend(i, offset));
      KernelEffect(View(), KernelSend(i, offset));
      ghost var n := Next(View(), KernelSend(i, offset));
      wire := wire + [Content(area[..], kernelTx[i])];
      kernelTx, completion := Without(kernelTx, i), completion + [Base(kernelTx[i].addr) + offset];
      assert View() == n;
    }

    /** One move of the kernel, if it can make it. */
    method KernelMove(s: Step)
      requires Valid()
      modifies this`fill, this`kernelRx, this`rx, this`arrived, this`tx, this`kernelTx, this`completion, this`wire, area
      ensures Valid()
      ensures old(rx) <= rx && old(completion) <= completion && old(arrived) <= arrived
    {
      hide Inv, Next;
      if {
        case s.KernelFill? && fill != [] => KernelFills();
        case s.KernelArrive? && s.i < |kernelRx| && |rx| < RX_FRAMES && s.offset < FRAME_SIZE
             && s.offset + |s.frame| <= FRAME_SIZE =>
          KernelArrives(s.i, s.offset, s.frame);
        case s.KernelTake? && tx != [] => KernelTakes();
        case s.KernelSend? && s.i < |kernelTx| && |completion| < TX_FRAMES && s.offset < FRAME_SIZE =>
          KernelSends(s.i, s.offset);
        case true =>
      }
    }

    /** Any number of kernel moves, at any point of the io thread. */
    method Kernel()
      requires Valid()
      modifies this`fill, this`kernelRx, this`rx, this`arrived, this`tx, this`kernelTx, this`completion, this`wire, area
      ensures Valid()
      ensures old(rx) <= rx && old(completion) <= completion && old(arrived) <= arrived
    {
      var moves: seq<Step> := *;
      for k := 0 to |moves|
        invariant Valid()
        invariant old(rx) <= rx && old(completion) <= completion && old(arrived) <= arrived
      {
        KernelMove(moves[k]);
      }
    }

    method Copy(at: nat, data: Bytes)
      requires at + |data| <= area.Length
      modifies area
      ensures area[..] == Written(old(area[..]), at, data)
    {
      forall i | 0 <= i < |data| {
        area[at + i] := data[i];
      }
    }

    /** One descriptor of the RX ring: filter, strip the header, pass on, recycle. */
    method ReadDescriptor()
      requires Valid() && rx != []
      modifies this`rx, this`offered, this`recycle, this`read
      ensures Valid() && Steps(old(View()), Read, View())
    {
      hide Inv;
      StepKeepsNic(View(), Read);
      ghost var n := Next(View(), Read);
      var desc := rx[0];
      ReadInFrame(View());
      rx := rx[1..];
      if desc.len > ETH_HDR {
        var frame := area[desc.addr..desc.addr + desc.len];
        if frame[12..14] == ETHERTYPE {
          offered := offered + [frame[ETH_HDR..]];
        }
      }
      MaskIsBase(desc.addr);
      recycle := recycle + [Masked(desc.addr)];
      read := read + [Content(area[..], desc)];
      assert area[..][desc.addr..desc.addr + desc.len] == area[desc.addr..desc.addr + desc.len];
      assert View() == n;
    }

    /** One recycled frame into the FILL ring. */
    method RefillOne()
      requires Valid() && recycle != []
      modifies this`fill, this`recycle
      ensures Valid() && Steps(old(View()), Refill, View())
    {
      hide Inv;
      StepKeepsNic(View(), Refill);
      fill, recycle := Inserted(fill, recycle[0], RX_FRAMES), recycle[1..];
    }

    /** Everything available is read, in order. */
    method ReadAll() returns (avail: nat)
      requires Valid() && recycle == []
      modifies this, area
      ensures Valid() && |recycle| == avail
      ensures avail >= |old(rx)| && |read| == |old(read)| + avail && old(read) <= read
      ensures old(completion) <= completion && old(arrived) <= arrived
      ensures freeTx == old(freeTx) && submitted == old(submitted) && queue == old(queue)
    {
      hide Inv, Next, NdnPayloads;
      Kernel();
      avail := |rx|;
      for k := 0 to avail
        invariant Valid() && |rx| >= avail - k && |recycle| == k
        invariant |read| == |old(read)| + k && old(read) <= read
        invariant freeTx == old(freeTx) && submitted == old(submitted) && queue == old(queue)
        invariant old(completion) <= completion && old(arrived) <= arrived
      {
        ghost var n := View();
        ReadDescriptor();
        ReadEffect(n);
        Kernel();
      }
    }

    /** Every frame read goes back to the FILL ring. */
    method RefillAll()
      requires Valid()
      modifies this, area
      ensures Valid() && recycle == []
      ensures read == old(read) && old(completion) <= completion && old(arrived) <= arrived
      ensures freeTx == old(freeTx) && submitted == old(submitted) && queue == old(queue)
    {
      hide Inv, Next, NdnPayloads;
      while recycle != []
        invariant Valid()
        invariant read == old(read) && old(completion) <= completion && old(arrived) <= arrived
        invariant freeTx == old(freeTx) && submitted == old(submitted) && queue == old(queue)
        decreases |recycle|
      {
        ghost var n := View();
        RefillOne();
        RefillEffect(n);
        Kernel();
      }
    }

    /** The receiving half of one turn of `run`. */
    method Receive() returns (avail: nat)
      requires Valid() && recycle == []
      modifies this, area
      ensures Valid() && recycle == []
      ensures avail >= |old(rx)| && |read| == |old(read)| + avail && old(read) <= read
      ensures offered == old(offered) + NdnPayloads(read[|old(read)|..])
      ensures old(arrived) <= read && old(completion) <= completion
      ensures freeTx == old(freeTx) && submitted == old(submitted) && queue == old(queue)
    {
      hide Inv, Next, NdnPayloads;
      OfferedIs(View());
      ReadIsOfArrived(View());
      avail := ReadAll();
      RefillAll();
      OfferedIs(View());
      ReadIsOfArrived(View());
      assert read == old(read) + read[|old(read)|..];
      PayloadsAppend(old(read), read[|old(read)|..]);
    }

    /** Reclaim completed TX frames from the COMPLETION ring into the pool: those it
        held on entry, in ring order, and then any the kernel added meanwhile. */
    method ReclaimTx()
      requires Valid()
      modifies this, area
      ensures Valid()
      ensures old(freeTx) + Map(Base, old(completion)) <= freeTx
      ensures recycle == old(recycle) && submitted == old(submitted) && queue == old(queue) && read == old(read)
    {
      hide Inv, Next, Map, Base;
      Kernel();
      var avail := |completion|;
      ghost var taken := completion;
      MapPrefix(Base, old(completion), taken);
      assert freeTx + Map(Base, taken[..0]) == freeTx by { MapNothing(Base); }
      for k := 0 to avail
        invariant Valid() && |completion| >= avail - k && taken[k..] <= completion
        invariant freeTx == old(freeTx) + Map(Base, taken[..k])
        invariant recycle == old(recycle) && submitted == old(submitted) && queue == old(queue) && read == old(read)
      {
        ghost var n := View();
        assert completion[0] == taken[k..][0] == taken[k];
        StepKeepsNic(n, Reclaim);
        ReclaimEffect(n);
        MaskIsBase(completion[0]);
        freeTx, completion := freeTx + [Masked(completion[0])], completion[1..];
        assert View() == Next(n, Reclaim);
        MapAppend(Base, taken[..k], taken[k]);
        assert taken[..k] + [taken[k]] == taken[..k + 1];
        Assoc(old(freeTx), Map(Base, taken[..k]), [Base(taken[k])]);
        assert taken[k + 1..] == taken[k..][1..] <= completion;
        Kernel();
      }
      assert taken[..avail] == taken;
      PrefixOfSum(old(freeTx), Map(Base, old(completion)), Map(Base, taken));
    }

    /** Put one payload that fits into the frame `base`, just popped off the pool. */
    method Transmit(payload: Bytes)
      requires Valid() && freeTx != [] && ETH_HDR + |payload| <= FRAME_SIZE
      modifies this`freeTx, this`tx, this`submitted, area
      ensures Valid() && Steps(old(View()), Submit(payload), View())
    {
      hide Inv, Written, Next, Inserted;
      ghost var n := View();
      StepKeepsNic(n, Submit(payload));
      SubmitEffect(n, payload);
      PoolFrame(n);
      var base := freeTx[|freeTx| - 1];
      freeTx := freeTx[..|freeTx| - 1];
      ghost var before := area[..];
      Copy(base, hdr);
      Copy(base + ETH_HDR, payload);
      WrittenTwice(before, base, hdr, payload);
      tx := Inserted(tx, Desc(base, ETH_HDR + |payload|), TX_FRAMES);
      submitted := submitted + [hdr + payload];
      assert View() == Next(n, Submit(payload));
    }

    /**
     * Transmit the queued payloads in order. Each one that fits a frame is
     * submitted, each oversized one skipped; when no frame is free the payload
     * at hand is lost and the rest stays queued. All that can go out does exactly
     * when there is a frame for each; nothing is discarded for want of one exactly
     * when the payloads before the last one leave a frame over.
     */
    method DrainTx() returns (sent: bool, lost: seq<Bytes>)
      requires Valid()
      modifies this, area
      ensures Valid()
      ensures var (frames, dropped, left) := Drain(hdr, |old(freeTx)|, old(queue));
              && submitted == old(submitted) + frames && lost == dropped && queue == left
              && freeTx == old(freeTx)[..|old(freeTx)| - |frames|]
              && (sent <==> frames != [])
      ensures submitted == old(submitted) + Framed(hdr, old(queue)) <==> |Framed(hdr, old(queue))| <= |old(freeTx)|
      ensures lost == [] <==> Roomy(hdr, old(queue), |old(freeTx)|)
      ensures Drained(hdr, old(queue), old(submitted), submitted, lost, queue)
      ensures recycle == old(recycle) && read == old(read) && old(completion) <= completion
    {
      hide Inv, Next, Framed, Written, Inserted, Drained, Roomy, Drain;
      sent, lost := false, [];
      DrainSendsAllIff(hdr, |freeTx|, queue, submitted);
      DrainAccounts(hdr, |freeTx|, queue, submitted);
      DrainLosesNothingIff(hdr, |freeTx|, queue);
      ghost var frames: seq<Bytes> := [];
      ghost var all := Drain(hdr, |freeTx|, queue);
      assert [] + all.0 == all.0;
      while queue != []
        invariant Valid() && |frames| <= |old(freeTx)|
        invariant submitted == old(submitted) + frames && freeTx == old(freeTx)[..|old(freeTx)| - |frames|]
        invariant sent <==> frames != []
        invariant var (more, dropped, left) := Drain(hdr, |freeTx|, queue);
                  all == (frames + more, dropped, left)
        invariant recycle == old(recycle) && read == old(read) && old(completion) <= completion
        decreases |queue|
      {
        var pkt := queue[0];
        DrainUnfold(hdr, |freeTx|, queue);
        if freeTx == [] {
          queue := queue[1..];
          lost := [pkt];
          assert frames + [] == frames;
          return;
        }
        queue := queue[1..];
        if ETH_HDR + |pkt| <= FRAME_SIZE {
          ghost var n := View();
          Transmit(pkt);
          SubmitEffect(n, pkt);
          sent := true;
          ghost var more := Drain(hdr, |freeTx|, queue).0;
          Assoc(frames, [hdr + pkt], more);
          Assoc(old(submitted), frames, [hdr + pkt]);
          frames := frames + [hdr + pkt];
        }
        Kernel();
      }
      DrainNothing(hdr, |freeTx|);
      assert frames + [] == frames;
    }

    /** What `run` does once told to stop: transmit what is still queued, then reclaim.
        All of it that fits a frame goes out exactly when the pool then has a frame for
        each. */
    method Flush() returns (lost: seq<Bytes>)
      requires Valid()
      modifies this, area
      ensures Valid()
      ensures submitted == old(submitted) + Framed(hdr, old(queue)) <==> |Framed(hdr, old(queue))| <= |old(freeTx)|
      ensures |lost| <= 1 && (lost == [] <==> Roomy(hdr, old(queue), |old(freeTx)|))
      ensures lost == [] ==> queue == [] && submitted == old(submitted) + Framed(hdr, old(queue))
      ensures Drained(hdr, old(queue), old(submitted), submitted, lost, queue)
      ensures recycle == old(recycle) && read == old(read)
      ensures |freeTx| + |submitted| >= |old(freeTx)| + |old(submitted)| + |old(completion)|
    {
      hide Inv, Framed, Roomy, Drain, Base;
      var _, dropped := DrainTx();
      DrainedWhole(hdr, old(queue), old(submitted), submitted, dropped, queue);
      lost := dropped;
      MapSize(Base, completion);
      ReclaimTx();
    }

    /** One turn of `run`: what has come to the queue by its drain is `batch`. All that
        arrived before the turn is read in it, and all frames sent by then are reclaimed. */
    method Turn(batch: seq<Bytes>) returns (lost: seq<Bytes>)
      requires Valid() && recycle == []
      modifies this, area
      ensures Valid() && recycle == [] && old(read) <= read
      ensures Drained(hdr, old(queue) + batch, old(submitted), submitted, lost, queue)
      ensures Roomy(hdr, old(queue) + batch, |old(freeTx)|) ==> lost == []
      ensures |Framed(hdr, old(queue) + batch)| <= |old(freeTx)| ==>
                submitted == old(submitted) + Framed(hdr, old(queue) + batch)
      ensures |freeTx| + |submitted| >= |old(freeTx)| + |old(submitted)| + |old(completion)|
      ensures old(arrived) <= read
    {
      hide Inv, Framed, Drained, Base;
      queue := queue + batch;
      var _ := Receive();
      MapSize(Base, completion);
      ReclaimTx();
      var _, dropped := DrainTx();
      lost := dropped;
    }

    /**
     * The io thread: one turn for each batch that `arrivals` brings to the queue
     * before it is told to stop, then the flush. Whatever the kernel does
     * meanwhile, every payload that fits a frame ends up submitted, lost (at most
     * one a drain) or still queued, and none twice. With a frame in the pool for each
     * of them all are submitted, in order, however late the kernel completes; with
     * one more than those before the last payload need, nothing is discarded.
     */
    method Run(arrivals: seq<seq<Bytes>>) returns (lost: seq<Bytes>)
      requires Valid() && recycle == []
      modifies this, area
      ensures Valid() && recycle == []
      ensures |lost| <= |arrivals| + 1 && old(read) <= read
      ensures arrivals != [] ==> old(arrived) <= read
      ensures multiset(submitted) + multiset(Framed(hdr, lost)) + multiset(Framed(hdr, queue))
              == multiset(old(submitted)) + multiset(Framed(hdr, old(queue) + Joined(arrivals)))
      ensures |Framed(hdr, old(queue) + Joined(arrivals))| <= |old(freeTx)| ==>
                submitted == old(submitted) + Framed(hdr, old(queue) + Joined(arrivals))
      ensures Roomy(hdr, old(queue) + Joined(arrivals), |old(freeTx)|) ==> lost == [] && queue == []
    {
      hide Inv, Framed, Drained, Roomy, Joined;
      lost := [];
      ghost var all := old(queue) + Joined(arrivals);
      ghost var roomy, fits := Roomy(hdr, all, |freeTx|), |Framed(hdr, all)| <= |freeTx|;
      ghost var done: seq<Bytes> := [];
      NothingFramed(hdr);
      JoinedNothing();
      assert old(queue) + [] == old(queue) && [] + queue == queue && arrivals[..0] == [];
      for k := 0 to |arrivals|
        invariant Valid() && recycle == []
        invariant |lost| <= k && old(read) <= read
        invariant if k == 0 then arrived == old(arrived) else old(arrived) <= read
        invariant Conserved(View(), queue, lost, old(submitted), old(queue) + Joined(arrivals[..k]))
        invariant |freeTx| + |submitted| >= |old(freeTx)| + |old(submitted)|
        invariant roomy ==> && lost == [] && |submitted| == |old(submitted)| + |Framed(hdr, done)|
                            && done + queue == old(queue) + Joined(arrivals[..k])
        invariant fits ==> InOrder(hdr, old(submitted), submitted, old(queue) + Joined(arrivals[..k]), queue)
      {
        ghost var q, l, sofar, free := queue, lost, submitted, |freeTx|;
        ArrivalsConserve(View(), q, l, old(submitted), old(queue), arrivals, k);
        JoinedMore(arrivals, k);
        Assoc(done, q, arrivals[k]);
        Assoc(old(queue), Joined(arrivals[..k]), arrivals[k]);
        if roomy {
          KeepsRoom(hdr, all, done, q + arrivals[k], |old(freeTx)|, free);
        }
        var dropped := Turn(arrivals[k]);
        lost := lost + dropped;
        DrainConserves(View(), q + arrivals[k], queue, l, dropped, sofar, old(submitted),
                       old(queue) + Joined(arrivals[..k + 1]));
        DrainedWhole(hdr, q + arrivals[k], sofar, submitted, dropped, queue);
        if fits {
          TurnSendsAll(hdr, all, old(submitted), sofar, submitted, old(queue) + Joined(arrivals[..k]), q, arrivals[k],
                       dropped, queue, |old(freeTx)|, free);
        }
        FramedAppend(hdr, done, q + arrivals[k]);
        done := done + (q + arrivals[k]);
        assert done + [] == done;
      }
      assert arrivals[..|arrivals|] == arrivals;
      ghost var q, l, sofar := queue, lost, submitted;
      if roomy {
        assert done + queue <= all;
        KeepsRoom(hdr, all, done, q, |old(freeTx)|, |freeTx|);
      }
      ghost var free := |freeTx|;
      var dropped := Flush();
      lost := lost + dropped;
      DrainConserves(View(), q, queue, l, dropped, sofar, old(submitted), all);
      if fits {
        assert q + [] == q && all + [] == all;
        TurnSendsAll(hdr, all, old(submitted), sofar, submitted, all, q, [], dropped, queue, |old(freeTx)|, free);
      }
    }
  }

  /** What is read is the front of what arrived, and the ring holds the rest. */
  lemma ReadIsOfArrived(n: Nic)
    requires Inv(n)
    ensures n.read <= n.arrived && |n.read| + |n.rx| == |n.arrived|
  {
    hide NdnPayloads, Shaped, Owned, Sends, Content;
  }

  lemma OfferedIs(n: Nic)
    requires Inv(n)
    ensures n.offered == NdnPayloads(n.read)
    ensures n.read <= n.arrived && (n.rx == [] ==> n.read == n.arrived)
  {
    hide NdnPayloads, Shaped, Owned, Sends;
    assert n.rx == [] ==> Contents(n.area, n.rx) == [];
  }

  // ---------------------------------------------------------------- from face to face

  /** The payloads that fit a frame and are not empty, which no frame is passed on for. */
  function Carried(payloads: seq<Bytes>): seq<Bytes> {
    if payloads == [] then []
    else
      var last := payloads[|payloads| - 1];
      Carried(payloads[..|payloads| - 1]) + (if 0 < |last| <= 4082 then [last] else [])
  }

  /** The frames for payloads carry exactly those, in order, whoever reads them. */
  lemma {:induction false} FramesCarry(dst: Bytes, src: Bytes, payloads: seq<Bytes>)
    requires |dst| == 6 && |src| == 6
    ensures NdnPayloads(Framed(dst + src + [0x86, 0x24], payloads)) == Carried(payloads)
    decreases |payloads|
  {
    hide NdnPayloads;
    var hdr := dst + src + [0x86, 0x24];
    if payloads == [] {
      NoPayloads();
    } else {
      var n := |payloads| - 1;
      var last := payloads[n];
      FramesCarry(dst, src, payloads[..n]);
      EthertypeDecides(dst, src, [0x86, 0x24], last);
      var before := Framed(hdr, payloads[..n]);
      PayloadsAppend(before, [hdr + last]);
      if |last| <= 4082 {
        assert Framed(hdr, payloads) == before + [hdr + last];
      } else {
        assert Framed(hdr, payloads) == before + [] == before;
      }
      assert Carried(payloads[..n]) + [] == Carried(payloads[..n]);
    }
  }

  /**
   * What one face is given to send, another offers. In any two states their runs reach,
   * if all that arrived at the second is from the first one's wire, it offers nothing but
   * payloads the first one submitted, none more often; and if it all arrived in order and
   * was read, exactly these in order.
   */
  lemma FaceToFace(a: Nic, b: Nic, dst: Bytes, src: Bytes, payloads: seq<Bytes>)
    requires Inv(a) && Inv(b) && |dst| == 6 && |src| == 6
    requires a.hdr == dst + src + [0x86, 0x24] && a.submitted == Framed(a.hdr, payloads)
    requires multiset(b.arrived) <= multiset(a.wire)
    ensures multiset(b.offered) <= multiset(Carried(payloads))
    ensures b.arrived == a.submitted && b.rx == [] ==> b.offered == Carried(payloads)
  {
    hide Framed, NdnPayloads, Carried, Inv;
    SentIntact(a);
    OfferedIs(b);
    FramesCarry(dst, src, payloads);
    assert multiset(b.read) <= multiset(b.arrived) by {
      assert b.arrived == b.read + b.arrived[|b.read|..];
    }
    FewerFrames(b.read, a.submitted);
  }

  /** What a drain with `free` frames does to a queue: the frames submitted, the
      payload lost, if any, and what stays queued. */
  function Drain(hdr: Bytes, free: nat, queue: seq<Bytes>): (r: (seq<Bytes>, seq<Bytes>, seq<Bytes>))
    ensures |r.0| <= free && |r.1| <= 1
    decreases |queue|
  {
    if queue == [] then ([], [], [])
    else if free == 0 then ([], [queue[0]], queue[1..])
    else if ETH_HDR + |queue[0]| > FRAME_SIZE then Drain(hdr, free, queue[1..])
    else
      var (frames, lost, left) := Drain(hdr, free - 1, queue[1..]);
      ([hdr + queue[0]] + frames, lost, left)
  }

  lemma DrainNothing(hdr: Bytes, free: nat)
    ensures Drain(hdr, free, []) == ([], [], [])
  {
  }

  lemma DrainUnfold(hdr: Bytes, free: nat, queue: seq<Bytes>)
    requires queue != []
    ensures free == 0 ==> Drain(hdr, free, queue) == ([], [queue[0]], queue[1..])
    ensures free > 0 && ETH_HDR + |queue[0]| > FRAME_SIZE ==> Drain(hdr, free, queue) == Drain(hdr, free, queue[1..])
    ensures free > 0 && ETH_HDR + |queue[0]| <= FRAME_SIZE ==>
              var (frames, lost, left) := Drain(hdr, free - 1, queue[1..]);
              Drain(hdr, free, queue) == ([hdr + queue[0]] + frames, lost, left)
  {
  }

  /** The frames for all but the last of `queue` leave one of `free` frames over. */
  ghost predicate Roomy(hdr: Bytes, queue: seq<Bytes>, free: nat) {
    queue == [] || |Framed(hdr, queue[..|queue| - 1])| < free
  }

  /** The front of `queue` was submitted, at most the next payload lost, the rest left. */
  ghost predicate Drained(hdr: Bytes, queue: seq<Bytes>, before: seq<Bytes>, after: seq<Bytes>,
                          lost: seq<Bytes>, left: seq<Bytes>) {
    && |lost| <= 1 && (lost == [] ==> left == [])
    && exists done :: 0 <= done <= |queue| && queue[done..] == lost + left
                      && after == before + Framed(hdr, queue[..done])
  }

  lemma FramedOne(hdr: Bytes, payload: Bytes)
    ensures Framed(hdr, [payload]) == if ETH_HDR + |payload| > FRAME_SIZE then [] else [hdr + payload]
  {
    assert [payload][..0] == [];
  }

  lemma {:induction false} DrainDone(hdr: Bytes, free: nat, queue: seq<Bytes>) returns (done: nat)
    ensures var (frames, lost, left) := Drain(hdr, free, queue);
            && (lost == [] ==> left == []) && (lost != [] ==> |frames| == free)
            && done <= |queue| && queue[done..] == lost + left && frames == Framed(hdr, queue[..done])
    decreases |queue|
  {
    hide Framed, Drain;
    NothingFramed(hdr);
    if queue == [] {
      done := 0;
      DrainNothing(hdr, free);
    } else if free == 0 {
      done := 0;
      DrainUnfold(hdr, free, queue);
      assert queue[..0] == [] && queue[0..] == [queue[0]] + queue[1..];
    } else {
      var fits := ETH_HDR + |queue[0]| <= FRAME_SIZE;
      DrainUnfold(hdr, free, queue);
      var d := DrainDone(hdr, if fits then free - 1 else free, queue[1..]);
      done := d + 1;
      FramedCons(hdr, queue, d);
      assert queue[done..] == queue[1..][d..];
    }
  }

  lemma FramedCons(hdr: Bytes, queue: seq<Bytes>, d: nat)
    requires queue != [] && d <= |queue[1..]|
    ensures Framed(hdr, queue[..d + 1]) ==
            (if ETH_HDR + |queue[0]| <= FRAME_SIZE then [hdr + queue[0]] else []) + Framed(hdr, queue[1..][..d])
  {
    hide Framed;
    assert queue[..d + 1] == [queue[0]] + queue[1..][..d];
    FramedAppend(hdr, [queue[0]], queue[1..][..d]);
    FramedOne(hdr, queue[0]);
  }

  lemma DrainAccounts(hdr: Bytes, free: nat, queue: seq<Bytes>, before: seq<Bytes>)
    ensures var (frames, lost, left) := Drain(hdr, free, queue);
            Drained(hdr, queue, before, before + frames, lost, left)
  {
    hide Framed, Drain;
    var _ := DrainDone(hdr, free, queue);
  }

  lemma DrainedWhole(hdr: Bytes, queue: seq<Bytes>, before: seq<Bytes>, after: seq<Bytes>, lost: seq<Bytes>,
                     left: seq<Bytes>)
    requires Drained(hdr, queue, before, after, lost, left)
    ensures |lost| <= 1
    ensures lost == [] ==> left == [] && after == before + Framed(hdr, queue)
  {
    hide Framed;
    var done :| 0 <= done <= |queue| && queue[done..] == lost + left && after == before + Framed(hdr, queue[..done]);
    if lost == [] {
      assert |queue[done..]| == 0;
      assert queue[..done] == queue;
    }
  }

  /** A drain loses a payload exactly when those before the last one use up the pool. */
  lemma {:induction false} DrainLosesNothingIff(hdr: Bytes, free: nat, queue: seq<Bytes>)
    ensures Drain(hdr, free, queue).1 == [] <==> Roomy(hdr, queue, free)
    decreases |queue|
  {
    hide Framed;
    NothingFramed(hdr);
    if queue != [] && free > 0 {
      var rest, fits := queue[1..], ETH_HDR + |queue[0]| <= FRAME_SIZE;
      DrainLosesNothingIff(hdr, if fits then free - 1 else free, rest);
      if rest == [] {
        assert queue[..|queue| - 1] == [];
      } else {
        assert queue[..|queue| - 1] == [queue[0]] + rest[..|rest| - 1];
        FramedAppend(hdr, [queue[0]], rest[..|rest| - 1]);
        FramedOne(hdr, queue[0]);
      }
    }
  }

  /** A drain sends all that fits a frame exactly when it has a frame for each. */
  lemma DrainSendsAllIff(hdr: Bytes, free: nat, queue: seq<Bytes>, before: seq<Bytes>)
    ensures var frames := Drain(hdr, free, queue).0;
            && (frames == Framed(hdr, queue) <==> |Framed(hdr, queue)| <= free)
            && (before + frames == before + Framed(hdr, queue) <==> |Framed(hdr, queue)| <= free)
  {
    hide Framed, Drain;
    var done := DrainDone(hdr, free, queue);
    var frames := Drain(hdr, free, queue).0;
    FramedAppend(hdr, queue[..done], queue[done..]);
    assert queue == queue[..done] + queue[done..];
    assert |Framed(hdr, queue)| <= free ==> frames == Framed(hdr, queue) by {
      NothingFramed(hdr);
      assert frames + [] == frames;
    }
    assert (before + frames)[|before|..] == frames;
    assert (before + Framed(hdr, queue))[|before|..] == Framed(hdr, queue);
  }

  /** Of `all` nothing that fits a frame was lost since `before`: it was submitted in
      order, and the rest of it is queued. */
  ghost predicate InOrder(hdr: Bytes, before: seq<Bytes>, after: seq<Bytes>, all: seq<Bytes>, queue: seq<Bytes>) {
    after + Framed(hdr, queue) == before + Framed(hdr, all)
  }

  /** What more arrives then has the frames it needs. */
  lemma ArrivalsFit(hdr: Bytes, all: seq<Bytes>, before: seq<Bytes>, after: seq<Bytes>, sofar: seq<Bytes>,
                    queue: seq<Bytes>, batch: seq<Bytes>, free: nat, now: nat)
    requires InOrder(hdr, before, after, sofar, queue) && sofar + batch <= all && |Framed(hdr, all)| <= free
    requires now + |after| >= free + |before|
    ensures |Framed(hdr, queue + batch)| <= now
  {
    hide Framed;
    FramedAppend(hdr, queue, batch);
    FramedAppend(hdr, sofar, batch);
    assert all == sofar + batch + all[|sofar + batch|..];
    FramedAppend(hdr, sofar + batch, all[|sofar + batch|..]);
    assert |after| + |Framed(hdr, queue)| == |before| + |Framed(hdr, sofar)|;
  }

  lemma TurnSendsAll(hdr: Bytes, all: seq<Bytes>, before: seq<Bytes>, mid: seq<Bytes>, after: seq<Bytes>,
                     sofar: seq<Bytes>, queue: seq<Bytes>, batch: seq<Bytes>, lost: seq<Bytes>, left: seq<Bytes>,
                     free: nat, now: nat)
    requires InOrder(hdr, before, mid, sofar, queue) && sofar + batch <= all && |Framed(hdr, all)| <= free
    requires now + |mid| >= free + |before|
    requires |Framed(hdr, queue + batch)| <= now ==> after == mid + Framed(hdr, queue + batch)
    requires Drained(hdr, queue + batch, mid, after, lost, left)
    ensures InOrder(hdr, before, after, sofar + batch, left) && after == before + Framed(hdr, sofar + batch)
  {
    hide Framed;
    ArrivalsFit(hdr, all, before, mid, sofar, queue, batch, free, now);
    FramedAppend(hdr, queue, batch);
    FramedAppend(hdr, sofar, batch);
    Assoc(mid, Framed(hdr, queue), Framed(hdr, batch));
    Assoc(before, Framed(hdr, sofar), Framed(hdr, batch));
    NothingLeft(hdr, queue + batch, mid, after, lost, left);
    assert after + [] == after;
  }

  lemma NothingLeft(hdr: Bytes, queue: seq<Bytes>, before: seq<Bytes>, after: seq<Bytes>, lost: seq<Bytes>,
                    left: seq<Bytes>)
    requires Drained(hdr, queue, before, after, lost, left) && after == before + Framed(hdr, queue)
    ensures Framed(hdr, left) == []
  {
    hide Framed;
    var done :| 0 <= done <= |queue| && queue[done..] == lost + left && after == before + Framed(hdr, queue[..done]);
    assert queue == queue[..done] + (lost + left);
    FramedAppend(hdr, queue[..done], lost + left);
    FramedAppend(hdr, lost, left);
  }

  /** With the pool empty the first payload is lost and nothing is sent. */
  lemma EmptyPoolLosesOne(hdr: Bytes, payload: Bytes, rest: seq<Bytes>)
    ensures Drain(hdr, 0, [payload] + rest) == ([], [payload], rest)
    ensures !Roomy(hdr, [payload] + rest, 0)
  {
    assert ([payload] + rest)[1..] == rest;
  }

  /** From a full pool, one turn's queue of 2049 empty payloads loses its last. */
  lemma FullPoolLosesThe2049th(hdr: Bytes, queue: seq<Bytes>)
    requires |queue| == TX_FRAMES + 1 && forall k :: 0 <= k < |queue| ==> queue[k] == []
    ensures Drain(hdr, TX_FRAMES, queue).1 == [[]]
  {
    hide Framed, Drain;
    AllFit(hdr, queue[..TX_FRAMES]);
    DrainLosesNothingIff(hdr, TX_FRAMES, queue);
    var done := DrainDone(hdr, TX_FRAMES, queue);
    var lost := Drain(hdr, TX_FRAMES, queue).1;
    assert queue[done..][0] == lost[0];
    assert lost == [lost[0]];
  }

  lemma {:induction false} AllFit(hdr: Bytes, payloads: seq<Bytes>)
    requires forall k :: 0 <= k < |payloads| ==> ETH_HDR + |payloads[k]| <= FRAME_SIZE
    ensures |Framed(hdr, payloads)| == |payloads|
    decreases |payloads|
  {
    if payloads != [] {
      AllFit(hdr, payloads[..|payloads| - 1]);
    }
  }

  /** What is left of the pool has the room for what is left of the payloads. */
  lemma KeepsRoom(hdr: Bytes, all: seq<Bytes>, done: seq<Bytes>, queue: seq<Bytes>, free: nat, now: nat)
    requires Roomy(hdr, all, free) && done + queue <= all && now + |Framed(hdr, done)| >= free
    ensures Roomy(hdr, queue, now)
  {
    hide Framed;
    if queue != [] {
      var n := |done + queue| - 1;
      assert all[..n] == done + queue[..|queue| - 1];
      FramedAppend(hdr, done, queue[..|queue| - 1]);
      assert all[..|all| - 1] == all[..n] + all[n..|all| - 1];
      FramedAppend(hdr, all[..n], all[n..|all| - 1]);
    }
  }

  lemma JoinedNothing()
    ensures Joined([]) == []
  {
  }

  lemma {:induction false} JoinedMore(parts: seq<seq<Bytes>>, k: nat)
    requires k < |parts|
    ensures Joined(parts[..k + 1]) == Joined(parts[..k]) + parts[k]
    ensures Joined(parts[..k + 1]) <= Joined(parts)
    decreases |parts| - k
  {
    assert parts[..k + 1][..k] == parts[..k];
    if k + 1 < |parts| {
      JoinedMore(parts, k + 1);
    } else {
      assert parts[..k + 1] == parts;
    }
  }

  function Joined(parts: seq<seq<Bytes>>): seq<Bytes> {
    if parts == [] then [] else Joined(parts[..|parts| - 1]) + parts[|parts| - 1]
  }

  /** The payloads of `all` are submitted since `before`, lost, or queued. */
  ghost predicate Conserved(n: Nic, queue: seq<Bytes>, lost: seq<Bytes>, before: seq<Bytes>, all: seq<Bytes>) {
    multiset(n.submitted) + multiset(Framed(n.hdr, lost)) + multiset(Framed(n.hdr, queue))
    == multiset(before) + multiset(Framed(n.hdr, all))
  }

  lemma {:induction false} FramedAppend(hdr: Bytes, a: seq<Bytes>, b: seq<Bytes>)
    ensures Framed(hdr, a + b) == Framed(hdr, a) + Framed(hdr, b)
    decreases |b|
  {
    if b == [] {
      assert a + b == a;
    } else {
      var n := |b| - 1;
      assert (a + b)[..|a + b| - 1] == a + b[..n];
      FramedAppend(hdr, a, b[..n]);
    }
  }

  lemma MoreOnBothSides<T>(a: multiset<T>, b: multiset<T>, c: multiset<T>, d: multiset<T>, more: multiset<T>)
    requires a + b == c + d
    ensures a + (b + more) == c + (d + more)
  {
    assert a + (b + more) == (a + b) + more;
    assert c + (d + more) == (c + d) + more;
  }

  lemma ArrivalsConserve(n: Nic, q: seq<Bytes>, lost: seq<Bytes>, before: seq<Bytes>, first: seq<Bytes>,
                         arrivals: seq<seq<Bytes>>, k: nat)
    requires k < |arrivals| && Conserved(n, q, lost, before, first + Joined(arrivals[..k]))
    ensures Conserved(n, q + arrivals[k], lost, before, first + Joined(arrivals[..k + 1]))
  {
    hide Framed;
    assert arrivals[..k + 1][..k] == arrivals[..k];
    assert Joined(arrivals[..k + 1]) == Joined(arrivals[..k]) + arrivals[k];
    var all := first + Joined(arrivals[..k]);
    assert first + Joined(arrivals[..k + 1]) == all + arrivals[k];
    FramedAppend(n.hdr, q, arrivals[k]);
    FramedAppend(n.hdr, all, arrivals[k]);
    MoreOnBothSides(multiset(n.submitted) + multiset(Framed(n.hdr, lost)), multiset(Framed(n.hdr, q)),
                    multiset(before), multiset(Framed(n.hdr, all)), multiset(Framed(n.hdr, arrivals[k])));
  }

  lemma DrainConserves(n: Nic, full: seq<Bytes>, queue: seq<Bytes>, lost: seq<Bytes>, dropped: seq<Bytes>,
                       sofar: seq<Bytes>, before: seq<Bytes>, all: seq<Bytes>)
    requires Conserved(n.(submitted := sofar), full, lost, before, all)
    requires Drained(n.hdr, full, sofar, n.submitted, dropped, queue)
    ensures Conserved(n, queue, lost + dropped, before, all)
  {
    hide Framed;
    var done :| 0 <= done <= |full| && full[done..] == dropped + queue
      && n.submitted == sofar + Framed(n.hdr, full[..done]);
    assert full == full[..done] + (dropped + queue);
    FramedAppend(n.hdr, full[..done], dropped + queue);
    FramedAppend(n.hdr, dropped, queue);
    FramedAppend(n.hdr, lost, dropped);
  }

  lemma KernelEffect(n: Nic, s: Step)
    requires Inv(n) && Enabled(n, s)
    ensures s.KernelFill? ==> Next(n, s) == n.(fill := n.fill[1..], kernelRx := n.kernelRx + [n.fill[0]])
    ensures s.KernelArrive? ==>
              var at := n.kernelRx[s.i] + s.offset;
              && at + |s.frame| <= |n.area|
              && Next(n, s) == n.(area := Written(n.area, at, s.frame), kernelRx := Without(n.kernelRx, s.i),
                                  rx := n.rx + [Desc(at, |s.frame|)], arrived := n.arrived + [s.frame])
    ensures s.KernelTake? ==> Next(n, s) == n.(tx := n.tx[1..], kernelTx := n.kernelTx + [n.tx[0]])
    ensures s.KernelSend? ==>
              Next(n, s) == n.(kernelTx := Without(n.kernelTx, s.i),
                               wire := n.wire + [Content(n.area, n.kernelTx[s.i])],
                               completion := n.completion + [Base(n.kernelTx[s.i].addr) + s.offset])
  {
    hide Written, Content, Base, Without, RxSide, TxSide, Frames;
    if s.KernelArrive? {
      KernelHolds(n, s.i);
    }
  }

  lemma KernelHolds(n: Nic, i: nat)
    requires Inv(n) && i < |n.kernelRx|
    ensures n.kernelRx[i] + FRAME_SIZE <= AREA_LEN
  {
    KernelArriveApart(n, i);
  }

  lemma PoolFrame(n: Nic)
    requires Inv(n) && n.freeTx != []
    ensures n.freeTx[|n.freeTx| - 1] + FRAME_SIZE <= AREA_LEN && |n.hdr| == ETH_HDR
  {
    SubmitApart(n);
  }

  lemma ReadInFrame(n: Nic)
    requires Inv(n) && n.rx != []
    ensures n.rx[0].addr + n.rx[0].len <= AREA_LEN
  {
    hide RxSide, Frames;
    var f := Base(n.rx[0].addr);
    BasesOf(n.rx, f);
    assert n.rx[0] in n.rx && InFrame(n.rx[0]);
    HeldFrame(n, f) by { assert f in RxSide(n) by { InRxSide(n, f); } }
  }

  lemma InRxSide(n: Nic, f: nat)
    requires f in multiset(Map(BaseOf, n.rx))
    ensures f in RxSide(n)
  {
  }

  lemma ReadEffect(n: Nic)
    requires Inv(n) && n.rx != []
    ensures var m := Next(n, Read);
            m.rx == n.rx[1..] && |m.recycle| == |n.recycle| + 1 && |m.read| == |n.read| + 1 && n.read <= m.read
  {
  }

  lemma RefillEffect(n: Nic)
    requires Inv(n) && n.recycle != []
    ensures Next(n, Refill).recycle == n.recycle[1..]
  {
  }

  lemma ReclaimEffect(n: Nic)
    requires Inv(n) && n.completion != []
    ensures Next(n, Reclaim) == n.(completion := n.completion[1..], freeTx := n.freeTx + [Base(n.completion[0])])
    ensures n.completion[0] < AREA_LEN
  {
    hide TxSide, Frames;
    var f := Base(n.completion[0]);
    assert Map(Base, n.completion)[0] == f;
    assert f in TxSide(n) by { InTxSide(n, f); }
    FreeFrame(n, f);
  }

  lemma InTxSide(n: Nic, f: nat)
    requires f in Map(Base, n.completion)
    ensures f in TxSide(n)
  {
    assert f in multiset(Map(Base, n.completion));
  }

  lemma SubmitEffect(n: Nic, payload: Bytes)
    requires Inv(n) && Enabled(n, Submit(payload))
    ensures var base := n.freeTx[|n.freeTx| - 1];
            && base + ETH_HDR + |payload| <= |n.area| && |n.hdr| == ETH_HDR
            && Next(n, Submit(payload)) ==
               n.(freeTx := n.freeTx[..|n.freeTx| - 1], area := Written(n.area, base, n.hdr + payload),
                  tx := Inserted(n.tx, Desc(base, ETH_HDR + |payload|), TX_FRAMES),
                  submitted := n.submitted + [n.hdr + payload])
  {
    hide Written, Inserted, TxSide, RxSide, Frames;
    PoolFrame(n);
  }

  lemma WrittenTwice(area: Bytes, at: nat, a: Bytes, b: Bytes)
    requires at + |a| + |b| <= |area|
    ensures |Written(area, at, a)| == |area|
    ensures Written(Written(area, at, a), at + |a|, b) == Written(area, at, a + b)
  {
  }

  lemma NothingFramed(hdr: Bytes)
    ensures Framed(hdr, []) == []
  {
  }
}
