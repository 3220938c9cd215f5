/**
 * COBS serial framing (ndn-face-serial/src/cobs.rs).
 *
 * `Stuff`/`Unstuff` say what the in-place encoder and the decoder compute;
 * the lemmas relate the two, bound the overhead, and lift the round trip to a
 * stream cut into arbitrary chunks.
 */
module Cobs {
  import opened Common

  /** A growable byte buffer (`BytesMut`). */
  class Buffer {
    var data: Bytes

    constructor ()
      ensures data == []
    {
      data := [];
    }
  }

  // ---------------------------------------------------------------- encoding

  ghost predicate NoZero(s: Bytes) {
    forall k :: 0 <= k < |s| ==> s[k] != 0
  }

  /** The encoding of `run + rest`, where `run` is the block still open. */
  function Stuff(run: Bytes, rest: Bytes): Bytes
    requires |run| < 254
    decreases |rest|
  {
    if rest == [] then
      [(|run| + 1) as Byte] + run
    else if rest[0] == 0 then
      [(|run| + 1) as Byte] + run + Stuff([], rest[1..])
    else if |run| == 253 then
      [255] + run + [rest[0]] + Stuff([], rest[1..])
    else
      Stuff(run + [rest[0]], rest[1..])
  }

  function Encoded(src: Bytes): Bytes {
    Stuff([], src)
  }

  /** The encoder: each code byte is reserved first and patched in place. */
  method CobsEncode(src: Bytes, dst: Buffer)
    modifies dst
    ensures dst.data == old(dst.data) + Encoded(src)
  {
    var codeIdx := |dst.data|;
    dst.data := dst.data + [0];
    var code: Byte := 1;
    ghost var closed := old(dst.data);
    ghost var run: Bytes := [];
    for i := 0 to |src|
      invariant codeIdx == |closed| && code as int == |run| + 1 <= 254
      invariant dst.data == closed + [0] + run
      invariant closed + Stuff(run, src[i..]) == old(dst.data) + Encoded(src)
    {
      var byte := src[i];
      assert src[i..][0] == byte && src[i..][1..] == src[i + 1..];
      if byte == 0 {
        dst.data := dst.data[codeIdx := code];
        closed := dst.data;
        run := [];
        codeIdx := |dst.data|;
        dst.data := dst.data + [0];
        code := 1;
      } else {
        dst.data := dst.data + [byte];
        code := code + 1;
        if code == 0xFF {
          dst.data := dst.data[codeIdx := code];
          closed := dst.data;
          run := [];
          codeIdx := |dst.data|;
          dst.data := dst.data + [0];
          code := 1;
        } else {
          run := run + [byte];
        }
      }
    }
    dst.data := dst.data[codeIdx := code];
  }

  // ---------------------------------------------------------------- decoding

  /** The bytes an encoding stands for; `None` is malformed. */
  function Unstuff(src: Bytes): Option<Bytes>
    decreases |src|
  {
    if src == [] then Some([])
    else if src[0] == 0 || src[0] as int > |src| then None
    else
      var rest := src[src[0] as int..];
      match Unstuff(rest)
      case None => None
      case Some(tail) =>
        Some(src[1..src[0] as int] + (if src[0] < 255 && rest != [] then [0] else []) + tail)
  }

  function Prefixed(head: Bytes, o: Option<Bytes>): Option<Bytes> {
    if o.Some? then Some(head + o.value) else None
  }

  /** The decoder; `false` is the `InvalidData` error. */
  method CobsDecode(src: Bytes, dst: Buffer) returns (ok: bool)
    modifies dst
    ensures ok <==> Unstuff(src).Some?
    ensures ok ==> dst.data == old(dst.data) + Unstuff(src).value
    ensures old(dst.data) <= dst.data
  {
    var i := 0;
    ghost var out: Bytes := [];
    assert src[0..] == src;
    PrefixedNothing(Unstuff(src));
    while i < |src|
      invariant 0 <= i <= |src|
      invariant dst.data == old(dst.data) + out
      invariant Unstuff(src) == Prefixed(out, Unstuff(src[i..]))
    {
      var code := src[i] as int;
      ghost var tail := src[i..];
      assert tail[0] as int == code;
      i := i + 1;
      if code == 0 {
        return false;
      }
      var runLen := code - 1;
      if i + runLen > |src| {
        return false;
      }
      assert tail[code..] == src[i + runLen..];
      assert tail[1..code] == src[i..i + runLen];
      ghost var piece := src[i..i + runLen] + (if code < 0xFF && i + runLen < |src| then [0] else []);
      dst.data := dst.data + src[i..i + runLen];
      i := i + runLen;
      if code < 0xFF && i < |src| {
        dst.data := dst.data + [0];
      }
      assert Unstuff(tail) == Prefixed(piece, Unstuff(src[i..]));
      PrefixedTwice(out, piece, Unstuff(src[i..]));
      out := out + piece;
    }
    assert src[i..] == [];
    return true;
  }

  lemma PrefixedNothing(o: Option<Bytes>)
    ensures Prefixed([], o) == o
  {
    if o.Some? {
      assert [] + o.value == o.value;
    }
  }

  lemma PrefixedTwice(a: Bytes, b: Bytes, o: Option<Bytes>)
    ensures Prefixed(a, Prefixed(b, o)) == Prefixed(a + b, o)
  {
    if o.Some? {
      assert a + (b + o.value) == a + b + o.value;
    }
  }

  // ------------------------------------------------- round trip and overhead

  /** One block decodes to its body, a separator unless it is full or last, and the rest. */
  lemma UnstuffBlock(code: Byte, body: Bytes, tail: Bytes)
    requires code as int == |body| + 1 && Unstuff(tail).Some?
    ensures Unstuff([code] + body + tail) ==
            Some(body + (if code < 255 && tail != [] then [0] else []) + Unstuff(tail).value)
  {
    Seams([code], body, tail);
  }

  lemma {:induction false} StuffRoundTrip(run: Bytes, rest: Bytes)
    requires |run| < 254
    ensures Unstuff(Stuff(run, rest)) == Some(run + rest) && Stuff(run, rest) != []
    decreases |rest|
  {
    var code := (|run| + 1) as Byte;
    if rest == [] {
      UnstuffBlock(code, run, []);
      assert [code] + run + [] == [code] + run;
      assert run + [] + [] == run + rest;
    } else {
      var tail := rest[1..];
      assert [rest[0]] + tail == rest;
      Assoc(run, [rest[0]], tail);
      if rest[0] == 0 {
        StuffRoundTrip([], tail);
        assert [] + tail == tail;
        UnstuffBlock(code, run, Stuff([], tail));
      } else if |run| == 253 {
        StuffRoundTrip([], tail);
        assert [] + tail == tail;
        UnstuffBlock(255, run + [rest[0]], Stuff([], tail));
        Assoc([255], run, [rest[0]]);
        assert run + [rest[0]] + [] == run + [rest[0]];
      } else {
        StuffRoundTrip(run + [rest[0]], tail);
      }
    }
  }

  lemma {:induction false} StuffHasNoZero(run: Bytes, rest: Bytes)
    requires |run| < 254 && NoZero(run)
    ensures NoZero(Stuff(run, rest))
    decreases |rest|
  {
    if rest != [] {
      StuffHasNoZero(if rest[0] == 0 || |run| == 253 then [] else run + [rest[0]], rest[1..]);
    }
  }

  /** Decoding undoes encoding, and the delimiter never appears in an encoding. */
  lemma RoundTrip(x: Bytes)
    ensures Unstuff(Encoded(x)) == Some(x)
    ensures NoZero(Encoded(x)) && Encoded(x) != []
  {
    StuffRoundTrip([], x);
    StuffHasNoZero([], x);
    assert [] + x == x;
  }

  /** Two payloads never share an encoding. */
  lemma EncodingIsInjective(x: Bytes, y: Bytes)
    requires Encoded(x) == Encoded(y)
    ensures x == y
  {
    RoundTrip(x);
    RoundTrip(y);
  }

  /** How many blocks of an encoding carry the code 0xFF. */
  function FullBlocks(enc: Bytes): nat
    decreases |enc|
  {
    if enc == [] || enc[0] == 0 || enc[0] as int > |enc| then 0
    else (if enc[0] == 255 then 1 else 0) + FullBlocks(enc[enc[0] as int..])
  }

  lemma {:induction false} StuffLength(run: Bytes, rest: Bytes)
    requires |run| < 254
    ensures |Stuff(run, rest)| == |run| + |rest| + 1 + FullBlocks(Stuff(run, rest))
    ensures 254 * FullBlocks(Stuff(run, rest)) <= |run| + |rest|
    ensures NoZero(rest) ==> |run| + |rest| < 254 * (FullBlocks(Stuff(run, rest)) + 1)
    decreases |rest|
  {
    var s := Stuff(run, rest);
    if rest == [] {
      assert s[s[0] as int..] == [];
    } else if rest[0] == 0 {
      StuffLength([], rest[1..]);
      assert s[s[0] as int..] == Stuff([], rest[1..]);
    } else if |run| == 253 {
      StuffLength([], rest[1..]);
      assert s[s[0] as int..] == Stuff([], rest[1..]);
    } else {
      StuffLength(run + [rest[0]], rest[1..]);
    }
  }

  /** The exact length, its bound, and the inputs that reach the bound. */
  lemma EncodedLength(x: Bytes)
    ensures |Encoded(x)| == |x| + 1 + FullBlocks(Encoded(x))
    ensures |Encoded(x)| <= |x| + 1 + |x| / 254
    ensures NoZero(x) ==> |Encoded(x)| == |x| + 1 + |x| / 254
  {
    StuffLength([], x);
  }

  // ---------------------------------------------------------- stream decoder

  datatype Outcome = NeedMore | Frame(payload: Bytes) | TooLong

  /** Position of the first delimiter, or `|s|`. */
  function Delimiter(s: Bytes): (p: nat)
    ensures p <= |s| && (forall k :: 0 <= k < p ==> s[k] != 0)
    ensures p < |s| ==> s[p] == 0
  {
    if s == [] || s[0] == 0 then 0
    else
      var p := Delimiter(s[1..]);
      assert forall k :: 1 <= k < p + 1 ==> s[k] == s[1..][k - 1];
      1 + p
  }

  /** What one `decode` call answers and leaves in the buffer. */
  function DecodeStep(maxFrameLen: nat, buf: Bytes): (Outcome, Bytes) {
    var p := Delimiter(buf);
    if p == |buf| then
      (NeedMore, if |buf| > 2 * maxFrameLen then [] else buf)
    else
      var outcome :=
        if p == 0 then NeedMore
        else match Unstuff(buf[..p])
             case None => NeedMore
             case Some(x) => if |x| > maxFrameLen then TooLong else Frame(x);
      (outcome, buf[p + 1..])
  }

  class CobsCodec {
    const maxFrameLen: nat

    constructor (maxFrameLen: nat)
      ensures this.maxFrameLen == maxFrameLen
    {
      this.maxFrameLen := maxFrameLen;
    }

    method Decode(buf: Buffer) returns (r: Outcome)
      modifies buf
      ensures (r, buf.data) == DecodeStep(maxFrameLen, old(buf.data))
    {
      var pos := 0;
      while pos < |buf.data| && buf.data[pos] != 0
        invariant 0 <= pos <= |buf.data|
        invariant Delimiter(buf.data) == pos + Delimiter(buf.data[pos..])
      {
        assert buf.data[pos..][1..] == buf.data[pos + 1..];
        pos := pos + 1;
      }
      if pos == |buf.data| {
        if |buf.data| > maxFrameLen * 2 {
          buf.data := [];
        }
        return NeedMore;
      }
      var encoded := buf.data[..pos];
      buf.data := buf.data[pos + 1..];
      if |encoded| == 0 {
        return NeedMore;
      }
      var decoded := new Buffer();
      var ok := CobsDecode(encoded, decoded);
      if !ok {
        return NeedMore;
      }
      if |decoded.data| > maxFrameLen {
        return TooLong;
      }
      assert decoded.data == Unstuff(encoded).value;
      return Frame(decoded.data);
    }

    method Encode(item: Bytes, dst: Buffer)
      modifies dst
      ensures dst.data == old(dst.data) + Wire(item)
    {
      CobsEncode(item, dst);
      dst.data := dst.data + [0];
    }

    /** Calls `decode` until it answers no frame, as the framed reader does. */
    method Drain(buf: Buffer) returns (frames: seq<Bytes>)
      modifies buf
      ensures (frames, buf.data) == Drained(maxFrameLen, old(buf.data))
    {
      frames := [];
      ghost var all := Drained(maxFrameLen, buf.data);
      ghost var todo := all;
      assert frames + todo.0 == all.0;
      var r := Decode(buf);
      while r.Frame?
        invariant frames + todo.0 == all.0 && todo.1 == all.1
        invariant r.Frame? ==>
                    todo == ([r.payload] + Drained(maxFrameLen, buf.data).0, Drained(maxFrameLen, buf.data).1)
        invariant !r.Frame? ==> todo == ([], buf.data)
        decreases |buf.data| + (if r.Frame? then 1 else 0)
      {
        frames := frames + [r.payload];
        todo := Drained(maxFrameLen, buf.data);
        assert frames + todo.0 == all.0;
        r := Decode(buf);
      }
      assert frames + [] == frames;
    }
  }

  /** One framed payload on the line. */
  function Wire(item: Bytes): Bytes {
    Encoded(item) + [0]
  }

  function Wires(items: seq<Bytes>): Bytes {
    if items == [] then [] else Wire(items[0]) + Wires(items[1..])
  }

  /** The frames a drained buffer gives up, and what stays in it. */
  function Drained(maxFrameLen: nat, buf: Bytes): (seq<Bytes>, Bytes)
    decreases |buf|
  {
    var (outcome, rest) := DecodeStep(maxFrameLen, buf);
    if !outcome.Frame? then ([], rest)
    else
      var (frames, left) := Drained(maxFrameLen, rest);
      ([outcome.payload] + frames, left)
  }

  /** A reader that drains its buffer after every chunk. */
  function Feed(maxFrameLen: nat, buf: Bytes, chunks: seq<Bytes>): (seq<Bytes>, Bytes)
    decreases |chunks|
  {
    if chunks == [] then ([], buf)
    else
      var (now, left) := Drained(maxFrameLen, buf + chunks[0]);
      var (later, end) := Feed(maxFrameLen, left, chunks[1..]);
      (now + later, end)
  }

  lemma DelimiterAt(clean: Bytes, tail: Bytes)
    requires NoZero(clean) && (tail != [] ==> tail[0] == 0)
    ensures Delimiter(clean + tail) == |clean|
  {
    var s := clean + tail;
    assert forall k :: 0 <= k < |clean| ==> s[k] == clean[k];
    assert tail != [] ==> s[|clean|] == tail[0];
  }

  /** A step consumes exactly up to the first delimiter, whatever precedes it. */
  lemma StepResynchronizes(maxFrameLen: nat, junk: Bytes, tail: Bytes)
    requires NoZero(junk)
    ensures DecodeStep(maxFrameLen, junk + [0] + tail).1 == tail
  {
    DelimiterAt(junk, [0] + tail);
    assert junk + [0] + tail == junk + ([0] + tail);
  }

  /** A whole frame at the head of the buffer is answered exactly when it fits. */
  /** What a call answers, told from the bytes before the first delimiter: a frame if they
      are an encoding within the limit, an error if beyond it, and otherwise no frame
      without any error. */
  lemma StepOnWhole(maxFrameLen: nat, block: Bytes, tail: Bytes)
    requires NoZero(block)
    ensures var (answer, left) := DecodeStep(maxFrameLen, block + [0] + tail);
            && left == tail
            && (answer == NeedMore <==> block == [] || Unstuff(block) == None)
            && (forall x :: answer == Frame(x) <==> block != [] && Unstuff(block) == Some(x) && |x| <= maxFrameLen)
            && (answer == TooLong <==>
                  block != [] && Unstuff(block).Some? && |Unstuff(block).value| > maxFrameLen)
  {
    DelimiterAt(block, [0] + tail);
    Assoc(block, [0], tail);
    assert (block + [0] + tail)[..|block|] == block && (block + [0] + tail)[|block| + 1..] == tail;
  }

  /** Without a delimiter there is no answer yet; only an overlong buffer is cleared. */
  lemma StepOnPart(maxFrameLen: nat, buf: Bytes)
    requires NoZero(buf)
    ensures DecodeStep(maxFrameLen, buf) == (NeedMore, if |buf| <= 2 * maxFrameLen then buf else [])
  {
    DelimiterAt(buf, []);
    assert buf + [] == buf;
  }

  lemma StepOnFrame(maxFrameLen: nat, x: Bytes, tail: Bytes)
    ensures DecodeStep(maxFrameLen, Wire(x) + tail) ==
            (if |x| <= maxFrameLen then Frame(x) else TooLong, tail)
  {
    RoundTrip(x);
    var s := Wire(x) + tail;
    assert s == Encoded(x) + ([0] + tail);
    DelimiterAt(Encoded(x), [0] + tail);
    assert s[..|Encoded(x)|] == Encoded(x);
    assert s[|Encoded(x)| + 1..] == tail;
  }

  ghost predicate Fits(maxFrameLen: nat, items: seq<Bytes>) {
    forall k :: 0 <= k < |items| ==> |items[k]| <= maxFrameLen
  }

  /** A proper prefix of a wire holds no delimiter; a longer buffer starts with it. */
  lemma HeadWire(buf: Bytes, more: Bytes, items: seq<Bytes>)
    requires items != [] && buf + more == Wires(items)
    ensures |buf| < |Wire(items[0])| ==> Delimiter(buf) == |buf| <= |Encoded(items[0])|
    ensures |Wire(items[0])| <= |buf| ==>
              && Delimiter(buf) < |buf|
              && buf == Wire(items[0]) + buf[|Wire(items[0])|..]
              && buf[|Wire(items[0])|..] + more == Wires(items[1..])
  {
    hide Encoded, Delimiter;
    var w, rest := Wire(items[0]), Wires(items[1..]);
    if |w| <= |buf| {
      WholeHead(w, rest, buf, more);
      DelimiterInside(buf, |w| - 1);
    } else {
      RoundTrip(items[0]);
      PartOfHead(Encoded(items[0]), rest, buf, more);
      DelimiterAt(buf, []);
      assert buf + [] == buf;
    }
  }

  lemma WholeHead(w: Bytes, rest: Bytes, buf: Bytes, more: Bytes)
    requires buf + more == w + rest && |w| <= |buf|
    ensures buf == w + buf[|w|..] && buf[|w|..] + more == rest
  {
    assert buf[..|w|] == (buf + more)[..|w|] == w;
    assert buf[|w|..] + more == (buf + more)[|w|..] == rest;
  }

  lemma PartOfHead(clean: Bytes, rest: Bytes, buf: Bytes, more: Bytes)
    requires buf + more == clean + [0] + rest && |buf| <= |clean| && NoZero(clean)
    ensures NoZero(buf)
  {
    forall k | 0 <= k < |buf|
      ensures buf[k] != 0
    {
      assert buf[k] == (buf + more)[k] == clean[k];
    }
  }

  lemma DelimiterInside(s: Bytes, at: nat)
    requires at < |s| && s[at] == 0
    ensures Delimiter(s) < |s|
  {
  }

  /** `k` of the frames came out of `buf`, the rest is still to be read, and
      the partial frame kept holds no delimiter. */
  ghost predicate DrainSplit(maxFrameLen: nat, buf: Bytes, more: Bytes, items: seq<Bytes>, k: nat) {
    var (frames, left) := Drained(maxFrameLen, buf);
    && k <= |items|
    && frames == items[..k]
    && left + more == Wires(items[k..])
    && Delimiter(left) == |left|
  }

  lemma DrainSplitFrame(maxFrameLen: nat, rest: Bytes, more: Bytes, items: seq<Bytes>, k: nat)
    requires items != [] && |items[0]| <= maxFrameLen
    requires DrainSplit(maxFrameLen, rest, more, items[1..], k)
    ensures DrainSplit(maxFrameLen, Wire(items[0]) + rest, more, items, k + 1)
  {
    StepOnFrame(maxFrameLen, items[0], rest);
    assert items[..k + 1] == [items[0]] + items[1..][..k];
    assert items[k + 1..] == items[1..][k..];
  }

  /** Draining a prefix of well-formed wires answers the complete frames and
      keeps the partial one, which never reaches the clearing threshold. */
  lemma {:induction false} DrainPrefix(maxFrameLen: nat, buf: Bytes, more: Bytes, items: seq<Bytes>)
      returns (k: nat)
    requires maxFrameLen >= 1 && Fits(maxFrameLen, items)
    requires buf + more == Wires(items)
    ensures DrainSplit(maxFrameLen, buf, more, items, k)
    decreases |items|
  {
    if items == [] {
      k := 0;
      assert |buf + more| == 0;
      assert buf == [];
    } else {
      var w := Wire(items[0]);
      HeadWire(buf, more, items);
      if |w| <= |buf| {
        var rest := buf[|w|..];
        var k' := DrainPrefix(maxFrameLen, rest, more, items[1..]);
        DrainSplitFrame(maxFrameLen, rest, more, items, k');
        k := k' + 1;
      } else {
        EncodedLength(items[0]);
        k := 0;
        assert items[0..] == items;
      }
    }
  }

  /**
   * However the concatenated encoder output is cut into chunks, a reader that
   * drains after each chunk answers exactly the payloads, in order, and ends
   * with an empty buffer.
   */
  lemma {:induction false} ChunkedRoundTrip(maxFrameLen: nat, buf: Bytes, chunks: seq<Bytes>, items: seq<Bytes>)
    requires maxFrameLen >= 1 && Fits(maxFrameLen, items)
    requires buf + Flatten(chunks) == Wires(items)
    requires Delimiter(buf) == |buf|
    ensures Feed(maxFrameLen, buf, chunks) == (items, [])
    decreases |chunks|
  {
    if chunks == [] {
      assert buf + [] == buf;
      if items != [] {
        HeadWire(buf, [], items);
        assert false;
      }
    } else {
      var more := Flatten(chunks[1..]);
      assert buf + chunks[0] + more == buf + Flatten(chunks);
      var k := DrainPrefix(maxFrameLen, buf + chunks[0], more, items);
      var left := Drained(maxFrameLen, buf + chunks[0]).1;
      ChunkedRoundTrip(maxFrameLen, left, chunks[1..], items[k..]);
      assert items == items[..k] + items[k..];
    }
  }

  /** Junk costs at most the frame it ends: after one `decode` call consumed it,
      every frame behind it comes out. */
  lemma FramesBehindJunk(maxFrameLen: nat, junk: Bytes, items: seq<Bytes>)
    requires maxFrameLen >= 1 && Fits(maxFrameLen, items) && NoZero(junk)
    ensures Drained(maxFrameLen, DecodeStep(maxFrameLen, junk + [0] + Wires(items)).1) == (items, [])
  {
    StepResynchronizes(maxFrameLen, junk, Wires(items));
    var all := Wires(items);
    assert [all][1..] == [] && Flatten([all][1..]) == [];
    assert Flatten([all]) == all + [] == all;
    assert [] + all == all;
    ChunkedRoundTrip(maxFrameLen, [], [all], items);
    var (frames, left) := Drained(maxFrameLen, all);
    assert Feed(maxFrameLen, left, [all][1..]) == ([], left);
    assert frames + [] == frames;
  }

  // -------------------------------------------------------------- frames left unread

  /** What a buffer holds in front of each of its delimiters. */
  function Blocks(buf: Bytes): seq<Bytes>
    decreases |buf|
  {
    var p := Delimiter(buf);
    if p == |buf| then [] else [buf[..p]] + Blocks(buf[p + 1..])
  }

  /** One `decode` call answers this block. */
  predicate IsFrame(maxFrameLen: nat, block: Bytes) {
    block != [] && Unstuff(block).Some? && |Unstuff(block).value| <= maxFrameLen
  }

  lemma StepOnBlock(maxFrameLen: nat, buf: Bytes)
    requires Delimiter(buf) < |buf|
    ensures var p := Delimiter(buf);
            && DecodeStep(maxFrameLen, buf).1 == buf[p + 1..]
            && (DecodeStep(maxFrameLen, buf).0.Frame? <==> IsFrame(maxFrameLen, buf[..p]))
  {
    hide Unstuff;
  }

  /** Every block is a frame, but perhaps the last. */
  ghost predicate FramesUpToLast(maxFrameLen: nat, blocks: seq<Bytes>) {
    forall k :: 0 <= k < |blocks| - 1 ==> IsFrame(maxFrameLen, blocks[k])
  }

  lemma FramesUpToLastCons(maxFrameLen: nat, first: Bytes, rest: seq<Bytes>)
    ensures FramesUpToLast(maxFrameLen, [first] + rest) <==>
            rest == [] || (IsFrame(maxFrameLen, first) && FramesUpToLast(maxFrameLen, rest))
  {
    hide IsFrame;
    var blocks := [first] + rest;
    assert blocks[0] == first && forall k :: 0 <= k < |rest| ==> rest[k] == blocks[k + 1];
    if rest != [] && FramesUpToLast(maxFrameLen, blocks) {
      assert IsFrame(maxFrameLen, blocks[0]);
      forall k | 0 <= k < |rest| - 1
        ensures IsFrame(maxFrameLen, rest[k])
      {
        assert IsFrame(maxFrameLen, blocks[k + 1]);
      }
    }
  }

  /** A reader that drains its buffer stops at the first block that is no frame: what
      it keeps holds no whole block exactly when every block but the last is a frame. */
  lemma {:induction false} DrainLeavesNoBlockIff(maxFrameLen: nat, buf: Bytes)
    ensures var left := Drained(maxFrameLen, buf).1;
            Delimiter(left) == |left| <==> FramesUpToLast(maxFrameLen, Blocks(buf))
    decreases |buf|
  {
    hide DecodeStep, IsFrame, FramesUpToLast, Delimiter;
    var p := Delimiter(buf);
    if p == |buf| {
      NoBlockStep(maxFrameLen, buf);
      NoBlocks(maxFrameLen);
    } else {
      var rest := buf[p + 1..];
      StepOnBlock(maxFrameLen, buf);
      FramesUpToLastCons(maxFrameLen, buf[..p], Blocks(rest));
      if IsFrame(maxFrameLen, buf[..p]) {
        DrainLeavesNoBlockIff(maxFrameLen, rest);
        NoBlocks(maxFrameLen);
      }
    }
  }

  lemma NoBlocks(maxFrameLen: nat)
    ensures FramesUpToLast(maxFrameLen, [])
  {
  }

  lemma NoBlockStep(maxFrameLen: nat, buf: Bytes)
    requires Delimiter(buf) == |buf|
    ensures var (outcome, left) := DecodeStep(maxFrameLen, buf);
            outcome == NeedMore && Delimiter(left) == |left|
  {
  }

  /** So everything behind a block that is no frame stays in the buffer. */
  lemma JunkStalls(maxFrameLen: nat, junk: Bytes, tail: Bytes)
    requires NoZero(junk) && !IsFrame(maxFrameLen, junk)
    ensures Drained(maxFrameLen, junk + [0] + tail) == ([], tail)
  {
    hide DecodeStep, IsFrame;
    var buf := junk + [0] + tail;
    DelimiterAt(junk, [0] + tail);
    assert buf == junk + ([0] + tail);
    assert buf[..|junk|] == junk && buf[|junk| + 1..] == tail;
    StepOnBlock(maxFrameLen, buf);
  }

  lemma {:induction false} FeedAppend(maxFrameLen: nat, buf: Bytes, a: seq<Bytes>, b: seq<Bytes>)
    ensures var (frames, left) := Feed(maxFrameLen, buf, a);
            var (later, end) := Feed(maxFrameLen, left, b);
            Feed(maxFrameLen, buf, a + b) == (frames + later, end)
    decreases |a|
  {
    hide Drained;
    if a == [] {
      assert a + b == b;
      assert [] + Feed(maxFrameLen, buf, b).0 == Feed(maxFrameLen, buf, b).0;
    } else {
      var (now, left) := Drained(maxFrameLen, buf + a[0]);
      assert (a + b)[0] == a[0] && (a + b)[1..] == a[1..] + b;
      FeedAppend(maxFrameLen, left, a[1..], b);
      var (mid, rest) := Feed(maxFrameLen, left, a[1..]);
      var later := Feed(maxFrameLen, rest, b).0;
      Assoc(now, mid, later);
    }
  }

  lemma FeedOne(maxFrameLen: nat, buf: Bytes, chunk: Bytes)
    ensures Feed(maxFrameLen, buf, [chunk]) == Drained(maxFrameLen, buf + chunk)
  {
    hide Drained;
    var (now, left) := Drained(maxFrameLen, buf + chunk);
    assert [chunk][1..] == [];
    assert Feed(maxFrameLen, left, []) == ([], left);
    assert now + [] == now;
  }

  /** Over any chunks: after the latest one a whole block waits for the next read
      exactly when, of the blocks then in the buffer, one before the last is no frame. */
  lemma FeedLeavesNoBlockIff(maxFrameLen: nat, buf: Bytes, chunks: seq<Bytes>, latest: Bytes)
    ensures var left := Feed(maxFrameLen, buf, chunks + [latest]).1;
            var blocks := Blocks(Feed(maxFrameLen, buf, chunks).1 + latest);
            Delimiter(left) == |left| <==> FramesUpToLast(maxFrameLen, blocks)
  {
    hide Drained, Feed, Blocks, FramesUpToLast;
    var held := Feed(maxFrameLen, buf, chunks).1;
    FeedAppend(maxFrameLen, buf, chunks, [latest]);
    FeedOne(maxFrameLen, held, latest);
    DrainLeavesNoBlockIff(maxFrameLen, held + latest);
  }

  /** Good frames arriving in one read behind junk are all held back until the next
      read, which may bring nothing at all, and then all come out. */
  lemma JunkHoldsFramesBack(maxFrameLen: nat, junk: Bytes, items: seq<Bytes>)
    requires maxFrameLen >= 1 && Fits(maxFrameLen, items)
    requires NoZero(junk) && !IsFrame(maxFrameLen, junk)
    ensures Feed(maxFrameLen, [], [junk + [0] + Wires(items)]) == ([], Wires(items))
    ensures Feed(maxFrameLen, [], [junk + [0] + Wires(items), []]) == (items, [])
  {
    hide Drained, Feed, IsFrame;
    var chunk := junk + [0] + Wires(items);
    assert [] + chunk == chunk;
    JunkStalls(maxFrameLen, junk, Wires(items));
    FeedOne(maxFrameLen, [], chunk);
    FeedAppend(maxFrameLen, [], [chunk], [[]]);
    assert [chunk] + [[]] == [chunk, []];
    FeedOne(maxFrameLen, Wires(items), []);
    StepResynchronizes(maxFrameLen, junk, Wires(items));
    FramesBehindJunk(maxFrameLen, junk, items);
    assert Wires(items) + [] == Wires(items) && [] + items == items;
  }

  /** A single stray delimiter in front is enough. */
  lemma StrayDelimiterHoldsBack(maxFrameLen: nat, items: seq<Bytes>)
    requires maxFrameLen >= 1 && Fits(maxFrameLen, items)
    ensures Feed(maxFrameLen, [], [[0] + Wires(items)]) == ([], Wires(items))
  {
    JunkHoldsFramesBack(maxFrameLen, [], items);
    assert [] + [0] + Wires(items) == [0] + Wires(items);
  }

  /** Every cutting of every list of fitting payloads is harmless. */
  ghost predicate CuttingIsHarmless(maxFrameLen: nat) {
    forall items, chunks ::
      Fits(maxFrameLen, items) && Flatten(chunks) == Wires(items) ==>
        Feed(maxFrameLen, [], chunks) == (items, [])
  }

  /** With limit 0 the empty payload's one-byte encoding is already over the
      clearing threshold, so a cut before its delimiter loses the frame. */
  lemma LimitZeroLosesAFrame()
    ensures Fits(0, [[]]) && Flatten([[1], [0]]) == Wires([[]])
    ensures Feed(0, [], [[1], [0]]) == ([], [])
  {
    var chunks: seq<Bytes> := [[1], [0]];
    assert chunks[1..] == [[0]];
    assert chunks[1..][1..] == [];
    assert Flatten(chunks[1..]) == [0];
    assert Encoded([]) == [1];
    assert Wires([[]]) == [1, 0];
    assert DecodeStep(0, [1]) == (NeedMore, []);
    assert DecodeStep(0, [0]) == (NeedMore, []);
    assert [] + chunks[0] == [1] && [] + chunks[1] == [0];
    assert chunks[1..][0] == [0];
    var none: seq<Bytes> := [];
    assert none + none == none;
    assert Feed(0, [], chunks[1..][1..]) == ([], []);
    assert Feed(0, [], chunks[1..]) == ([], []);
  }

  /** Cutting is harmless exactly for a positive limit. */
  lemma CuttingIsHarmlessIff(maxFrameLen: nat)
    ensures CuttingIsHarmless(maxFrameLen) <==> maxFrameLen >= 1
  {
    if maxFrameLen >= 1 {
      forall items, chunks | Fits(maxFrameLen, items) && Flatten(chunks) == Wires(items)
        ensures Feed(maxFrameLen, [], chunks) == (items, [])
      {
        assert [] + Flatten(chunks) == Wires(items);
        ChunkedRoundTrip(maxFrameLen, [], chunks, items);
      }
    } else {
      LimitZeroLosesAFrame();
    }
  }
}
