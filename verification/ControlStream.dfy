/**
 * Reading link messages off the control stream (`read_tlv`, ndn-face-quic/src/link.rs):
 * the header a byte at a time until it parses, then the value.
 */
module ControlStream {
  import opened Common
  import opened Tlv
  import opened Messages

  datatype ReadFault = Ended | TooLong(len: nat) | Unreadable

  datatype Read = Message(t: nat, value: Bytes) | EndOfStream | Failed(fault: ReadFault)

  /** The receive half of the stream: what the peer wrote and is not yet read. */
  class RecvStream {
    var incoming: Bytes

    constructor (incoming: Bytes)
      ensures this.incoming == incoming
    {
      this.incoming := incoming;
    }
  }

  /** What one `read_tlv` answers on a stream, and what it leaves unread. */
  function ReadStep(incoming: Bytes): (Read, Bytes) {
    if incoming == [] then (EndOfStream, [])
    else match Header(incoming)
      case None => if |incoming| > 20 then (Failed(Unreadable), incoming[21..]) else (Failed(Ended), [])
      case Some((t, start, len)) =>
        if start > |incoming| then (Failed(Ended), [])
        else if len > MAX_MESSAGE then (Failed(TooLong(len)), incoming[start..])
        else if start + len > |incoming| then (Failed(Ended), [])
        else (Message(t, incoming[start..start + len]), incoming[start + len..])
  }

  /** A header that first parses after one more byte ends with that byte. */
  lemma HeaderEndsHere(all: Bytes, n: nat)
    requires 0 < n <= |all|
    requires Header(all[..n]).Some? && Header(all[..n - 1]).None?
    ensures Header(all) == Header(all[..n]) && Header(all).value.1 == n
  {
    hide ReadVar, WriteVar;
    var buf := all[..n];
    HeaderExtends(buf, all[n..]);
    assert buf + all[n..] == all;
    HeaderCanonical(buf);
    HeaderIsPrefixFree(buf, n - 1);
    assert buf[..n - 1] == all[..n - 1];
  }

  lemma NoHeaderYet(all: Bytes, n: nat)
    requires n <= |all| && Header(all[..n]).None? && (n == |all| || n > 20)
    ensures Header(all).None?
  {
    hide ReadVar, WriteVar;
    if Header(all).Some? {
      HeaderCanonical(all);
      HeaderIsPrefixFree(all, n);
    }
  }

  lemma HeaderSplits(buf: Bytes, t: nat, start: nat, len: nat)
    requires Header(buf) == Some((t, start, len)) && start + len <= |buf|
    ensures SplitTlv(buf) == Ok((t, start, start + len))
  {
    hide ReadVar, WriteVar;
    HeaderCanonical(buf);
  }

  /** The stream ran out before a header parsed. */
  lemma RanOut(all: Bytes)
    requires Header(all).None? && |all| <= 20
    ensures ReadStep(all) == (if all == [] then EndOfStream else Failed(Ended), [])
  {
  }

  /** Twenty-one bytes hold no header. */
  lemma GaveUp(all: Bytes)
    requires |all| >= 21 && Header(all[..21]).None?
    ensures ReadStep(all) == (Failed(Unreadable), all[21..])
  {
    NoHeaderYet(all, 21);
  }

  /** The header ends at `n`, and `len` value bytes follow. */
  lemma HeaderAt(all: Bytes, n: nat, t: nat, start: nat, len: nat)
    requires 0 < n <= |all| && Header(all[..n]) == Some((t, start, len)) && Header(all[..n - 1]).None?
    ensures start == n
    ensures len > MAX_MESSAGE ==> ReadStep(all) == (Failed(TooLong(len)), all[n..])
    ensures len <= MAX_MESSAGE && n + len > |all| ==> ReadStep(all) == (Failed(Ended), [])
    ensures len <= MAX_MESSAGE && n + len <= |all| ==>
              && ReadStep(all) == (Message(t, all[n..n + len]), all[n + len..])
              && SplitTlv(all[..n + len]) == Ok((t, n, n + len))
  {
    hide ReadVar, WriteVar;
    HeaderEndsHere(all, n);
    if n + len <= |all| {
      HeaderIsPrefixFree(all, n + len);
      HeaderSplits(all[..n + len], t, start, len);
    }
  }

  method ReadTlv(recv: RecvStream) returns (r: Read)
    modifies recv
    ensures (r, recv.incoming) == ReadStep(old(recv.incoming))
  {
    hide Header, SplitTlv, ReadStep;
    ghost var all := recv.incoming;
    var buf: Bytes := [];
    assert all[..0] == [];
    NothingHasNoHeader();
    while true
      invariant |buf| <= 20 && |buf| <= |all|
      invariant buf == all[..|buf|] && recv.incoming == all[|buf|..]
      invariant Header(all[..|buf|]).None?
      decreases 21 - |buf|
    {
      if recv.incoming == [] {
        assert buf == all;
        RanOut(all);
        if buf == [] {
          return EndOfStream;
        }
        return Failed(Ended);
      }
      ghost var n := |buf| + 1;
      buf := buf + [recv.incoming[0]];
      recv.incoming := recv.incoming[1..];
      assert buf == all[..n] && recv.incoming == all[n..];
      var header := Header(buf);
      if header.Some? {
        var (t, start, len) := header.value;
        HeaderAt(all, n, t, start, len);
        if len > MAX_MESSAGE {
          return Failed(TooLong(len));
        }
        if len > |recv.incoming| {
          recv.incoming := [];
          return Failed(Ended);
        }
        buf := buf + recv.incoming[..len];
        recv.incoming := recv.incoming[len..];
        assert buf == all[..n + len] && recv.incoming == all[n + len..];
        var (_, valueStart, end) := SplitTlv(buf).value;
        SliceOfPrefix(all, n, n + len, n + len);
        return Message(t, buf[valueStart..end]);
      }
      if |buf| > 20 {
        GaveUp(all);
        return Failed(Unreadable);
      }
    }
  }

  lemma NothingHasNoHeader()
    ensures Header([]) == None
  {
  }

  // ------------------------------------------------------------- what it means

  /** Reading a byte at a time finds exactly what `split_tlv` finds on the whole
      buffer, within the size limit. */
  lemma ReadAgreesWithSplit(incoming: Bytes, t: nat, start: nat, end: nat)
    requires start <= end <= |incoming|
    ensures SplitTlv(incoming) == Ok((t, start, end)) && end - start <= MAX_MESSAGE <==>
            ReadStep(incoming) == (Message(t, incoming[start..end]), incoming[end..])
  {
    hide ReadVar, WriteVar;
    if Header(incoming).Some? {
      HeaderCanonical(incoming);
      var (t', start', len) := Header(incoming).value;
      if len <= MAX_MESSAGE && start' + len <= |incoming| {
        assert |incoming[start'..start' + len]| == len && |incoming[start' + len..]| == |incoming| - start' - len;
      }
      assert |incoming[start..end]| == end - start && |incoming[end..]| == |incoming| - end;
    }
  }

  /** An overlong message is refused at its header. */
  lemma ReadOverlong(t: nat, value: Bytes, rest: Bytes)
    requires t < U64 && MAX_MESSAGE < |value| < U64
    ensures ReadStep(WriteTlv(t, value) + rest) == (Failed(TooLong(|value|)), value + rest)
  {
    var head := WriteVar(t) + WriteVar(|value|);
    HeaderRoundTrip(t, |value|, value + rest);
    Assoc(head, value, rest);
    assert (head + (value + rest))[|head|..] == value + rest;
  }

  lemma ReadWritten(t: nat, value: Bytes, rest: Bytes)
    requires t < U64 && |value| <= MAX_MESSAGE
    ensures ReadStep(WriteTlv(t, value) + rest) == (Message(t, value), rest)
    ensures WriteTlv(t, value) != []
  {
    var head := WriteVar(t) + WriteVar(|value|);
    HeaderRoundTrip(t, |value|, value + rest);
    Assoc(head, value, rest);
    Seams(head, value, rest);
  }

  /** The messages of a stream, up to its end or its first fault. */
  function ReadAll(incoming: Bytes): seq<Field>
    decreases |incoming|
  {
    match ReadStep(incoming)
    case (Message(t, v), rest) => if |rest| < |incoming| then [Field(t, v)] + ReadAll(rest) else []
    case (EndOfStream, _) => []
    case (Failed(_), _) => []
  }

  /** Any list of messages within the limit comes off the stream as it was written. */
  lemma {:induction false} ReadAllWritten(messages: seq<Field>)
    requires forall k :: 0 <= k < |messages| ==> messages[k].t < U64 && |messages[k].value| <= MAX_MESSAGE
    ensures ReadAll(Encoded(messages)) == messages
  {
    if messages != [] {
      ReadWritten(messages[0].t, messages[0].value, Encoded(messages[1..]));
      ReadAllWritten(messages[1..]);
      assert messages == [messages[0]] + messages[1..];
    }
  }

  // ---------------------------------------------------------- the handshake's two messages

  /** `read_message`, then the decoder: the hello at the head of the stream, and the rest. */
  function HelloFrom(incoming: Bytes): Option<(LinkHello, Bytes)> {
    match ReadStep(incoming)
    case (Message(t, v), rest) =>
      if t != LINK_HELLO then None
      else (match HelloOf(v)
            case Err(_) => None
            case Ok(h) => Some((h, rest)))
    case _ => None
  }

  function VerdictFrom(incoming: Bytes): Option<(LinkVerdict, Bytes)> {
    match ReadStep(incoming)
    case (Message(t, v), rest) =>
      if t != LINK_VERDICT then None
      else (match VerdictOf(v)
            case Err(_) => None
            case Ok(h) => Some((h, rest)))
    case _ => None
  }

  /** From encoder through the byte-wise reader to decoder: a hello arrives exactly when
      it is well-formed and within the message limit, which the encoder does not check. */
  lemma HelloArrives(h: LinkHello, rest: Bytes)
    requires |HelloValue(h)| < U64
    ensures HelloFrom(EncodeHello(h) + rest) == Some((h, rest)) <==>
            WellFormedHello(h) && |HelloValue(h)| <= MAX_MESSAGE
  {
    hide ReadStep, HelloOf, HelloValue, WellFormedHello, WriteTlv;
    HelloRoundTrip(h);
    if |HelloValue(h)| <= MAX_MESSAGE {
      ReadWritten(LINK_HELLO, HelloValue(h), rest);
    } else {
      ReadOverlong(LINK_HELLO, HelloValue(h), rest);
    }
  }

  /** Likewise a verdict. */
  lemma VerdictArrives(v: LinkVerdict, rest: Bytes)
    requires |VerdictValue(v)| < U64
    ensures VerdictFrom(EncodeVerdict(v) + rest) == Some((v, rest)) <==>
            WellFormedVerdict(v) && |VerdictValue(v)| <= MAX_MESSAGE
  {
    hide ReadStep, VerdictOf, VerdictValue, WellFormedVerdict, WriteTlv;
    VerdictRoundTrip(v);
    if |VerdictValue(v)| <= MAX_MESSAGE {
      ReadWritten(LINK_VERDICT, VerdictValue(v), rest);
    } else {
      ReadOverlong(LINK_VERDICT, VerdictValue(v), rest);
    }
  }
}
