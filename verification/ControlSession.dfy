/**
 * The control stream after the verdicts (ndn-face-quic/src/link.rs): a
 * coalescing outbox on one side, `Heard` on the other, and in between the
 * bytes in flight. The peer ends up with this side's last words.
 */
module ControlSession {
  import opened Common
  import opened Tlv
  import opened Messages
  import opened ControlStream

  const PRESENCE_NAMESPACES_MAX := 256

  // ------------------------------------------------------------------- the outbox

  datatype Pending = Pending(reachability: Option<Bytes>, presence: seq<(Name, Bytes)>)

  /** Replace the wire queued for `ns` in place, or queue it last. */
  function Queue(q: seq<(Name, Bytes)>, ns: Name, wire: Bytes): seq<(Name, Bytes)> {
    if q == [] then [(ns, wire)]
    else if q[0].0 == ns then [(ns, wire)] + q[1..]
    else [q[0]] + Queue(q[1..], ns, wire)
  }

  lemma {:induction false} QueueAtIndex(q: seq<(Name, Bytes)>, ns: Name, wire: Bytes, i: nat)
    requires i <= |q| && (i < |q| ==> q[i].0 == ns) && forall k :: 0 <= k < i ==> q[k].0 != ns
    ensures Queue(q, ns, wire) == if i < |q| then q[i := (ns, wire)] else q + [(ns, wire)]
  {
    if q != [] && i > 0 {
      QueueAtIndex(q[1..], ns, wire, i - 1);
      assert q == [q[0]] + q[1..];
    }
  }

  function QueuedWires(q: seq<(Name, Bytes)>): seq<Bytes> {
    seq(|q|, i requires 0 <= i < |q| => q[i].1)
  }

  function PendingWires(p: Pending): seq<Bytes> {
    (if p.reachability.Some? then [p.reachability.value] else []) + QueuedWires(p.presence)
  }

  class Outbox {
    var reachability: Option<Bytes>
    var presence: seq<(Name, Bytes)>

    constructor ()
      ensures View() == Pending(None, [])
    {
      reachability, presence := None, [];
    }

    function View(): Pending
      reads this
    {
      Pending(reachability, presence)
    }

    method PutReachability(wire: Bytes)
      modifies this
      ensures View() == old(View()).(reachability := Some(wire))
    {
      reachability := Some(wire);
    }

    method PutPresence(ns: Name, wire: Bytes)
      modifies this
      ensures View() == old(View()).(presence := Queue(old(presence), ns, wire))
    {
      var i := 0;
      while i < |presence| && presence[i].0 != ns
        invariant 0 <= i <= |presence| && presence == old(presence) && reachability == old(reachability)
        invariant forall k :: 0 <= k < i ==> presence[k].0 != ns
      {
        i := i + 1;
      }
      QueueAtIndex(presence, ns, wire, i);
      if i < |presence| {
        presence := presence[i := (ns, wire)];
      } else {
        presence := presence + [(ns, wire)];
      }
    }

    method Take() returns (wires: seq<Bytes>)
      modifies this
      ensures wires == PendingWires(old(View()))
      ensures View() == Pending(None, [])
    {
      wires := PendingWires(View());
      reachability, presence := None, [];
    }
  }

  // --------------------------------------------------------------- what was heard

  /** The values the peer's watchers hold. */
  datatype Peer = Peer(observed: Option<SocketAddr>, reachability: Option<Reachability>, presence: seq<Presence>)

  const SILENT := Peer(None, None, [])

  datatype HearFault = BadMessage(fault: Fault) | TooManyNamespaces | UnknownMessage(t: nat)

  function Position(all: seq<Presence>, ns: Name): (i: nat)
    ensures i <= |all| && (i < |all| ==> all[i].namespace == ns)
    ensures forall k :: 0 <= k < i ==> all[k].namespace != ns
  {
    if all == [] || all[0].namespace == ns then 0 else 1 + Position(all[1..], ns)
  }

  /** The presence list after one message; `None` when it would hold too many. */
  function HearPresence(all: seq<Presence>, p: Presence): Option<seq<Presence>> {
    var at := Position(all, p.namespace);
    if at < |all| then
      Some(if p.devices == [] then all[..at] + all[at + 1..] else all[at := p])
    else if p.devices == [] then Some(all)
    else if |all| >= PRESENCE_NAMESPACES_MAX then None
    else Some(all + [p])
  }

  function HearStep(h: Peer, t: nat, value: Bytes): Result<Peer, HearFault> {
    if t == OBSERVED_ADDRESS then
      match DecodeUdpAddress(value)
      case Err(e) => Err(BadMessage(e))
      case Ok(a) => Ok(h.(observed := Some(a)))
    else if t == REACHABILITY then
      match ReachabilityOf(value)
      case Err(e) => Err(BadMessage(e))
      case Ok(r) => Ok(h.(reachability := Some(r)))
    else if t == PRESENCE then
      match PresenceOf(value)
      case Err(e) => Err(BadMessage(e))
      case Ok(p) =>
        match HearPresence(h.presence, p)
        case None => Err(TooManyNamespaces)
        case Some(all) => Ok(h.(presence := all))
    else if Skippable(t) then Ok(h)
    else Err(UnknownMessage(t))
  }

  /** A message the peer does not know changes nothing if its type is even and above 31,
      and closes the link if not. */
  lemma UnknownMessageMeans(h: Peer, t: nat, value: Bytes)
    requires t !in {OBSERVED_ADDRESS, REACHABILITY, PRESENCE}
    ensures t > 31 && t % 2 == 0 ==> HearStep(h, t, value) == Ok(h)
    ensures t <= 31 || t % 2 == 1 ==> HearStep(h, t, value).Err?
  {
  }

  class Heard {
    var observed: Option<SocketAddr>
    var reachability: Option<Reachability>
    var presence: seq<Presence>

    constructor ()
      ensures View() == SILENT
    {
      observed, reachability, presence := None, None, [];
    }

    function View(): Peer
      reads this
    {
      Peer(observed, reachability, presence)
    }

    /** Take one message; an error closes the link and leaves what was heard. */
    method Take(t: nat, value: Bytes) returns (r: Result<(), HearFault>)
      modifies this
      ensures r.Ok? ==> HearStep(old(View()), t, value) == Ok(View())
      ensures r.Err? ==> HearStep(old(View()), t, value) == Err(r.error) && View() == old(View())
    {
      if t == OBSERVED_ADDRESS {
        var addr := DecodeUdpAddress(value);
        if addr.Err? {
          return Err(BadMessage(addr.error));
        }
        observed := Some(addr.value);
      } else if t == REACHABILITY {
        var reach := DecodeReachability(value);
        if reach.Err? {
          return Err(BadMessage(reach.error));
        }
        reachability := Some(reach.value);
      } else if t == PRESENCE {
        var decoded := DecodePresence(value);
        if decoded.Err? {
          return Err(BadMessage(decoded.error));
        }
        var p := decoded.value;
        var at := Position(presence, p.namespace);
        if at < |presence| {
          if p.devices == [] {
            presence := presence[..at] + presence[at + 1..];
          } else {
            presence := presence[at := p];
          }
        } else if p.devices != [] {
          if |presence| >= PRESENCE_NAMESPACES_MAX {
            return Err(TooManyNamespaces);
          }
          presence := presence + [p];
        }
      } else if !Skippable(t) {
        return Err(UnknownMessage(t));
      }
      return Ok(());
    }
  }

  // ------------------------------------------------------ both ends of one link

  /** What happens on a link, in any order. */
  datatype Event =
    | SendReachability(r: Reachability)
    | SendPresence(p: Presence)
    | Flush(now: SocketAddr)  // one turn of the `tell` loop
    | Hear                    // one turn of the `hear` loop

  /** The sender's outbox and last address told, the bytes in flight, the peer. */
  datatype Link = Link(pending: Pending, told: Option<SocketAddr>, stream: Bytes, peer: Peer, up: bool)

  const NEW_LINK := Link(Pending(None, []), None, [], SILENT, true)

  /** `send_presence` refuses what is over the limit of a link message. */
  predicate Sendable(p: Presence) {
    |EncodePresence(p)| <= MAX_MESSAGE
  }

  function LinkStep(l: Link, e: Event): Link {
    match e
    case SendReachability(r) =>
      if WellFormedReachability(r) then
        l.(pending := l.pending.(reachability := Some(EncodeReachability(r))))
      else l
    case SendPresence(p) =>
      if Sendable(p) then
        l.(pending := l.pending.(presence := Queue(l.pending.presence, p.namespace, EncodePresence(p))))
      else l
    case Flush(now) =>
      var addr := Canonical(now);
      var news := if l.told != Some(addr) then EncodeObservedAddress(addr) else [];
      l.(told := Some(addr), stream := l.stream + news + Flatten(PendingWires(l.pending)), pending := Pending(None, []))
    case Hear =>
      if !l.up then l
      else match ReadStep(l.stream)
           case (Message(t, v), rest) =>
             (match HearStep(l.peer, t, v)
              case Err(_) => l.(stream := rest, up := false)
              case Ok(h) => l.(stream := rest, peer := h))
           case (EndOfStream, _) => l
           case (Failed(_), rest) => l.(stream := rest, up := false)
  }

  function LinkRun(events: seq<Event>): Link {
    if events == [] then NEW_LINK else LinkStep(LinkRun(events[..|events| - 1]), events[|events| - 1])
  }

  /** What the caller's types already promise. */
  predicate ValidEvent(e: Event) {
    match e
    case SendReachability(_) => true
    case SendPresence(p) => WellFormedPresence(p)
    case Flush(now) => ValidAddr(now)
    case Hear => true
  }

  // ------------------------------------------------------------------ a link that fails

  function LinkFrom(l: Link, events: seq<Event>): Link
    decreases |events|
  {
    if events == [] then l else LinkFrom(LinkStep(l, events[0]), events[1..])
  }

  /** The next thing on the stream is no message, or one the peer must not take. */
  ghost predicate Broken(l: Link) {
    match ReadStep(l.stream).0
    case Message(t, v) => HearStep(l.peer, t, v).Err?
    case EndOfStream => false
    case Failed(_) => true
  }

  /** Such a stream closes the link, at once and for good, and what was heard before it
      is what stays heard. */
  lemma FaultClosesForGood(l: Link, later: seq<Event>)
    requires l.up && Broken(l)
    ensures !LinkFrom(LinkStep(l, Hear), later).up && LinkFrom(LinkStep(l, Hear), later).peer == l.peer
  {
    hide ReadStep, HearStep;
    DownStaysDown(LinkStep(l, Hear), later);
  }

  lemma {:induction false} DownStaysDown(l: Link, later: seq<Event>)
    requires !l.up
    ensures !LinkFrom(l, later).up && LinkFrom(l, later).peer == l.peer
    decreases |later|
  {
    hide ReadStep, HearStep, Sendable, WellFormedReachability, Queue, PendingWires, Flatten;
    if later != [] {
      DownStaysDown(LinkStep(l, later[0]), later[1..]);
    }
  }

  /** Presence is queued unless its message is over 65536 bytes; then nothing changes. */
  lemma PresenceIsQueuedIff(l: Link, p: Presence)
    ensures |EncodePresence(p)| > 0x1_0000 ==> LinkStep(l, SendPresence(p)) == l
    ensures |EncodePresence(p)| <= 0x1_0000 ==>
              && LinkStep(l, SendPresence(p)).pending.reachability == l.pending.reachability
              && (p.namespace, EncodePresence(p)) in LinkStep(l, SendPresence(p)).pending.presence
  {
    hide EncodePresence;
    QueuedIsThere(l.pending.presence, p.namespace, EncodePresence(p));
  }

  lemma QueuedIsThere(q: seq<(Name, Bytes)>, ns: Name, wire: Bytes)
    ensures (ns, wire) in Queue(q, ns, wire)
  {
  }

  // ------------------------------------------------------------- this side's last words

  function LastReachability(events: seq<Event>): Option<Reachability> {
    if events == [] then None
    else
      var e := events[|events| - 1];
      if e.SendReachability? && WellFormedReachability(e.r) then Some(e.r)
      else LastReachability(events[..|events| - 1])
  }

  function LastPresence(events: seq<Event>, ns: Name): Option<Presence> {
    if events == [] then None
    else
      var e := events[|events| - 1];
      if e.SendPresence? && Sendable(e.p) && e.p.namespace == ns then Some(e.p)
      else LastPresence(events[..|events| - 1], ns)
  }

  function LastAddress(events: seq<Event>): Option<SocketAddr> {
    if events == [] then None
    else
      var e := events[|events| - 1];
      if e.Flush? then Some(Canonical(e.now)) else LastAddress(events[..|events| - 1])
  }

  function Namespaces(events: seq<Event>): set<Name> {
    if events == [] then {}
    else
      var e := events[|events| - 1];
      Namespaces(events[..|events| - 1]) + (if e.SendPresence? && Sendable(e.p) then {e.p.namespace} else {})
  }

  // ------------------------------------------------------ the same link over messages

  datatype Msg = Address(a: SocketAddr) | Reach(r: Reachability) | Present(p: Presence)

  function MsgField(m: Msg): Field {
    match m
    case Address(a) => Field(OBSERVED_ADDRESS, EncodeUdpAddress(a))
    case Reach(r) => Field(REACHABILITY, ReachabilityValue(r))
    case Present(p) => Field(PRESENCE, PresenceValue(p))
  }

  predicate GoodMsg(m: Msg) {
    match m
    case Address(a) => ValidAddr(a) && a == Canonical(a)
    case Reach(r) => WellFormedReachability(r)
    case Present(p) => WellFormedPresence(p) && Sendable(p)
  }

  function HearMsg(h: Peer, m: Msg): Option<Peer> {
    match m
    case Address(a) => Some(h.(observed := Some(a)))
    case Reach(r) => Some(h.(reachability := Some(r)))
    case Present(p) =>
      match HearPresence(h.presence, p)
      case None => None
      case Some(all) => Some(h.(presence := all))
  }

  lemma ReachabilityIsShort(r: Reachability)
    requires WellFormedReachability(r)
    ensures |ReachabilityValue(r)| <= MAX_MESSAGE
  {
    var hold := if r.hold then [Field(HOLD_INTERESTS, [])] else [];
    var token := if r.wakeToken.Some? then [Field(WAKE_TOKEN, r.wakeToken.value)] else [];
    EncodedAppend(hold, token);
    if r.hold { EncodedOne(hold[0]); }
    if r.wakeToken.Some? { EncodedOne(token[0]); }
  }

  lemma PresenceIsShort(p: Presence)
    requires Sendable(p)
    ensures |PresenceValue(p)| <= MAX_MESSAGE
  {
  }

  /** A message written whole is heard as it was meant. */
  lemma HearWritten(h: Peer, m: Msg, rest: Bytes)
    requires GoodMsg(m)
    ensures ReadStep(MsgField(m).Whole() + rest) == (Message(MsgField(m).t, MsgField(m).value), rest)
    ensures match HearMsg(h, m)
            case None => HearStep(h, MsgField(m).t, MsgField(m).value).Err?
            case Some(h') => HearStep(h, MsgField(m).t, MsgField(m).value) == Ok(h')
  {
    hide WriteTlv, Encoded, DecodeUdpAddress, EncodeUdpAddress, ReachabilityOf, ReachabilityValue, PresenceOf,
      PresenceValue, Canonical, ReadStep, HearPresence, WellFormedPresence, Sendable, WellFormedReachability;
    match m
    case Address(a) =>
      AddressRoundTrip(a);
      AddressIsShort(a);
      ReadWritten(OBSERVED_ADDRESS, EncodeUdpAddress(a), rest);
    case Reach(r) =>
      ReachabilityIsShort(r);
      ReachabilityRoundTrip(r);
      ReadWritten(REACHABILITY, ReachabilityValue(r), rest);
    case Present(p) =>
      PresenceIsShort(p);
      PresenceRoundTrip(p);
      ReadWritten(PRESENCE, PresenceValue(p), rest);
  }

  lemma AddressIsShort(a: SocketAddr)
    requires ValidAddr(a)
    ensures |EncodeUdpAddress(a)| <= 18
  {
  }

  /** The link with messages for bytes: queued, in flight, heard. */
  datatype Talk = Talk(reach: Option<Reachability>, presence: seq<Presence>, told: Option<SocketAddr>,
                       flight: seq<Msg>, peer: Peer, up: bool)

  const NEW_TALK := Talk(None, [], None, [], SILENT, true)

  function QueueMsg(q: seq<Presence>, p: Presence): seq<Presence> {
    if q == [] then [p]
    else if q[0].namespace == p.namespace then [p] + q[1..]
    else [q[0]] + QueueMsg(q[1..], p)
  }

  function Presents(q: seq<Presence>): seq<Msg> {
    seq(|q|, i requires 0 <= i < |q| => Present(q[i]))
  }

  function Reaches(r: Option<Reachability>): seq<Msg> {
    if r.Some? then [Reach(r.value)] else []
  }

  function News(told: Option<SocketAddr>, addr: SocketAddr): seq<Msg> {
    if told != Some(addr) then [Address(addr)] else []
  }

  function TalkStep(a: Talk, e: Event): Talk {
    match e
    case SendReachability(r) => if WellFormedReachability(r) then a.(reach := Some(r)) else a
    case SendPresence(p) => if Sendable(p) then a.(presence := QueueMsg(a.presence, p)) else a
    case Flush(now) =>
      var addr := Canonical(now);
      a.(told := Some(addr), reach := None, presence := [],
         flight := a.flight + (News(a.told, addr) + (Reaches(a.reach) + Presents(a.presence))))
    case Hear =>
      if !a.up || a.flight == [] then a
      else match HearMsg(a.peer, a.flight[0])
           case None => a.(flight := a.flight[1..], up := false)
           case Some(h) => a.(flight := a.flight[1..], peer := h)
  }

  function TalkRun(events: seq<Event>): Talk {
    if events == [] then NEW_TALK else TalkStep(TalkRun(events[..|events| - 1]), events[|events| - 1])
  }

  function MsgFields(ms: seq<Msg>): seq<Field> {
    seq(|ms|, i requires 0 <= i < |ms| => MsgField(ms[i]))
  }

  /** The bytes of the messages in flight. */
  function WireOf(ms: seq<Msg>): Bytes {
    Encoded(MsgFields(ms))
  }

  function Pairs(q: seq<Presence>): seq<(Name, Bytes)> {
    seq(|q|, i requires 0 <= i < |q| => (q[i].namespace, EncodePresence(q[i])))
  }

  /** The byte-level link stands for the message-level one. */
  ghost predicate StandsFor(l: Link, a: Talk) {
    && l.pending.reachability == (if a.reach.Some? then Some(EncodeReachability(a.reach.value)) else None)
    && l.pending.presence == Pairs(a.presence)
    && l.told == a.told && l.peer == a.peer && l.up == a.up
    && l.stream == WireOf(a.flight)
    && (a.reach.Some? ==> WellFormedReachability(a.reach.value))
    && (forall k :: 0 <= k < |a.presence| ==> GoodMsg(Present(a.presence[k])))
    && (forall k :: 0 <= k < |a.flight| ==> GoodMsg(a.flight[k]))
  }

  lemma {:induction false} QueuePairs(q: seq<Presence>, p: Presence)
    ensures Queue(Pairs(q), p.namespace, EncodePresence(p)) == Pairs(QueueMsg(q, p))
  {
    hide EncodePresence;
    if q != [] {
      QueuePairs(q[1..], p);
      assert Pairs(q)[1..] == Pairs(q[1..]);
      assert Pairs(QueueMsg(q, p))[0] == Queue(Pairs(q), p.namespace, EncodePresence(p))[0];
      if q[0].namespace == p.namespace {
        assert Pairs(QueueMsg(q, p))[1..] == Pairs(q[1..]);
      } else {
        assert QueueMsg(q, p)[1..] == QueueMsg(q[1..], p);
        assert Pairs(QueueMsg(q, p))[1..] == Pairs(QueueMsg(q[1..], p));
      }
    } else {
      assert Pairs(QueueMsg(q, p)) == [(p.namespace, EncodePresence(p))];
    }
  }

  lemma {:induction false} QueueMembers(q: seq<Presence>, p: Presence)
    ensures forall k :: 0 <= k < |QueueMsg(q, p)| ==> QueueMsg(q, p)[k] == p || QueueMsg(q, p)[k] in q
  {
    if q != [] {
      QueueMembers(q[1..], p);
    }
  }

  lemma WireAppend(a: seq<Msg>, b: seq<Msg>)
    ensures WireOf(a + b) == WireOf(a) + WireOf(b)
  {
    hide MsgField, Encoded;
    EncodedAppend(MsgFields(a), MsgFields(b));
    assert MsgFields(a + b) == MsgFields(a) + MsgFields(b);
  }

  lemma WireOne(m: Msg)
    ensures WireOf([m]) == MsgField(m).Whole()
  {
    assert MsgFields([m]) == [MsgField(m)];
    EncodedOne(MsgField(m));
  }

  lemma PresentWire(p: Presence)
    ensures WireOf([Present(p)]) == EncodePresence(p)
  {
    WireOne(Present(p));
  }

  lemma {:induction false} FlattenPresents(q: seq<Presence>)
    ensures Flatten(QueuedWires(Pairs(q))) == WireOf(Presents(q))
  {
    hide WireOf, EncodePresence;
    if q == [] {
      NoWire();
    } else {
      FlattenPresents(q[1..]);
      var w := QueuedWires(Pairs(q));
      PresentWire(q[0]);
      assert w[1..] == QueuedWires(Pairs(q[1..]));
      WireAppend([Present(q[0])], Presents(q[1..]));
      assert Presents(q) == [Present(q[0])] + Presents(q[1..]);
    }
  }

  lemma FlattenPending(r: Option<Reachability>, q: seq<Presence>)
    ensures Flatten(PendingWires(Pending(if r.Some? then Some(EncodeReachability(r.value)) else None, Pairs(q)))) ==
            WireOf(Reaches(r) + Presents(q))
  {
    hide EncodePresence, EncodeReachability, Encoded;
    FlattenPresents(q);
    WireAppend(Reaches(r), Presents(q));
    if r.Some? {
      ReachWire(r.value);
      FlattenAppend([EncodeReachability(r.value)], QueuedWires(Pairs(q)));
      assert [EncodeReachability(r.value)][1..] == [];
      assert EncodeReachability(r.value) + [] == EncodeReachability(r.value);
    } else {
      assert [] + QueuedWires(Pairs(q)) == QueuedWires(Pairs(q));
      assert [] + Presents(q) == Presents(q);
    }
  }

  lemma ReachWire(r: Reachability)
    ensures WireOf([Reach(r)]) == EncodeReachability(r)
  {
    WireOne(Reach(r));
  }

  lemma NewsWire(told: Option<SocketAddr>, addr: SocketAddr)
    ensures WireOf(News(told, addr)) == if told != Some(addr) then EncodeObservedAddress(addr) else []
  {
    if told != Some(addr) {
      WireOne(Address(addr));
    }
  }

  lemma CanonicalIsCanonical(a: SocketAddr)
    requires ValidAddr(a)
    ensures ValidAddr(Canonical(a)) && Canonical(Canonical(a)) == Canonical(a)
  {
  }

  lemma FlushRefines(l: Link, a: Talk, now: SocketAddr)
    requires StandsFor(l, a) && ValidAddr(now)
    ensures StandsFor(LinkStep(l, Flush(now)), TalkStep(a, Flush(now)))
  {
    hide WireOf, EncodePresence, EncodeReachability, EncodeObservedAddress, ReadStep, Canonical, Flatten,
      WellFormedPresence, Sendable, WellFormedReachability, PendingWires, Pairs;
    var addr := Canonical(now);
    CanonicalIsCanonical(now);
    var queued := Reaches(a.reach) + Presents(a.presence);
    FlattenPending(a.reach, a.presence);
    NewsWire(a.told, addr);
    WireAppend(a.flight, News(a.told, addr) + queued);
    WireAppend(News(a.told, addr), queued);
    Assoc(WireOf(a.flight), WireOf(News(a.told, addr)), WireOf(queued));
    NoPairs();
  }

  lemma NoPairs()
    ensures Pairs([]) == []
  {
  }

  lemma HearRefines(l: Link, a: Talk)
    requires StandsFor(l, a)
    ensures StandsFor(LinkStep(l, Hear), TalkStep(a, Hear))
  {
    hide MsgField, HearMsg, HearStep, ReadStep, EncodePresence, EncodeReachability, GoodMsg, WellFormedReachability;
    if a.flight == [] {
      NoWire();
    } else {
      var m, rest := a.flight[0], a.flight[1..];
      assert a.flight == [m] + rest;
      WireAppend([m], rest);
      WireOne(m);
      HearWritten(a.peer, m, WireOf(rest));
    }
  }

  lemma NoWire()
    ensures WireOf([]) == [] && ReadStep([]) == (EndOfStream, [])
  {
  }

  lemma SendRefines(l: Link, a: Talk, e: Event)
    requires StandsFor(l, a) && ValidEvent(e) && (e.SendReachability? || e.SendPresence?)
    ensures StandsFor(LinkStep(l, e), TalkStep(a, e))
  {
    hide WireOf, EncodePresence, EncodeReachability, Sendable, WellFormedPresence, WellFormedReachability;
    if e.SendPresence? {
      QueuePairs(a.presence, e.p);
      QueueMembers(a.presence, e.p);
      forall k | 0 <= k < |QueueMsg(a.presence, e.p)| && Sendable(e.p)
        ensures GoodMsg(Present(QueueMsg(a.presence, e.p)[k]))
      {
        if QueueMsg(a.presence, e.p)[k] in a.presence {
          var i :| 0 <= i < |a.presence| && a.presence[i] == QueueMsg(a.presence, e.p)[k];
        }
      }
    }
  }

  /** Bytes in flight never come apart: the byte-level link goes exactly the way
      the message-level one does. */
  lemma {:induction false} LinkRefinesTalk(events: seq<Event>)
    requires forall k :: 0 <= k < |events| ==> ValidEvent(events[k])
    ensures StandsFor(LinkRun(events), TalkRun(events))
  {
    hide StandsFor, LinkStep, TalkStep;
    if events == [] {
      StartStandsFor();
    } else {
      var n := |events| - 1;
      var e := events[n];
      LinkRefinesTalk(events[..n]);
      match e
      case Flush(now) => FlushRefines(LinkRun(events[..n]), TalkRun(events[..n]), now);
      case Hear => HearRefines(LinkRun(events[..n]), TalkRun(events[..n]));
      case SendReachability(_) => SendRefines(LinkRun(events[..n]), TalkRun(events[..n]), e);
      case SendPresence(_) => SendRefines(LinkRun(events[..n]), TalkRun(events[..n]), e);
    }
  }

  lemma StartStandsFor()
    ensures StandsFor(NEW_LINK, NEW_TALK)
  {
  }

  // ---------------------------------------------------------------- convergence

  ghost predicate DistinctNamespaces(q: seq<Presence>) {
    forall i, j :: 0 <= i < j < |q| ==> q[i].namespace != q[j].namespace
  }

  /** What a list says of `ns`. */
  function PresenceAt(q: seq<Presence>, ns: Name): Option<Presence> {
    if Position(q, ns) < |q| then Some(q[Position(q, ns)]) else None
  }

  function LastInFlight(ms: seq<Msg>, ns: Name): Option<Presence> {
    if ms == [] then None
    else
      var later := LastInFlight(ms[1..], ns);
      if later.Some? then later
      else if ms[0].Present? && ms[0].p.namespace == ns then Some(ms[0].p)
      else None
  }

  function LastReachIn(ms: seq<Msg>): Option<Reachability> {
    if ms == [] then None
    else
      var later := LastReachIn(ms[1..]);
      if later.Some? then later else if ms[0].Reach? then Some(ms[0].r) else None
  }

  function LastAddressIn(ms: seq<Msg>): Option<SocketAddr> {
    if ms == [] then None
    else
      var later := LastAddressIn(ms[1..]);
      if later.Some? then later else if ms[0].Address? then Some(ms[0].a) else None
  }

  function Or<T>(first: Option<T>, second: Option<T>): Option<T> {
    if first.Some? then first else second
  }

  /** An empty list says no device is present, as no list does. */
  function Live(p: Option<Presence>): Option<Presence> {
    if p.Some? && p.value.devices == [] then None else p
  }

  /** What the peer will hold of `ns` once everything is heard. */
  function Coming(a: Talk, ns: Name): Option<Presence> {
    Live(Or(PresenceAt(a.presence, ns), Or(LastInFlight(a.flight, ns), PresenceAt(a.peer.presence, ns))))
  }

  ghost predicate Within(q: seq<Presence>, names: set<Name>) {
    forall k :: 0 <= k < |q| ==> q[k].namespace in names
  }

  /** Nothing is lost on the way, and the peer's list is tidy. */
  ghost predicate OnCourse(events: seq<Event>, a: Talk) {
    && a.up
    && DistinctNamespaces(a.presence)
    && DistinctNamespaces(a.peer.presence)
    && (forall k :: 0 <= k < |a.peer.presence| ==> a.peer.presence[k].devices != [])
    && Within(a.presence, Namespaces(events))
    && Within(a.peer.presence, Namespaces(events))
    && (forall k :: 0 <= k < |a.flight| && a.flight[k].Present? ==> a.flight[k].p.namespace in Namespaces(events))
    && (forall ns :: Coming(a, ns) == Live(LastPresence(events, ns)))
    && Or(a.reach, Or(LastReachIn(a.flight), a.peer.reachability)) == LastReachability(events)
    && a.told == LastAddress(events)
    && Or(LastAddressIn(a.flight), a.peer.observed) == a.told
  }

  lemma AtIndex(q: seq<Presence>, i: nat)
    requires DistinctNamespaces(q) && i < |q|
    ensures PresenceAt(q, q[i].namespace) == Some(q[i])
  {
  }

  lemma AtNowhere(q: seq<Presence>, ns: Name)
    requires forall k :: 0 <= k < |q| ==> q[k].namespace != ns
    ensures PresenceAt(q, ns) == None
  {
  }

  /** A list with the same entry for `ns`, or none either, says the same of it. */
  lemma SameAt(q: seq<Presence>, q': seq<Presence>, ns: Name)
    requires DistinctNamespaces(q) && DistinctNamespaces(q')
    requires forall k :: 0 <= k < |q| && q[k].namespace == ns ==> q[k] in q'
    requires forall k :: 0 <= k < |q'| && q'[k].namespace == ns ==> q'[k] in q
    ensures PresenceAt(q', ns) == PresenceAt(q, ns)
  {
    if k :| 0 <= k < |q| && q[k].namespace == ns {
      AtIndex(q, k);
      var j :| 0 <= j < |q'| && q'[j] == q[k];
      AtIndex(q', j);
    } else {
      AtNowhere(q, ns);
      AtNowhere(q', ns);
    }
  }

  /** `QueueMsg` by index: one entry replaced, or one added. */
  lemma {:induction false} QueueMsgIs(q: seq<Presence>, p: Presence)
    ensures var at := Position(q, p.namespace);
            QueueMsg(q, p) == if at < |q| then q[at := p] else q + [p]
  {
    if q != [] && q[0].namespace != p.namespace {
      QueueMsgIs(q[1..], p);
      assert q == [q[0]] + q[1..];
    }
  }

  /** An entry replaced or added: it alone changes what the list says. */
  lemma PutAt(q: seq<Presence>, p: Presence, ns: Name)
    requires DistinctNamespaces(q)
    ensures var at := Position(q, p.namespace);
            var q' := if at < |q| then q[at := p] else q + [p];
            && DistinctNamespaces(q')
            && PresenceAt(q', ns) == (if ns == p.namespace then Some(p) else PresenceAt(q, ns))
  {
    var at := Position(q, p.namespace);
    var q' := if at < |q| then q[at := p] else q + [p];
    assert q'[at] == p;
    if ns == p.namespace {
      AtIndex(q', at);
    } else {
      assert forall k :: 0 <= k < |q| && k != at ==> q'[k] == q[k];
      SameAt(q, q', ns);
    }
  }

  /** An entry removed: the list says nothing of its namespace any more. */
  lemma RemoveAt(q: seq<Presence>, at: nat, ns: Name)
    requires DistinctNamespaces(q) && at < |q|
    ensures var q' := q[..at] + q[at + 1..];
            && DistinctNamespaces(q')
            && PresenceAt(q', ns) == (if ns == q[at].namespace then None else PresenceAt(q, ns))
  {
    var q' := q[..at] + q[at + 1..];
    assert forall k :: 0 <= k < |q'| ==> q'[k] == if k < at then q[k] else q[k + 1];
    if ns == q[at].namespace {
      AtNowhere(q', ns);
    } else {
      forall k | 0 <= k < |q| && q[k].namespace == ns
        ensures q[k] in q'
      {
        assert q[k] == if k < at then q'[k] else q'[k - 1];
      }
      SameAt(q, q', ns);
    }
  }

  ghost predicate Tidy(q: seq<Presence>) {
    DistinctNamespaces(q) && forall k :: 0 <= k < |q| ==> q[k].devices != []
  }

  lemma HearPresenceAt(q: seq<Presence>, p: Presence, ns: Name)
    requires Tidy(q) && HearPresence(q, p).Some?
    ensures Tidy(HearPresence(q, p).value)
    ensures Live(PresenceAt(HearPresence(q, p).value, ns)) ==
            Live(if ns == p.namespace then Some(p) else PresenceAt(q, ns))
  {
    var at := Position(q, p.namespace);
    if p.devices == [] && at < |q| {
      RemoveAt(q, at, ns);
    } else if p.devices != [] {
      PutAt(q, p, ns);
    } else {
      AtNowhere(q, p.namespace);
    }
  }

  lemma {:induction false} NamespaceCount(q: seq<Presence>, names: set<Name>)
    requires DistinctNamespaces(q) && Within(q, names)
    ensures |q| <= |names|
  {
    if q != [] {
      var rest := q[1..];
      assert forall k :: 0 <= k < |rest| ==> rest[k] == q[k + 1];
      NamespaceCount(rest, names - {q[0].namespace});
    }
  }

  /** Among at most 256 namespaces the list is never full for a new one. */
  lemma NeverFull(q: seq<Presence>, p: Presence, names: set<Name>)
    requires DistinctNamespaces(q) && Within(q, names) && p.namespace in names
    requires |names| <= PRESENCE_NAMESPACES_MAX
    ensures HearPresence(q, p).Some?
    ensures Within(HearPresence(q, p).value, names)
  {
    if Position(q, p.namespace) == |q| {
      NamespaceCount(q, names - {p.namespace});
    }
  }

  lemma {:induction false} LastInFlightAppend(a: seq<Msg>, b: seq<Msg>, ns: Name)
    ensures LastInFlight(a + b, ns) == Or(LastInFlight(b, ns), LastInFlight(a, ns))
    ensures LastReachIn(a + b) == Or(LastReachIn(b), LastReachIn(a))
    ensures LastAddressIn(a + b) == Or(LastAddressIn(b), LastAddressIn(a))
  {
    if a == [] {
      assert a + b == b;
    } else {
      assert (a + b)[0] == a[0] && (a + b)[1..] == a[1..] + b;
      LastInFlightAppend(a[1..], b, ns);
    }
  }

  lemma {:induction false} LastOfPresents(q: seq<Presence>, ns: Name)
    requires DistinctNamespaces(q)
    ensures LastInFlight(Presents(q), ns) == PresenceAt(q, ns)
    ensures LastReachIn(Presents(q)) == None && LastAddressIn(Presents(q)) == None
  {
    if q != [] {
      LastOfPresents(q[1..], ns);
      assert Presents(q)[1..] == Presents(q[1..]);
      assert forall k :: 0 <= k < |q[1..]| ==> q[1..][k] == q[k + 1];
      if q[0].namespace == ns {
        AtNowhere(q[1..], ns);
      }
    }
  }

  lemma LastWords(before: seq<Event>, e: Event, ns: Name)
    ensures LastPresence(before + [e], ns) ==
            if e.SendPresence? && Sendable(e.p) && e.p.namespace == ns then Some(e.p) else LastPresence(before, ns)
    ensures LastReachability(before + [e]) ==
            if e.SendReachability? && WellFormedReachability(e.r) then Some(e.r) else LastReachability(before)
    ensures LastAddress(before + [e]) == if e.Flush? then Some(Canonical(e.now)) else LastAddress(before)
    ensures Namespaces(before + [e]) ==
            Namespaces(before) + (if e.SendPresence? && Sendable(e.p) then {e.p.namespace} else {})
  {
    Appended(before, e);
  }

  /** A flush moves what is queued into flight; nothing comes out different. */
  lemma FlushComing(a: Talk, now: SocketAddr, ns: Name)
    requires DistinctNamespaces(a.presence)
    ensures Coming(TalkStep(a, Flush(now)), ns) == Coming(a, ns)
  {
    hide Live, PresenceAt, DistinctNamespaces, LastInFlight;
    FlushedLast(a, Canonical(now), ns);
    NothingAt(ns);
  }

  lemma FlushOnCourse(before: seq<Event>, a: Talk, now: SocketAddr)
    requires OnCourse(before, a)
    ensures OnCourse(before + [Flush(now)], TalkStep(a, Flush(now)))
  {
    hide Coming, Live, PresenceAt, DistinctNamespaces, LastPresence, LastReachability, LastAddress, Namespaces,
      LastReachIn, LastAddressIn, Canonical;
    forall ns
      ensures Coming(TalkStep(a, Flush(now)), ns) == Live(LastPresence(before + [Flush(now)], ns))
    {
      FlushComing(a, now, ns);
      LastWords(before, Flush(now), ns);
    }
    LastWords(before, Flush(now), []);
    FlushedLast(a, Canonical(now), []);
    FlushedWithin(a, Canonical(now), Namespaces(before));
    NoneDistinct();
  }

  lemma FlushedWithin(a: Talk, addr: SocketAddr, names: set<Name>)
    requires Within(a.presence, names)
    requires forall k :: 0 <= k < |a.flight| && a.flight[k].Present? ==> a.flight[k].p.namespace in names
    ensures var flight := a.flight + (News(a.told, addr) + (Reaches(a.reach) + Presents(a.presence)));
            forall k :: 0 <= k < |flight| && flight[k].Present? ==> flight[k].p.namespace in names
  {
    var news, queued := News(a.told, addr), Reaches(a.reach) + Presents(a.presence);
    assert forall k :: 0 <= k < |queued| && queued[k].Present? ==> queued[k].p.namespace in names;
    assert forall k :: 0 <= k < |news + queued| && (news + queued)[k].Present? ==> (news + queued)[k] in queued;
  }

  lemma NoneDistinct()
    ensures DistinctNamespaces([])
  {
  }

  lemma NothingAt(ns: Name)
    ensures PresenceAt([], ns) == None
  {
  }

  /** What is last in flight after a flush. */
  lemma FlushedLast(a: Talk, addr: SocketAddr, ns: Name)
    requires DistinctNamespaces(a.presence)
    ensures var flight := a.flight + (News(a.told, addr) + (Reaches(a.reach) + Presents(a.presence)));
            && LastInFlight(flight, ns) == Or(PresenceAt(a.presence, ns), LastInFlight(a.flight, ns))
            && LastReachIn(flight) == Or(a.reach, LastReachIn(a.flight))
            && LastAddressIn(flight) == (if a.told != Some(addr) then Some(addr) else LastAddressIn(a.flight))
  {
    hide PresenceAt, DistinctNamespaces;
    var queued := Reaches(a.reach) + Presents(a.presence);
    LastOfPresents(a.presence, ns);
    LastInFlightAppend(Reaches(a.reach), Presents(a.presence), ns);
    LastInFlightAppend(News(a.told, addr), queued, ns);
    LastInFlightAppend(a.flight, News(a.told, addr) + queued, ns);
  }

  lemma Appended(before: seq<Event>, e: Event)
    ensures (before + [e])[..|before + [e]| - 1] == before
    ensures (before + [e])[|before + [e]| - 1] == e
  {
  }

  lemma SendOnCourse(before: seq<Event>, a: Talk, e: Event)
    requires OnCourse(before, a) && (e.SendReachability? || e.SendPresence?)
    ensures OnCourse(before + [e], TalkStep(a, e))
  {
    hide Live, PresenceAt, Position, Sendable, QueueMsg;
    var events := before + [e];
    Appended(before, e);
    var a' := TalkStep(a, e);
    if e.SendPresence? && Sendable(e.p) {
      QueueMsgIs(a.presence, e.p);
      QueueMembers(a.presence, e.p);
      PutAt(a.presence, e.p, e.p.namespace);
      forall ns
        ensures Coming(a', ns) == Live(LastPresence(events, ns))
      {
        PutAt(a.presence, e.p, ns);
        assert Coming(a, ns) == Live(LastPresence(before, ns));
      }
    } else {
      forall ns
        ensures Coming(a', ns) == Live(LastPresence(events, ns))
      {
        assert Coming(a, ns) == Live(LastPresence(before, ns));
      }
    }
  }

  /** Hearing the first message in flight leaves what is coming. */
  lemma HearComing(a: Talk, ns: Name)
    requires a.up && a.flight != [] && Tidy(a.peer.presence) && HearMsg(a.peer, a.flight[0]).Some?
    ensures Coming(TalkStep(a, Hear), ns) == Coming(a, ns)
    ensures Tidy(TalkStep(a, Hear).peer.presence)
  {
    hide PresenceAt, HearPresence, Tidy;
    var m := a.flight[0];
    if m.Present? {
      HearPresenceAt(a.peer.presence, m.p, ns);
    }
  }

  lemma HearOnCourse(before: seq<Event>, a: Talk)
    requires OnCourse(before, a) && |Namespaces(before)| <= PRESENCE_NAMESPACES_MAX
    ensures OnCourse(before + [Hear], TalkStep(a, Hear))
  {
    hide Coming, Live, PresenceAt, HearPresence, LastPresence, LastReachability, LastAddress, Namespaces;
    LastWords(before, Hear, []);
    if a.flight != [] {
      var m := a.flight[0];
      if m.Present? {
        NeverFull(a.peer.presence, m.p, Namespaces(before));
      }
      HearComing(a, []);
    }
    forall ns
      ensures Coming(TalkStep(a, Hear), ns) == Live(LastPresence(before + [Hear], ns))
    {
      if a.flight != [] {
        HearComing(a, ns);
      }
      LastWords(before, Hear, ns);
    }
  }

  lemma NamespacesGrow(before: seq<Event>, e: Event)
    ensures Namespaces(before) <= Namespaces(before + [e])
    ensures |Namespaces(before)| <= |Namespaces(before + [e])|
  {
    Appended(before, e);
    SubsetSize(Namespaces(before), Namespaces(before + [e]));
  }

  lemma {:induction false} SubsetSize(a: set<Name>, b: set<Name>)
    requires a <= b
    ensures |a| <= |b|
  {
    if x :| x in a {
      SubsetSize(a - {x}, b - {x});
    }
  }

  lemma {:induction false} StaysOnCourse(events: seq<Event>)
    requires |Namespaces(events)| <= PRESENCE_NAMESPACES_MAX
    ensures OnCourse(events, TalkRun(events))
  {
    hide OnCourse, TalkStep, Namespaces;
    if events == [] {
      StartsOnCourse();
    } else {
      var n := |events| - 1;
      var before, e := events[..n], events[n];
      assert events == before + [e];
      NamespacesGrow(before, e);
      StaysOnCourse(before);
      match e
      case Flush(now) => FlushOnCourse(before, TalkRun(before), now);
      case Hear => HearOnCourse(before, TalkRun(before));
      case SendReachability(_) => SendOnCourse(before, TalkRun(before), e);
      case SendPresence(_) => SendOnCourse(before, TalkRun(before), e);
    }
  }

  lemma StartsOnCourse()
    ensures OnCourse([], NEW_TALK)
  {
  }

  /**
   * The peer converges to this side's last words: over any interleaving of
   * sends, flushes and reads naming at most 256 namespaces, the link stays up,
   * and once nothing is queued or in flight the peer holds the last address,
   * the last reachability, and per namespace the last presence (an empty one
   * removed).
   */
  lemma Converges(events: seq<Event>)
    requires forall k :: 0 <= k < |events| ==> ValidEvent(events[k])
    requires |Namespaces(events)| <= PRESENCE_NAMESPACES_MAX
    ensures var l := LinkRun(events);
            && l.up && Tidy(l.peer.presence)
            && (l.pending == Pending(None, []) && l.stream == [] ==>
                  && l.peer.observed == LastAddress(events)
                  && l.peer.reachability == LastReachability(events)
                  && forall ns :: PresenceAt(l.peer.presence, ns) == Live(LastPresence(events, ns)))
  {
    hide PresenceAt, LinkRun, TalkRun, LastPresence, LastAddress, LastReachability, Namespaces, MsgField;
    LinkRefinesTalk(events);
    StaysOnCourse(events);
    var l, a := LinkRun(events), TalkRun(events);
    if l.pending == Pending(None, []) && l.stream == [] {
      assert a.presence == [] by {
        assert |Pairs(a.presence)| == |a.presence|;
      }
      NothingInFlight(a.flight);
      forall ns
        ensures PresenceAt(l.peer.presence, ns) == Live(LastPresence(events, ns))
      {
        NothingAt(ns);
        TidyIsLive(a.peer.presence, ns);
        assert Coming(a, ns) == Live(LastPresence(events, ns));
      }
    }
  }

  lemma TidyIsLive(q: seq<Presence>, ns: Name)
    requires Tidy(q)
    ensures Live(PresenceAt(q, ns)) == PresenceAt(q, ns)
  {
  }

  lemma NothingInFlight(ms: seq<Msg>)
    ensures WireOf(ms) == [] ==> ms == []
  {
    if ms != [] {
      assert MsgFields(ms)[0] == MsgField(ms[0]);
    }
  }

  lemma StepKeepsTidy(a: Talk, e: Event)
    requires DistinctNamespaces(a.presence) && Tidy(a.peer.presence)
    ensures DistinctNamespaces(TalkStep(a, e).presence) && Tidy(TalkStep(a, e).peer.presence)
  {
    hide Tidy, DistinctNamespaces, QueueMsg, HearPresence, Sendable;
    match e {
      case SendReachability(_) =>
      case SendPresence(p) =>
        QueueMsgIs(a.presence, p);
        PutAt(a.presence, p, p.namespace);
      case Flush(_) => NoneDistinct();
      case Hear =>
        if a.up && a.flight != [] && HearMsg(a.peer, a.flight[0]).Some? {
          HearComing(a, []);
        }
    }
  }

  lemma {:induction false} AlwaysTidy(events: seq<Event>)
    ensures DistinctNamespaces(TalkRun(events).presence) && Tidy(TalkRun(events).peer.presence)
  {
    hide Tidy, DistinctNamespaces, TalkStep;
    if events == [] {
      StartsTidy();
    } else {
      AlwaysTidy(events[..|events| - 1]);
      StepKeepsTidy(TalkRun(events[..|events| - 1]), events[|events| - 1]);
    }
  }

  lemma StartsTidy()
    ensures DistinctNamespaces(NEW_TALK.presence) && Tidy(NEW_TALK.peer.presence)
  {
  }

  /** Over any run, the outbox never holds two wires for one namespace, and the peer's
      list never two entries for one or an empty one. */
  lemma OutboxIsDistinct(events: seq<Event>)
    requires forall k :: 0 <= k < |events| ==> ValidEvent(events[k])
    ensures var q := LinkRun(events).pending.presence;
            forall i, j :: 0 <= i < j < |q| ==> q[i].0 != q[j].0
    ensures Tidy(LinkRun(events).peer.presence)
  {
    hide LinkRun, TalkRun, Tidy;
    LinkRefinesTalk(events);
    AlwaysTidy(events);
  }
}
