/**
 * Counting only the namespaces alive at a time, those whose last list had a device in
 * it, a link bears exactly 128: the outbox keeps the place a namespace was first
 * queued at, so the lists that fill the peer's memory can all go out before the ones
 * that make room (ndn-face-quic/src/link.rs).
 */
module PresenceAlive {
  import opened Common
  import opened Messages
  import Tlv
  import opened ControlSession
  import opened PresenceBound

  /** The namespaces this side last said a device is present in. */
  function Alive(events: seq<Event>): set<Name> {
    if events == [] then {}
    else
      var e, before := events[|events| - 1], Alive(events[..|events| - 1]);
      if !e.SendPresence? || !Sendable(e.p) then before
      else if e.p.devices == [] then before - {e.p.namespace}
      else before + {e.p.namespace}
  }

  lemma {:induction false} AliveIsLastWord(events: seq<Event>, ns: Name)
    ensures ns in Alive(events) <==> Live(LastPresence(events, ns)).Some?
  {
    hide Sendable;
    if events != [] {
      AliveIsLastWord(events[..|events| - 1], ns);
    }
  }

  /** At most `n` namespaces alive, now and after every event before. */
  predicate NeverMoreThan(events: seq<Event>, n: nat) {
    |Alive(events)| <= n && (events == [] || NeverMoreThan(events[..|events| - 1], n))
  }

  /** No run with at most `n` namespaces alive at any time makes the peer close the link. */
  ghost predicate BearsAlive(n: nat) {
    forall events :: Valid(events) && NeverMoreThan(events, n) ==> LinkRun(events).up
  }

  lemma AliveMore(events: seq<Event>, e: Event)
    ensures Alive(events + [e]) ==
            if !e.SendPresence? || !Sendable(e.p) then Alive(events)
            else if e.p.devices == [] then Alive(events) - {e.p.namespace}
            else Alive(events) + {e.p.namespace}
  {
    hide Sendable;
    Appended(events, e);
  }

  lemma NeverMoreSnoc(events: seq<Event>, e: Event, n: nat)
    ensures NeverMoreThan(events + [e], n) <==> NeverMoreThan(events, n) && |Alive(events + [e])| <= n
  {
    hide Alive;
    Appended(events, e);
  }

  // ------------------------------------------------------------------ 128 are always borne

  /** Which namespaces the peer holds after hearing `m`, if it has the room. */
  function HearName(names: set<Name>, m: Msg): set<Name> {
    if !m.Present? then names
    else if m.p.devices == [] then names - {m.p.namespace}
    else names + {m.p.namespace}
  }

  function HearNames(names: set<Name>, ms: seq<Msg>): set<Name>
    decreases |ms|
  {
    if ms == [] then names else HearNames(HearName(names, ms[0]), ms[1..])
  }

  /** Never more than `cap` on the way. */
  ghost predicate Bounded(names: set<Name>, ms: seq<Msg>, cap: nat)
    decreases |ms|
  {
    |names| <= cap && (ms == [] || Bounded(HearName(names, ms[0]), ms[1..], cap))
  }

  lemma {:induction false} HearNamesAppend(names: set<Name>, a: seq<Msg>, b: seq<Msg>, cap: nat)
    ensures HearNames(names, a + b) == HearNames(HearNames(names, a), b)
    ensures Bounded(names, a, cap) && Bounded(HearNames(names, a), b, cap) ==> Bounded(names, a + b, cap)
    decreases |a|
  {
    hide HearName;
    if a == [] {
      assert a + b == b;
    } else {
      assert (a + b)[0] == a[0] && (a + b)[1..] == a[1..] + b;
      HearNamesAppend(HearName(names, a[0]), a[1..], b, cap);
    }
  }

  lemma {:induction false} NoPresence(names: set<Name>, ms: seq<Msg>, cap: nat)
    requires forall k :: 0 <= k < |ms| ==> !ms[k].Present?
    ensures HearNames(names, ms) == names
    ensures |names| <= cap ==> Bounded(names, ms, cap)
    decreases |ms|
  {
    if ms != [] {
      NoPresence(names, ms[1..], cap);
    }
  }

  /** A queue with one list a namespace: what it says of each, in whatever order. */
  lemma {:induction false} HearQueue(names: set<Name>, q: seq<Presence>, ns: Name)
    requires DistinctNamespaces(q)
    ensures ns in HearNames(names, Presents(q)) <==>
            if PresenceAt(q, ns).Some? then PresenceAt(q, ns).value.devices != [] else ns in names
    decreases |q|
  {
    if q == [] {
      assert Presents(q) == [];
    } else {
      var rest := q[1..];
      assert Presents(q)[0] == Present(q[0]) && Presents(q)[1..] == Presents(rest);
      assert forall k :: 0 <= k < |rest| ==> rest[k] == q[k + 1];
      HearQueue(HearName(names, Present(q[0])), rest, ns);
      if q[0].namespace == ns {
        AtNowhere(rest, ns);
      }
    }
  }

  /** On the way through it only what it makes alive is added. */
  lemma {:induction false} QueueBounded(names: set<Name>, q: seq<Presence>, all: set<Name>)
    requires names <= all && forall k :: 0 <= k < |q| && q[k].devices != [] ==> q[k].namespace in all
    ensures Bounded(names, Presents(q), |all|)
    decreases |q|
  {
    SubsetSize(names, all);
    if q == [] {
      assert Presents(q) == [];
    } else {
      var rest := q[1..];
      assert Presents(q)[0] == Present(q[0]) && Presents(q)[1..] == Presents(rest);
      assert forall k :: 0 <= k < |rest| ==> rest[k] == q[k + 1];
      QueueBounded(HearName(names, Present(q[0])), rest, all);
    }
  }

  ghost function Names(q: seq<Presence>): set<Name> {
    set k: nat | k < |q| :: q[k].namespace
  }

  lemma NamesReplaced(q: seq<Presence>, at: nat, p: Presence)
    requires at < |q| && q[at].namespace == p.namespace
    ensures Names(q[at := p]) == Names(q)
  {
    var q' := q[at := p];
    assert forall k :: 0 <= k < |q| ==> q'[k].namespace == q[k].namespace;
  }

  lemma NamesRemoved(q: seq<Presence>, at: nat)
    requires at < |q| && DistinctNamespaces(q)
    ensures Names(q[..at] + q[at + 1..]) == Names(q) - {q[at].namespace}
  {
    var q' := q[..at] + q[at + 1..];
    forall ns | ns in Names(q) - {q[at].namespace}
      ensures ns in Names(q')
    {
      var k: nat :| k < |q| && q[k].namespace == ns;
      assert q'[if k < at then k else k - 1] == q[k];
    }
    forall ns | ns in Names(q')
      ensures ns in Names(q) - {q[at].namespace}
    {
      var k: nat :| k < |q'| && q'[k].namespace == ns;
      assert q'[k] == q[if k < at then k else k + 1];
    }
  }

  lemma NamesAppended(q: seq<Presence>, p: Presence)
    ensures Names(q + [p]) == Names(q) + {p.namespace}
  {
    var q' := q + [p];
    assert q'[|q|] == p && forall k :: 0 <= k < |q| ==> q'[k] == q[k];
  }

  lemma NotInNames(q: seq<Presence>, ns: Name)
    requires Position(q, ns) == |q|
    ensures ns !in Names(q)
  {
  }

  lemma HearKeepsNames(q: seq<Presence>, p: Presence)
    requires DistinctNamespaces(q) && HearPresence(q, p).Some?
    ensures Names(HearPresence(q, p).value) == HearName(Names(q), Present(p))
  {
    hide Names;
    var at := Position(q, p.namespace);
    if at < |q| {
      InNames(q, at);
      NamesRemoved(q, at);
      NamesReplaced(q, at, p);
      assert Names(q) + {p.namespace} == Names(q);
    } else {
      NotInNames(q, p.namespace);
      NamesAppended(q, p);
    }
  }

  lemma InNames(q: seq<Presence>, at: nat)
    requires at < |q|
    ensures q[at].namespace in Names(q)
  {
  }

  /** With room for the namespaces it will hold, a list is never refused. */
  lemma RoomIsHeard(q: seq<Presence>, p: Presence)
    requires DistinctNamespaces(q) && |HearName(Names(q), Present(p))| <= PRESENCE_NAMESPACES_MAX
    ensures HearPresence(q, p).Some?
  {
    NamespaceCount(q, Names(q));
    if Position(q, p.namespace) == |q| {
      assert p.namespace !in Names(q);
    }
  }

  /** All the peer will hold has room on the way, and ends as this side last said. */
  ghost predicate OnTheWay(events: seq<Event>, a: Talk, n: nat) {
    var now := Names(a.peer.presence);
    var then_ := HearNames(now, a.flight);
    && a.up && Tidy(a.peer.presence) && DistinctNamespaces(a.presence)
    && Bounded(now, a.flight, 2 * n) && |then_| <= n
    && HearNames(then_, Presents(a.presence)) == Alive(events)
  }

  lemma SendOnTheWay(before: seq<Event>, a: Talk, p: Presence, n: nat)
    requires OnTheWay(before, a, n)
    ensures OnTheWay(before + [SendPresence(p)], TalkStep(a, SendPresence(p)), n)
  {
    hide Sendable, QueueMsg, PresenceAt, Bounded, Tidy, HearNames, DistinctNamespaces, Alive, Names;
    AliveMore(before, SendPresence(p));
    if Sendable(p) {
      var held := HearNames(Names(a.peer.presence), a.flight);
      QueueMsgIs(a.presence, p);
      PutAt(a.presence, p, p.namespace);
      var q := QueueMsg(a.presence, p);
      forall ns
        ensures ns in HearNames(held, Presents(q)) <==> ns in Alive(before + [SendPresence(p)])
      {
        PutAt(a.presence, p, ns);
        HearQueue(held, a.presence, ns);
        HearQueue(held, q, ns);
      }
    }
  }

  lemma ReachOnTheWay(before: seq<Event>, a: Talk, r: Reachability, n: nat)
    requires OnTheWay(before, a, n)
    ensures OnTheWay(before + [SendReachability(r)], TalkStep(a, SendReachability(r)), n)
  {
    hide Bounded, Tidy, HearNames, DistinctNamespaces, Alive, Names, Presents;
    AliveMore(before, SendReachability(r));
  }

  lemma FlushOnTheWay(before: seq<Event>, a: Talk, addr: SocketAddr, n: nat)
    requires OnTheWay(before, a, n) && |Alive(before)| <= n
    ensures OnTheWay(before + [Flush(addr)], TalkStep(a, Flush(addr)), n)
  {
    hide Bounded, Tidy, HearNames, Alive, Names, Presents, PresenceAt;
    AliveMore(before, Flush(addr));
    var now, q := Names(a.peer.presence), a.presence;
    var held := HearNames(now, a.flight);
    var first := News(a.told, Canonical(addr)) + Reaches(a.reach);
    NoPresence(held, first, 2 * n);
    QueueFits(held, q, n);
    HearNamesAppend(held, first, Presents(q), 2 * n);
    HearNamesAppend(now, a.flight, first + Presents(q), 2 * n);
    Assoc(News(a.told, Canonical(addr)), Reaches(a.reach), Presents(q));
    NothingPresented(Alive(before));
  }

  lemma NothingPresented(names: set<Name>)
    ensures HearNames(names, Presents([])) == names
  {
    assert Presents([]) == [];
  }

  lemma QueueFits(held: set<Name>, q: seq<Presence>, n: nat)
    requires DistinctNamespaces(q) && |held| <= n && |HearNames(held, Presents(q))| <= n
    ensures Bounded(held, Presents(q), 2 * n)
  {
    hide HearNames, Presents, Bounded;
    var after := HearNames(held, Presents(q));
    forall k | 0 <= k < |q| && q[k].devices != []
      ensures q[k].namespace in held + after
    {
      AtIndex(q, k);
      HearQueue(held, q, q[k].namespace);
    }
    QueueBounded(held, q, held + after);
    UnionSize(held, after);
    BoundedMore(held, Presents(q), |held + after|, 2 * n);
  }

  lemma UnionSize<T>(a: set<T>, b: set<T>)
    ensures |a + b| <= |a| + |b|
  {
    assert a + b == a + (b - a);
  }

  lemma {:induction false} BoundedMore(names: set<Name>, ms: seq<Msg>, cap: nat, more: nat)
    requires Bounded(names, ms, cap) && cap <= more
    ensures Bounded(names, ms, more)
    decreases |ms|
  {
    hide HearName;
    if ms != [] {
      BoundedMore(HearName(names, ms[0]), ms[1..], cap, more);
    }
  }

  lemma HearOnTheWay(before: seq<Event>, a: Talk, n: nat)
    requires OnTheWay(before, a, n) && 2 * n <= PRESENCE_NAMESPACES_MAX
    ensures OnTheWay(before + [Hear], TalkStep(a, Hear), n)
  {
    hide Tidy, Alive, Names, Presents, HearPresence;
    AliveMore(before, Hear);
    TidyIsDistinct(a.peer.presence);
    if a.flight != [] && a.flight[0].Present? {
      var p := a.flight[0].p;
      BoundedHead(Names(a.peer.presence), a.flight, 2 * n);
      RoomIsHeard(a.peer.presence, p);
      HearKeepsNames(a.peer.presence, p);
      HearPresenceAt(a.peer.presence, p, p.namespace);
    }
  }

  lemma BoundedHead(names: set<Name>, ms: seq<Msg>, cap: nat)
    requires Bounded(names, ms, cap) && ms != []
    ensures |HearName(names, ms[0])| <= cap
  {
    hide HearName;
  }

  lemma TidyIsDistinct(q: seq<Presence>)
    requires Tidy(q)
    ensures DistinctNamespaces(q)
  {
  }

  lemma {:induction false} StaysOnTheWay(events: seq<Event>, n: nat)
    requires NeverMoreThan(events, n) && 2 * n <= PRESENCE_NAMESPACES_MAX
    ensures OnTheWay(events, TalkRun(events), n)
  {
    hide OnTheWay, TalkStep, Alive, NeverMoreThan;
    if events == [] {
      StartsOnTheWay(n);
    } else {
      var before, e := events[..|events| - 1], events[|events| - 1];
      assert events == before + [e];
      NeverMoreSnoc(before, e, n);
      NeverMoreNow(before, n);
      StaysOnTheWay(before, n);
      var a := TalkRun(before);
      match e {
        case SendReachability(r) => ReachOnTheWay(before, a, r, n);
        case SendPresence(p) => SendOnTheWay(before, a, p, n);
        case Flush(addr) => FlushOnTheWay(before, a, addr, n);
        case Hear => HearOnTheWay(before, a, n);
      }
    }
  }

  lemma NeverMoreNow(events: seq<Event>, n: nat)
    requires NeverMoreThan(events, n)
    ensures |Alive(events)| <= n
  {
    hide Alive;
  }

  lemma StartsOnTheWay(n: nat)
    ensures OnTheWay([], NEW_TALK, n)
  {
    assert Presents([]) == [];
    assert Names([]) == {};
  }

  // --------------------------------------------------------------------- more can be too many

  /** More than half of what the peer's memory holds, and no more than all of it. */
  predicate Many(m: nat) {
    PRESENCE_NAMESPACES_MAX < 2 * m <= 2 * PRESENCE_NAMESPACES_MAX
  }

  function Empty(i: nat): Presence {
    Presence(Space(i), [])
  }

  /** Nobody is present in the namespaces from `lo` up to `hi`. */
  function Gone(lo: nat, hi: nat): seq<Presence>
    requires lo <= hi
  {
    seq(hi - lo, i requires 0 <= i < hi - lo => Empty(lo + i))
  }

  function There(lo: nat, hi: nat): seq<Presence>
    requires lo <= hi
  {
    seq(hi - lo, i requires 0 <= i < hi - lo => OneDevice(lo + i))
  }

  function Spaces(lo: nat, hi: nat): set<Name> {
    set i: nat | lo <= i < hi :: Space(i)
  }

  lemma {:induction false} SpacesSize(lo: nat, hi: nat)
    requires lo <= hi
    ensures |Spaces(lo, hi)| <= hi - lo
    decreases hi - lo
  {
    hide Space;
    if lo < hi {
      SpacesSize(lo, hi - 1);
      assert Spaces(lo, hi) == Spaces(lo, hi - 1) + {Space(hi - 1)};
    } else {
      assert Spaces(lo, hi) == {};
    }
  }

  lemma EmptyIsSendable(i: nat)
    ensures Sendable(Empty(i)) && WellFormedPresence(Empty(i))
  {
    hide Tlv.WriteTlv, Tlv.Encoded;
    var p := Empty(i);
    var c := Tlv.Field(GENERIC, Tlv.ToBe(i, 2));
    assert NameFields(Space(i)) == [c];
    Tlv.EncodedOne(c);
    TlvIsShort(GENERIC, c.value);
    assert PresenceFields(p) == [Tlv.Field(NAME, NameValue(p.namespace))];
    Tlv.EncodedOne(Tlv.Field(NAME, NameValue(p.namespace)));
    TlvIsShort(NAME, NameValue(p.namespace));
    TlvIsShort(PRESENCE, PresenceValue(p));
  }

  /** The link with the first `m` lists heard and `q` queued. */
  function Waiting(m: nat, q: seq<Presence>): Talk {
    Talk(None, q, Some(HOME), [], Peer(Some(HOME), None, First(m)), true)
  }

  /** A run to such a link, never with more than `m` alive, now at most `alive`. */
  ghost predicate Leads(m: nat, events: seq<Event>, q: seq<Presence>, alive: set<Name>) {
    && Valid(events) && TalkRun(events) == Waiting(m, q)
    && NeverMoreThan(events, m) && Alive(events) <= alive
  }

  lemma Sent(m: nat, events: seq<Event>, q: seq<Presence>, alive: set<Name>, p: Presence, then_: set<Name>)
    requires Leads(m, events, q, alive) && Sendable(p) && WellFormedPresence(p) && |then_| <= m
    requires (if p.devices == [] then alive - {p.namespace} else alive + {p.namespace}) <= then_
    ensures Leads(m, events + [SendPresence(p)], QueueMsg(q, p), then_)
  {
    hide TalkRun, Alive, NeverMoreThan, Sendable, QueueMsg, First, WellFormedPresence;
    var e := SendPresence(p);
    OneStep(events, e);
    AliveMore(events, e);
    SubsetSize(Alive(events + [e]), then_);
    NeverMoreSnoc(events, e, m);
  }

  lemma SentNew(q: seq<Presence>, p: Presence)
    requires forall k :: 0 <= k < |q| ==> q[k].namespace != p.namespace
    ensures QueueMsg(q, p) == q + [p]
  {
    QueueMsgIs(q, p);
  }

  lemma SentAgain(q: seq<Presence>, at: nat, p: Presence)
    requires at < |q| && q[at].namespace == p.namespace
    requires forall k :: 0 <= k < at ==> q[k].namespace != p.namespace
    ensures QueueMsg(q, p) == q[at := p]
  {
    QueueMsgIs(q, p);
  }

  lemma {:induction false} PutsAlive(m: nat, k: nat)
    requires k <= m
    ensures NeverMoreThan(Puts(k), m) && Alive(Puts(k)) <= Spaces(0, k)
  {
    hide OneDevice, Alive, NeverMoreThan, Space;
    if k == 0 {
      NothingAlive(m);
    } else {
      var e := SendPresence(OneDevice(k - 1));
      PutsAlive(m, k - 1);
      AliveMore(Puts(k - 1), e);
      SpaceOf(k - 1);
      OneDeviceIsSendable(k - 1);
      SpacesSize(0, k);
      SubsetSize(Alive(Puts(k)), Spaces(0, k));
      NeverMoreSnoc(Puts(k - 1), e, m);
    }
  }

  lemma NothingAlive(m: nat)
    ensures Alive([]) == {} && NeverMoreThan([], m)
  {
  }

  lemma QuietStep(m: nat, events: seq<Event>, e: Event)
    requires NeverMoreThan(events, m) && (e.Flush? || e.Hear?)
    ensures NeverMoreThan(events + [e], m) && Alive(events + [e]) == Alive(events)
  {
    hide Alive, NeverMoreThan;
    AliveMore(events, e);
    NeverMoreNow(events, m);
    NeverMoreSnoc(events, e, m);
  }

  lemma {:induction false} HeardAlive(m: nat, k: nat)
    ensures NeverMoreThan(PutsHeard(m, k), m) && Alive(PutsHeard(m, k)) <= Spaces(0, m)
  {
    hide Alive, NeverMoreThan, Puts;
    if k == 0 {
      PutsAlive(m, m);
      QuietStep(m, Puts(m), Flush(HOME));
    } else {
      HeardAlive(m, k - 1);
      QuietStep(m, PutsHeard(m, k - 1), Hear);
    }
  }

  /** `m` namespaces heard. */
  lemma FirstHeard(m: nat) returns (events: seq<Event>)
    requires Many(m)
    ensures Leads(m, events, [], Spaces(0, m))
  {
    hide PutsHeard, Alive, NeverMoreThan, TalkRun, Valid, First;
    events := PutsHeard(m, m + 1);
    AfterHearing(m, m + 1);
    HeardAlive(m, m + 1);
    FirstIsThatLong(m);
    assert Presents(First(m))[m..] == [];
  }

  lemma OneMoreGone(lo: nat, hi: nat)
    requires lo <= hi < 0x1_0000
    ensures Gone(lo, hi) + [Empty(hi)] == Gone(lo, hi + 1)
    ensures forall j :: 0 <= j < |Gone(lo, hi)| ==> Gone(lo, hi)[j].namespace != Space(hi)
  {
    hide Space;
    forall j | 0 <= j < |Gone(lo, hi)|
      ensures Gone(lo, hi)[j].namespace != Space(hi)
    {
      SpacesDiffer(lo + j, hi);
      assert Gone(lo, hi)[j] == Empty(lo + j);
    }
  }

  lemma NoneGone(lo: nat)
    ensures Gone(lo, lo) == []
  {
  }

  /** Then `m` others said empty, which changes nothing but takes places in the queue. */
  lemma {:induction false} PlacesTaken(m: nat, k: nat) returns (events: seq<Event>)
    requires Many(m) && k <= m
    ensures Leads(m, events, Gone(m, m + k), Spaces(0, m))
  {
    hide Leads, Space, Spaces, Gone;
    if k == 0 {
      events := FirstHeard(m);
      NoneGone(m);
    } else {
      var before := PlacesTaken(m, k - 1);
      var p := Empty(m + k - 1);
      events := before + [SendPresence(p)];
      EmptyIsSendable(m + k - 1);
      SpacesSize(0, m);
      OneMoreGone(m, m + k - 1);
      SentNew(Gone(m, m + k - 1), p);
      Sent(m, before, Gone(m, m + k - 1), Spaces(0, m), p, Spaces(0, m));
    }
  }

  /** The places of the others, and the first `k` gone. */
  function Leaving(m: nat, k: nat): seq<Presence> {
    Gone(m, 2 * m) + Gone(0, k)
  }

  lemma OneMoreLeaving(m: nat, k: nat)
    ensures Leaving(m, k) + [Empty(k)] == Leaving(m, k + 1) && |Leaving(m, k)| == m + k
    ensures forall j :: 0 <= j < m ==> Leaving(m, k)[j] == Empty(m + j)
    ensures forall j :: m <= j < m + k ==> Leaving(m, k)[j] == Empty(j - m)
  {
    hide Empty;
  }

  lemma NoneLeaving(m: nat)
    ensures Leaving(m, 0) == Gone(m, m + m)
  {
    assert Gone(0, 0) == [];
  }

  lemma LeavingIsOther(m: nat, k: nat)
    requires Many(m) && k < m
    ensures forall j :: 0 <= j < |Leaving(m, k)| ==> Leaving(m, k)[j].namespace != Space(k)
  {
    hide Leaving, Space;
    OneMoreLeaving(m, k);
    forall j: nat | j < |Leaving(m, k)|
      ensures Leaving(m, k)[j].namespace != Space(k)
    {
      OtherSpace(if j < m then m + j else j - m, k);
    }
  }

  lemma SpacesShrink(m: nat, k: nat)
    ensures Spaces(k, m) - {Space(k)} <= Spaces(k + 1, m)
  {
    hide Space;
  }

  /** Then the first `m` said empty. */
  lemma {:induction false} FirstGone(m: nat, k: nat) returns (events: seq<Event>)
    requires Many(m) && k <= m
    ensures Leads(m, events, Leaving(m, k), Spaces(k, m))
  {
    hide Leads, Space, Spaces, Gone, Leaving;
    if k == 0 {
      events := PlacesTaken(m, m);
      NoneLeaving(m);
    } else {
      var before := FirstGone(m, k - 1);
      var p := Empty(k - 1);
      events := before + [SendPresence(p)];
      EmptyIsSendable(k - 1);
      SpacesSize(k, m);
      SpacesShrink(m, k - 1);
      LeavingIsOther(m, k - 1);
      SentNew(Leaving(m, k - 1), p);
      OneMoreLeaving(m, k - 1);
      Sent(m, before, Leaving(m, k - 1), Spaces(k - 1, m), p, Spaces(k, m));
    }
  }

  lemma OtherSpace(i: nat, j: nat)
    requires i != j && i < 0x1_0000 && j < 0x1_0000
    ensures Space(i) != Space(j)
  {
    if i < j {
      SpacesDiffer(i, j);
    } else {
      SpacesDiffer(j, i);
    }
  }

  /** The queue with `k` of the others present again. */
  function Back(m: nat, k: nat): seq<Presence>
    requires k <= m
  {
    There(m, m + k) + Gone(m + k, 2 * m) + Gone(0, m)
  }

  lemma OneMoreBack(m: nat, k: nat)
    requires 0 < k <= m
    ensures var q, p := Back(m, k - 1), OneDevice(m + k - 1);
            && k - 1 < |q| && q[k - 1] == Empty(m + k - 1)
            && (forall i :: 0 <= i < k - 1 ==> q[i] == OneDevice(m + i))
            && q[k - 1 := p] == Back(m, k)
  {
    hide OneDevice, Empty;
  }

  /** Then the `m` others said present: they go out in the places taken, first of all. */
  lemma SpacesGrow(lo: nat, hi: nat)
    requires lo < hi
    ensures Spaces(lo, hi - 1) + {Space(hi - 1)} <= Spaces(lo, hi)
  {
    hide Space;
  }

  lemma {:induction false} OthersThere(m: nat, k: nat) returns (events: seq<Event>)
    requires Many(m) && k <= m
    ensures Leads(m, events, Back(m, k), Spaces(m, m + k))
  {
    hide Leads, Space, Spaces, Gone, There, Back;
    if k == 0 {
      events := FirstGone(m, m);
      NoneBack(m);
    } else {
      var before := OthersThere(m, k - 1);
      var q, p := Back(m, k - 1), OneDevice(m + k - 1);
      events := before + [SendPresence(p)];
      OneDeviceIsSendable(m + k - 1);
      SpaceOf(m + k - 1);
      SpacesSize(m, m + k);
      SpacesGrow(m, m + k);
      OneMoreBack(m, k);
      forall i: nat | i < k - 1
        ensures q[i].namespace != p.namespace
      {
        SpaceOf(m + i);
        OtherSpace(m + i, m + k - 1);
      }
      SentAgain(q, k - 1, p);
      Sent(m, before, q, Spaces(m, m + k - 1), p, Spaces(m, m + k));
    }
  }

  lemma NoneBack(m: nat)
    ensures Back(m, 0) == Leaving(m, m) && Spaces(m, m) == Spaces(m, m + 0) == {}
  {
    assert There(m, m) == [];
  }

  function Under(m: nat, j: nat): Talk
    requires j <= m
  {
    Talk(None, [], Some(HOME), Presents(Back(m, m))[j..], Peer(Some(HOME), None, First(m + j)), true)
  }

  lemma BackAt(m: nat, j: nat)
    requires j < m
    ensures |Back(m, m)| == 2 * m && Back(m, m)[j] == OneDevice(m + j)
  {
    hide OneDevice;
  }

  /** Heard one after the other, they fill the peer's memory before any is removed. */
  lemma {:induction false} Filling(m: nat, j: nat) returns (events: seq<Event>)
    requires Many(m) && j <= 256 - m
    ensures Valid(events) && TalkRun(events) == Under(m, j) && NeverMoreThan(events, m)
  {
    hide Alive, NeverMoreThan, TalkRun, Valid, First, OneDevice, Back;
    if j == 0 {
      var before := OthersThere(m, m);
      events := before + [Flush(HOME)];
      FlushIsValid(before);
      QuietStep(m, before, Flush(HOME));
      OneStep(before, Flush(HOME));
      assert [] + ([] + ([] + Presents(Back(m, m)))) == Presents(Back(m, m))[0..];
    } else {
      var before := Filling(m, j - 1);
      events := before + [Hear];
      HearingIsValid(before);
      QuietStep(m, before, Hear);
      OneStep(before, Hear);
      HearUnder(m, j - 1);
    }
  }

  lemma HearUnder(m: nat, j: nat)
    requires Many(m) && j <= 256 - m
    ensures j < 256 - m ==> TalkStep(Under(m, j), Hear) == Under(m, j + 1)
    ensures j == 256 - m ==> !TalkStep(Under(m, j), Hear).up
  {
    hide First, OneDevice, Back;
    BackAt(m, j);
    NotAmongFirst(m + j);
    SpaceOf(m + j);
    FirstIsThatLong(m + j);
    FirstGrows(m + j);
    var flight := Presents(Back(m, m))[j..];
    assert flight[0] == Present(OneDevice(m + j));
    assert flight[1..] == Presents(Back(m, m))[j + 1..];
  }

  /** For any number over 128 there is a run, never with more namespaces alive, that
      makes the peer close the link. */
  lemma TooManyAlive(m: nat) returns (events: seq<Event>)
    requires Many(m)
    ensures Valid(events) && NeverMoreThan(events, m) && !LinkRun(events).up
  {
    hide Alive, NeverMoreThan, TalkRun, LinkRun, Valid, Under;
    var before := Filling(m, 256 - m);
    events := before + [Hear];
    HearingIsValid(before);
    QuietStep(m, before, Hear);
    OneStep(before, Hear);
    HearUnder(m, 256 - m);
    LinkOfTalk(events);
  }

  lemma {:induction false} NeverMoreWeakens(events: seq<Event>, n: nat, m: nat)
    requires NeverMoreThan(events, n) && n <= m
    ensures NeverMoreThan(events, m)
  {
    hide Alive;
    if events != [] {
      NeverMoreWeakens(events[..|events| - 1], n, m);
    }
  }

  /** The link bears every run with `n` namespaces alive at a time exactly up to 128,
      half of what the peer's memory holds. */
  lemma BearsAliveIff(n: nat)
    ensures BearsAlive(n) <==> 2 * n <= PRESENCE_NAMESPACES_MAX
  {
    hide LinkRun, TalkRun, NeverMoreThan, Valid;
    if 2 * n <= PRESENCE_NAMESPACES_MAX {
      forall events | Valid(events) && NeverMoreThan(events, n)
        ensures LinkRun(events).up
      {
        StaysOnTheWay(events, n);
        LinkOfTalk(events);
      }
    } else {
      var events := TooManyAlive(129);
      NeverMoreWeakens(events, 129, n);
    }
  }

  /** After any number of events, that is. */
  lemma {:induction false} NeverMoreAtAnyTime(events: seq<Event>, n: nat, k: nat)
    requires NeverMoreThan(events, n) && k <= |events|
    ensures |Alive(events[..k])| <= n
  {
    hide Alive;
    if k == |events| {
      assert events[..k] == events;
    } else {
      NeverMoreAtAnyTime(events[..|events| - 1], n, k);
      assert events[..|events| - 1][..k] == events[..k];
    }
  }
}
