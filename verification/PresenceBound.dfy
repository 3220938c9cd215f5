/**
 * How many namespaces a link bears (`PRESENCE_NAMESPACES_MAX` in
 * ndn-face-quic/src/link.rs): exactly 256, whatever is sent and in whatever order.
 */
module PresenceBound {
  import opened Common
  import opened Tlv
  import opened Messages
  import opened ControlSession

  /** No run over at most `n` distinct namespaces makes the peer close the link. */
  ghost predicate AlwaysUp(n: nat) {
    forall events :: Valid(events) && |Namespaces(events)| <= n ==> LinkRun(events).up
  }

  ghost predicate Valid(events: seq<Event>) {
    forall k :: 0 <= k < |events| ==> ValidEvent(events[k])
  }

  // ---------------------------------------------------------- one namespace more than that

  const GENERIC: nat := 8

  const KEY: Bytes :=
    [0, 0, 0, 0, 0, 0, 0, 0, 0, 0, 0, 0, 0, 0, 0, 0, 0, 0, 0, 0, 0, 0, 0, 0, 0, 0, 0, 0, 0, 0, 0, 0]

  const HOME := SocketAddr([0, 0, 0, 0], 0)

  function Space(i: nat): Name {
    [Component(GENERIC, ToBe(i, 2))]
  }

  function OneDevice(i: nat): Presence {
    Presence(Space(i), [PresentDevice([], KEY)])
  }

  function First(k: nat): seq<Presence> {
    seq(k, i requires 0 <= i < k => OneDevice(i))
  }

  lemma SpacesDiffer(i: nat, j: nat)
    requires i < j < 0x1_0000
    ensures Space(i) != Space(j)
  {
    Powers();
    BeRoundTrip(i, 2);
    BeRoundTrip(j, 2);
    assert Space(i)[0].value == ToBe(i, 2) && Space(j)[0].value == ToBe(j, 2);
  }

  lemma TlvIsShort(t: nat, value: Bytes)
    ensures |WriteTlv(t, value)| <= 18 + |value|
  {
  }

  lemma TwoFields(a: Field, b: Field)
    ensures |Encoded([a, b])| <= 36 + |a.value| + |b.value|
  {
    TlvIsShort(a.t, a.value);
    TlvIsShort(b.t, b.value);
    assert [a, b][1..] == [b];
    EncodedOne(b);
  }

  lemma OneDeviceIsSendable(i: nat)
    ensures Sendable(OneDevice(i)) && WellFormedPresence(OneDevice(i))
  {
    hide WriteTlv, Encoded;
    var p := OneDevice(i);
    var d := p.devices[0];
    assert NameFields([]) == [] && NameFields(Space(i)) == [Field(GENERIC, ToBe(i, 2))];
    EncodedNothing();
    EncodedOne(Field(GENERIC, ToBe(i, 2)));
    TlvIsShort(GENERIC, ToBe(i, 2));
    TwoFields(Field(NAME, NameValue(d.device)), Field(KEY_DIGEST, KEY));
    assert DevicesFields(p.devices) == [Field(PRESENT_DEVICE, DeviceValue(d))];
    assert PresenceFields(p) == [Field(NAME, NameValue(p.namespace)), Field(PRESENT_DEVICE, DeviceValue(d))];
    TwoFields(Field(NAME, NameValue(p.namespace)), Field(PRESENT_DEVICE, DeviceValue(d)));
    TlvIsShort(PRESENCE, PresenceValue(p));
  }

  lemma EncodedNothing()
    ensures Encoded([]) == []
  {
  }

  function Puts(k: nat): seq<Event> {
    if k == 0 then [] else Puts(k - 1) + [SendPresence(OneDevice(k - 1))]
  }

  /** `n` puts, a flush, and `k` messages heard. */
  function PutsHeard(n: nat, k: nat): seq<Event> {
    if k == 0 then Puts(n) + [Flush(HOME)] else PutsHeard(n, k - 1) + [Hear]
  }

  lemma NotAmongFirst(k: nat)
    requires k < 0x1_0000
    ensures Position(First(k), Space(k)) == k
  {
    hide Space;
    forall i: nat | i < k
      ensures First(k)[i].namespace != Space(k)
    {
      SpacesDiffer(i, k);
    }
  }

  lemma FirstGrows(k: nat)
    ensures First(k + 1) == First(k) + [OneDevice(k)]
  {
  }

  lemma {:induction false} AfterPuts(k: nat)
    requires k < 0x1_0000
    ensures TalkRun(Puts(k)) == NEW_TALK.(presence := First(k))
    ensures Valid(Puts(k)) && |Namespaces(Puts(k))| <= k
  {
    hide ValidEvent, First, OneDevice, Sendable;
    if k == 0 {
      assert First(0) == [] by { NoneFirst(); }
    } else {
      var e := SendPresence(OneDevice(k - 1));
      AfterPuts(k - 1);
      Appended(Puts(k - 1), e);
      OneDeviceIsSendable(k - 1);
      PutIsValid(k - 1);
      NotAmongFirst(k - 1);
      SpaceOf(k - 1);
      FirstIsThatLong(k - 1);
      QueueMsgIs(First(k - 1), OneDevice(k - 1));
      FirstGrows(k - 1);
    }
  }

  lemma NoneFirst()
    ensures First(0) == []
  {
  }

  lemma FirstIsThatLong(k: nat)
    ensures |First(k)| == k
  {
  }

  lemma SpaceOf(i: nat)
    ensures OneDevice(i).namespace == Space(i) && OneDevice(i).devices != []
  {
  }

  lemma PutIsValid(i: nat)
    ensures ValidEvent(SendPresence(OneDevice(i)))
  {
    hide OneDevice;
    OneDeviceIsSendable(i);
  }

  /** The link after the address and `k` of the `n` lists were heard. */
  function Midway(n: nat, k: nat): Talk
    requires k <= n
  {
    Talk(None, [], Some(HOME), Presents(First(n))[k..], Peer(Some(HOME), None, First(k)), true)
  }

  lemma FlushAll(n: nat)
    ensures TalkStep(NEW_TALK.(presence := First(n)), Flush(HOME)) ==
            Talk(None, [], Some(HOME), [Address(HOME)] + Presents(First(n)), SILENT, true)
  {
    hide First;
    assert [] + ([Address(HOME)] + ([] + Presents(First(n)))) == [Address(HOME)] + Presents(First(n));
  }

  lemma HearAddress(n: nat)
    ensures TalkStep(Talk(None, [], Some(HOME), [Address(HOME)] + Presents(First(n)), SILENT, true), Hear)
      == Midway(n, 0)
  {
    hide First, Presents;
    NoneFirst();
    var rest := Presents(First(n));
    assert ([Address(HOME)] + rest)[1..] == rest == rest[0..];
  }

  lemma InFirst(n: nat, i: nat)
    requires i < n
    ensures |First(n)| == n && First(n)[i] == OneDevice(i)
  {
  }

  lemma HearOne(n: nat, k: nat)
    requires k < n < 0x1_0000
    ensures k < 256 ==> TalkStep(Midway(n, k), Hear) == Midway(n, k + 1)
    ensures k == 256 ==> !TalkStep(Midway(n, k), Hear).up
  {
    hide First, OneDevice;
    InFirst(n, k);
    NotAmongFirst(k);
    SpaceOf(k);
    FirstIsThatLong(k);
    FirstGrows(k);
    var flight := Presents(First(n))[k..];
    assert flight[0] == Present(OneDevice(k));
    assert flight[1..] == Presents(First(n))[k + 1..];
  }

  lemma {:induction false} AfterHearing(n: nat, k: nat)
    requires 1 <= k <= 257 && k <= n + 1 && n < 0x1_0000
    ensures TalkRun(PutsHeard(n, k)) == Midway(n, k - 1)
    ensures Valid(PutsHeard(n, k)) && |Namespaces(PutsHeard(n, k))| <= n
  {
    hide First, Puts, TalkStep, Midway, TalkRun, Namespaces, Valid;
    if k == 1 {
      AfterPuts(n);
      FlushIsValid(Puts(n));
      FlushAll(n);
      OneStep(Puts(n), Flush(HOME));
      HearAddress(n);
    } else {
      AfterHearing(n, k - 1);
      HearOne(n, k - 2);
    }
    OneStep(PutsHeard(n, k - 1), Hear);
    HearingIsValid(PutsHeard(n, k - 1));
  }

  lemma OneStep(events: seq<Event>, e: Event)
    ensures TalkRun(events + [e]) == TalkStep(TalkRun(events), e)
  {
    hide TalkStep;
    Appended(events, e);
  }

  lemma FlushIsValid(events: seq<Event>)
    requires Valid(events)
    ensures Valid(events + [Flush(HOME)]) && Namespaces(events + [Flush(HOME)]) == Namespaces(events)
  {
    Appended(events, Flush(HOME));
  }

  /** The peer closes the link over the 257th namespace. */
  lemma OneMoreCloses() returns (events: seq<Event>)
    ensures Valid(events) && |Namespaces(events)| <= 257 && !LinkRun(events).up
  {
    hide LinkRun, TalkRun, TalkStep, Midway, PutsHeard, Namespaces, Valid;
    var before := PutsHeard(257, 257);
    events := before + [Hear];
    AfterHearing(257, 257);
    OneStep(before, Hear);
    HearOne(257, 256);
    HearingIsValid(before);
    LinkOfTalk(events);
  }

  lemma LinkOfTalk(events: seq<Event>)
    requires Valid(events)
    ensures LinkRun(events).up == TalkRun(events).up
  {
    hide LinkRun, TalkRun;
    LinkRefinesTalk(events);
  }

  lemma HearingIsValid(events: seq<Event>)
    requires Valid(events)
    ensures Valid(events + [Hear]) && Namespaces(events + [Hear]) == Namespaces(events)
  {
    Appended(events, Hear);
  }

  /** The link bears every run over `n` namespaces exactly up to 256. */
  lemma AlwaysUpIff(n: nat)
    ensures AlwaysUp(n) <==> n <= PRESENCE_NAMESPACES_MAX
  {
    hide LinkRun, Namespaces, PutsHeard, ValidEvent;
    if n <= PRESENCE_NAMESPACES_MAX {
      forall events | Valid(events) && |Namespaces(events)| <= n
        ensures LinkRun(events).up
      {
        Converges(events);
      }
    } else {
      var _ := OneMoreCloses();
    }
  }
}
