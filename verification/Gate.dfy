/**
 * The handshake gate (ndn-face-quic/src/endpoint.rs): how many inbound link
 * attempts may be in progress, in total and per source, and when a source
 * refused too often has to wait. A permit is released in two steps, the first
 * of them outside the lock.
 */
module Gate {
  import opened Common

  type Ip = Bytes

  /** A moment or a span, in ticks of the monotonic clock. */
  type Time = nat

  const SWEEP_ABOVE := 4096
  const U64_MAX: nat := 0xFFFF_FFFF_FFFF_FFFF

  datatype Limits = Limits(maxInFlight: nat, maxPerSource: nat, threshold: nat, cooldown: Time, window: Time)

  datatype Source = Source(inFlight: nat, refusals: nat, windowStart: Option<Time>, cooldownUntil: Option<Time>)

  datatype Refusal = Cooling | SourceBusy | GateBusy

  /**
   * The gate, with what the permits in the world are: `live` ones have not begun
   * to drop, `dropping` ones have left the atomic count but not their source's.
   * `held` is the source of an `admit` that has loaded the atomic count, found
   * room, and still holds the lock.
   */
  datatype GateState = GateState(inFlight: nat, sources: map<Ip, Source>, held: Option<Ip>,
                                 live: multiset<Ip>, dropping: multiset<Ip>)

  const NEW_SOURCE := Source(0, 0, None, None)

  const NEW_GATE := GateState(0, map[], None, multiset{}, multiset{})

  function Entry(sources: map<Ip, Source>, ip: Ip): Source {
    if ip in sources then sources[ip] else NEW_SOURCE
  }

  predicate Cools(s: Source, now: Time) {
    s.cooldownUntil.Some? && s.cooldownUntil.value > now
  }

  function Swept(sources: map<Ip, Source>, now: Time): map<Ip, Source> {
    if |sources| > SWEEP_ABOVE
    then map ip | ip in sources && (sources[ip].inFlight > 0 || Cools(sources[ip], now)) :: sources[ip]
    else sources
  }

  /** `admit` up to and including its load of the atomic count. */
  function AdmitLoad(l: Limits, g: GateState, ip: Ip, now: Time): (GateState, Option<Refusal>) {
    var sources := Swept(g.sources, now);
    var s := Entry(sources, ip);
    if Cools(s, now) then (g.(sources := sources[ip := s]), Some(Cooling))
    else
      var g' := g.(sources := sources[ip := s.(cooldownUntil := None)]);
      if s.inFlight >= l.maxPerSource then (g', Some(SourceBusy))
      else if g.inFlight >= l.maxInFlight then (g', Some(GateBusy))
      else (g'.(held := Some(ip)), None)
  }

  /** The rest of a successful `admit`. */
  function AdmitAdd(g: GateState): GateState
    requires g.held.Some?
  {
    var ip := g.held.value;
    var s := Entry(g.sources, ip);
    g.(inFlight := g.inFlight + 1, sources := g.sources[ip := s.(inFlight := s.inFlight + 1)],
       held := None, live := g.live + multiset{ip})
  }

  function RefuseSource(l: Limits, s: Source, now: Time): Source {
    var again := s.windowStart.None? || Since(s.windowStart.value, now) >= l.window;
    var refusals := (if again then 0 else s.refusals) + 1;
    if refusals >= l.threshold then Source(s.inFlight, 0, None, Some(now + l.cooldown))
    else Source(s.inFlight, refusals, if again then Some(now) else s.windowStart, s.cooldownUntil)
  }

  function Refuse(l: Limits, g: GateState, ip: Ip, now: Time): GateState {
    g.(sources := g.sources[ip := RefuseSource(l, Entry(g.sources, ip), now)])
  }

  /** The first step of a permit's drop: `fetch_sub`, which wraps, without the lock. */
  function BeginDrop(g: GateState, ip: Ip): GateState {
    g.(inFlight := if g.inFlight == 0 then U64_MAX else g.inFlight - 1,
       live := g.live - multiset{ip}, dropping := g.dropping + multiset{ip})
  }

  /** The second step, under the lock: a saturating subtraction, and maybe the entry goes. */
  function FinishDrop(g: GateState, ip: Ip): GateState {
    var g' := g.(dropping := g.dropping - multiset{ip});
    if ip !in g.sources then g'
    else
      var was := g.sources[ip];
      var s := was.(inFlight := if was.inFlight == 0 then 0 else was.inFlight - 1);
      if s.inFlight == 0 && s.refusals == 0 && s.cooldownUntil.None?
      then g'.(sources := g.sources - {ip})
      else g'.(sources := g.sources[ip := s])
  }

  class Gate {
    const limits: Limits
    var inFlight: nat
    var sources: map<Ip, Source>
    ghost var held: Option<Ip>
    ghost var live: multiset<Ip>
    ghost var dropping: multiset<Ip>

    constructor (limits: Limits)
      ensures this.limits == limits && View() == NEW_GATE
    {
      this.limits := limits;
      inFlight, sources := 0, map[];
      held, live, dropping := None, multiset{}, multiset{};
    }

    ghost function View(): GateState
      reads this
    {
      GateState(inFlight, sources, held, live, dropping)
    }

    /** `admit`, up to its load of the atomic count. On `None` the caller goes on
        to `Admitted` with the lock still held. */
    method Admit(ip: Ip, now: Time) returns (refused: Option<Refusal>)
      modifies this
      ensures (View(), refused) == AdmitLoad(limits, old(View()), ip, now)
    {
      if |sources| > SWEEP_ABOVE {
        sources := map i | i in sources && (sources[i].inFlight > 0 || Cools(sources[i], now)) :: sources[i];
      }
      ghost var swept := sources;
      var source := Entry(sources, ip);
      sources := sources[ip := source];
      if source.cooldownUntil.Some? {
        if source.cooldownUntil.value > now {
          return Some(Cooling);
        }
        source := source.(cooldownUntil := None);
        sources := sources[ip := source];
      }
      assert sources == swept[ip := Entry(swept, ip).(cooldownUntil := None)];
      if source.inFlight >= limits.maxPerSource {
        return Some(SourceBusy);
      }
      if inFlight >= limits.maxInFlight {
        return Some(GateBusy);
      }
      held := Some(ip);
      return None;
    }

    /** The increments of a successful `admit`: the permit is out. */
    method Admitted(ip: Ip)
      requires held == Some(ip)
      modifies this
      ensures View() == AdmitAdd(old(View()))
    {
      var source := Entry(sources, ip);
      sources := sources[ip := source.(inFlight := source.inFlight + 1)];
      inFlight := inFlight + 1;
      held, live := None, live + multiset{ip};
    }

    method Refused(ip: Ip, now: Time)
      modifies this
      ensures View() == Refuse(limits, old(View()), ip, now)
    {
      var source := Entry(sources, ip);
      if source.windowStart.None? || Since(source.windowStart.value, now) >= limits.window {
        source := source.(refusals := 0, windowStart := Some(now));
      }
      source := source.(refusals := source.refusals + 1);
      if source.refusals >= limits.threshold {
        source := source.(refusals := 0, windowStart := None, cooldownUntil := Some(now + limits.cooldown));
      }
      sources := sources[ip := source];
    }

    method StartDrop(ip: Ip)
      modifies this
      ensures View() == BeginDrop(old(View()), ip)
    {
      inFlight := if inFlight == 0 then U64_MAX else inFlight - 1;
      live, dropping := live - multiset{ip}, dropping + multiset{ip};
    }

    method EndDrop(ip: Ip)
      modifies this
      ensures View() == FinishDrop(old(View()), ip)
    {
      dropping := dropping - multiset{ip};
      if ip !in sources {
        return;
      }
      ghost var before := sources;
      var source := sources[ip].(inFlight := if sources[ip].inFlight == 0 then 0 else sources[ip].inFlight - 1);
      sources := sources[ip := source];
      if source.inFlight == 0 && source.refusals == 0 && source.cooldownUntil.None? {
        sources := sources - {ip};
        assert sources == before - {ip};
      }
    }
  }

  /** `saturating_duration_since`. */
  function Since(start: Time, now: Time): Time {
    if now >= start then now - start else 0
  }

  // --------------------------------------------------------------- every interleaving

  datatype Step =
    | TryAdmit(ip: Ip, now: Time)
    | FinishAdmit
    | CountRefusal(ip: Ip, now: Time)
    | StartDrop(ip: Ip)
    | EndDrop(ip: Ip)

  /** A step some thread can take: the lock keeps out all but the atomic decrement,
      and only a permit that exists drops. */
  predicate Enabled(g: GateState, step: Step) {
    match step
    case TryAdmit(_, _) => g.held.None?
    case FinishAdmit => g.held.Some?
    case CountRefusal(_, _) => g.held.None?
    case StartDrop(ip) => ip in g.live
    case EndDrop(ip) => g.held.None? && ip in g.dropping
  }

  function Next(l: Limits, g: GateState, step: Step): GateState
    requires Enabled(g, step)
  {
    match step
    case TryAdmit(ip, now) => AdmitLoad(l, g, ip, now).0
    case FinishAdmit => AdmitAdd(g)
    case CountRefusal(ip, now) => Refuse(l, g, ip, now)
    case StartDrop(ip) => BeginDrop(g, ip)
    case EndDrop(ip) => FinishDrop(g, ip)
  }

  predicate Runs(l: Limits, g: GateState, steps: seq<Step>)
    decreases |steps|
  {
    steps == [] || (Enabled(g, steps[0]) && Runs(l, Next(l, g, steps[0]), steps[1..]))
  }

  function After(l: Limits, g: GateState, steps: seq<Step>): GateState
    requires Runs(l, g, steps)
    decreases |steps|
  {
    if steps == [] then g else After(l, Next(l, g, steps[0]), steps[1..])
  }

  /** What the permits of one source add up to. */
  ghost predicate SourceOk(l: Limits, g: GateState, ip: Ip) {
    && Entry(g.sources, ip).inFlight == g.live[ip] + g.dropping[ip]
    && Entry(g.sources, ip).inFlight <= l.maxPerSource
    && (g.held == Some(ip) ==> ip in g.sources && Entry(g.sources, ip).inFlight < l.maxPerSource)
    && (ip in g.sources ==> g.sources[ip].refusals < Least(l))
    && (ip in g.sources ==> (g.sources[ip].windowStart.None? <==> g.sources[ip].refusals == 0))
  }

  function Least(l: Limits): nat {
    if l.threshold == 0 then 1 else l.threshold
  }

  ghost predicate GateOk(l: Limits, g: GateState) {
    && g.inFlight == |g.live| <= l.maxInFlight
    && (g.held.Some? ==> g.inFlight < l.maxInFlight)
    && forall ip :: SourceOk(l, g, ip)
  }

  lemma SweepKeepsEntries(sources: map<Ip, Source>, now: Time, ip: Ip)
    ensures Entry(Swept(sources, now), ip) == Entry(sources, ip) ||
            (ip !in Swept(sources, now) && Entry(sources, ip).inFlight == 0 && !Cools(Entry(sources, ip), now))
    ensures ip in Swept(sources, now) ==> ip in sources
  {
  }

  /** A sweep or a drop never takes away a source a permit is out for. */
  lemma PermitKeepsSource(l: Limits, g: GateState, ip: Ip)
    requires GateOk(l, g) && (ip in g.live || ip in g.dropping)
    ensures ip in g.sources && g.sources[ip].inFlight > 0
  {
    assert SourceOk(l, g, ip);
  }

  lemma AdmitLoadSource(l: Limits, g: GateState, i: Ip, now: Time, ip: Ip)
    requires g.held.None? && SourceOk(l, g, ip)
    ensures SourceOk(l, AdmitLoad(l, g, i, now).0, ip)
  {
    hide Swept;
    SweepKeepsEntries(g.sources, now, ip);
  }

  lemma AdmitAddSource(l: Limits, g: GateState, ip: Ip)
    requires g.held.Some? && SourceOk(l, g, ip)
    ensures SourceOk(l, AdmitAdd(g), ip)
  {
  }

  lemma RefuseSourceOk(l: Limits, g: GateState, i: Ip, now: Time, ip: Ip)
    requires g.held.None? && SourceOk(l, g, ip)
    ensures SourceOk(l, Refuse(l, g, i, now), ip)
  {
  }

  lemma BeginDropSource(l: Limits, g: GateState, i: Ip, ip: Ip)
    requires i in g.live && SourceOk(l, g, ip)
    ensures SourceOk(l, BeginDrop(g, i), ip)
  {
  }

  lemma FinishDropSource(l: Limits, g: GateState, i: Ip, ip: Ip)
    requires g.held.None? && i in g.dropping && SourceOk(l, g, ip) && SourceOk(l, g, i)
    ensures SourceOk(l, FinishDrop(g, i), ip)
  {
  }

  lemma SourceStep(l: Limits, g: GateState, step: Step, ip: Ip)
    requires GateOk(l, g) && Enabled(g, step)
    ensures SourceOk(l, Next(l, g, step), ip)
  {
    hide GateOk, SourceOk, AdmitLoad, AdmitAdd, Refuse, BeginDrop, FinishDrop;
    UseSource(l, g, ip);
    match step {
      case TryAdmit(i, now) => AdmitLoadSource(l, g, i, now, ip);
      case FinishAdmit => AdmitAddSource(l, g, ip);
      case CountRefusal(i, now) => RefuseSourceOk(l, g, i, now, ip);
      case StartDrop(i) => BeginDropSource(l, g, i, ip);
      case EndDrop(i) =>
        UseSource(l, g, i);
        FinishDropSource(l, g, i, ip);
    }
  }

  lemma UseSource(l: Limits, g: GateState, ip: Ip)
    requires GateOk(l, g)
    ensures SourceOk(l, g, ip)
  {
  }

  /** Every step of every thread keeps the counts right and under their caps. */
  lemma StepKeepsGate(l: Limits, g: GateState, step: Step)
    requires GateOk(l, g) && Enabled(g, step)
    ensures GateOk(l, Next(l, g, step))
  {
    hide SourceOk, Swept;
    forall ip
      ensures SourceOk(l, Next(l, g, step), ip)
    {
      SourceStep(l, g, step, ip);
    }
  }

  /**
   * In every interleaving: the atomic count is the number of permits whose drop
   * has not begun, and at most `max_in_flight`; each source's count is the number
   * of its permits whose drop has not finished, and at most the per-source cap;
   * refusals stay below the threshold.
   */
  lemma {:induction false} EveryRunKeepsGate(l: Limits, g: GateState, steps: seq<Step>)
    requires GateOk(l, g) && Runs(l, g, steps)
    ensures GateOk(l, After(l, g, steps))
    decreases |steps|
  {
    hide GateOk, Next, Enabled;
    if steps == [] {
    } else {
      StepKeepsGate(l, g, steps[0]);
      EveryRunKeepsGate(l, Next(l, g, steps[0]), steps[1..]);
    }
  }

  lemma NewGateIsOk(l: Limits)
    ensures GateOk(l, NEW_GATE)
  {
  }

  /** Neither subtraction of a drop ever meets zero, so neither wraps nor saturates. */
  lemma DropsNeverUnderflow(l: Limits, g: GateState, steps: seq<Step>, drop: Step)
    requires g == NEW_GATE && Runs(l, g, steps) && Enabled(After(l, g, steps), drop)
    ensures drop.StartDrop? ==> After(l, g, steps).inFlight > 0
    ensures drop.EndDrop? ==> drop.ip in After(l, g, steps).sources && After(l, g, steps).sources[drop.ip].inFlight > 0
  {
    NewGateIsOk(l);
    EveryRunKeepsGate(l, g, steps);
    var last := After(l, g, steps);
    if drop.EndDrop? {
      PermitKeepsSource(l, last, drop.ip);
    } else if drop.StartDrop? {
      assert last.live[drop.ip] > 0;
      assert last.live == (last.live - multiset{drop.ip}) + multiset{drop.ip};
    }
  }

  /** An attempt is let in exactly when its source is not cooling and the permits
      out leave room for it, whatever was swept. */
  lemma AdmitsExactlyWhenRoom(l: Limits, steps: seq<Step>, ip: Ip, now: Time)
    requires Runs(l, NEW_GATE, steps) && After(l, NEW_GATE, steps).held.None?
    ensures var g := After(l, NEW_GATE, steps);
            AdmitLoad(l, g, ip, now).1.None? <==>
              && !Cools(Entry(g.sources, ip), now)
              && g.live[ip] + g.dropping[ip] < l.maxPerSource
              && |g.live| < l.maxInFlight
  {
    hide Runs, After, Swept;
    NewGateIsOk(l);
    EveryRunKeepsGate(l, NEW_GATE, steps);
    var g := After(l, NEW_GATE, steps);
    UseSource(l, g, ip);
    SweepKeepsEntries(g.sources, now, ip);
  }

  /** A drop takes one permit off its source's count and forgets nothing else of any
      source, even when the entry goes. */
  lemma DropForgetsNothing(l: Limits, g: GateState, i: Ip, ip: Ip)
    requires GateOk(l, g) && Enabled(g, EndDrop(i))
    ensures var before, after := Entry(g.sources, ip), Entry(FinishDrop(g, i).sources, ip);
            before == after.(inFlight := after.inFlight + if ip == i then 1 else 0)
  {
    hide GateOk;
    UseSource(l, g, i);
    UseSource(l, g, ip);
  }

  /** Once every permit has finished dropping, nothing is counted as in flight. */
  lemma QuietGateIsEmpty(l: Limits, g: GateState, steps: seq<Step>)
    requires g == NEW_GATE && Runs(l, g, steps)
    requires After(l, g, steps).live == multiset{} && After(l, g, steps).dropping == multiset{}
    ensures After(l, g, steps).inFlight == 0
    ensures forall ip :: ip in After(l, g, steps).sources ==> After(l, g, steps).sources[ip].inFlight == 0
  {
    hide Runs, After;
    NewGateIsOk(l);
    EveryRunKeepsGate(l, g, steps);
    forall ip | ip in After(l, g, steps).sources
      ensures After(l, g, steps).sources[ip].inFlight == 0
    {
      UseSource(l, After(l, g, steps), ip);
    }
  }

  // ------------------------------------------------------------------------ cooldowns

  /** When a step happens, if its time matters. */
  function At(step: Step): Option<Time> {
    match step
    case TryAdmit(_, now) => Some(now)
    case CountRefusal(_, now) => Some(now)
    case _ => None
  }

  /** The clock the steps read never goes back, and stays within `from` and `to`. */
  predicate Timed(steps: seq<Step>, from: Time, to: Time)
    decreases |steps|
  {
    if steps == [] then from <= to
    else match At(steps[0])
         case None => Timed(steps[1..], from, to)
         case Some(now) => from <= now && Timed(steps[1..], now, to)
  }

  /** `ip` is being refused outright until `until`, at least. */
  predicate CoolsUntil(g: GateState, ip: Ip, until: Time) {
    ip in g.sources && g.sources[ip].cooldownUntil.Some? && g.sources[ip].cooldownUntil.value >= until
  }

  lemma CoolingOutlastsSweep(l: Limits, g: GateState, i: Ip, now: Time, ip: Ip, until: Time)
    requires CoolsUntil(g, ip, until) && now < until
    ensures CoolsUntil(AdmitLoad(l, g, i, now).0, ip, until)
    ensures i == ip ==> AdmitLoad(l, g, i, now) == (AdmitLoad(l, g, i, now).0.(held := g.held), Some(Cooling))
    ensures AdmitLoad(l, g, i, now).0.held in {g.held, Some(i)}
  {
    hide Swept;
    SweepKeepsEntries(g.sources, now, ip);
  }

  lemma CoolingOutlastsDrop(g: GateState, i: Ip, ip: Ip, until: Time)
    requires CoolsUntil(g, ip, until)
    ensures CoolsUntil(FinishDrop(g, i), ip, until) && FinishDrop(g, i).held == g.held
  {
  }

  lemma CoolingOutlastsRefusal(l: Limits, g: GateState, i: Ip, now: Time, ip: Ip, until: Time)
    requires CoolsUntil(g, ip, until) && until <= now + l.cooldown
    ensures CoolsUntil(Refuse(l, g, i, now), ip, until) && Refuse(l, g, i, now).held == g.held
  {
  }

  lemma CoolingOutlastsAdmit(g: GateState, ip: Ip, until: Time)
    requires CoolsUntil(g, ip, until) && g.held.Some?
    ensures CoolsUntil(AdmitAdd(g), ip, until) && AdmitAdd(g).held == None
  {
  }

  lemma CoolingLasts(l: Limits, g: GateState, step: Step, ip: Ip, from: Time, until: Time)
    requires Enabled(g, step) && CoolsUntil(g, ip, until) && until <= from + l.cooldown && g.held != Some(ip)
    requires At(step).Some? ==> from <= At(step).value < until
    ensures CoolsUntil(Next(l, g, step), ip, until) && Next(l, g, step).held != Some(ip)
    ensures step.TryAdmit? && step.ip == ip ==> AdmitLoad(l, g, ip, step.now).1 == Some(Cooling)
  {
    hide AdmitLoad, AdmitAdd, Refuse, FinishDrop;
    match step {
      case TryAdmit(i, now) => CoolingOutlastsSweep(l, g, i, now, ip, until);
      case FinishAdmit => CoolingOutlastsAdmit(g, ip, until);
      case CountRefusal(i, now) => CoolingOutlastsRefusal(l, g, i, now, ip, until);
      case StartDrop(i) =>
      case EndDrop(i) => CoolingOutlastsDrop(g, i, ip, until);
    }
  }

  lemma {:induction false} CoolingLastsOverRun(l: Limits, g: GateState, steps: seq<Step>, ip: Ip, from: Time, to: Time,
                                               until: Time)
    requires Runs(l, g, steps) && CoolsUntil(g, ip, until) && until <= from + l.cooldown && g.held != Some(ip)
    requires Timed(steps, from, to) && to < until
    ensures CoolsUntil(After(l, g, steps), ip, until)
    decreases |steps|
  {
    hide Enabled, Next, CoolsUntil;
    if steps == [] {
    } else {
      TimedHead(steps, from, to);
      CoolingLasts(l, g, steps[0], ip, from, until);
      CoolingLastsOverRun(l, Next(l, g, steps[0]), steps[1..], ip,
                          if At(steps[0]).Some? then At(steps[0]).value else from, to, until);
    }
  }

  lemma {:induction false} TimedHead(steps: seq<Step>, from: Time, to: Time)
    requires Timed(steps, from, to)
    ensures from <= to
    ensures steps != [] && At(steps[0]).Some? ==> from <= At(steps[0]).value <= to
    decreases |steps|
  {
    if steps == [] {
    } else {
      TimedHead(steps[1..], if At(steps[0]).Some? then At(steps[0]).value else from, to);
    }
  }

  /** Once a refusal puts a source in cooldown, whatever else happens in between,
      sweeps included, no `admit` of it gets past the check before the cooldown ends. */
  lemma NoAdmitWhileCooling(l: Limits, g: GateState, ip: Ip, start: Time, steps: seq<Step>, now: Time)
    requires Enabled(g, CountRefusal(ip, start))
    requires Next(l, g, CountRefusal(ip, start)).sources[ip].cooldownUntil == Some(start + l.cooldown)
    requires Runs(l, Next(l, g, CountRefusal(ip, start)), steps) && Timed(steps, start, now)
    requires now < start + l.cooldown
    ensures AdmitLoad(l, After(l, Next(l, g, CountRefusal(ip, start)), steps), ip, now).1 == Some(Cooling)
  {
    hide Runs, After, Timed;
    var g1 := Next(l, g, CountRefusal(ip, start));
    CoolingLastsOverRun(l, g1, steps, ip, start, now, start + l.cooldown);
    SweepKeepsEntries(After(l, g1, steps).sources, now, ip);
  }

  /** Within one refusal window of its first refusal, `start`. */
  predicate Within(t: Time, start: Time, window: Time) {
    start <= t && (t == start || t < start + window)
  }

  function RefusalsWithin(steps: seq<Step>, ip: Ip, start: Time, window: Time): nat {
    if steps == [] then 0
    else
      var last := steps[|steps| - 1];
      RefusalsWithin(steps[..|steps| - 1], ip, start, window)
      + (if last.CountRefusal? && last.ip == ip && Within(last.now, start, window) then 1 else 0)
  }

  /** The refusals counted against `ip` all happened, within a window of a first one. */
  ghost predicate Earned(l: Limits, g: GateState, steps: seq<Step>, ip: Ip) {
    ip in g.sources && g.sources[ip].windowStart.Some? ==>
      var start := g.sources[ip].windowStart.value;
      && CountRefusal(ip, start) in steps
      && g.sources[ip].refusals <= RefusalsWithin(steps, ip, start, l.window)
  }

  lemma MoreStepsMoreRefusals(steps: seq<Step>, step: Step, ip: Ip, start: Time, window: Time)
    ensures RefusalsWithin(steps + [step], ip, start, window)
            == RefusalsWithin(steps, ip, start, window)
               + (if step.CountRefusal? && step.ip == ip && Within(step.now, start, window) then 1 else 0)
  {
    assert (steps + [step])[..|steps|] == steps;
  }

  /** What `after` holds against `ip` was held against it before, too. */
  ghost predicate NothingNew(before: map<Ip, Source>, after: map<Ip, Source>, ip: Ip) {
    ip in after ==>
      && (after[ip].windowStart.Some? ==>
            ip in before && after[ip].windowStart == before[ip].windowStart
              && after[ip].refusals == before[ip].refusals)
      && (after[ip].cooldownUntil.Some? ==> ip in before && after[ip].cooldownUntil == before[ip].cooldownUntil)
  }

  lemma AdmitAddsNothing(l: Limits, g: GateState, i: Ip, now: Time, ip: Ip)
    ensures NothingNew(g.sources, AdmitLoad(l, g, i, now).0.sources, ip)
  {
    hide Swept;
    SweepKeepsEntries(g.sources, now, ip);
  }

  lemma DropAddsNothing(g: GateState, i: Ip, ip: Ip)
    ensures NothingNew(g.sources, FinishDrop(g, i).sources, ip)
  {
  }

  /** Only its own refusals count against a source; sweeps and drops may forget some. */
  lemma OnlyRefusalsCount(l: Limits, g: GateState, step: Step, ip: Ip)
    requires Enabled(g, step) && !(step.CountRefusal? && step.ip == ip)
    ensures NothingNew(g.sources, Next(l, g, step).sources, ip)
  {
    hide AdmitLoad, FinishDrop;
    match step {
      case TryAdmit(i, now) => AdmitAddsNothing(l, g, i, now, ip);
      case EndDrop(i) => DropAddsNothing(g, i, ip);
      case _ =>
    }
  }

  /** The window of `ip` did not start after `now`. */
  ghost predicate StartedBy(g: GateState, ip: Ip, now: Time) {
    ip in g.sources && g.sources[ip].windowStart.Some? ==> g.sources[ip].windowStart.value <= now
  }

  lemma EarnedByRefusal(l: Limits, g: GateState, steps: seq<Step>, ip: Ip, now: Time)
    requires Earned(l, g, steps, ip) && StartedBy(g, ip, now)
    ensures Earned(l, Refuse(l, g, ip, now), steps + [CountRefusal(ip, now)], ip)
    ensures StartedBy(Refuse(l, g, ip, now), ip, now)
  {
    hide RefusalsWithin;
    var step, s := CountRefusal(ip, now), RefuseSource(l, Entry(g.sources, ip), now);
    assert (steps + [step])[|steps|] == step;
    if s.windowStart.Some? {
      MoreStepsMoreRefusals(steps, step, ip, s.windowStart.value, l.window);
      assert Refuse(l, g, ip, now).sources[ip] == s;
    }
  }

  lemma EarnedStep(l: Limits, g: GateState, steps: seq<Step>, step: Step, ip: Ip, from: Time)
    requires Enabled(g, step) && Earned(l, g, steps, ip) && StartedBy(g, ip, from)
    requires At(step).Some? ==> from <= At(step).value
    ensures Earned(l, Next(l, g, step), steps + [step], ip)
    ensures StartedBy(Next(l, g, step), ip, if At(step).Some? then At(step).value else from)
  {
    hide RefusalsWithin, Refuse, AdmitLoad, AdmitAdd, FinishDrop, BeginDrop;
    if step.CountRefusal? && step.ip == ip {
      EarnedByRefusal(l, g, steps, ip, step.now);
    } else {
      OnlyRefusalsCount(l, g, step, ip);
      var sources := Next(l, g, step).sources;
      if ip in sources && sources[ip].windowStart.Some? {
        MoreStepsMoreRefusals(steps, step, ip, sources[ip].windowStart.value, l.window);
      }
    }
  }

  lemma {:induction false} EarnedRun(l: Limits, g: GateState, before: seq<Step>, steps: seq<Step>, ip: Ip, from: Time,
                                     to: Time)
    requires Runs(l, g, steps) && Timed(steps, from, to)
    requires Earned(l, g, before, ip) && StartedBy(g, ip, from)
    ensures Earned(l, After(l, g, steps), before + steps, ip) && StartedBy(After(l, g, steps), ip, to)
    decreases |steps|
  {
    hide Earned, Next, Enabled;
    if steps == [] {
      assert before + steps == before;
    } else {
      TimedHead(steps, from, to);
      EarnedStep(l, g, before, steps[0], ip, from);
      assert before + steps == before + [steps[0]] + steps[1..];
      EarnedRun(l, Next(l, g, steps[0]), before + [steps[0]], steps[1..], ip,
                if At(steps[0]).Some? then At(steps[0]).value else from, to);
    }
  }

  /** Whether a refusal now reaches the threshold. */
  predicate Trips(l: Limits, g: GateState, ip: Ip, now: Time) {
    RefuseSource(l, Entry(g.sources, ip), now).windowStart.None?
  }

  lemma OnlyTripsCool(l: Limits, g: GateState, step: Step, ip: Ip)
    requires Enabled(g, step) && ip in Next(l, g, step).sources
    requires Next(l, g, step).sources[ip].cooldownUntil.Some?
    requires Next(l, g, step).sources[ip].cooldownUntil != Entry(g.sources, ip).cooldownUntil
    ensures step.CountRefusal? && step.ip == ip && Trips(l, g, ip, step.now)
    ensures Next(l, g, step).sources[ip].cooldownUntil == Some(step.now + l.cooldown)
  {
    hide AdmitLoad, AdmitAdd, FinishDrop, BeginDrop;
    if !(step.CountRefusal? && step.ip == ip) {
      OnlyRefusalsCount(l, g, step, ip);
    }
  }

  /**
   * A source is put in cooldown only by a refusal that is at least the
   * threshold-th of its refusals within one window of that window's first.
   */
  lemma CooldownIsEarned(l: Limits, steps: seq<Step>, step: Step, ip: Ip, now: Time)
    requires Runs(l, NEW_GATE, steps) && Timed(steps, 0, now) && Enabled(After(l, NEW_GATE, steps), step)
    requires At(step).Some? ==> now <= At(step).value
    requires ip in Next(l, After(l, NEW_GATE, steps), step).sources
    requires Next(l, After(l, NEW_GATE, steps), step).sources[ip].cooldownUntil.Some?
    requires Next(l, After(l, NEW_GATE, steps), step).sources[ip].cooldownUntil
             != Entry(After(l, NEW_GATE, steps).sources, ip).cooldownUntil
    ensures step.CountRefusal? && step.ip == ip
    ensures Next(l, After(l, NEW_GATE, steps), step).sources[ip].cooldownUntil == Some(step.now + l.cooldown)
    ensures exists start ::
              && CountRefusal(ip, start) in steps + [step] && Within(step.now, start, l.window)
              && RefusalsWithin(steps + [step], ip, start, l.window) >= l.threshold
  {
    hide Runs, After, Timed, RefusalsWithin, Next;
    var g := After(l, NEW_GATE, steps);
    OnlyTripsCool(l, g, step, ip);
    EarnedRun(l, NEW_GATE, [], steps, ip, 0, now);
    assert [] + steps == steps;
    assert (steps + [step])[|steps|] == step;
    var s := Entry(g.sources, ip);
    var again := s.windowStart.None? || Since(s.windowStart.value, step.now) >= l.window;
    var start := if again then step.now else s.windowStart.value;
    MoreStepsMoreRefusals(steps, step, ip, start, l.window);
    assert Within(step.now, start, l.window) && CountRefusal(ip, start) in steps + [step];
  }

  // ------------------------------------------------------------ what an attempt is told

  /** A refusal of `ip` at `t` was one that starts a cooldown. */
  ghost predicate Tripped(l: Limits, g: GateState, steps: seq<Step>, ip: Ip, t: Time)
    requires Runs(l, g, steps)
    decreases |steps|
  {
    steps != [] && ((steps[0] == CountRefusal(ip, t) && Trips(l, g, ip, t))
                    || Tripped(l, Next(l, g, steps[0]), steps[1..], ip, t))
  }

  /** A cooldown that some refusal of `ip` started lasts beyond `now`. */
  ghost predicate Chilled(l: Limits, g: GateState, steps: seq<Step>, ip: Ip, now: Time)
    requires Runs(l, g, steps)
  {
    exists t: Time :: Tripped(l, g, steps, ip, t) && now < t + l.cooldown
  }

  /** No cooldown ends later than one that started now. */
  ghost predicate CoolsBy(l: Limits, g: GateState, ip: Ip, now: Time) {
    var until := Entry(g.sources, ip).cooldownUntil;
    until.Some? ==> until.value <= now + l.cooldown
  }

  lemma CoolsByStep(l: Limits, g: GateState, step: Step, ip: Ip, from: Time, now: Time)
    requires Enabled(g, step) && CoolsBy(l, g, ip, from) && from <= now
    requires At(step).Some? ==> from <= At(step).value <= now
    ensures CoolsBy(l, Next(l, g, step), ip, if At(step).Some? then At(step).value else from)
    ensures Cools(Entry(Next(l, g, step).sources, ip), now) <==>
            || Cools(Entry(g.sources, ip), now)
            || (step.CountRefusal? && step.ip == ip && Trips(l, g, ip, step.now) && now < step.now + l.cooldown)
  {
    hide AdmitLoad, AdmitAdd, FinishDrop;
    match step {
      case TryAdmit(i, t) => SweepCools(l, g, i, t, ip, now);
      case FinishAdmit => AddCools(g, ip);
      case CountRefusal(i, t) =>
      case StartDrop(i) =>
      case EndDrop(i) => DropCools(g, i, ip);
    }
  }

  lemma SweepCools(l: Limits, g: GateState, i: Ip, t: Time, ip: Ip, now: Time)
    requires t <= now
    ensures var before, after := Entry(g.sources, ip), Entry(AdmitLoad(l, g, i, t).0.sources, ip);
            && (after.cooldownUntil.Some? ==> after.cooldownUntil == before.cooldownUntil)
            && (Cools(after, now) <==> Cools(before, now))
  {
    hide Swept;
    SweepKeepsEntries(g.sources, t, ip);
  }

  lemma AddCools(g: GateState, ip: Ip)
    requires g.held.Some?
    ensures Entry(AdmitAdd(g).sources, ip).cooldownUntil == Entry(g.sources, ip).cooldownUntil
  {
  }

  lemma DropCools(g: GateState, i: Ip, ip: Ip)
    ensures Entry(FinishDrop(g, i).sources, ip).cooldownUntil == Entry(g.sources, ip).cooldownUntil
  {
  }

  lemma {:induction false} CoolsAfterRun(l: Limits, g: GateState, steps: seq<Step>, ip: Ip, from: Time, now: Time)
    requires Runs(l, g, steps) && Timed(steps, from, now) && CoolsBy(l, g, ip, from)
    ensures Cools(Entry(After(l, g, steps).sources, ip), now) <==>
            || Cools(Entry(g.sources, ip), now)
            || Chilled(l, g, steps, ip, now)
    decreases |steps|
  {
    hide Next, Enabled, Entry, Cools, CoolsBy, Trips;
    TimedHead(steps, from, now);
    if steps != [] {
      var g' := Next(l, g, steps[0]);
      CoolsByStep(l, g, steps[0], ip, from, now);
      CoolsAfterRun(l, g', steps[1..], ip, if At(steps[0]).Some? then At(steps[0]).value else from, now);
      TrippedFirst(l, g, steps, ip, now);
    }
  }

  lemma TrippedFirst(l: Limits, g: GateState, steps: seq<Step>, ip: Ip, now: Time)
    requires Runs(l, g, steps) && steps != []
    ensures Chilled(l, g, steps, ip, now) <==>
            || (steps[0].CountRefusal? && steps[0].ip == ip && Trips(l, g, ip, steps[0].now)
                && now < steps[0].now + l.cooldown)
            || Chilled(l, Next(l, g, steps[0]), steps[1..], ip, now)
  {
    hide Next, Enabled, Trips;
    var g' := Next(l, g, steps[0]);
    if Chilled(l, g, steps, ip, now) {
      var t: Time :| Tripped(l, g, steps, ip, t) && now < t + l.cooldown;
      if Tripped(l, g', steps[1..], ip, t) {
        assert Chilled(l, g', steps[1..], ip, now);
      } else {
        assert steps[0] == CountRefusal(ip, t) && Trips(l, g, ip, t);
      }
    }
    if steps[0].CountRefusal? && steps[0].ip == ip && Trips(l, g, ip, steps[0].now)
       && now < steps[0].now + l.cooldown {
      assert Tripped(l, g, steps, ip, steps[0].now);
    }
    if Chilled(l, g', steps[1..], ip, now) {
      var t: Time :| Tripped(l, g', steps[1..], ip, t) && now < t + l.cooldown;
      assert Tripped(l, g, steps, ip, t);
    }
  }

  /**
   * After any run, what an attempt of `ip` at `now` is told: that it is cooling, exactly
   * while a cooldown that one of its refusals started lasts; else that its source has its
   * fill of permits out; else that the gate has; else it is let in.
   */
  lemma WhatAnAttemptIsTold(l: Limits, steps: seq<Step>, ip: Ip, now: Time)
    requires Runs(l, NEW_GATE, steps) && Timed(steps, 0, now) && After(l, NEW_GATE, steps).held.None?
    ensures var g, told := After(l, NEW_GATE, steps), AdmitLoad(l, After(l, NEW_GATE, steps), ip, now).1;
            && (told == Some(Cooling) <==> Chilled(l, NEW_GATE, steps, ip, now))
            && (told != Some(Cooling) ==>
                  told == if g.live[ip] + g.dropping[ip] >= l.maxPerSource then Some(SourceBusy)
                          else if |g.live| >= l.maxInFlight then Some(GateBusy)
                          else None)
  {
    hide Runs, After, Swept, Chilled, Timed;
    NewGateIsOk(l);
    EveryRunKeepsGate(l, NEW_GATE, steps);
    var g := After(l, NEW_GATE, steps);
    UseSource(l, g, ip);
    CoolsAfterRun(l, NEW_GATE, steps, ip, 0, now);
    SweepKeepsEntries(g.sources, now, ip);
  }

  /** A permit given and dropped again changes no count. */
  lemma InAndOut(g: GateState, ip: Ip)
    requires g.held == Some(ip) && ip in g.sources
    ensures var s, out := g.sources[ip], FinishDrop(BeginDrop(AdmitAdd(g), ip), ip);
            && out.sources == (if s.inFlight == 0 && s.refusals == 0 && s.cooldownUntil.None? then g.sources - {ip}
                               else g.sources)
            && out.inFlight == g.inFlight && out.live == g.live && out.dropping == g.dropping
  {
    var s := g.sources[ip];
    assert g.live + multiset{ip} - multiset{ip} == g.live;
    assert g.dropping + multiset{ip} - multiset{ip} == g.dropping;
    var more := g.sources[ip := s.(inFlight := s.inFlight + 1)];
    assert more[ip := s] == g.sources && more - {ip} == g.sources - {ip};
  }

  /** An attempt that is let in and over without a refusal leaves no trace of its source,
      unless refusals are counted or other permits are out; an old cooldown, over by then,
      is forgotten too. */
  lemma AdmittedLeavesNoTrace(l: Limits, g: GateState, ip: Ip, now: Time)
    requires GateOk(l, g) && g.held.None? && AdmitLoad(l, g, ip, now).1.None?
    ensures var out := FinishDrop(BeginDrop(AdmitAdd(AdmitLoad(l, g, ip, now).0), ip), ip);
            && out.inFlight == g.inFlight && out.live == g.live && out.dropping == g.dropping
            && (ip in out.sources <==>
                  ip in Swept(g.sources, now) && (g.sources[ip].refusals > 0 || g.sources[ip].inFlight > 0))
  {
    hide Swept, GateOk, FinishDrop, BeginDrop, AdmitAdd;
    SweepKeepsEntries(g.sources, now, ip);
    InAndOut(AdmitLoad(l, g, ip, now).0, ip);
  }

  // ------------------------------------------------- what a sweep makes of the promise

  /** `ip` is in the map only for the refusals counted against it, and a sweep is due. */
  predicate Forgets(g: GateState, step: Step, ip: Ip) {
    && step.TryAdmit? && |g.sources| > SWEEP_ABOVE && ip in g.sources
    && g.sources[ip].inFlight == 0 && g.sources[ip].refusals > 0 && !Cools(g.sources[ip], step.now)
  }

  predicate NeverForgotten(l: Limits, g: GateState, steps: seq<Step>, ip: Ip)
    requires Runs(l, g, steps)
    decreases |steps|
  {
    steps == [] || (!Forgets(g, steps[0], ip) && NeverForgotten(l, Next(l, g, steps[0]), steps[1..], ip))
  }

  /** Refusals are safe while the map is small, or a permit of the source is out. */
  lemma KeptBySizeOrPermit(l: Limits, g: GateState, step: Step, ip: Ip)
    requires GateOk(l, g)
    ensures |g.sources| <= SWEEP_ABOVE || ip in g.live || ip in g.dropping ==> !Forgets(g, step, ip)
  {
    hide GateOk;
    UseSource(l, g, ip);
  }

  lemma {:induction false} RefusalsAppend(a: seq<Step>, b: seq<Step>, ip: Ip, start: Time, window: Time)
    ensures RefusalsWithin(a + b, ip, start, window)
            == RefusalsWithin(a, ip, start, window) + RefusalsWithin(b, ip, start, window)
    decreases |b|
  {
    if b == [] {
      assert a + b == a;
    } else {
      var n := |b| - 1;
      assert a + b == a + b[..n] + [b[n]];
      RefusalsAppend(a, b[..n], ip, start, window);
      MoreStepsMoreRefusals(a + b[..n], b[n], ip, start, window);
    }
  }

  function OneRefusal(step: Step, ip: Ip, start: Time, window: Time): nat {
    if step.CountRefusal? && step.ip == ip && Within(step.now, start, window) then 1 else 0
  }

  lemma RefusalsFirst(steps: seq<Step>, ip: Ip, start: Time, window: Time)
    requires steps != []
    ensures RefusalsWithin(steps, ip, start, window)
            == OneRefusal(steps[0], ip, start, window) + RefusalsWithin(steps[1..], ip, start, window)
  {
    assert steps == [steps[0]] + steps[1..];
    RefusalsAppend([steps[0]], steps[1..], ip, start, window);
    MoreStepsMoreRefusals([], steps[0], ip, start, window);
    assert [] + [steps[0]] == [steps[0]];
  }

  /** `n` refusals of `ip` are counted, in the window that `first` began. */
  ghost predicate Counting(g: GateState, ip: Ip, first: Time, n: nat) {
    Entry(g.sources, ip).refusals == n && Entry(g.sources, ip).windowStart == Some(first)
  }

  lemma SweepKeepsCount(l: Limits, g: GateState, i: Ip, now: Time, ip: Ip)
    ensures var s, s' := Entry(g.sources, ip), Entry(AdmitLoad(l, g, i, now).0.sources, ip);
            if Forgets(g, TryAdmit(i, now), ip) then s'.refusals == 0
            else s'.refusals == s.refusals && (s.refusals > 0 ==> s'.windowStart == s.windowStart)
  {
    hide Swept;
    SweepKeepsEntries(g.sources, now, ip);
    SweptIff(g.sources, now, ip);
  }

  lemma SweptIff(sources: map<Ip, Source>, now: Time, ip: Ip)
    ensures |sources| > SWEEP_ABOVE && ip in sources && sources[ip].inFlight == 0 && !Cools(sources[ip], now) ==>
              ip !in Swept(sources, now)
    ensures ip in sources && ip !in Swept(sources, now) ==> |sources| > SWEEP_ABOVE
  {
  }

  /** But for its own refusals, only a sweep changes what is counted against `ip`. */
  lemma OthersKeepCount(l: Limits, g: GateState, step: Step, ip: Ip)
    requires GateOk(l, g) && Enabled(g, step) && !(step.CountRefusal? && step.ip == ip)
    ensures var s, s' := Entry(g.sources, ip), Entry(Next(l, g, step).sources, ip);
            if Forgets(g, step, ip) then s'.refusals == 0
            else s'.refusals == s.refusals && (s.refusals > 0 ==> s'.windowStart == s.windowStart)
  {
    hide AdmitLoad, FinishDrop, Forgets, GateOk;
    match step {
      case TryAdmit(i, now) => SweepKeepsCount(l, g, i, now, ip);
      case EndDrop(i) =>
        DropForgetsNothing(l, g, i, ip);
        NotATry(g, step, ip);
      case _ => NotATry(g, step, ip);
    }
  }

  lemma NotATry(g: GateState, step: Step, ip: Ip)
    ensures !step.TryAdmit? ==> !Forgets(g, step, ip)
  {
  }

  lemma OwnRefusalCounts(l: Limits, g: GateState, ip: Ip, first: Time, n: nat, now: Time)
    requires Counting(g, ip, first, n) && first <= now < first + l.window
    ensures Trips(l, g, ip, now) <==> n + 1 >= Least(l)
    ensures n + 1 < Least(l) ==> Counting(Refuse(l, g, ip, now), ip, first, n + 1)
  {
  }

  /** A refusal never counts more than one. */
  lemma RefusalCountsOne(l: Limits, g: GateState, ip: Ip, now: Time)
    ensures Entry(g.sources, ip).refusals + 1 < Least(l) ==> !Trips(l, g, ip, now)
    ensures Entry(Refuse(l, g, ip, now).sources, ip).refusals <= Entry(g.sources, ip).refusals + 1
  {
  }

  /** Too few refusals to come never trip. */
  lemma {:induction false} TooFewToTrip(l: Limits, g: GateState, steps: seq<Step>, ip: Ip, first: Time, from: Time,
                                        now: Time)
    requires GateOk(l, g) && Runs(l, g, steps) && Timed(steps, from, now) && first <= from && now < first + l.window
    requires Entry(g.sources, ip).refusals + RefusalsWithin(steps, ip, first, l.window) + 1 < Least(l)
    ensures !Trips(l, After(l, g, steps), ip, now)
    decreases |steps|
  {
    hide GateOk, Next, Enabled, Trips, Refuse;
    if steps == [] {
      RefusalCountsOne(l, g, ip, now);
    } else {
      var step, g' := steps[0], Next(l, g, steps[0]);
      TimedHead(steps, from, now);
      StepKeepsGate(l, g, step);
      RefusalsFirst(steps, ip, first, l.window);
      if step.CountRefusal? && step.ip == ip {
        RefusalCountsOne(l, g, ip, step.now);
        RefusalStep(l, g, step);
      } else {
        OthersKeepCount(l, g, step, ip);
      }
      TooFewToTrip(l, g', steps[1..], ip, first, if At(step).Some? then At(step).value else from, now);
    }
  }

  lemma RefusalStep(l: Limits, g: GateState, step: Step)
    requires step.CountRefusal? && Enabled(g, step)
    ensures Next(l, g, step) == Refuse(l, g, step.ip, step.now)
  {
  }

  lemma {:induction false} CountingTripsIff(l: Limits, g: GateState, steps: seq<Step>, ip: Ip, first: Time, n: nat,
                                            from: Time, now: Time)
    requires GateOk(l, g) && Runs(l, g, steps) && Timed(steps, from, now) && first <= from && now < first + l.window
    requires Counting(g, ip, first, n) && n > 0 && n + RefusalsWithin(steps, ip, first, l.window) + 1 == Least(l)
    ensures Trips(l, After(l, g, steps), ip, now) <==> NeverForgotten(l, g, steps, ip)
    decreases |steps|
  {
    hide GateOk, Next, Enabled, Trips, Refuse, Forgets, RefusalsWithin;
    TimedHead(steps, from, now);
    if steps == [] {
      OwnRefusalCounts(l, g, ip, first, n, now);
      NoRefusals(ip, first, l.window);
    } else {
      var step, g', rest := steps[0], Next(l, g, steps[0]), steps[1..];
      var at := if At(step).Some? then At(step).value else from;
      StepKeepsGate(l, g, step);
      RefusalsFirst(steps, ip, first, l.window);
      if step.CountRefusal? && step.ip == ip {
        OwnRefusalCounts(l, g, ip, first, n, step.now);
        RefusalStep(l, g, step);
        NotATry(g, step, ip);
        CountingTripsIff(l, g', rest, ip, first, n + 1, at, now);
      } else {
        OthersKeepCount(l, g, step, ip);
        if Forgets(g, step, ip) {
          TooFewToTrip(l, g', rest, ip, first, at, now);
        } else {
          CountingTripsIff(l, g', rest, ip, first, n, at, now);
        }
      }
    }
  }

  lemma NoRefusals(ip: Ip, first: Time, window: Time)
    ensures RefusalsWithin([], ip, first, window) == 0
  {
  }

  /** A refusal of `ip` at `now` would be the first one of a window. */
  predicate OpensWindow(l: Limits, g: GateState, ip: Ip, now: Time) {
    var s := Entry(g.sources, ip);
    s.windowStart.None? || Since(s.windowStart.value, now) >= l.window
  }

  /**
   * In any run, and for any threshold above 1: of the refusals of a source in the
   * window that `first` begins, the one that is the threshold-th starts a cooldown
   * exactly when no sweep in between took the source out of the map.
   */
  lemma ThresholdCoolsIff(l: Limits, before: seq<Step>, ip: Ip, first: Time, steps: seq<Step>, now: Time)
    requires Runs(l, NEW_GATE, before) && Enabled(After(l, NEW_GATE, before), CountRefusal(ip, first))
    requires OpensWindow(l, After(l, NEW_GATE, before), ip, first)
    requires var g := Next(l, After(l, NEW_GATE, before), CountRefusal(ip, first));
             Runs(l, g, steps) && Enabled(After(l, g, steps), CountRefusal(ip, now))
    requires Timed(steps, first, now) && now < first + l.window
    requires RefusalsWithin(steps, ip, first, l.window) + 2 == l.threshold
    ensures var g := Next(l, After(l, NEW_GATE, before), CountRefusal(ip, first));
            var last := Next(l, After(l, g, steps), CountRefusal(ip, now)).sources[ip];
            && (Trips(l, After(l, g, steps), ip, now) <==> NeverForgotten(l, g, steps, ip))
            && (if NeverForgotten(l, g, steps, ip)
                then last.cooldownUntil == Some(now + l.cooldown) && last.refusals == 0
                else last.cooldownUntil == Entry(After(l, g, steps).sources, ip).cooldownUntil)
  {
    hide Runs, After, Timed, RefusalsWithin, GateOk;
    NewGateIsOk(l);
    EveryRunKeepsGate(l, NEW_GATE, before);
    var g0 := After(l, NEW_GATE, before);
    var g := Next(l, g0, CountRefusal(ip, first));
    StepKeepsGate(l, g0, CountRefusal(ip, first));
    assert Counting(g, ip, first, 1);
    CountingTripsIff(l, g, steps, ip, first, 1, first, now);
  }

  // The sweep does forget: an address refused seven times, 4096 others refused once,
  // and its own eighth attempt, whose `admit` sweeps the map.

  const DEFAULT_LIMITS := Limits(64, 4, 8, 60, 60)

  const EIGHT_TIMES: Ip := [192, 0, 2, 1]

  function Host(k: nat): Ip
    requires k < SWEEP_ABOVE
  {
    [10, 0, (k / 256) as Byte, (k % 256) as Byte]
  }

  /** One link attempt of `ip` that is let in, refused, and over, all at time 0. */
  function Visit(ip: Ip): seq<Step> {
    [TryAdmit(ip, 0), FinishAdmit, CountRefusal(ip, 0), StartDrop(ip), EndDrop(ip)]
  }

  function Visits(ip: Ip, n: nat): seq<Step> {
    if n == 0 then [] else Visits(ip, n - 1) + Visit(ip)
  }

  function Crowd(n: nat): seq<Step>
    requires n <= SWEEP_ABOVE
  {
    if n == 0 then [] else Crowd(n - 1) + Visit(Host(n - 1))
  }

  /** What the gate then holds: so many refusals of the one, and one of each other. */
  function CrowdMap(n: nat): (r: map<Ip, Source>)
    requires n <= SWEEP_ABOVE
    ensures EIGHT_TIMES in r && r[EIGHT_TIMES] == Source(0, 7, Some(0), None)
    ensures |r| == n + 1 && forall k :: n <= k < SWEEP_ABOVE ==> Host(k) !in r
    ensures forall ip :: ip in r ==> r[ip].inFlight == 0 && r[ip].cooldownUntil.None?
  {
    if n == 0 then map[EIGHT_TIMES := Source(0, 7, Some(0), None)]
    else CrowdMap(n - 1)[Host(n - 1) := Source(0, 1, Some(0), None)]
  }

  function GateWith(sources: map<Ip, Source>): GateState {
    NEW_GATE.(sources := sources)
  }

  /** The gate while the permit of `ip`, whose source is `s`, is out or is dropping. */
  function OneOut(sources: map<Ip, Source>, ip: Ip, s: Source, dropping: bool): GateState {
    GateState(if dropping then 0 else 1, sources[ip := s.(inFlight := 1)], None,
              if dropping then multiset{} else multiset{ip}, if dropping then multiset{ip} else multiset{})
  }

  function OneHeld(sources: map<Ip, Source>, ip: Ip, s: Source): GateState {
    GateState(0, sources[ip := s], Some(ip), multiset{}, multiset{})
  }

  lemma LetIn(sources: map<Ip, Source>, ip: Ip)
    requires var s := Entry(Swept(sources, 0), ip); s.inFlight == 0 && s.cooldownUntil.None?
    ensures var g, s := GateWith(sources), Entry(Swept(sources, 0), ip);
            && Next(DEFAULT_LIMITS, g, TryAdmit(ip, 0)) == OneHeld(Swept(sources, 0), ip, s)
            && Next(DEFAULT_LIMITS, OneHeld(Swept(sources, 0), ip, s), FinishAdmit)
               == OneOut(Swept(sources, 0), ip, s, false)
  {
    hide Swept;
    var swept := Swept(sources, 0);
    var s := Entry(swept, ip);
    assert s.(cooldownUntil := None) == s;
    assert swept[ip := s][ip := s.(inFlight := 1)] == swept[ip := s.(inFlight := 1)];
    assert multiset{} + multiset{ip} == multiset{ip};
  }

  lemma RefusedOnce(sources: map<Ip, Source>, ip: Ip, n: nat)
    requires n < 7
    ensures var s, s' := Source(0, n, if n == 0 then None else Some(0), None), Source(0, n + 1, Some(0), None);
            Next(DEFAULT_LIMITS, OneOut(sources, ip, s, false), CountRefusal(ip, 0)) == OneOut(sources, ip, s', false)
  {
    var s, s' := Source(1, n, if n == 0 then None else Some(0), None), Source(1, n + 1, Some(0), None);
    assert RefuseSource(DEFAULT_LIMITS, s, 0) == s';
    assert sources[ip := s][ip := s'] == sources[ip := s'];
  }

  lemma Leaves(sources: map<Ip, Source>, ip: Ip, s: Source)
    requires s.inFlight == 0 && s.refusals > 0
    ensures Enabled(OneOut(sources, ip, s, false), StartDrop(ip))
    ensures Next(DEFAULT_LIMITS, OneOut(sources, ip, s, false), StartDrop(ip)) == OneOut(sources, ip, s, true)
    ensures Enabled(OneOut(sources, ip, s, true), EndDrop(ip))
    ensures Next(DEFAULT_LIMITS, OneOut(sources, ip, s, true), EndDrop(ip)) == GateWith(sources[ip := s])
  {
    assert multiset{ip} - multiset{ip} == multiset{} && multiset{} + multiset{ip} == multiset{ip};
    var s1 := s.(inFlight := 1);
    assert s1.(inFlight := 0) == s;
    assert sources[ip := s1][ip := s] == sources[ip := s];
  }

  lemma VisitCounts(sources: map<Ip, Source>, ip: Ip, n: nat)
    requires |sources| <= SWEEP_ABOVE && n < 7
    requires Entry(sources, ip) == Source(0, n, if n == 0 then None else Some(0), None)
    ensures Runs(DEFAULT_LIMITS, GateWith(sources), Visit(ip))
    ensures After(DEFAULT_LIMITS, GateWith(sources), Visit(ip))
            == GateWith(sources[ip := Source(0, n + 1, Some(0), None)])
  {
    hide Runs, After, Next, OneOut, Entry;
    var s, s' := Entry(sources, ip), Source(0, n + 1, Some(0), None);
    LetIn(sources, ip);
    RefusedOnce(sources, ip, n);
    Leaves(sources, ip, s');
    NoneHeld(sources, ip, s);
    StepByStep(DEFAULT_LIMITS, GateWith(sources), Visit(ip),
               [GateWith(sources), OneHeld(sources, ip, s), OneOut(sources, ip, s, false),
                OneOut(sources, ip, s', false), OneOut(sources, ip, s', true), GateWith(sources[ip := s'])]);
  }

  lemma NoneHeld(sources: map<Ip, Source>, ip: Ip, s: Source)
    ensures OneOut(sources, ip, s, false).held.None?
  {
  }

  lemma {:induction false} StepByStep(l: Limits, g: GateState, steps: seq<Step>, states: seq<GateState>)
    requires |states| == |steps| + 1 && states[0] == g
    requires forall k :: 0 <= k < |steps| ==>
               Enabled(states[k], steps[k]) && states[k + 1] == Next(l, states[k], steps[k])
    ensures Runs(l, g, steps) && After(l, g, steps) == states[|steps|]
    decreases |steps|
  {
    hide Enabled, Next;
    if steps != [] {
      StepByStep(l, states[1], steps[1..], states[1..]);
    }
  }

  lemma {:induction false} RunsAppend(l: Limits, g: GateState, a: seq<Step>, b: seq<Step>)
    requires Runs(l, g, a) && Runs(l, After(l, g, a), b)
    ensures Runs(l, g, a + b) && After(l, g, a + b) == After(l, After(l, g, a), b)
    decreases |a|
  {
    hide Enabled, Next;
    if a == [] {
      assert a + b == b;
    } else {
      assert (a + b)[0] == a[0] && (a + b)[1..] == a[1..] + b;
      RunsAppend(l, Next(l, g, a[0]), a[1..], b);
    }
  }

  lemma {:induction false} VisitsCount(n: nat)
    requires n <= 7
    ensures Runs(DEFAULT_LIMITS, NEW_GATE, Visits(EIGHT_TIMES, n))
    ensures After(DEFAULT_LIMITS, NEW_GATE, Visits(EIGHT_TIMES, n))
            == GateWith(if n == 0 then map[] else map[EIGHT_TIMES := Source(0, n, Some(0), None)])
    ensures RefusalsWithin(Visits(EIGHT_TIMES, n), EIGHT_TIMES, 0, 60) == n
  {
    hide Runs, After, Visit;
    if n == 0 {
      NothingRun(DEFAULT_LIMITS, NEW_GATE);
    } else {
      VisitsCount(n - 1);
      var sources := if n == 1 then map[] else map[EIGHT_TIMES := Source(0, n - 1, Some(0), None)];
      VisitCounts(sources, EIGHT_TIMES, n - 1);
      RunsAppend(DEFAULT_LIMITS, NEW_GATE, Visits(EIGHT_TIMES, n - 1), Visit(EIGHT_TIMES));
      RefusalsAppend(Visits(EIGHT_TIMES, n - 1), Visit(EIGHT_TIMES), EIGHT_TIMES, 0, 60);
      VisitRefusals(EIGHT_TIMES);
      assert sources[EIGHT_TIMES := Source(0, n, Some(0), None)] == map[EIGHT_TIMES := Source(0, n, Some(0), None)];
    }
  }

  lemma NothingRun(l: Limits, g: GateState)
    ensures Runs(l, g, []) && After(l, g, []) == g
  {
  }

  lemma VisitRefusals(ip: Ip)
    ensures RefusalsWithin(Visit(ip), ip, 0, 60) == 1
  {
    RefusalsFirst(Visit(ip), ip, 0, 60);
    RefusalsFirst(Visit(ip)[1..], ip, 0, 60);
    RefusalsFirst(Visit(ip)[2..], ip, 0, 60);
    RefusalsFirst(Visit(ip)[3..], ip, 0, 60);
    RefusalsFirst(Visit(ip)[4..], ip, 0, 60);
  }

  lemma CrowdGrows(n: nat)
    requires n <= SWEEP_ABOVE
    ensures n == 0 ==> Crowd(n) == []
    ensures n > 0 ==> |CrowdMap(n - 1)| == n && Entry(CrowdMap(n - 1), Host(n - 1)) == NEW_SOURCE
    ensures n > 0 ==> CrowdMap(n) == CrowdMap(n - 1)[Host(n - 1) := Source(0, 1, Some(0), None)]
    ensures n > 0 ==> Crowd(n) == Crowd(n - 1) + Visit(Host(n - 1))
  {
    hide Host;
  }

  lemma {:induction false} CrowdComes(n: nat)
    requires n <= SWEEP_ABOVE
    ensures Runs(DEFAULT_LIMITS, GateWith(CrowdMap(0)), Crowd(n))
    ensures After(DEFAULT_LIMITS, GateWith(CrowdMap(0)), Crowd(n)) == GateWith(CrowdMap(n))
  {
    hide Runs, After, Visit, CrowdMap, Entry, Host, Crowd, GateWith;
    CrowdGrows(n);
    if n == 0 {
      NothingRun(DEFAULT_LIMITS, GateWith(CrowdMap(0)));
    } else {
      CrowdComes(n - 1);
      VisitCounts(CrowdMap(n - 1), Host(n - 1), 0);
      RunsAppend(DEFAULT_LIMITS, GateWith(CrowdMap(0)), Crowd(n - 1), Visit(Host(n - 1)));
    }
  }

  /** With the default limits, eight refused attempts of one address, all at one moment,
      do not cool it down if 4096 other addresses were each refused once before its last. */
  lemma SweepForgets()
    ensures var visits := Visits(EIGHT_TIMES, 7);
            var steps := visits + Crowd(SWEEP_ABOVE) + [TryAdmit(EIGHT_TIMES, 0), FinishAdmit];
            && RefusalsWithin(visits, EIGHT_TIMES, 0, 60) == 7 && Runs(DEFAULT_LIMITS, NEW_GATE, steps)
            && var g := After(DEFAULT_LIMITS, NEW_GATE, steps);
               Enabled(g, CountRefusal(EIGHT_TIMES, 0)) && !Trips(DEFAULT_LIMITS, g, EIGHT_TIMES, 0)
  {
    hide Runs, After, Visits, Crowd, RefusalsWithin;
    var l, visits, crowd := DEFAULT_LIMITS, Visits(EIGHT_TIMES, 7), Crowd(SWEEP_ABOVE);
    VisitsCount(7);
    CrowdComes(SWEEP_ABOVE);
    RunsAppend(l, NEW_GATE, visits, crowd);
    var g := GateWith(CrowdMap(SWEEP_ABOVE));
    LastAttempt(CrowdMap(SWEEP_ABOVE));
    RunsAppend(l, NEW_GATE, visits + crowd, [TryAdmit(EIGHT_TIMES, 0), FinishAdmit]);
  }

  lemma LastAttempt(sources: map<Ip, Source>)
    requires |sources| > SWEEP_ABOVE
    requires forall ip :: ip in sources ==> sources[ip].inFlight == 0 && sources[ip].cooldownUntil.None?
    ensures var g, steps := GateWith(sources), [TryAdmit(EIGHT_TIMES, 0), FinishAdmit];
            && Runs(DEFAULT_LIMITS, g, steps) && After(DEFAULT_LIMITS, g, steps).held.None?
            && !Trips(DEFAULT_LIMITS, After(DEFAULT_LIMITS, g, steps), EIGHT_TIMES, 0)
  {
    hide Runs, After, Next;
    var l, g, steps := DEFAULT_LIMITS, GateWith(sources), [TryAdmit(EIGHT_TIMES, 0), FinishAdmit];
    assert Swept(sources, 0) == map[];
    LetIn(sources, EIGHT_TIMES);
    StepByStep(l, g, steps,
               [g, OneHeld(map[], EIGHT_TIMES, NEW_SOURCE), OneOut(map[], EIGHT_TIMES, NEW_SOURCE, false)]);
  }
}
