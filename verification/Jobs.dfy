/**
 * Long-running jobs (ndn-compute/src/service.rs and client.rs): an invocation
 * starts a run at most once per thunk name and answers with a thunk, polls of the
 * thunk name answer with the run's outcome once there is one.
 */
module Jobs {
  import opened Common
  import opened Tlv
  import opened Thunk
  import Messages

  type Component = Messages.Component

  /** The name component `thunk`. */
  const THUNK_KEYWORD: Component := Messages.Component(8, [0x74, 0x68, 0x75, 0x6E, 0x6B])

  /** What a job is registered with: `decodes` tells which argument components
      its argument type accepts. */
  datatype Job = Job(prefix: Name, nonced: bool, estimate: nat, decodes: seq<Component> -> bool)

  datatype JobState = Pending | Done(content: Bytes) | Failed(why: string)

  datatype Answer = Content(content: Bytes) | HandlerFailed(why: string) | NotFound | BadRequest

  /** The name components carrying a call's arguments: what follows the prefix,
      but for the trailing nonce of an opaque call. */
  function ArgComponents(comps: Name, prefixLen: nat, nonced: bool): Result<seq<Component>, ()> {
    if |comps| < prefixLen then Err(())
    else if !nonced then Ok(comps[prefixLen..])
    else if |comps| == 0 || |comps| - 1 < prefixLen then Err(())
    else Ok(comps[prefixLen..|comps| - 1])
  }

  function ThunkRoot(job: Job): Name {
    job.prefix + [THUNK_KEYWORD]
  }

  /** It carries every component after the prefix, the nonce included. */
  function ThunkName(job: Job, name: Name): Name
    requires |job.prefix| <= |name|
  {
    ThunkRoot(job) + name[|job.prefix|..]
  }

  // --------------------------------------------------------------------- the shared store

  /** A run begun: which job's, on what arguments, under which thunk name. */
  datatype Start = Start(key: Name, job: Job, args: seq<Component>)

  /** The states, the runs still going, and the runs begun so far. */
  datatype Store = Store(jobs: map<Name, JobState>, running: multiset<Name>, starts: seq<Start>)

  const NO_JOBS := Store(map[], multiset{}, [])

  /** The arguments a call to `job` runs on, if it runs. */
  function Callable(job: Job, name: Name): Option<seq<Component>> {
    match ArgComponents(name, |job.prefix|, job.nonced)
    case Err(_) => None
    case Ok(args) => if job.decodes(args) then Some(args) else None
  }

  function InvokeStep(s: Store, job: Job, name: Name): (Store, Answer) {
    match Callable(job, name)
    case None => (s, BadRequest)
    case Some(args) =>
      var key := ThunkName(job, name);
      (if key in s.jobs then s
       else Store(s.jobs[key := Pending], s.running + multiset{key}, s.starts + [Start(key, job, args)]),
       Content(ToContent(Thunk(key, job.estimate))))
  }

  function StateOf(outcome: Result<Bytes, string>): JobState {
    match outcome
    case Ok(out) => Done(out)
    case Err(e) => Failed(e)
  }

  function FinishStep(s: Store, key: Name, outcome: Result<Bytes, string>): Store {
    s.(jobs := s.jobs[key := StateOf(outcome)], running := s.running - multiset{key})
  }

  function PollAnswer(s: Store, job: Job, name: Name): Answer {
    if name !in s.jobs then NotFound
    else match s.jobs[name]
         case Done(content) => Content(content)
         case Failed(e) => HandlerFailed(e)
         case Pending => Content(ToContent(Thunk(name, job.estimate)))
  }

  /** The map every handler of a service shares, under its lock. */
  class JobStore {
    var jobs: map<Name, JobState>
    ghost var running: multiset<Name>
    ghost var starts: seq<Start>

    constructor ()
      ensures View() == NO_JOBS
    {
      jobs, running, starts := map[], multiset{}, [];
    }

    ghost function View(): Store
      reads this
    {
      Store(jobs, running, starts)
    }

    /** `InvokeHandler::handle`. */
    method Invoke(job: Job, name: Name) returns (a: Answer)
      modifies this
      ensures (View(), a) == InvokeStep(old(View()), job, name)
    {
      var args := ArgComponents(name, |job.prefix|, job.nonced);
      if args.Err? || !job.decodes(args.value) {
        return BadRequest;
      }
      var key := ThunkName(job, name);
      if key !in jobs {
        jobs := jobs[key := Pending];
        running, starts := running + multiset{key}, starts + [Start(key, job, args.value)];
      }
      a := Content(ToContent(Thunk(key, job.estimate)));
    }

    /** The end of the spawned task. */
    method Finish(key: Name, outcome: Result<Bytes, string>)
      modifies this
      ensures View() == FinishStep(old(View()), key, outcome)
    {
      jobs, running := jobs[key := StateOf(outcome)], running - multiset{key};
    }

    /** `PollHandler::handle`. */
    method Poll(job: Job, name: Name) returns (a: Answer)
      ensures a == PollAnswer(View(), job, name)
    {
      if name !in jobs {
        return NotFound;
      }
      match jobs[name] {
        case Done(content) => a := Content(content);
        case Failed(e) => a := HandlerFailed(e);
        case Pending => a := Content(ToContent(Thunk(name, job.estimate)));
      }
    }
  }

  // ------------------------------------------------------------------- every interleaving

  datatype Event =
    | Invoked(job: Job, name: Name)
    | Finished(key: Name, outcome: Result<Bytes, string>)
    | Polled(name: Name)

  /** Only a run still going ends. */
  predicate Enabled(s: Store, e: Event) {
    e.Finished? ==> e.key in s.running
  }

  function Next(s: Store, e: Event): Store {
    match e
    case Invoked(job, name) => InvokeStep(s, job, name).0
    case Finished(key, outcome) => FinishStep(s, key, outcome)
    case Polled(_) => s
  }

  predicate Happens(s: Store, events: seq<Event>)
    decreases |events|
  {
    events == [] || (Enabled(s, events[0]) && Happens(Next(s, events[0]), events[1..]))
  }

  function After(s: Store, events: seq<Event>): Store
    decreases |events|
  {
    if events == [] then s else After(Next(s, events[0]), events[1..])
  }

  function StartsOf(starts: seq<Start>, key: Name): seq<Start> {
    if starts == [] then []
    else
      var last := starts[|starts| - 1];
      StartsOf(starts[..|starts| - 1], key) + (if last.key == key then [last] else [])
  }

  function OutcomesOf(events: seq<Event>, key: Name): seq<Result<Bytes, string>> {
    if events == [] then []
    else
      var last := events[|events| - 1];
      OutcomesOf(events[..|events| - 1], key) + (if last.Finished? && last.key == key then [last.outcome] else [])
  }

  /** Whether the calls so far started a run under `key`. */
  ghost predicate Called(events: seq<Event>, key: Name) {
    exists e :: e in events && Calls(e, key)
  }

  predicate Calls(e: Event, key: Name) {
    e.Invoked? && Callable(e.job, e.name).Some? && ThunkName(e.job, e.name) == key
  }

  /** A start is of an accepted call under its thunk name. */
  ghost predicate Honest(st: Start) {
    exists name: Name :: Callable(st.job, name) == Some(st.args) && ThunkName(st.job, name) == st.key
  }

  /** What the events say of one key is what the store holds of it. */
  ghost predicate KeyTold(s: Store, events: seq<Event>, key: Name) {
    var outcomes := OutcomesOf(events, key);
    && (key in s.jobs <==> Called(events, key))
    && |StartsOf(s.starts, key)| == (if key in s.jobs then 1 else 0)
    && (forall st :: st in StartsOf(s.starts, key) ==> st.key == key && Honest(st))
    && |outcomes| <= 1 && (key !in s.jobs ==> outcomes == [])
    && s.running[key] == (if key in s.jobs && outcomes == [] then 1 else 0)
    && (key in s.jobs ==> s.jobs[key] == if outcomes == [] then Pending else StateOf(outcomes[0]))
  }

  lemma OneMoreStart(starts: seq<Start>, st: Start, key: Name)
    ensures StartsOf(starts + [st], key) == StartsOf(starts, key) + (if st.key == key then [st] else [])
  {
    assert (starts + [st])[..|starts|] == starts;
  }

  lemma OneMoreEvent(events: seq<Event>, e: Event, key: Name)
    ensures OutcomesOf(events + [e], key) == OutcomesOf(events, key)
                                             + (if e.Finished? && e.key == key then [e.outcome] else [])
    ensures Called(events + [e], key) <==> Called(events, key) || Calls(e, key)
  {
    hide Callable, ThunkName;
    assert (events + [e])[..|events|] == events;
    assert forall x :: x in events + [e] <==> x in events || x == e;
  }

  lemma InvokedTold(s: Store, events: seq<Event>, job: Job, name: Name, key: Name)
    requires KeyTold(s, events, key)
    ensures KeyTold(Next(s, Invoked(job, name)), events + [Invoked(job, name)], key)
  {
    hide OutcomesOf, Called, StartsOf, Callable, ThunkName;
    OneMoreEvent(events, Invoked(job, name), key);
    if Callable(job, name).Some? {
      CallableIsLong(job, name);
      var k, st := ThunkName(job, name), Start(ThunkName(job, name), job, Callable(job, name).value);
      if k !in s.jobs {
        OneMoreStart(s.starts, st, key);
        assert Honest(st);
      }
    }
  }

  lemma CallableIsLong(job: Job, name: Name)
    requires Callable(job, name).Some?
    ensures |job.prefix| <= |name|
  {
  }

  lemma FinishedTold(s: Store, events: seq<Event>, k: Name, outcome: Result<Bytes, string>, key: Name)
    requires KeyTold(s, events, key) && KeyTold(s, events, k) && k in s.running
    ensures KeyTold(Next(s, Finished(k, outcome)), events + [Finished(k, outcome)], key)
  {
    hide OutcomesOf, Called, StartsOf, Honest;
    OneMoreEvent(events, Finished(k, outcome), key);
  }

  lemma {:induction false} RunTold(s: Store, before: seq<Event>, events: seq<Event>, key: Name)
    requires Happens(s, events) && forall k :: KeyTold(s, before, k)
    ensures KeyTold(After(s, events), before + events, key)
    decreases |events|
  {
    hide KeyTold, Next;
    if events == [] {
      assert before + events == before;
    } else {
      var e := events[0];
      forall k
        ensures KeyTold(Next(s, e), before + [e], k)
      {
        StepTold(s, before, e, k);
      }
      assert before + events == before + [e] + events[1..];
      RunTold(Next(s, e), before + [e], events[1..], key);
    }
  }

  lemma StepTold(s: Store, before: seq<Event>, e: Event, key: Name)
    requires Enabled(s, e) && forall k :: KeyTold(s, before, k)
    ensures KeyTold(Next(s, e), before + [e], key)
  {
    hide KeyTold, Next;
    assert KeyTold(s, before, key);
    match e {
      case Invoked(job, name) => InvokedTold(s, before, job, name, key);
      case Finished(k, outcome) =>
        assert KeyTold(s, before, k);
        FinishedTold(s, before, k, outcome, key);
      case Polled(name) => PolledTold(s, before, name, key);
    }
  }

  lemma PolledTold(s: Store, events: seq<Event>, name: Name, key: Name)
    requires KeyTold(s, events, key)
    ensures KeyTold(Next(s, Polled(name)), events + [Polled(name)], key)
  {
    hide OutcomesOf, Called, StartsOf, Honest;
    OneMoreEvent(events, Polled(name), key);
  }

  /**
   * In every interleaving of invocations, polls and completions: a run starts
   * under a thunk name exactly if it was called, and then once; it ends at most
   * once; the state is Pending until then and the outcome ever after.
   */
  lemma EveryRunStartsOnce(events: seq<Event>, key: Name)
    requires Happens(NO_JOBS, events)
    ensures KeyTold(After(NO_JOBS, events), events, key)
  {
    hide KeyTold;
    forall k
      ensures KeyTold(NO_JOBS, [], k)
    {
      NothingTold(k);
    }
    RunTold(NO_JOBS, [], events, key);
    assert [] + events == events;
  }

  lemma NothingTold(key: Name)
    ensures KeyTold(NO_JOBS, [], key)
  {
  }

  lemma {:induction false} AfterAppend(s: Store, a: seq<Event>, b: seq<Event>)
    ensures After(s, a + b) == After(After(s, a), b)
    ensures Happens(s, a + b) ==> Happens(s, a) && Happens(After(s, a), b)
    decreases |a|
  {
    hide Next, Enabled;
    if a == [] {
      assert a + b == b;
    } else {
      assert (a + b)[0] == a[0] && (a + b)[1..] == a[1..] + b;
      AfterAppend(Next(s, a[0]), a[1..], b);
    }
  }

  lemma {:induction false} OutcomesAppend(a: seq<Event>, b: seq<Event>, key: Name)
    ensures |OutcomesOf(a + b, key)| >= |OutcomesOf(a, key)|
    ensures OutcomesOf(a + b, key)[..|OutcomesOf(a, key)|] == OutcomesOf(a, key)
    decreases |b|
  {
    if b == [] {
      assert a + b == a;
    } else {
      var n := |b| - 1;
      assert a + b == a + b[..n] + [b[n]];
      OutcomesAppend(a, b[..n], key);
      OneMoreEvent(a + b[..n], b[n], key);
    }
  }

  /** Two finished polls of one thunk name agree, whatever happened in between:
      the first outcome stays, and it is that of the one run. */
  lemma FinishedPollsAgree(a: seq<Event>, b: seq<Event>, key: Name, job: Job, job': Job)
    requires Happens(NO_JOBS, a + b)
    requires key in After(NO_JOBS, a).jobs && After(NO_JOBS, a).jobs[key] != Pending
    ensures OutcomesOf(a + b, key) == OutcomesOf(a, key) && |OutcomesOf(a, key)| == 1
    ensures PollAnswer(After(NO_JOBS, a), job, key) == PollAnswer(After(NO_JOBS, a + b), job', key)
    ensures PollAnswer(After(NO_JOBS, a), job, key)
            == match OutcomesOf(a, key)[0] case Ok(out) => Content(out) case Err(e) => HandlerFailed(e)
  {
    hide Happens, After, Called, StartsOf, Honest, OutcomesOf;
    AfterAppend(NO_JOBS, a, b);
    EveryRunStartsOnce(a, key);
    EveryRunStartsOnce(a + b, key);
    OutcomesAppend(a, b, key);
    var o := OutcomesOf(a + b, key);
    assert o[..1] == o;
    CalledStays(a, b, key);
  }

  lemma CalledStays(a: seq<Event>, b: seq<Event>, key: Name)
    ensures Called(a, key) ==> Called(a + b, key)
  {
    hide Callable, ThunkName;
  }

  // --------------------------------------------------------------------- names and routes

  /** A thunk name tells which call of its job it stands for, nonce and all. */
  lemma CallsNeverShare(job: Job, a: Name, b: Name)
    requires job.prefix <= a && job.prefix <= b && ThunkName(job, a) == ThunkName(job, b)
    ensures a == b
  {
    var n := |ThunkRoot(job)|;
    assert ThunkName(job, a)[n..] == a[|job.prefix|..] && ThunkName(job, b)[n..] == b[|job.prefix|..];
    assert a == job.prefix + a[|job.prefix|..] && b == job.prefix + b[|job.prefix|..];
  }

  /** Opaque calls of any two jobs, nested or not, with different nonces have
      different thunk names. */
  lemma NoncesNeverShare(p: Job, q: Job, a: Name, b: Name)
    requires p.nonced && q.nonced && Callable(p, a).Some? && Callable(q, b).Some?
    requires a[|a| - 1] != b[|b| - 1]
    ensures |p.prefix| <= |a| && |q.prefix| <= |b| && ThunkName(p, a) != ThunkName(q, b)
  {
    ThunkNameEnds(p, a);
    ThunkNameEnds(q, b);
  }

  lemma ThunkNameEnds(job: Job, name: Name)
    requires |job.prefix| <= |name|
    ensures Last(ThunkName(job, name)) == if |name| > |job.prefix| then Last(name) else THUNK_KEYWORD
  {
  }

  function Last(name: Name): Component
    requires name != []
  {
    name[|name| - 1]
  }

  /** The name a client builds for `args`: behind them the nonce, if the job takes one. */
  function CallName(job: Job, args: seq<Component>, nonce: Component): Name {
    job.prefix + args + (if job.nonced then [nonce] else [])
  }

  /** The service takes the arguments the client put in, all of them and nothing else,
      and runs on them if the argument type accepts them. */
  lemma ArgumentsReadBack(job: Job, args: seq<Component>, nonce: Component)
    ensures ArgComponents(CallName(job, args, nonce), |job.prefix|, job.nonced) == Ok(args)
    ensures Callable(job, CallName(job, args, nonce)) == if job.decodes(args) then Some(args) else None
  {
    var name, n := CallName(job, args, nonce), |job.prefix|;
    assert name[n..n + |args|] == args && (!job.nonced ==> name[n..] == args);
  }

  /** Without a nonce in it, an opaque call is refused. */
  lemma NonceIsNeeded(job: Job, name: Name)
    ensures ArgComponents(name, |job.prefix|, job.nonced).Err? <==>
            |name| < |job.prefix| + (if job.nonced then 1 else 0)
  {
  }

  /** No accepted call so far has a thunk name that ends in `nonce`. */
  ghost predicate FreshNonce(events: seq<Event>, nonce: Component) {
    forall e :: e in events && e.Invoked? && Callable(e.job, e.name).Some? ==>
      |e.job.prefix| <= |e.name| && Last(ThunkName(e.job, e.name)) != nonce
  }

  /**
   * An opaque call with a fresh nonce runs as its own job: after any run of any
   * jobs of the service it starts a run on its own arguments, and whatever happens
   * next, that is the one run its thunk name ever has.
   */
  lemma OpaqueCallRunsItself(before: seq<Event>, job: Job, args: seq<Component>, nonce: Component, later: seq<Event>)
    requires Happens(NO_JOBS, before + [Invoked(job, CallName(job, args, nonce))] + later)
    requires job.nonced && job.decodes(args) && FreshNonce(before, nonce)
    ensures var name := job.prefix + args + [nonce];
            var key := job.prefix + [THUNK_KEYWORD] + args + [nonce];
            && name == CallName(job, args, nonce) && key == ThunkName(job, name)
            && StartsOf(After(NO_JOBS, before + [Invoked(job, name)] + later).starts, key) == [Start(key, job, args)]
  {
    var name := CallName(job, args, nonce);
    ArgumentsReadBack(job, args, nonce);
    assert name[|job.prefix|..] == args + [nonce];
    assert ThunkName(job, name) == job.prefix + [THUNK_KEYWORD] + args + [nonce];
    OpaqueCallRunsOnce(before, job, name, later);
  }

  lemma OpaqueCallRunsOnce(before: seq<Event>, job: Job, name: Name, later: seq<Event>)
    requires Happens(NO_JOBS, before + [Invoked(job, name)] + later)
    requires job.nonced && Callable(job, name).Some? && FreshNonce(before, Last(name))
    ensures var key := ThunkName(job, name);
            StartsOf(After(NO_JOBS, before + [Invoked(job, name)] + later).starts, key)
            == [Start(key, job, Callable(job, name).value)]
  {
    hide Happens, After, Callable, ThunkName, Called, OutcomesOf, StartsOf, Honest, Next, Enabled;
    CallableIsLong(job, name);
    var key, call := ThunkName(job, name), Invoked(job, name);
    var st := Start(key, job, Callable(job, name).value);
    AfterAppend(NO_JOBS, before + [call], later);
    AfterAppend(NO_JOBS, before, [call]);
    EveryRunStartsOnce(before, key);
    EveryRunStartsOnce(before + [call] + later, key);
    FreshIsNotCalled(before, job, name);
    var s := After(NO_JOBS, before);
    AfterOne(s, call);
    CallStarts(s, job, name);
    OneMoreStart(s.starts, st, key);
    var s1 := After(NO_JOBS, before + [call]);
    StartsStay(s1, later, key);
    EveryRunStartsOnce(before + [call], key);
    assert StartsOf(s1.starts, key) == [st];
  }

  lemma AfterOne(s: Store, e: Event)
    ensures After(s, [e]) == Next(s, e)
  {
    hide Next;
    assert After(Next(s, e), [e][1..]) == Next(s, e);
  }

  lemma CallStarts(s: Store, job: Job, name: Name)
    requires Callable(job, name).Some? && ThunkName(job, name) !in s.jobs
    ensures var key := ThunkName(job, name);
            Next(s, Invoked(job, name)).starts == s.starts + [Start(key, job, Callable(job, name).value)]
    ensures ThunkName(job, name) in Next(s, Invoked(job, name)).jobs
  {
  }

  lemma FreshIsNotCalled(events: seq<Event>, job: Job, name: Name)
    requires job.nonced && Callable(job, name).Some? && FreshNonce(events, Last(name))
    ensures !Called(events, ThunkName(job, name))
  {
    ThunkNameEnds(job, name);
  }

  /** Runs begun are not forgotten. */
  lemma {:induction false} StartsStay(s: Store, events: seq<Event>, key: Name)
    ensures StartsOf(s.starts, key) <= StartsOf(After(s, events).starts, key)
    decreases |events|
  {
    hide StartsOf, Next;
    if events != [] {
      StepStarts(s, events[0], key);
      StartsStay(Next(s, events[0]), events[1..], key);
    }
  }

  lemma StepStarts(s: Store, e: Event, key: Name)
    ensures StartsOf(s.starts, key) <= StartsOf(Next(s, e).starts, key)
  {
    hide StartsOf, Callable, ThunkName;
    if e.Invoked? && Callable(e.job, e.name).Some? {
      CallableIsLong(e.job, e.name);
      OneMoreStart(s.starts, Start(ThunkName(e.job, e.name), e.job, Callable(e.job, e.name).value), key);
    }
  }

  /** Neither job's prefix lies in the other's thunk namespace. */
  predicate Apart(p: Job, q: Job) {
    !(ThunkRoot(p) <= q.prefix) && !(ThunkRoot(q) <= p.prefix)
  }

  /** Then only one prefix and one call give one thunk name. */
  lemma JobsNeverShare(p: Job, q: Job, a: Name, b: Name)
    requires |p.prefix| <= |a| && |q.prefix| <= |b| && Apart(p, q)
    requires ThunkName(p, a) == ThunkName(q, b)
    ensures p.prefix == q.prefix && a[|p.prefix|..] == b[|q.prefix|..]
  {
    var key, m, n := ThunkName(p, a), |p.prefix|, |q.prefix|;
    assert key[..m + 1] == ThunkRoot(p) && key[..n + 1] == ThunkRoot(q);
    assert key[..m] == p.prefix && key[..n] == q.prefix;
    PrefixesNest(ThunkRoot(p), q.prefix, key);
    PrefixesNest(ThunkRoot(q), p.prefix, key);
    assert m == n;
    assert key[m + 1..] == a[m..] && key[n + 1..] == b[n..];
  }

  lemma PrefixesNest(a: Name, b: Name, key: Name)
    ensures a <= key && b <= key && |a| <= |b| ==> a <= b
  {
  }

  datatype Handler = InvokeOf(job: Job) | PollOf(job: Job)

  function HandlerPrefix(h: Handler): Name {
    if h.InvokeOf? then h.job.prefix else ThunkRoot(h.job)
  }

  /** Each job registers its poll handler, then its invocation handler. */
  function Handlers(jobs: seq<Job>): seq<Handler> {
    if jobs == [] then []
    else Handlers(jobs[..|jobs| - 1]) + [PollOf(jobs[|jobs| - 1]), InvokeOf(jobs[|jobs| - 1])]
  }

  /** Longest prefix match; of two handlers of one prefix the later one counts. */
  function Route(hs: seq<Handler>, name: Name): Option<Handler> {
    if hs == [] then None
    else
      var last, before := hs[|hs| - 1], Route(hs[..|hs| - 1], name);
      if HandlerPrefix(last) <= name && (before.None? || |HandlerPrefix(before.value)| <= |HandlerPrefix(last)|)
      then Some(last) else before
  }

  lemma {:induction false} RouteIsLongest(hs: seq<Handler>, name: Name)
    ensures Route(hs, name).Some? ==> Route(hs, name).value in hs && HandlerPrefix(Route(hs, name).value) <= name
    ensures forall h :: h in hs && HandlerPrefix(h) <= name ==>
              Route(hs, name).Some? && |HandlerPrefix(h)| <= |HandlerPrefix(Route(hs, name).value)|
    decreases |hs|
  {
    hide HandlerPrefix;
    if hs != [] {
      var n := |hs| - 1;
      RouteIsLongest(hs[..n], name);
      assert forall h :: h in hs <==> h in hs[..n] || h == hs[n] by { assert hs == hs[..n] + [hs[n]]; }
    }
  }

  lemma {:induction false} HandlersOf(jobs: seq<Job>, h: Handler)
    ensures h in Handlers(jobs) <==> h.job in jobs
    decreases |jobs|
  {
    if jobs != [] {
      var n := |jobs| - 1;
      HandlersOf(jobs[..n], h);
      assert jobs == jobs[..n] + [jobs[n]];
    }
  }

  ghost predicate AllApart(jobs: seq<Job>) {
    forall p, q :: p in jobs && q in jobs ==> Apart(p, q)
  }

  /** With no job nested in another's thunk namespace, a thunk name reaches a poll
      handler. */
  lemma ThunkNamesReachPolls(jobs: seq<Job>, job: Job, name: Name)
    requires AllApart(jobs) && job in jobs && |job.prefix| <= |name|
    ensures Route(Handlers(jobs), ThunkName(job, name)).Some?
    ensures Route(Handlers(jobs), ThunkName(job, name)).value.PollOf?
  {
    hide Route, Handlers;
    var key := ThunkName(job, name);
    RouteIsLongest(Handlers(jobs), key);
    HandlersOf(jobs, PollOf(job));
    var root := ThunkRoot(job);
    assert key[..|root|] == root;
    var h := Route(Handlers(jobs), key).value;
    HandlersOf(jobs, h);
    assert Apart(job, h.job);
    PrefixesNest(root, h.job.prefix, key);
  }

  /** A call reaches its job exactly when no longer registered prefix takes it; in
      particular never when its first argument is the thunk keyword. */
  lemma CallsReachTheirJob(jobs: seq<Job>, job: Job, name: Name)
    requires AllApart(jobs) && job in jobs && job.prefix <= name
    ensures Route(Handlers(jobs), name).Some?
    ensures var h := Route(Handlers(jobs), name).value;
            (h.InvokeOf? && h.job.prefix == job.prefix) <==>
            forall other :: other in Handlers(jobs) && HandlerPrefix(other) <= name
              ==> |HandlerPrefix(other)| <= |job.prefix|
    ensures ThunkRoot(job) <= name ==> !(Route(Handlers(jobs), name).value.InvokeOf?
                                         && Route(Handlers(jobs), name).value.job.prefix == job.prefix)
  {
    hide Route, Handlers, AllApart;
    RouteIsLongest(Handlers(jobs), name);
    HandlersOf(jobs, InvokeOf(job));
    HandlersOf(jobs, PollOf(job));
    assert HandlerPrefix(InvokeOf(job)) == job.prefix;
    var h := Route(Handlers(jobs), name).value;
    HandlersOf(jobs, h);
    ApartInList(jobs, h.job, job);
    assert HandlerPrefix(PollOf(job)) == ThunkRoot(job);
    SamePrefix(HandlerPrefix(h), job.prefix, name);
  }

  lemma ApartInList(jobs: seq<Job>, p: Job, q: Job)
    requires AllApart(jobs) && p in jobs && q in jobs
    ensures Apart(p, q)
  {
  }

  lemma SamePrefix(a: Name, b: Name, name: Name)
    ensures a <= name && b <= name && |a| == |b| ==> a == b
  {
  }

  // ---------------------------------------------------------------- two jobs and one run

  /** `q` is registered under the thunk namespace of `p`, below a component that is
      not the keyword again. */
  predicate Nested(p: Job, q: Job) {
    && ThunkRoot(p) <= q.prefix && |q.prefix| > |p.prefix| + 1
    && q.prefix[|p.prefix| + 1] != THUNK_KEYWORD
  }

  ghost predicate Reaches(jobs: seq<Job>, job: Job, name: Name) {
    Route(Handlers(jobs), name) == Some(InvokeOf(job)) && job.prefix <= name
  }

  /** A call to `p` is not a poll of `p`. */
  lemma CallsAreNoPolls(jobs: seq<Job>, p: Job, a: Name)
    requires p in jobs && Reaches(jobs, p, a)
    ensures !(ThunkRoot(p) <= a)
  {
    hide Route, Handlers;
    RouteIsLongest(Handlers(jobs), a);
    HandlersOf(jobs, PollOf(p));
    assert HandlerPrefix(PollOf(p)) == ThunkRoot(p);
  }

  lemma SharingIsUnder(jobs: seq<Job>, p: Job, q: Job, a: Name, b: Name)
    requires p in jobs && Reaches(jobs, p, a) && q.prefix <= b && |p.prefix| < |q.prefix|
    requires ThunkName(p, a) == ThunkName(q, b)
    ensures Nested(p, q)
  {
    hide Route, Handlers, Reaches;
    CallsAreNoPolls(jobs, p, a);
    PrefixOfCall(jobs, p, a);
    var key, m, n := ThunkName(p, a), |p.prefix|, |q.prefix|;
    assert key[..m + 1] == ThunkRoot(p) && key[..n + 1] == ThunkRoot(q);
    assert key[..n] == q.prefix;
    PrefixesNest(ThunkRoot(p), q.prefix, key);
    assert key[n] == ThunkRoot(q)[n] == THUNK_KEYWORD;
    assert |a| > m && key[m + 1] == a[m];
    KeywordFirst(p, a);
    assert n > m + 1 ==> key[m + 1] == q.prefix[m + 1];
  }

  lemma KeywordFirst(p: Job, a: Name)
    ensures p.prefix <= a && |a| > |p.prefix| && a[|p.prefix|] == THUNK_KEYWORD ==> ThunkRoot(p) <= a
  {
  }

  lemma PrefixOfCall(jobs: seq<Job>, p: Job, a: Name)
    requires Reaches(jobs, p, a)
    ensures p.prefix <= a
  {
  }

  /** In any service: two calls that reach jobs of different prefixes and share a
      thunk name are of jobs nested one under the other. */
  lemma SharingNeedsNesting(jobs: seq<Job>, p: Job, q: Job, a: Name, b: Name)
    requires p in jobs && q in jobs && p.prefix != q.prefix
    requires Reaches(jobs, p, a) && Reaches(jobs, q, b) && ThunkName(p, a) == ThunkName(q, b)
    ensures Nested(p, q) || Nested(q, p)
  {
    hide Route, Handlers, Nested;
    var key := ThunkName(p, a);
    assert key[..|p.prefix|] == p.prefix && key[..|q.prefix|] == q.prefix;
    if |p.prefix| < |q.prefix| {
      SharingIsUnder(jobs, p, q, a, b);
    } else if |q.prefix| < |p.prefix| {
      SharingIsUnder(jobs, q, p, b, a);
    }
  }

  /** A call to `p` that has the thunk name of the call to `q` with `tail` for its arguments. */
  function CallBeside(p: Job, q: Job, tail: Name): Name
    requires Nested(p, q)
  {
    p.prefix + (q.prefix[|p.prefix| + 1..] + [THUNK_KEYWORD] + tail)
  }

  /** A call to `q` with `tail` for its arguments is none of its polls, and both it
      and the call beside it are accepted. */
  predicate MeetsOn(p: Job, q: Job, tail: Name)
    requires Nested(p, q)
  {
    && (tail == [] || tail[0] != THUNK_KEYWORD)
    && Callable(q, q.prefix + tail).Some? && Callable(p, CallBeside(p, q, tail)).Some?
  }

  /** `q` is nested under `p`, and `p` accepts, of some call to `q` that is accepted,
      what is then below its own thunk root. */
  ghost predicate Meets(p: Job, q: Job) {
    Nested(p, q) && exists tail :: MeetsOn(p, q, tail)
  }

  lemma NestedThunkNames(p: Job, q: Job, tail: Name)
    requires Nested(p, q)
    ensures var a, b := CallBeside(p, q, tail), q.prefix + tail;
            |a| > |p.prefix| && a[|p.prefix|] == q.prefix[|p.prefix| + 1] && ThunkName(p, a) == ThunkName(q, b)
  {
    var m, x := |p.prefix|, q.prefix[|p.prefix| + 1..];
    var a, b := CallBeside(p, q, tail), q.prefix + tail;
    assert q.prefix == ThunkRoot(p) + x && x[0] == q.prefix[m + 1];
    assert a[m] == x[0] && a[m..] == x + [THUNK_KEYWORD] + tail;
    assert ThunkName(p, a) == ThunkRoot(p) + (x + [THUNK_KEYWORD] + tail);
    assert b[|q.prefix|..] == tail;
    assert ThunkName(q, b) == q.prefix + [THUNK_KEYWORD] + tail;
  }

  /** The two calls reach one job each, and share a thunk name. */
  lemma NestedCallsShare(jobs: seq<Job>, p: Job, q: Job, tail: Name)
    requires (jobs == [p, q] || jobs == [q, p]) && Nested(p, q) && (tail == [] || tail[0] != THUNK_KEYWORD)
    ensures var a, b := CallBeside(p, q, tail), q.prefix + tail;
            Reaches(jobs, p, a) && Reaches(jobs, q, b) && ThunkName(p, a) == ThunkName(q, b)
  {
    hide Route, Handlers, ThunkName;
    var a, b := CallBeside(p, q, tail), q.prefix + tail;
    NestedThunkNames(p, q, tail);
    forall h: Handler | h.job == p || h.job == q
      ensures HandlerPrefix(h) <= a ==> h == InvokeOf(p)
      ensures HandlerPrefix(h) <= b && |HandlerPrefix(h)| >= |q.prefix| ==> h == InvokeOf(q)
    {
      NestedMatches(p, q, a, tail, h);
    }
    RouteIsLongest(Handlers(jobs), a);
    RouteIsLongest(Handlers(jobs), b);
    HandlersOf(jobs, InvokeOf(p));
    HandlersOf(jobs, InvokeOf(q));
    var ha, hb := Route(Handlers(jobs), a), Route(Handlers(jobs), b);
    assert HandlerPrefix(InvokeOf(p)) == p.prefix <= a && HandlerPrefix(InvokeOf(q)) == q.prefix <= b;
    HandlersOf(jobs, ha.value);
    HandlersOf(jobs, hb.value);
  }

  lemma NestedMatches(p: Job, q: Job, a: Name, tail: Name, h: Handler)
    requires Nested(p, q) && (h.job == p || h.job == q) && (tail == [] || tail[0] != THUNK_KEYWORD)
    requires |a| > |p.prefix| && a[|p.prefix|] == q.prefix[|p.prefix| + 1]
    ensures HandlerPrefix(h) <= a ==> h == InvokeOf(p)
    ensures HandlerPrefix(h) <= q.prefix + tail && |HandlerPrefix(h)| >= |q.prefix| ==> h == InvokeOf(q)
  {
    var m, n := |p.prefix|, |q.prefix|;
    assert ThunkRoot(p)[m] == THUNK_KEYWORD == q.prefix[m] == ThunkRoot(q)[m];
    assert ThunkRoot(q)[n] == THUNK_KEYWORD && (tail != [] ==> (q.prefix + tail)[n] == tail[0]);
  }

  /** Two calls, one reaching each job, that would have one run between them. */
  ghost predicate CallsShare(jobs: seq<Job>, p: Job, q: Job) {
    exists a, b :: && Reaches(jobs, p, a) && Reaches(jobs, q, b) && Callable(p, a).Some? && Callable(q, b).Some?
                   && ThunkName(p, a) == ThunkName(q, b)
  }

  /** Two jobs of different prefixes share a run for some calls exactly when one is
      nested under the other and their argument types let the calls meet. */
  lemma SharedRunsIff(jobs: seq<Job>, p: Job, q: Job)
    requires (jobs == [p, q] || jobs == [q, p]) && p.prefix != q.prefix
    ensures CallsShare(jobs, p, q) <==> Meets(p, q) || Meets(q, p)
  {
    hide Route, Handlers, Nested, Meets, Callable, ThunkName;
    assert p in jobs && q in jobs;
    if CallsShare(jobs, p, q) {
      var a, b :| && Reaches(jobs, p, a) && Reaches(jobs, q, b) && Callable(p, a).Some? && Callable(q, b).Some?
                  && ThunkName(p, a) == ThunkName(q, b);
      SharingNeedsNesting(jobs, p, q, a, b);
      if Nested(p, q) {
        SharingMeets(jobs, p, q, a, b);
      } else {
        SharingMeets(jobs, q, p, b, a);
      }
    }
    if Meets(p, q) {
      MeetingShares(jobs, p, q);
    }
    if Meets(q, p) {
      MeetingShares(jobs, q, p);
      var b, a :| && Reaches(jobs, q, b) && Reaches(jobs, p, a) && Callable(q, b).Some? && Callable(p, a).Some?
                  && ThunkName(q, b) == ThunkName(p, a);
    }
  }

  lemma MeetingShares(jobs: seq<Job>, p: Job, q: Job)
    requires (jobs == [p, q] || jobs == [q, p]) && Meets(p, q)
    ensures CallsShare(jobs, p, q)
  {
    hide Route, Handlers, Nested, Reaches, Callable, ThunkName;
    var tail :| MeetsOn(p, q, tail);
    NestedCallsShare(jobs, p, q, tail);
  }

  lemma SharingMeets(jobs: seq<Job>, p: Job, q: Job, a: Name, b: Name)
    requires q in jobs && Nested(p, q) && Reaches(jobs, p, a) && Reaches(jobs, q, b)
    requires Callable(p, a).Some? && Callable(q, b).Some? && ThunkName(p, a) == ThunkName(q, b)
    ensures Meets(p, q)
  {
    hide Route, Handlers, Callable;
    var tail := b[|q.prefix|..];
    CallsAreNoPolls(jobs, q, b);
    KeywordFirst(q, b);
    var m, x, key := |p.prefix|, q.prefix[|p.prefix| + 1..], ThunkName(q, b);
    assert key[m + 1..] == x + [THUNK_KEYWORD] + tail;
    assert key[m + 1..] == a[m..];
    assert a == p.prefix + a[m..] == CallBeside(p, q, tail);
    assert b == q.prefix + tail;
    assert MeetsOn(p, q, tail);
  }

  /** The job's argument type accepts lists of `n` components only. */
  ghost predicate Takes(job: Job, n: nat) {
    forall args :: job.decodes(args) ==> |args| == n
  }

  /** It accepts exactly those. */
  ghost predicate TakesAny(job: Job, n: nat) {
    forall args :: job.decodes(args) <==> |args| == n
  }

  /** The components of a call behind the prefix: `n` arguments, and the nonce. */
  function Carried(job: Job, n: nat): nat {
    if job.nonced then n + 1 else n
  }

  /** A call to `p` carries as many components as the thunk name of a call to `q` has
      behind the thunk root of `p`. */
  predicate CountsMeet(p: Job, n: nat, q: Job, m: nat) {
    Nested(p, q) && Carried(p, n) == |q.prefix| - |p.prefix| + Carried(q, m)
  }

  lemma CarriedByCall(job: Job, n: nat, args: Name)
    requires Takes(job, n)
    ensures Callable(job, job.prefix + args).Some? ==> |args| == Carried(job, n)
    ensures TakesAny(job, n) ==> (Callable(job, job.prefix + args).Some? <==> |args| == Carried(job, n))
  {
  }

  lemma MeetsByCounts(p: Job, n: nat, q: Job, m: nat)
    requires Takes(p, n) && Takes(q, m)
    ensures Meets(p, q) ==> CountsMeet(p, n, q, m)
    ensures TakesAny(p, n) && TakesAny(q, m) && CountsMeet(p, n, q, m) ==> Meets(p, q)
  {
    hide Takes, TakesAny, Callable;
    if Meets(p, q) {
      var tail :| MeetsOn(p, q, tail);
      CarriedByCall(p, n, q.prefix[|p.prefix| + 1..] + [THUNK_KEYWORD] + tail);
      CarriedByCall(q, m, tail);
    }
    if TakesAny(p, n) && TakesAny(q, m) && CountsMeet(p, n, q, m) {
      var tail := seq(Carried(q, m), _ => Messages.Component(8, []));
      CarriedByCall(p, n, q.prefix[|p.prefix| + 1..] + [THUNK_KEYWORD] + tail);
      CarriedByCall(q, m, tail);
      assert MeetsOn(p, q, tail);
    }
  }

  /**
   * For jobs whose argument types have a number of components each, only the counts
   * decide: they share no run unless the longer prefix and its call fill the other
   * one's call, and then they do if both accept any components of that number.
   */
  lemma ArgumentCountsDecide(jobs: seq<Job>, p: Job, n: nat, q: Job, m: nat)
    requires (jobs == [p, q] || jobs == [q, p]) && p.prefix != q.prefix && Takes(p, n) && Takes(q, m)
    ensures CallsShare(jobs, p, q) ==> CountsMeet(p, n, q, m) || CountsMeet(q, m, p, n)
    ensures TakesAny(p, n) && TakesAny(q, m) ==>
              (CallsShare(jobs, p, q) <==> CountsMeet(p, n, q, m) || CountsMeet(q, m, p, n))
    ensures n == m && p.nonced == q.nonced ==> !CallsShare(jobs, p, q)
  {
    hide CallsShare, Meets, Takes, TakesAny, Nested;
    SharedRunsIff(jobs, p, q);
    MeetsByCounts(p, n, q, m);
    MeetsByCounts(q, m, p, n);
    assert CountsMeet(p, n, q, m) ==> |p.prefix| < |q.prefix| by { NestedIsLonger(p, q); }
    assert CountsMeet(q, m, p, n) ==> |q.prefix| < |p.prefix| by { NestedIsLonger(q, p); }
  }

  lemma NestedIsLonger(p: Job, q: Job)
    ensures Nested(p, q) ==> |p.prefix| < |q.prefix|
  {
  }

  /** Jobs of one prefix share the run of every call: the handlers of a later
      registration answer with what the earlier one's function started. */
  lemma OnePrefixSharesAll(p: Job, q: Job, a: Name, b: Name)
    requires p.prefix == q.prefix && p.prefix <= a && q.prefix <= b
    ensures ThunkName(p, a) == ThunkName(q, b) <==> a == b
  {
    if ThunkName(p, a) == ThunkName(q, b) {
      CallsNeverShare(p, a, b);
    }
  }

  /** Of the registrations of one prefix, the last one takes the calls. */
  lemma LaterRegistrationTakesCalls(earlier: seq<Job>, q: Job, p: Job, a: Name)
    requires p in earlier && p.prefix == q.prefix && Reaches(earlier + [q], p, a)
    ensures p == q
  {
    hide Route, Handlers, HandlerPrefix;
    var jobs := earlier + [q];
    var hs := Handlers(jobs);
    LastHandler(earlier, q);
    RouteIsLongest(hs, a);
    PrefixIs(p);
    PrefixIs(q);
    RouteLast(hs, a);
  }

  lemma PrefixIs(job: Job)
    ensures HandlerPrefix(InvokeOf(job)) == job.prefix
  {
  }

  lemma LastHandler(earlier: seq<Job>, q: Job)
    ensures var hs := Handlers(earlier + [q]); hs != [] && hs[|hs| - 1] == InvokeOf(q)
  {
  }

  lemma RouteLast(hs: seq<Handler>, name: Name)
    requires hs != [] && HandlerPrefix(hs[|hs| - 1]) <= name
    requires forall h :: h in hs && HandlerPrefix(h) <= name ==> |HandlerPrefix(h)| <= |HandlerPrefix(hs[|hs| - 1])|
    ensures Route(hs, name) == Some(hs[|hs| - 1])
  {
    hide HandlerPrefix;
    var before := hs[..|hs| - 1];
    RouteIsLongest(before, name);
    assert forall h :: h in before ==> h in hs;
  }

  /** Either way the second call starts nothing: it is answered by the first one's run. */
  lemma SharedCallsRunOnce(p: Job, q: Job, a: Name, b: Name)
    requires Callable(p, a).Some? && Callable(q, b).Some?
    requires |p.prefix| <= |a| && |q.prefix| <= |b| && ThunkName(p, a) == ThunkName(q, b)
    ensures Happens(NO_JOBS, [Invoked(p, a), Invoked(q, b)])
    ensures After(NO_JOBS, [Invoked(p, a), Invoked(q, b)]).starts == [Start(ThunkName(p, a), p, Callable(p, a).value)]
  {
    hide Callable, ThunkName, Happens, After, ToContent;
    NothingHappened();
    OneMore([], Invoked(p, a));
    assert [] + [Invoked(p, a)] == [Invoked(p, a)];
    OneMore([Invoked(p, a)], Invoked(q, b));
    assert [Invoked(p, a)] + [Invoked(q, b)] == [Invoked(p, a), Invoked(q, b)];
  }

  lemma NothingHappened()
    ensures Happens(NO_JOBS, []) && After(NO_JOBS, []) == NO_JOBS
  {
  }

  /** A transparent job on `n` byte strings. */
  function BytesJob(prefix: Name, n: nat): Job {
    Job(prefix, false, 0, args => |args| == n)
  }

  /** A job of three arguments at `/a` and one of one argument at `/a/thunk/b`: the
      calls `/a/b/thunk/c` and `/a/thunk/b/c` reach one each, and only the first one's
      function runs. */
  lemma NestedExample(ca: Component, cb: Component, cc: Component)
    requires cb != THUNK_KEYWORD && cc != THUNK_KEYWORD
    ensures var p, q := BytesJob([ca], 3), BytesJob([ca, THUNK_KEYWORD, cb], 1);
            var a, b := [ca, cb, THUNK_KEYWORD, cc], [ca, THUNK_KEYWORD, cb, cc];
            && Reaches([p, q], p, a) && Reaches([p, q], q, b)
            && After(NO_JOBS, [Invoked(p, a), Invoked(q, b)]).starts
               == [Start([ca, THUNK_KEYWORD, cb, THUNK_KEYWORD, cc], p, [cb, THUNK_KEYWORD, cc])]
  {
    hide Reaches, Route, Handlers, After, Next;
    var p, q := BytesJob([ca], 3), BytesJob([ca, THUNK_KEYWORD, cb], 1);
    var a, b := [ca, cb, THUNK_KEYWORD, cc], [ca, THUNK_KEYWORD, cb, cc];
    assert ThunkRoot(p) == [ca, THUNK_KEYWORD] == q.prefix[..2];
    assert q.prefix[2..] == [cb];
    assert a == CallBeside(p, q, [cc]) && b == q.prefix + [cc];
    NestedCallsShare([p, q], p, q, [cc]);
    assert a[1..] == [cb, THUNK_KEYWORD, cc] && b[3..] == [cc];
    assert ThunkName(p, a) == [ca, THUNK_KEYWORD, cb, THUNK_KEYWORD, cc];
    assert Callable(p, a) == Some([cb, THUNK_KEYWORD, cc]) && Callable(q, b) == Some([cc]);
    SharedCallsRunOnce(p, q, a, b);
  }

  // ------------------------------------------------------------------------- the client

  datatype ClientResult = Got(content: Bytes) | Refused(answer: Answer) | NotAThunk | JobTimeout

  /** A service, the history of its store, and a client that waits for one job. */
  class Service {
    const registered: seq<Job>
    const store: JobStore
    ghost var history: seq<Event>

    constructor (registered: seq<Job>)
      ensures this.registered == registered && Valid() && history == []
    {
      this.registered, this.history := registered, [];
      this.store := new JobStore();
    }

    ghost predicate Valid()
      reads this, store
    {
      Happens(NO_JOBS, history) && store.View() == After(NO_JOBS, history)
    }

    /** One Interest: the handler it is routed to answers. */
    method Fetch(name: Name) returns (a: Answer)
      requires Valid()
      modifies this, store
      ensures Valid() && old(history) <= history
      ensures match Route(Handlers(registered), name)
              case None => a == NotFound && history == old(history)
              case Some(InvokeOf(job)) => a == InvokeStep(old(store.View()), job, name).1
                                          && history == old(history) + [Invoked(job, name)]
              case Some(PollOf(job)) => a == PollAnswer(store.View(), job, name)
                                        && history == old(history) + [Polled(name)]
    {
      hide Route, Handlers, Happens, After, InvokeStep, PollAnswer;
      match Route(Handlers(registered), name) {
        case None => a := NotFound;
        case Some(InvokeOf(job)) =>
          OneMore(history, Invoked(job, name));
          a := store.Invoke(job, name);
          history := history + [Invoked(job, name)];
        case Some(PollOf(job)) =>
          OneMore(history, Polled(name));
          a := store.Poll(job, name);
          history := history + [Polled(name)];
      }
    }

    /** Whatever others ask and whichever runs end, in any order. */
    method Others()
      requires Valid()
      modifies this, store
      ensures Valid() && old(history) <= history
    {
      var asked: seq<(Name, Option<Result<Bytes, string>>)> := *;
      for k := 0 to |asked|
        invariant Valid() && old(history) <= history
      {
        var (name, ended) := asked[k];
        if ended.None? {
          var _ := Fetch(name);
        } else if name in store.jobs && store.jobs[name] == Pending {
          StillRunning(history, name);
          OneMore(history, Finished(name, ended.value));
          store.Finish(name, ended.value);
          history := history + [Finished(name, ended.value)];
        }
      }
    }

    /**
     * `run_job`: get a thunk, then poll its name until something else than a thunk
     * comes back. `patience` is how many polls the clock allows before it passes
     * the deadline, and `polls` how many there were. What is returned is the outcome
     * of the one run of that call; the client gives up after the poll past its
     * patience, and not before, and never on an outcome that was there when it called.
     */
    method RunJob(job: Job, invocation: Name, patience: nat) returns (r: ClientResult, polls: nat)
      requires Valid() && AllApart(registered) && job in registered
      requires Route(Handlers(registered), invocation) == Some(InvokeOf(job))
      requires |job.prefix| <= |invocation| && Sendable(Thunk(ThunkName(job, invocation), job.estimate))
      modifies this, store
      ensures Valid() && old(history) <= history
      ensures Callable(job, invocation).None? <==> r == Refused(BadRequest)
      ensures Callable(job, invocation).Some? ==> Delivered(store.View(), history, ThunkName(job, invocation), r)
      ensures Callable(job, invocation).None? ==> polls == 0
      ensures Callable(job, invocation).Some? ==>
                1 <= polls <= patience + 1 && (r == JobTimeout ==> polls == patience + 1)
      ensures PollsOf(history, ThunkName(job, invocation)) >= PollsOf(old(history), ThunkName(job, invocation)) + polls
      ensures Callable(job, invocation).Some? ==> Prompt(OutcomesOf(old(history), ThunkName(job, invocation)), r)
    {
      hide Route, Handlers, Happens, After, InvokeStep, PollAnswer, Delivered, FromContent, ToContent, ContentIsThunk,
        ThunkName, Callable, AllApart, Called, Sendable, PollsOf, Prompt, OutcomesOf;
      ghost var key := ThunkName(job, invocation);
      ghost var start := history;
      polls := 0;
      Others();
      ghost var before := store.View();
      var first := Fetch(invocation);
      CallAnswered(before, job, invocation);
      if !first.Content? {
        r := Refused(first);
        MorePolls(start, history, key);
        return;
      }
      var thunk := Decode(first.content);
      ThunkRoundTrip(Thunk(key, job.estimate));
      if thunk.None? {
        r := NotAThunk;
        return;
      }
      var thunkName := thunk.value.thunkName;
      ThunkNamesReachPolls(registered, job, invocation);
      CalledNow(history, job, invocation);
      ghost var called := history;
      Others();
      CalledSince(called, history, key);
      MorePolls(start, history, key);
      while true
        invariant Valid() && old(history) <= history && Called(history, key) && polls <= patience
        invariant PollsOf(history, key) >= PollsOf(start, key) + polls
        decreases patience - polls
      {
        ghost var asked := history;
        var a := Fetch(thunkName);
        polls := polls + 1;
        OneMorePoll(asked, key);
        CalledSince(history[..|history| - 1], history, key);
        PollDelivers(store.View(), history, key, Route(Handlers(registered), key).value.job);
        OutcomesStay(start, history, key);
        if !a.Content? {
          r := Refused(a);
          DeliveredIsPrompt(store.View(), start, history, key, r);
          return;
        }
        if !ContentIsThunk(a.content) {
          r := Got(a.content);
          DeliveredIsPrompt(store.View(), start, history, key, r);
          return;
        }
        if polls > patience {
          r := JobTimeout;
          DeliveredIsPrompt(store.View(), start, history, key, r);
          return;
        }
        ghost var h := history;
        Others();
        CalledSince(h, history, key);
        MorePolls(h, history, key);
      }
    }
  }

  lemma {:induction false} HappensSnoc(s: Store, events: seq<Event>, e: Event)
    requires Happens(s, events) && Enabled(After(s, events), e)
    ensures Happens(s, events + [e]) && After(s, events + [e]) == Next(After(s, events), e)
    decreases |events|
  {
    hide Enabled, Next;
    if events == [] {
      assert [] + [e] == [e] && [e][1..] == [];
    } else {
      assert (events + [e])[0] == events[0] && (events + [e])[1..] == events[1..] + [e];
      HappensSnoc(Next(s, events[0]), events[1..], e);
    }
  }

  lemma OneMore(history: seq<Event>, e: Event)
    requires Happens(NO_JOBS, history) && Enabled(After(NO_JOBS, history), e)
    ensures Happens(NO_JOBS, history + [e])
    ensures After(NO_JOBS, history + [e]) == Next(After(NO_JOBS, history), e)
  {
    HappensSnoc(NO_JOBS, history, e);
  }

  lemma StillRunning(history: seq<Event>, key: Name)
    requires Happens(NO_JOBS, history)
    requires key in After(NO_JOBS, history).jobs && After(NO_JOBS, history).jobs[key] == Pending
    ensures key in After(NO_JOBS, history).running
  {
    hide Happens, After, OutcomesOf, StartsOf, Called, Honest;
    EveryRunStartsOnce(history, key);
  }

  lemma CallAnswered(s: Store, job: Job, name: Name)
    requires |job.prefix| <= |name|
    ensures InvokeStep(s, job, name).1 ==
            if Callable(job, name).None? then BadRequest
            else Content(ToContent(Thunk(ThunkName(job, name), job.estimate)))
  {
    hide ToContent;
  }

  lemma CalledNow(history: seq<Event>, job: Job, name: Name)
    requires history != [] && history[|history| - 1] == Invoked(job, name) && |job.prefix| <= |name|
    requires Callable(job, name).Some?
    ensures Called(history, ThunkName(job, name))
  {
    assert Calls(history[|history| - 1], ThunkName(job, name));
  }

  lemma CalledSince(a: seq<Event>, b: seq<Event>, key: Name)
    requires a <= b && Called(a, key)
    ensures Called(b, key)
  {
    hide Calls;
    var e :| e in a && Calls(e, key);
    assert e in b;
  }

  lemma PollDelivers(s: Store, history: seq<Event>, key: Name, job: Job)
    requires Happens(NO_JOBS, history) && s == After(NO_JOBS, history) && Called(history, key)
    ensures var a := PollAnswer(s, job, key);
            Delivered(s, history, key,
                      if !a.Content? then Refused(a)
                      else if ContentIsThunk(a.content) then JobTimeout
                      else Got(a.content))
    ensures PollAnswer(s, job, key) != BadRequest
  {
    hide Happens, After, OutcomesOf, StartsOf, Called, Honest, Encoded, WriteTlv, ReadVar;
    EveryRunStartsOnce(history, key);
    LeadingType(THUNK_TYPE, Encoded(ThunkFields(Thunk(key, job.estimate))));
    var o := OutcomesOf(history, key);
    if o != [] {
      assert o == [o[0]];
    }
  }

  function PollsOf(events: seq<Event>, key: Name): nat {
    if events == [] then 0
    else
      PollsOf(events[..|events| - 1], key) + (if events[|events| - 1] == Polled(key) then 1 else 0)
  }

  lemma OneMorePoll(events: seq<Event>, key: Name)
    ensures PollsOf(events + [Polled(key)], key) == PollsOf(events, key) + 1
  {
    assert (events + [Polled(key)])[..|events|] == events;
  }

  lemma {:induction false} MorePolls(a: seq<Event>, b: seq<Event>, key: Name)
    requires a <= b
    ensures PollsOf(a, key) <= PollsOf(b, key)
    decreases |b|
  {
    if a == b {
    } else {
      MorePolls(a, b[..|b| - 1], key);
    }
  }

  lemma OutcomesStay(a: seq<Event>, b: seq<Event>, key: Name)
    requires a <= b
    ensures OutcomesOf(a, key) <= OutcomesOf(b, key)
  {
    hide OutcomesOf;
    assert b == a + b[|a|..];
    OutcomesAppend(a, b[|a|..], key);
  }

  /** An outcome that was there before is what the client gets, if it does not look like
      a thunk itself. */
  ghost predicate Prompt(told: seq<Result<Bytes, string>>, r: ClientResult) {
    told != [] ==>
      match told[0]
      case Ok(content) => ContentIsThunk(content) || r == Got(content)
      case Err(e) => r == Refused(HandlerFailed(e))
  }

  lemma DeliveredIsPrompt(s: Store, a: seq<Event>, b: seq<Event>, key: Name, r: ClientResult)
    requires a <= b && Delivered(s, b, key, r)
    ensures Prompt(OutcomesOf(a, key), r)
  {
    hide OutcomesOf, StartsOf, ContentIsThunk;
    OutcomesStay(a, b, key);
    var o := OutcomesOf(b, key);
    if OutcomesOf(a, key) != [] {
      assert OutcomesOf(a, key)[0] == o[0];
    }
  }

  /** What a client that was let in may come back with. */
  ghost predicate Delivered(s: Store, events: seq<Event>, key: Name, r: ClientResult) {
    match r
    case Got(content) => OutcomesOf(events, key) == [Ok(content)] && |StartsOf(s.starts, key)| == 1
      && !ContentIsThunk(content)
    case Refused(a) => a.HandlerFailed? && OutcomesOf(events, key) == [Err(a.why)] && |StartsOf(s.starts, key)| == 1
    case JobTimeout => OutcomesOf(events, key) == [] ||
                       (exists c :: OutcomesOf(events, key) == [Ok(c)] && ContentIsThunk(c))
    case NotAThunk => false
  }
}
