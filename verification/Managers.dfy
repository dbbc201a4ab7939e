// Reloading the configuration: the manager sends events to jobs that run on their own.
//
// The manager and every job take steps in any order; a send waits until the job takes the
// event or has ended.
module Managers {
  import opened Basics

  type JobName = nat

  datatype Options = Options(address: bytes)

  /** What reading one entry of the configuration gives. */
  datatype Entry = NoService | Dummy | BadOptions | NoOptions | Good(options: Options)

  type Config = map<JobName, Entry>

  datatype Event = Load(options: Options) | Loaded | Nothing

  datatype At = Idle | Handling(event: Event) | Done

  /** `log` are the events that the job has taken since the configuration was last read. */
  datatype Job = Job(at: At, cancelled: bool, options: Options, server: Option<bytes>, log: seq<Event>)

  /** What the manager is about to do; the sets are the names that are still to come. */
  datatype Plan =
    | Waiting
    | Dropping(config: Config, left: set<JobName>)
    | Configuring(config: Config, left: set<JobName>)
    | SendingLoad(config: Config, left: set<JobName>, name: JobName)
    | SendingLoaded(config: Config, left: set<JobName>)
    | SendingNothing(config: Config, left: set<JobName>)
    | Cancelling(left: set<JobName>)
    | Joining(left: set<JobName>)

  /** `ended` are the jobs that the manager has given up, `loads` the configurations it has loaded. */
  datatype State = State(plan: Plan, jobs: map<JobName, Job>, ended: seq<Job>, loaded: Option<Config>)

  datatype Step =
    | Begins(config: Option<Config>)
    | Drops(name: JobName)
    | Dropped(name: JobName)
    | Configures(name: JobName)
    | Sends(name: JobName)
    | Advances
    | Stops
    | Cancels(name: JobName)
    | Joins(name: JobName)
    | Handles(name: JobName, ok: bool)
    | Ends(name: JobName)

  // ----- one job

  const NewJob := Job(Idle, false, Options([]), None, [])

  /** The job returns, which closes its server. */
  function Ended(j: Job): Job { j.(at := Done, server := None) }

  /** A job handles an event.  `ok` says that the address is well formed, or that listening succeeds. */
  function Handled(j: Job, ok: bool): Job
    requires j.at.Handling?
  {
    match j.at.event
    case Load(options) =>
      if !ok then Ended(j)
      else j.(at := Idle, options := options, server := if options.address != j.options.address then None else j.server)
    case Loaded =>
      if j.server.Some? then j.(at := Idle)
      else if !ok then Ended(j)
      else j.(at := Idle, server := Some(j.options.address))
    case Nothing => j.(at := Idle)
  }

  predicate CanTake(j: Job) { j.at.Idle? || j.at.Done? }

  /** A send: the job takes the event, unless it has ended. */
  function Taken(j: Job, e: Event): Job {
    if j.at.Done? then j else j.(at := Handling(e), log := j.log + [e])
  }

  // ----- the whole system

  function Started(s: State, name: JobName): State {
    if name in s.jobs && !s.jobs[name].at.Done? then s
    else s.(jobs := s.jobs[name := NewJob], ended := s.ended + if name in s.jobs then [s.jobs[name]] else [])
  }

  function Forgotten(jobs: map<JobName, Job>): map<JobName, Job> {
    map name | name in jobs :: jobs[name].(log := [])
  }

  function Put(s: State, name: JobName, j: Job): State {
    s.(jobs := s.jobs[name := j])
  }

  function NamesLeft(p: Plan): set<JobName> {
    if p.Waiting? then {} else p.left
  }

  predicate Can(s: State, e: Step) {
    match e
    case Begins(_) => s.plan.Waiting?
    case Drops(name) => s.plan.Dropping? && name in s.plan.left && name in s.jobs && !s.jobs[name].cancelled
    case Dropped(name) =>
      (s.plan.Dropping? && name in s.plan.left && name in s.jobs && s.jobs[name].cancelled && s.jobs[name].at.Done?)
    case Configures(name) => s.plan.Configuring? && name in s.plan.left
    case Sends(name) =>
      (name in s.jobs && CanTake(s.jobs[name]) &&
       ((s.plan.SendingLoad? && name == s.plan.name && name in s.plan.config && s.plan.config[name].Good?)
        || ((s.plan.SendingLoaded? || s.plan.SendingNothing?) && name in s.plan.left)))
    case Advances => !s.plan.Waiting? && !s.plan.SendingLoad? && s.plan.left == {}
    case Stops => s.plan.Waiting?
    case Cancels(name) => s.plan.Cancelling? && name in s.plan.left && name in s.jobs
    case Joins(name) => s.plan.Joining? && name in s.plan.left && name in s.jobs && s.jobs[name].at.Done?
    case Handles(name, _) => name in s.jobs && s.jobs[name].at.Handling?
    case Ends(name) => name in s.jobs && !s.jobs[name].at.Done?
  }

  function Configured(s: State, name: JobName): State
    requires s.plan.Configuring?
  {
    var left := s.plan.left - {name};
    match if name in s.plan.config then s.plan.config[name] else NoService
    case NoOptions => Started(s, name).(plan := Configuring(s.plan.config, left))
    case Good(_) => Started(s, name).(plan := SendingLoad(s.plan.config, left, name))
    case _ => s.(plan := Configuring(s.plan.config, left))
  }

  function Sent(s: State, name: JobName): State
    requires Can(s, Sends(name))
  {
    var c, left := s.plan.config, s.plan.left;
    match s.plan
    case SendingLoad(_, _, _) => Put(s, name, Taken(s.jobs[name], Load(c[name].options))).(plan := Configuring(c, left))
    case SendingLoaded(_, _) => Put(s, name, Taken(s.jobs[name], Loaded)).(plan := SendingLoaded(c, left - {name}))
    case SendingNothing(_, _) => Put(s, name, Taken(s.jobs[name], Nothing)).(plan := SendingNothing(c, left - {name}))
  }

  /** The next loop of the manager, when one is through. */
  function Advanced(s: State): State
    requires !s.plan.Waiting? && !s.plan.SendingLoad?
  {
    match s.plan
    case Dropping(c, _) => s.(plan := Configuring(c, c.Keys))
    case Configuring(c, _) => s.(plan := SendingLoaded(c, s.jobs.Keys))
    case SendingLoaded(c, _) => s.(plan := SendingNothing(c, s.jobs.Keys))
    case SendingNothing(c, _) => s.(plan := Waiting, loaded := Some(c))
    case Cancelling(_) => s.(plan := Joining(s.jobs.Keys))
    case Joining(_) => s.(plan := Waiting, loaded := None)
  }

  function Do(s: State, e: Step): State
    requires Can(s, e)
  {
    match e
    case Begins(config) =>
      if config.None? then s
      else
        var left := s.jobs.Keys - config.value.Keys;
        s.(plan := Dropping(config.value, left), jobs := Forgotten(s.jobs), loaded := None)
    case Drops(name) => Put(s, name, s.jobs[name].(cancelled := true))
    case Dropped(name) =>
      s.(jobs := s.jobs - {name}, ended := s.ended + [s.jobs[name]],
         plan := Dropping(s.plan.config, s.plan.left - {name}))
    case Configures(name) => Configured(s, name)
    case Sends(name) => Sent(s, name)
    case Advances => Advanced(s)
    case Stops => s.(plan := Cancelling(s.jobs.Keys))
    case Cancels(name) => Put(s, name, s.jobs[name].(cancelled := true)).(plan := Cancelling(s.plan.left - {name}))
    case Joins(name) => s.(plan := Joining(s.plan.left - {name}))
    case Handles(name, ok) => Put(s, name, Handled(s.jobs[name], ok))
    case Ends(name) => Put(s, name, Ended(s.jobs[name]))
  }

  // ----- what every step keeps

  /** What a job may have taken so far, by the loops that have reached it. */
  function Expected(config: Config, name: JobName): seq<Event> {
    if name in config && config[name].Good? then [Load(config[name].options)] else []
  }

  predicate Last(j: Job, e: Event) { j.log != [] && j.log[|j.log| - 1] == e }

  predicate JobOk(j: Job) {
    && (j.at.Done? ==> j.server.None?)
    && (j.server.Some? ==> j.server.value == j.options.address)
    && (j.at.Handling? ==> Last(j, j.at.event) || (j.at.event == Nothing && j.log == []))
    && (forall k :: 0 < k < |j.log| ==> !j.log[k].Load?)
    && (!j.at.Done? && Last(j, Nothing) ==> j.server.Some?)
    && (j.at.Idle? && Last(j, Loaded) ==> j.server.Some?)
    && (!j.at.Done? && j.log != [] && j.log[0].Load? && j.at != Handling(j.log[0]) ==> j.options == j.log[0].options)
  }

  /** The events that the job has taken, unless it has ended. */
  predicate Took(j: Job, log: seq<Event>) { j.at.Done? || j.log == log }

  predicate Logged(p: Plan, loaded: Option<Config>, name: JobName, j: Job) {
    match p
    case Dropping(c, left) => Took(j, []) && (name in c || name in left)
    case Configuring(c, left) => name in c && Took(j, if name in left then [] else Expected(c, name))
    case SendingLoad(c, left, n) => name in c && Took(j, if name in left || name == n then [] else Expected(c, name))
    case SendingLoaded(c, left) => name in c && Took(j, Expected(c, name) + if name in left then [] else [Loaded])
    case SendingNothing(c, left) =>
      name in c && Took(j, Expected(c, name) + [Loaded] + if name in left then [] else [Nothing])
    case Waiting =>
      if loaded.None? then j.at.Done?
      else name in loaded.value && Took(j, Expected(loaded.value, name) + [Loaded] + [Nothing])
    case Cancelling(left) => name in left || j.cancelled
    case Joining(left) => j.cancelled && (name in left || j.at.Done?)
  }

  /** Every job that is to be loaded exists. */
  predicate Present(c: Config, left: set<JobName>, jobs: map<JobName, Job>) {
    forall m :: m in c && (c[m].Good? || c[m].NoOptions?) && m !in left ==> m in jobs
  }

  predicate PlanOk(s: State) {
    match s.plan
    case Waiting => s.loaded.Some? ==> Present(s.loaded.value, {}, s.jobs)
    case SendingLoad(c, left, n) =>
      n !in left && left <= c.Keys && n in s.jobs && n in c && c[n].Good? && Present(c, left, s.jobs)
    case Configuring(c, left) => left <= c.Keys && Present(c, left, s.jobs)
    case SendingLoaded(c, left) => left <= s.jobs.Keys && Present(c, {}, s.jobs)
    case SendingNothing(c, left) => left <= s.jobs.Keys && Present(c, {}, s.jobs)
    case _ => NamesLeft(s.plan) <= s.jobs.Keys
  }

  predicate JobsOk(s: State) {
    forall name :: name in s.jobs ==> JobOk(s.jobs[name]) && Logged(s.plan, s.loaded, name, s.jobs[name])
  }

  predicate EndedOk(s: State) {
    forall k :: 0 <= k < |s.ended| ==> s.ended[k].at.Done?
  }

  predicate Inv(s: State) {
    PlanOk(s) && JobsOk(s) && EndedOk(s)
  }

  /** One job changes, and the plan goes on. */
  lemma PutKeeps(s: State, name: JobName, j: Job, p: Plan)
    requires Inv(s) && name in s.jobs && JobOk(j) && Logged(p, s.loaded, name, j)
    requires PlanOk(Put(s, name, j).(plan := p))
    requires forall n :: n in s.jobs && n != name ==>
      (Logged(s.plan, s.loaded, n, s.jobs[n]) ==> Logged(p, s.loaded, n, s.jobs[n]))
    ensures Inv(Put(s, name, j).(plan := p))
  {
    hide PlanOk, JobOk, Logged;
  }

  lemma HandledOk(p: Plan, loaded: Option<Config>, name: JobName, j: Job, ok: bool)
    requires JobOk(j) && Logged(p, loaded, name, j) && j.at.Handling?
    ensures JobOk(Handled(j, ok)) && Logged(p, loaded, name, Handled(j, ok))
  {
    assert Handled(j, ok).at.Done? || Handled(j, ok).log == j.log;
    assert JobOk(Handled(j, ok));
    hide JobOk, Handled;
  }

  lemma HandlesKeeps(s: State, name: JobName, ok: bool)
    requires Inv(s) && Can(s, Handles(name, ok))
    ensures Inv(Put(s, name, Handled(s.jobs[name], ok)))
  {
    HandledOk(s.plan, s.loaded, name, s.jobs[name], ok);
    hide JobOk, Logged, Handled;
    assert PlanOk(Put(s, name, Handled(s.jobs[name], ok)).(plan := s.plan)) by { hide JobsOk, EndedOk; }
    hide PlanOk;
    PutKeeps(s, name, Handled(s.jobs[name], ok), s.plan);
  }

  lemma EndsKeeps(s: State, name: JobName)
    requires Inv(s) && Can(s, Ends(name))
    ensures Inv(Put(s, name, Ended(s.jobs[name])))
  {
    var j := Ended(s.jobs[name]);
    assert JobOk(j) && Logged(s.plan, s.loaded, name, j);
    assert PlanOk(Put(s, name, j).(plan := s.plan));
    hide JobOk, Logged, PlanOk, Ended;
    PutKeeps(s, name, j, s.plan);
  }

  lemma TakenOk(j: Job, e: Event)
    requires JobOk(j) && CanTake(j)
    requires e.Load? ==> j.at.Done? || j.log == []
    requires e == Nothing ==> j.at.Done? || Last(j, Loaded)
    ensures JobOk(Taken(j, e))
  {
  }

  /** What the send to one job means for it and for the plan. */
  lemma SentLogged(s: State, name: JobName, e: Event)
    requires Inv(s) && Can(s, Sends(name)) && e == SentEvent(s.plan, name)
    requires s.plan.SendingLoad? ==> s.plan.name !in s.plan.left
    ensures JobOk(Taken(s.jobs[name], e)) && Logged(Sent(s, name).plan, s.loaded, name, Taken(s.jobs[name], e))
  {
    var j := s.jobs[name];
    assert JobOk(j) && Logged(s.plan, s.loaded, name, j);
    hide PlanOk, JobsOk, EndedOk;
    SentInTurn(s, name, e);
    assert JobOk(Taken(j, e)) by {
      hide Logged, Expected, SentEvent;
      TakenOk(j, e);
    }
    hide JobOk;
  }

  /** The options come first, and the last event only after the one before it. */
  lemma SentInTurn(s: State, name: JobName, e: Event)
    requires Can(s, Sends(name)) && e == SentEvent(s.plan, name) && Logged(s.plan, s.loaded, name, s.jobs[name])
    requires s.plan.SendingLoad? ==> s.plan.name !in s.plan.left
    ensures e.Load? ==> s.jobs[name].at.Done? || s.jobs[name].log == []
    ensures e == Nothing ==> s.jobs[name].at.Done? || Last(s.jobs[name], Loaded)
  {
  }

  function SentEvent(p: Plan, name: JobName): Event {
    if p.SendingLoad? then (if name in p.config && p.config[name].Good? then Load(p.config[name].options) else Nothing)
    else if p.SendingLoaded? then Loaded else Nothing
  }

  lemma SentPlan(s: State, name: JobName, n: JobName)
    requires PlanOk(s) && Can(s, Sends(name))
    ensures PlanOk(Sent(s, name))
    ensures n in s.jobs && n != name && Logged(s.plan, s.loaded, n, s.jobs[n]) ==>
      Logged(Sent(s, name).plan, s.loaded, n, s.jobs[n])
  {
  }

  lemma SentKeeps(s: State, name: JobName)
    requires Inv(s) && Can(s, Sends(name))
    ensures Inv(Sent(s, name))
  {
    var e := SentEvent(s.plan, name);
    var r := Sent(s, name);
    SentLogged(s, name, e);
    assert r == Put(s, name, Taken(s.jobs[name], e)).(plan := r.plan);
    hide JobOk, Logged, PlanOk, Sent, Taken;
    SentPlan(s, name, name);
    forall n | n in s.jobs && n != name
      ensures Logged(s.plan, s.loaded, n, s.jobs[n]) ==> Logged(r.plan, s.loaded, n, s.jobs[n])
    {
      SentPlan(s, name, n);
    }
    PutKeeps(s, name, Taken(s.jobs[name], e), r.plan);
  }

  lemma StartedKeeps(s: State, name: JobName, p: Plan)
    requires Inv(s) && s.plan.Configuring? && name in s.plan.left && name in s.plan.config
    requires s.plan.config[name].Good? || s.plan.config[name] == NoOptions
    requires var (c, left) := (s.plan.config, s.plan.left - {name});
      p == if c[name].Good? then SendingLoad(c, left, name) else Configuring(c, left)
    ensures Inv(Started(s, name).(plan := p))
  {
    var r := Started(s, name).(plan := p);
    assert JobOk(NewJob);
    assert PlanOk(r);
    forall n | n in r.jobs
      ensures JobOk(r.jobs[n]) && Logged(p, s.loaded, n, r.jobs[n])
    {
      if n in s.jobs { assert Logged(s.plan, s.loaded, n, s.jobs[n]); }
    }
  }

  lemma SkippedKeeps(s: State, name: JobName)
    requires Inv(s) && s.plan.Configuring? && name in s.plan.left && name in s.plan.config
    requires !s.plan.config[name].Good? && s.plan.config[name] != NoOptions
    ensures Inv(s.(plan := Configuring(s.plan.config, s.plan.left - {name})))
  {
    hide JobOk;
  }

  lemma ConfiguredKeeps(s: State, name: JobName)
    requires Inv(s) && Can(s, Configures(name))
    ensures Inv(Configured(s, name))
  {
    assert name in s.plan.config;
    hide Inv, Started;
    var e := s.plan.config[name];
    if e.NoOptions? {
      StartedKeeps(s, name, Configuring(s.plan.config, s.plan.left - {name}));
    } else if e.Good? {
      StartedKeeps(s, name, SendingLoad(s.plan.config, s.plan.left - {name}, name));
    } else {
      SkippedKeeps(s, name);
    }
  }

  lemma AdvancedKeeps(s: State)
    requires Inv(s) && Can(s, Advances)
    ensures Inv(Advanced(s))
  {
    hide JobOk;
  }

  lemma DropKeeps(s: State, e: Step)
    requires Inv(s) && Can(s, e) && (e.Drops? || e.Dropped?)
    ensures Inv(Do(s, e))
  {
  }

  lemma StopKeeps(s: State, e: Step)
    requires Inv(s) && Can(s, e) && (e.Stops? || e.Cancels? || e.Joins?)
    ensures Inv(Do(s, e))
  {
  }

  lemma BeginKeeps(s: State, config: Option<Config>)
    requires Inv(s) && s.plan.Waiting?
    ensures Inv(Do(s, Begins(config)))
  {
  }

  lemma StepKeeps(s: State, e: Step)
    requires Inv(s) && Can(s, e)
    ensures Inv(Do(s, e))
  {
    hide Inv, Configured, Sent, Advanced, Handled, Ended, Started;
    match e
    case Begins(config) => BeginKeeps(s, config);
    case Sends(name) => SentKeeps(s, name);
    case Configures(name) => ConfiguredKeeps(s, name);
    case Advances => AdvancedKeeps(s);
    case Handles(name, ok) => HandlesKeeps(s, name, ok);
    case Ends(name) => EndsKeeps(s, name);
    case Drops(_) => DropKeeps(s, e);
    case Dropped(_) => DropKeeps(s, e);
    case _ => StopKeeps(s, e);
  }

  // ----- whole runs

  const Initial := State(Waiting, map[], [], None)

  function Run(s: State, es: seq<Step>): Option<State>
    decreases es
  {
    if es == [] then Some(s)
    else if Can(s, es[0]) then Run(Do(s, es[0]), es[1..])
    else None
  }

  lemma {:induction false} RunKeeps(s: State, es: seq<Step>)
    requires Inv(s) && Run(s, es).Some?
    ensures Inv(Run(s, es).value)
    decreases es
  {
    if es != [] {
      StepKeeps(s, es[0]);
      hide Inv, Can, Do;
      RunKeeps(Do(s, es[0]), es[1..]);
    }
  }

  ghost predicate Reachable(s: State) {
    exists es :: Run(Initial, es) == Some(s)
  }

  /** What holds between two loads, whatever the jobs have done meanwhile. */
  lemma AfterLoad(s: State)
    requires Reachable(s) && s.plan.Waiting? && s.loaded.Some?
    ensures s.jobs.Keys <= s.loaded.value.Keys
    ensures forall name :: name in s.loaded.value ==>
      s.loaded.value[name].Good? || s.loaded.value[name].NoOptions? ==> name in s.jobs
    ensures forall k :: 0 <= k < |s.ended| ==> s.ended[k].at.Done?
    ensures forall name :: name in s.jobs && !s.jobs[name].at.Done? ==>
      && s.jobs[name].log == Expected(s.loaded.value, name) + [Loaded] + [Nothing]
      && s.jobs[name].at in {Idle, Handling(Nothing)}
      && s.jobs[name].server == Some(s.jobs[name].options.address)
      && (s.loaded.value[name].Good? ==> s.jobs[name].options == s.loaded.value[name].options)
  {
    var es :| Run(Initial, es) == Some(s);
    RunKeeps(Initial, es);
    forall name | name in s.jobs && !s.jobs[name].at.Done?
      ensures JobOk(s.jobs[name]) && Logged(s.plan, s.loaded, name, s.jobs[name])
    {
    }
  }

  /** Once the manager has stopped its jobs, none is left running. */
  lemma AfterStop(s: State)
    requires Reachable(s) && s.plan.Waiting? && s.loaded.None?
    ensures forall name :: name in s.jobs ==> s.jobs[name].at.Done? && s.jobs[name].server.None?
  {
    var es :| Run(Initial, es) == Some(s);
    RunKeeps(Initial, es);
  }

  lemma {:induction false} RunConcat(s: State, a: seq<Step>, b: seq<Step>)
    ensures Run(s, a + b) == if Run(s, a).Some? then Run(Run(s, a).value, b) else None
    decreases a
  {
    if a == [] {
      assert a + b == b;
    } else {
      assert (a + b)[0] == a[0] && (a + b)[1..] == a[1..] + b;
      if Can(s, a[0]) {
        hide Can, Do;
        RunConcat(Do(s, a[0]), a[1..], b);
      }
    }
  }

  /** A configuration that cannot be read, whenever it comes, changes nothing that happens later. */
  lemma BadConfigChangesNothing(s: State, before: seq<Step>, after: seq<Step>)
    requires Run(s, before).Some? && Run(s, before).value.plan.Waiting?
    ensures Run(s, before + [Begins(None)] + after) == Run(s, before + after)
  {
    var mid := Run(s, before).value;
    RunConcat(s, before + [Begins(None)], after);
    RunConcat(s, before, [Begins(None)]);
    RunConcat(s, before, after);
    assert Can(mid, Begins(None)) && Do(mid, Begins(None)) == mid;
    hide Can, Do;
    var one := [Begins(None)];
    assert one[1..] == [];
    assert Run(mid, one) == Some(mid) by { assert Run(mid, []) == Some(mid); }
  }

  /** At any time, a job that listens does so on the address of the options that it accepted last. */
  lemma ListensWhereTold(s: State, name: JobName)
    requires Reachable(s) && name in s.jobs && s.jobs[name].server.Some?
    ensures !s.jobs[name].at.Done? && s.jobs[name].server.value == s.jobs[name].options.address
  {
    var es :| Run(Initial, es) == Some(s);
    RunKeeps(Initial, es);
  }

  // ----- every load and every stop can be completed

  /** What will have been loaded when the manager is through. */
  function Target(s: State): Option<Config> {
    match s.plan
    case Waiting => s.loaded
    case Cancelling(_) => None
    case Joining(_) => None
    case _ => Some(s.plan.config)
  }

  ghost function AnyOf(names: set<JobName>): JobName
    requires names != {}
  {
    var name :| name in names; name
  }

  /** The job that the manager turns to next, if any. */
  ghost function Turn(p: Plan): Option<JobName> {
    if p.SendingLoad? then Some(p.name) else if NamesLeft(p) == {} then None else Some(AnyOf(NamesLeft(p)))
  }

  /** What the job does that the manager waits for: it handles its event, and ends if it was cancelled. */
  function JobStep(name: JobName, j: Job): Step {
    if j.at.Handling? then Handles(name, true) else Ends(name)
  }

  /** The next step of the manager, or of the job that it waits for. */
  ghost function Next(s: State): Step
    requires Inv(s) && !s.plan.Waiting?
  {
    var turn := Turn(s.plan);
    if turn.None? then Advances
    else if s.plan.Configuring? then Configures(turn.value)
    else if s.plan.Cancelling? then Cancels(turn.value)
    else
      var name, j := turn.value, s.jobs[turn.value];
      if s.plan.Dropping? then
        if !j.cancelled then Drops(name) else if j.at.Done? then Dropped(name) else JobStep(name, j)
      else if s.plan.Joining? then
        if j.at.Done? then Joins(name) else JobStep(name, j)
      else if CanTake(j) then Sends(name) else JobStep(name, j)
  }

  /** How many loops are still to come. */
  function Loops(p: Plan): nat {
    match p
    case Waiting => 0
    case SendingNothing(_, _) => 1
    case SendingLoaded(_, _) => 2
    case Configuring(_, _) => 3
    case SendingLoad(_, _, _) => 3
    case Dropping(_, _) => 4
    case Joining(_) => 1
    case Cancelling(_) => 2
  }

  /** How many turns are left in the loop. */
  function Turns(p: Plan): nat {
    2 * |NamesLeft(p)| + if p.SendingLoad? then 1 else 0
  }

  /** How much is left to do for one job. */
  ghost function Work(s: State): nat {
    var turn := Turn(s.plan);
    if turn.None? || turn.value !in s.jobs then 0 else
      var j := s.jobs[turn.value];
      (if j.cancelled then 0 else 3) + match j.at case Handling(_) => 2 case Idle => 1 case Done => 0
  }

  ghost predicate Nearer(r: State, s: State) {
    || Loops(r.plan) < Loops(s.plan)
    || (Loops(r.plan) == Loops(s.plan) && Turns(r.plan) < Turns(s.plan))
    || (r.plan == s.plan && Work(r) < Work(s))
  }

  /** The next step is always possible, and brings the end nearer. */
  lemma NextNearer(s: State)
    requires Inv(s) && !s.plan.Waiting?
    ensures Can(s, Next(s)) && Nearer(Do(s, Next(s)), s) && Target(Do(s, Next(s))) == Target(s)
  {
    hide JobsOk, EndedOk, Present;
    var turn := Turn(s.plan);
    if turn.Some? && !s.plan.SendingLoad? {
      assert |s.plan.left - {turn.value}| == |s.plan.left| - 1;
    }
  }

  lemma {:induction false} Finish(s: State) returns (es: seq<Step>)
    requires Inv(s)
    ensures Run(s, es).Some?
    ensures Run(s, es).value.plan.Waiting? && Run(s, es).value.loaded == Target(s)
    decreases Loops(s.plan), Turns(s.plan), Work(s)
  {
    es := [];
    if !s.plan.Waiting? {
      var e := Next(s);
      NextNearer(s);
      StepKeeps(s, e);
      hide Can, Do, Next, Inv, Work, Target;
      var rest := Finish(Do(s, e));
      es := [e] + rest;
      assert es[0] == e && es[1..] == rest;
    }
  }

  /** From wherever a load or a stop has got to, it can be completed, and then is what was asked for. */
  lemma Completes(s: State)
    requires Reachable(s)
    ensures exists es ::
      Run(s, es).Some? && Run(s, es).value.plan.Waiting? && Run(s, es).value.loaded == Target(s)
  {
    var es :| Run(Initial, es) == Some(s);
    RunKeeps(Initial, es);
    var more := Finish(s);
  }

  // ----- jobs that do not fail

  /** The job of that name, if there is one, has not ended. */
  predicate Lives(s: State, name: JobName) {
    name in s.jobs ==> !s.jobs[name].at.Done?
  }

  lemma LivesStep(s: State, e: Step, name: JobName)
    requires Lives(s, name) && Can(s, e) && e != Handles(name, false) && e != Ends(name)
    ensures Lives(Do(s, e), name)
  {
    match e
    case Sends(_) =>
    case Configures(_) =>
    case Handles(_, _) =>
    case _ =>
  }

  lemma {:induction false} LivesRun(s: State, es: seq<Step>, name: JobName)
    requires Lives(s, name) && Run(s, es).Some? && Handles(name, false) !in es && Ends(name) !in es
    ensures Lives(Run(s, es).value, name)
    decreases es
  {
    if es != [] {
      assert es[0] in es && forall e :: e in es[1..] ==> e in es;
      LivesStep(s, es[0], name);
      hide Can, Do, Lives;
      LivesRun(Do(s, es[0]), es[1..], name);
    }
  }

  /** In every run in which a job neither fails nor ends by itself, it runs after a load that has options
      for it, has accepted them, and listens on their address. */
  lemma ListensAfterLoad(es: seq<Step>, s: State, name: JobName)
    requires Run(Initial, es) == Some(s) && s.plan.Waiting? && s.loaded.Some?
    requires Handles(name, false) !in es && Ends(name) !in es
    requires name in s.loaded.value && s.loaded.value[name].Good?
    ensures name in s.jobs && !s.jobs[name].at.Done?
    ensures s.jobs[name].options == s.loaded.value[name].options
    ensures s.jobs[name].server == Some(s.loaded.value[name].options.address)
  {
    LivesRun(Initial, es, name);
    AfterLoad(s);
  }

  /** When its turn comes, a job that is not running is started, and one that is running goes on as it is. */
  lemma ConfiguredRuns(s: State, name: JobName)
    requires Can(s, Configures(name)) && name in s.plan.config
    requires s.plan.config[name].Good? || s.plan.config[name].NoOptions?
    ensures var jobs := Do(s, Configures(name)).jobs;
      && name in jobs
      && jobs[name] == if name in s.jobs && !s.jobs[name].at.Done? then s.jobs[name] else NewJob
    ensures Lives(Do(s, Configures(name)), name)
  {
  }

  /** Whatever became of a job before: if it neither fails nor ends after its turn in a load, it runs
      whenever a configuration with options for it is loaded, has accepted them, and listens on their address. */
  lemma ListensAgain(s: State, name: JobName, es: seq<Step>, end: State)
    requires Reachable(s) && Can(s, Configures(name)) && name in s.plan.config
    requires s.plan.config[name].Good? || s.plan.config[name].NoOptions?
    requires Run(Do(s, Configures(name)), es) == Some(end) && end.plan.Waiting? && end.loaded.Some?
    requires Handles(name, false) !in es && Ends(name) !in es
    requires name in end.loaded.value && end.loaded.value[name].Good?
    ensures name in end.jobs && !end.jobs[name].at.Done?
    ensures end.jobs[name].options == end.loaded.value[name].options
    ensures end.jobs[name].server == Some(end.loaded.value[name].options.address)
  {
    var before :| Run(Initial, before) == Some(s);
    ConfiguredRuns(s, name);
    LivesRun(Do(s, Configures(name)), es, name);
    RunConcat(Initial, before, [Configures(name)] + es);
    assert ([Configures(name)] + es)[1..] == es;
    hide Can, Do, Configured, Lives;
    AfterLoad(end);
  }

  /** A job that accepts options with the address that it had keeps its server, and goes on; with another
      address it stops listening until it is told to start. */
  lemma ServerKept(s: State, name: JobName, options: Options)
    requires Can(s, Handles(name, true)) && s.jobs[name].at == Handling(Load(options))
    ensures var j := Do(s, Handles(name, true)).jobs[name];
      && j.at.Idle? && j.options == options
      && j.server == if options.address == s.jobs[name].options.address then s.jobs[name].server else None
  {
  }

  /** A job begins only for an entry with a service, and options that could be read if it has any. */
  lemma JobsBegin(s: State, e: Step, name: JobName)
    requires Inv(s) && Can(s, e) && name in Do(s, e).jobs && name !in s.jobs
    ensures e == Configures(name) && s.plan.Configuring? && name in s.plan.config
    ensures s.plan.config[name].Good? || s.plan.config[name].NoOptions?
  {
    hide JobsOk, EndedOk;
    match e
    case Sends(_) =>
    case Configures(_) =>
    case _ =>
  }
}
