/** `DatabaseManager`: a process-wide singleton holding at most one Hibernate
    `SessionFactory`. The factory itself is opaque; the model keeps only its
    identity and whether it has been closed. */
module Database {
  import opened Base

  /** A built session factory: `serial` tells factories from distinct builds
      apart, `closed` is what `isClosed()` answers. */
  datatype SessionFactory = SessionFactory(serial: nat, closed: bool)

  /** The manager's one field; `None` is the `null` it starts with. */
  datatype Manager = Manager(sessionFactory: Option<SessionFactory>)

  /** The static side of the class: the lazily created instance and how many
      times the private constructor has run. */
  datatype Process = Process(instance: Option<Manager>, constructed: nat)

  /** The class as loaded: no instance yet. */
  const Loaded: Process := Process(None, 0)

  /** The singleton discipline: the constructor has run at most once, and
      exactly when an instance is stored. */
  predicate Singleton(p: Process) {
    p.constructed <= 1 && (p.instance.Some? <==> p.constructed == 1)
  }

  /** Stores a manager's new state back into the static field. */
  function Store(p: Process, m: Manager): Process {
    p.(instance := Some(m))
  }

  /** `getInstance()`: creates the instance on first use, otherwise returns
      the stored one and changes nothing. */
  function GetInstance(p: Process): (r: (Process, Manager))
    ensures r.0.instance == Some(r.1)
    ensures p.instance.Some? ==> r == (p, p.instance.value)
    ensures p.instance.None? ==> r.1.sessionFactory.None?
    ensures Singleton(p) ==> Singleton(r.0) && r.0.constructed == 1
  {
    match p.instance
    case Some(m) => (p, m)
    case None =>
      var m := Manager(None);
      (Process(Some(m), p.constructed + 1), m)
  }

  /** What `getSessionFactory` throws when no factory was ever stored. */
  datatype StateError = NotInitialized

  /** `getSessionFactory()`: the stored factory, open or closed, or
      `IllegalStateException` when there is none. */
  function GetSessionFactory(m: Manager): (r: Result<SessionFactory, StateError>)
    ensures r.Err? <==> m.sessionFactory.None?
    ensures r.Ok? ==> m.sessionFactory == Some(r.value)
  {
    match m.sessionFactory
    case None => Err(NotInitialized)
    case Some(f) => Ok(f)
  }

  /** `isInitialized()`: a factory is stored and is not closed. */
  function IsInitialized(m: Manager): (b: bool)
    ensures b <==> GetSessionFactory(m).Ok? && !GetSessionFactory(m).value.closed
  {
    m.sessionFactory.Some? && !m.sessionFactory.value.closed
  }

  /** The outcome of configuring Hibernate and building a factory: a fresh
      open factory, or an exception. */
  datatype BuildResult = Built(serial: nat) | BuildFailed

  /** The `RuntimeException` that `initialize` rethrows. */
  datatype InitError = InitFailed

  /** `initialize()`: the field is assigned only once the build has
      returned, so a failed build throws and leaves the manager as it was.
      A successful build replaces any stored factory without closing it. */
  function Initialize(m: Manager, build: BuildResult): (r: (Manager, Option<InitError>))
    ensures r.1.None? <==> build.Built?
    ensures build.Built? ==>
      r.0.sessionFactory == Some(SessionFactory(build.serial, false)) && IsInitialized(r.0)
    ensures build.BuildFailed? ==> r == (m, Some(InitFailed))
  {
    match build
    case Built(serial) => (Manager(Some(SessionFactory(serial, false))), None)
    case BuildFailed => (m, Some(InitFailed))
  }

  /** `shutdown()`: closes the factory if one is stored and still open,
      otherwise does nothing. */
  function Shutdown(m: Manager): (r: Manager)
    ensures !IsInitialized(r)
    ensures GetSessionFactory(r).Ok? <==> GetSessionFactory(m).Ok?
    ensures IsInitialized(m) ==>
      r.sessionFactory == Some(m.sessionFactory.value.(closed := true))
    ensures !IsInitialized(m) ==> r == m
  {
    if m.sessionFactory.Some? && !m.sessionFactory.value.closed then
      Manager(Some(m.sessionFactory.value.(closed := true)))
    else
      m
  }

  /** Calling `shutdown` twice is the same as calling it once. */
  lemma ShutdownIdempotent(m: Manager)
    ensures Shutdown(Shutdown(m)) == Shutdown(m)
  {
  }

  /** Repeated `getInstance` calls return the same manager and construct
      nothing more. */
  lemma GetInstanceStable(p: Process)
    ensures GetInstance(GetInstance(p).0) == GetInstance(p)
  {
  }

  /** The lifecycle as an independent three-state machine: no factory,
      an open factory, a closed factory. */
  datatype Phase = Uninitialized | Ready | Closed

  datatype Transition = Init(build: BuildResult) | Shut

  /** The reference transition table. A failed build keeps the phase; a
      successful one makes the manager ready from any phase; shutting down
      closes only a ready manager. */
  function Step(ph: Phase, t: Transition): Phase {
    match t
    case Init(Built(_)) => Ready
    case Init(BuildFailed) => ph
    case Shut => if ph == Ready then Closed else ph
  }

  function PhaseOf(m: Manager): Phase {
    match m.sessionFactory
    case None => Uninitialized
    case Some(f) => if f.closed then Closed else Ready
  }

  /** Applies a transition to the manager through the operations above. */
  function Apply(m: Manager, t: Transition): Manager {
    match t
    case Init(b) => Initialize(m, b).0
    case Shut => Shutdown(m)
  }

  /** `isInitialized` is exactly the ready phase, and `getSessionFactory`
      fails exactly in the uninitialized phase. */
  lemma PhaseQueries(m: Manager)
    ensures IsInitialized(m) <==> PhaseOf(m) == Ready
    ensures GetSessionFactory(m).Err? <==> PhaseOf(m) == Uninitialized
  {
  }

  /** The manager's operations follow the reference transition table. */
  lemma ApplyFollowsStep(m: Manager, t: Transition)
    ensures PhaseOf(Apply(m, t)) == Step(PhaseOf(m), t)
  {
  }

  /** Folds a sequence of transitions over the manager. */
  function ApplyAll(m: Manager, ts: seq<Transition>): Manager
    decreases |ts|
  {
    if ts == [] then m else ApplyAll(Apply(m, ts[0]), ts[1..])
  }

  function StepAll(ph: Phase, ts: seq<Transition>): Phase
    decreases |ts|
  {
    if ts == [] then ph else StepAll(Step(ph, ts[0]), ts[1..])
  }

  /** Any run of the manager follows the reference machine. */
  lemma {:induction false} ApplyAllFollowsStepAll(m: Manager, ts: seq<Transition>)
    ensures PhaseOf(ApplyAll(m, ts)) == StepAll(PhaseOf(m), ts)
    decreases |ts|
  {
    if ts != [] {
      ApplyFollowsStep(m, ts[0]);
      ApplyAllFollowsStepAll(Apply(m, ts[0]), ts[1..]);
    }
  }

  /** Once a factory has been stored, no run of the manager loses it:
      `getSessionFactory` keeps succeeding, after `shutdown` too. */
  lemma {:induction false} FactoryNeverForgotten(m: Manager, ts: seq<Transition>)
    requires GetSessionFactory(m).Ok?
    ensures GetSessionFactory(ApplyAll(m, ts)).Ok?
    decreases |ts|
  {
    if ts != [] {
      FactoryNeverForgotten(Apply(m, ts[0]), ts[1..]);
    }
  }
}
