/** The server lifecycle hooks registered by `MessageMod`: on start the
    manager is initialized and the connection probed, with every exception
    caught and logged; on stop the manager is shut down. */
module Lifecycle {
  import opened Base
  import opened Database

  /** The manager the singleton holds once `getInstance` has run. */
  function Current(p: Process): Manager {
    GetInstance(p).1
  }

  /** `SERVER_STARTING`: `initialize()`, then `getSessionFactory()` and
      `testConnection()`. An exception from `initialize` is swallowed; the
      probe's answer (`connectionOk`) is only logged and changes nothing. */
  function OnServerStarting(p: Process, build: BuildResult, connectionOk: bool): (r: Process)
    ensures Singleton(p) ==> Singleton(r)
    ensures r.instance.Some?
    ensures IsInitialized(Current(r)) <==> build.Built? || IsInitialized(Current(p))
    ensures build.BuildFailed? ==> Current(r) == Current(p)
    ensures Current(r) == Initialize(Current(p), build).0
  {
    var (p1, m) := GetInstance(p);
    var (m1, thrown) := Initialize(m, build);
    var p2 := Store(p1, m1);
    match thrown
    case Some(_) => p2
    case None =>
      // `getSessionFactory` cannot throw after a successful `initialize`,
      // and `testConnection` catches its own exceptions.
      var (p3, m3) := GetInstance(p2);
      match GetSessionFactory(m3)
      case Err(_) => p3
      case Ok(_) => p3
  }

  /** `SERVER_STOPPING`: `getInstance().shutdown()`. */
  function OnServerStopping(p: Process): (r: Process)
    ensures Singleton(p) ==> Singleton(r)
    ensures !IsInitialized(Current(r))
    ensures GetSessionFactory(Current(r)).Ok? <==> GetSessionFactory(Current(p)).Ok?
    ensures Current(r) == Shutdown(Current(p))
  {
    var (p1, m) := GetInstance(p);
    Store(p1, Shutdown(m))
  }

  datatype ServerEvent = Starting(build: BuildResult, connectionOk: bool) | Stopping

  function Handle(p: Process, e: ServerEvent): Process {
    match e
    case Starting(b, ok) => OnServerStarting(p, b, ok)
    case Stopping => OnServerStopping(p)
  }

  function Run(p: Process, es: seq<ServerEvent>): Process
    decreases |es|
  {
    if es == [] then p else Run(Handle(p, es[0]), es[1..])
  }

  /** However many times the server starts and stops, the manager is
      constructed at most once. */
  lemma {:induction false} RunKeepsSingleton(p: Process, es: seq<ServerEvent>)
    requires Singleton(p)
    ensures Singleton(Run(p, es))
    ensures Run(p, es).constructed <= 1
    decreases |es|
  {
    if es != [] {
      RunKeepsSingleton(Handle(p, es[0]), es[1..]);
    }
  }

  /** Stopping twice is the same as stopping once. */
  lemma StopIdempotent(p: Process)
    ensures OnServerStopping(OnServerStopping(p)) == OnServerStopping(p)
  {
  }

  /** After a stop, a start whose build succeeds makes the manager usable
      again; one whose build fails leaves it unusable. */
  lemma RestartAfterStop(p: Process, build: BuildResult, connectionOk: bool)
    ensures IsInitialized(Current(OnServerStarting(OnServerStopping(p), build, connectionOk)))
        <==> build.Built?
  {
  }
}
