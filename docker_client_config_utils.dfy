/** `DockerClientConfigUtils`: the lazily detected Docker host IP and the
    host address derived from it or from the Docker host URI's scheme.

    What the source reads from outside becomes an input: the `/.dockerenv`
    check is the flag `inContainer`, the helper container's behaviour is a
    `HelperRun`, the IP-literal test is `isIp`, and the configured Docker
    host URI is its `scheme` and `host`. */
module DockerClientConfigUtils {
  import opened Wrappers
  import opened JavaText
  import opened RouteParser

  /** What `DockerClientFactory.runInsideDocker` does when asked to run
      `ip route` in a helper container. */
  datatype HelperRun =
    | HelperFailed                       // creating or starting the container threw
    | HelperRan(attempts: seq<Attempt>)  // the callback ran; these are its retry attempts

  /** A detected host IP as the source guarantees it: it passed the IP test,
      it is trimmed and it is not blank. */
  predicate IsHostIp(ip: string, isIp: string -> bool) {
    isIp(ip) && IsTrimmed(ip) && ip != []
  }

  /** The `Optional` chain around the probe: `Optional.of(inContainer)
      .filter(it -> it).map(probe).map(trimToEmpty).filter(isNotBlank)`, where
      `probe` is the callback's value (`None` for its `null`). */
  function Detected(inContainer: bool, probe: Option<string>): (r: Option<string>)
    ensures !inContainer ==> r == None
    ensures probe == None ==> r == None
    ensures r.Some? ==> IsTrimmed(r.value) && r.value != []
    ensures r.Some? <==> inContainer && probe.Some? && !IsBlank(probe.value)
    ensures inContainer && probe.Some? && !IsBlank(probe.value) ==> r.Some? && r.value == Trim(probe.value)
    ensures inContainer && probe.Some? && IsTrimmed(probe.value) && probe.value != [] ==> r == probe
  {
    if !inContainer then None
    else match probe
      case None => None
      case Some(s) =>
        var t := Trim(s);
        TrimIdempotent(s);
        TrimTrimmed(s);
        if IsBlank(t) then None else Some(t)
  }

  /** The value of the field initialiser: the helper container is only
      launched when in a container; a failure to launch it escapes as an
      exception, a failure inside it yields an absent IP. */
  function DetectedHostIp(inContainer: bool, run: HelperRun, isIp: string -> bool): (r: Outcome<Option<string>>)
    ensures !inContainer ==> r == Returned(None)
    ensures r.Thrown? <==> inContainer && run.HelperFailed?
    ensures r.Returned? && r.value.Some? ==> IsHostIp(r.value.value, isIp)
    ensures inContainer && run.HelperRan? ==>
              r == Returned(var p := RetryUntilSuccess(run.attempts, isIp);
                            if p.Some? && p.value != [] then p else None)
  {
    if !inContainer then Returned(None)
    else match run
      case HelperFailed => Thrown
      case HelperRan(attempts) =>
        var p := RetryUntilSuccess(attempts, isIp);
        RetryResult(attempts, isIp);
        Returned(Detected(true, p))
  }

  /** The schemes whose URI host is the Docker host. */
  predicate IsNetworkScheme(scheme: string) {
    scheme == "http" || scheme == "https" || scheme == "tcp"
  }

  /** `getDockerHostIpAddress` once the detected IP is known: the detected IP
      if present, otherwise a choice by the URI scheme; `None` is `null`.
      `host` is the URI's host, itself `None` when the URI has none. */
  function HostAddress(detected: Option<string>, scheme: string, host: Option<string>): (r: Option<string>)
    ensures detected.Some? ==> r == detected
    ensures detected.None? && IsNetworkScheme(scheme) ==> r == host
    ensures detected.None? && scheme == "unix" ==> r == Some("localhost")
    ensures detected.None? && !IsNetworkScheme(scheme) && scheme != "unix" ==> r == None
    ensures r.Some? ==> r == detected || r == host || r == Some("localhost")
    ensures r == None <==> detected == None && (!(IsNetworkScheme(scheme) || scheme == "unix") || (IsNetworkScheme(scheme) && host == None))
  {
    if detected.Some? then detected
    else if IsNetworkScheme(scheme) then host
    else if scheme == "unix" then Some("localhost")
    else None
  }

  /** A detected IP wins whatever the scheme and the host. */
  lemma DetectedTakesPrecedence(ip: string, scheme: string, host: Option<string>)
    ensures HostAddress(Some(ip), scheme, host) == Some(ip)
  {
  }

  /** Without a detected IP the scheme decides. */
  lemma SchemeFallback(scheme: string, host: Option<string>)
    ensures IsNetworkScheme(scheme) ==> HostAddress(None, scheme, host) == host
    ensures scheme == "unix" ==> HostAddress(None, scheme, host) == Some("localhost")
    ensures !IsNetworkScheme(scheme) && scheme != "unix" ==> HostAddress(None, scheme, host) == None
  {
  }

  /** Outside a container the host address depends only on the URI,
      whatever the helper container would have done. */
  lemma OutsideContainerIgnoresHelper(run: HelperRun, scheme: string, host: Option<string>, isIp: string -> bool)
    ensures DetectedHostIp(false, run, isIp) == Returned(None)
    ensures HostAddress(DetectedHostIp(false, run, isIp).value, scheme, host) == HostAddress(None, scheme, host)
  {
  }

  /** The class's static state: the `IN_A_CONTAINER` constant and the
      Lombok lazy getter's cell for `detectedDockerHostIp`. */
  class HostIpResolver {
    const inContainer: bool
    const isIp: string -> bool
    /** Whether the cell holds a value yet. */
    var computed: bool
    /** The cached detected IP; meaningful once `computed`. */
    var value: Option<string>
    /** How many helper containers were launched so far. */
    ghost var launches: nat

    ghost predicate Valid()
      reads this
    {
      && (!computed ==> value == None)
      && (computed && value.Some? ==> inContainer && IsHostIp(value.value, isIp))
      && (!inContainer ==> launches == 0)
    }

    constructor (inContainer: bool, isIp: string -> bool)
      ensures Valid()
      ensures this.inContainer == inContainer && this.isIp == isIp
      ensures !computed && value == None && launches == 0
    {
      this.inContainer := inContainer;
      this.isIp := isIp;
      computed := false;
      value := None;
      launches := 0;
    }

    /** `getDetectedDockerHostIp()`. The first call that returns fills the
        cell; every later call returns the cached value and launches nothing.
        A call whose initialiser throws leaves the cell empty, so the next
        call computes again. `run` is what the helper container would do if
        it were launched by this call. */
    method Get(run: HelperRun) returns (r: Outcome<Option<string>>)
      requires Valid()
      modifies this
      ensures Valid()
      ensures old(computed) ==> r == Returned(old(value)) && computed && value == old(value) && launches == old(launches)
      ensures !old(computed) ==> r == DetectedHostIp(inContainer, run, isIp)
      ensures !old(computed) ==> computed == r.Returned? && value == (if r.Returned? then r.value else None)
      ensures !old(computed) ==> launches == old(launches) + (if inContainer then 1 else 0)
    {
      if computed {
        return Returned(value);
      }
      if inContainer {
        launches := launches + 1;
      }
      r := DetectedHostIp(inContainer, run, isIp);
      if r.Returned? {
        value := r.value;
        computed := true;
      }
    }

    /** `getDockerHostIpAddress(config)`: the detected IP (computed at most
        once), else the scheme fallback for the configured Docker host URI. */
    method DockerHostIpAddress(run: HelperRun, scheme: string, host: Option<string>) returns (r: Outcome<Option<string>>)
      requires Valid()
      modifies this
      ensures Valid()
      ensures old(computed) ==> r == Returned(HostAddress(old(value), scheme, host)) && value == old(value)
      ensures !old(computed) ==> r == (match DetectedHostIp(inContainer, run, isIp)
                                       case Thrown => Thrown
                                       case Returned(d) => Returned(HostAddress(d, scheme, host)))
      ensures r.Thrown? ==> !computed
      ensures computed == (old(computed) || r.Returned?)
      ensures !old(computed) && r.Returned? ==> value == DetectedHostIp(inContainer, run, isIp).value
      ensures launches == old(launches) + (if !old(computed) && inContainer then 1 else 0)
    {
      var d := Get(run);
      match d
      case Thrown => r := Thrown;
      case Returned(ip) => r := Returned(HostAddress(ip, scheme, host));
    }
  }

  /** Two lookups in a row: once the first has returned, the second gives
      the same value and launches no helper container, whatever it would
      have produced. */
  method LookupTwice(c: HostIpResolver, run1: HelperRun, run2: HelperRun) returns (r1: Outcome<Option<string>>, r2: Outcome<Option<string>>)
    requires c.Valid()
    modifies c
    ensures c.Valid()
    ensures r1.Returned? ==> r2 == r1 && c.launches <= old(c.launches) + 1
    ensures !c.inContainer ==> r1 == r2 == Returned(None) && c.launches == 0
  {
    r1 := c.Get(run1);
    r2 := c.Get(run2);
  }
}
