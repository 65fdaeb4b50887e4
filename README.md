# Docker host IP resolution (testcontainers-java `DockerClientConfigUtils`)

This project models how testcontainers works out the address of the Docker
host when the test process may itself run inside a container.

- If the process is in a container (the `/.dockerenv` marker exists), a helper
  container runs `ip route`. The first IP literal on the first `default` line
  that has one becomes the detected host IP.
- That value is computed lazily, once, and cached.
- `getDockerHostIpAddress` returns the detected IP when there is one.
  Otherwise the Docker host URI's scheme decides: `http`, `https` and `tcp`
  give the URI's host, `unix` gives `localhost`, and any other scheme gives
  `null`.

Files and modules:

- `wrappers.dfy` (`Wrappers`): `Option` stands for `Optional` and `null`.
  `Outcome` is a Java call that either returns or throws.
- `java_text.dfy` (`JavaText`): `String.trim`, `startsWith` and
  `split` with a one-character separator, using Java's limit-0 rules. With
  that limit, trailing empty pieces are dropped, and a string with no
  separator splits to itself.
- `route_parser.dfy` (`RouteParser`): the parse inside one retry attempt.
  It is written twice: as recursive functions (`ParseDefaultRoute`) and as the
  source's nested loops with an early return (`ParseDefaultRouteLoop`), which
  is proved equal to the functions. It also has a declarative "first
  candidate" characterisation of the parse and the retry around it.
- `route_examples.dfy` (`RouteExamples`): the parse applied to a concrete
  routing table.
- `docker_client_config_utils.dfy` (`DockerClientConfigUtils`):
  - the `Optional` chain that launches the probe and sanitises its result;
  - the scheme fallback;
  - the class `HostIpResolver`, which models the static state: the
    `IN_A_CONTAINER` constant and the Lombok lazy getter's cell, with a
    `computed` flag and the cached `value`.

Inputs that stand for the outside world:

- `inContainer` is the result of the `/.dockerenv` existence check.
- `isIp` is Guava's `InetAddresses.isInetAddress`. It is left uninterpreted
  and passed as a parameter.
- A `HelperRun` describes what `DockerClientFactory.runInsideDocker` does.
  Either creating or starting the container throws (`HelperFailed`), or the
  callback runs. In the second case it carries the sequence of retry
  attempts. Each attempt either reads the container's log (`LogRead(text)`)
  or the read throws (`LogReadFailed`).
- `scheme` and `host` are the Docker host URI's `getScheme()` and
  `getHost()`. `host` is an `Option` because `URI.getHost` can be `null`.

Behaviour of the code that is easy to misread, and that the model follows:

- `Unreliables.retryUntilSuccess(3, TimeUnit.SECONDS, …)` retries for up to
  three seconds; it does not stop after three attempts. The model therefore
  takes any finite sequence of attempts and returns the first one that
  succeeds.
- The `try`/`catch` sits inside the callback, so it covers only the retry
  loop. An exception from `runInsideDocker` itself (the container could not
  be created or started) is not caught in this file. It escapes the lazy
  getter and `getDockerHostIpAddress`. Because Lombok caches only a value
  the initialiser actually returned, the next call computes again. The model
  keeps both behaviours: `Thrown`, and a cell that stays empty.
- Route lines are split on single spaces, not on any whitespace.

## Model

| member | source | states |
|---|---|---|
| JavaText.Trim | core/src/main/java/org/testcontainers/dockerclient/DockerClientConfigUtils.java:36 | the result is the input with its leading and trailing chars ≤ space removed: a contiguous slice, starting and ending with a char above space, and every char removed is ≤ space |
| JavaText.TrimTrimmed | core/src/main/java/org/testcontainers/dockerclient/DockerClientConfigUtils.java:60 | trimming leaves a string unchanged exactly when it is already trimmed |
| JavaText.TrimIdempotent | core/src/main/java/org/testcontainers/dockerclient/DockerClientConfigUtils.java:60 | trimming twice equals trimming once, so the second `trimToEmpty` on an already trimmed part changes nothing |
| JavaText.BlankIffAllTrimmable | core/src/main/java/org/testcontainers/dockerclient/DockerClientConfigUtils.java:61 | a string is blank exactly when every char in it is one `trim` strips |
| JavaText.Pieces | core/src/main/java/org/testcontainers/dockerclient/DockerClientConfigUtils.java:38 | there is at least one piece, and no piece contains the separator |
| JavaText.JoinPieces | core/src/main/java/org/testcontainers/dockerclient/DockerClientConfigUtils.java:38 | joining the pieces with the separator gives back the original string, so splitting loses nothing |
| JavaText.PiecesJoin | core/src/main/java/org/testcontainers/dockerclient/DockerClientConfigUtils.java:38 | splitting a join of separator-free pieces gives those pieces back |
| JavaText.DropTrailingEmpty | core/src/main/java/org/testcontainers/dockerclient/DockerClientConfigUtils.java:38 | the result is a prefix of the input, everything dropped is empty, and the last element kept is not empty |
| JavaText.Split | core/src/main/java/org/testcontainers/dockerclient/DockerClientConfigUtils.java:38-40 | Java `split` with limit 0. No part contains the separator. Without a separator the result is the whole input. Otherwise it is the pieces minus trailing empty ones, and the last part kept is not empty |
| JavaText.SplitJoin | core/src/main/java/org/testcontainers/dockerclient/DockerClientConfigUtils.java:38-40 | `split` inverts joining separator-free pieces whose last piece is not empty |
| RouteParser.FirstIpPart | core/src/main/java/org/testcontainers/dockerclient/DockerClientConfigUtils.java:40-45 | there is no result exactly when no trimmed part passes the IP test. Otherwise the result is the trimmed part at some index, it passes the test, and no earlier part passes |
| RouteParser.LineResult | core/src/main/java/org/testcontainers/dockerclient/DockerClientConfigUtils.java:39-45 | a line gives nothing exactly when it does not start with `default` or none of its trimmed space-separated parts passes the IP test. A value it gives comes from a `default` line and passes the test |
| RouteParser.ParseDefaultRoute | core/src/main/java/org/testcontainers/dockerclient/DockerClientConfigUtils.java:36-45 | a value returned by one read of the command output passes the IP test and is trimmed |
| RouteParser.ParseDefaultRouteNone | core/src/main/java/org/testcontainers/dockerclient/DockerClientConfigUtils.java:36-52 | one read of the output fails (the source throws) exactly when no line of the trimmed output, split at newlines, holds a candidate: a part that passes the IP test on a line starting with `default` |
| RouteParser.ParseDefaultRouteLoop | core/src/main/java/org/testcontainers/dockerclient/DockerClientConfigUtils.java:36-52 | the source's nested loops with an early return compute exactly `ParseDefaultRoute` |
| RouteParser.ParseLinesNone | core/src/main/java/org/testcontainers/dockerclient/DockerClientConfigUtils.java:38-52 | the attempt fails exactly when no `default` line has a part that passes the IP test. A `default` line without one does not stop the scan |
| RouteParser.ParseLinesFirst | core/src/main/java/org/testcontainers/dockerclient/DockerClientConfigUtils.java:38-45 | given a candidate (line i, part j) with no candidate before it in line-then-part order, the parse returns that part, trimmed |
| RouteParser.ParseLinesSome | core/src/main/java/org/testcontainers/dockerclient/DockerClientConfigUtils.java:38-45 | a successful parse returns the trimmed part of some candidate with no candidate before it |
| RouteParser.DefaultLines | core/src/main/java/org/testcontainers/dockerclient/DockerClientConfigUtils.java:39 | a line is kept exactly when it is an input line that starts with `default`, and there are no more kept lines than input lines |
| RouteParser.OnlyDefaultLinesMatter | core/src/main/java/org/testcontainers/dockerclient/DockerClientConfigUtils.java:38-39 | deleting every line that does not start with `default` does not change the result, whatever IP literals those lines hold |
| RouteParser.ParseLinesResult | core/src/main/java/org/testcontainers/dockerclient/DockerClientConfigUtils.java:41-43 | whatever the parse returns passes the IP test and is already trimmed |
| RouteParser.RetryUntilSuccess | core/src/main/java/org/testcontainers/dockerclient/DockerClientConfigUtils.java:29-53 | the retry fails exactly when every attempt fails. Otherwise it returns the value of some attempt, and every earlier attempt failed |
| RouteParser.AttemptResult | core/src/main/java/org/testcontainers/dockerclient/DockerClientConfigUtils.java:30-52 | an attempt whose log read threw fails. A value an attempt returns passes the IP test and is trimmed |
| RouteParser.FailedAttemptsSkipped | core/src/main/java/org/testcontainers/dockerclient/DockerClientConfigUtils.java:29 | failed attempts in front of the others do not change the retry's result, so a success after failures is returned |
| RouteParser.RetryResult | core/src/main/java/org/testcontainers/dockerclient/DockerClientConfigUtils.java:29-45 | a successful retry's value passes the IP test and is trimmed |
| RouteExamples.ExampleRouteTable | core/src/main/java/org/testcontainers/dockerclient/DockerClientConfigUtils.java:36-45 | for `172.17.0.0/16 dev eth0` followed by `default via 172.17.0.1 dev eth0`, the parse gives `172.17.0.1`, provided `default` and `via` are not IP literals and `172.17.0.1` is |
| RouteExamples.ExampleSkipsFirstLine | core/src/main/java/org/testcontainers/dockerclient/DockerClientConfigUtils.java:38-39 | in that output the non-default first line is skipped, even though it holds an address |
| RouteExamples.ExampleDefaultLine | core/src/main/java/org/testcontainers/dockerclient/DockerClientConfigUtils.java:40-44 | on that default line, the parts before the gateway are passed over |
| DockerClientConfigUtils.Detected | core/src/main/java/org/testcontainers/dockerclient/DockerClientConfigUtils.java:54-61 | present exactly when in a container and the probe gave a non-blank value. So it is absent outside a container, for a `null` probe and for a blank one. A present value is trimmed and non-empty. A non-blank probe value gives its trimmed form, and an already trimmed non-empty one passes unchanged |
| DockerClientConfigUtils.DetectedHostIp | core/src/main/java/org/testcontainers/dockerclient/DockerClientConfigUtils.java:22-61 | not in a container: an absent IP, whatever the helper would have done. It throws exactly when in a container and the helper container fails. Otherwise it is the retry's value, or absent if that value is empty. A present IP passes the IP test and is trimmed and non-empty |
| DockerClientConfigUtils.HostAddress | core/src/main/java/org/testcontainers/dockerclient/DockerClientConfigUtils.java:63-75 | a detected IP is returned as it is. Without one, `http`, `https` and `tcp` give the URI host, `unix` gives `localhost` and every other scheme gives `null`. A present result is the detected IP, the URI host or `localhost`. The result is `null` exactly when nothing was detected and either the scheme is unknown or it is a network scheme without a host |
| DockerClientConfigUtils.DetectedTakesPrecedence | core/src/main/java/org/testcontainers/dockerclient/DockerClientConfigUtils.java:64 | a detected IP is returned whatever the scheme and the host |
| DockerClientConfigUtils.SchemeFallback | core/src/main/java/org/testcontainers/dockerclient/DockerClientConfigUtils.java:65-74 | with no detected IP: `http`, `https` and `tcp` give the host unchanged, `unix` gives `localhost`, and every other scheme gives `null` |
| DockerClientConfigUtils.OutsideContainerIgnoresHelper | core/src/main/java/org/testcontainers/dockerclient/DockerClientConfigUtils.java:22-24 | outside a container the detected IP is absent and the host address depends only on the URI |
| DockerClientConfigUtils.HostIpResolver.constructor | core/src/main/java/org/testcontainers/dockerclient/DockerClientConfigUtils.java:19-22 | the containment flag and the IP test are fixed; the cell starts empty, with no helper launched |
| DockerClientConfigUtils.HostIpResolver.Get | core/src/main/java/org/testcontainers/dockerclient/DockerClientConfigUtils.java:21-22 | once the cell is filled, the cached value comes back, nothing changes and no helper is launched. On a first call the result is `DetectedHostIp`. The cell is filled only if that returned, and one helper is launched only when in a container |
| DockerClientConfigUtils.HostIpResolver.DockerHostIpAddress | core/src/main/java/org/testcontainers/dockerclient/DockerClientConfigUtils.java:63-75 | the scheme fallback applied to the cached or newly detected IP. An exception from the helper launch propagates and leaves the cell empty. Afterwards the cell is filled exactly when it was before or this call returned. A newly filled cell holds the detected IP. One helper is launched exactly when the cell was empty and the code runs in a container |
| DockerClientConfigUtils.LookupTwice | core/src/main/java/org/testcontainers/dockerclient/DockerClientConfigUtils.java:21-22 | after a lookup that returned, a second lookup returns the same value, whatever the helper would do now, and at most one helper is launched in total. Outside a container both are absent and nothing is launched |

## Left out

- The `/.dockerenv` existence check (line 19) is filesystem I/O. It becomes the boolean `inContainer`.
- `DockerClientFactory.runInsideDocker`, `logContainerCmd(…).exec(new LogToStringContainerCallback())` and the helper container's lifecycle are a foreign Docker API. They are not part of this model and are described by a `HelperRun` value.
- `Unreliables.retryUntilSuccess`: its three-second time budget and the sleeps between attempts are wall-clock timing. Only "the first success among the attempts that ran, else failure" is modelled.
- Guava `InetAddresses.isInetAddress` stays uninterpreted (`isIp`). Nothing here claims IPv4 or IPv6 literal validation.
- Thread-safety of the Lombok lazy getter is concurrency. Only its single-threaded compute-once behaviour is modelled.
- Logging (lines 50 and 55) is an observable side effect only.
- DockerClientConfigUtils.Detected: commons-lang `isNotBlank` uses `Character.isWhitespace`. The model treats a string as blank when it is empty after stripping chars ≤ space. A trimmed string made only of whitespace above U+0020 (for example U+2003) is blank in Java but present in the model.
- A `null` URI scheme makes the Java `switch` throw a `NullPointerException`. The model's scheme is always a string.
