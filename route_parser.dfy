/** The parser of `ip route` output that runs inside each retry attempt of
    `DockerClientConfigUtils.detectedDockerHostIp`, and the retry around it.

    The IP-literal test (Guava `InetAddresses.isInetAddress`) is not modelled:
    every member takes it as the parameter `isIp`. */
module RouteParser {
  import opened Wrappers
  import opened JavaText

  /** The marker a route line must start with. */
  const DefaultMarker: string := "default"

  /** The first of `parts` that passes `isIp` once trimmed, trimmed. */
  function FirstIpPart(parts: seq<string>, isIp: string -> bool): (r: Option<string>)
    ensures r.None? <==> forall j :: 0 <= j < |parts| ==> !isIp(Trim(parts[j]))
    ensures r.Some? ==> exists j :: 0 <= j < |parts| && r.value == Trim(parts[j]) && isIp(r.value)
                                    && forall j' :: 0 <= j' < j ==> !isIp(Trim(parts[j']))
  {
    if parts == [] then None
    else if isIp(Trim(parts[0])) then Some(Trim(parts[0]))
    else
      var r := FirstIpPart(parts[1..], isIp);
      assert forall j :: 0 <= j < |parts| - 1 ==> parts[1..][j] == parts[j + 1];
      r
  }

  /** What one line contributes: its first IP part when it is a default
      route line, nothing otherwise. */
  function LineResult(line: string, isIp: string -> bool): (r: Option<string>)
    ensures r.None? <==> !StartsWith(line, DefaultMarker)
                         || forall j :: 0 <= j < |Split(line, ' ')| ==> !isIp(Trim(Split(line, ' ')[j]))
    ensures r.Some? ==> StartsWith(line, DefaultMarker) && isIp(r.value)
  {
    if StartsWith(line, DefaultMarker) then FirstIpPart(Split(line, ' '), isIp) else None
  }

  /** The scan over the lines, in order, stopping at the first line that
      contributes something. */
  function ParseLines(lines: seq<string>, isIp: string -> bool): Option<string> {
    if lines == [] then None
    else if LineResult(lines[0], isIp).Some? then LineResult(lines[0], isIp)
    else ParseLines(lines[1..], isIp)
  }

  /** One attempt's parse of the captured standard output of `ip route`;
      `None` stands for the `IllegalStateException` the attempt throws. */
  function ParseDefaultRoute(output: string, isIp: string -> bool): (r: Option<string>)
    ensures r.Some? ==> isIp(r.value) && IsTrimmed(r.value)
  {
    var lines := Split(Trim(output), '\n');
    ParseLinesResult(lines, isIp);
    ParseLines(lines, isIp)
  }

  /** The command output yields no IP exactly when none of its lines, after
      trimming the whole output and splitting it at newlines, holds a
      candidate. */
  lemma ParseDefaultRouteNone(output: string, isIp: string -> bool)
    ensures ParseDefaultRoute(output, isIp).None? <==>
              forall i, j :: !IsCandidate(Split(Trim(output), '\n'), i, j, isIp)
  {
    ParseLinesNone(Split(Trim(output), '\n'), isIp);
  }

  /** The parse as the source writes it: nested loops with an early return. */
  method ParseDefaultRouteLoop(output: string, isIp: string -> bool) returns (r: Option<string>)
    ensures r == ParseDefaultRoute(output, isIp)
  {
    var trimmed := Trim(output);
    var lines := Split(trimmed, '\n');
    for i := 0 to |lines|
      invariant ParseLines(lines[i..], isIp) == ParseLines(lines, isIp)
    {
      assert lines[i..][1..] == lines[i + 1..];
      var line := lines[i];
      if StartsWith(line, DefaultMarker) {
        var parts := Split(line, ' ');
        for j := 0 to |parts|
          invariant FirstIpPart(parts[j..], isIp) == FirstIpPart(parts, isIp)
        {
          assert parts[j..][1..] == parts[j + 1..];
          var part := Trim(parts[j]);
          if isIp(part) {
            return Some(part);
          }
        }
        assert parts[|parts|..] == [];
      }
    }
    assert lines[|lines|..] == [];
    return None;
  }

  /** Part `j` of line `i` is one the parser would accept. */
  predicate IsCandidate(lines: seq<string>, i: int, j: int, isIp: string -> bool) {
    && 0 <= i < |lines|
    && StartsWith(lines[i], DefaultMarker)
    && 0 <= j < |Split(lines[i], ' ')|
    && isIp(Trim(Split(lines[i], ' ')[j]))
  }

  /** Position (i', j') comes before (i, j): earlier line, or same line and earlier part. */
  predicate Before(i': int, j': int, i: int, j: int) {
    i' < i || (i' == i && j' < j)
  }

  lemma CandidateShift(lines: seq<string>, i: int, j: int, isIp: string -> bool)
    requires |lines| > 0 && 0 <= i
    ensures IsCandidate(lines[1..], i, j, isIp) <==> IsCandidate(lines, i + 1, j, isIp)
  {
    if 0 <= i < |lines| - 1 {
      assert lines[1..][i] == lines[i + 1];
    }
  }

  /** The parse fails exactly when no default line holds an IP part. */
  lemma {:induction false} ParseLinesNone(lines: seq<string>, isIp: string -> bool)
    ensures ParseLines(lines, isIp).None? <==> forall i, j :: !IsCandidate(lines, i, j, isIp)
  {
    if lines != [] {
      ParseLinesNone(lines[1..], isIp);
      forall i, j | 0 <= i ensures IsCandidate(lines[1..], i, j, isIp) <==> IsCandidate(lines, i + 1, j, isIp) {
        CandidateShift(lines, i, j, isIp);
      }
      if ParseLines(lines, isIp).None? {
        forall i, j ensures !IsCandidate(lines, i, j, isIp) {
          if i > 0 {
            CandidateShift(lines, i - 1, j, isIp);
          }
        }
      } else if LineResult(lines[0], isIp).None? {
        var i, j :| IsCandidate(lines[1..], i, j, isIp);
        assert IsCandidate(lines, i + 1, j, isIp);
      } else {
        var j :| 0 <= j < |Split(lines[0], ' ')| && isIp(Trim(Split(lines[0], ' ')[j]));
        assert IsCandidate(lines, 0, j, isIp);
      }
    }
  }

  /** A candidate on the first line with no earlier candidate on it is
      what that line contributes. */
  lemma FirstLineCandidate(lines: seq<string>, j: int, isIp: string -> bool)
    requires IsCandidate(lines, 0, j, isIp)
    requires forall j' :: 0 <= j' < j ==> !IsCandidate(lines, 0, j', isIp)
    ensures LineResult(lines[0], isIp) == Some(Trim(Split(lines[0], ' ')[j]))
  {
    var parts := Split(lines[0], ' ');
    assert forall j' :: 0 <= j' < j ==> !isIp(Trim(parts[j'])) by {
      forall j' | 0 <= j' < j ensures !isIp(Trim(parts[j'])) {
        assert !IsCandidate(lines, 0, j', isIp);
      }
    }
    var r := FirstIpPart(parts, isIp);
    var k :| 0 <= k < |parts| && r.value == Trim(parts[k]) && isIp(r.value)
               && forall j' :: 0 <= j' < k ==> !isIp(Trim(parts[j']));
    assert k == j;
  }

  /** A first line without candidates contributes nothing. */
  lemma FirstLineWithout(lines: seq<string>, isIp: string -> bool)
    requires |lines| > 0
    requires forall j :: !IsCandidate(lines, 0, j, isIp)
    ensures LineResult(lines[0], isIp).None?
  {
    if StartsWith(lines[0], DefaultMarker) {
      forall j | 0 <= j < |Split(lines[0], ' ')| ensures !isIp(Trim(Split(lines[0], ' ')[j])) {
        assert !IsCandidate(lines, 0, j, isIp);
      }
    }
  }

  /** "No earlier candidate" carries over from `lines` to `lines[1..]`. */
  lemma NoEarlierShift(lines: seq<string>, i: int, j: int, isIp: string -> bool)
    requires |lines| > 0 && 0 < i
    requires forall i', j' :: Before(i', j', i, j) ==> !IsCandidate(lines, i', j', isIp)
    ensures forall i', j' :: Before(i', j', i - 1, j) ==> !IsCandidate(lines[1..], i', j', isIp)
  {
    forall i', j' | Before(i', j', i - 1, j) ensures !IsCandidate(lines[1..], i', j', isIp) {
      if 0 <= i' {
        CandidateShift(lines, i', j', isIp);
        assert Before(i' + 1, j', i, j);
      }
    }
  }

  /** When part `j` of line `i` is a candidate and no earlier position is,
      the parse returns that part, trimmed. */
  lemma {:induction false} ParseLinesFirst(lines: seq<string>, i: int, j: int, isIp: string -> bool)
    requires IsCandidate(lines, i, j, isIp)
    requires forall i', j' :: Before(i', j', i, j) ==> !IsCandidate(lines, i', j', isIp)
    ensures ParseLines(lines, isIp) == Some(Trim(Split(lines[i], ' ')[j]))
  {
    if i == 0 {
      FirstLineCandidate(lines, j, isIp);
    } else {
      assert forall j' :: !IsCandidate(lines, 0, j', isIp) by {
        forall j' ensures !IsCandidate(lines, 0, j', isIp) {
          assert Before(0, j', i, j);
        }
      }
      FirstLineWithout(lines, isIp);
      CandidateShift(lines, i - 1, j, isIp);
      NoEarlierShift(lines, i, j, isIp);
      ParseLinesFirst(lines[1..], i - 1, j, isIp);
      assert lines[1..][i - 1] == lines[i];
    }
  }

  /** A successful parse returns some candidate with no candidate before it. */
  lemma {:induction false} ParseLinesSome(lines: seq<string>, isIp: string -> bool)
    requires ParseLines(lines, isIp).Some?
    ensures exists i, j :: IsCandidate(lines, i, j, isIp)
                           && ParseLines(lines, isIp).value == Trim(Split(lines[i], ' ')[j])
                           && forall i', j' :: Before(i', j', i, j) ==> !IsCandidate(lines, i', j', isIp)
  {
    if LineResult(lines[0], isIp).Some? {
      var parts := Split(lines[0], ' ');
      var j :| 0 <= j < |parts| && ParseLines(lines, isIp).value == Trim(parts[j]) && isIp(Trim(parts[j]))
                 && forall j' :: 0 <= j' < j ==> !isIp(Trim(parts[j']));
      assert IsCandidate(lines, 0, j, isIp);
    } else {
      ParseLinesSome(lines[1..], isIp);
      var i, j :| IsCandidate(lines[1..], i, j, isIp)
                  && ParseLines(lines[1..], isIp).value == Trim(Split(lines[1..][i], ' ')[j])
                  && forall i', j' :: Before(i', j', i, j) ==> !IsCandidate(lines[1..], i', j', isIp);
      CandidateShift(lines, i, j, isIp);
      forall i', j' | Before(i', j', i + 1, j) ensures !IsCandidate(lines, i', j', isIp) {
        if 0 < i' {
          CandidateShift(lines, i' - 1, j', isIp);
          assert Before(i' - 1, j', i, j);
        }
      }
      assert lines[1..][i] == lines[i + 1];
      assert IsCandidate(lines, i + 1, j, isIp);
    }
  }

  /** The default route lines of `lines`, in order. */
  function DefaultLines(lines: seq<string>): (r: seq<string>)
    ensures |r| <= |lines|
    ensures forall k :: 0 <= k < |r| ==> StartsWith(r[k], DefaultMarker)
    ensures forall l :: l in r <==> l in lines && StartsWith(l, DefaultMarker)
  {
    if lines == [] then []
    else if StartsWith(lines[0], DefaultMarker) then [lines[0]] + DefaultLines(lines[1..])
    else DefaultLines(lines[1..])
  }

  /** Lines that do not start with the marker never matter, whatever IP
      literals they hold: parsing only the default lines gives the same result. */
  lemma {:induction false} OnlyDefaultLinesMatter(lines: seq<string>, isIp: string -> bool)
    ensures ParseLines(DefaultLines(lines), isIp) == ParseLines(lines, isIp)
  {
    if lines != [] {
      OnlyDefaultLinesMatter(lines[1..], isIp);
      if StartsWith(lines[0], DefaultMarker) {
        assert ([lines[0]] + DefaultLines(lines[1..]))[1..] == DefaultLines(lines[1..]);
      }
    }
  }

  /** Anything the parser returns passes the IP test and is already trimmed. */
  lemma ParseLinesResult(lines: seq<string>, isIp: string -> bool)
    ensures ParseLines(lines, isIp).Some? ==>
              isIp(ParseLines(lines, isIp).value) && IsTrimmed(ParseLines(lines, isIp).value)
  {
    if ParseLines(lines, isIp).Some? {
      ParseLinesSome(lines, isIp);
      var i, j :| IsCandidate(lines, i, j, isIp) && ParseLines(lines, isIp).value == Trim(Split(lines[i], ' ')[j]);
      TrimIdempotent(Split(lines[i], ' ')[j]);
    }
  }

  /** What a single retry attempt sees. */
  datatype Attempt =
    | LogRead(text: string)   // the helper container's stdout, read from the start
    | LogReadFailed           // reading the log threw

  /** The value of one attempt; `None` when it threw. */
  function AttemptResult(a: Attempt, isIp: string -> bool): (r: Option<string>)
    ensures a.LogReadFailed? ==> r == None
    ensures r.Some? ==> isIp(r.value) && IsTrimmed(r.value)
  {
    match a
    case LogRead(text) => ParseDefaultRoute(text, isIp)
    case LogReadFailed => None
  }

  /** `Unreliables.retryUntilSuccess` over the attempts that fit in its time
      budget: the first attempt that returns, or failure when none does. */
  function RetryUntilSuccess(attempts: seq<Attempt>, isIp: string -> bool): (r: Option<string>)
    ensures r.None? <==> forall k :: 0 <= k < |attempts| ==> AttemptResult(attempts[k], isIp).None?
    ensures r.Some? ==> exists k :: 0 <= k < |attempts| && AttemptResult(attempts[k], isIp) == r
                                    && forall k' :: 0 <= k' < k ==> AttemptResult(attempts[k'], isIp).None?
  {
    if attempts == [] then None
    else if AttemptResult(attempts[0], isIp).Some? then AttemptResult(attempts[0], isIp)
    else
      var r := RetryUntilSuccess(attempts[1..], isIp);
      assert forall k :: 0 <= k < |attempts| - 1 ==> attempts[1..][k] == attempts[k + 1];
      r
  }

  /** Attempts that fail before the first success do not matter: the retry
      returns what the remaining attempts give. */
  lemma {:induction false} FailedAttemptsSkipped(failed: seq<Attempt>, rest: seq<Attempt>, isIp: string -> bool)
    requires forall k :: 0 <= k < |failed| ==> AttemptResult(failed[k], isIp).None?
    ensures RetryUntilSuccess(failed + rest, isIp) == RetryUntilSuccess(rest, isIp)
  {
    if failed != [] {
      var all := failed + rest;
      assert all[0] == failed[0] && all[1..] == failed[1..] + rest;
      assert AttemptResult(all[0], isIp).None?;
      assert RetryUntilSuccess(all, isIp) == RetryUntilSuccess(all[1..], isIp);
      FailedAttemptsSkipped(failed[1..], rest, isIp);
    } else {
      assert failed + rest == rest;
    }
  }

  /** A successful retry returns a value that passes the IP test and is trimmed. */
  lemma RetryResult(attempts: seq<Attempt>, isIp: string -> bool)
    ensures RetryUntilSuccess(attempts, isIp).Some? ==>
              isIp(RetryUntilSuccess(attempts, isIp).value) && IsTrimmed(RetryUntilSuccess(attempts, isIp).value)
  {
    if RetryUntilSuccess(attempts, isIp).Some? {
      var k :| 0 <= k < |attempts| && AttemptResult(attempts[k], isIp) == RetryUntilSuccess(attempts, isIp);
    }
  }
}
