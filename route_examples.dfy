/** A worked example of the route parser on concrete `ip route` output. */
module RouteExamples {
  import opened Wrappers
  import opened JavaText
  import opened RouteParser

  /** A typical routing table: the first line holds an address but is not a
      default route; on the default line the gateway is the first IP part. */
  lemma ExampleRouteTable(isIp: string -> bool)
    requires isIp("172.17.0.1") && !isIp("default") && !isIp("via")
    ensures ParseDefaultRoute("172.17.0.0/16 dev eth0\ndefault via 172.17.0.1 dev eth0", isIp) == Some("172.17.0.1")
  {
    ExampleSkipsFirstLine(isIp);
    ExampleDefaultLine(isIp);
    assert ParseLines(["default via 172.17.0.1 dev eth0"], isIp) == Some("172.17.0.1");
  }

  /** The first line is not a default route line, so the scan moves on. */
  lemma ExampleSkipsFirstLine(isIp: string -> bool)
    ensures ParseDefaultRoute("172.17.0.0/16 dev eth0\ndefault via 172.17.0.1 dev eth0", isIp)
            == ParseLines(["default via 172.17.0.1 dev eth0"], isIp)
  {
    var l1, l2 := "172.17.0.0/16 dev eth0", "default via 172.17.0.1 dev eth0";
    ExampleTrim();
    ExampleLines();
    assert !StartsWith(l1, DefaultMarker) by {
      assert l1[..7][0] == l1[0] == '1';
      assert DefaultMarker[0] == 'd';
    }
    assert [l1, l2][1..] == [l2];
  }

  /** On the default line, "default" and "via" fail the IP test; the gateway passes. */
  lemma ExampleDefaultLine(isIp: string -> bool)
    requires isIp("172.17.0.1") && !isIp("default") && !isIp("via")
    ensures LineResult("default via 172.17.0.1 dev eth0", isIp) == Some("172.17.0.1")
  {
    ExampleIsDefaultLine();
    ExampleParts();
    ExampleGateway(isIp);
  }

  /** The line starts with the marker. */
  lemma ExampleIsDefaultLine()
    ensures StartsWith("default via 172.17.0.1 dev eth0", DefaultMarker)
  {
    assert "default via 172.17.0.1 dev eth0" == DefaultMarker + " via 172.17.0.1 dev eth0";
  }

  /** Its third part is the first to pass the IP test. */
  lemma ExampleGateway(isIp: string -> bool)
    requires isIp("172.17.0.1") && !isIp("default") && !isIp("via")
    ensures FirstIpPart(["default", "via", "172.17.0.1", "dev", "eth0"], isIp) == Some("172.17.0.1")
  {
    var parts := ["default", "via", "172.17.0.1", "dev", "eth0"];
    TrimTrimmed("default");
    TrimTrimmed("via");
    TrimTrimmed("172.17.0.1");
    var tail1, tail2 := ["via", "172.17.0.1", "dev", "eth0"], ["172.17.0.1", "dev", "eth0"];
    assert parts[1..] == tail1 && tail1[1..] == tail2;
    assert FirstIpPart(tail2, isIp) == Some("172.17.0.1");
    assert FirstIpPart(tail1, isIp) == FirstIpPart(tail2, isIp);
  }

  /** The example output has nothing to trim. */
  lemma ExampleTrim()
    ensures Trim("172.17.0.0/16 dev eth0\ndefault via 172.17.0.1 dev eth0")
            == "172.17.0.0/16 dev eth0\ndefault via 172.17.0.1 dev eth0"
  {
    var output := "172.17.0.0/16 dev eth0\ndefault via 172.17.0.1 dev eth0";
    var l1, l2 := "172.17.0.0/16 dev eth0", "default via 172.17.0.1 dev eth0";
    assert output == l1 + "\n" + l2;
    assert l1[0] == '1' && l2[30] == '0';
    assert IsTrimmed(output);
    TrimTrimmed(output);
  }

  /** It has two lines. */
  lemma ExampleLines()
    ensures Split("172.17.0.0/16 dev eth0\ndefault via 172.17.0.1 dev eth0", '\n')
            == ["172.17.0.0/16 dev eth0", "default via 172.17.0.1 dev eth0"]
  {
    var lines := ["172.17.0.0/16 dev eth0", "default via 172.17.0.1 dev eth0"];
    assert lines[1..] == ["default via 172.17.0.1 dev eth0"];
    assert "172.17.0.0/16 dev eth0\ndefault via 172.17.0.1 dev eth0"
           == "172.17.0.0/16 dev eth0" + ['\n'] + "default via 172.17.0.1 dev eth0";
    assert Join(lines, '\n') == "172.17.0.0/16 dev eth0\ndefault via 172.17.0.1 dev eth0";
    SplitJoin(lines, '\n');
  }

  /** The default line has five space-separated parts. */
  lemma ExampleParts()
    ensures Split("default via 172.17.0.1 dev eth0", ' ') == ["default", "via", "172.17.0.1", "dev", "eth0"]
  {
    var parts := ["default", "via", "172.17.0.1", "dev", "eth0"];
    assert parts[1..] == ["via", "172.17.0.1", "dev", "eth0"];
    assert parts[2..] == ["172.17.0.1", "dev", "eth0"];
    assert parts[3..] == ["dev", "eth0"];
    assert Join(["eth0"], ' ') == "eth0";
    assert Join(["dev", "eth0"], ' ') == "dev eth0";
    assert Join(["172.17.0.1", "dev", "eth0"], ' ') == "172.17.0.1 dev eth0";
    assert Join(["via", "172.17.0.1", "dev", "eth0"], ' ') == "via 172.17.0.1 dev eth0";
    assert Join(parts, ' ') == "default via 172.17.0.1 dev eth0";
    SplitJoin(parts, ' ');
  }
}
