/**
 * Registrations worked through with the concrete library of module Net,
 * among them the examples a user of `viking machine add` meets first.
 */
module AddScenarios {
  import opened Results
  import opened Net
  import opened Config
  import opened MachineAdd

  /** runAdd's library calls, as modelled in module Net. */
  const Std := Library(SplitHostPort, Atoi, ParseIP)

  /** Every dotted-decimal IPv4 literal is accepted as a bare HOST, with the flag's port. */
  lemma IPv4LiteralAccepted(a: byte, b: byte, c: byte, d: byte, port: int)
    ensures ResolveEndpoint(Std, FormatIPv4(a, b, c, d), port) == Ok(Endpoint(IPv4(a, b, c, d), port))
  {
    FormatIPv4HasNoSeparator(a, b, c, d);
    assert SplitHostPort(FormatIPv4(a, b, c, d)).Err?;
    ParseFormatIPv4(a, b, c, d);
  }

  /**
   * `a.b.c.d:port` resolves to the address and the embedded port, overriding
   * the flag's, for every 64-bit port: negative ones are stored too.
   */
  lemma IPv4WithPortAccepted(a: byte, b: byte, c: byte, d: byte, p: int, flagPort: int)
    requires MinInt <= p <= MaxInt
    ensures ResolveEndpoint(Std, FormatIPv4(a, b, c, d) + ":" + Itoa(p), flagPort)
            == Ok(Endpoint(IPv4(a, b, c, d), p))
  {
    var h := FormatIPv4(a, b, c, d);
    FormatIPv4HasNoSeparator(a, b, c, d);
    if p < 0 {
      DigitsHaveNoSeparator(Decimal(-p));
      assert forall x :: x in Itoa(p) ==> x == '-' || x in Decimal(-p);
    } else {
      DigitsHaveNoSeparator(Itoa(p));
    }
    SplitJoinHostPort(h, Itoa(p));
    AtoiItoa(p);
    ParseFormatIPv4(a, b, c, d);
  }

  /** "10.0.0.5:2222" with the default port stores port 2222. */
  lemma EmbeddedPortOverrides()
    ensures ResolveEndpoint(Std, "10.0.0.5:2222", DefaultPort) == Ok(Endpoint(IPv4(10, 0, 0, 5), 2222))
  {
    assert FormatIPv4(10, 0, 0, 5) + ":" + Itoa(2222) == "10.0.0.5:2222";
    IPv4WithPortAccepted(10, 0, 0, 5, 2222, DefaultPort);
  }

  /** "10.0.0.5" with the default port stores port 22. */
  lemma BareHostKeepsPort()
    ensures ResolveEndpoint(Std, "10.0.0.5", DefaultPort) == Ok(Endpoint(IPv4(10, 0, 0, 5), 22))
  {
    assert FormatIPv4(10, 0, 0, 5) == "10.0.0.5";
    IPv4LiteralAccepted(10, 0, 0, 5, DefaultPort);
  }

  /** The port part is not checked against the TCP range: "10.0.0.5:70000" stores port 70000. */
  lemma PortRangeUnchecked()
    ensures ResolveEndpoint(Std, "10.0.0.5:70000", DefaultPort) == Ok(Endpoint(IPv4(10, 0, 0, 5), 70000))
  {
    assert FormatIPv4(10, 0, 0, 5) + ":" + Itoa(70000) == "10.0.0.5:70000";
    IPv4WithPortAccepted(10, 0, 0, 5, 70000, DefaultPort);
  }

  /** A negative embedded port is stored as well: "10.0.0.5:-1" gives port -1. */
  lemma NegativePortStored()
    ensures ResolveEndpoint(Std, "10.0.0.5:-1", DefaultPort) == Ok(Endpoint(IPv4(10, 0, 0, 5), -1))
  {
    assert FormatIPv4(10, 0, 0, 5) + ":" + Itoa(-1) == "10.0.0.5:-1";
    IPv4WithPortAccepted(10, 0, 0, 5, -1, DefaultPort);
  }

  /** "10.0.0.5:" splits, and Atoi's error on the empty port part is what runAdd returns. */
  lemma EmptyPortRejected()
    ensures ResolveEndpoint(Std, "10.0.0.5:", DefaultPort) == Err(NumError("Atoi", "", "invalid syntax"))
  {
    FormatIPv4HasNoSeparator(10, 0, 0, 5);
    assert FormatIPv4(10, 0, 0, 5) == "10.0.0.5";
    SplitJoinHostPort("10.0.0.5", "");
    assert JoinHostPort("10.0.0.5", "") == "10.0.0.5:";
  }

  /**
   * The default invocation `viking machine add 192.168.1.10` with no flags:
   * the stored record carries the generated name, the one address, port 22,
   * user "root" and no key.
   */
  lemma DefaultInvocation(keys: set<string>, missingKey: string -> Error,
                          admit: (map<string, Machine>, Machine) -> Outcome,
                          machines: map<string, Machine>, generated: string, now: int)
    requires admit(machines, Machine(generated, [IPv4(192, 168, 1, 10)], 22, "root", "", now)).Pass?
    ensures var req := ActionRequest(["192.168.1.10"], Flags(None, None, None, None));
      var rec := Machine(generated, [IPv4(192, 168, 1, 10)], 22, "root", "", now);
      Register(Std, keys, missingKey, admit, machines, req, generated, now)
        == Registration(Pass, machines[generated := rec])
  {
    assert FormatIPv4(192, 168, 1, 10) == "192.168.1.10";
    IPv4LiteralAccepted(192, 168, 1, 10, DefaultPort);
  }

  /** A host name (no colon, no dot) is never accepted: the result is the invalid-host error. */
  lemma NameRejected(host: string, port: int)
    requires ':' !in host && '.' !in host
    ensures ResolveEndpoint(Std, host, port) == Err(InvalidHost)
  {
    LastIndexOfAbsent(host, ':');
    ParseIPNeedsDot(host);
  }

  /** "bad-host" is not an IP literal: the registration fails and nothing is stored. */
  lemma BadHostRejected(keys: set<string>, missingKey: string -> Error,
                        admit: (map<string, Machine>, Machine) -> Outcome,
                        machines: map<string, Machine>, generated: string, now: int)
    ensures Register(Std, keys, missingKey, admit, machines, Request("bad-host", 22, "db1", "admin", ""), generated, now)
            == Registration(Fail(InvalidHost), machines)
  {
    NameRejected("bad-host", 22);
  }

  /** An unknown key is reported even when the host is also invalid. */
  lemma UnknownKeyWins(keys: set<string>, missingKey: string -> Error,
                       admit: (map<string, Machine>, Machine) -> Outcome,
                       machines: map<string, Machine>, generated: string, now: int)
    requires "deploy" !in keys
    ensures Register(Std, keys, missingKey, admit, machines, Request("bad-host", 22, "db1", "admin", "deploy"), generated, now)
            == Registration(Fail(missingKey("deploy")), machines)
  {
  }
}
