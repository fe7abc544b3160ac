/**
 * `viking machine add HOST`: registering a remote machine. The command's
 * flags supply the request; runAdd derives the machine's name, checks the
 * SSH key, resolves the host and port, and inserts one record into the
 * configuration store. The Go library calls runAdd makes (SplitHostPort,
 * Atoi, ParseIP) are parameters bundled in a Library.
 */
module MachineAdd {
  import opened Results
  import opened Net
  import opened Config
  import opened Command

  /** Default of the `--user` flag. */
  const DefaultUser := "root"
  /** Default of the `--port` flag. */
  const DefaultPort := 22
  /** The error runAdd reports for a host that is not an IP literal. */
  const InvalidHost := Error("host must be valid ip address")

  /** The library functions runAdd calls: net.SplitHostPort, strconv.Atoi, net.ParseIP (None for nil). */
  datatype Library = Library(
    splitHostPort: string -> Result<(string, string)>,
    atoi: string -> Result<int>,
    parseIP: string -> Option<IP>)

  /** The flags of the add command, None when not given on the command line. */
  datatype Flags = Flags(name: Option<string>, user: Option<string>, key: Option<string>, port: Option<int>)

  /** The arguments runAdd is called with. */
  datatype Request = Request(host: string, port: int, name: string, user: string, key: string)

  /**
   * The command's action: HOST is the first argument ("" when there is none),
   * each flag is its given value or its default. An unset name or key is the
   * empty string, which runAdd reads as "generate one" and "no key".
   */
  function ActionRequest(args: seq<string>, flags: Flags): (r: Request)
    ensures r.host == (if |args| > 0 then args[0] else "")
    ensures flags.user.None? ==> r.user == DefaultUser
    ensures flags.port.None? ==> r.port == DefaultPort
    ensures flags.name.None? ==> r.name == ""
    ensures flags.key.None? ==> r.key == ""
    ensures flags.user.Some? ==> r.user == flags.user.value
    ensures flags.port.Some? ==> r.port == flags.port.value
    ensures flags.name.Some? ==> r.name == flags.name.value
    ensures flags.key.Some? ==> r.key == flags.key.value
  {
    Request(if |args| > 0 then args[0] else "",
            flags.port.GetOr(DefaultPort),
            flags.name.GetOr(""),
            flags.user.GetOr(DefaultUser),
            flags.key.GetOr(""))
  }

  /** The name stored: the caller's, or the generator's when the caller gave none. */
  function EffectiveName(name: string, generated: string): string {
    if name == "" then generated else name
  }

  /** The key check passes: no key was named, or the named key is registered. */
  predicate KeyAccepted(keys: set<string>, key: string) {
    key == "" || key in keys
  }

  /** The host string handed to ParseIP: the host part of a successful split, else HOST as given. */
  function EffectiveHost(lib: Library, host: string): string {
    var split := lib.splitHostPort(host);
    if split.Ok? then split.value.0 else host
  }

  /** The port step passes: HOST did not split, or its port part is an integer. */
  predicate PortParses(lib: Library, host: string) {
    var split := lib.splitHostPort(host);
    split.Err? || lib.atoi(split.value.1).Ok?
  }

  /** A resolved endpoint: the parsed address and the effective port. */
  datatype Endpoint = Endpoint(ip: IP, port: int)

  /**
   * The host and port runAdd resolves from HOST and the port flag, or the
   * error that stops it. When HOST splits as host:port, the embedded port
   * replaces the flag's and its parse error is returned as it is; when it does
   * not split, HOST and the flag's port stand. The host must be an IP literal.
   */
  function ResolveEndpoint(lib: Library, host: string, port: int): (r: Result<Endpoint>)
    ensures r.Ok? <==> PortParses(lib, host) && lib.parseIP(EffectiveHost(lib, host)).Some?
    ensures r.Ok? ==> Some(r.value.ip) == lib.parseIP(EffectiveHost(lib, host))
    ensures r.Ok? && lib.splitHostPort(host).Ok? ==> Ok(r.value.port) == lib.atoi(lib.splitHostPort(host).value.1)
    ensures r.Ok? && lib.splitHostPort(host).Err? ==> r.value.port == port && EffectiveHost(lib, host) == host
    ensures !PortParses(lib, host) ==> r == Err(lib.atoi(lib.splitHostPort(host).value.1).error)
    ensures PortParses(lib, host) && r.Err? ==> r.error == InvalidHost
  {
    var split := lib.splitHostPort(host);
    if split.Ok? && lib.atoi(split.value.1).Err? then
      Err(lib.atoi(split.value.1).error)
    else
      var effectivePort := if split.Ok? then lib.atoi(split.value.1).value else port;
      var ip := lib.parseIP(EffectiveHost(lib, host));
      if ip.None? then Err(InvalidHost) else Ok(Endpoint(ip.value, effectivePort))
  }

  /**
   * Everything runAdd checks before it calls the store, in its order: the key
   * first, then the host and port. On success, the record it builds.
   */
  function Validate(lib: Library, keys: set<string>, missingKey: string -> Error,
                    req: Request, generated: string, now: int): (r: Result<Machine>)
    // An unknown key is reported whatever the host and port are.
    ensures !KeyAccepted(keys, req.key) ==> r == Err(missingKey(req.key))
    ensures KeyAccepted(keys, req.key) ==> (r.Ok? <==> ResolveEndpoint(lib, req.host, req.port).Ok?)
    ensures KeyAccepted(keys, req.key) && r.Err? ==> r.error == ResolveEndpoint(lib, req.host, req.port).error
    // The record: the effective name, exactly one address, the effective port, user and key as given.
    ensures r.Ok? ==> r.value.name == (if req.name == "" then generated else req.name)
    ensures r.Ok? ==> ResolveEndpoint(lib, req.host, req.port).Ok?
                      && r.value.host == [ResolveEndpoint(lib, req.host, req.port).value.ip]
                      && r.value.port == ResolveEndpoint(lib, req.host, req.port).value.port
    ensures r.Ok? ==> r.value.user == req.user && r.value.key == req.key && r.value.createdAt == now
  {
    if !KeyAccepted(keys, req.key) then Err(missingKey(req.key))
    else
      match ResolveEndpoint(lib, req.host, req.port)
      case Err(e) => Err(e)
      case Ok(ep) => Ok(Machine(EffectiveName(req.name, generated), [ep.ip], ep.port, req.user, req.key, now))
  }

  /** What a call of runAdd returns, and the registry after it. */
  datatype Registration = Registration(outcome: Outcome, machines: map<string, Machine>)

  /**
   * A whole registration against a store with keys `keys` and registry
   * `machines`, where `generated` is the name the generator would give.
   */
  function Register(lib: Library, keys: set<string>, missingKey: string -> Error,
                    admit: (map<string, Machine>, Machine) -> Outcome,
                    machines: map<string, Machine>, req: Request, generated: string, now: int): (r: Registration)
    // Atomicity: a registration that fails leaves the registry as it was.
    ensures r.outcome.Fail? ==> r.machines == machines
    // A validation error is returned and the store is never asked.
    ensures Validate(lib, keys, missingKey, req, generated, now).Err? ==>
              r.outcome == Fail(Validate(lib, keys, missingKey, req, generated, now).error)
    // Once validated, the store's verdict is returned unchanged.
    ensures Validate(lib, keys, missingKey, req, generated, now).Ok? ==>
              r.outcome == admit(machines, Validate(lib, keys, missingKey, req, generated, now).value)
    // Success files exactly the validated record under its name; every other entry is untouched.
    ensures r.outcome.Pass? ==>
              var m := Validate(lib, keys, missingKey, req, generated, now);
              m.Ok? && r.machines == machines[m.value.name := m.value]
  {
    match Validate(lib, keys, missingKey, req, generated, now)
    case Err(e) => Registration(Fail(e), machines)
    case Ok(m) =>
      var verdict := admit(machines, m);
      if verdict.Pass? then Registration(Pass, machines[m.name := m]) else Registration(verdict, machines)
  }

  /**
   * runAdd. It defaults the name from the generator, checks the key, resolves
   * the host and port, and hands one record to the store; it returns the first
   * error met. The confirmation line it prints is not modelled.
   */
  method RunAdd(cli: Cli, names: NameGenerator, lib: Library,
                host: string, port: int, name: string, user: string, key: string, now: int)
    returns (err: Outcome)
    modifies cli.config`machines, names`draws
    // The generator is consulted exactly when no name is given, whatever happens next.
    ensures names.draws == old(names.draws) + (if name == "" then 1 else 0)
    ensures var want := Register(lib, cli.config.keys, cli.config.missingKey, cli.config.admit,
                                 old(cli.config.machines), Request(host, port, name, user, key),
                                 old(names.Peek()), now);
      err == want.outcome && cli.config.machines == want.machines
    ensures err.Fail? ==> cli.config.machines == old(cli.config.machines)
  {
    var machineName := name;
    if machineName == "" {
      machineName := names.Generate();
    }

    if key != "" {
      err := cli.config.GetKeyByName(key);
      if err.Fail? {
        return;
      }
    }

    var effectiveHost, effectivePort := host, port;
    var split := lib.splitHostPort(host);
    if split.Ok? {
      effectiveHost := split.value.0;
      var parsed := lib.atoi(split.value.1);
      if parsed.Err? {
        return Fail(parsed.error);
      }
      effectivePort := parsed.value;
    }

    var hostIp := lib.parseIP(effectiveHost);
    if hostIp.None? {
      return Fail(InvalidHost);
    }

    err := cli.config.AddMachine(Machine(machineName, [hostIp.value], effectivePort, user, key, now));
    if err.Fail? {
      return;
    }
    return Pass;
  }

  /** The store refuses a record whose name is already registered. */
  ghost predicate RejectsDuplicates(admit: (map<string, Machine>, Machine) -> Outcome) {
    forall m: map<string, Machine>, rec: Machine :: rec.name in m ==> admit(m, rec).Fail?
  }

  /**
   * Registering the same explicit name twice: against a store that refuses
   * duplicate names the second call fails with the store's error and does not
   * overwrite the first record.
   */
  lemma SameNameTwice(lib: Library, keys: set<string>, missingKey: string -> Error,
                      admit: (map<string, Machine>, Machine) -> Outcome,
                      machines: map<string, Machine>, req: Request, g1: string, g2: string, t1: int, t2: int)
    requires RejectsDuplicates(admit)
    requires req.name != ""
    requires Register(lib, keys, missingKey, admit, machines, req, g1, t1).outcome.Pass?
    ensures var first := Register(lib, keys, missingKey, admit, machines, req, g1, t1);
      var second := Register(lib, keys, missingKey, admit, first.machines, req, g2, t2);
      second.outcome.Fail? && second.machines == first.machines
      && Validate(lib, keys, missingKey, req, g2, t2).Ok?
      && second.outcome == admit(first.machines, Validate(lib, keys, missingKey, req, g2, t2).value)
      && first.machines[req.name] == Validate(lib, keys, missingKey, req, g1, t1).value
  {
    var first := Register(lib, keys, missingKey, admit, machines, req, g1, t1);
    var v1 := Validate(lib, keys, missingKey, req, g1, t1);
    var v2 := Validate(lib, keys, missingKey, req, g2, t2);
    assert v2.Ok? && v2.value.name == req.name;
    assert admit(first.machines, v2.value).Fail?;
  }
}
