# Machine registration in viking, modelled in Dafny

viking is a command-line tool that keeps a local registry of remote machines
it reaches over SSH. `viking machine add HOST` registers one machine. The
routine behind it, `runAdd`, works in five steps:

1. It defaults the machine name from a random-name generator.
2. It checks that the named SSH key exists.
3. It tries to read HOST as `host:port`.
4. It requires the host to be an IP literal.
5. It asks the configuration store to add one `Machine` record.

It returns the first error it meets. This project models that routine and
proves what it promises:

- which error wins, and the order of the checks;
- how the effective name, host and port are derived;
- what the stored record holds;
- that a registration failing a validation check (key, port, host) leaves the registry as it was; for a refusal by the store this rests on an assumption about the store (see "## Left out").

Modules (one per Go package, except that `Results` stands for Go's error convention rather than a package, and `Net` stands for both `net` and `strconv`):

- `Results` (results.dfy): Go's `error` and `(T, error)` returns as datatypes (`Outcome`, `Result`, `Option`).
- `Config` (config.dfy): the `Machine` record, and the store as a class. The store has the registered key names (`keys`), the registry map (`machines`), the error it gives for an unknown key (`missingKey`), and its verdict on an insertion (`admit`).
- `Command` (command.dfy): `Cli`, which holds the store. `NameGenerator` stands for `GenerateRandomName`: a stream of names plus a counter of how many times it was consulted.
- `MachineAdd` (add.dfy): the add command.
  - `ActionRequest` models the flags and their defaults.
  - `ResolveEndpoint`, `Validate` and `Register` are pure functions that specify a whole registration.
  - `RunAdd` is the imperative routine. It reassigns the name, host and port step by step, calls the store, and is proved equal to `Register`.
- `Net` (net.dfy): one concrete, simplified instance of the three Go library calls from `net` and `strconv` (`SplitHostPort`, `Atoi`, `ParseIP`), with round-trip lemmas. `RunAdd` does not depend on it: it takes the library calls as a `Library` parameter, so its contracts hold for any behaviour of them.
- `AddScenarios` (scenarios.dfy): registrations worked through with the `Net` instance.

Notes on add.go's behaviour:

- An empty `--user` stays empty. The default `"root"` applies only when the flag is not given.
- The key-lookup error and the Atoi error are returned as they are. There are no dedicated error kinds for an unknown key or a bad port.
- The port is never checked against the TCP range. The flag's integer, or whatever Atoi returns, is stored, negative values included (`PortRangeUnchecked`, `NegativePortStored`).
- `runAdd` returns only an error, not the machine.

## Model

| member | source | states |
|---|---|---|
| `MachineAdd.RunAdd` | cli/command/machine/add.go:57-96 | The generator is consulted exactly when no name is given, whatever happens next. The returned error and the new registry are those of `Register` on the old registry. On any error the registry is unchanged (for a store refusal, by the assumption on `Config.AddMachine` under "## Left out"). |
| `MachineAdd.Register` | cli/command/machine/add.go:62-95 | A failed registration leaves the registry as it was. A validation error is returned and the store is never asked. Once validation passes, the store's verdict is returned unchanged. Success files exactly the validated record under its name and leaves every other entry alone. |
| `MachineAdd.Validate` | cli/command/machine/add.go:58-88 | An unknown key gives the store's lookup error whatever the host. With an acceptable key, validation succeeds exactly when the endpoint resolves, and fails with the endpoint's error otherwise. The record has the caller's name or, when that is empty, the generated one; a host list of exactly one parsed address; the effective port; user and key as passed; and the given time. |
| `MachineAdd.ResolveEndpoint` | cli/command/machine/add.go:69-80 | Succeeds exactly when the port step passes and the effective host parses as an IP. A successful split makes the port Atoi's value of the port part, overriding the flag. A failed split keeps HOST and the flag's port as given. A port-part parse error is returned unchanged. Any other failure is "host must be valid ip address". |
| `MachineAdd.ActionRequest` | cli/command/machine/add.go:22-52 | HOST is the first argument. Each flag takes its given value, or its default when unset: user `"root"`, port 22, empty name and key. |
| `MachineAdd.SameNameTwice` | cli/command/machine/add.go:82-91 | Suppose the store refuses duplicate names. Then a second registration under the same explicit name passes validation and fails with exactly the store's verdict, does not overwrite the first record, and leaves the registry as it was. |
| `Config.Store.GetKeyByName` | cli/command/machine/add.go:63-66 | The lookup succeeds exactly when the key name is registered. Otherwise it fails with the store's not-found error for that name. |
| `Config.Store.AddMachine` | cli/command/machine/add.go:82-91 | Returns the store's verdict on the old registry and the record. If the store accepts, the record is filed under its name. If it refuses, the registry is unchanged. |
| `Command.NameGenerator.Generate` | cli/command/machine/add.go:58-60 | Returns the next name of the stream and counts one more consultation. |
| `Net.SplitHostPort` | cli/command/machine/add.go:69 | A successful split rebuilds HOST exactly, as `host:port` or `[host]:port`. The port part holds no colon and the host part no bracket. |
| `Net.SplitJoinHostPort` | cli/command/machine/add.go:69 | Splitting what JoinHostPort builds from a bracket-free host and a port without colon or bracket gives back that host and port. |
| `Net.Atoi` | cli/command/machine/add.go:71 | A successful parse lies in Go's 64-bit int range. |
| `Net.AtoiItoa` | cli/command/machine/add.go:71 | Atoi reads back every 64-bit integer that Itoa writes. |
| `Net.ParseIP` | cli/command/machine/add.go:77 | A parsed address is the 16-byte form with the IPv4-in-IPv6 prefix. |
| `Net.ParseFormatIPv4` | cli/command/machine/add.go:77 | Every dotted-decimal address a.b.c.d parses to its own 16-byte form. |
| `Net.FormatParseIPv4` | cli/command/machine/add.go:77 | Conversely, ParseIP accepts only strings that are the canonical dotted-decimal form of the address it returns. |
| `Net.ParseIPNeedsDot` | cli/command/machine/add.go:77-80 | `Net.ParseIP`, the IPv4-only instance, gives None for a string without a dot. |
| `AddScenarios.IPv4LiteralAccepted` | cli/command/machine/add.go:69-80 | Every dotted-decimal literal given as a bare HOST resolves to that address with the flag's port. |
| `AddScenarios.IPv4WithPortAccepted` | cli/command/machine/add.go:69-80 | `a.b.c.d:p` resolves to the address and port p, overriding the flag's port, for every 64-bit p, negative ones included. |
| `AddScenarios.NegativePortStored` | cli/command/machine/add.go:69-75 | `10.0.0.5:-1` is accepted with port -1: no range check. |
| `AddScenarios.NameRejected` | cli/command/machine/add.go:77-80 | A host name (no colon, no dot) is rejected with "host must be valid ip address". |
| `AddScenarios.EmbeddedPortOverrides` | cli/command/machine/add.go:69-75 | `10.0.0.5:2222` with the default port gives port 2222. |
| `AddScenarios.BareHostKeepsPort` | cli/command/machine/add.go:69 | `10.0.0.5` with the default port gives port 22. |
| `AddScenarios.PortRangeUnchecked` | cli/command/machine/add.go:69-75 | `10.0.0.5:70000` is accepted with port 70000: no TCP range check. |
| `AddScenarios.EmptyPortRejected` | cli/command/machine/add.go:71-74 | `10.0.0.5:` splits, and Atoi's syntax error for the empty port is returned. |
| `AddScenarios.DefaultInvocation` | cli/command/machine/add.go:45-95 | Take `machine add 192.168.1.10` with no flags, against a store that accepts. It stores the generated name, the single address, port 22, user "root" and no key. |
| `AddScenarios.BadHostRejected` | cli/command/machine/add.go:77-80 | Host `bad-host` fails with the invalid-host error and the registry is unchanged. |
| `AddScenarios.UnknownKeyWins` | cli/command/machine/add.go:62-67 | An unregistered key is reported even when the host is also invalid, and nothing is stored. |

## Left out

- The urfave/cli command construction (add.go:15-55): name, usage text and aliases are framework glue. Only the flag defaults and the action's reading of them are modelled (`ActionRequest`).
- The confirmation line written to the CLI's output (add.go:93): output I/O.
- `time.Now()` (add.go:88): a clock read. The creation time is a parameter (`now`), in nanoseconds.
- `command.GenerateRandomName`: its implementation is not part of this model. Its randomness becomes a fixed stream of names (`NameGenerator.stream`).
- `Config.GetKeyByName`: only its success and its error are modelled. The key it returns is not, since runAdd discards it.
- `Config.AddMachine`: when it refuses a record (duplicate names, write faults) and how it persists are not part of this model. Its verdict is an arbitrary function `admit` of the registry and the record.
- `Config.AddMachine`: a refusal is assumed to leave the registry unchanged (its `ensures err.Fail? ==> machines == old(machines)`). config.AddMachine is not part of this model, so for a store refusal (add.go:89-91) "nothing is stored" is an assumption about the store, not something proved of runAdd; it is proved only for the key, port and host failures, which never reach the store.
- `Net.ParseIP`: accepts dotted-decimal IPv4 only. Go's net.ParseIP also accepts IPv6 literals, which this instance rejects. `RunAdd` itself, being generic over the library, is unaffected.
- `Net.Atoi`: when a string both overflows and has a later non-digit, the model reports a syntax error. Go may report the range error instead. The quoted input in the message is not escaped as strconv.Quote would escape it.
- Concurrent registrations: add.go has none.
