/**
 * The configuration store that runAdd talks to, reduced to what runAdd uses:
 * the set of registered SSH key names and the machine registry. How the
 * store persists itself and when it refuses a machine are not part of this
 * model; the store's verdict on an insertion is the function `admit`.
 */
module Config {
  import opened Results
  import opened Net

  /** config.Machine: one registered remote host. `createdAt` is a time stamp in nanoseconds. */
  datatype Machine = Machine(name: string, host: seq<IP>, port: int, user: string, key: string, createdAt: int)

  class Store {
    /** The names of the registered SSH keys. */
    var keys: set<string>
    /** The machine registry, by name. */
    var machines: map<string, Machine>
    /** The error GetKeyByName returns for a name that is not registered. */
    const missingKey: string -> Error
    /** The store's verdict on adding a record to a registry (a duplicate name, a write fault, ...). */
    const admit: (map<string, Machine>, Machine) -> Outcome

    constructor (keys: set<string>, machines: map<string, Machine>,
                 missingKey: string -> Error, admit: (map<string, Machine>, Machine) -> Outcome)
      ensures this.keys == keys && this.machines == machines
      ensures this.missingKey == missingKey && this.admit == admit
    {
      this.keys := keys;
      this.machines := machines;
      this.missingKey := missingKey;
      this.admit := admit;
    }

    /**
     * Config.GetKeyByName, reduced to its error: succeeds exactly when the key
     * is registered. The key found is not modelled, since runAdd discards it.
     */
    method GetKeyByName(name: string) returns (err: Outcome)
      ensures err.Pass? <==> name in keys
      ensures err.Fail? ==> err.error == missingKey(name)
    {
      if name in keys {
        err := Pass;
      } else {
        err := Fail(missingKey(name));
      }
    }

    /**
     * Config.AddMachine: asks the store whether it takes the record; if so the
     * record is filed under its name and nothing else changes, otherwise the
     * registry is left as it was and the store's error is returned.
     */
    method AddMachine(m: Machine) returns (err: Outcome)
      modifies this`machines
      ensures err == admit(old(machines), m)
      ensures err.Pass? ==> machines == old(machines)[m.name := m]
      ensures err.Fail? ==> machines == old(machines)
    {
      err := admit(machines, m);
      if err.Pass? {
        machines := machines[m.name := m];
      }
    }
  }
}
