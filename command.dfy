/** The parts of the command package that runAdd uses. */
module Command {
  import Config

  /** command.Cli, reduced to its configuration store; its output stream is not modelled. */
  class Cli {
    const config: Config.Store

    constructor (config: Config.Store)
      ensures this.config == config
    {
      this.config := config;
    }
  }

  /**
   * command.GenerateRandomName. Its randomness is a fixed stream of names that
   * successive calls walk through; `draws` counts the calls made so far, so a
   * caller's contract can say whether the generator was consulted.
   */
  class NameGenerator {
    const stream: nat -> string
    var draws: nat

    constructor (stream: nat -> string)
      ensures this.stream == stream && draws == 0
    {
      this.stream := stream;
      draws := 0;
    }

    /** The name the next call to Generate returns. */
    function Peek(): string
      reads this
    {
      stream(draws)
    }

    method Generate() returns (name: string)
      modifies this`draws
      ensures name == old(Peek())
      ensures draws == old(draws) + 1
    {
      name := stream(draws);
      draws := draws + 1;
    }
  }
}
