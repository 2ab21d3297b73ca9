/**
 Block headers, header ids, and the network rules a header is checked against.

 A header id is an ideal hash. `IdOf(h)` is the id of `h`, so equal ids mean equal headers
 and no header is its own ancestor; `Raw` stands for the ids that no known header hashes to
 (the all-zeros genesis parent, or a parent nobody has ever shown us).
 */
module Headers {

  datatype Option<+T> = None | Some(value: T)

  datatype Id = Raw(tag: nat) | IdOf(header: Header)

  /** `body` is everything else the hash covers: version, roots, votes and solution. */
  datatype Header = Header(parentId: Id, height: nat, timestamp: nat, nBits: nat, body: nat)

  const GENESIS_PARENT: Id := Raw(0)

  /**
   Network settings. `decode` and `encode` convert between compact nBits and difficulty and
   `powOk` verifies the Autolykos solution; all three are arbitrary functions here.
   */
  datatype Rules = Rules(
    epochLength: nat,
    blockIntervalMs: nat,
    useLastEpochs: nat,
    initialNBits: nat,
    v2NBits: Option<nat>,
    v2Height: nat,
    genesisId: Option<Id>,
    maxTimeDriftMs: nat,
    eip37Height: Option<nat>,
    eip37EpochLength: Option<nat>,
    decode: nat -> int,
    encode: int -> nat,
    powOk: Header -> bool)
  {
    function EpochLengthAt(height: nat): nat {
      if eip37Height.Some? && eip37EpochLength.Some? && height >= eip37Height.value
      then eip37EpochLength.value
      else epochLength
    }

    predicate Eip37Active(height: nat) {
      eip37Height.Some? && height >= eip37Height.value
    }

    /** What a header adds to the cumulative score; a negative difficulty counts as zero. */
    function Difficulty(h: Header): nat {
      if decode(h.nBits) < 0 then 0 else decode(h.nBits)
    }
  }

  /**
   What one call sees of the outside world: the clock reading taken for the i-th header it
   validates, and the vote rules under the parameters active at the time.
   */
  datatype Env = Env(clock: nat -> nat, votesOk: Header -> bool)

  function Last<T>(s: seq<T>): T
    requires s != []
  {
    s[|s| - 1]
  }
}
