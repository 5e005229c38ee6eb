/** The records of the `roll` package shared by its parser, evaluator and
    formatters, and the limits that separate a roll from a troll. */
module RollTypes {

  const MAX_ABS_MODIFIER: int := 100
  const MAX_DIE_SIZE: int := 1000
  const MAX_COMPUTED_ROLLS: int := 100_000_000
  const MAX_SHOWN_ROLLS: int := 10

  /** One clause of a roll request, such as 3d6+2. */
  datatype RollSpec = RollSpec(multiplier: int, die: int, modifier: int)

  /** The submatch strings of one clause, before any integer parsing. */
  datatype RollTokens = RollTokens(multiplier: string, die: string, modifier: string)

  /** A parsed request (`RollRequest`, `PlayerRollRequest`). The time stamp is not modelled. */
  datatype RollRequest = RollRequest(specs: seq<RollSpec>, isTroll: bool, trollMsg: string)

  /** One evaluated clause. */
  datatype RollResult = RollResult(spec: RollSpec, result: int, baseRolls: seq<int>, isCrit: bool, isCritFail: bool)

  /** The evaluated request of `roll.go`: the request it came from and its own
      troll flag and message, which shadow the request's. */
  datatype PlayerRollResponse = PlayerRollResponse(request: RollRequest, total: int, rolls: seq<RollResult>, isTroll: bool, trollMsg: string)

  /** The evaluated request as `format.go` reads it. */
  datatype RollResponse = RollResponse(results: seq<RollResult>, total: int, trollResponse: string)
}
