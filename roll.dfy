/** The dice evaluator of `roll/roll.go`. The random source Go's `rand.Intn`
    reads is a parameter here: `draws` is the sequence of values `rand.Intn`
    returns, in the order they are drawn, each in [0, die) for the die it was
    drawn for. */
module Roll {
  import opened RollTypes

  /** How many dice a clause rolls: the loop `for i := 0; i < Multiplier; i++`
      runs not at all for a negative multiplier. */
  function Count(spec: RollSpec): (n: nat)
    ensures spec.multiplier >= 0 ==> n == spec.multiplier
    ensures spec.multiplier < 0 ==> n == 0
  {
    if spec.multiplier < 0 then 0 else spec.multiplier
  }

  function Sum(xs: seq<int>): int
  {
    if xs == [] then 0 else Sum(xs[..|xs| - 1]) + xs[|xs| - 1]
  }

  /** Every draw is a value `rand.Intn(die)` can return. */
  predicate DrawsFit(die: int, draws: seq<int>)
  {
    forall i :: 0 <= i < |draws| ==> 0 <= draws[i] < die
  }

  /** The result of a clause for the first draws of `draws`: one base roll per
      die, each one more than its draw, and the sum plus the modifier. A crit
      is a single die showing its highest face, a crit-fail a single die
      showing 1. */
  function RollOf(spec: RollSpec, draws: seq<int>): RollResult
    requires Count(spec) <= |draws|
  {
    var br := seq(Count(spec), i requires 0 <= i < Count(spec) => draws[i] + 1);
    RollResult(spec, Sum(br) + spec.modifier, br,
               |br| == 1 && br[0] == spec.die, |br| == 1 && br[0] == 1)
  }

  /** `RollSpec.Roll`: draws the dice one at a time and keeps the running sum. */
  method RollDice(spec: RollSpec, draws: seq<int>) returns (rr: RollResult)
    requires spec.multiplier > 0 ==> spec.die > 0
    requires Count(spec) <= |draws|
    ensures rr == RollOf(spec, draws)
  {
    var sum := 0;
    var br: seq<int> := [];
    var i := 0;
    while i < spec.multiplier
      invariant 0 <= i <= Count(spec)
      invariant |br| == i && forall k :: 0 <= k < i ==> br[k] == draws[k] + 1
      invariant sum == Sum(br)
    {
      var r := draws[i] + 1;
      assert (br + [r])[..|br|] == br;
      br := br + [r];
      sum := sum + r;
      i := i + 1;
    }
    assert i == Count(spec);
    RolledAll(spec, draws, br);
    rr := RollResult(spec, sum + spec.modifier, br,
                     |br| == 1 && br[0] == spec.die, |br| == 1 && br[0] == 1);
  }

  /** Rolls that are the draws plus one, one per die, are the result's base rolls. */
  lemma RolledAll(spec: RollSpec, draws: seq<int>, br: seq<int>)
    requires Count(spec) <= |draws|
    requires |br| == Count(spec) && forall k :: 0 <= k < |br| ==> br[k] == draws[k] + 1
    ensures RollOf(spec, draws).baseRolls == br
  {
  }

  /** The sum of n values that each lie in [lo, hi] lies in [n*lo, n*hi]. */
  lemma {:induction false} SumBounds(xs: seq<int>, lo: int, hi: int)
    requires forall i :: 0 <= i < |xs| ==> lo <= xs[i] <= hi
    ensures |xs| * lo <= Sum(xs) <= |xs| * hi
  {
    if xs != [] {
      var init := xs[..|xs| - 1];
      assert forall i :: 0 <= i < |init| ==> init[i] == xs[i];
      SumBounds(init, lo, hi);
    }
  }

  /** A clause rolls exactly `Count(spec)` dice, in draw order, each showing a
      face of its die, and its result lies between all ones and all highest
      faces, plus the modifier. */
  lemma RollBounds(spec: RollSpec, draws: seq<int>)
    requires Count(spec) <= |draws| && DrawsFit(spec.die, draws[..Count(spec)])
    ensures var rr := RollOf(spec, draws);
            && rr.spec == spec
            && |rr.baseRolls| == Count(spec)
            && (forall i :: 0 <= i < Count(spec) ==> rr.baseRolls[i] == draws[i] + 1 && 1 <= rr.baseRolls[i] <= spec.die)
            && Count(spec) <= rr.result - spec.modifier <= Count(spec) * spec.die
  {
    var rr := RollOf(spec, draws);
    SumBounds(rr.baseRolls, 1, spec.die);
  }

  /** A clause of no dice rolls nothing: its result is its modifier and it is
      neither a crit nor a crit-fail. */
  lemma NoDiceRoll(spec: RollSpec, draws: seq<int>)
    requires spec.multiplier <= 0
    ensures RollOf(spec, draws) == RollResult(spec, spec.modifier, [], false, false)
  {
  }

  /** A crit is exactly one die showing its highest face and a crit-fail exactly
      one die showing 1; the two meet only on a one-sided die. */
  lemma CritFlags(spec: RollSpec, draws: seq<int>)
    requires Count(spec) <= |draws|
    ensures var rr := RollOf(spec, draws);
            && (rr.isCrit <==> spec.multiplier == 1 && draws[0] + 1 == spec.die)
            && (rr.isCritFail <==> spec.multiplier == 1 && draws[0] == 0)
            && (rr.isCrit && rr.isCritFail ==> spec.die == 1)
  {
  }

  /** How many draws the clauses consume, in total. */
  function Needed(specs: seq<RollSpec>): nat
  {
    if specs == [] then 0 else Needed(specs[..|specs| - 1]) + Count(specs[|specs| - 1])
  }

  /** The results of the clauses, in clause order, each clause rolling on the
      draws its predecessors left. */
  function RollAll(specs: seq<RollSpec>, draws: seq<int>): (rs: seq<RollResult>)
    requires Needed(specs) <= |draws|
    ensures |rs| == |specs|
  {
    if specs == [] then []
    else
      var init := specs[..|specs| - 1];
      RollAll(init, draws) + [RollOf(specs[|specs| - 1], draws[Needed(init)..])]
  }

  function SumResults(rs: seq<RollResult>): int
  {
    if rs == [] then 0 else SumResults(rs[..|rs| - 1]) + rs[|rs| - 1].result
  }

  /** The response to a request: a troll request rolls nothing, has total 0 and
      passes on the request's message; otherwise every clause is rolled. */
  function ResponseOf(req: RollRequest, draws: seq<int>): PlayerRollResponse
    requires !req.isTroll ==> Needed(req.specs) <= |draws|
  {
    if req.isTroll then PlayerRollResponse(req, 0, [], true, req.trollMsg)
    else
      var rs := RollAll(req.specs, draws);
      PlayerRollResponse(req, SumResults(rs), rs, false, "")
  }

  /** A die is rollable when `rand.Intn` accepts it. */
  predicate Rollable(specs: seq<RollSpec>)
  {
    forall i :: 0 <= i < |specs| ==> (specs[i].multiplier > 0 ==> specs[i].die > 0)
  }

  /** `Roll`: returns at once for a troll, and otherwise rolls the clauses in
      order, reading the draws one after another. */
  method Roll(req: RollRequest, draws: seq<int>) returns (ret: PlayerRollResponse)
    requires !req.isTroll ==> Rollable(req.specs) && Needed(req.specs) <= |draws|
    ensures ret == ResponseOf(req, draws)
  {
    ret := PlayerRollResponse(req, 0, [], false, "");
    if req.isTroll {
      ret := ret.(isTroll := true, trollMsg := req.trollMsg);
      return;
    }
    var pos := 0;
    for i := 0 to |req.specs|
      invariant pos == Needed(req.specs[..i]) && pos <= Needed(req.specs)
      invariant ret.request == req && !ret.isTroll && ret.trollMsg == ""
      invariant ret.rolls == RollAll(req.specs[..i], draws) && ret.total == SumResults(ret.rolls)
    {
      var spec := req.specs[i];
      NeededStep(req.specs, i);
      RollAllStep(req.specs, draws, i);
      var r := RollDice(spec, draws[pos..]);
      ResultsSnoc(ret.rolls, r);
      ret := ret.(total := ret.total + r.result, rolls := ret.rolls + [r]);
      pos := pos + Count(spec);
    }
    assert req.specs[..|req.specs|] == req.specs;
  }

  /** The draws of the next clause lie within the draws all the clauses need. */
  lemma {:induction false} NeededStep(specs: seq<RollSpec>, i: nat)
    requires i < |specs|
    ensures Needed(specs[..i + 1]) == Needed(specs[..i]) + Count(specs[i])
    ensures Needed(specs[..i + 1]) <= Needed(specs)
  {
    assert specs[..i + 1][..i] == specs[..i];
    NeededPrefix(specs, i + 1);
  }

  /** The results of the first i + 1 clauses are those of the first i and
      clause i rolled on the draws they left. */
  lemma RollAllStep(specs: seq<RollSpec>, draws: seq<int>, i: nat)
    requires i < |specs| && Needed(specs[..i + 1]) <= |draws|
    requires Needed(specs[..i + 1]) == Needed(specs[..i]) + Count(specs[i])
    ensures RollAll(specs[..i + 1], draws) == RollAll(specs[..i], draws) + [RollOf(specs[i], draws[Needed(specs[..i])..])]
  {
    assert specs[..i + 1][..i] == specs[..i];
  }

  lemma {:induction false} NeededPrefix(specs: seq<RollSpec>, i: nat)
    requires i <= |specs|
    ensures Needed(specs[..i]) <= Needed(specs)
    decreases |specs|
  {
    if i < |specs| {
      var init := specs[..|specs| - 1];
      assert specs[..i] == init[..i];
      NeededPrefix(init, i);
    } else {
      assert specs[..i] == specs;
    }
  }

  lemma ResultsSnoc(rs: seq<RollResult>, r: RollResult)
    ensures SumResults(rs + [r]) == SumResults(rs) + r.result
  {
    assert (rs + [r])[..|rs|] == rs;
  }

  /** Clause i is rolled on the draws that start where clause i-1 stopped. */
  lemma {:induction false} RollAllClauses(specs: seq<RollSpec>, draws: seq<int>)
    requires Needed(specs) <= |draws|
    ensures forall i :: 0 <= i < |specs| ==>
              Needed(specs[..i]) + Count(specs[i]) <= |draws| &&
              RollAll(specs, draws)[i] == RollOf(specs[i], draws[Needed(specs[..i])..])
  {
    if specs != [] {
      var init := specs[..|specs| - 1];
      RollAllClauses(init, draws);
      forall i | 0 <= i < |specs|
        ensures Needed(specs[..i]) + Count(specs[i]) <= |draws| &&
                RollAll(specs, draws)[i] == RollOf(specs[i], draws[Needed(specs[..i])..])
      {
        if i < |init| {
          assert specs[..i] == init[..i] && specs[i] == init[i];
        } else {
          assert specs[..i] == init;
        }
      }
    }
  }

  /** A response holds one result per clause, for that clause and in clause
      order, and its total is the sum of their results; a troll response
      holds nothing. */
  lemma ResponseShape(req: RollRequest, draws: seq<int>)
    requires !req.isTroll ==> Needed(req.specs) <= |draws|
    ensures var ret := ResponseOf(req, draws);
            && (req.isTroll ==> ret.isTroll && ret.total == 0 && ret.rolls == [] && ret.trollMsg == req.trollMsg)
            && (!req.isTroll ==>
                  && !ret.isTroll
                  && |ret.rolls| == |req.specs|
                  && (forall i :: 0 <= i < |req.specs| ==> ret.rolls[i].spec == req.specs[i])
                  && ret.total == SumResults(ret.rolls))
  {
    if !req.isTroll {
      RollAllClauses(req.specs, draws);
    }
  }
}
