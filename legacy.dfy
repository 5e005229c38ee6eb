/** The older request parser `ParseRequest` of `roll/roll.go`. It scans and
    parses clauses exactly as `ParseRollRequest` of `roll/parse.go` does, but
    it first checks the lengths of the raw tokens, and its troll rules and
    messages differ. */
module LegacyParse {
  import opened Wrappers
  import opened RollTypes
  import Strconv
  import RollParse

  /** The verdict of the token-length checks: `None` when no token is too long,
      otherwise a troll, with the message it sets if it sets one. Only the die
      check sets a message; the other two leave the previous message in place. */
  function TokenCheck(tk: RollTokens): (r: Option<Option<string>>)
    ensures r.None? <==> |tk.multiplier| <= 20 && |tk.die| <= 10 && |tk.modifier| <= 10
    ensures r.Some? && r.value.Some? <==> |tk.multiplier| <= 20 && |tk.die| > 10
  {
    if |tk.multiplier| > 20 then Some(None)
    else if |tk.die| > 10 then Some(Some("A d" + tk.die + " is basically a sphere, wtf."))
    else if |tk.modifier| > 10 then Some(None)
    else None
  }

  /** The older classifier. Its `switch` tests the multiplier twice (the second
      case can never be reached) and splits the pointless die into three cases. */
  function Classify(spec: RollSpec): (r: Option<string>)
    ensures r.None? <==> RollParse.InBounds(spec)
  {
    if spec.multiplier > MAX_COMPUTED_ROLLS then Some("I ain't got that many dice.")
    else if spec.die == 1 then Some("A 1-sided die is pointless, you ass.")
    else if spec.die == 0 then Some("A 0-sided die is pointless, you ass.")
    else if spec.die < 0 then Some("A negative-sided die is pointless, you ass.")
    else if spec.die > MAX_DIE_SIZE then Some("A d" + Strconv.IntToString(spec.die) + " is basically a sphere, wtf.")
    else if spec.modifier > MAX_ABS_MODIFIER then Some("You can't add that much to a modifier.")
    else if spec.modifier < -MAX_ABS_MODIFIER then Some("You can't subtract that much from a modifier.")
    else None
  }

  /** The troll flag and message while the clauses are read. */
  datatype Verdict = Verdict(isTroll: bool, trollMsg: string)

  /** A troll that may or may not set a message. */
  function Flag(v: Verdict, msg: Option<string>): Verdict
  {
    Verdict(true, if msg.Some? then msg.value else v.trollMsg)
  }

  /** One clause read: the token checks first, then, if the clause parses
      (its parse is `p`), the classifier. A clause that does not parse keeps
      its token verdict. */
  function Step(v: Verdict, tk: RollTokens, p: Result<RollSpec, RollParse.ClauseError>): Verdict
  {
    var afterTokens := match TokenCheck(tk) case Some(msg) => Flag(v, msg) case None => v;
    match p
    case Failure(_) => afterTokens
    case Success(spec) => match Classify(spec) case Some(msg) => Flag(afterTokens, Some(msg)) case None => afterTokens
  }

  /** The verdict after reading all clauses in order, `rs` holding their parses. */
  function VerdictOf(toks: seq<RollTokens>, rs: seq<Result<RollSpec, RollParse.ClauseError>>): Verdict
    requires |rs| == |toks|
  {
    if toks == [] then Verdict(false, "")
    else Step(VerdictOf(toks[..|toks| - 1], rs[..|rs| - 1]), toks[|toks| - 1], rs[|rs| - 1])
  }

  /** The request made of some submatches: the same errors and clauses as the
      newer parser, with the older troll verdict. */
  function RequestOf(toks: seq<RollTokens>): Result<RollRequest, seq<RollParse.ClauseError>>
  {
    var rs := RollParse.ParseAll(toks);
    if RollParse.Errors(rs) != [] then Failure(RollParse.Errors(rs))
    else
      var v := VerdictOf(toks, rs);
      Success(RollRequest(RollParse.Specs(rs), v.isTroll, v.trollMsg))
  }

  /** `ParseRequest`: every match is checked, parsed and classified in turn. */
  method ParseRequest(msg: string) returns (r: Result<RollRequest, seq<RollParse.ClauseError>>)
    ensures r == RequestOf(RollParse.RollScan.FindAllTokens(msg))
  {
    var toks := RollParse.RollScan.FindAllTokens(msg);
    ghost var rs := RollParse.ParseAll(toks);
    var specs: seq<RollSpec> := [];
    var errs: seq<RollParse.ClauseError> := [];
    var isTroll := false;
    var trollMsg := "";
    for i := 0 to |toks|
      invariant specs == RollParse.Specs(rs[..i]) && errs == RollParse.Errors(rs[..i])
      invariant Verdict(isTroll, trollMsg) == VerdictOf(toks[..i], rs[..i])
    {
      var tk := toks[i];
      VerdictStep(toks, rs, i);
      match TokenCheck(tk) {
        case Some(m) =>
          isTroll := true;
          if m.Some? {
            trollMsg := m.value;
          }
        case None =>
      }
      var p := RollParse.ParseRollTokens(tk);
      assert p == rs[i];
      RollParse.ParseStep(rs, i);
      if p.Failure? {
        errs := errs + [p.error];
        continue;
      }
      var spec := p.value;
      match Classify(spec) {
        case Some(m) =>
          isTroll := true;
          trollMsg := m;
        case None =>
      }
      specs := specs + [spec];
    }
    assert rs[..|toks|] == rs;
    assert toks[..|toks|] == toks;
    if |errs| > 0 {
      return Failure(errs);
    }
    return Success(RollRequest(specs, isTroll, trollMsg));
  }

  lemma VerdictStep(toks: seq<RollTokens>, rs: seq<Result<RollSpec, RollParse.ClauseError>>, i: nat)
    requires |rs| == |toks| && i < |toks|
    ensures VerdictOf(toks[..i + 1], rs[..i + 1]) == Step(VerdictOf(toks[..i], rs[..i]), toks[i], rs[i])
  {
    assert toks[..i + 1][..i] == toks[..i] && rs[..i + 1][..i] == rs[..i];
  }

  /** Both classifiers flag the same clauses; they differ only in wording. */
  lemma ClassifiersAgree(spec: RollSpec)
    ensures Classify(spec).None? <==> RollParse.Classify(spec).None?
  {
  }

  /** A request is a troll exactly when some clause has an overlong token or
      parses to a clause out of bounds; the verdict never reverts. */
  lemma {:induction false} TrollWhenFlagged(toks: seq<RollTokens>, rs: seq<Result<RollSpec, RollParse.ClauseError>>)
    requires |rs| == |toks|
    ensures VerdictOf(toks, rs).isTroll <==>
              exists i :: 0 <= i < |toks| && (TokenCheck(toks[i]).Some? || (rs[i].Success? && !RollParse.InBounds(rs[i].value)))
  {
    if toks != [] {
      var init := toks[..|toks| - 1];
      var rinit := rs[..|rs| - 1];
      TrollWhenFlagged(init, rinit);
      assert forall i :: 0 <= i < |init| ==> init[i] == toks[i] && rinit[i] == rs[i];
    }
  }

  /** A troll flagged only by an overlong multiplier or modifier carries no
      message, so the reply falls back to its default. */
  lemma SilentTroll(tk: RollTokens, p: Result<RollSpec, RollParse.ClauseError>)
    requires |tk.modifier| > 10 && |tk.multiplier| <= 20 && |tk.die| <= 10
    requires p.Success? ==> RollParse.InBounds(p.value)
    ensures VerdictOf([tk], [p]) == Verdict(true, "")
  {
    assert [tk][..0] == [] && [p][..0] == [];
  }

  /** An overlong die token makes the clause a troll even when its value is
      small (leading zeros, as in "d00000000006"), and the message quotes the
      token as written. */
  lemma OverlongDie(tk: RollTokens, p: Result<RollSpec, RollParse.ClauseError>)
    requires |tk.multiplier| <= 20 && |tk.die| > 10
    requires p.Success? ==> RollParse.InBounds(p.value)
    ensures VerdictOf([tk], [p]) == Verdict(true, "A d" + tk.die + " is basically a sphere, wtf.")
  {
    assert [tk][..0] == [] && [p][..0] == [];
    assert VerdictOf([tk], [p]) == Step(Verdict(false, ""), tk, p);
  }
}
