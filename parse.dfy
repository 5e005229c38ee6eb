/** The roll parser of `roll/parse.go`: the submatches of every match of the
    roll pattern become integer clauses, and each clause is checked against the
    limits that separate a roll from a troll. */
module RollParse {
  import opened Wrappers
  import opened RollTypes
  import Strconv
  import Strings
  import RollScan

  /** Why one token of a clause did not parse. */
  datatype ParseError =
    | BadMultiplier(token: string)
    | MissingDie
    | BadDie(token: string)
    | BadModifier(token: string)

  /** A clause that did not parse, with every error found in it, in token order. */
  datatype ClauseError = ClauseError(tokens: RollTokens, errors: seq<ParseError>)

  /** `parseMultiplier`: an empty token means one die. */
  function ParseMultiplier(tok: string): (r: Result<int, ParseError>)
    ensures tok == "" ==> r == Success(1)
    ensures tok != "" && r.Success? ==> Strconv.ParseInt(tok) == Some(r.value)
    ensures tok != "" && r.Failure? ==> Strconv.ParseInt(tok).None? && r.error == BadMultiplier(tok)
  {
    if tok == "" then Success(1)
    else
      match Strconv.ParseInt(tok)
      case Some(v) => Success(v)
      case None => Failure(BadMultiplier(tok))
  }

  /** `parseDie`: the die token is mandatory. */
  function ParseDie(tok: string): (r: Result<int, ParseError>)
    ensures tok == "" ==> r == Failure(MissingDie)
    ensures tok != "" && r.Success? ==> Strconv.ParseInt(tok) == Some(r.value)
    ensures tok != "" && r.Failure? ==> Strconv.ParseInt(tok).None? && r.error == BadDie(tok)
  {
    if tok == "" then Failure(MissingDie)
    else
      match Strconv.ParseInt(tok)
      case Some(v) => Success(v)
      case None => Failure(BadDie(tok))
  }

  /** `parseModifier`: a blank token means no modifier; otherwise the spaces
      (and only the spaces) are removed and what is left must be an integer. */
  function ParseModifier(tok: string): (r: Result<int, ParseError>)
    ensures Strings.IsBlank(tok) ==> r == Success(0)
    ensures !Strings.IsBlank(tok) && r.Success? ==> Strconv.ParseInt(Strings.RemoveSpaces(tok)) == Some(r.value)
    ensures !Strings.IsBlank(tok) && r.Failure? ==>
              Strconv.ParseInt(Strings.RemoveSpaces(tok)).None? && r.error == BadModifier(Strings.RemoveSpaces(tok))
  {
    if Strings.IsBlank(tok) then Success(0)
    else
      var squeezed := Strings.RemoveSpaces(tok);
      match Strconv.ParseInt(squeezed)
      case Some(v) => Success(v)
      case None => Failure(BadModifier(squeezed))
  }

  /** The error of a token parse, as a list of zero or one error. */
  function ErrorOf(r: Result<int, ParseError>): seq<ParseError>
  {
    if r.Failure? then [r.error] else []
  }

  /** `parseRollTokens`: all three tokens are parsed, every error is kept, and
      the clause parses only when none of them failed. */
  function ParseRollTokens(tk: RollTokens): Result<RollSpec, ClauseError>
  {
    var mul := ParseMultiplier(tk.multiplier);
    var die := ParseDie(tk.die);
    var mod := ParseModifier(tk.modifier);
    var errs := ErrorOf(mul) + ErrorOf(die) + ErrorOf(mod);
    if errs != [] then Failure(ClauseError(tk, errs))
    else Success(RollSpec(mul.value, die.value, mod.value))
  }

  /** A clause parses exactly when all three tokens parse, and then it holds
      their values; a clause that fails keeps its tokens and one to three errors. */
  lemma ParseRollTokensResult(tk: RollTokens)
    ensures var r := ParseRollTokens(tk);
            && (r.Success? <==>
                  ParseMultiplier(tk.multiplier).Success? && ParseDie(tk.die).Success? && ParseModifier(tk.modifier).Success?)
            && (r.Success? ==>
                  r.value == RollSpec(ParseMultiplier(tk.multiplier).value, ParseDie(tk.die).value, ParseModifier(tk.modifier).value))
            && (r.Failure? ==> r.error.tokens == tk && 1 <= |r.error.errors| <= 3)
  {
  }

  /** The clause is within every limit: not too many dice, a die with at least
      two and at most `MAX_DIE_SIZE` sides, and a modifier of at most
      `MAX_ABS_MODIFIER` either way. */
  predicate InBounds(spec: RollSpec)
  {
    && spec.multiplier <= MAX_COMPUTED_ROLLS
    && 2 <= spec.die <= MAX_DIE_SIZE
    && -MAX_ABS_MODIFIER <= spec.modifier <= MAX_ABS_MODIFIER
  }

  /** The ways a clause can be out of bounds, one per branch of the source's `switch`. */
  datatype Troll =
    | TooManyDice
    | PointlessDie(sides: int)
    | Sphere(sides: int)
    | TooMuchAdded
    | TooMuchSubtracted

  /** The first limit a clause breaks, checked in the order of the source's
      `switch`; `None` for a clause within bounds. */
  function Classify(spec: RollSpec): (r: Option<Troll>)
    ensures r.None? <==> InBounds(spec)
  {
    if spec.multiplier > MAX_COMPUTED_ROLLS then Some(TooManyDice)
    else if spec.die < 2 then Some(PointlessDie(spec.die))
    else if spec.die > MAX_DIE_SIZE then Some(Sphere(spec.die))
    else if spec.modifier > MAX_ABS_MODIFIER then Some(TooMuchAdded)
    else if spec.modifier < -MAX_ABS_MODIFIER then Some(TooMuchSubtracted)
    else None
  }

  /** Each verdict names a limit the clause breaks: too many dice, a die with
      fewer than two sides or too many, a modifier too large either way. */
  lemma ClassifyVerdicts(spec: RollSpec)
    ensures Classify(spec) == Some(TooManyDice) <==> spec.multiplier > MAX_COMPUTED_ROLLS
    ensures Classify(spec).Some? && Classify(spec).value.PointlessDie? ==> Classify(spec).value.sides == spec.die < 2
    ensures Classify(spec).Some? && Classify(spec).value.Sphere? ==> Classify(spec).value.sides == spec.die > MAX_DIE_SIZE
    ensures Classify(spec) == Some(TooMuchAdded) ==> spec.modifier > MAX_ABS_MODIFIER
    ensures Classify(spec) == Some(TooMuchSubtracted) ==> spec.modifier < -MAX_ABS_MODIFIER
  {
  }

  /** The limits are checked in a fixed order and the first one broken wins:
      a clause with both an oversized die and an oversized modifier is a sphere. */
  lemma ClassifyOrder(spec: RollSpec)
    ensures var r := Classify(spec);
            var manyOk := spec.multiplier <= MAX_COMPUTED_ROLLS;
            && (r == Some(PointlessDie(spec.die)) <==> manyOk && spec.die < 2)
            && (r == Some(Sphere(spec.die)) <==> manyOk && 2 <= spec.die && spec.die > MAX_DIE_SIZE)
            && (r == Some(TooMuchAdded) <==> manyOk && 2 <= spec.die <= MAX_DIE_SIZE && spec.modifier > MAX_ABS_MODIFIER)
            && (r == Some(TooMuchSubtracted) <==>
                  manyOk && 2 <= spec.die <= MAX_DIE_SIZE && spec.modifier < -MAX_ABS_MODIFIER)
  {
  }

  /** The reply the bot gives to a clause out of bounds. */
  function TrollMessage(t: Troll): (msg: string)
    ensures msg != ""
  {
    match t
    case TooManyDice => "I ain't got that many dice."
    case PointlessDie(sides) => "A " + Strconv.IntToString(sides) + "-sided die is pointless, you ass."
    case Sphere(sides) => "A d" + Strconv.IntToString(sides) + " is basically a sphere, wtf."
    case TooMuchAdded => "You can't add that much to a modifier, that's unreasonable."
    case TooMuchSubtracted => "You can't subtract that much from a modifier, that's unreasonable."
  }

  /** The parse of every clause, in match order. */
  function ParseAll(toks: seq<RollTokens>): (rs: seq<Result<RollSpec, ClauseError>>)
    ensures |rs| == |toks| && forall i :: 0 <= i < |toks| ==> rs[i] == ParseRollTokens(toks[i])
  {
    seq(|toks|, i requires 0 <= i < |toks| => ParseRollTokens(toks[i]))
  }

  /** The errors of the clauses that did not parse, in order. */
  function Errors(rs: seq<Result<RollSpec, ClauseError>>): seq<ClauseError>
  {
    if rs == [] then []
    else Errors(rs[..|rs| - 1]) + (if rs[|rs| - 1].Failure? then [rs[|rs| - 1].error] else [])
  }

  /** The clauses that did parse, in order. */
  function Specs(rs: seq<Result<RollSpec, ClauseError>>): seq<RollSpec>
  {
    if rs == [] then []
    else Specs(rs[..|rs| - 1]) + (if rs[|rs| - 1].Success? then [rs[|rs| - 1].value] else [])
  }

  /** The verdict on the last clause that is out of bounds, if any: each such
      clause overwrites the message of the one before. */
  function LastTroll(specs: seq<RollSpec>): Option<Troll>
  {
    if specs == [] then None
    else
      match Classify(specs[|specs| - 1])
      case Some(t) => Some(t)
      case None => LastTroll(specs[..|specs| - 1])
  }

  /** The troll flag and message of a request of these clauses. */
  function TrollFields(specs: seq<RollSpec>): (bool, string)
  {
    var troll := LastTroll(specs);
    (troll.Some?, if troll.Some? then TrollMessage(troll.value) else "")
  }

  /** The request made of some submatches: an error listing every clause that
      did not parse, or the parsed clauses with the troll verdict. */
  function RequestOf(toks: seq<RollTokens>): Result<RollRequest, seq<ClauseError>>
  {
    var rs := ParseAll(toks);
    if Errors(rs) != [] then Failure(Errors(rs))
    else
      var verdict := TrollFields(Specs(rs));
      Success(RollRequest(Specs(rs), verdict.0, verdict.1))
  }

  /** `HasRollRequest`: the text holds a match of the roll pattern somewhere. */
  function HasRollRequest(msg: string): (r: bool)
    ensures r <==> exists m :: RollScan.WellFormed(msg, m)
  {
    RollScan.ScanFindsAny(msg);
    |RollScan.FindAllTokens(msg)| > 0
  }

  /** `ParseRollRequest`: every match is parsed and classified in turn. */
  method ParseRollRequest(msg: string) returns (r: Result<RollRequest, seq<ClauseError>>)
    ensures r == RequestOf(RollScan.FindAllTokens(msg))
  {
    var toks := RollScan.FindAllTokens(msg);
    ghost var rs := ParseAll(toks);
    var specs: seq<RollSpec> := [];
    var errs: seq<ClauseError> := [];
    var isTroll := false;
    var trollMsg := "";
    for i := 0 to |toks|
      invariant specs == Specs(rs[..i]) && errs == Errors(rs[..i])
      invariant (isTroll, trollMsg) == TrollFields(specs)
    {
      var p := ParseRollTokens(toks[i]);
      assert p == rs[i];
      ParseStep(rs, i);
      if p.Failure? {
        errs := errs + [p.error];
        continue;
      }
      var spec := p.value;
      TrollFieldsSnoc(specs, spec);
      match Classify(spec) {
        case Some(t) =>
          isTroll := true;
          trollMsg := TrollMessage(t);
        case None =>
      }
      specs := specs + [spec];
    }
    assert rs[..|toks|] == rs;
    if |errs| > 0 {
      return Failure(errs);
    }
    return Success(RollRequest(specs, isTroll, trollMsg));
  }

  /** A clause out of bounds sets the flag and its message; one within
      bounds leaves both as they were. */
  lemma TrollFieldsSnoc(specs: seq<RollSpec>, spec: RollSpec)
    ensures TrollFields(specs + [spec]) ==
              match Classify(spec) case Some(t) => (true, TrollMessage(t)) case None => TrollFields(specs)
  {
    LastTrollSnoc(specs, spec);
  }

  /** One more clause adds its error or its spec, and nothing else. */
  lemma ParseStep(rs: seq<Result<RollSpec, ClauseError>>, i: nat)
    requires i < |rs|
    ensures rs[i].Failure? ==> Errors(rs[..i + 1]) == Errors(rs[..i]) + [rs[i].error] && Specs(rs[..i + 1]) == Specs(rs[..i])
    ensures rs[i].Success? ==> Errors(rs[..i + 1]) == Errors(rs[..i]) && Specs(rs[..i + 1]) == Specs(rs[..i]) + [rs[i].value]
  {
    assert rs[..i + 1][..i] == rs[..i];
  }

  /** A clause out of bounds takes over the verdict; one within bounds leaves it. */
  lemma LastTrollSnoc(specs: seq<RollSpec>, spec: RollSpec)
    ensures LastTroll(specs + [spec]) == if Classify(spec).Some? then Classify(spec) else LastTroll(specs)
  {
    assert (specs + [spec])[..|specs|] == specs;
  }

  /** There are no errors exactly when every clause parsed. */
  lemma {:induction false} ErrorsEmptyIff(rs: seq<Result<RollSpec, ClauseError>>)
    ensures Errors(rs) == [] <==> forall i :: 0 <= i < |rs| ==> rs[i].Success?
  {
    if rs != [] {
      var init := rs[..|rs| - 1];
      ErrorsEmptyIff(init);
      assert forall i :: 0 <= i < |init| ==> init[i] == rs[i];
    }
  }

  /** When every clause parses, the request holds them all, in match order. */
  lemma {:induction false} SpecsWhenNoErrors(rs: seq<Result<RollSpec, ClauseError>>)
    requires Errors(rs) == []
    ensures |Specs(rs)| == |rs|
    ensures forall i :: 0 <= i < |rs| ==> rs[i] == Success(Specs(rs)[i])
  {
    if rs != [] {
      var init := rs[..|rs| - 1];
      assert Errors(init) == [];
      SpecsWhenNoErrors(init);
      assert forall i :: 0 <= i < |init| ==> init[i] == rs[i];
    }
  }

  /** A request fails exactly when one of its clauses fails to parse, and
      otherwise holds the parse of every clause in match order. */
  lemma RequestClauses(toks: seq<RollTokens>)
    ensures RequestOf(toks).Failure? <==> exists i :: 0 <= i < |toks| && ParseRollTokens(toks[i]).Failure?
    ensures RequestOf(toks).Success? ==>
              var specs := RequestOf(toks).value.specs;
              |specs| == |toks| && forall i :: 0 <= i < |toks| ==> ParseRollTokens(toks[i]) == Success(specs[i])
  {
    var rs := ParseAll(toks);
    ErrorsEmptyIff(rs);
    if Errors(rs) == [] {
      SpecsWhenNoErrors(rs);
    }
  }

  /** The troll verdict belongs to the last clause out of bounds, and there is
      one exactly when some clause is out of bounds. */
  lemma LastTrollIsLast(specs: seq<RollSpec>)
    ensures LastTroll(specs).None? <==> forall i :: 0 <= i < |specs| ==> InBounds(specs[i])
    ensures LastTroll(specs).Some? ==>
              exists i :: 0 <= i < |specs| && Classify(specs[i]) == LastTroll(specs) &&
                          forall j :: i < j < |specs| ==> InBounds(specs[j])
  {
    LastTrollNone(specs);
    if LastTroll(specs).Some? {
      LastTrollWitness(specs);
    }
  }

  lemma {:induction false} LastTrollNone(specs: seq<RollSpec>)
    ensures LastTroll(specs).None? <==> forall i :: 0 <= i < |specs| ==> InBounds(specs[i])
  {
    if specs != [] {
      var init := specs[..|specs| - 1];
      LastTrollNone(init);
      assert forall i :: 0 <= i < |init| ==> init[i] == specs[i];
    }
  }

  lemma {:induction false} LastTrollWitness(specs: seq<RollSpec>)
    requires LastTroll(specs).Some?
    ensures exists i :: 0 <= i < |specs| && Classify(specs[i]) == LastTroll(specs) &&
                        forall j :: i < j < |specs| ==> InBounds(specs[j])
  {
    var init := specs[..|specs| - 1];
    var last := |specs| - 1;
    if Classify(specs[last]).Some? {
      assert Classify(specs[last]) == LastTroll(specs);
    } else {
      LastTrollWitness(init);
      var i :| 0 <= i < |init| && Classify(init[i]) == LastTroll(init) &&
               forall j :: i < j < |init| ==> InBounds(init[j]);
      assert init[i] == specs[i];
      forall j | i < j < |specs|
        ensures InBounds(specs[j])
      {
        if j < last {
          assert init[j] == specs[j];
        }
      }
      assert Classify(specs[i]) == LastTroll(specs);
    }
  }

  /** A request that parsed is a troll exactly when some clause is out of
      bounds, and then it carries the message of the last such clause. */
  lemma TrollVerdict(toks: seq<RollTokens>)
    requires RequestOf(toks).Success?
    ensures var req := RequestOf(toks).value;
            && (!req.isTroll <==> forall i :: 0 <= i < |req.specs| ==> InBounds(req.specs[i]))
            && (req.isTroll ==> exists i :: 0 <= i < |req.specs| && Classify(req.specs[i]).Some? &&
                                            req.trollMsg == TrollMessage(Classify(req.specs[i]).value) &&
                                            forall j :: i < j < |req.specs| ==> InBounds(req.specs[j]))
  {
    LastTrollIsLast(Specs(ParseAll(toks)));
  }

  /** A tab between the sign and the digits of a modifier is accepted by the
      pattern but not removed before parsing, so the clause fails. */
  lemma ModifierTabRejected()
    ensures ParseModifier("+\t5") == Failure(BadModifier("+\t5"))
  {
    TabKept();
    TabNotParsed();
  }

  lemma TabKept()
    ensures !Strings.IsBlank("+\t5") && Strings.RemoveSpaces("+\t5") == "+\t5"
  {
    assert !Strings.IsUnicodeSpace("+\t5"[0]);
    assert forall i :: 0 <= i < |"+\t5"| ==> "+\t5"[i] != ' ';
  }

  lemma TabNotParsed()
    ensures Strconv.ParseInt("+\t5").None?
  {
    assert !Strconv.AllDigits("\t5") by { assert !Strconv.IsDigit("\t5"[0]); }
    assert "+\t5"[1..] == "\t5";
  }

  /** Spaces between the sign and the digits are dropped. */
  lemma ModifierSpacesDropped()
    ensures ParseModifier("- 12") == Success(-12)
  {
    SqueezedMinusTwelve();
    ParsedMinusTwelve();
  }

  lemma SqueezedMinusTwelve()
    ensures !Strings.IsBlank("- 12") && Strings.RemoveSpaces("- 12") == "-12"
  {
    assert !Strings.IsUnicodeSpace("- 12"[0]);
    assert Strings.RemoveSpaces("12") == "12";
  }

  lemma ParsedMinusTwelve()
    ensures Strconv.ParseInt("-12") == Some(-12)
  {
    assert "-12"[1..] == "12";
    assert Strconv.DigitsValue("12") == 12 by {
      assert "12"[..1] == "1";
    }
  }
}
