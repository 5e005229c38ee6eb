/** Properties of the roll pipeline as a whole: a clause written out by
    `RollSpec.String` is found again by the roll pattern and parses back to the
    same clause. */
module Pipeline {
  import opened Wrappers
  import opened RollTypes
  import Strconv
  import Strings
  import RollScan
  import RollParse
  import Format
  import Roll
  import LegacyParse

  /** The shape of a written clause: multiplier digits, "d", die digits, then
      nothing or a sign and digits. */
  predicate ClauseShape(mul: string, die: string, mod: string)
  {
    && Strconv.AllDigits(mul)
    && die != [] && Strconv.AllDigits(die)
    && (mod == [] || (|mod| > 1 && RollScan.IsSign(mod[0]) && Strconv.AllDigits(mod[1..])))
  }

  /** The end of the die digits in a written clause. */
  function DieEnd(mul: string, die: string): nat
  {
    |mul| + 1 + |die|
  }

  /** The match the scanner finds in a written clause: the whole text. */
  function ClauseMatch(mul: string, die: string, mod: string): RollScan.Match
  {
    var e := DieEnd(mul, die);
    RollScan.Match(0, |mul|, |mul|, e, e, if mod == [] then e else e + 1, e + |mod|)
  }

  /** The scanner takes the longest runs it can, so in a written clause its
      runs end exactly where the pieces do. */
  lemma ClauseRuns(mul: string, die: string, mod: string)
    requires ClauseShape(mul, die, mod)
    ensures var s := mul + "d" + die + mod;
            var e := DieEnd(mul, die);
            && RollScan.DigitRun(s, 0) == |mul|
            && RollScan.SpaceRun(s, |mul|) == |mul|
            && RollScan.DigitRun(s, |mul| + 1) == e
            && RollScan.SpaceRun(s, e) == e
            && (mod != [] ==> RollScan.SpaceRun(s, e + 1) == e + 1 && RollScan.DigitRun(s, e + 1) == |s|)
  {
    var s := mul + "d" + die + mod;
    var e := DieEnd(mul, die);
    assert forall k :: 0 <= k < |mul| ==> s[k] == mul[k];
    assert s[|mul|] == 'd';
    assert forall k :: |mul| + 1 <= k < e ==> s[k] == die[k - |mul| - 1];
    assert forall k :: e <= k < |s| ==> s[k] == mod[k - e];
    RollScan.DigitRunUnique(s, 0, |mul|);
    RollScan.SpaceRunUnique(s, |mul|, |mul|);
    RollScan.DigitRunUnique(s, |mul| + 1, e);
    RollScan.SpaceRunUnique(s, e, e);
    if mod != [] {
      assert s[e + 1] == mod[1];
      RollScan.SpaceRunUnique(s, e + 1, e + 1);
      RollScan.DigitRunUnique(s, e + 1, |s|);
    }
  }

  /** A written clause is one match: the scanner finds it at the start and
      nothing after it. */
  lemma ScanClause(mul: string, die: string, mod: string)
    requires ClauseShape(mul, die, mod)
    ensures RollScan.Scan(mul + "d" + die + mod, 0) == [ClauseMatch(mul, die, mod)]
  {
    var s := mul + "d" + die + mod;
    var e := DieEnd(mul, die);
    ClauseRuns(mul, die, mod);
    assert s[|mul|] == 'd' && s[|mul| + 1] == die[0];
    if mod != [] {
      assert s[e] == mod[0] && s[e + 1] == mod[1];
      assert RollScan.GroupAt(s, e);
    } else {
      assert !RollScan.GroupAt(s, e);
    }
    var m := ClauseMatch(mul, die, mod);
    assert RollScan.MatchAt(s, 0) == Some(m);
    assert RollScan.Scan(s, 0) == [m] + RollScan.Scan(s, |s|);
  }

  /** The submatches of a written clause are its three pieces. */
  lemma ClauseTokens(mul: string, die: string, mod: string)
    requires ClauseShape(mul, die, mod)
    ensures RollScan.FindAllTokens(mul + "d" + die + mod) == [RollTokens(mul, die, mod)]
  {
    var s := mul + "d" + die + mod;
    ScanClause(mul, die, mod);
    SingleMatchTokens(s, ClauseMatch(mul, die, mod));
    MatchPieces(mul, die, mod);
  }

  lemma SingleMatchTokens(s: string, m: RollScan.Match)
    requires RollScan.Scan(s, 0) == [m]
    ensures RollScan.WellFormed(s, m) && RollScan.FindAllTokens(s) == [RollScan.TokensOf(s, m)]
  {
    var toks := RollScan.FindAllTokens(s);
    RollScan.ScanSound(s, 0);
    assert RollScan.Scan(s, 0)[0] == m;
    assert |toks| == 1 && toks[0] == RollScan.TokensOf(s, m);
  }

  lemma MatchPieces(mul: string, die: string, mod: string)
    requires ClauseShape(mul, die, mod)
    requires RollScan.WellFormed(mul + "d" + die + mod, ClauseMatch(mul, die, mod))
    ensures RollScan.TokensOf(mul + "d" + die + mod, ClauseMatch(mul, die, mod)) == RollTokens(mul, die, mod)
  {
    var s := mul + "d" + die + mod;
    var e := DieEnd(mul, die);
    assert s[0..|mul|] == mul;
    assert s[|mul| + 1..e] == die;
    assert s[e..|s|] == mod;
  }

  /** The pieces `RollSpec.String` writes for a clause. */
  function MulPiece(spec: RollSpec): string
  {
    if spec.multiplier != 1 then Strconv.IntToString(spec.multiplier) else ""
  }

  function ModPiece(spec: RollSpec): string
  {
    if spec.modifier != 0 then Strconv.SignedString(spec.modifier) else ""
  }

  /** A signed number is a sign followed by digits. */
  lemma SignedShape(n: int)
    ensures var s := Strconv.SignedString(n);
            RollScan.IsSign(s[0]) && Strconv.AllDigits(s[1..])
  {
    var a := if n < 0 then -n else n;
    Strconv.NatToStringDigits(a);
    assert Strconv.SignedString(n)[1..] == Strconv.NatToString(a);
  }

  /** A clause with a non-negative multiplier and die is written in the shape
      the roll pattern matches. */
  lemma SpecStringShape(spec: RollSpec)
    requires spec.multiplier >= 0 && spec.die >= 0
    ensures ClauseShape(MulPiece(spec), Strconv.IntToString(spec.die), ModPiece(spec))
    ensures Format.SpecString(spec) == MulPiece(spec) + "d" + Strconv.IntToString(spec.die) + ModPiece(spec)
  {
    Strconv.IntToStringDigits(spec.multiplier);
    Strconv.IntToStringDigits(spec.die);
    SignedShape(spec.modifier);
  }

  /** Each written piece parses back to the number it was written from. */
  lemma PiecesParseBack(spec: RollSpec)
    requires 0 <= spec.multiplier <= Strconv.MAX_INT64 && 0 <= spec.die <= Strconv.MAX_INT64
    requires Strconv.MIN_INT64 <= spec.modifier <= Strconv.MAX_INT64
    ensures RollParse.ParseMultiplier(MulPiece(spec)) == Success(spec.multiplier)
    ensures RollParse.ParseDie(Strconv.IntToString(spec.die)) == Success(spec.die)
    ensures RollParse.ParseModifier(ModPiece(spec)) == Success(spec.modifier)
  {
    Strconv.ParseIntToString(spec.multiplier);
    Strconv.ParseIntToString(spec.die);
    ModPieceParsesBack(spec.modifier);
  }

  /** A written modifier has no blank and no space in it, so it parses back. */
  lemma ModPieceParsesBack(n: int)
    requires Strconv.MIN_INT64 <= n <= Strconv.MAX_INT64
    ensures RollParse.ParseModifier(if n != 0 then Strconv.SignedString(n) else "") == Success(n)
  {
    if n != 0 {
      var s := Strconv.SignedString(n);
      SignedShape(n);
      Strconv.ParseSignedString(n);
      assert !Strings.IsBlank(s) by {
        assert !Strings.IsUnicodeSpace(s[0]);
      }
      assert forall i :: 0 <= i < |s| ==> s[i] != ' ' by {
        forall i | 0 <= i < |s| ensures s[i] != ' ' {
          if i > 0 {
            assert s[i] == s[1..][i - 1];
          }
        }
      }
    }
  }

  /** `RollSpec.String` and the parser are inverse: for a clause with a
      non-negative multiplier and die and numbers that `Atoi` accepts, the
      written clause is found as exactly one match, which parses back to the
      clause. */
  lemma SpecStringRoundTrip(spec: RollSpec)
    requires 0 <= spec.multiplier <= Strconv.MAX_INT64 && 0 <= spec.die <= Strconv.MAX_INT64
    requires Strconv.MIN_INT64 <= spec.modifier <= Strconv.MAX_INT64
    ensures var toks := RollScan.FindAllTokens(Format.SpecString(spec));
            |toks| == 1 && RollParse.ParseRollTokens(toks[0]) == Success(spec)
  {
    SpecStringShape(spec);
    ClauseTokens(MulPiece(spec), Strconv.IntToString(spec.die), ModPiece(spec));
    PiecesParseBack(spec);
  }

  /** A single clause that parses is a request of that clause. */
  lemma SingleClauseRequest(toks: seq<RollTokens>, spec: RollSpec)
    requires |toks| == 1 && RollParse.ParseRollTokens(toks[0]) == Success(spec)
    ensures var t := RollParse.Classify(spec);
            RollParse.RequestOf(toks) == Success(RollRequest([spec], t.Some?, if t.Some? then RollParse.TrollMessage(t.value) else ""))
  {
    var rs := RollParse.ParseAll(toks);
    assert rs == [Success(spec)];
    OneSuccess(rs, spec);
    OneSpecTroll(spec);
  }

  lemma OneSuccess(rs: seq<Result<RollSpec, RollParse.ClauseError>>, spec: RollSpec)
    requires rs == [Success(spec)]
    ensures RollParse.Errors(rs) == [] && RollParse.Specs(rs) == [spec]
  {
    assert rs[..0] == [];
  }

  lemma OneSpecTroll(spec: RollSpec)
    ensures RollParse.LastTroll([spec]) == RollParse.Classify(spec)
  {
    assert [spec][..0] == [];
  }

  /** A written clause, sent as a message, is a request of that one clause,
      a troll exactly when the clause is out of bounds, with the message for
      the first limit it breaks. */
  lemma SpecStringRequest(spec: RollSpec)
    requires 0 <= spec.multiplier <= Strconv.MAX_INT64 && 0 <= spec.die <= Strconv.MAX_INT64
    requires Strconv.MIN_INT64 <= spec.modifier <= Strconv.MAX_INT64
    ensures var r := RollParse.RequestOf(RollScan.FindAllTokens(Format.SpecString(spec)));
            && r.Success? && r.value.specs == [spec]
            && (r.value.isTroll <==> !RollParse.InBounds(spec))
            && (r.value.isTroll ==> r.value.trollMsg == RollParse.TrollMessage(RollParse.Classify(spec).value))
  {
    var toks := RollScan.FindAllTokens(Format.SpecString(spec));
    SpecStringRoundTrip(spec);
    SingleClauseRequest(toks, spec);
  }

  /** A request of the newer parser that is not a troll can be rolled: every
      clause is in bounds, so its die has at least two sides. */
  lemma RequestRollable(toks: seq<RollTokens>)
    requires RollParse.RequestOf(toks).Success? && !RollParse.RequestOf(toks).value.isTroll
    ensures Roll.Rollable(RollParse.RequestOf(toks).value.specs)
  {
    RollParse.TrollVerdict(toks);
  }

  /** The same holds for the older parser, whose request is the one the bot
      rolls: a request it does not flag has every clause in bounds. */
  lemma LegacyRequestRollable(toks: seq<RollTokens>)
    requires LegacyParse.RequestOf(toks).Success? && !LegacyParse.RequestOf(toks).value.isTroll
    ensures Roll.Rollable(LegacyParse.RequestOf(toks).value.specs)
  {
    var rs := RollParse.ParseAll(toks);
    RollParse.ErrorsEmptyIff(rs);
    RollParse.SpecsWhenNoErrors(rs);
    LegacyParse.TrollWhenFlagged(toks, rs);
    var specs := LegacyParse.RequestOf(toks).value.specs;
    forall i | 0 <= i < |specs| ensures specs[i].multiplier > 0 ==> specs[i].die > 0 {
      assert rs[i] == Success(specs[i]);
    }
  }

  /** The reply the bot sends for a rolled request: a troll gets its message or
      the default taunt, a single clause its result alone, and otherwise the
      text closes with the sum of the clause results. */
  lemma PlayerReply(req: RollRequest, draws: seq<int>)
    requires !req.isTroll ==> Roll.Needed(req.specs) <= |draws|
    ensures var pr := Roll.ResponseOf(req, draws);
            var text := Format.PlayerResponseText(pr);
            && (req.isTroll ==> text == if req.trollMsg != "" then req.trollMsg else "lol, nice try")
            && (!req.isTroll && |req.specs| == 1 ==> text == Format.LegacyResultText(pr.rolls[0]))
            && (!req.isTroll && |req.specs| != 1 ==>
                  Strings.HasSuffix(text, " Total=**" + Strconv.IntToString(Roll.SumResults(pr.rolls)) + "**"))
  {
    var pr := Roll.ResponseOf(req, draws);
    if req.isTroll {
      TrollReply(pr);
    } else {
      Roll.ResponseShape(req, draws);
      if |req.specs| == 1 {
        SingleReply(pr);
      } else {
        TotalReply(pr);
      }
    }
  }

  lemma TrollReply(pr: PlayerRollResponse)
    requires pr.isTroll
    ensures Format.PlayerResponseText(pr) == if pr.trollMsg != "" then pr.trollMsg else "lol, nice try"
  {
  }

  lemma SingleReply(pr: PlayerRollResponse)
    requires !pr.isTroll && |pr.rolls| == 1
    ensures Format.PlayerResponseText(pr) == Format.LegacyResultText(pr.rolls[0])
  {
    assert pr.rolls[..0] == [];
  }

  lemma TotalReply(pr: PlayerRollResponse)
    requires !pr.isTroll && |pr.rolls| != 1
    ensures Strings.HasSuffix(Format.PlayerResponseText(pr), " Total=**" + Strconv.IntToString(pr.total) + "**")
  {
    var texts := Format.LegacyTexts(pr.rolls);
    assert Format.PlayerResponseText(pr) == Format.Combine(texts, pr.total);
    CombineMany(texts, pr.total);
  }

  lemma CombineMany(texts: seq<string>, total: int)
    requires |texts| != 1
    ensures Strings.HasSuffix(Format.Combine(texts, total), " Total=**" + Strconv.IntToString(total) + "**")
  {
    SuffixOfConcat(Strings.Join(texts, ", "), " Total=**", Strconv.IntToString(total), "**");
  }

  lemma SuffixOfConcat(head: string, x: string, y: string, z: string)
    ensures Strings.HasSuffix(head + x + y + z, x + y + z)
  {
    assert head + x + y + z == head + (x + y + z);
  }
}
