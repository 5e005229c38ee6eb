/** The renderers of `roll/format.go`, and the older copies of them in
    `roll/roll.go`: a clause as text, a rolled clause in its compact or its
    expanded form, and a whole response. */
module Format {
  import opened RollTypes
  import Strconv
  import Strings

  /** `RollRequest.String` of `roll/format.go`, and `RollSpec.String` of
      `roll/roll.go`, which is the same code: the multiplier unless it is 1,
      then "d" and the die, then the signed modifier unless it is 0. */
  function SpecString(spec: RollSpec): string
  {
    (if spec.multiplier != 1 then Strconv.IntToString(spec.multiplier) else "")
    + "d" + Strconv.IntToString(spec.die)
    + (if spec.modifier != 0 then Strconv.SignedString(spec.modifier) else "")
  }

  /** A single unmodified die is written compactly. */
  predicate IsCompact(rr: RollResult)
  {
    |rr.baseRolls| == 1 && rr.spec.modifier == 0
  }

  /** One base roll in the expanded form; the crit marks of the whole result
      are repeated on each roll shown. */
  function Label(rr: RollResult, roll: int): string
  {
    if rr.isCrit then Strconv.IntToString(roll) + "(crit)"
    else if rr.isCritFail then Strconv.IntToString(roll) + "(crit-fail)"
    else Strconv.IntToString(roll)
  }

  /** The piece that replaces the rolls past the tenth. */
  function Omitted(k: int): string
  {
    "**(" + Strconv.IntToString(k) + " rolls omitted, ass)**"
  }

  function ShownCount(rr: RollResult): nat
  {
    if |rr.baseRolls| < MAX_SHOWN_ROLLS then |rr.baseRolls| else MAX_SHOWN_ROLLS
  }

  /** The labels of the rolls shown: the first ten at most. */
  function Shown(rr: RollResult): (ls: seq<string>)
    ensures |ls| == ShownCount(rr)
  {
    seq(ShownCount(rr), i requires 0 <= i < ShownCount(rr) => Label(rr, rr.baseRolls[i]))
  }

  /** The pieces joined with "+" between the stars: the rolls shown, then a
      count of the rolls left out when there are more than ten. */
  function Pieces(rr: RollResult): seq<string>
  {
    Shown(rr) + (if |rr.baseRolls| > MAX_SHOWN_ROLLS then [Omitted(|rr.baseRolls| - MAX_SHOWN_ROLLS)] else [])
  }

  /** Everything after the stars: the signed modifier unless it is 0, then the result. */
  function Tail(rr: RollResult): string
  {
    (if rr.spec.modifier != 0 then Strconv.SignedString(rr.spec.modifier) else "")
    + "=**" + Strconv.IntToString(rr.result) + "**"
  }

  /** What stands in for the rolls when no die was rolled. */
  function Nuthin(rr: RollResult): string
  {
    if rr.baseRolls == [] then "(nuthin)" else ""
  }

  /** The expanded form without the clause in front: "*", the pieces (or
      "(nuthin)" when no die was rolled), "*", then the tail. */
  function ExpandedBody(rr: RollResult): string
  {
    "*" + Nuthin(rr) + Strings.Join(Pieces(rr), "+") + "*" + Tail(rr)
  }

  function Head(rr: RollResult): string
  {
    SpecString(rr.spec) + "->"
  }

  /** The compact result of `roll/format.go`, with its crit marks. */
  function CompactBody(rr: RollResult): string
  {
    if rr.isCrit then "**" + Strconv.IntToString(rr.result) + " (Crit!)**"
    else if rr.isCritFail then "**" + Strconv.IntToString(rr.result) + " (Crit-Fail!)**"
    else "**" + Strconv.IntToString(rr.result) + "**"
  }

  /** The compact result of `roll/roll.go`, which has no crit marks. */
  function LegacyCompactBody(rr: RollResult): string
  {
    "**" + Strconv.IntToString(rr.result) + "**"
  }

  /** `RollResult.String` of `roll/format.go`. */
  function ResultText(rr: RollResult): string
  {
    Head(rr) + (if IsCompact(rr) then CompactBody(rr) else ExpandedBody(rr))
  }

  /** `RollResult.String` of `roll/roll.go`. */
  function LegacyResultText(rr: RollResult): string
  {
    Head(rr) + (if IsCompact(rr) then LegacyCompactBody(rr) else ExpandedBody(rr))
  }

  /** The part of the two `RollResult.String` methods they share: it appends
      the expanded form, piece by piece, to the slice `s0`. */
  method AppendExpanded(rr: RollResult, s0: seq<string>) returns (s: seq<string>)
    ensures Strings.Join(s, "") == Strings.Join(s0, "") + ExpandedBody(rr)
  {
    s := AppendOpening(rr, s0);
    s := AppendRolls(rr, s);
    s := AppendClosing(rr, s);
    Regroup(Strings.Join(s0, ""), "*", Nuthin(rr), Strings.Join(Pieces(rr), "+"), "*", Tail(rr));
  }

  lemma Regroup(a: string, b: string, c: string, d: string, e: string, f: string)
    ensures a + b + c + d + e + f == a + (b + c + d + e + f)
  {
  }

  /** The opening star, and "(nuthin)" when no die was rolled. */
  method AppendOpening(rr: RollResult, s0: seq<string>) returns (s: seq<string>)
    ensures Strings.Join(s, "") == Strings.Join(s0, "") + "*" + Nuthin(rr)
  {
    Strings.ConcatSnoc(s0, "*");
    s := s0 + ["*"];
    if |rr.baseRolls| == 0 {
      Strings.ConcatSnoc(s, "(nuthin)");
      s := s + ["(nuthin)"];
    }
  }

  /** The closing star, the signed modifier unless it is 0, and the result. */
  method AppendClosing(rr: RollResult, s0: seq<string>) returns (s: seq<string>)
    ensures Strings.Join(s, "") == Strings.Join(s0, "") + "*" + Tail(rr)
  {
    ghost var head := Strings.Join(s0, "") + "*";
    Strings.ConcatSnoc(s0, "*");
    s := s0 + ["*"];
    var m := if rr.spec.modifier != 0 then Strconv.SignedString(rr.spec.modifier) else "";
    if rr.spec.modifier != 0 {
      Strings.ConcatSnoc(s, m);
      s := s + [m];
    } else {
      assert head + m == head;
    }
    assert Strings.Join(s, "") == head + m;
    var total := "=**" + Strconv.IntToString(rr.result) + "**";
    Strings.ConcatSnoc(s, total);
    s := s + [total];
    ConcatAssoc(head, m, total);
    assert Tail(rr) == m + total;
  }

  lemma ConcatAssoc(a: string, b: string, c: string)
    ensures (a + b) + c == a + (b + c)
  {
  }

  /** The loop over the base rolls: a "+" before every piece but the first,
      and a stop at the eleventh roll, which is replaced by the count of the
      rolls left. */
  method AppendRolls(rr: RollResult, s0: seq<string>) returns (s: seq<string>)
    ensures Strings.Join(s, "") == Strings.Join(s0, "") + Strings.Join(Pieces(rr), "+")
  {
    var br := rr.baseRolls;
    ghost var head := Strings.Join(s0, "");
    s := s0;
    var i := 0;
    while i < |br|
      invariant i <= |br| && i <= MAX_SHOWN_ROLLS
      invariant Strings.Join(s, "") == head + Strings.Join(Shown(rr)[..i], "+")
    {
      ghost var before := s;
      if i > 0 {
        s := s + ["+"];
      }
      if i >= MAX_SHOWN_ROLLS {
        var omitted := Omitted(|br| - i);
        s := s + [omitted];
        OmittedStep(rr, before, s, head);
        break;
      }
      var piece := Label(rr, br[i]);
      s := s + [piece];
      ShownStep(rr, before, s, head, i);
      i := i + 1;
    }
    if i == |br| {
      AllShown(rr);
    }
  }

  /** Appending the label of roll `i`, after a "+" unless it is the first,
      extends the joined labels by one. */
  lemma ShownStep(rr: RollResult, s: seq<string>, s': seq<string>, head: string, i: nat)
    requires i < ShownCount(rr)
    requires Strings.Join(s, "") == head + Strings.Join(Shown(rr)[..i], "+")
    requires var p := Label(rr, rr.baseRolls[i]);
             s' == if i > 0 then s + ["+"] + [p] else s + [p]
    ensures Strings.Join(s', "") == head + Strings.Join(Shown(rr)[..i + 1], "+")
  {
    var shown := Shown(rr);
    var p := Label(rr, rr.baseRolls[i]);
    assert shown[..i + 1] == shown[..i] + [p];
    if i > 0 {
      AppendAfterPlus(s, head, shown[..i], p);
    } else {
      AppendFirst(s, head, p);
    }
  }

  /** After the tenth roll, the count of the rolls left completes the pieces. */
  lemma OmittedStep(rr: RollResult, s: seq<string>, s': seq<string>, head: string)
    requires |rr.baseRolls| > MAX_SHOWN_ROLLS
    requires Strings.Join(s, "") == head + Strings.Join(Shown(rr)[..MAX_SHOWN_ROLLS], "+")
    requires s' == s + ["+"] + [Omitted(|rr.baseRolls| - MAX_SHOWN_ROLLS)]
    ensures Strings.Join(s', "") == head + Strings.Join(Pieces(rr), "+")
  {
    var shown := Shown(rr);
    var omitted := Omitted(|rr.baseRolls| - MAX_SHOWN_ROLLS);
    assert |shown| == MAX_SHOWN_ROLLS;
    assert shown[..MAX_SHOWN_ROLLS] == shown;
    assert Pieces(rr) == shown + [omitted];
    AppendAfterPlus(s, head, shown, omitted);
  }

  /** With ten rolls or fewer, the pieces are the labels of them all. */
  lemma AllShown(rr: RollResult)
    requires |rr.baseRolls| <= MAX_SHOWN_ROLLS
    ensures Shown(rr)[..|rr.baseRolls|] == Pieces(rr)
  {
  }

  /** The first piece goes in without a "+". */
  lemma AppendFirst(s: seq<string>, head: string, p: string)
    requires Strings.Join(s, "") == head
    ensures Strings.Join(s + [p], "") == head + Strings.Join([p], "+")
  {
    Strings.ConcatSnoc(s, p);
  }

  /** Every later piece goes in after a "+". */
  lemma AppendAfterPlus(s: seq<string>, head: string, prefix: seq<string>, p: string)
    requires prefix != []
    requires Strings.Join(s, "") == head + Strings.Join(prefix, "+")
    ensures Strings.Join(s + ["+"] + [p], "") == head + Strings.Join(prefix + [p], "+")
  {
    Strings.JoinSnoc(prefix, p, "+");
    Strings.ConcatSnoc(s, "+");
    Strings.ConcatSnoc(s + ["+"], p);
    RegroupFour(head, Strings.Join(prefix, "+"), "+", p);
  }

  lemma RegroupFour(a: string, b: string, c: string, d: string)
    ensures a + b + c + d == a + (b + c + d)
  {
  }

  /** `RollResult.String` of `roll/format.go`: the clause, "->", then the
      compact or the expanded form. */
  method ResultString(rr: RollResult) returns (text: string)
    ensures text == ResultText(rr)
  {
    var s := [SpecString(rr.spec), "->"];
    assert Strings.Join(s, "") == Head(rr) by { Strings.ConcatSnoc([SpecString(rr.spec)], "->"); }
    if |rr.baseRolls| == 1 && rr.spec.modifier == 0 {
      var body := if rr.isCrit then "**" + Strconv.IntToString(rr.result) + " (Crit!)**"
                  else if rr.isCritFail then "**" + Strconv.IntToString(rr.result) + " (Crit-Fail!)**"
                  else "**" + Strconv.IntToString(rr.result) + "**";
      Strings.ConcatSnoc(s, body);
      s := s + [body];
      return Strings.Join(s, "");
    }
    s := AppendExpanded(rr, s);
    return Strings.Join(s, "");
  }

  /** `RollResult.String` of `roll/roll.go`. */
  method LegacyResultString(rr: RollResult) returns (text: string)
    ensures text == LegacyResultText(rr)
  {
    var s := [SpecString(rr.spec), "->"];
    assert Strings.Join(s, "") == Head(rr) by { Strings.ConcatSnoc([SpecString(rr.spec)], "->"); }
    if |rr.baseRolls| == 1 && rr.spec.modifier == 0 {
      var body := "**" + Strconv.IntToString(rr.result) + "**";
      Strings.ConcatSnoc(s, body);
      s := s + [body];
      return Strings.Join(s, "");
    }
    s := AppendExpanded(rr, s);
    return Strings.Join(s, "");
  }

  /** Several results are joined with ", " and followed by the total; a single
      result stands alone. */
  function Combine(texts: seq<string>, total: int): string
  {
    if |texts| == 1 then texts[0]
    else Strings.Join(texts, ", ") + " Total=**" + Strconv.IntToString(total) + "**"
  }

  /** The texts of some results, in order. */
  function Texts(rs: seq<RollResult>): (ts: seq<string>)
    ensures |ts| == |rs|
  {
    if rs == [] then [] else Texts(rs[..|rs| - 1]) + [ResultText(rs[|rs| - 1])]
  }

  /** The older texts of some results, in order. */
  function LegacyTexts(rs: seq<RollResult>): (ts: seq<string>)
    ensures |ts| == |rs|
  {
    if rs == [] then [] else LegacyTexts(rs[..|rs| - 1]) + [LegacyResultText(rs[|rs| - 1])]
  }

  lemma TextsStep(rs: seq<RollResult>, i: nat)
    requires i < |rs|
    ensures Texts(rs[..i + 1]) == Texts(rs[..i]) + [ResultText(rs[i])]
    ensures LegacyTexts(rs[..i + 1]) == LegacyTexts(rs[..i]) + [LegacyResultText(rs[i])]
  {
    assert rs[..i + 1][..i] == rs[..i];
  }

  /** `RollResponse.String` of `roll/format.go`: a troll reply is given as it
      is and the results are not shown. */
  function ResponseText(resp: RollResponse): string
  {
    if resp.trollResponse != "" then resp.trollResponse else Combine(Texts(resp.results), resp.total)
  }

  /** `PlayerRollResponse.String` of `roll/roll.go`: a troll without a message
      gets the default taunt. */
  function PlayerResponseText(pr: PlayerRollResponse): string
  {
    if pr.isTroll then (if pr.trollMsg != "" then pr.trollMsg else "lol, nice try")
    else Combine(LegacyTexts(pr.rolls), pr.total)
  }

  /** `RollResponse.String`: renders every result in turn. */
  method ResponseString(resp: RollResponse) returns (text: string)
    ensures text == ResponseText(resp)
  {
    if resp.trollResponse != "" {
      return resp.trollResponse;
    }
    var ss: seq<string> := [];
    for i := 0 to |resp.results|
      invariant ss == Texts(resp.results[..i])
    {
      var t := ResultString(resp.results[i]);
      TextsStep(resp.results, i);
      ss := ss + [t];
    }
    assert resp.results[..|resp.results|] == resp.results;
    return Combine(ss, resp.total);
  }

  /** `PlayerRollResponse.String`: renders every roll in turn. */
  method PlayerResponseString(pr: PlayerRollResponse) returns (text: string)
    ensures text == PlayerResponseText(pr)
  {
    if pr.isTroll {
      if pr.trollMsg != "" {
        return pr.trollMsg;
      }
      return "lol, nice try";
    }
    var ss: seq<string> := [];
    for i := 0 to |pr.rolls|
      invariant ss == LegacyTexts(pr.rolls[..i])
    {
      var t := LegacyResultString(pr.rolls[i]);
      TextsStep(pr.rolls, i);
      ss := ss + [t];
    }
    assert pr.rolls[..|pr.rolls|] == pr.rolls;
    return Combine(ss, pr.total);
  }

  /** The expanded form starts with a single star: right after it comes
      "(nuthin)" or a roll, never a second star. */
  lemma ExpandedStartsWithOneStar(rr: RollResult)
    ensures |ExpandedBody(rr)| > 1 && ExpandedBody(rr)[0] == '*' && ExpandedBody(rr)[1] != '*'
  {
    var b := ExpandedBody(rr);
    if rr.baseRolls != [] {
      var ps := Pieces(rr);
      assert ps[0] == Label(rr, rr.baseRolls[0]);
      var n := Strconv.IntToString(rr.baseRolls[0]);
      assert ps[0][0] == n[0];
      Strings.JoinStartsWithFirst(ps, "+");
      var j := Strings.Join(ps, "+");
      assert j[0] == ps[0][0];
      assert b[1] == j[0];
      Strconv.IntToStringDigits(rr.baseRolls[0]);
      assert n[0] == '-' || Strconv.IsDigit(n[0]);
    }
  }

  /** A result is written in its compact form, the result in bold right after
      the arrow, exactly when it is one die with no modifier. */
  lemma CompactFormIff(rr: RollResult)
    ensures Strings.HasPrefix(ResultText(rr), Head(rr) + "**") <==> IsCompact(rr)
    ensures Strings.HasPrefix(LegacyResultText(rr), Head(rr) + "**") <==> IsCompact(rr)
  {
    var h := Head(rr);
    if !IsCompact(rr) {
      ExpandedStartsWithOneStar(rr);
      assert ResultText(rr)[|h| + 1] == ExpandedBody(rr)[1];
      assert LegacyResultText(rr)[|h| + 1] == ExpandedBody(rr)[1];
      assert (h + "**")[|h| + 1] == '*';
    } else {
      assert ResultText(rr)[..|h| + 2] == h + "**";
      assert LegacyResultText(rr)[..|h| + 2] == h + "**";
    }
  }

  /** At most ten rolls are shown and at most one more piece counts the rest;
      with more than ten rolls that piece comes right after the tenth. */
  lemma AtMostTenShown(rr: RollResult)
    ensures |Pieces(rr)| == if |rr.baseRolls| > MAX_SHOWN_ROLLS then MAX_SHOWN_ROLLS + 1 else |rr.baseRolls|
    ensures forall i :: 0 <= i < |Pieces(rr)| && i < MAX_SHOWN_ROLLS ==> Pieces(rr)[i] == Label(rr, rr.baseRolls[i])
    ensures |rr.baseRolls| > MAX_SHOWN_ROLLS ==>
              Pieces(rr)[MAX_SHOWN_ROLLS] == Omitted(|rr.baseRolls| - MAX_SHOWN_ROLLS)
  {
  }

  /** The compact form marks a crit before a crit-fail (both hold only on a
      one-sided die) and shows the bare result otherwise; the older form marks
      neither. */
  lemma CompactMarks(rr: RollResult)
    requires IsCompact(rr)
    ensures rr.isCrit ==> ResultText(rr) == Head(rr) + ("**" + Strconv.IntToString(rr.result) + " (Crit!)**")
    ensures !rr.isCrit && rr.isCritFail ==> ResultText(rr) == Head(rr) + ("**" + Strconv.IntToString(rr.result) + " (Crit-Fail!)**")
    ensures !rr.isCrit && !rr.isCritFail ==> ResultText(rr) == Head(rr) + ("**" + Strconv.IntToString(rr.result) + "**")
    ensures LegacyResultText(rr) == Head(rr) + ("**" + Strconv.IntToString(rr.result) + "**")
  {
  }

  /** With no dice rolled the expanded form reads "(nuthin)" between the stars. */
  lemma NothingRolled(rr: RollResult)
    requires rr.baseRolls == []
    ensures ExpandedBody(rr) == "*(nuthin)*" + Tail(rr)
  {
    assert Pieces(rr) == [];
  }

  /** The total is never left out, however many rolls are: the expanded form
      always ends with the result in bold. */
  lemma TotalNeverTruncated(rr: RollResult)
    ensures var b := ExpandedBody(rr);
            var t := "=**" + Strconv.IntToString(rr.result) + "**";
            |t| <= |b| && b[|b| - |t|..] == t
  {
  }

  /** The example of the expanded form: 3d6+2 rolling 4, 5 and 6. */
  lemma ExpandedExample()
    ensures ResultText(RollResult(RollSpec(3, 6, 2), 17, [4, 5, 6], false, false)) == "3d6+2->*4+5+6*+2=**17**"
  {
    var rr := RollResult(RollSpec(3, 6, 2), 17, [4, 5, 6], false, false);
    ExamplePieces(rr);
    ExampleSpec(rr.spec);
    ExampleTail(rr);
  }

  lemma ExampleSpec(spec: RollSpec)
    requires spec == RollSpec(3, 6, 2)
    ensures SpecString(spec) == "3d6+2"
  {
    assert Strconv.IntToString(3) == "3" && Strconv.IntToString(6) == "6" && Strconv.SignedString(2) == "+2";
  }

  lemma ExampleTail(rr: RollResult)
    requires rr.spec.modifier == 2 && rr.result == 17
    ensures Tail(rr) == "+2=**17**"
  {
    assert Strconv.SignedString(2) == "+2";
    assert Strconv.IntToString(17) == "17" by {
      assert Strconv.NatToString(17) == Strconv.NatToString(1) + [Strconv.DigitChar(7)];
    }
  }

  lemma ExamplePieces(rr: RollResult)
    requires rr.baseRolls == [4, 5, 6] && !rr.isCrit && !rr.isCritFail
    ensures Strings.Join(Pieces(rr), "+") == "4+5+6"
  {
    assert Strconv.IntToString(4) == "4" && Strconv.IntToString(5) == "5" && Strconv.IntToString(6) == "6";
    assert Pieces(rr) == ["4", "5", "6"];
    assert ["4", "5", "6"][..2] == ["4", "5"];
    assert ["4", "5"][..1] == ["4"];
  }
}
