/** The character sheet of `player/charsheet.go`: the six ability scores taken
    from a D&D Beyond character record, racial and class bonuses added, hit
    points from the constitution modifier, and the sheet's text. */
module CharSheet {
  import opened Wrappers
  import Strconv
  import Strings

  /** Go's `/` on `int`: the quotient truncated toward zero. */
  function TruncDiv(a: int, b: int): (q: int)
    requires b != 0
    ensures a >= 0 && b > 0 ==> q == a / b
    ensures -a >= 0 && b > 0 ==> q == -((-a) / b)
    ensures b > 0 && a >= 0 ==> q >= 0 && q * b <= a < q * b + b
    ensures b > 0 && a < 0 ==> q <= 0 && q * b - b < a <= q * b
  {
    if (a >= 0) == (b > 0) then
      (if a >= 0 then a else -a) / (if b > 0 then b else -b)
    else
      -((if a >= 0 then a else -a) / (if b > 0 then b else -b))
  }

  /** `statMod`: half of the distance from 10, rounded down, computed with
      truncating division on both sides of 10. */
  function StatMod(stat: int): (m: int)
    ensures 2 * m <= stat - 10 < 2 * m + 2
  {
    var base := stat - 10;
    if base > 0 then TruncDiv(base, 2) else TruncDiv(base - 1, 2)
  }

  /** The ability modifier is the floor of (stat - 10) / 2, so it rises by one
      every two points, and 10 and 11 both give 0. */
  lemma StatModIsFloor(stat: int)
    ensures StatMod(stat) == (stat - 10) / 2
    ensures StatMod(stat + 2) == StatMod(stat) + 1
  {
  }

  /** The modifier the hit points use: `(Con - 10) / 2`, truncated. */
  function ConMod(con: int): (m: int)
    ensures con >= 10 ==> 2 * m <= con - 10 < 2 * m + 2
    ensures con < 10 ==> 2 * m - 2 < con - 10 <= 2 * m
  {
    TruncDiv(con - 10, 2)
  }

  /** The two modifiers agree except on an odd constitution below 10, where the
      hit point one is one higher (Con 9: 0 for hit points, -1 on the sheet). */
  lemma ConModVersusStatMod(con: int)
    ensures ConMod(con) == StatMod(con) <==> con >= 10 || (con - 10) % 2 == 0
    ensures con < 10 && (con - 10) % 2 != 0 ==> ConMod(con) == StatMod(con) + 1
  {
  }

  /** `fmtStat`: the score, then its modifier with an explicit sign, in bold
      and parentheses, as `%d(**%+d**)`. */
  function FmtStat(stat: int): (s: string)
    ensures |s| > 6 && s[|s| - 3..] == "**)"
  {
    Strconv.IntToString(stat) + "(**" + Strconv.SignedString(StatMod(stat)) + "**)"
  }

  /** The rendered score and modifier read back as the numbers they show, and
      the modifier always carries its sign, `+` for zero too. */
  lemma FmtStatReadsBack(stat: int)
    requires Strconv.MIN_INT64 <= stat <= Strconv.MAX_INT64
    ensures exists n, m :: FmtStat(stat) == n + "(**" + m + "**)"
                           && Strconv.ParseInt(n) == Some(stat)
                           && Strconv.ParseInt(m) == Some(StatMod(stat))
                           && m != [] && m[0] == (if StatMod(stat) < 0 then '-' else '+')
  {
    Strconv.ParseIntToString(stat);
    Strconv.ParseSignedString(StatMod(stat));
    var n, m := Strconv.IntToString(stat), Strconv.SignedString(StatMod(stat));
    assert FmtStat(stat) == n + "(**" + m + "**)";
  }

  /** `PlayerStats`: one ability score of the record, by ID 1 to 6. */
  datatype PlayerStats = PlayerStats(id: int, value: int)

  /** `Modifier`: a bonus; only its sub-type and value are read. */
  datatype Modifier = Modifier(subType: string, value: int)

  /** `PlayerClass`: a class level and the class's name. */
  datatype PlayerClass = PlayerClass(level: int, name: string)

  /** `Modifiers`: the racial bonuses and the class bonuses. */
  datatype Modifiers = Modifiers(race: seq<Modifier>, fromClass: seq<Modifier>)

  /** `DNDBeyondJSON`: the fields of the character record the sheet reads. */
  datatype DNDBeyondJSON = DNDBeyondJSON(name: string, baseHitPoints: int, removedHitPoints: int,
                                         stats: seq<PlayerStats>, modifiers: Modifiers, classes: seq<PlayerClass>)

  /** The six ability scores, in the order the sheet lists them. */
  datatype Abilities = Abilities(str: int, dex: int, con: int, intel: int, wis: int, cha: int)

  /** `CharacterSheet`. */
  datatype CharacterSheet = CharacterSheet(playerName: string, className: string, level: int,
                                           currentHP: int, totalHP: int, abilities: Abilities)

  /** The value the stat map holds for `id` once every stat is stored, a later
      stat with the same ID replacing an earlier one; 0 when none has it. */
  function StatValue(stats: seq<PlayerStats>, id: int): int
  {
    if stats == [] then 0
    else if stats[|stats| - 1].id == id then stats[|stats| - 1].value
    else StatValue(stats[..|stats| - 1], id)
  }

  /** Stat `i` has ID `id` and no later stat has it. */
  predicate LastWithId(stats: seq<PlayerStats>, i: int, id: int)
  {
    0 <= i < |stats| && stats[i].id == id && forall j :: i < j < |stats| ==> stats[j].id != id
  }

  /** A score is the value of the last stat with its ID. */
  lemma StatValueIsLast(stats: seq<PlayerStats>, id: int)
    ensures forall i :: LastWithId(stats, i, id) ==> StatValue(stats, id) == stats[i].value
  {
    forall i | LastWithId(stats, i, id)
      ensures StatValue(stats, id) == stats[i].value
    {
      StatValueAt(stats, id, i);
    }
  }

  lemma {:induction false} StatValueAt(stats: seq<PlayerStats>, id: int, i: int)
    requires LastWithId(stats, i, id)
    ensures StatValue(stats, id) == stats[i].value
    decreases |stats|
  {
    var init := stats[..|stats| - 1];
    if i < |stats| - 1 {
      assert stats[|stats| - 1].id != id;
      assert LastWithId(init, i, id) by {
        assert forall j :: i < j < |init| ==> init[j] == stats[j];
      }
      StatValueAt(init, id, i);
    }
  }

  /** A score is 0 when no stat has its ID. */
  lemma {:induction false} StatValueAbsent(stats: seq<PlayerStats>, id: int)
    requires forall i :: 0 <= i < |stats| ==> stats[i].id != id
    ensures StatValue(stats, id) == 0
    decreases |stats|
  {
    if stats != [] {
      var init := stats[..|stats| - 1];
      assert forall i :: 0 <= i < |init| ==> init[i] == stats[i];
      StatValueAbsent(init, id);
    }
  }

  /** The sum of the values of the modifiers of sub-type `subType`. */
  function Bonus(mods: seq<Modifier>, subType: string): int
  {
    if mods == [] then 0
    else Bonus(mods[..|mods| - 1], subType) + (if mods[|mods| - 1].subType == subType then mods[|mods| - 1].value else 0)
  }

  /** Racial and class bonuses add up separately. */
  lemma {:induction false} BonusAppend(a: seq<Modifier>, b: seq<Modifier>, subType: string)
    ensures Bonus(a + b, subType) == Bonus(a, subType) + Bonus(b, subType)
    decreases |b|
  {
    if b != [] {
      var init := b[..|b| - 1];
      assert (a + b)[..|a + b| - 1] == a + init;
      BonusAppend(a, init, subType);
    } else {
      assert a + b == a;
    }
  }

  /** A sub-type that no modifier has adds nothing. */
  lemma {:induction false} BonusAbsent(mods: seq<Modifier>, subType: string)
    requires forall i :: 0 <= i < |mods| ==> mods[i].subType != subType
    ensures Bonus(mods, subType) == 0
    decreases |mods|
  {
    if mods != [] {
      var init := mods[..|mods| - 1];
      assert forall i :: 0 <= i < |init| ==> init[i] == mods[i];
      BonusAbsent(init, subType);
    }
  }

  const STR_SCORE: string := "strength-score"
  const DEX_SCORE: string := "dexterity-score"
  const CON_SCORE: string := "constitution-score"
  const INT_SCORE: string := "intelligence-score"
  const WIS_SCORE: string := "wisdom-score"
  const CHA_SCORE: string := "charisma-score"

  /** The scores after the stats are stored and the bonuses of `mods` added. */
  function ScoresOf(stats: seq<PlayerStats>, mods: seq<Modifier>): Abilities
  {
    Abilities(StatValue(stats, 1) + Bonus(mods, STR_SCORE), StatValue(stats, 2) + Bonus(mods, DEX_SCORE),
              StatValue(stats, 3) + Bonus(mods, CON_SCORE), StatValue(stats, 4) + Bonus(mods, INT_SCORE),
              StatValue(stats, 5) + Bonus(mods, WIS_SCORE), StatValue(stats, 6) + Bonus(mods, CHA_SCORE))
  }

  /** The sheet `newCharacterSheet` builds from a record: the first class (none:
      "" and level 0), the scores with racial then class bonuses, and hit points
      from the modified constitution. */
  function SheetOf(p: DNDBeyondJSON): CharacterSheet
  {
    var pc := if |p.classes| > 0 then p.classes[0] else PlayerClass(0, "");
    var ab := ScoresOf(p.stats, p.modifiers.race + p.modifiers.fromClass);
    var hp := p.baseHitPoints + ConMod(ab.con) * pc.level;
    CharacterSheet(p.name, pc.name, pc.level, hp - p.removedHitPoints, hp, ab)
  }

  /** Stores every stat in a map by ID. */
  method StatMap(stats: seq<PlayerStats>) returns (statmap: map<int, int>)
    ensures forall id :: id in statmap ==> statmap[id] == StatValue(stats, id)
    ensures forall id :: id !in statmap ==> StatValue(stats, id) == 0
  {
    statmap := map[];
    for i := 0 to |stats|
      invariant forall id :: id in statmap ==> statmap[id] == StatValue(stats[..i], id)
      invariant forall id :: id !in statmap ==> StatValue(stats[..i], id) == 0
    {
      assert stats[..i + 1][..i] == stats[..i];
      statmap := statmap[stats[i].id := stats[i].value];
    }
    assert stats[..|stats|] == stats;
  }

  /** The map's value for an ID, 0 when it has none, as Go's map index gives. */
  function Lookup(m: map<int, int>, id: int): int
  {
    if id in m then m[id] else 0
  }

  /** Adds each modifier's value to the score its sub-type names, in order. */
  method ApplyModifiers(start: Abilities, mods: seq<Modifier>) returns (ab: Abilities)
    ensures ab == Abilities(start.str + Bonus(mods, STR_SCORE), start.dex + Bonus(mods, DEX_SCORE),
                            start.con + Bonus(mods, CON_SCORE), start.intel + Bonus(mods, INT_SCORE),
                            start.wis + Bonus(mods, WIS_SCORE), start.cha + Bonus(mods, CHA_SCORE))
  {
    ab := start;
    for i := 0 to |mods|
      invariant ab == Abilities(start.str + Bonus(mods[..i], STR_SCORE), start.dex + Bonus(mods[..i], DEX_SCORE),
                                start.con + Bonus(mods[..i], CON_SCORE), start.intel + Bonus(mods[..i], INT_SCORE),
                                start.wis + Bonus(mods[..i], WIS_SCORE), start.cha + Bonus(mods[..i], CHA_SCORE))
    {
      assert mods[..i + 1][..i] == mods[..i];
      var mod := mods[i];
      if mod.subType == STR_SCORE {
        ab := ab.(str := ab.str + mod.value);
      } else if mod.subType == DEX_SCORE {
        ab := ab.(dex := ab.dex + mod.value);
      } else if mod.subType == CON_SCORE {
        ab := ab.(con := ab.con + mod.value);
      } else if mod.subType == INT_SCORE {
        ab := ab.(intel := ab.intel + mod.value);
      } else if mod.subType == WIS_SCORE {
        ab := ab.(wis := ab.wis + mod.value);
      } else if mod.subType == CHA_SCORE {
        ab := ab.(cha := ab.cha + mod.value);
      }
    }
    assert mods[..|mods|] == mods;
  }

  /** `newCharacterSheet`. */
  method NewCharacterSheet(p: DNDBeyondJSON) returns (cs: CharacterSheet)
    ensures cs == SheetOf(p)
  {
    var statmap := StatMap(p.stats);
    var pc := PlayerClass(0, "");
    if |p.classes| > 0 {
      pc := p.classes[0];
    }
    var start := Abilities(Lookup(statmap, 1), Lookup(statmap, 2), Lookup(statmap, 3),
                           Lookup(statmap, 4), Lookup(statmap, 5), Lookup(statmap, 6));
    var ab := ApplyModifiers(start, p.modifiers.race + p.modifiers.fromClass);
    var hp := p.baseHitPoints;
    var conMod := TruncDiv(ab.con - 10, 2);
    hp := hp + conMod * pc.level;
    cs := CharacterSheet(p.name, pc.name, pc.level, hp - p.removedHitPoints, hp, ab);
  }

  /** The hit points: the current ones are the total less the damage taken, and
      the total is the base plus the constitution modifier once per level;
      without a class the total is the base. */
  lemma HitPoints(p: DNDBeyondJSON)
    ensures var cs := SheetOf(p);
            && cs.currentHP == cs.totalHP - p.removedHitPoints
            && cs.totalHP == p.baseHitPoints + ConMod(cs.abilities.con) * cs.level
            && (p.classes == [] ==> cs.className == "" && cs.level == 0 && cs.totalHP == p.baseHitPoints)
            && (p.classes != [] ==> cs.className == p.classes[0].name && cs.level == p.classes[0].level)
  {
  }

  /** Each score is its stat plus the racial and the class bonuses of its sub-type. */
  lemma ScoresAddBonuses(p: DNDBeyondJSON)
    ensures var ab := SheetOf(p).abilities;
            var race, fromClass := p.modifiers.race, p.modifiers.fromClass;
            && ab.str == StatValue(p.stats, 1) + Bonus(race, STR_SCORE) + Bonus(fromClass, STR_SCORE)
            && ab.dex == StatValue(p.stats, 2) + Bonus(race, DEX_SCORE) + Bonus(fromClass, DEX_SCORE)
            && ab.con == StatValue(p.stats, 3) + Bonus(race, CON_SCORE) + Bonus(fromClass, CON_SCORE)
            && ab.intel == StatValue(p.stats, 4) + Bonus(race, INT_SCORE) + Bonus(fromClass, INT_SCORE)
            && ab.wis == StatValue(p.stats, 5) + Bonus(race, WIS_SCORE) + Bonus(fromClass, WIS_SCORE)
            && ab.cha == StatValue(p.stats, 6) + Bonus(race, CHA_SCORE) + Bonus(fromClass, CHA_SCORE)
  {
    BonusAppend(p.modifiers.race, p.modifiers.fromClass, STR_SCORE);
    BonusAppend(p.modifiers.race, p.modifiers.fromClass, DEX_SCORE);
    BonusAppend(p.modifiers.race, p.modifiers.fromClass, CON_SCORE);
    BonusAppend(p.modifiers.race, p.modifiers.fromClass, INT_SCORE);
    BonusAppend(p.modifiers.race, p.modifiers.fromClass, WIS_SCORE);
    BonusAppend(p.modifiers.race, p.modifiers.fromClass, CHA_SCORE);
  }

  /** A modifier of any other sub-type changes no score. */
  lemma OtherModifiersIgnored(stats: seq<PlayerStats>, mods: seq<Modifier>, m: Modifier)
    requires m.subType !in {STR_SCORE, DEX_SCORE, CON_SCORE, INT_SCORE, WIS_SCORE, CHA_SCORE}
    ensures ScoresOf(stats, mods + [m]) == ScoresOf(stats, mods)
  {
    assert (mods + [m])[..|mods|] == mods;
  }

  /** `CharacterSheet.String`: a heading line with name, level, class and hit
      points, then the six scores. */
  function SheetString(cs: CharacterSheet): (s: string)
    ensures Strings.HasPrefix(s, "**" + cs.playerName + ":** Level ")
  {
    var intro := "**" + cs.playerName + ":** Level ";
    assert (intro + HeadingRest(cs) + StatsLine(cs.abilities))[..|intro|] == intro;
    intro + HeadingRest(cs) + StatsLine(cs.abilities)
  }

  /** The heading line after "Level ": level, class and hit points. */
  function HeadingRest(cs: CharacterSheet): string
  {
    Strconv.IntToString(cs.level) + " " + cs.className + ", "
    + Strconv.IntToString(cs.currentHP) + "/" + Strconv.IntToString(cs.totalHP) + " HP\n"
  }

  /** The line of the six scores. */
  function StatsLine(ab: Abilities): string
  {
    "Str:" + FmtStat(ab.str) + " Dex:" + FmtStat(ab.dex) + " Con:" + FmtStat(ab.con)
    + " Int:" + FmtStat(ab.intel) + " Wis:" + FmtStat(ab.wis) + " Cha:" + FmtStat(ab.cha)
  }

  /** Scores of 9, 10 and 15 render with modifiers -1, +0 and +2. */
  lemma FmtStatExamples()
    ensures FmtStat(9) == "9(**-1**)"
    ensures FmtStat(10) == "10(**+0**)"
    ensures FmtStat(15) == "15(**+2**)"
  {
    FmtStatNine();
    FmtStatTen();
    FmtStatFifteen();
  }

  lemma FmtStatNine()
    ensures FmtStat(9) == "9(**-1**)"
  {
    assert StatMod(9) == -1;
    assert Strconv.IntToString(9) == "9" && Strconv.SignedString(-1) == "-1";
  }

  lemma FmtStatTen()
    ensures FmtStat(10) == "10(**+0**)"
  {
    assert StatMod(10) == 0;
    assert Strconv.IntToString(10) == "10" by {
      assert Strconv.NatToString(10) == Strconv.NatToString(1) + [Strconv.DigitChar(0)];
    }
    assert Strconv.SignedString(0) == "+0";
  }

  lemma FmtStatFifteen()
    ensures FmtStat(15) == "15(**+2**)"
  {
    assert StatMod(15) == 2;
    assert Strconv.IntToString(15) == "15" by {
      assert Strconv.NatToString(15) == Strconv.NatToString(1) + [Strconv.DigitChar(5)];
    }
    assert Strconv.SignedString(2) == "+2";
  }
}
