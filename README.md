# dicebae in Dafny

A model of the core of dicebae, a Discord dice bot written in Go, with proofs
about it. The bot reads free text such as `2d6+3 and d20`. It finds every dice
clause with one regular expression and parses each clause into a multiplier, a
die and a modifier. A clause outside fixed limits makes the request a "troll",
which the bot answers with a taunt. Otherwise it rolls the dice and renders the
result in a compact or an expanded form. Every reply the bot sends is kept in an
in-memory history. The history can be searched newest first by handler and by
addressee. A history command lists the latest rolls for each user. A character
sheet command turns a D&D Beyond character record into ability scores, their
modifiers and hit points.

Modules, one per source file, plus shared helpers:

- `Wrappers`: `Option` and `Result`.
- `Strconv`: Go's `strconv.Itoa`, `Atoi` and `ParseInt` in base 10, and `%+d`.
  Numbers are limited to the signed 64-bit range.
- `Seqs`: subsequences, shared by the two history modules and `Strings`.
- `Strings`: `strings.Join`, `HasPrefix`, `HasSuffix`, `TrimSpace(s) == ""`, `ReplaceAll(s, " ", "")`,
  and Go's `<` on strings.
- `Baepi` (`baepi/baepi.go`): the handler records, `Mention` and `Matches`.
- `History` (`history.go`): the class `DiceBae`, which holds the `history` field,
  `FetchHistory` and `AppendToHistory`.
- `RollTypes`: the clause, request, result and response records shared by the
  roll files.
- `RollScan`: the roll pattern `(\d*)\s*[dD](\d+)\s*([+-]\s*\d+)?` and
  `FindAllStringSubmatch`. It is a hand-written leftmost-first scanner, and the
  scanner is proved to agree with the pattern.
- `RollParse` (`roll/parse.go`): the token parsers, the troll classifier and `ParseRollRequest`.
- `LegacyParse`: `ParseRequest` of `roll/roll.go`, with its older troll rules.
- `Roll`: `RollSpec.Roll` and `Roll` of `roll/roll.go`.
- `Format`: the renderers of `roll/format.go`, and their older copies in `roll/roll.go`.
- `RollHistory` (`roll/history.go`): the roll history command.
- `CharSheet` (`player/charsheet.go`): the character sheet.
- `Pipeline`: end-to-end properties. A clause written out by `RollSpec.String`
  is found and parsed back to the same clause.

Go's `rand.Intn` is a parameter. `draws` is the sequence of values it returns,
in the order they are drawn.

Notes on the code as written:

- The history has no capacity bound and never evicts an entry.
- No rule limits the number of clauses in one message.
- `format.go` and `parse.go` use the types `RollRequest`, `RollResult.Request`
  and `RollResponse`, but no source file defines them. The model gives
  `RollRequest.String` the body of `RollSpec.String`, which is identical.
  `RollResponse` holds results, a total and a troll response.

## Model

| member | source | states |
|---|---|---|
| Baepi.Mention | baepi/baepi.go:74-76 | the mention is "<@", the user ID, "> " and the message, in that order, with nothing else |
| Baepi.MentionInjective | baepi/baepi.go:74-76 | the message can be read back from a mention, so different messages to one user give different mentions |
| Baepi.Matches | baepi/baepi.go:78-87 | an entry matches exactly when every non-empty key field equals the entry's handler name or replied-to user ID |
| Baepi.WildcardKeyMatchesAll | baepi/baepi.go:78-87 | the key with both fields empty matches every entry and never dereferences RepliedTo |
| Baepi.NarrowingNeverAddsMatches | baepi/baepi.go:79-86 | filling in a key field can only remove matches |
| Baepi.FriendFilterIgnoresUsername | baepi/baepi.go:82 | the user filter compares IDs only, so renaming the replied-to user changes no match |
| History.DiceBae.constructor | dicebae.go:42 | a new bot starts with an empty history |
| History.DiceBae.FetchHistory | history.go:16-33 | the loop returns the first Clamp(n) matching entries counted from the newest. For a clamped n of zero or less it returns the newest entry if that entry matches |
| History.DiceBae.AppendToHistory | history.go:35-39 | exactly one entry is added at the end and nothing else changes |
| History.FetchEntriesMatch | history.go:23-26 | every fetched entry is in the history and matches the key |
| History.FetchIsNewestFirst | history.go:23-26 | the fetched entries are a subsequence of the history read newest to oldest |
| History.FetchCount | history.go:17-31 | for n >= 1 the fetch returns min(n, 1000, number of matching entries) entries, never more than 1000 |
| History.FetchEmptyHistory | history.go:22-33 | an empty history fetches nothing, whatever the key and count |
| History.AppendedComesFirst | history.go:35-39 | after an append, the matching entries are the new entry (if it matches) followed by the earlier matching entries |
| History.AppendedIsNewest | history.go:35-39 | a freshly appended matching entry is the first one any later fetch returns |
| RollScan.MatchAt | roll/parse.go:12 | the match picked at a position is an instance of the pattern with every quantifier greedy. When no match is picked, no instance of the pattern starts there |
| RollScan.ScanSound | roll/parse.go:36 | every match found is a greedy instance of the pattern, and the matches are in text order without overlap |
| RollScan.ScanStartsLeftmost | roll/parse.go:36 | no instance of the pattern starts before the first match found. Finding nothing means the text has no instance |
| RollScan.ScanEndsLeftmost | roll/parse.go:36 | no instance of the pattern starts after the end of the last match found |
| RollScan.ScanGapsEmpty | roll/parse.go:36 | no instance of the pattern starts between two consecutive matches found |
| RollScan.FindAllTokens | roll/parse.go:36-41 | there is one submatch triple per match found |
| RollParse.ParseMultiplier | roll/parse.go:107-116 | an empty token means 1. Otherwise the token parses when Atoi accepts it, and the error names the token |
| RollParse.ParseDie | roll/parse.go:118-127 | an empty die token is the missing-die error. Otherwise the token parses when ParseInt accepts it, and the error names the token |
| RollParse.ParseModifier | roll/parse.go:129-139 | a blank token means 0. Otherwise only the ASCII spaces are removed and what is left must be an integer; the error carries the squeezed token |
| RollParse.ModifierSpacesDropped | roll/parse.go:133-134 | "- 12" parses to -12 |
| RollParse.ModifierTabRejected | roll/parse.go:133-134 | "+\t5" is an error, because only spaces are removed and a tab is left in place |
| RollParse.ParseRollTokensResult | roll/parse.go:78-105 | a clause parses exactly when all three tokens parse, and then it holds the three values. A failure keeps the tokens and one to three errors |
| RollParse.Classify | roll/parse.go:48-64 | the verdict is None exactly when the clause is within every limit |
| RollParse.ClassifyVerdicts | roll/parse.go:48-64 | each troll kind names a limit the clause breaks. The dice count is too large exactly when the verdict is "too many dice" |
| RollParse.ClassifyOrder | roll/parse.go:48-64 | the limits are checked in source order, so the first limit broken decides the verdict. An oversized die with an oversized modifier is a sphere |
| RollParse.TrollMessage | roll/parse.go:48-64 | every troll verdict has a non-empty message |
| RollParse.ParseAll | roll/parse.go:36-42 | each match is parsed on its own, in match order |
| RollParse.HasRollRequest | roll/parse.go:26-28 | true exactly when some instance of the roll pattern occurs in the message |
| RollParse.ParseRollRequest | roll/parse.go:31-76 | the loop returns the request its matches define: every parse error when some clause fails, else the clauses and the last troll verdict |
| RollParse.ErrorsEmptyIff | roll/parse.go:42-46 | there are no errors exactly when every clause parsed |
| RollParse.SpecsWhenNoErrors | roll/parse.go:65 | without errors each match gives exactly one clause, troll clauses included |
| RollParse.RequestClauses | roll/parse.go:42-75 | the request fails exactly when some clause fails to parse. On success there is one clause per match, in match order |
| RollParse.LastTrollIsLast | roll/parse.go:48-64 | there is no verdict exactly when all clauses are within bounds. Otherwise the verdict is that of a clause with only in-bounds clauses after it |
| RollParse.TrollVerdict | roll/parse.go:48-75 | a request is a troll exactly when some clause is out of bounds, and its message is that of the last clause out of bounds |
| LegacyParse.TokenCheck | roll/roll.go:135-143 | the token check passes exactly when no token is overlong. Only an overlong die token, with the multiplier token short enough, sets a message |
| LegacyParse.Classify | roll/roll.go:150-175 | the older classifier passes exactly the clauses within every limit |
| LegacyParse.ClassifiersAgree | roll/roll.go:150-175 | the older and the newer classifier flag the same clauses |
| LegacyParse.ParseRequest | roll/roll.go:123-187 | the loop returns the same errors and clauses as the newer parser, with the verdict of the token checks and the older classifier |
| LegacyParse.TrollWhenFlagged | roll/roll.go:128-177 | a request is a troll exactly when some clause has an overlong token or parses to a clause out of bounds |
| LegacyParse.SilentTroll | roll/roll.go:136-143 | an overlong modifier token alone makes a troll with no message |
| LegacyParse.OverlongDie | roll/roll.go:138-140 | a die token over ten characters is a troll even when its value is small, and the message quotes the token as written |
| Roll.Count | roll/roll.go:209 | a clause rolls its multiplier's number of dice, and none when the multiplier is negative |
| Roll.RollDice | roll/roll.go:206-221 | the loop gives one base roll per die, each one more than its draw, and the result is their sum plus the modifier. Crit means a single die on its top face, crit-fail a single die showing 1 |
| Roll.RollBounds | roll/roll.go:209-216 | when the draws the clause reads are values rand.Intn can return, there are exactly Count base rolls in draw order, each in [1, die], and the result less the modifier lies in [Count, Count * die] |
| Roll.NoDiceRoll | roll/roll.go:209-216 | with a multiplier of 0 or less there are no base rolls, the result is the modifier, and there is no crit |
| Roll.CritFlags | roll/roll.go:218-219 | crit exactly when one die rolls its top face, crit-fail exactly when one die rolls 1. Both hold only on a one-sided die |
| Roll.RollAll | roll/roll.go:198-202 | there is one result per clause |
| Roll.RollAllClauses | roll/roll.go:198-202 | each clause is rolled on the draws that follow those of the clauses before it |
| Roll.Roll | roll/roll.go:189-204 | the loop returns the response the request defines: given back unrolled for a troll, otherwise every clause rolled in turn |
| Roll.ResponseShape | roll/roll.go:193-203 | a troll response has total 0, no rolls and the request's message. Otherwise there is one roll per clause, in clause order, and the total is the sum of the results |
| Format.AppendOpening | roll/format.go:36-39 | appends the opening star, then "(nuthin)" when no die was rolled |
| Format.AppendRolls | roll/format.go:40-56 | the loop with its break appends the shown rolls and the omitted count, joined with "+" |
| Format.AppendClosing | roll/format.go:57-63 | appends the closing star, the signed modifier when it is not 0, and the result in bold |
| Format.AppendExpanded | roll/format.go:36-63 | the slice built piece by piece joins to the expanded form |
| Format.ResultString | roll/format.go:21-65 | the text is the clause, an arrow, then the compact form with crit marks or the expanded form |
| Format.LegacyResultString | roll/roll.go:80-117 | as the newer renderer, but the compact form has no crit marks |
| Format.CompactFormIff | roll/format.go:23-34 | the result in bold comes right after the arrow exactly when there is one die and no modifier, in both renderers |
| Format.CompactMarks | roll/format.go:25-32 | a crit is marked "(Crit!)" even when it is also a crit-fail, a crit-fail alone "(Crit-Fail!)", and neither shows the bare result. The older compact form has no mark |
| Format.ExpandedStartsWithOneStar | roll/format.go:36-47 | the expanded form opens with a single star, followed by "(nuthin)" or a roll |
| Format.NothingRolled | roll/format.go:37-39 | with no dice rolled the expanded form reads "*(nuthin)*" followed by the modifier and the total |
| Format.AtMostTenShown | roll/format.go:40-47 | the first ten rolls are shown in order. With more than ten, one more piece counts the rest |
| Format.TotalNeverTruncated | roll/format.go:57-63 | the expanded form always ends with "=**" and the result, however many rolls there are |
| Format.ExpandedExample | roll/format.go:21-65 | 3d6+2 rolling 4, 5 and 6 renders as "3d6+2->*4+5+6*+2=**17**" |
| Format.ResponseString | roll/format.go:67-80 | the loop gives a troll response verbatim, a single result alone, and otherwise the results joined with ", " and the total |
| Format.PlayerResponseString | roll/roll.go:62-78 | a troll without a message gets "lol, nice try", a single roll stands alone, and otherwise the rolls are joined with ", " and followed by the total |
| Pipeline.ScanClause | roll/parse.go:12 | a written clause is exactly one match of the pattern, covering the whole text |
| Pipeline.SpecStringShape | roll/format.go:9-19 | the multiplier is written unless it is 1, then "d" and the die, then the signed modifier unless it is 0, in the shape the pattern matches |
| Pipeline.PiecesParseBack | roll/parse.go:107-139 | each written piece parses back to its number |
| Pipeline.SpecStringRoundTrip | roll/roll.go:223-233 | for a non-negative multiplier and die within 64 bits, the written clause is found as one match that parses back to the same clause |
| Pipeline.SpecStringRequest | roll/parse.go:31-76 | a written clause sent as a message is a request of that one clause. It is a troll exactly when the clause is out of bounds, with the message of the first limit broken |
| Pipeline.RequestRollable | roll/parse.go:48-64 | a request of the newer parser that is not a troll has a positive die wherever it rolls dice, so rand.Intn never panics on it |
| Pipeline.LegacyRequestRollable | roll/roll.go:157-165 | a request of the older parser that is not a troll has a positive die wherever it rolls dice, so rand.Intn never panics on it |
| Pipeline.PlayerReply | roll/roll.go:62-78 | the reply for a rolled request: a troll gets its message or "lol, nice try", a single clause its result alone, and otherwise the text ends with " Total=**", the sum of the clause results, and "**" |
| RollHistory.ShouldSay | roll/history.go:19-21 | true exactly when the message starts with "!" and the hotword |
| RollHistory.RollKeyDefined | roll/history.go:24 | the roll search names no user, so matching never dereferences a nil RepliedTo |
| RollHistory.SplitByFriend | roll/history.go:29-35 | the map has a key for each user some entry replied to, holding that user's entries in fetch order |
| RollHistory.GroupMembers | roll/history.go:29-35 | a user's group holds exactly the entries that replied to that user, each as many times as the history holds it, in fetch order. An entry that replied to nobody is in no group |
| RollHistory.AddresseesMembers | roll/history.go:29-40 | the users listed are exactly those some fetched entry replied to |
| RollHistory.Keys | roll/history.go:37-40 | every map key is collected once, in whatever order the map yields them |
| RollHistory.SortByName | roll/history.go:41-43 | the sorted users are a permutation of the input, in non-decreasing username order |
| RollHistory.OrderUnique | roll/history.go:36-43 | when no two users share a username, only one order of the users is sorted |
| RollHistory.ReplyDeterministic | roll/history.go:36-43 | when usernames are distinct, the reply does not depend on the map's iteration order |
| RollHistory.Header | roll/history.go:47-51 | the long header is used exactly when the cap maxEntries is above 1, however many rolls each user has |
| RollHistory.Take | roll/history.go:55-60 | the loop's break keeps the first maxEntries messages, none when maxEntries is below 1 |
| RollHistory.ShownMessages | roll/history.go:54-60 | the loop with its break collects the first maxEntries reply messages of a group |
| RollHistory.ShownCount | roll/history.go:55-60 | a line shows min(maxEntries, group size) messages, none for a cap below 1, and they are the user's newest replies in order |
| RollHistory.Lines | roll/history.go:52-62 | there is one line per user |
| RollHistory.LinesShowGroups | roll/history.go:52-62 | line i mentions user i and shows that user's group |
| RollHistory.BuildLines | roll/history.go:46-62 | the loop builds the header followed by one line per user, in the sorted order |
| RollHistory.SayWithBae | roll/history.go:23-66 | an empty fetch answers "History of what?". Otherwise the reply is the header and one line per addressee, each listed once and sorted by username, joined with newlines |
| RollHistory.ReplyStartsWithHeader | roll/history.go:46-65 | the reply starts with the header |
| RollHistory.HeaderOnly | roll/history.go:29-65 | when no fetched entry replied to anyone, the reply is the header alone |
| CharSheet.TruncDiv | player/charsheet.go:32-34 | Go's integer division, which truncates toward zero on both signs: for a positive divisor the remainder has the sign of the dividend and is smaller than the divisor |
| CharSheet.StatMod | player/charsheet.go:29-36 | the modifier m satisfies 2m <= stat - 10 < 2m + 2, so it is the floor of half the distance from 10 |
| CharSheet.StatModIsFloor | player/charsheet.go:29-36 | the modifier is (stat - 10) / 2 rounded down, and it rises by one every two points |
| CharSheet.ConMod | player/charsheet.go:90 | the hit point modifier rounds half the distance from 10 toward zero |
| CharSheet.ConModVersusStatMod | player/charsheet.go:90 | the two modifiers agree exactly when Con is at least 10 or even. For an odd Con below 10 the hit point one is one higher |
| CharSheet.FmtStat | player/charsheet.go:25-27 | the text ends with "**)". What comes before it is stated by `FmtStatReadsBack` |
| CharSheet.FmtStatReadsBack | player/charsheet.go:25-27 | the text is a number, "(**", a signed number and "**)". The two numbers parse back to the score and its modifier, and the modifier always starts with its sign, "+" for zero |
| CharSheet.FmtStatExamples | player/charsheet.go:25-36 | 9, 10 and 15 render as "9(**-1**)", "10(**+0**)" and "15(**+2**)" |
| CharSheet.StatMap | player/charsheet.go:50-53 | the map holds, for each ID, the value of the last stat with that ID, and an ID it lacks reads as 0 |
| CharSheet.StatValueIsLast | player/charsheet.go:50-53 | a score is the value of the last stat with its ID, and 0 when no stat has it |
| CharSheet.ApplyModifiers | player/charsheet.go:72-87 | the loop adds to each score the values of the modifiers of its sub-type |
| CharSheet.BonusAppend | player/charsheet.go:72 | the racial and the class bonuses add up separately |
| CharSheet.BonusAbsent | player/charsheet.go:72-87 | a sub-type that no modifier has adds nothing |
| CharSheet.OtherModifiersIgnored | player/charsheet.go:72-87 | a modifier of any other sub-type changes no score |
| CharSheet.ScoresAddBonuses | player/charsheet.go:60-87 | each score is its stat plus the racial and the class bonuses of its sub-type |
| CharSheet.NewCharacterSheet | player/charsheet.go:49-97 | the sheet built step by step is the sheet the record defines |
| CharSheet.HitPoints | player/charsheet.go:55-94 | current hit points are the total less the damage. The total is the base plus the hit point modifier of the bonused Con per level. Class and level come from the first class, "" and 0 without one |
| CharSheet.SheetString | player/charsheet.go:38-47 | the text starts with the bold player name and "Level " |
| Strconv.ParseInt | roll/parse.go:111-122 | a parsed number lies in the signed 64-bit range |
| Strconv.ParseIntToString | roll/format.go:12 | Atoi reads back what Itoa writes, for every 64-bit number |
| Strconv.ParseSignedString | roll/format.go:16 | Atoi reads back what %+d writes, for every 64-bit number |
| Strings.RemoveSpaces | roll/parse.go:133 | no ASCII space is left, and a text without spaces is unchanged |
| Strings.RemoveSpacesKeepsOthers | roll/parse.go:133 | every other character is kept, in order, and the text gets shorter by exactly the number of spaces in it |

## Left out

- Discord I/O, the dispatcher in `handlers.go`, the player handler's HTTP fetch and JSON decoding, logging, and startup: these are I/O and library calls. `handlers.go` is not part of this model.
- Concurrency: discordgo runs handlers concurrently and the history has no lock. The model is sequential.
- Time stamps (`time.Now()` in requests and history entries) and the `LogInfo` call in `FetchHistory`: side effects that no result depends on.
- `HandlerMetadata` of a response: an opaque value the core never reads.
- `rand.Intn`: the draws are a parameter. Callers must pass enough draws. `RollBounds` assumes only that the draws the clause reads lie in [0, die).
- Go's `int` is 64 bits and wraps on overflow. The model's integers are unbounded, so sums, hit points and `Multiplier * Die` bounds do not wrap. Parsing does enforce the 64-bit range, as `Atoi` does.
- Go's regexp engine: replaced by `RollScan`. It is proved to find, at each position, the leftmost and greedy instance of the one pattern the bot uses.
- `Roll.RollDice` requires a positive die for a positive multiplier, because `rand.Intn` panics otherwise. The model does not represent the panic.
- `Roll.Roll` requires every clause of a non-troll request to have that property. The bot rolls the request of the older parser, whose value checks make a die below 2 a troll. `Pipeline.LegacyRequestRollable` proves that such a request meets the requirement, and `Pipeline.RequestRollable` proves the same for the newer parser.
- `History.DiceBae.FetchHistory` requires that every entry whose handler matches has a RepliedTo when the key names a user. Go panics on a nil pointer there. This is slightly stronger than needed, because Go only dereferences entries it reaches before the limit.
- `RollHistory.SortByName`: `sort.Slice` sorts in place and is not stable. The model uses a pure insertion sort, and `SayWithBae` promises only some sorted order of the users. The order among equal usernames is left open, as in Go.
- `RollHistory.SayWithBae` takes no event, because Go's `SayWithBae` never reads it.
- The map iteration order in `roll/history.go` is modelled by an arbitrary choice (`:|`) of the next key.
- `CharSheet.SheetString` states only the start of the text. The rest follows the format string, and `FmtStatReadsBack` covers the scores.
- The player handler's `ShouldSay` and the `PlayerHandler` cache (`player/player.go`) are not part of this model.
