/** The roll history command of `roll/history.go`: the latest roll replies,
    grouped by the user each one answered, users in username order, at most
    `maxEntries` replies per user, newest first. */
module RollHistory {
  import opened Wrappers
  import opened Strings
  import opened Baepi
  import History
  import opened Seqs

  /** `HistoryHandler`: the per-user cap and the word that triggers it. */
  datatype HistoryHandler = HistoryHandler(maxEntries: int, hotword: string)

  /** The search the command runs: roll replies to anyone, at most 100 of them. */
  const ROLL_KEY: BaeHistoKey := BaeHistoKey("", "roll")
  const FETCH_LIMIT: int := 100

  /** `ShouldSay`: the message starts with "!" and the hotword. */
  function ShouldSay(hh: HistoryHandler, e: Baevent): (r: bool)
    ensures r <==> |e.message| > |hh.hotword| && e.message[0] == '!' && e.message[1..|hh.hotword| + 1] == hh.hotword
  {
    HasPrefix(e.message, "!" + hh.hotword)
  }

  /** The key names no user, so matching never reads `RepliedTo`. */
  lemma RollKeyDefined(h: seq<BaeHistoryEntry>)
    ensures History.AllMatchDefined(h, ROLL_KEY)
  {
  }

  /** The entries of `h` that replied to `bf`, in the order of `h`. */
  function Group(h: seq<BaeHistoryEntry>, bf: BaestFriend): seq<BaeHistoryEntry>
  {
    if h == [] then []
    else Group(h[..|h| - 1], bf) + (if h[|h| - 1].repliedTo == Some(bf) then [h[|h| - 1]] else [])
  }

  /** The users that some entry of `h` replied to. */
  function Addressees(h: seq<BaeHistoryEntry>): set<BaestFriend>
  {
    if h == [] then {}
    else Addressees(h[..|h| - 1]) + (if h[|h| - 1].repliedTo.Some? then {h[|h| - 1].repliedTo.value} else {})
  }

  /** A user's group holds exactly the entries that replied to that user, each
      as many times as the history holds it, and keeps their order; an entry
      that replied to nobody is in no group. */
  lemma {:induction false} GroupMembers(h: seq<BaeHistoryEntry>, bf: BaestFriend)
    ensures forall e :: e in Group(h, bf) <==> e in h && e.repliedTo == Some(bf)
    ensures forall e :: multiset(Group(h, bf))[e] == if e.repliedTo == Some(bf) then multiset(h)[e] else 0
    ensures IsSubsequence(Group(h, bf), h)
    decreases |h|
  {
    if h != [] {
      var init := h[..|h| - 1];
      GroupMembers(init, bf);
      forall e ensures e in h <==> e in init || e == h[|h| - 1] {
        assert h == init + [h[|h| - 1]];
      }
      SubsequenceSnoc(Group(init, bf), init, h[|h| - 1], h[|h| - 1].repliedTo == Some(bf));
      assert h == init + [h[|h| - 1]];
    }
    GroupMultiplicity(h, bf);
  }

  /** A matching entry is in the group as often as in the history. */
  lemma {:induction false} GroupMultiplicity(h: seq<BaeHistoryEntry>, bf: BaestFriend)
    ensures forall e :: multiset(Group(h, bf))[e] == if e.repliedTo == Some(bf) then multiset(h)[e] else 0
    decreases |h|
  {
    if h != [] {
      var init := h[..|h| - 1];
      GroupMultiplicity(init, bf);
      assert h == init + [h[|h| - 1]];
      assert multiset(h) == multiset(init) + multiset{h[|h| - 1]};
    }
  }

  /** The addressees are the users some entry replied to. */
  lemma {:induction false} AddresseesMembers(h: seq<BaeHistoryEntry>)
    ensures forall bf :: bf in Addressees(h) <==> exists i :: 0 <= i < |h| && h[i].repliedTo == Some(bf)
    decreases |h|
  {
    if h != [] {
      var init := h[..|h| - 1];
      AddresseesMembers(init);
      forall bf ensures bf in Addressees(h) <==> exists i :: 0 <= i < |h| && h[i].repliedTo == Some(bf) {
        if bf in Addressees(init) {
          var i :| 0 <= i < |init| && init[i].repliedTo == Some(bf);
          assert h[i] == init[i];
        }
        if exists i :: 0 <= i < |h| && h[i].repliedTo == Some(bf) {
          var i :| 0 <= i < |h| && h[i].repliedTo == Some(bf);
          if i < |init| {
            assert init[i] == h[i];
          }
        }
      }
    }
  }

  /** `sort.Slice` by username: usernames never decrease along `s`. */
  predicate SortedByName(s: seq<BaestFriend>)
  {
    forall i, j :: 0 <= i < j < |s| ==> !Less(s[j].username, s[i].username)
  }

  predicate NoDuplicates<T(==)>(s: seq<T>)
  {
    forall i, j :: 0 <= i < j < |s| ==> s[i] != s[j]
  }

  /** Inserts `x` into a list sorted by username, before the first user whose
      name is not less than `x`'s. */
  function Insert(x: BaestFriend, s: seq<BaestFriend>): (r: seq<BaestFriend>)
    requires SortedByName(s)
    ensures SortedByName(r)
    ensures multiset(r) == multiset(s) + multiset{x}
    decreases |s|
  {
    if s == [] then [x]
    else if Less(s[0].username, x.username) then
      var rest := Insert(x, s[1..]);
      assert s == [s[0]] + s[1..];
      InsertAfter(s[0], x, s[1..], rest);
      [s[0]] + rest
    else
      InsertBefore(x, s);
      [x] + s
  }

  lemma InsertAfter(y: BaestFriend, x: BaestFriend, s: seq<BaestFriend>, rest: seq<BaestFriend>)
    requires Less(y.username, x.username) && SortedByName([y] + s) && SortedByName(rest)
    requires multiset(rest) == multiset(s) + multiset{x}
    ensures SortedByName([y] + rest)
  {
    LessAsymmetric(y.username, x.username);
    assert ([y] + s)[0] == y;
    forall z | z in rest ensures !Less(z.username, y.username) {
      assert z in multiset(rest);
      if z != x {
        assert z in multiset(s);
        var i :| 0 <= i < |s| && s[i] == z;
        assert ([y] + s)[i + 1] == z;
      }
    }
    var r := [y] + rest;
    forall i, j | 0 <= i < j < |r| ensures !Less(r[j].username, r[i].username) {
      if i > 0 {
        assert r[i] == rest[i - 1] && r[j] == rest[j - 1];
      } else {
        assert r[j] in rest;
      }
    }
  }

  lemma InsertBefore(x: BaestFriend, s: seq<BaestFriend>)
    requires s != [] && !Less(s[0].username, x.username) && SortedByName(s)
    ensures SortedByName([x] + s)
  {
    var r := [x] + s;
    forall i, j | 0 <= i < j < |r| ensures !Less(r[j].username, r[i].username) {
      if i > 0 {
        assert r[i] == s[i - 1] && r[j] == s[j - 1];
      } else if j > 1 {
        assert r[j] == s[j - 1];
        NotLessTransitive(x.username, s[0].username, s[j - 1].username);
      }
    }
  }

  /** `sort.Slice(bfs, by username)`, as an insertion sort: the result is sorted
      and a permutation of the input. */
  function SortByName(s: seq<BaestFriend>): (r: seq<BaestFriend>)
    ensures SortedByName(r)
    ensures multiset(r) == multiset(s)
    decreases |s|
  {
    if s == [] then []
    else
      assert s == s[..|s| - 1] + [s[|s| - 1]];
      Insert(s[|s| - 1], SortByName(s[..|s| - 1]))
  }

  /** A permutation of a list without duplicates has none either. */
  lemma PermutationNoDuplicates<T>(a: seq<T>, b: seq<T>)
    requires multiset(a) == multiset(b) && NoDuplicates(a)
    ensures NoDuplicates(b)
  {
    forall i, j | 0 <= i < j < |b| ensures b[i] != b[j] {
      if b[i] == b[j] {
        MultiplicityAtLeastTwo(b, i, j);
        MultiplicityAtMostOne(a, b[i]);
      }
    }
  }

  lemma MultiplicityAtLeastTwo<T>(s: seq<T>, i: nat, j: nat)
    requires i < j < |s| && s[i] == s[j]
    ensures multiset(s)[s[i]] >= 2
  {
    var x := s[i];
    assert s == s[..i] + [x] + s[i + 1..j] + [x] + s[j + 1..];
  }

  lemma {:induction false} MultiplicityAtMostOne<T>(s: seq<T>, x: T)
    requires NoDuplicates(s)
    ensures multiset(s)[x] <= 1
    decreases |s|
  {
    if s != [] {
      var init := s[..|s| - 1];
      assert s == init + [s[|s| - 1]];
      MultiplicityAtMostOne(init, x);
      if s[|s| - 1] == x {
        assert x !in init;
      }
    }
  }

  /** The header line: the long title once the cap allows more than one roll
      per user, whether or not any user has that many. */
  function Header(hh: HistoryHandler): (r: string)
    ensures hh.maxEntries > 1 ==> r == "**Roll History (newest --> oldest)**"
    ensures hh.maxEntries <= 1 ==> r == "**Latest Rolls**"
  {
    if hh.maxEntries > 1 then "**Roll History (newest --> oldest)**" else "**Latest Rolls**"
  }

  /** The reply messages of some entries, in their order. */
  function Messages(es: seq<BaeHistoryEntry>): (ms: seq<string>)
    ensures |ms| == |es|
  {
    if es == [] then [] else Messages(es[..|es| - 1]) + [es[|es| - 1].response.message]
  }

  /** The first `n` items, none for `n <= 0`: the loop breaks at index `n`. */
  function Take(ms: seq<string>, n: int): (r: seq<string>)
    ensures |r| == (if n <= 0 then 0 else History.Min(n, |ms|))
    ensures forall i :: 0 <= i < |r| ==> r[i] == ms[i]
  {
    if n <= 0 then [] else ms[..History.Min(n, |ms|)]
  }

  /** A user's line: the mention and the shown replies, each in brackets. */
  function UserLine(maxEntries: int, bf: BaestFriend, group: seq<BaeHistoryEntry>): string
  {
    Mention(bf, "[" + Join(Take(Messages(group), maxEntries), "] [") + "]")
  }

  /** One line per user of `order`, in that order. */
  function Lines(maxEntries: int, h: seq<BaeHistoryEntry>, order: seq<BaestFriend>): (ls: seq<string>)
    ensures |ls| == |order|
  {
    if order == [] then []
    else Lines(maxEntries, h, order[..|order| - 1]) + [UserLine(maxEntries, order[|order| - 1], Group(h, order[|order| - 1]))]
  }

  /** The reply for fetched entries `h` listed in user order `order`. */
  function ReplyText(hh: HistoryHandler, h: seq<BaeHistoryEntry>, order: seq<BaestFriend>): string
  {
    Join([Header(hh)] + Lines(hh.maxEntries, h, order), "\n")
  }

  /** What `order` must be: every addressee once, sorted by username. */
  ghost predicate ValidOrder(h: seq<BaeHistoryEntry>, order: seq<BaestFriend>)
  {
    (forall bf :: bf in order <==> bf in Addressees(h)) && NoDuplicates(order) && SortedByName(order)
  }

  /** The lines a user gets: the newest `maxEntries` of that user's replies. */
  method ShownMessages(group: seq<BaeHistoryEntry>, maxEntries: int) returns (rs: seq<string>)
    ensures rs == Take(Messages(group), maxEntries)
  {
    rs := [];
    for i := 0 to |group|
      invariant |rs| == History.Min(i, if maxEntries <= 0 then 0 else maxEntries)
      invariant forall k :: 0 <= k < |rs| ==> rs[k] == Messages(group)[k]
    {
      if i >= maxEntries {
        break;
      }
      MessagesAt(group, i);
      rs := rs + [group[i].response.message];
    }
  }

  lemma {:induction false} MessagesAt(es: seq<BaeHistoryEntry>, i: nat)
    requires i < |es|
    ensures Messages(es)[i] == es[i].response.message
    decreases |es|
  {
    if i < |es| - 1 {
      MessagesAt(es[..|es| - 1], i);
    }
  }

  /** Splits the fetched entries by the user each replied to. */
  method SplitByFriend(hist: seq<BaeHistoryEntry>) returns (perBF: map<BaestFriend, seq<BaeHistoryEntry>>)
    ensures forall bf :: bf in perBF <==> bf in Addressees(hist)
    ensures forall bf :: bf in perBF ==> perBF[bf] == Group(hist, bf)
  {
    perBF := map[];
    for i := 0 to |hist|
      invariant forall bf :: bf in perBF <==> bf in Addressees(hist[..i])
      invariant forall bf :: bf in perBF ==> perBF[bf] == Group(hist[..i], bf)
    {
      assert hist[..i + 1][..i] == hist[..i];
      var bhe := hist[i];
      if bhe.repliedTo.Some? {
        var id := bhe.repliedTo.value;
        var prev := if id in perBF then perBF[id] else [];
        assert id !in perBF ==> Group(hist[..i], id) == [] by {
          if id !in perBF {
            GroupEmpty(hist[..i], id);
          }
        }
        perBF := perBF[id := prev + [bhe]];
      }
    }
    assert hist[..|hist|] == hist;
  }

  /** A user nobody replied to has an empty group. */
  lemma {:induction false} GroupEmpty(h: seq<BaeHistoryEntry>, bf: BaestFriend)
    requires bf !in Addressees(h)
    ensures Group(h, bf) == []
    decreases |h|
  {
    if h != [] {
      GroupEmpty(h[..|h| - 1], bf);
    }
  }

  /** Collects the keys of a map in whatever order the map yields them. */
  method Keys(perBF: map<BaestFriend, seq<BaeHistoryEntry>>) returns (bfs: seq<BaestFriend>)
    ensures forall bf :: bf in bfs <==> bf in perBF
    ensures NoDuplicates(bfs)
  {
    bfs := [];
    var rest := perBF.Keys;
    while rest != {}
      invariant forall bf :: bf in perBF <==> bf in rest || bf in bfs
      invariant forall bf :: bf in bfs ==> bf !in rest
      invariant rest <= perBF.Keys
      invariant NoDuplicates(bfs)
      decreases |rest|
    {
      var u :| u in rest;
      bfs := bfs + [u];
      rest := rest - {u};
    }
  }

  /** `SayWithBae`: fetches the latest roll replies and lists them per user.
      `order` is the user order the sort produced. */
  method SayWithBae(hh: HistoryHandler, db: History.DiceBae) returns (resp: Baesponse, ghost order: seq<BaestFriend>)
    ensures var hist := History.FetchSpec(db.history, ROLL_KEY, FETCH_LIMIT);
            && (hist == [] ==> resp == Baesponse("History of what?", false))
            && (hist != [] ==> ValidOrder(hist, order) && resp == Baesponse(ReplyText(hh, hist, order), false))
  {
    RollKeyDefined(db.history);
    var hist := db.FetchHistory(ROLL_KEY, FETCH_LIMIT);
    if |hist| == 0 {
      order := [];
      return Baesponse("History of what?", false), order;
    }
    var perBF := SplitByFriend(hist);
    var unsorted := Keys(perBF);
    var bfs := SortByName(unsorted);
    PermutationNoDuplicates(unsorted, bfs);
    forall bf ensures bf in bfs <==> bf in unsorted {
      assert bf in bfs <==> bf in multiset(bfs);
    }
    order := bfs;
    var out := BuildLines(hh, hist, perBF, bfs);
    resp := Baesponse(Join(out, "\n"), false);
  }

  /** The header, then one line per user of `bfs`. */
  method BuildLines(hh: HistoryHandler, hist: seq<BaeHistoryEntry>, perBF: map<BaestFriend, seq<BaeHistoryEntry>>, bfs: seq<BaestFriend>)
    returns (out: seq<string>)
    requires forall bf :: bf in bfs ==> bf in perBF && perBF[bf] == Group(hist, bf)
    ensures out == [Header(hh)] + Lines(hh.maxEntries, hist, bfs)
  {
    out := [Header(hh)];
    for i := 0 to |bfs|
      invariant out == [Header(hh)] + Lines(hh.maxEntries, hist, bfs[..i])
    {
      assert bfs[..i + 1][..i] == bfs[..i];
      var bf := bfs[i];
      var rs := ShownMessages(perBF[bf], hh.maxEntries);
      out := out + [Mention(bf, "[" + Join(rs, "] [") + "]")];
    }
    assert bfs[..|bfs|] == bfs;
  }

  /** Two valid orders agree when no two addressees share a username, so the
      reply is then the same whatever order the map yielded its keys in. */
  lemma {:induction false} OrderUnique(a: seq<BaestFriend>, b: seq<BaestFriend>)
    requires NoDuplicates(a) && SortedByName(a) && NoDuplicates(b) && SortedByName(b)
    requires forall bf :: bf in a <==> bf in b
    requires forall i, j :: 0 <= i < j < |a| ==> a[i].username != a[j].username
    ensures a == b
    decreases |a|
  {
    if a == [] {
      if b != [] {
        FirstIsMember(b);
        assert false;
      }
    } else {
      assert b != [] by {
        assert a[0] in b;
      }
      if a[0] != b[0] {
        assert a[0] in a && b[0] in b;
        var i :| 0 <= i < |a| && a[i] == b[0];
        var j :| 0 <= j < |b| && b[j] == a[0];
        assert i > 0 && j > 0;
        assert a[0].username != a[i].username;
        assert !Less(a[i].username, a[0].username);
        assert !Less(b[j].username, b[0].username);
        LessTotal(a[0].username, a[i].username);
      }
      forall bf ensures bf in a[1..] <==> bf in b[1..] {
        if bf in a[1..] {
          var k :| 1 <= k < |a| && a[k] == bf;
          assert bf != a[0];
        }
        if bf in b[1..] {
          var k :| 1 <= k < |b| && b[k] == bf;
          assert bf != b[0];
        }
        assert bf in a <==> bf == a[0] || bf in a[1..] by { assert a == [a[0]] + a[1..]; }
        assert bf in b <==> bf == b[0] || bf in b[1..] by { assert b == [b[0]] + b[1..]; }
      }
      OrderUnique(a[1..], b[1..]);
      assert a == [a[0]] + a[1..] && b == [b[0]] + b[1..];
    }
  }

  lemma FirstIsMember<T>(s: seq<T>)
    requires s != []
    ensures s[0] in s
  {
  }

  /** With distinct usernames the reply is fully determined by the history. */
  lemma ReplyDeterministic(hh: HistoryHandler, h: seq<BaeHistoryEntry>, o1: seq<BaestFriend>, o2: seq<BaestFriend>)
    requires ValidOrder(h, o1) && ValidOrder(h, o2)
    requires forall x, y :: x in Addressees(h) && y in Addressees(h) && x != y ==> x.username != y.username
    ensures ReplyText(hh, h, o1) == ReplyText(hh, h, o2)
  {
    forall i, j | 0 <= i < j < |o1| ensures o1[i].username != o1[j].username {
      assert o1[i] in Addressees(h) && o1[j] in Addressees(h);
    }
    OrderUnique(o1, o2);
  }

  /** Line i of the reply is about user i of the order and shows that user's
      newest `maxEntries` replies (all of them when there are fewer), newest first. */
  lemma {:induction false} LinesShowGroups(maxEntries: int, h: seq<BaeHistoryEntry>, order: seq<BaestFriend>)
    ensures forall i :: 0 <= i < |order| ==>
              Lines(maxEntries, h, order)[i] == UserLine(maxEntries, order[i], Group(h, order[i]))
    decreases |order|
  {
    if order != [] {
      var init := order[..|order| - 1];
      LinesShowGroups(maxEntries, h, init);
      assert forall i :: 0 <= i < |init| ==> init[i] == order[i];
    }
  }

  /** The reply starts with the header. */
  lemma ReplyStartsWithHeader(hh: HistoryHandler, h: seq<BaeHistoryEntry>, order: seq<BaestFriend>)
    ensures HasPrefix(ReplyText(hh, h, order), Header(hh))
  {
    JoinStartsWithFirst([Header(hh)] + Lines(hh.maxEntries, h, order), "\n");
  }

  /** When no fetched entry replied to anyone, the reply is the header alone. */
  lemma HeaderOnly(hh: HistoryHandler, h: seq<BaeHistoryEntry>, order: seq<BaestFriend>)
    requires forall i :: 0 <= i < |h| ==> h[i].repliedTo.None?
    requires ValidOrder(h, order)
    ensures ReplyText(hh, h, order) == Header(hh)
  {
    AddresseesMembers(h);
    if order != [] {
      FirstIsMember(order);
      assert false;
    }
  }

  /** A user line shows `maxEntries` replies at most, all of them when there
      are fewer, and none for a cap below one; they are the user's replies,
      newest first. */
  lemma ShownCount(maxEntries: int, group: seq<BaeHistoryEntry>)
    ensures var shown := Take(Messages(group), maxEntries);
            && |shown| == (if maxEntries <= 0 then 0 else History.Min(maxEntries, |group|))
            && forall i :: 0 <= i < |shown| ==> shown[i] == group[i].response.message
  {
    var shown := Take(Messages(group), maxEntries);
    forall i | 0 <= i < |shown| ensures shown[i] == group[i].response.message {
      MessagesAt(group, i);
    }
  }
}
