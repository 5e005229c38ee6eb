/** The bot's handler-facing records (`baepi` package): users, events,
    responses, history entries and history keys, with the mention helper and the
    history key matching rule. */
module Baepi {
  import opened Wrappers

  /** A chat user: the platform ID used for mentions and lookups, and a display name. */
  datatype BaestFriend = BaestFriend(id: string, username: string)

  /** A user saying something in a channel the bot is in. */
  datatype Baevent = Baevent(speaker: BaestFriend, message: string)

  /** What a handler wants the bot to say. The handler metadata, an opaque
      `interface{}` never read by the core, is not modelled. */
  datatype Baesponse = Baesponse(message: string, mentionUser: bool)

  /** Optional constraints for a history search; "" means "any". */
  datatype BaeHistoKey = BaeHistoKey(baestFriendID: string, handlerName: string)

  /** One stored response. `repliedTo` is a pointer in Go and may be nil. The
      time stamp is not modelled. */
  datatype BaeHistoryEntry = BaeHistoryEntry(handlerName: string, response: Baesponse, repliedTo: Option<BaestFriend>)

  /** `bf.Mention(message)`: "<@ID> message". */
  function Mention(bf: BaestFriend, message: string): (r: string)
    ensures |r| == |bf.id| + 4 + |message|
    ensures r[..2] == "<@" && r[2..|bf.id| + 2] == bf.id && r[|bf.id| + 2..|bf.id| + 4] == "> "
    ensures r[|bf.id| + 4..] == message
  {
    "<@" + bf.id + "> " + message
  }

  /** The mentioned message can be read back, so different messages give different mentions. */
  lemma MentionInjective(bf: BaestFriend, m1: string, m2: string)
    requires Mention(bf, m1) == Mention(bf, m2)
    ensures m1 == m2
  {
    assert m1 == Mention(bf, m1)[|bf.id| + 4..];
  }

  /** Go dereferences `RepliedTo` only when the handler test passed and the key
      names a user; a nil `RepliedTo` there is a nil-pointer panic. */
  predicate MatchDefined(he: BaeHistoryEntry, k: BaeHistoKey)
  {
    (k.baestFriendID != "" && (k.handlerName == "" || k.handlerName == he.handlerName)) ==> he.repliedTo.Some?
  }

  /** `he.Matches(k)`: every non-empty field of the key must agree with the entry. */
  function Matches(he: BaeHistoryEntry, k: BaeHistoKey): (r: bool)
    requires MatchDefined(he, k)
    ensures r <==> (k.handlerName == "" || k.handlerName == he.handlerName)
                   && (k.baestFriendID == "" || k.baestFriendID == he.repliedTo.value.id)
  {
    if k.handlerName != "" && k.handlerName != he.handlerName then false
    else if k.baestFriendID != "" && k.baestFriendID != he.repliedTo.value.id then false
    else true
  }

  /** The empty key is a wildcard. */
  lemma WildcardKeyMatchesAll(he: BaeHistoryEntry)
    ensures MatchDefined(he, BaeHistoKey("", "")) && Matches(he, BaeHistoKey("", ""))
  {
  }

  /** `narrow` keeps every constraint of `wide` and may fill in fields that `wide` left empty. */
  predicate Narrows(narrow: BaeHistoKey, wide: BaeHistoKey)
  {
    (wide.handlerName == "" || narrow.handlerName == wide.handlerName)
    && (wide.baestFriendID == "" || narrow.baestFriendID == wide.baestFriendID)
  }

  /** Filling in a key field can only remove matches, never add one. */
  lemma NarrowingNeverAddsMatches(he: BaeHistoryEntry, narrow: BaeHistoKey, wide: BaeHistoKey)
    requires Narrows(narrow, wide) && MatchDefined(he, narrow) && MatchDefined(he, wide)
    ensures Matches(he, narrow) ==> Matches(he, wide)
  {
  }

  /** The user filter looks at the ID only: renaming the user changes nothing. */
  lemma FriendFilterIgnoresUsername(he: BaeHistoryEntry, k: BaeHistoKey, name: string)
    requires he.repliedTo.Some? && MatchDefined(he, k)
    ensures var renamed := he.(repliedTo := Some(he.repliedTo.value.(username := name)));
            MatchDefined(renamed, k) && Matches(renamed, k) == Matches(he, k)
  {
  }
}
