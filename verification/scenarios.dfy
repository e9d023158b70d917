/**
 Worked end-to-end examples, stated over the model: the configuration is
 parsed, chats are resolved, and the two handlers decide.
 */
module Scenarios {
  import opened Wrappers
  import opened Text
  import opened Config
  import opened ChatRegistry
  import opened BotMirror
  import opened ClientForward

  /** No keywords: the operator's "hello" to the bot is mirrored once; its redelivery is ignored. */
  lemma MirrorHelloOnce(ownId: int, botId: int, messageId: int)
    requires botId != ownId
    ensures var ids := Identities(ownId, botId);
            var msg := BotMessage(ownId, ownId, messageId);
            var first := HandleBotMessage({}, ids, msg, true, true);
            var again := HandleBotMessage(first.processed, ids, msg, true, true);
            && first.calls == [ForwardMessage(ownId, ownId, messageId), DeleteMessage(ownId, messageId)]
            && again.calls == []
            && again.processed == {messageId}
  {
  }

  /** FILTER_KEYWORDS="urgent" parses to the one keyword "urgent". */
  lemma UrgentParsed(raw: string)
    requires raw == "urgent"
    ensures FilterKeywords(Some(raw)) == [raw]
  {
    KeywordsRoundTrip([raw]);
  }

  /** The two example texts are already lower case. */
  lemma ExampleTextsLower(text: string)
    requires text == "this is urgent news" || text == "routine update"
    ensures ToLower(text) == text
  {
    ToLowerFixedPoints(text);
  }

  /** "urgent" occurs in "this is urgent news" and not in "routine update". */
  lemma UrgentOccurrences(raw: string, news: string, routine: string)
    requires raw == "urgent" && news == "this is urgent news" && routine == "routine update"
    ensures Includes(news, raw)
    ensures !Includes(routine, raw)
  {
    assert news[8..14] == raw;
    assert OccursAt(raw, news, 8);
    forall j | 0 <= j <= |routine| - |raw|
      ensures !OccursAt(raw, routine, j)
    {
      assert routine[j..j + 6][0] == routine[j] && routine[j..j + 6][1] == routine[j + 1];
    }
  }

  /** FILTER_KEYWORDS="urgent": "this is urgent news" from a monitored chat is forwarded, logged as matching "urgent". */
  lemma UrgentNewsForwarded(raw: string, text: string, chatId: int, messageId: int)
    requires raw == "urgent" && text == "this is urgent news"
    ensures var msg := ClientMessage(messageId, Peer(Some(chatId), None), Some(text));
            Decide([chatId], FilterKeywords(Some(raw)), msg) == Forward(chatId, messageId, msg.peer, Some(raw), Some(raw))
  {
    UrgentParsed(raw);
    ExampleTextsLower(text);
    UrgentOccurrences(raw, text, "routine update");
    FilterOnSingleKeyword(raw, text, chatId, messageId, Peer(Some(chatId), None));
  }

  /** FILTER_KEYWORDS="urgent": "routine update" from a monitored chat is dropped by the filter. */
  lemma RoutineUpdateDropped(raw: string, text: string, chatId: int, messageId: int)
    requires raw == "urgent" && text == "routine update"
    ensures var msg := ClientMessage(messageId, Peer(None, Some(chatId)), Some(text));
            Decide([chatId], FilterKeywords(Some(raw)), msg) == Drop(FilteredOut)
  {
    UrgentParsed(raw);
    ExampleTextsLower(text);
    UrgentOccurrences(raw, "this is urgent news", text);
    FilterOnSingleKeyword(raw, text, chatId, messageId, Peer(None, Some(chatId)));
  }

  /** With one keyword and lower-case text from a monitored chat, the keyword alone decides. */
  lemma FilterOnSingleKeyword(keyword: string, text: string, chatId: int, messageId: int, peer: Peer)
    requires ToLower(text) == text
    requires SourceChat(peer) == Some(chatId)
    ensures var msg := ClientMessage(messageId, peer, Some(text));
            Decide([chatId], [keyword], msg)
              == if Includes(text, keyword) then Forward(chatId, messageId, peer, Some(keyword), LoggedKeyword(Some(keyword))) else Drop(FilteredOut)
  {
  }

  /** Two configured chats, the first unknown: a warning for it, and the second is still monitored. */
  lemma OneChatMissing(lookup: Lookup, gone: string, kept: string, e: Entity)
    requires lookup(gone).None?
    requires lookup(kept) == Some(e)
    ensures var reg := Resolve([gone, kept], lookup);
            && reg.chatIds == [e.id]
            && reg.missing == [gone]
            && reg.chatNames == map[e.id := DisplayName(e, kept)]
  {
    FailingNameSkipped([], gone, [kept], lookup);
    assert [] + [gone] + [kept] == [gone, kept];
    assert [] + [kept] == [kept];
    ResolveSingle(kept, lookup);
  }
}
