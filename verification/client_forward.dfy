/**
 The account-client event handler: which chat a new message came from, whether
 that chat is monitored, whether the keyword filter passes, and what is forwarded
 to the bot together with the keyword reported in the log.
 */
module ClientForward {
  import opened Wrappers
  import opened Text
  import opened KeywordFilter

  /** The addressing of a message (`message.peerId`); user peers carry neither field. */
  datatype Peer = Peer(channelId: Option<int>, chatId: Option<int>)

  /** The fields of an incoming message the handler reads. */
  datatype ClientMessage = ClientMessage(id: int, peer: Peer, text: Option<string>)

  /** Why a message is dropped without forwarding. */
  datatype DropReason = NoChatId | NotMonitored | FilteredOut

  /**
   The handler's outcome: dropped, or forwarded to the bot by reference to its
   origin (`fromPeer`, message id). `matched` is what the keyword `find` returns;
   `logged` is the keyword the log line names (`None` logs plain "Forwarding").
   */
  datatype Decision =
    | Drop(reason: DropReason)
    | Forward(chatId: int, messageId: int, fromPeer: Peer, matched: Option<string>, logged: Option<string>)

  /** The log line's `matchedKeyword ? ... : 'Forwarding'`: an empty match is falsy and names no keyword. */
  function LoggedKeyword(matched: Option<string>): (r: Option<string>)
    ensures r.Some? <==> matched.Some? && matched.value != ""
    ensures r.Some? ==> r == matched
  {
    if matched.Some? && matched.value != "" then matched else None
  }

  /** The originating chat: the channel id if there is one, else the group id, else none. */
  function SourceChat(peer: Peer): (r: Option<int>)
    ensures peer.channelId.Some? ==> r == peer.channelId
    ensures peer.channelId.None? ==> r == peer.chatId
  {
    if peer.channelId.Some? then peer.channelId
    else if peer.chatId.Some? then peer.chatId
    else None
  }

  /** `(message.text || '').toLowerCase()`. */
  function FilterText(msg: ClientMessage): (r: string)
    ensures IsLower(r)
    ensures msg.text.None? ==> r == ""
    ensures msg.text.Some? ==> r == ToLower(msg.text.value)
  {
    ToLower(msg.text.GetOr(""))
  }

  /** The handler body for one message, given the resolved chat ids and the keywords. */
  function Decide(chatIds: seq<int>, keywords: seq<string>, msg: ClientMessage): (r: Decision)
    ensures r.Forward? <==>
              && SourceChat(msg.peer).Some?
              && SourceChat(msg.peer).value in chatIds
              && ApplyFilters(keywords, FilterText(msg))
    ensures r.Forward? ==>
              && r.chatId == SourceChat(msg.peer).value
              && r.messageId == msg.id
              && r.fromPeer == msg.peer
              && r.matched == MatchedKeyword(keywords, FilterText(msg))
              && r.logged == LoggedKeyword(r.matched)
    ensures r == Drop(NoChatId) <==> SourceChat(msg.peer).None?
    ensures r == Drop(NotMonitored) <==> SourceChat(msg.peer).Some? && SourceChat(msg.peer).value !in chatIds
  {
    var source := SourceChat(msg.peer);
    if source.None? then Drop(NoChatId)
    else if source.value !in chatIds then Drop(NotMonitored)
    else
      var text := FilterText(msg);
      if !ApplyFilters(keywords, text) then Drop(FilteredOut)
      else
        var matched := MatchedKeyword(keywords, text);
        Forward(source.value, msg.id, msg.peer, matched, LoggedKeyword(matched))
  }

  /**
   What gets forwarded: only messages from a monitored chat; with no keywords
   every monitored message is forwarded and no keyword is found or logged; with
   keywords a forward always finds one of them.
   */
  lemma ForwardSafety(chatIds: seq<int>, keywords: seq<string>, msg: ClientMessage)
    ensures var r := Decide(chatIds, keywords, msg);
            && (r.Forward? ==> r.chatId in chatIds)
            && (|keywords| == 0 ==> (r.Forward? <==> SourceChat(msg.peer).Some? && SourceChat(msg.peer).value in chatIds))
            && (|keywords| == 0 && r.Forward? ==> r.matched == None && r.logged == None)
            && (|keywords| > 0 && r.Forward? ==> r.matched.Some? && r.matched.value in keywords)
  {
    var r := Decide(chatIds, keywords, msg);
    MatchAgreesWithFilter(keywords, FilterText(msg));
  }

  /**
   With keywords configured, a message from a monitored chat is forwarded exactly
   when one of the keywords occurs in its text, ignoring case.
   */
  lemma ForwardedIffKeywordOccurs(chatIds: seq<int>, keywords: seq<string>, msg: ClientMessage)
    requires |keywords| > 0
    requires SourceChat(msg.peer).Some? && SourceChat(msg.peer).value in chatIds
    ensures Decide(chatIds, keywords, msg).Forward? <==>
              exists i, j :: 0 <= i < |keywords| && OccursFoldedAt(keywords[i], msg.text.GetOr(""), j)
  {
    FilterIsCaseInsensitive(keywords, msg.text.GetOr(""));
  }

  /**
   The log line names a keyword exactly when keywords are configured and the first
   one the text includes is non-empty; a leading blank keyword (`",urgent"`)
   makes every forward log plain "Forwarding".
   */
  lemma LoggedKeywordOfForward(chatIds: seq<int>, keywords: seq<string>, msg: ClientMessage)
    requires Decide(chatIds, keywords, msg).Forward?
    ensures var r := Decide(chatIds, keywords, msg);
            r.logged.Some? <==> |keywords| > 0 && r.matched.value != ""
    ensures |keywords| > 0 && keywords[0] == "" ==> Decide(chatIds, keywords, msg).logged == None
  {
    var r := Decide(chatIds, keywords, msg);
    MatchAgreesWithFilter(keywords, FilterText(msg));
    if |keywords| > 0 && keywords[0] == "" {
      EmptyIncludedEverywhere(FilterText(msg));
    }
  }

  /** The request the client sends to the bot chat for a forwarded message. */
  datatype ForwardRequest = ForwardRequest(messageId: int, fromPeer: Peer)

  /** One run of the event handler: the request issued, and whether an error was logged. */
  datatype ClientHandled = ClientHandled(requests: seq<ForwardRequest>, errorLogged: bool)

  /**
   The event handler with the outcome of `forwardMessages` as an input: one
   request for a forwarded message, none otherwise; a failed request is logged
   and swallowed, with no retry.
   */
  function HandleClientEvent(chatIds: seq<int>, keywords: seq<string>, msg: ClientMessage, forwardSucceeds: bool): (r: ClientHandled)
    ensures r.requests == [] <==> Decide(chatIds, keywords, msg).Drop?
    ensures r.requests != [] ==> r.requests == [ForwardRequest(msg.id, msg.peer)]
    ensures r.errorLogged <==> r.requests != [] && !forwardSucceeds
  {
    match Decide(chatIds, keywords, msg)
    case Drop(_) => ClientHandled([], false)
    case Forward(_, id, peer, _, _) => ClientHandled([ForwardRequest(id, peer)], !forwardSucceeds)
  }

  /** Missing text behaves as empty text. */
  lemma MissingTextIsEmpty(chatIds: seq<int>, keywords: seq<string>, id: int, peer: Peer)
    ensures Decide(chatIds, keywords, ClientMessage(id, peer, None))
         == Decide(chatIds, keywords, ClientMessage(id, peer, Some("")))
  {
  }

  /** Texts that differ only in letter case get the same decision. */
  lemma CaseDoesNotMatter(chatIds: seq<int>, keywords: seq<string>, id: int, peer: Peer, a: string, b: string)
    requires ToLower(a) == ToLower(b)
    ensures Decide(chatIds, keywords, ClientMessage(id, peer, Some(a)))
         == Decide(chatIds, keywords, ClientMessage(id, peer, Some(b)))
  {
  }
}
