/**
 The bot side: the `message` handler that mirrors the operator's own messages
 (forward to the same chat, then delete the original), the set of processed
 message ids that keeps it from acting twice, and the hourly cleanup of that set.
 The Bot API calls are not executed here; their success or failure is an input.
 */
module BotMirror {

  /** The fields of an incoming bot update that the handler reads. */
  datatype BotMessage = BotMessage(chatId: int, fromId: int, messageId: int)

  /** The operator's own id (`yourChatId`) and the bot's id, fixed at startup. */
  datatype Identities = Identities(ownId: int, botId: int)

  /** What the handler decides to do with one update. */
  datatype MirrorAction = Ignore | Mirror(messageId: int)

  /** The processed-id set after one update, and the decision taken. */
  datatype StepResult = StepResult(processed: set<int>, action: MirrorAction)

  /** Size above which the hourly cleanup empties the processed set. */
  const CleanupThreshold: nat := 1000

  /** Period of the cleanup timer, in milliseconds (one hour). */
  const CleanupIntervalMs: nat := 3600000

  /** Sent by the operator in the operator's own chat, and not by the bot. */
  predicate IsOwnMessage(ids: Identities, msg: BotMessage)
  {
    msg.chatId == ids.ownId && msg.fromId == ids.ownId && msg.fromId != ids.botId
  }

  /**
   The handler's decision and its bookkeeping. The id is added to the set before
   the Bot API is called, so the new set does not depend on how the calls go.
   */
  function MirrorStep(processed: set<int>, ids: Identities, msg: BotMessage): (r: StepResult)
    ensures r.action.Mirror? <==> IsOwnMessage(ids, msg) && msg.messageId !in processed
    ensures r.action.Mirror? ==> r.action.messageId == msg.messageId
    ensures r.processed == if r.action.Mirror? then processed + {msg.messageId} else processed
    ensures IsOwnMessage(ids, msg) ==> msg.messageId in r.processed
  {
    if msg.chatId != ids.ownId || msg.fromId != ids.ownId then StepResult(processed, Ignore)
    else if msg.fromId == ids.botId then StepResult(processed, Ignore)
    else if msg.messageId in processed then StepResult(processed, Ignore)
    else StepResult(processed + {msg.messageId}, Mirror(msg.messageId))
  }

  /** Redelivering an update that was just handled changes nothing and triggers nothing. */
  lemma RedeliveryIsNoOp(processed: set<int>, ids: Identities, msg: BotMessage)
    ensures var first := MirrorStep(processed, ids, msg);
            var second := MirrorStep(first.processed, ids, msg);
            second == StepResult(first.processed, Ignore)
  {
  }

  /**
   The anti-loop check on the bot's id only matters when the bot's id equals the
   operator's: for any other bot id the decision is the same, and with equal ids
   nothing is ever mirrored.
   */
  lemma BotIdCheckMattersOnlyWhenIdsCoincide(processed: set<int>, ownId: int, botA: int, botB: int, msg: BotMessage)
    ensures botA != ownId && botB != ownId ==>
              MirrorStep(processed, Identities(ownId, botA), msg) == MirrorStep(processed, Identities(ownId, botB), msg)
    ensures MirrorStep(processed, Identities(ownId, ownId), msg).action == Ignore
  {
  }

  /** A Bot API request the handler issues. */
  datatype BotCall = ForwardMessage(chatId: int, fromChatId: int, messageId: int) | DeleteMessage(chatId: int, messageId: int)

  /** Everything one handler invocation does: new set, requests issued, whether an error was logged. */
  datatype Handled = Handled(processed: set<int>, calls: seq<BotCall>, errorLogged: bool)

  /**
   One run of the `message` handler. The forward and the delete are awaited in
   one `try`: a failed forward skips the delete, and either failure is logged and
   swallowed.
   */
  function HandleBotMessage(processed: set<int>, ids: Identities, msg: BotMessage,
                            forwardSucceeds: bool, deleteSucceeds: bool): (r: Handled)
    ensures r.processed == MirrorStep(processed, ids, msg).processed
    ensures r.calls == [] <==> !(IsOwnMessage(ids, msg) && msg.messageId !in processed)
    ensures r.calls != [] ==> r.calls[0] == ForwardMessage(ids.ownId, ids.ownId, msg.messageId)
    ensures r.calls != [] ==>
              r.calls == if forwardSucceeds
                         then [ForwardMessage(ids.ownId, ids.ownId, msg.messageId), DeleteMessage(ids.ownId, msg.messageId)]
                         else [ForwardMessage(ids.ownId, ids.ownId, msg.messageId)]
    ensures DeleteMessage(ids.ownId, msg.messageId) in r.calls <==> r.calls != [] && forwardSucceeds
    ensures |r.calls| <= 2
    ensures r.errorLogged <==> r.calls != [] && !(forwardSucceeds && deleteSucceeds)
  {
    var step := MirrorStep(processed, ids, msg);
    match step.action
    case Ignore => Handled(step.processed, [], false)
    case Mirror(id) =>
      var forward := ForwardMessage(ids.ownId, ids.ownId, id);
      if !forwardSucceeds then Handled(step.processed, [forward], true)
      else Handled(step.processed, [forward, DeleteMessage(ids.ownId, id)], !deleteSucceeds)
  }

  /** The processed set after a run, and the ids mirrored along the way, in order. */
  datatype Trace = Trace(processed: set<int>, mirrored: seq<int>)

  /** The handler applied to a sequence of updates with no cleanup in between (one dedup epoch). */
  function RunMirror(processed: set<int>, ids: Identities, msgs: seq<BotMessage>): Trace
    decreases |msgs|
  {
    if |msgs| == 0 then Trace(processed, [])
    else
      var step := MirrorStep(processed, ids, msgs[0]);
      var rest := RunMirror(step.processed, ids, msgs[1..]);
      match step.action
      case Ignore => rest
      case Mirror(id) => Trace(rest.processed, [id] + rest.mirrored)
  }

  /** No id occurs twice in `s`. */
  predicate Distinct(s: seq<int>)
  {
    forall i, j :: 0 <= i < j < |s| ==> s[i] != s[j]
  }

  /** Some update in `msgs` is an own message carrying `id`. */
  predicate HasOwnMessage(ids: Identities, msgs: seq<BotMessage>, id: int)
  {
    exists k :: 0 <= k < |msgs| && IsOwnMessage(ids, msgs[k]) && msgs[k].messageId == id
  }

  /**
   Within one epoch each message id is mirrored at most once, never one already
   processed before, only for own messages; the final set is the initial one plus
   exactly the mirrored ids.
   */
  lemma {:induction false} MirrorOncePerEpoch(processed: set<int>, ids: Identities, msgs: seq<BotMessage>)
    ensures var t := RunMirror(processed, ids, msgs);
            && Distinct(t.mirrored)
            && (forall i :: 0 <= i < |t.mirrored| ==> t.mirrored[i] !in processed)
            && (forall i :: 0 <= i < |t.mirrored| ==> HasOwnMessage(ids, msgs, t.mirrored[i]))
            && t.processed == processed + set id | id in t.mirrored
    decreases |msgs|
  {
    if |msgs| > 0 {
      var step := MirrorStep(processed, ids, msgs[0]);
      var rest := RunMirror(step.processed, ids, msgs[1..]);
      MirrorOncePerEpoch(step.processed, ids, msgs[1..]);
      forall i | 0 <= i < |rest.mirrored|
        ensures HasOwnMessage(ids, msgs, rest.mirrored[i])
      {
        assert HasOwnMessage(ids, msgs[1..], rest.mirrored[i]);
        var k :| 0 <= k < |msgs[1..]| && IsOwnMessage(ids, msgs[1..][k]) && msgs[1..][k].messageId == rest.mirrored[i];
        assert msgs[k + 1] == msgs[1..][k];
      }
      match step.action
      case Ignore =>
      case Mirror(id) =>
        var t := Trace(rest.processed, [id] + rest.mirrored);
        assert HasOwnMessage(ids, msgs, id) by {
          assert IsOwnMessage(ids, msgs[0]);
        }
        assert forall i :: 1 <= i < |t.mirrored| ==> t.mirrored[i] == rest.mirrored[i - 1];
        assert (set x | x in t.mirrored) == {id} + set x | x in rest.mirrored;
    }
  }

  /** The hourly timer body: empty the set once it holds more than the threshold. */
  function Cleanup(processed: set<int>): (r: set<int>)
    ensures r <= processed
    ensures |r| <= CleanupThreshold
    ensures |processed| <= CleanupThreshold ==> r == processed
    ensures r == {} || r == processed
  {
    if |processed| > CleanupThreshold then {} else processed
  }

  /** Cleanup empties the set exactly when it is over the threshold. */
  lemma CleanupClearsExactlyAboveThreshold(processed: set<int>)
    ensures Cleanup(processed) == {} <==> |processed| > CleanupThreshold || processed == {}
  {
  }

  /**
   The coarse cleanup forgets: an own message already handled is mirrored again if
   it is redelivered after a cleanup that emptied the set.
   */
  lemma ReprocessedAfterClear(processed: set<int>, ids: Identities, msg: BotMessage)
    requires IsOwnMessage(ids, msg)
    requires |processed| > CleanupThreshold
    ensures MirrorStep(Cleanup(processed), ids, msg).action == Mirror(msg.messageId)
  {
  }
}
