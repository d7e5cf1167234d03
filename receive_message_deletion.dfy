/**
 * The receive action for a deletion message: a peer asks that one of the
 * chat's messages be deleted. The action deletes it from the message store,
 * then rewrites the chat's summary line if, and only if, that message is
 * the one the summary shows.
 *
 * The two storage calls belong to other modules; here their effect is
 * abstract state of `DeletionStorage`: the messages clean-deleted so far,
 * the connection summaries, and the log of calls in order.
 */
module ReceiveMessageDeletion {
  import opened Wrappers
  import opened MessageTypes

  datatype DeletionParams = DeletionParams(messageIdToDelete: MessageId)

  /** The decrypted payload of a received message; a deletion carries `DeletionParams`. */
  datatype DecryptedMessageContent = DecryptedMessageContent(contentType: ContentType, data: DeletionParams)

  /** The part of a connection the chat list shows. */
  datatype ConnectionSummary = ConnectionSummary(
    latestMessageId: Option<MessageId>,
    text: string,
    recentMessageType: ContentType)

  datatype SummaryUpdate = SummaryUpdate(chatId: ChatId, text: string, recentMessageType: ContentType)

  datatype StorageCall =
    | CleanDelete(chatId: ChatId, messageId: MessageId, flag: bool)
    | UpdateIfLatest(messageId: MessageId, update: SummaryUpdate)

  datatype ActionError = NullContent

  const DeletedText := "This message was deleted"

  /**
   * The summary update, applied only when the connection's latest message
   * is `messageId`: a compare-and-swap on the latest message id.
   */
  function UpdateIfLatestIs(summaries: map<ChatId, ConnectionSummary>, messageId: MessageId, u: SummaryUpdate)
    : (r: map<ChatId, ConnectionSummary>)
    ensures r.Keys == summaries.Keys
    ensures forall c :: c in summaries && c != u.chatId ==> r[c] == summaries[c]
    ensures u.chatId in summaries && summaries[u.chatId].latestMessageId != Some(messageId) ==> r == summaries
    ensures u.chatId in summaries && summaries[u.chatId].latestMessageId == Some(messageId) ==>
              r[u.chatId] == ConnectionSummary(Some(messageId), u.text, u.recentMessageType)
  {
    if u.chatId in summaries && summaries[u.chatId].latestMessageId == Some(messageId) then
      summaries[u.chatId := summaries[u.chatId].(text := u.text, recentMessageType := u.recentMessageType)]
    else
      summaries
  }

  /** The storage state both calls act on. */
  datatype StorageState = StorageState(deleted: set<(ChatId, MessageId)>, summaries: map<ChatId, ConnectionSummary>)

  /** The calls a deletion of `messageId` in `chatId` makes, in order. */
  function DeletionCalls(chatId: ChatId, messageId: MessageId): (calls: seq<StorageCall>) {
    [CleanDelete(chatId, messageId, true), UpdateIfLatest(messageId, SummaryUpdate(chatId, DeletedText, Deleted))]
  }

  /** The storage state after the action deletes `messageId` in `chatId`. */
  function AfterDeletion(s: StorageState, chatId: ChatId, messageId: MessageId): (r: StorageState)
    // the message is deleted and nothing else is
    ensures (chatId, messageId) in r.deleted && s.deleted <= r.deleted && r.deleted - s.deleted <= {(chatId, messageId)}
    // only this chat's summary may change, and it keeps its latest message id
    ensures r.summaries.Keys == s.summaries.Keys
    ensures forall c :: c in s.summaries && c != chatId ==> r.summaries[c] == s.summaries[c]
    ensures chatId in s.summaries ==> r.summaries[chatId].latestMessageId == s.summaries[chatId].latestMessageId
  {
    StorageState(s.deleted + {(chatId, messageId)},
                 UpdateIfLatestIs(s.summaries, messageId, SummaryUpdate(chatId, DeletedText, Deleted)))
  }

  /** Receiving the same deletion twice leaves the storage as receiving it once. */
  lemma DeletionIdempotent(s: StorageState, chatId: ChatId, messageId: MessageId)
    ensures AfterDeletion(AfterDeletion(s, chatId, messageId), chatId, messageId) == AfterDeletion(s, chatId, messageId)
  {
    var once := AfterDeletion(s, chatId, messageId);
    var u := SummaryUpdate(chatId, DeletedText, Deleted);
    if chatId in s.summaries && s.summaries[chatId].latestMessageId == Some(messageId) {
      assert once.summaries[chatId].latestMessageId == Some(messageId);
      assert UpdateIfLatestIs(once.summaries, messageId, u) == once.summaries;
    }
  }

  /**
   * The summary of the chat shows the deletion when it showed the deleted
   * message; a summary showing another (newer) message is kept, and so is
   * every other chat's.
   */
  lemma SummaryCompareAndSwap(s: StorageState, chatId: ChatId, messageId: MessageId)
    requires chatId in s.summaries
    ensures var after := AfterDeletion(s, chatId, messageId).summaries;
      && (after[chatId].text == DeletedText && after[chatId].recentMessageType == Deleted
            <== s.summaries[chatId].latestMessageId == Some(messageId))
      && (s.summaries[chatId].latestMessageId != Some(messageId) ==> after[chatId] == s.summaries[chatId])
      && after[chatId].latestMessageId == s.summaries[chatId].latestMessageId
      && (forall c :: c in s.summaries && c != chatId ==> after[c] == s.summaries[c])
  {
  }

  /**
   * The storage calls, with their effects kept as abstract state: each call
   * is logged, and changes only the part of the state it owns.
   */
  class DeletionStorage {
    var state: StorageState
    var calls: seq<StorageCall>

    constructor (initial: StorageState)
      ensures state == initial && calls == []
    {
      state := initial;
      calls := [];
    }

    /** `cleanDeleteMessage`: the message is gone from the chat after it, whether it was there or not. */
    method CleanDeleteMessage(chatId: ChatId, messageId: MessageId, flag: bool)
      modifies this
      ensures calls == old(calls) + [CleanDelete(chatId, messageId, flag)]
      ensures state == old(state).(deleted := old(state).deleted + {(chatId, messageId)})
    {
      calls := calls + [CleanDelete(chatId, messageId, flag)];
      state := state.(deleted := state.deleted + {(chatId, messageId)});
    }

    /** `updateConnectionIfLatestMessageIsX`. */
    method UpdateConnectionIfLatestMessageIsX(messageId: MessageId, update: SummaryUpdate)
      modifies this
      ensures calls == old(calls) + [UpdateIfLatest(messageId, update)]
      ensures state == old(state).(summaries := UpdateIfLatestIs(old(state).summaries, messageId, update))
    {
      calls := calls + [UpdateIfLatest(messageId, update)];
      state := state.(summaries := UpdateIfLatestIs(state.summaries, messageId, update));
    }
  }

  class ReceiveMessageDeletionAction {
    const chatId: ChatId
    var decryptedMessageContent: Option<DecryptedMessageContent>

    constructor (chatId: ChatId, content: Option<DecryptedMessageContent>)
      ensures this.chatId == chatId && decryptedMessageContent == content
    {
      this.chatId := chatId;
      decryptedMessageContent := content;
    }

    /** A deletion adds no preview text to the chat list. */
    method GeneratePreviewText() returns (text: string)
      ensures text == ""
    {
      text := "";
    }

    /**
     * `performAction`. Missing content fails before any storage call;
     * otherwise the message is deleted, then the summary is conditionally
     * updated, in that order.
     */
    method PerformAction(storage: DeletionStorage) returns (result: Option<ActionError>)
      modifies this, storage
      ensures decryptedMessageContent == old(decryptedMessageContent)
      ensures old(decryptedMessageContent).None? ==>
                result == Some(NullContent) && storage.calls == old(storage.calls) && storage.state == old(storage.state)
      ensures old(decryptedMessageContent).Some? ==>
                var id := old(decryptedMessageContent).value.data.messageIdToDelete;
                && result.None?
                && storage.calls == old(storage.calls) + DeletionCalls(chatId, id)
                && storage.state == AfterDeletion(old(storage.state), chatId, id)
    {
      if decryptedMessageContent.None? {
        return Some(NullContent);
      }
      // the not-null rule hands the content back, and it is stored again
      decryptedMessageContent := Some(decryptedMessageContent.value);
      var deletion := decryptedMessageContent.value.data;
      storage.CleanDeleteMessage(chatId, deletion.messageIdToDelete, true);
      var update := SummaryUpdate(chatId, DeletedText, Deleted);
      storage.UpdateConnectionIfLatestMessageIsX(deletion.messageIdToDelete, update);
      result := None;
    }
  }
}
