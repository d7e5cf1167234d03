# port-mobile message core, modelled in Dafny

This project models the decision logic of the port-mobile messaging client around its local message store:

- **The direct-message store** (`lineMessages`). It is modelled as a table of rows keyed by chat id and message id. The store operations are insert, lookup, the newest message of a content type, a chat's message ids, and the latest page of a chat left-joined with reply rows and media paths. The remaining operations are partial update, hard delete, the journaled (unsent) set and its deletion, and expiry selection.
- **The permissions store.** It has one settings row per permissions id. Reads fill in defaults key by key. Updates are COALESCE patches.
- **The direct-message send dispatcher.** Ten content-type groups are checked in a fixed order and the last match picks the sender. `sendDirect` and `retryDirect` then construct that sender and call `send()` or `retry()`, or log an error when no sender matches.
- **The receive action for a deletion message.** It deletes the message, then updates the chat summary under a compare-and-swap on the latest message id.
- **The chat-list preview line.** It is chosen by content type.
- **The call reducer** (`manageCall`).
- **The chat tile's status badge and indicator.**
- **The visibility rules** of the message focus menu.

Modelling choices:

- **NULL and timestamps.** SQL NULL is `Option`. ISO timestamps are integers, since ISO strings of one format order as the times they denote.
- **Payloads.** A stored payload is its JSON text.
- **Clock.** The clock reading `generateISOTimeStamp()` is a parameter `now`.
- **Store shape.** Each store is a class holding a `map` that its methods reassign. Each method is specified by a pure function on the table in `LineMessageTable` or `Permissions`, and the lemmas are stated about those functions.
- **Readers.** The readers that collect rows (`Select`, `GetAllMessagesIdsInChat`, `GetAllPermissions`, the page and join loops) are loops with invariants.

The model follows the code where it departs from what its names and comments suggest:

- The reply join of `getLatestMessages` matches on the message id only, so rows of other chats with the same id join too.
- `assignSenderClass` lets the *last* matching group win.
- The deletion action's summary update is conditional only through the callee `updateConnectionIfLatestMessageIsX`. Its behaviour is taken from its name: the summary changes only while its latest message is the deleted one.

## Model

| member | source | states |
|---|---|---|
| LineMessage.LineMessageStore.AddMessage | src/utils/Storage/DBCalls/lineMessage.ts:59-94 | the table after the insert is `InsertRow`: a new key gains the message with the delivery, read and reaction columns unset and mtime = now; an existing key rejects the insert and the table is unchanged |
| LineMessageTable.InsertRow | src/utils/Storage/DBCalls/lineMessage.ts:59-94 | an insert adds exactly the message's key and keeps every other row |
| LineMessageTable.AddThenGet | src/utils/Storage/DBCalls/lineMessage.ts:59-124 | after inserting m under a new key, a lookup returns m's content type, data, reply id, sender, timestamp, status, expiry, shouldAck and media id, with no delivery mark, read mark or reaction flag |
| LineMessage.LineMessageStore.GetMessage | src/utils/Storage/DBCalls/lineMessage.ts:102-124 | returns nothing exactly when no row has both the chat id and the message id; otherwise the stored row, which carries those ids |
| LineMessageTable.Lookup | src/utils/Storage/DBCalls/lineMessage.ts:106-123 | None iff the key is absent; a found row carries the requested ids |
| LineMessage.LineMessageStore.GetLastMessageOfType | src/utils/Storage/DBCalls/lineMessage.ts:132-156 | nothing iff the chat has no row of that content type; otherwise a stored row of that chat and type whose timestamp is at least every other such row's, with NULL ranking last |
| LineMessage.LineMessageStore.Newest | src/utils/Storage/DBCalls/lineMessage.ts:139-142 | the key returned is one of the candidates and its row is at least as new as every candidate's (`ORDER BY timestamp DESC LIMIT 1`) |
| LineMessageTable.NewestExists | src/utils/Storage/DBCalls/lineMessage.ts:139-142 | every non-empty set of rows has a newest row under the DESC order with NULL last |
| LineMessage.LineMessageStore.LatestPage | src/utils/Storage/DBCalls/lineMessage.ts:204-207 | the inner query's result: distinct rows of the table, all of the chat, as many as `LIMIT` allows (all rows for a negative limit), newest first, and no row of the chat that was left out is newer than one taken |
| LineMessageTable.PageStep | src/utils/Storage/DBCalls/lineMessage.ts:204-207 | appending the newest row not yet taken keeps the page sorted, distinct, within the chat and no older than any row left out |
| LineMessage.LineMessageStore.Block | src/utils/Storage/DBCalls/lineMessage.ts:208-213 | one message's left-join rows: one row with NULL reply columns when no row has its reply id, otherwise one row per matching reply row (of any chat), each carrying the message without its reply id (the outer query does not select it) and its media path |
| LineMessage.LineMessageStore.JoinReplies | src/utils/Storage/DBCalls/lineMessage.ts:208-234 | the joined list is the concatenation of the page's blocks in page order |
| LineMessageTable.JoinSnoc | src/utils/Storage/DBCalls/lineMessage.ts:218-234 | appending a message and its block to a join gives the join of the longer page |
| LineMessage.LineMessageStore.GetLatestMessages | src/utils/Storage/DBCalls/lineMessage.ts:164-238 | the result is the join of a latest page of the chat; every row is a stored row of the chat with its reply id left out; with message ids unique across chats and a limit of 0 or more it has at most `limit` rows |
| LineMessageTable.LatestLoadedShape | src/utils/Storage/DBCalls/lineMessage.ts:204-213 | every joined row carries a stored message of the chat, without its reply id, and under unique message ids the join has at most `limit` rows |
| LineMessageTable.JoinCoversPage | src/utils/Storage/DBCalls/lineMessage.ts:208-213 | every message of the page appears in the join without its reply id, and a message whose reply id matches no row appears with NULL reply columns |
| LineMessageTable.JoinRowsFromPage | src/utils/Storage/DBCalls/lineMessage.ts:208-213 | every joined row carries a message of the page, without its reply id |
| LineMessageTable.JoinKeepsPageSize | src/utils/Storage/DBCalls/lineMessage.ts:208-210 | when no message id is used in two chats, the join has exactly one row per page message |
| LineMessageTable.JoinCanExceedLimit | src/utils/Storage/DBCalls/lineMessage.ts:208-210 | two chats holding the replied-to id make a one-message page load as two rows, because the join ignores the chat id |
| LineMessage.LineMessageStore.UpdateSavedMessage | src/utils/Storage/DBCalls/lineMessage.ts:246-291 | the table after the update is `UpdateRow` at time now |
| LineMessageTable.ApplyUpdate | src/utils/Storage/DBCalls/lineMessage.ts:257-269 | the updated row keeps its key and sender, is stamped with mtime = now, and a delivery or read mark that is already set is kept |
| LineMessageTable.UpdateRow | src/utils/Storage/DBCalls/lineMessage.ts:257-270 | only the row with the given chat and message id changes, to `ApplyUpdate`; every other row is kept; a missing row leaves the table unchanged |
| LineMessageTable.UpdateReplacesSuppliedColumns | src/utils/Storage/DBCalls/lineMessage.ts:257-268 | each ordinary column takes the supplied value when non-null and keeps its own otherwise; the key and the sender never change |
| LineMessageTable.UpdateSetsMarksOnce | src/utils/Storage/DBCalls/lineMessage.ts:263-264 | the delivery and read marks take the supplied value only while unset |
| LineMessageTable.UpdateIdempotent | src/utils/Storage/DBCalls/lineMessage.ts:257-269 | repeating an update at the same time changes nothing more |
| LineMessageTable.MarksAreSetOnce | src/utils/Storage/DBCalls/lineMessage.ts:263-264 | over any run of updates, each mark ends up as the first value ever set, starting with the stored one |
| LineMessageTable.ReadMarkNeverChanges | src/utils/Storage/DBCalls/lineMessage.ts:263-264 | each mark that is set, read or delivery, keeps its value through every later run of updates, whether or not the other mark is set |
| LineMessage.LineMessageStore.GetAllMessagesIdsInChat | src/utils/Storage/DBCalls/lineMessage.ts:298-316 | an id is listed iff the chat has a message with it, and no id is listed twice |
| LineMessage.LineMessageStore.PermanentlyDeleteMessage | src/utils/Storage/DBCalls/lineMessage.ts:325-338 | the table after the delete is `DeleteRow` |
| LineMessageTable.DeleteRow | src/utils/Storage/DBCalls/lineMessage.ts:329-333 | removes exactly the given key and keeps the other rows |
| LineMessageTable.DeleteThenGet | src/utils/Storage/DBCalls/lineMessage.ts:325-338 | a deleted message reads back as missing, and deleting it again is a no-op |
| LineMessage.LineMessageStore.Select | src/utils/Storage/DBCalls/lineMessage.ts:353-362 | the collected rows are distinct stored rows, each satisfying the filter; every stored row satisfying it is collected; the count equals the number of such rows |
| LineMessage.SelectedCount | src/utils/Storage/DBCalls/lineMessage.ts:353-362 | a distinct, complete selection has as many entries as there are selected rows |
| LineMessageTable.DistinctKeysCount | src/utils/Storage/DBCalls/lineMessage.ts:353-362 | a list of rows with distinct keys has as many keys as rows |
| LineMessage.LineMessageStore.GetUnsent | src/utils/Storage/DBCalls/lineMessage.ts:344-366 | returns distinct stored rows, all journaled, and every journaled row of every chat: as many rows as there are journaled rows |
| LineMessage.LineMessageStore.DeleteUnsent | src/utils/Storage/DBCalls/lineMessage.ts:371-381 | the table after the delete is `DeleteUnsentRows` |
| LineMessageTable.DeleteUnsentRows | src/utils/Storage/DBCalls/lineMessage.ts:373-376 | a row remains iff it was stored and is not journaled, unchanged; so no journaled row is left |
| LineMessage.LineMessageStore.GetExpiredMessages | src/utils/Storage/DBCalls/lineMessage.ts:388-412 | returns distinct stored rows whose expiry is set and before now, and every such row, once each |
| Permissions.PermissionsStore.AddPermissionEntry | src/utils/Storage/DBCalls/permissions/index.ts:17-38 | the table after the insert is `InsertEntry`; an id already stored rejects it |
| Permissions.InsertEntry | src/utils/Storage/DBCalls/permissions/index.ts:17-38 | a new id gains the entry's permissions; existing rows are kept |
| Permissions.PermissionsStore.CopyKeys | src/utils/Storage/DBCalls/permissions/index.ts:84-89 | after the two key loops, each listed flag and number comes from the row and every other key keeps the base value |
| Permissions.PermissionsStore.GetPermissions | src/utils/Storage/DBCalls/permissions/index.ts:67-94 | the empty id and an id with no row give the defaults; a stored id gives the defaults overlaid with the row's listed keys |
| Permissions.PermissionsStore.GetAllPermissions | src/utils/Storage/DBCalls/permissions/index.ts:40-60 | one entry per stored row, no id twice, each carrying its row's id and the defaults overlaid with the row's listed keys |
| Permissions.FilledIsRow | src/utils/Storage/DBCalls/permissions/index.ts:84-89 | when the key lists name every key, a filled read is exactly the stored row |
| Permissions.ReadIsReadBack | src/utils/Storage/DBCalls/permissions/index.ts:67-94 | with complete key lists, a read returns the defaults for the empty id or a missing row, and otherwise the stored row |
| Permissions.AddThenRead | src/utils/Storage/DBCalls/permissions/index.ts:17-38 | after adding an entry under a new non-empty id, reading that id gives the entry's permissions |
| Permissions.PermissionsStore.UpdatePermissions | src/utils/Storage/DBCalls/permissions/index.ts:101-135 | the table after the update is `UpdateEntry` |
| Permissions.UpdateEntry | src/utils/Storage/DBCalls/permissions/index.ts:107-118 | only the given id's row changes, to the COALESCE patch; other rows and a missing id are untouched |
| Permissions.ApplyPermissionsUpdate | src/utils/Storage/DBCalls/permissions/index.ts:107-117 | every flag the patch leaves out, and the timeout when left out, keeps its stored value |
| Permissions.UpdateReplacesSuppliedFields | src/utils/Storage/DBCalls/permissions/index.ts:109-117 | each of the nine fields takes the supplied value when non-null and keeps its own otherwise |
| Permissions.UpdateLaws | src/utils/Storage/DBCalls/permissions/index.ts:107-118 | an update supplying nothing is the identity, and repeating an update changes nothing more |
| Permissions.UpdateThenRead | src/utils/Storage/DBCalls/permissions/index.ts:101-135 | after an update, a read of that id reflects the patch, a missing id still reads as the defaults, and other ids read as before |
| Permissions.PermissionsStore.ClearPermissions | src/utils/Storage/DBCalls/permissions/index.ts:141-151 | the table after the delete is `DeleteEntry` |
| Permissions.ClearThenRead | src/utils/Storage/DBCalls/permissions/index.ts:141-151 | after clearing an id, reading it gives the defaults; other ids read as before |
| SendDirectMessage.AssignLastMatchWins | src/utils/Messaging/Send/SendDirectMessage/index.ts:41-74 | a sender is chosen iff its group holds the content type and no group checked after it does |
| SendDirectMessage.RunChecks | src/utils/Messaging/Send/SendDirectMessage/index.ts:42-72 | the choice is either the one made before the checks or a sender whose group holds the content type |
| SendDirectMessage.AssignSenderClass | src/utils/Messaging/Send/SendDirectMessage/index.ts:41-74 | a sender is chosen only when its group holds the content type |
| SendDirectMessage.RunChecksLastMatch | src/utils/Messaging/Send/SendDirectMessage/index.ts:42-73 | running the tests in order leaves the last sender whose group holds the type, or the previous choice when none does |
| SendDirectMessage.AssignNoneIff | src/utils/Messaging/Send/SendDirectMessage/index.ts:41-74 | no sender is found iff no group holds the content type |
| SendDirectMessage.AssignUnderPartition | src/utils/Messaging/Send/SendDirectMessage/index.ts:41-74 | when the groups are disjoint, the chosen sender is exactly the one whose group holds the type |
| SendDirectMessage.SendDirectEffects | src/utils/Messaging/Send/SendDirectMessage/index.ts:76-93 | with a sender, it constructs that sender with the caller's five arguments and calls `send()` once and `retry()` never; without one, it constructs nothing and logs the type; the success callback is never called |
| SendDirectMessage.RetryDirectEffects | src/utils/Messaging/Send/SendDirectMessage/index.ts:95-112 | with a sender, it constructs that sender and calls `retry()` once and `send()` never; without one, it constructs nothing and logs the type; the success callback is never called |
| SendDirectMessage.SendAndRetryAgree | src/utils/Messaging/Send/SendDirectMessage/index.ts:84-105 | both entry points construct the same sender with the same arguments |
| SendDirectMessage.DirectDispatcher.SendDirect | src/utils/Messaging/Send/SendDirectMessage/index.ts:76-93 | appends exactly `SendEffects` of its arguments to the effect log |
| SendDirectMessage.DirectDispatcher.RetryDirect | src/utils/Messaging/Send/SendDirectMessage/index.ts:95-112 | appends exactly `RetryEffects` of its arguments to the effect log |
| ReceiveMessageDeletion.ReceiveMessageDeletionAction.GeneratePreviewText | src/utils/Messaging/Receive/ReceiveDirect/ActionClasses/ReceiveMessageDeletion.ts:9-11 | the preview text is always empty |
| ReceiveMessageDeletion.ReceiveMessageDeletionAction.PerformAction | src/utils/Messaging/Receive/ReceiveDirect/ActionClasses/ReceiveMessageDeletion.ts:12-26 | missing content fails before any storage call; otherwise it makes exactly two calls, in order: a clean delete of `messageIdToDelete` in this chat with flag true, then the conditional summary update with this chat, "This message was deleted" and type deleted; the storage ends in `AfterDeletion` |
| ReceiveMessageDeletion.AfterDeletion | src/utils/Messaging/Receive/ReceiveDirect/ActionClasses/ReceiveMessageDeletion.ts:15-25 | the deleted message is added to the deleted set and nothing else is; only this chat's summary may change, and its latest message id stays |
| ReceiveMessageDeletion.UpdateIfLatestIs | src/utils/Messaging/Receive/ReceiveDirect/ActionClasses/ReceiveMessageDeletion.ts:17-25 | the chat's summary takes the update's text and type only when its latest message is the given id; otherwise it is kept, and other chats' summaries are always kept |
| ReceiveMessageDeletion.SummaryCompareAndSwap | src/utils/Messaging/Receive/ReceiveDirect/ActionClasses/ReceiveMessageDeletion.ts:17-25 | the summary shows the deletion when it showed the deleted message, is kept when it shows another message, and keeps its latest-message id |
| ReceiveMessageDeletion.DeletionIdempotent | src/utils/Messaging/Receive/ReceiveDirect/ActionClasses/ReceiveMessageDeletion.ts:12-26 | receiving the same deletion twice leaves storage as receiving it once |
| ConnectionText.ContentTypeMap | src/utils/Connections/getConnectionTextByContentType.ts:25-76 | an entry without an emoji has no default text; only entries that show the message text have a non-empty default; deleted messages have no entry |
| ConnectionText.ExtractText | src/utils/Connections/getConnectionTextByContentType.ts:48-75 | plain entries read the message text and the shared-contact entry the bundle name; the contact-response text always starts with "shared you contact with "; the disappearing-messages text is empty, the OFF sentence or the ON sentence |
| ConnectionText.GetConnectionTextByContentType | src/utils/Connections/getConnectionTextByContentType.ts:78-95 | empty for an unmapped type or a missing message; a type with an emoji starts with the emoji and a space |
| ConnectionText.PreviewEmptyIff | src/utils/Connections/getConnectionTextByContentType.ts:78-95 | for a mapped type with a message, the preview is empty exactly when the entry has no emoji, no default text, and the extracted text is missing or empty |
| ConnectionText.TextAndLinkPreview | src/utils/Connections/getConnectionTextByContentType.ts:42-47 | text and link show the message text, or nothing, with no prefix |
| ConnectionText.MediaPreview | src/utils/Connections/getConnectionTextByContentType.ts:26-41 | file, image, video and audio show their emoji, a space, and the caption or the kind word |
| ConnectionText.ContactBundleWithoutName | src/utils/Connections/getConnectionTextByContentType.ts:48-52 | a shared contact without a name shows only the contact emoji and a space |
| ConnectionText.ContactResponseInterpolates | src/utils/Connections/getConnectionTextByContentType.ts:57-62 | a contact response always reads "shared you contact with" and the name, "undefined" when there is none |
| ConnectionText.ContactRequestPreview | src/utils/Connections/getConnectionTextByContentType.ts:53-56 | a contact request shows the contact emoji and the text, or "contact has been requested" |
| ConnectionText.DisappearingPreview | src/utils/Connections/getConnectionTextByContentType.ts:63-75 | nothing without a non-zero timeout; the OFF sentence when the timeout's label is "Off"; the ON sentence otherwise |
| CallContext.ManageCall | src/screens/Calls/CallContext.tsx:65-145 | a new call is refused while one exists; from no call an outgoing call becomes outgoing and an incoming call becomes unanswered, both with the action's ids; answer and decline act only on an unanswered call; end clears a call with a non-empty id and is otherwise a no-op |
| CallContext.AnsweredOnlyFromUnanswered | src/screens/Calls/CallContext.tsx:110-127 | one step enters answered only from an unanswered call, by an answer action, keeping the call and chat ids |
| CallContext.Run | src/screens/Calls/CallContext.tsx:65-145 | the trace of a run has one more state than actions, and each state is the reducer applied to the one before |
| CallContext.RunAnsweredOnlyFromUnanswered | src/screens/Calls/CallContext.tsx:71-143 | in any run, the state just before the call becomes answered is an unanswered call |
| CallContext.AnsweredNeedsIncoming | src/screens/Calls/CallContext.tsx:71-143 | from no call, an answered call is reached only after an incoming-call action |
| CallContext.UnansweredCameFromIncoming | src/screens/Calls/CallContext.tsx:84-108 | in a run from no call, an unanswered state was created by an earlier incoming-call action |
| DisplayStatus.NatToString | src/screens/Home/Tile/DisplayStatus.tsx:28-33 | the decimal rendering is non-empty digits with no leading zero |
| DisplayStatus.ParseNatToString | src/screens/Home/Tile/DisplayStatus.tsx:28-33 | reading the decimal rendering of n back gives n |
| DisplayStatus.NatToStringLength | src/screens/Home/Tile/DisplayStatus.tsx:28-33 | numbers below 10^k render in at most k digits |
| DisplayStatus.IntToString | src/screens/Home/Tile/DisplayStatus.tsx:32 | the rendering is non-empty, starts with a minus sign exactly for negative numbers, and is all digits otherwise |
| DisplayStatus.DisplayNumber | src/screens/Home/Tile/DisplayStatus.tsx:28-33 | the badge text is "999+" exactly when the count is above 999 |
| DisplayStatus.DisplayNumberShape | src/screens/Home/Tile/DisplayStatus.tsx:28-33 | above 999 the text is "999+"; otherwise it is the decimal string of the count; never more than four characters |
| DisplayStatus.MessageStatusIndicator | src/screens/Home/Tile/DisplayStatus.tsx:35-67 | a falsy status shows nothing; the sending, read and failure icons show exactly for journaled, read and failed |
| DisplayStatus.DisplayStatusView | src/screens/Home/Tile/DisplayStatus.tsx:69-114 | a deleted tile shows nothing; latest with unread messages shows a badge with `displayNumber`; latest without shows a spacer; any other status shows its indicator |
| DisplayStatus.BadgeShowsCount | src/screens/Home/Tile/DisplayStatus.tsx:78-100 | a badge appears only for a live tile with status latest and a positive count, has at most four characters, and reads back as the count up to 999 |
| BubbleFocusOptions.Shown | src/components/MessageBubbles/BubbleFocusOptions.tsx:173-294 | a deleted message shows delete and nothing else; edit is shown only for one's own message and report only for the peer's; reply and edit are shown only while connected |
| BubbleFocusOptions.VisibilityRules | src/components/MessageBubbles/BubbleFocusOptions.tsx:54-80 | each option's visibility: reply iff connected and not deleted; forward and copy iff not deleted and not excluded; edit iff connected, not deleted, own and editable; select iff not deleted; report iff not deleted, not own and reportable; delete always |
| BubbleFocusOptions.EditAndReportExclusive | src/components/MessageBubbles/BubbleFocusOptions.tsx:173-294 | edit and report are never shown together |
| BubbleFocusOptions.DeletedOffersOnlyDelete | src/components/MessageBubbles/BubbleFocusOptions.tsx:173-294 | a deleted message offers delete and nothing else |

## Left out

- The SQL engine is replaced by maps. The result order of an unordered `SELECT` is not modelled: `Select`, `GetAllMessagesIdsInChat` and `GetAllPermissions` return the rows in an unspecified order. The two tables' primary keys are not shown; an insert under an existing key is modelled as rejected.
- JSON encoding and decoding of `data` are the identity. An update that supplies an explicit `null` payload (JSON text "null") is not distinguished from other payload text.
- ConnectionText.Interpolate: JavaScript `null` and `undefined` are both `None`, so a shared-contact name that is explicitly `null` reads "undefined" in the model where the template literal renders "null".
- GetLatestMessages: the outer query of `getLatestMessages` (the reply left join) has no `ORDER BY`, so SQLite does not promise the order of the joined rows; the model assumes they keep the inner page's newest-first order, and `IsJoinOf` fixes that order.
- `toBool` is the identity: flags are stored as booleans. A permissions row whose columns are NULL is not modelled; every stored row has all nine values.
- The media table is a parameter `media` of `GetLatestMessages`; the media store itself is not part of this model. As a map it holds at most one path per media id; were a media id stored twice, the source's `LEFT JOIN media` would yield one row per match, which the model does not.
- The default limit of 50 of `getLatestMessages` is not modelled; callers pass a limit.
- Ties between equal timestamps are broken arbitrarily in the model; SQLite's tie order is not modelled.
- `defaultPermissions`, `booleanKeysOfPermissions` and `numberKeysOfPermissions` are configuration defined outside these files. They are constants of `PermissionsStore`, and the read-after-write lemmas assume key lists that name every key.
- The sender classes and their `send()`/`retry()` protocols (journalling, encryption, transport) are recorded as effects only. The ten content-type groups are a parameter.
- `cleanDeleteMessage` and `updateConnectionIfLatestMessageIsX` are not part of this model. Their effects are abstract state: the set of clean-deleted messages, and a compare-and-swap on the summary's latest message id. `decryptedMessageContentNotNullRule` is modelled as failing when the content is missing.
- `getLabelByTimeDiff` is a parameter `labelOf` of the preview function.
- The call context's calls into the operating system's call UI, the ring timer, its abort controller, navigation and the call tracker are side effects outside the reducer's result.
- Rendering, styles, icons and press handlers of the tile and of the focus menu are not modelled.
- An unknown numeric `ContentType` or `MessageStatus` value is represented by the `Other`/`OtherStatus` constructors.
- DisplayStatus.DisplayStatusView: the unread count is a JavaScript number; the model takes it as an integer, so a fractional or non-finite count is not modelled.
- DisplayStatus.MessageStatusIndicator: the numeric values of `MessageStatus` are not part of this model. A status whose enum value is 0 would be falsy, so the tile would show no indicator for it. The model treats only a missing status as falsy.
