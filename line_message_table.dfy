/**
 * The direct-message table as a value: its rows keyed by chat and message id,
 * the row changes the store's statements make, and the shape of the pages it
 * reads. The store class in module LineMessage is specified in these terms.
 *
 * ISO timestamps are integers (ISO strings of one format order as the times
 * they denote), SQL NULL is `None`, and a payload is its JSON text.
 */
module LineMessageTable {
  import opened Wrappers
  import opened MessageTypes

  type Timestamp = int
  type MediaId = string
  type FilePath = string

  /** A row of the table. */
  datatype LineMessageData = LineMessageData(
    messageId: MessageId,
    chatId: ChatId,
    contentType: ContentType,
    data: Data,
    replyId: Option<MessageId>,
    sender: bool,                         // sent by this device
    timestamp: Option<Timestamp>,
    messageStatus: Option<MessageStatus>,
    deliveredTimestamp: Option<Timestamp>,
    readTimestamp: Option<Timestamp>,
    shouldAck: Option<bool>,
    hasReaction: Option<bool>,
    expiresOn: Option<Timestamp>,
    mediaId: Option<MediaId>,
    mtime: Option<Timestamp>)

  datatype Key = Key(chatId: ChatId, messageId: MessageId)

  function KeyOf(m: LineMessageData): (k: Key) {
    Key(m.chatId, m.messageId)
  }

  type Table = map<Key, LineMessageData>

  /** Every row sits under its own chat and message id. */
  ghost predicate WellKeyed(t: Table) {
    forall k :: k in t ==> KeyOf(t[k]) == k
  }

  // ---------------------------------------------------------------- insert

  /** The row an insert writes: the delivery, read and reaction columns are not written. */
  function Inserted(m: LineMessageData, now: Timestamp): (r: LineMessageData) {
    m.(deliveredTimestamp := None, readTimestamp := None, hasReaction := None, mtime := Some(now))
  }

  /** An insert; a row already under the message's key rejects it. */
  function InsertRow(t: Table, m: LineMessageData, now: Timestamp): (t': Table)
    ensures KeyOf(m) in t ==> t' == t
    ensures KeyOf(m) !in t ==> t'.Keys == t.Keys + {KeyOf(m)}
    ensures forall k :: k in t ==> k in t' && t'[k] == t[k]
    ensures WellKeyed(t) ==> WellKeyed(t')
  {
    if KeyOf(m) in t then t else t[KeyOf(m) := Inserted(m, now)]
  }

  /** `SELECT * ... WHERE chatId = ? and messageId = ?`. */
  function Lookup(t: Table, chatId: ChatId, messageId: MessageId): (r: Option<LineMessageData>)
    ensures r.None? <==> Key(chatId, messageId) !in t
    ensures WellKeyed(t) && r.Some? ==> r.value.chatId == chatId && r.value.messageId == messageId
  {
    if Key(chatId, messageId) in t then Some(t[Key(chatId, messageId)]) else None
  }

  /**
   * After an insert, the message reads back with every column the insert
   * writes, and with no delivery mark, read mark or reaction flag.
   */
  lemma AddThenGet(t: Table, m: LineMessageData, now: Timestamp)
    requires KeyOf(m) !in t
    ensures var r := Lookup(InsertRow(t, m, now), m.chatId, m.messageId);
      && r.Some?
      && r.value.contentType == m.contentType && r.value.data == m.data
      && r.value.replyId == m.replyId && r.value.sender == m.sender
      && r.value.timestamp == m.timestamp && r.value.messageStatus == m.messageStatus
      && r.value.expiresOn == m.expiresOn && r.value.shouldAck == m.shouldAck
      && r.value.mediaId == m.mediaId
      && r.value.hasReaction.None? && r.value.readTimestamp.None? && r.value.deliveredTimestamp.None?
      && r.value.mtime == Some(now)
  {
  }

  // ---------------------------------------------------------------- update

  /** The columns an update may change; `None` means "not supplied". */
  datatype UpdateMessageParams = UpdateMessageParams(
    contentType: Option<ContentType>,
    data: Option<Data>,
    replyId: Option<MessageId>,
    timestamp: Option<Timestamp>,
    messageStatus: Option<MessageStatus>,
    deliveredTimestamp: Option<Timestamp>,
    readTimestamp: Option<Timestamp>,
    shouldAck: Option<bool>,
    hasReaction: Option<bool>,
    expiresOn: Option<Timestamp>,
    mediaId: Option<MediaId>)

  /**
   * The row after an update at time `now`. Supplied values replace the
   * stored ones, except that the delivery and read marks keep a stored value.
   */
  function ApplyUpdate(m: LineMessageData, p: UpdateMessageParams, now: Timestamp): (r: LineMessageData)
    // the row stays under its key, keeps its sender and is stamped with `now`
    ensures KeyOf(r) == KeyOf(m) && r.sender == m.sender && r.mtime == Some(now)
    // a mark already set is never overwritten
    ensures m.deliveredTimestamp.Some? ==> r.deliveredTimestamp == m.deliveredTimestamp
    ensures m.readTimestamp.Some? ==> r.readTimestamp == m.readTimestamp
  {
    m.(
      contentType := p.contentType.GetOr(m.contentType),
      data := p.data.GetOr(m.data),
      replyId := Coalesce(p.replyId, m.replyId),
      timestamp := Coalesce(p.timestamp, m.timestamp),
      messageStatus := Coalesce(p.messageStatus, m.messageStatus),
      deliveredTimestamp := Coalesce(m.deliveredTimestamp, p.deliveredTimestamp),
      readTimestamp := Coalesce(m.readTimestamp, p.readTimestamp),
      shouldAck := Coalesce(p.shouldAck, m.shouldAck),
      hasReaction := Coalesce(p.hasReaction, m.hasReaction),
      expiresOn := Coalesce(p.expiresOn, m.expiresOn),
      mediaId := Coalesce(p.mediaId, m.mediaId),
      mtime := Some(now))
  }

  /** Each ordinary column takes the supplied value when there is one and keeps its own otherwise. */
  lemma UpdateReplacesSuppliedColumns(m: LineMessageData, p: UpdateMessageParams, now: Timestamp)
    ensures var r := ApplyUpdate(m, p, now);
      && r.contentType == (if p.contentType.Some? then p.contentType.value else m.contentType)
      && r.data == (if p.data.Some? then p.data.value else m.data)
      && r.replyId == (if p.replyId.Some? then p.replyId else m.replyId)
      && r.timestamp == (if p.timestamp.Some? then p.timestamp else m.timestamp)
      && r.messageStatus == (if p.messageStatus.Some? then p.messageStatus else m.messageStatus)
      && r.shouldAck == (if p.shouldAck.Some? then p.shouldAck else m.shouldAck)
      && r.hasReaction == (if p.hasReaction.Some? then p.hasReaction else m.hasReaction)
      && r.expiresOn == (if p.expiresOn.Some? then p.expiresOn else m.expiresOn)
      && r.mediaId == (if p.mediaId.Some? then p.mediaId else m.mediaId)
      // the key and the sender are never updated
      && r.chatId == m.chatId && r.messageId == m.messageId && r.sender == m.sender
  {
  }

  /** The delivery and read marks are written only while unset. */
  lemma UpdateSetsMarksOnce(m: LineMessageData, p: UpdateMessageParams, now: Timestamp)
    ensures var r := ApplyUpdate(m, p, now);
      && r.deliveredTimestamp == (if m.deliveredTimestamp.Some? then m.deliveredTimestamp else p.deliveredTimestamp)
      && r.readTimestamp == (if m.readTimestamp.Some? then m.readTimestamp else p.readTimestamp)
  {
  }

  /** Repeating an update at the same time changes nothing more. */
  lemma UpdateIdempotent(m: LineMessageData, p: UpdateMessageParams, now: Timestamp)
    ensures ApplyUpdate(ApplyUpdate(m, p, now), p, now) == ApplyUpdate(m, p, now)
  {
  }

  /** A run of updates, each with the time it was made. */
  function ApplyUpdates(m: LineMessageData, updates: seq<(UpdateMessageParams, Timestamp)>): (r: LineMessageData)
    decreases |updates|
  {
    if updates == [] then m else ApplyUpdates(ApplyUpdate(m, updates[0].0, updates[0].1), updates[1..])
  }

  /** The first value that is set, in order: `first`, then the supplied read marks. */
  function FirstReadMark(first: Option<Timestamp>, updates: seq<(UpdateMessageParams, Timestamp)>): (mark: Option<Timestamp>)
    decreases |updates|
  {
    if first.Some? || updates == [] then first else FirstReadMark(updates[0].0.readTimestamp, updates[1..])
  }

  function FirstDeliveredMark(first: Option<Timestamp>, updates: seq<(UpdateMessageParams, Timestamp)>): (mark: Option<Timestamp>)
    decreases |updates|
  {
    if first.Some? || updates == [] then first else FirstDeliveredMark(updates[0].0.deliveredTimestamp, updates[1..])
  }

  /**
   * Over any run of updates, the read and delivery marks end up as the first
   * ones ever set: once set, a mark is never overwritten or cleared.
   */
  lemma {:induction false} MarksAreSetOnce(m: LineMessageData, updates: seq<(UpdateMessageParams, Timestamp)>)
    ensures ApplyUpdates(m, updates).readTimestamp == FirstReadMark(m.readTimestamp, updates)
    ensures ApplyUpdates(m, updates).deliveredTimestamp == FirstDeliveredMark(m.deliveredTimestamp, updates)
    decreases |updates|
  {
    if updates != [] {
      MarksAreSetOnce(ApplyUpdate(m, updates[0].0, updates[0].1), updates[1..]);
    }
  }

  /** A set read mark, and a set delivery mark, keep their values through every later update. */
  lemma {:induction false} ReadMarkNeverChanges(m: LineMessageData, updates: seq<(UpdateMessageParams, Timestamp)>)
    ensures m.readTimestamp.Some? ==> ApplyUpdates(m, updates).readTimestamp == m.readTimestamp
    ensures m.deliveredTimestamp.Some? ==> ApplyUpdates(m, updates).deliveredTimestamp == m.deliveredTimestamp
  {
    MarksAreSetOnce(m, updates);
    if m.deliveredTimestamp.Some? {
      FirstMarkKept(m.deliveredTimestamp, updates);
    }
  }

  lemma {:induction false} FirstMarkKept(first: Option<Timestamp>, updates: seq<(UpdateMessageParams, Timestamp)>)
    requires first.Some?
    ensures FirstDeliveredMark(first, updates) == first
  {
  }

  /** `UPDATE ... WHERE chatId = ? AND messageId = ?`: only that row, if present. */
  function UpdateRow(t: Table, chatId: ChatId, messageId: MessageId, p: UpdateMessageParams, now: Timestamp): (t': Table)
    ensures t'.Keys == t.Keys
    ensures forall k :: k in t && k != Key(chatId, messageId) ==> t'[k] == t[k]
    ensures Key(chatId, messageId) !in t ==> t' == t
    ensures Key(chatId, messageId) in t ==> t'[Key(chatId, messageId)] == ApplyUpdate(t[Key(chatId, messageId)], p, now)
    ensures WellKeyed(t) ==> WellKeyed(t')
  {
    var key := Key(chatId, messageId);
    if key in t then t[key := ApplyUpdate(t[key], p, now)] else t
  }

  /** `DELETE ... WHERE chatId = ? AND messageId = ?`. */
  function DeleteRow(t: Table, chatId: ChatId, messageId: MessageId): (t': Table)
    ensures t'.Keys == t.Keys - {Key(chatId, messageId)}
    ensures forall k :: k in t' ==> t'[k] == t[k]
    ensures WellKeyed(t) ==> WellKeyed(t')
  {
    t - {Key(chatId, messageId)}
  }

  /** A deleted message reads back as missing; deleting it again changes nothing. */
  lemma DeleteThenGet(t: Table, chatId: ChatId, messageId: MessageId)
    ensures Lookup(DeleteRow(t, chatId, messageId), chatId, messageId).None?
    ensures DeleteRow(DeleteRow(t, chatId, messageId), chatId, messageId) == DeleteRow(t, chatId, messageId)
  {
  }

  // ---------------------------------------------------------------- filters

  predicate IsUnsent(m: LineMessageData) {
    m.messageStatus == Some(Journaled)
  }

  /** `expiresOn < now` in SQL: false when `expiresOn` is NULL. */
  predicate HasExpired(m: LineMessageData, now: Timestamp) {
    m.expiresOn.Some? && m.expiresOn.value < now
  }

  /** `DELETE ... WHERE messageStatus = journaled`. */
  function DeleteUnsentRows(t: Table): (t': Table)
    ensures forall k :: k in t' <==> k in t && !IsUnsent(t[k])
    ensures forall k :: k in t' ==> t'[k] == t[k]
    ensures WellKeyed(t) ==> WellKeyed(t')
  {
    map k | k in t && !IsUnsent(t[k]) :: t[k]
  }

  // ---------------------------------------------------------------- latest page

  /**
   * `a` sorts at or before `b` in `ORDER BY timestamp DESC`, where a NULL
   * timestamp sorts below every value.
   */
  predicate TimeAtLeast(a: Option<Timestamp>, b: Option<Timestamp>) {
    b.None? || (a.Some? && a.value >= b.value)
  }

  /** The number of rows `LIMIT limit` keeps of `n`; a negative limit keeps all. */
  function Cap(limit: int, n: nat): (c: nat)
    ensures c <= n && (limit >= 0 ==> c <= limit)
  {
    if limit < 0 || n <= limit then n else limit
  }

  /** `k` is a newest of the rows under `cands`: the first row `ORDER BY timestamp DESC` yields. */
  predicate IsNewest(t: Table, cands: set<Key>, k: Key)
    requires cands <= t.Keys
  {
    k in cands && forall c :: c in cands ==> TimeAtLeast(t[k].timestamp, t[c].timestamp)
  }

  /** Every non-empty set of rows has a newest row; NULL timestamps rank last. */
  lemma {:induction false} NewestExists(t: Table, cands: set<Key>)
    requires cands != {} && cands <= t.Keys
    ensures exists k :: IsNewest(t, cands, k)
    decreases |cands|
  {
    var c :| c in cands;
    if cands == {c} {
      assert IsNewest(t, cands, c);
    } else {
      NewestExists(t, cands - {c});
      var k :| IsNewest(t, cands - {c}, k);
      if TimeAtLeast(t[k].timestamp, t[c].timestamp) {
        assert IsNewest(t, cands, k);
      } else {
        assert IsNewest(t, cands, c);
      }
    }
  }

  function ChatKeys(t: Table, chatId: ChatId): (ks: set<Key>) {
    set k | k in t && k.chatId == chatId
  }

  /** The rows `WHERE chatId = ? AND contentType = ?` selects. */
  function TypedKeys(t: Table, chatId: ChatId, contentType: ContentType): (ks: set<Key>) {
    set k | k in t && k.chatId == chatId && t[k].contentType == contentType
  }

  function KeysOf(s: seq<LineMessageData>): (ks: set<Key>) {
    set i | 0 <= i < |s| :: KeyOf(s[i])
  }

  /** Rows of the table, each at most once. */
  ghost predicate DistinctRows(t: Table, s: seq<LineMessageData>) {
    && (forall i :: 0 <= i < |s| ==> KeyOf(s[i]) in t && t[KeyOf(s[i])] == s[i])
    && (forall i, j :: 0 <= i < j < |s| ==> KeyOf(s[i]) != KeyOf(s[j]))
  }

  /**
   * The inner query of the latest-messages read: up to `limit` rows of the
   * chat, newest first, and none of the chat's rows left out is newer than
   * a row taken.
   */
  ghost predicate IsLatestPage(t: Table, chatId: ChatId, limit: int, page: seq<LineMessageData>) {
    && DistinctRows(t, page)
    && |page| == Cap(limit, |ChatKeys(t, chatId)|)
    && (forall i :: 0 <= i < |page| ==> page[i].chatId == chatId)
    && (forall i, j :: 0 <= i < j < |page| ==> TimeAtLeast(page[i].timestamp, page[j].timestamp))
    && (forall i, k :: 0 <= i < |page| && k in ChatKeys(t, chatId) - KeysOf(page) ==>
          TimeAtLeast(page[i].timestamp, t[k].timestamp))
  }

  /**
   * A page under construction: the rows taken so far, newest first, and the
   * chat's rows not yet taken, none newer than a row taken.
   */
  ghost predicate PageSoFar(t: Table, chatId: ChatId, page: seq<LineMessageData>, rest: set<Key>) {
    && rest == ChatKeys(t, chatId) - KeysOf(page)
    && DistinctRows(t, page)
    && (forall i :: 0 <= i < |page| ==> page[i].chatId == chatId)
    && (forall i, j :: 0 <= i < j < |page| ==> TimeAtLeast(page[i].timestamp, page[j].timestamp))
    && (forall i, k :: 0 <= i < |page| && k in rest ==> TimeAtLeast(page[i].timestamp, t[k].timestamp))
  }

  /** Taking the newest row not yet taken extends the page. */
  lemma PageStep(t: Table, chatId: ChatId, page: seq<LineMessageData>, rest: set<Key>, k: Key)
    requires WellKeyed(t) && PageSoFar(t, chatId, page, rest)
    requires rest <= t.Keys && IsNewest(t, rest, k)
    ensures PageSoFar(t, chatId, page + [t[k]], rest - {k})
  {
    var page' := page + [t[k]];
    KeysOfSnoc(page, t[k]);
    assert forall i :: 0 <= i < |page| ==> page'[i] == page[i];
    assert page'[|page|] == t[k];
  }

  lemma KeysOfSnoc(s: seq<LineMessageData>, m: LineMessageData)
    ensures KeysOf(s + [m]) == KeysOf(s) + {KeyOf(m)}
  {
    var s' := s + [m];
    assert forall i :: 0 <= i < |s| ==> s'[i] == s[i];
    assert s'[|s|] == m;
  }

  /** Distinct keys: as many keys as rows. */
  lemma {:induction false} DistinctKeysCount(s: seq<LineMessageData>)
    requires forall i, j :: 0 <= i < j < |s| ==> KeyOf(s[i]) != KeyOf(s[j])
    ensures |KeysOf(s)| == |s|
    decreases |s|
  {
    if s != [] {
      var init := s[..|s| - 1];
      DistinctKeysCount(init);
      assert s == init + [s[|s| - 1]];
      KeysOfSnoc(init, s[|s| - 1]);
      assert KeyOf(s[|s| - 1]) !in KeysOf(init);
    }
  }

  // ---------------------------------------------------------------- reply join

  /** The reply columns of a loaded message; all NULL when no reply row joined. */
  datatype ReplyContent = ReplyContent(
    contentType: Option<ContentType>,
    data: Option<Data>,
    sender: Option<bool>,
    chatId: Option<ChatId>)

  const NoReply := ReplyContent(None, None, None, None)

  function ReplyOf(r: LineMessageData): (reply: ReplyContent) {
    ReplyContent(Some(r.contentType), Some(r.data), Some(r.sender), Some(r.chatId))
  }

  /** The message columns the outer query projects: every stored column but `replyId`. */
  function WithoutReplyId(m: LineMessageData): (r: LineMessageData) {
    m.(replyId := None)
  }

  datatype LoadedMessage = LoadedMessage(
    message: LineMessageData,
    filePath: Option<FilePath>,
    reply: ReplyContent)

  /**
   * The rows `ON message.replyId = reply.messageId` joins: the id alone
   * is compared, so rows of any chat with that id match.
   */
  function ReplyKeys(t: Table, replyId: Option<MessageId>): (ks: set<Key>) {
    set k | k in t && replyId == Some(k.messageId)
  }

  /** `LEFT JOIN media ON message.mediaId = media.mediaId`. */
  function FilePathOf(media: map<MediaId, FilePath>, m: LineMessageData): (path: Option<FilePath>) {
    if m.mediaId.Some? && m.mediaId.value in media then Some(media[m.mediaId.value]) else None
  }

  /** How many result rows a message yields: one per joined reply row, and one when none joins. */
  function BlockSize(t: Table, m: LineMessageData): (n: nat) {
    if ReplyKeys(t, m.replyId) == {} then 1 else |ReplyKeys(t, m.replyId)|
  }

  /** The result rows a left join yields for one message. */
  ghost predicate IsBlock(t: Table, media: map<MediaId, FilePath>, m: LineMessageData, block: seq<LoadedMessage>) {
    && |block| == BlockSize(t, m)
    && (forall i :: 0 <= i < |block| ==> block[i].message == WithoutReplyId(m) && block[i].filePath == FilePathOf(media, m))
    && (ReplyKeys(t, m.replyId) == {} ==> block[0].reply == NoReply)
    && (ReplyKeys(t, m.replyId) != {} ==>
          && (forall k :: k in ReplyKeys(t, m.replyId) ==> exists i :: 0 <= i < |block| && block[i].reply == ReplyOf(t[k]))
          && (forall i :: 0 <= i < |block| ==> block[i].reply != NoReply))
  }

  /** The joined result: the blocks of the page's messages, in page order. */
  ghost predicate IsJoinOf(t: Table, media: map<MediaId, FilePath>, page: seq<LineMessageData>, list: seq<LoadedMessage>)
    decreases |page|
  {
    if page == [] then list == []
    else
      var n := BlockSize(t, page[0]);
      n <= |list| && IsBlock(t, media, page[0], list[..n]) && IsJoinOf(t, media, page[1..], list[n..])
  }

  /** A page of one message joins to that message's block. */
  lemma JoinOfOne(t: Table, media: map<MediaId, FilePath>, m: LineMessageData, block: seq<LoadedMessage>)
    requires IsBlock(t, media, m, block)
    ensures IsJoinOf(t, media, [m], block)
  {
    assert [m][1..] == [];
    assert block[..|block|] == block;
    assert IsJoinOf(t, media, [], block[|block|..]);
  }

  /** Appending a message and its block to a join gives the join of the longer page. */
  lemma {:induction false} JoinSnoc(t: Table, media: map<MediaId, FilePath>, page: seq<LineMessageData>, list: seq<LoadedMessage>,
                                    m: LineMessageData, block: seq<LoadedMessage>)
    requires IsJoinOf(t, media, page, list) && IsBlock(t, media, m, block)
    ensures IsJoinOf(t, media, page + [m], list + block)
    decreases |page|
  {
    if page == [] {
      assert page + [m] == [m] && list + block == block;
      JoinOfOne(t, media, m, block);
    } else {
      var n := BlockSize(t, page[0]);
      JoinUncons(t, media, page, list);
      JoinSnoc(t, media, page[1..], list[n..], m, block);
      JoinSnocStep(t, media, page, list, m, block);
    }
  }

  /** Joining one more message of a page extends the join of the prefix by that message's block. */
  lemma JoinPrefixStep(t: Table, media: map<MediaId, FilePath>, page: seq<LineMessageData>, i: nat,
                       list: seq<LoadedMessage>, block: seq<LoadedMessage>)
    requires i < |page| && IsJoinOf(t, media, page[..i], list) && IsBlock(t, media, page[i], block)
    ensures IsJoinOf(t, media, page[..i + 1], list + block)
  {
    JoinSnoc(t, media, page[..i], list, page[i], block);
    assert page[..i + 1] == page[..i] + [page[i]];
  }

  /** The inductive step of `JoinSnoc`: the first block stays in front of the longer join. */
  lemma JoinSnocStep(t: Table, media: map<MediaId, FilePath>, page: seq<LineMessageData>, list: seq<LoadedMessage>,
                     m: LineMessageData, block: seq<LoadedMessage>)
    requires page != [] && BlockSize(t, page[0]) <= |list|
    requires IsBlock(t, media, page[0], list[..BlockSize(t, page[0])])
    requires IsJoinOf(t, media, page[1..] + [m], list[BlockSize(t, page[0])..] + block)
    ensures IsJoinOf(t, media, page + [m], list + block)
  {
    var n := BlockSize(t, page[0]);
    SnocSlices(page, [m], 1);
    SnocSlices(list, block, n);
    JoinCons(t, media, page + [m], list + block);
  }

  /** Slicing a sequence with more appended, at a point inside the sequence. */
  lemma SnocSlices<T>(s: seq<T>, x: seq<T>, n: nat)
    requires n <= |s|
    ensures (s + x)[..n] == s[..n] && (s + x)[n..] == s[n..] + x
  {
  }

  /** The join of a non-empty page starts with its first message's block and goes on with the join of the rest. */
  lemma JoinUncons(t: Table, media: map<MediaId, FilePath>, page: seq<LineMessageData>, list: seq<LoadedMessage>)
    requires page != [] && IsJoinOf(t, media, page, list)
    ensures BlockSize(t, page[0]) <= |list|
    ensures IsBlock(t, media, page[0], list[..BlockSize(t, page[0])])
    ensures IsJoinOf(t, media, page[1..], list[BlockSize(t, page[0])..])
  {
  }

  /** A page joins to a list that starts with its first message's block and goes on with the join of the rest. */
  lemma JoinCons(t: Table, media: map<MediaId, FilePath>, page: seq<LineMessageData>, list: seq<LoadedMessage>)
    requires page != [] && BlockSize(t, page[0]) <= |list|
    requires IsBlock(t, media, page[0], list[..BlockSize(t, page[0])])
    requires IsJoinOf(t, media, page[1..], list[BlockSize(t, page[0])..])
    ensures IsJoinOf(t, media, page, list)
  {
  }

  /** No message id is used in two chats. */
  ghost predicate UniqueMessageIds(t: Table) {
    forall k1, k2 :: k1 in t && k2 in t && k1.messageId == k2.messageId ==> k1 == k2
  }

  /** When message ids are unique across chats, the join yields one row per message of the page. */
  lemma {:induction false} JoinKeepsPageSize(t: Table, media: map<MediaId, FilePath>, page: seq<LineMessageData>, list: seq<LoadedMessage>)
    requires UniqueMessageIds(t) && IsJoinOf(t, media, page, list)
    ensures |list| == |page|
    decreases |page|
  {
    if page != [] {
      var ks := ReplyKeys(t, page[0].replyId);
      if ks != {} {
        var k :| k in ks;
        assert ks == {k};
      }
      JoinKeepsPageSize(t, media, page[1..], list[BlockSize(t, page[0])..]);
    }
  }

  /** The join keeps every message of the page, in order, at the head of its block. */
  lemma {:induction false} JoinCoversPage(t: Table, media: map<MediaId, FilePath>, page: seq<LineMessageData>, list: seq<LoadedMessage>, i: nat)
    requires IsJoinOf(t, media, page, list) && i < |page|
    ensures exists j :: 0 <= j < |list| && list[j].message == WithoutReplyId(page[i])
    ensures ReplyKeys(t, page[i].replyId) == {} ==>
              exists j :: 0 <= j < |list| && list[j] == LoadedMessage(WithoutReplyId(page[i]), FilePathOf(media, page[i]), NoReply)
    decreases |page|
  {
    var n := BlockSize(t, page[0]);
    if i == 0 {
      assert list[..n][0] == list[0];
    } else {
      JoinCoversPage(t, media, page[1..], list[n..], i - 1);
      var j :| 0 <= j < |list[n..]| && list[n..][j].message == WithoutReplyId(page[1..][i - 1]);
      assert list[n + j] == list[n..][j];
      if ReplyKeys(t, page[i].replyId) == {} {
        var j' :| 0 <= j' < |list[n..]| && list[n..][j'] == LoadedMessage(WithoutReplyId(page[1..][i - 1]), FilePathOf(media, page[i]), NoReply);
        assert list[n + j'] == list[n..][j'];
      }
    }
  }

  /** Every row of the join carries a message of the page. */
  lemma {:induction false} JoinRowsFromPage(t: Table, media: map<MediaId, FilePath>, page: seq<LineMessageData>, list: seq<LoadedMessage>, j: nat)
    requires IsJoinOf(t, media, page, list) && j < |list|
    ensures exists i :: 0 <= i < |page| && list[j].message == WithoutReplyId(page[i])
    decreases |page|
  {
    var n := BlockSize(t, page[0]);
    if j < n {
      assert list[..n][j] == list[j];
    } else {
      JoinRowsFromPage(t, media, page[1..], list[n..], j - n);
      var i :| 0 <= i < |page[1..]| && list[n..][j - n].message == WithoutReplyId(page[1..][i]);
      assert page[i + 1] == page[1..][i];
    }
  }

  /**
   * The latest-messages read: every row is a stored row of the chat with
   * its reply id left out, and with message ids unique across chats there
   * are at most `limit` rows.
   */
  lemma LatestLoadedShape(t: Table, media: map<MediaId, FilePath>, chatId: ChatId, limit: int,
                          page: seq<LineMessageData>, list: seq<LoadedMessage>)
    requires IsLatestPage(t, chatId, limit, page) && IsJoinOf(t, media, page, list)
    ensures forall j :: 0 <= j < |list| ==>
              && list[j].message.chatId == chatId && KeyOf(list[j].message) in t
              && list[j].message == WithoutReplyId(t[KeyOf(list[j].message)])
    ensures UniqueMessageIds(t) && limit >= 0 ==> |list| <= limit
  {
    forall j | 0 <= j < |list|
      ensures && list[j].message.chatId == chatId && KeyOf(list[j].message) in t
              && list[j].message == WithoutReplyId(t[KeyOf(list[j].message)])
    {
      JoinRowsFromPage(t, media, page, list, j);
    }
    if UniqueMessageIds(t) {
      JoinKeepsPageSize(t, media, page, list);
    }
  }

  /**
   * The join compares message ids only: with a row of another chat that
   * shares the replied-to id, a page of one message loads as two rows.
   */
  lemma JoinCanExceedLimit(media: map<MediaId, FilePath>, page: seq<LineMessageData>, list: seq<LoadedMessage>, a: LineMessageData, b: LineMessageData, m: LineMessageData)
    requires a.chatId == "chat-a" && a.messageId == "x"
    requires b.chatId == "chat-b" && b.messageId == "x"
    requires m.chatId == "chat-m" && m.messageId == "y" && m.replyId == Some("x")
    requires page == [m]
    requires IsJoinOf(map[KeyOf(a) := a, KeyOf(b) := b, KeyOf(m) := m], media, page, list)
    ensures |list| == 2 && |page| == 1
  {
    var t := map[KeyOf(a) := a, KeyOf(b) := b, KeyOf(m) := m];
    assert ReplyKeys(t, m.replyId) == {KeyOf(a), KeyOf(b)};
  }
}
