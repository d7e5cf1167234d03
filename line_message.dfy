/**
 * The store of direct messages: one table of rows keyed by chat and message
 * id, with the inserts, reads, updates and deletes the send and receive paths
 * use. Each operation is one statement against the table; the readers walk
 * the rows the statement selects and collect them.
 */
module LineMessage {
  import opened Wrappers
  import opened MessageTypes
  import opened LineMessageTable

  class LineMessageStore {
    var rows: Table

    ghost predicate Valid()
      reads this
    {
      WellKeyed(rows)
    }

    constructor ()
      ensures Valid() && rows == map[]
    {
      rows := map[];
    }

    /** Saves a new message at time `now`; a message already stored under its key is kept. */
    method AddMessage(message: LineMessageData, now: Timestamp) returns (inserted: bool)
      requires Valid()
      modifies this
      ensures Valid()
      ensures inserted <==> KeyOf(message) !in old(rows)
      ensures rows == InsertRow(old(rows), message, now)
    {
      inserted := KeyOf(message) !in rows;
      rows := InsertRow(rows, message, now);
    }

    method GetMessage(chatId: ChatId, messageId: MessageId) returns (entry: Option<LineMessageData>)
      requires Valid()
      ensures entry.None? <==> Key(chatId, messageId) !in rows
      ensures entry.Some? ==> entry.value == rows[Key(chatId, messageId)]
      ensures entry.Some? ==> entry.value.chatId == chatId && entry.value.messageId == messageId
    {
      entry := Lookup(rows, chatId, messageId);
    }

    /**
     * Walks all rows and collects those `keep` selects, each once: the
     * rows a `SELECT * ... WHERE` returns.
     */
    method Select(keep: LineMessageData -> bool) returns (list: seq<LineMessageData>)
      requires Valid()
      ensures DistinctRows(rows, list)
      ensures forall i :: 0 <= i < |list| ==> keep(list[i])
      ensures forall k :: k in rows && keep(rows[k]) ==> k in KeysOf(list)
      ensures |list| == |set k | k in rows && keep(rows[k])|
    {
      list := [];
      var remaining := rows.Keys;
      while remaining != {}
        invariant SelectedSoFar(rows, keep, remaining, list)
        decreases |remaining|
      {
        var k :| k in remaining;
        SelectStep(rows, keep, remaining, list, k);
        if keep(rows[k]) {
          list := list + [rows[k]];
        }
        remaining := remaining - {k};
      }
      SelectedCount(rows, keep, list);
    }

    /** `getUnsent`: the journaled rows of every chat. */
    method GetUnsent() returns (unsent: seq<LineMessageData>)
      requires Valid()
      ensures DistinctRows(rows, unsent)
      ensures forall i :: 0 <= i < |unsent| ==> IsUnsent(unsent[i])
      ensures forall k :: k in rows && IsUnsent(rows[k]) ==> k in KeysOf(unsent)
      ensures |unsent| == |set k | k in rows && IsUnsent(rows[k])|
    {
      var keep := m => IsUnsent(m);
      unsent := Select(keep);
      assert (set k | k in rows && keep(rows[k])) == set k | k in rows && IsUnsent(rows[k]);
    }

    /** `getExpiredMessages`: the rows whose expiry is set and before `now`. */
    method GetExpiredMessages(now: Timestamp) returns (expired: seq<LineMessageData>)
      requires Valid()
      ensures DistinctRows(rows, expired)
      ensures forall i :: 0 <= i < |expired| ==> HasExpired(expired[i], now)
      ensures forall k :: k in rows && HasExpired(rows[k], now) ==> k in KeysOf(expired)
      ensures |expired| == |set k | k in rows && HasExpired(rows[k], now)|
    {
      var keep := m => HasExpired(m, now);
      expired := Select(keep);
      assert (set k | k in rows && keep(rows[k])) == set k | k in rows && HasExpired(rows[k], now);
    }

    /** The row `ORDER BY timestamp DESC LIMIT 1` returns from the rows under `cands`. */
    method Newest(cands: set<Key>) returns (k: Key)
      requires Valid() && cands != {} && cands <= rows.Keys
      ensures IsNewest(rows, cands, k)
    {
      NewestExists(rows, cands);
      k :| IsNewest(rows, cands, k);
    }

    /** `getLastMessageOfType`: a newest row of the chat with that content type, if any. */
    method GetLastMessageOfType(chatId: ChatId, contentType: ContentType) returns (entry: Option<LineMessageData>)
      requires Valid()
      ensures entry.None? <==> TypedKeys(rows, chatId, contentType) == {}
      ensures entry.Some? ==>
        && KeyOf(entry.value) in rows && rows[KeyOf(entry.value)] == entry.value
        && entry.value.chatId == chatId && entry.value.contentType == contentType
        && forall k :: k in TypedKeys(rows, chatId, contentType) ==> TimeAtLeast(entry.value.timestamp, rows[k].timestamp)
    {
      var cands := TypedKeys(rows, chatId, contentType);
      if cands == {} {
        entry := None;
      } else {
        var k := Newest(cands);
        entry := Some(rows[k]);
      }
    }

    /** `getAllMessagesIdsInChat`: the id of every message of the chat, once each. */
    method GetAllMessagesIdsInChat(chatId: ChatId) returns (ids: seq<MessageId>)
      requires Valid()
      ensures forall id :: id in ids <==> Key(chatId, id) in rows
      ensures forall i, j :: 0 <= i < j < |ids| ==> ids[i] != ids[j]
    {
      ids := [];
      var remaining := ChatKeys(rows, chatId);
      while remaining != {}
        invariant remaining <= ChatKeys(rows, chatId)
        invariant forall id :: id in ids <==> Key(chatId, id) in rows && Key(chatId, id) !in remaining
        invariant forall i, j :: 0 <= i < j < |ids| ==> ids[i] != ids[j]
        decreases |remaining|
      {
        var k :| k in remaining;
        assert k == Key(chatId, k.messageId);
        remaining := remaining - {k};
        ids := ids + [k.messageId];
      }
    }

    /**
     * The inner query of `getLatestMessages`: up to `limit` rows of the chat,
     * newest first, taking the newest remaining row each time.
     */
    method LatestPage(chatId: ChatId, limit: int) returns (page: seq<LineMessageData>)
      requires Valid()
      ensures IsLatestPage(rows, chatId, limit, page)
    {
      page := [];
      var rest := ChatKeys(rows, chatId);
      var n := Cap(limit, |rest|);
      while |page| < n
        invariant PageSoFar(rows, chatId, page, rest)
        invariant |page| + |rest| == |ChatKeys(rows, chatId)|
        invariant |page| <= n
        decreases n - |page|
      {
        var k := Newest(rest);
        PageStep(rows, chatId, page, rest, k);
        page := page + [rows[k]];
        rest := rest - {k};
      }
    }

    /** The rows the left joins yield for one message: one per reply row sharing its reply id, or one with no reply. */
    method Block(m: LineMessageData, media: map<MediaId, FilePath>) returns (block: seq<LoadedMessage>)
      requires Valid()
      ensures IsBlock(rows, media, m, block)
    {
      var path := FilePathOf(media, m);
      var replies := ReplyKeys(rows, m.replyId);
      if replies == {} {
        block := [LoadedMessage(WithoutReplyId(m), path, NoReply)];
      } else {
        block := [];
        var remaining := replies;
        while remaining != {}
          invariant remaining <= replies
          invariant |block| + |remaining| == |replies|
          invariant forall i :: 0 <= i < |block| ==> block[i].message == WithoutReplyId(m) && block[i].filePath == path && block[i].reply != NoReply
          invariant forall k :: k in replies - remaining ==> exists i :: 0 <= i < |block| && block[i].reply == ReplyOf(rows[k])
          decreases |remaining|
        {
          var k :| k in remaining;
          remaining := remaining - {k};
          ghost var before := block;
          block := block + [LoadedMessage(WithoutReplyId(m), path, ReplyOf(rows[k]))];
          assert forall i :: 0 <= i < |before| ==> block[i] == before[i];
          assert block[|before|].reply == ReplyOf(rows[k]);
        }
      }
    }

    /** The left joins of a page, message by message in page order. */
    method JoinReplies(page: seq<LineMessageData>, media: map<MediaId, FilePath>) returns (list: seq<LoadedMessage>)
      requires Valid()
      ensures IsJoinOf(rows, media, page, list)
    {
      list := [];
      var i := 0;
      assert page[..0] == [];
      while i < |page|
        invariant 0 <= i <= |page|
        invariant IsJoinOf(rows, media, page[..i], list)
      {
        var block := Block(page[i], media);
        JoinPrefixStep(rows, media, page, i, list, block);
        list := list + block;
        i := i + 1;
      }
      assert page[..|page|] == page;
    }

    /**
     * `getLatestMessages`: the latest page of the chat, left-joined with the
     * replies and the media paths (`media` is the media table).
     */
    method GetLatestMessages(chatId: ChatId, limit: int, media: map<MediaId, FilePath>) returns (list: seq<LoadedMessage>)
      requires Valid()
      ensures exists page :: IsLatestPage(rows, chatId, limit, page) && IsJoinOf(rows, media, page, list)
      ensures forall j :: 0 <= j < |list| ==>
                && list[j].message.chatId == chatId && KeyOf(list[j].message) in rows
                && list[j].message == WithoutReplyId(rows[KeyOf(list[j].message)])
      ensures UniqueMessageIds(rows) && limit >= 0 ==> |list| <= limit
    {
      var page := LatestPage(chatId, limit);
      list := JoinReplies(page, media);
      LatestLoadedShape(rows, media, chatId, limit, page, list);
    }

    /** `updateSavedMessage` at time `now`. */
    method UpdateSavedMessage(chatId: ChatId, messageId: MessageId, p: UpdateMessageParams, now: Timestamp)
      requires Valid()
      modifies this
      ensures Valid()
      ensures rows == UpdateRow(old(rows), chatId, messageId, p, now)
    {
      rows := UpdateRow(rows, chatId, messageId, p, now);
    }

    /** `permanentlyDeleteMessage`. */
    method PermanentlyDeleteMessage(chatId: ChatId, messageId: MessageId)
      requires Valid()
      modifies this
      ensures Valid()
      ensures rows == DeleteRow(old(rows), chatId, messageId)
    {
      rows := DeleteRow(rows, chatId, messageId);
    }

    /** `deleteUnsent`: removes the journaled rows of every chat. */
    method DeleteUnsent()
      requires Valid()
      modifies this
      ensures Valid()
      ensures rows == DeleteUnsentRows(old(rows))
    {
      rows := DeleteUnsentRows(rows);
    }
  }

  /** A selection that holds each selected row once has as many entries as there are selected rows. */
  lemma SelectedCount(t: Table, keep: LineMessageData -> bool, list: seq<LineMessageData>)
    requires DistinctRows(t, list)
    requires forall i :: 0 <= i < |list| ==> keep(list[i])
    requires forall k :: k in t && keep(t[k]) ==> k in KeysOf(list)
    ensures |list| == |set k | k in t && keep(t[k])|
  {
    DistinctKeysCount(list);
    assert KeysOf(list) == set k | k in t && keep(t[k]);
  }

  /**
   * The state of a selection with the keys in `remaining` still to visit:
   * the rows listed so far are distinct, satisfy `keep`, and every visited
   * row that satisfies `keep` is listed.
   */
  ghost predicate SelectedSoFar(t: Table, keep: LineMessageData -> bool, remaining: set<Key>, list: seq<LineMessageData>) {
    && remaining <= t.Keys
    && DistinctRows(t, list)
    && (forall i :: 0 <= i < |list| ==> keep(list[i]) && KeyOf(list[i]) !in remaining)
    && (forall k :: k in t && k !in remaining && keep(t[k]) ==> k in KeysOf(list))
  }

  /** Visiting one more key, and listing its row when it satisfies `keep`, keeps the selection state. */
  lemma SelectStep(t: Table, keep: LineMessageData -> bool, remaining: set<Key>, list: seq<LineMessageData>, k: Key)
    requires WellKeyed(t) && SelectedSoFar(t, keep, remaining, list) && k in remaining
    ensures SelectedSoFar(t, keep, remaining - {k}, if keep(t[k]) then list + [t[k]] else list)
  {
    if keep(t[k]) {
      AppendRow(t, list, k);
    }
  }

  /** Appending a row whose key is not yet listed keeps the rows distinct. */
  lemma AppendRow(t: Table, list: seq<LineMessageData>, k: Key)
    requires WellKeyed(t) && k in t && DistinctRows(t, list)
    requires forall i :: 0 <= i < |list| ==> KeyOf(list[i]) != k
    ensures DistinctRows(t, list + [t[k]])
    ensures KeysOf(list + [t[k]]) == KeysOf(list) + {k}
  {
    KeysOfSnoc(list, t[k]);
  }
}
