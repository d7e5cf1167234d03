/**
 * The entry points of the direct-message send path: pick the sender for a
 * content type, construct it, and ask it to send or to retry. The senders
 * themselves (journalling, encryption, transport) are outside this model:
 * their `send()` and `retry()` are recorded as effects.
 */
module SendDirectMessage {
  import opened Wrappers
  import opened MessageTypes

  /** One sender per content-type group. */
  datatype SenderClass =
    | GenericSender
    | ContactBundleSender
    | ContactRequestSender
    | DeleteSender
    | ReceiptSender
    | ReactionSender
    | MediaSender
    | PlaintextSender
    | ContactPortBundleSender
    | EditedSender

  /** The content types each sender module declares it handles. */
  datatype ContentTypeGroups = ContentTypeGroups(
    generic: set<ContentType>,
    contactBundle: set<ContentType>,
    contactBundleRequest: set<ContentType>,
    delete: set<ContentType>,
    receipt: set<ContentType>,
    reaction: set<ContentType>,
    media: set<ContentType>,
    plaintext: set<ContentType>,
    contactPortBundle: set<ContentType>,
    edited: set<ContentType>)

  function Group(groups: ContentTypeGroups, c: SenderClass): (types: set<ContentType>) {
    match c
    case GenericSender => groups.generic
    case ContactBundleSender => groups.contactBundle
    case ContactRequestSender => groups.contactBundleRequest
    case DeleteSender => groups.delete
    case ReceiptSender => groups.receipt
    case ReactionSender => groups.reaction
    case MediaSender => groups.media
    case PlaintextSender => groups.plaintext
    case ContactPortBundleSender => groups.contactPortBundle
    case EditedSender => groups.edited
  }

  /** The order in which the groups are checked. */
  const CheckOrder: seq<SenderClass> := [
    GenericSender, ContactBundleSender, ContactRequestSender, DeleteSender, ReceiptSender,
    ReactionSender, MediaSender, PlaintextSender, ContactPortBundleSender, EditedSender]

  /** Where a sender's test stands in `CheckOrder`. */
  function Position(c: SenderClass): (i: nat)
    ensures i < |CheckOrder| && CheckOrder[i] == c
  {
    match c
    case GenericSender => 0
    case ContactBundleSender => 1
    case ContactRequestSender => 2
    case DeleteSender => 3
    case ReceiptSender => 4
    case ReactionSender => 5
    case MediaSender => 6
    case PlaintextSender => 7
    case ContactPortBundleSender => 8
    case EditedSender => 9
  }

  /**
   * The tests in `order` run one after another, each overwriting the chosen
   * sender when the content type is in its group.
   */
  function RunChecks(groups: ContentTypeGroups, contentType: ContentType, order: seq<SenderClass>, chosen: Option<SenderClass>)
    : (r: Option<SenderClass>)
    // the choice changes only to a checked sender whose group holds the type
    ensures r == chosen || (r.Some? && contentType in Group(groups, r.value))
    decreases |order|
  {
    if order == [] then chosen
    else
      var next := if contentType in Group(groups, order[0]) then Some(order[0]) else chosen;
      RunChecks(groups, contentType, order[1..], next)
  }

  function AssignSenderClass(groups: ContentTypeGroups, contentType: ContentType): (r: Option<SenderClass>)
    // a chosen sender's group holds the type
    ensures r.Some? ==> contentType in Group(groups, r.value)
  {
    RunChecks(groups, contentType, CheckOrder, None)
  }

  /** Running the tests leaves the last sender whose group holds the type, or the one chosen before. */
  lemma {:induction false} RunChecksLastMatch(groups: ContentTypeGroups, contentType: ContentType, order: seq<SenderClass>, chosen: Option<SenderClass>)
    ensures (forall i :: 0 <= i < |order| ==> contentType !in Group(groups, order[i])) ==>
              RunChecks(groups, contentType, order, chosen) == chosen
    ensures forall i :: 0 <= i < |order| && contentType in Group(groups, order[i]) &&
                        (forall j :: i < j < |order| ==> contentType !in Group(groups, order[j])) ==>
              RunChecks(groups, contentType, order, chosen) == Some(order[i])
    decreases |order|
  {
    if order != [] {
      var next := if contentType in Group(groups, order[0]) then Some(order[0]) else chosen;
      RunChecksLastMatch(groups, contentType, order[1..], next);
      forall i | 0 <= i < |order| && contentType in Group(groups, order[i]) &&
                 (forall j :: i < j < |order| ==> contentType !in Group(groups, order[j]))
        ensures RunChecks(groups, contentType, order, chosen) == Some(order[i])
      {
        if i > 0 {
          assert order[1..][i - 1] == order[i];
          forall j | i - 1 < j < |order| - 1 ensures contentType !in Group(groups, order[1..][j]) {
            assert order[1..][j] == order[j + 1];
          }
        } else {
          forall j | 0 <= j < |order| - 1 ensures contentType !in Group(groups, order[1..][j]) {
            assert order[1..][j] == order[j + 1];
          }
        }
      }
      if forall i :: 0 <= i < |order| ==> contentType !in Group(groups, order[i]) {
        forall j | 0 <= j < |order| - 1 ensures contentType !in Group(groups, order[1..][j]) {
          assert order[1..][j] == order[j + 1];
        }
      }
    }
  }

  /**
   * A sender is chosen exactly when its group holds the type and no group
   * checked after it does: the last matching test wins.
   */
  lemma AssignLastMatchWins(groups: ContentTypeGroups, contentType: ContentType, c: SenderClass)
    ensures AssignSenderClass(groups, contentType) == Some(c) <==>
              contentType in Group(groups, c) &&
              forall d :: Position(d) > Position(c) ==> contentType !in Group(groups, d)
  {
    if contentType in Group(groups, c) && forall d :: Position(d) > Position(c) ==> contentType !in Group(groups, d) {
      LastMatchChosen(groups, contentType, c);
    }
    if AssignSenderClass(groups, contentType) == Some(c) {
      AssignIsAMatch(groups, contentType);
      forall d | Position(d) > Position(c) ensures contentType !in Group(groups, d) {
        if contentType in Group(groups, d) {
          LaterMatchWins(groups, contentType, d);
        }
      }
    }
  }

  lemma LastMatchChosen(groups: ContentTypeGroups, contentType: ContentType, c: SenderClass)
    requires contentType in Group(groups, c)
    requires forall d :: Position(d) > Position(c) ==> contentType !in Group(groups, d)
    ensures AssignSenderClass(groups, contentType) == Some(c)
  {
    forall j | Position(c) < j < |CheckOrder| ensures contentType !in Group(groups, CheckOrder[j]) {
      PositionOfCheck(j);
    }
    RunChecksLastMatch(groups, contentType, CheckOrder, None);
  }

  lemma PositionOfCheck(j: nat)
    requires j < |CheckOrder|
    ensures Position(CheckOrder[j]) == j
  {
  }

  /** Whatever is chosen is a sender whose group holds the type. */
  lemma AssignIsAMatch(groups: ContentTypeGroups, contentType: ContentType)
    ensures AssignSenderClass(groups, contentType).Some? ==>
              contentType in Group(groups, AssignSenderClass(groups, contentType).value)
  {
    RunChecksChoosesMatch(groups, contentType, CheckOrder, None);
  }

  lemma {:induction false} RunChecksChoosesMatch(groups: ContentTypeGroups, contentType: ContentType, order: seq<SenderClass>, chosen: Option<SenderClass>)
    requires chosen.Some? ==> contentType in Group(groups, chosen.value)
    ensures var r := RunChecks(groups, contentType, order, chosen); r.Some? ==> contentType in Group(groups, r.value)
    decreases |order|
  {
    if order != [] {
      var next := if contentType in Group(groups, order[0]) then Some(order[0]) else chosen;
      RunChecksChoosesMatch(groups, contentType, order[1..], next);
    }
  }

  /** When a group checked later also holds the type, the earlier sender is not chosen. */
  lemma LaterMatchWins(groups: ContentTypeGroups, contentType: ContentType, d: SenderClass)
    requires contentType in Group(groups, d)
    ensures AssignSenderClass(groups, contentType).Some?
    ensures Position(AssignSenderClass(groups, contentType).value) >= Position(d)
  {
    var i := LastMatchFrom(groups, contentType, Position(d));
    RunChecksLastMatch(groups, contentType, CheckOrder, None);
    assert AssignSenderClass(groups, contentType) == Some(CheckOrder[i]);
    PositionOfCheck(i);
  }

  /** The last test at or after `from` whose group holds the type. */
  lemma LastMatchFrom(groups: ContentTypeGroups, contentType: ContentType, from: nat) returns (i: nat)
    requires from < |CheckOrder| && contentType in Group(groups, CheckOrder[from])
    ensures from <= i < |CheckOrder| && contentType in Group(groups, CheckOrder[i])
    ensures forall j :: i < j < |CheckOrder| ==> contentType !in Group(groups, CheckOrder[j])
    decreases |CheckOrder| - from
  {
    if exists j :: from < j < |CheckOrder| && contentType in Group(groups, CheckOrder[j]) {
      var j :| from < j < |CheckOrder| && contentType in Group(groups, CheckOrder[j]);
      i := LastMatchFrom(groups, contentType, j);
    } else {
      i := from;
    }
  }

  /** No sender is found exactly when no group holds the type. */
  lemma AssignNoneIff(groups: ContentTypeGroups, contentType: ContentType)
    ensures AssignSenderClass(groups, contentType).None? <==> forall c :: contentType !in Group(groups, c)
  {
    RunChecksLastMatch(groups, contentType, CheckOrder, None);
    if exists c :: contentType in Group(groups, c) {
      var c :| contentType in Group(groups, c);
      LaterMatchWins(groups, contentType, c);
    } else {
      forall i | 0 <= i < |CheckOrder| ensures contentType !in Group(groups, CheckOrder[i]) {
      }
    }
  }

  /** When the groups partition the content types, the sender is the one whose group holds the type. */
  lemma AssignUnderPartition(groups: ContentTypeGroups, contentType: ContentType, c: SenderClass)
    requires forall d, e :: d != e ==> Group(groups, d) !! Group(groups, e)
    ensures AssignSenderClass(groups, contentType) == Some(c) <==> contentType in Group(groups, c)
  {
    AssignLastMatchWins(groups, contentType, c);
    if contentType in Group(groups, c) {
      forall d | Position(d) > Position(c) ensures contentType !in Group(groups, d) {
        assert d != c;
      }
    }
  }

  /** The arguments both entry points pass to the sender's constructor. */
  datatype SendArgs = SendArgs(
    chatId: ChatId,
    contentType: ContentType,
    data: Data,
    replyId: Option<MessageId>,
    messageId: MessageId)

  /** What a dispatch call does, in order. */
  datatype Effect =
    | Constructed(senderClass: SenderClass, args: SendArgs)
    | SendCalled        // the constructed sender's `send()`
    | RetryCalled       // the constructed sender's `retry()`
    | ErrorLogged(contentType: ContentType)
    | OnSuccessCalled(success: bool)

  /** The effects of `sendDirect`. */
  function SendEffects(groups: ContentTypeGroups, args: SendArgs): (effects: seq<Effect>) {
    match AssignSenderClass(groups, args.contentType)
    case Some(c) => [Constructed(c, args), SendCalled]
    case None => [ErrorLogged(args.contentType)]
  }

  /** The effects of `retryDirect`. */
  function RetryEffects(groups: ContentTypeGroups, args: SendArgs): (effects: seq<Effect>) {
    match AssignSenderClass(groups, args.contentType)
    case Some(c) => [Constructed(c, args), RetryCalled]
    case None => [ErrorLogged(args.contentType)]
  }

  function Count(effects: seq<Effect>, e: Effect): (n: nat)
    ensures n <= |effects|
    ensures n == 0 <==> e !in effects
  {
    if effects == [] then 0 else (if effects[0] == e then 1 else 0) + Count(effects[1..], e)
  }

  predicate Constructs(effects: seq<Effect>) {
    exists i :: 0 <= i < |effects| && effects[i].Constructed?
  }

  /**
   * With a sender for the type, `sendDirect` constructs exactly that sender
   * with the caller's arguments and calls `send()` once and `retry()` never;
   * without one, it constructs nothing and logs the type. It never calls the
   * success callback.
   */
  lemma SendDirectEffects(groups: ContentTypeGroups, args: SendArgs)
    ensures var effects := SendEffects(groups, args);
      && (AssignSenderClass(groups, args.contentType).Some? ==>
            effects[0] == Constructed(AssignSenderClass(groups, args.contentType).value, args)
            && Count(effects, SendCalled) == 1 && RetryCalled !in effects)
      && (AssignSenderClass(groups, args.contentType).None? ==>
            !Constructs(effects) && SendCalled !in effects && ErrorLogged(args.contentType) in effects)
      && forall b :: OnSuccessCalled(b) !in effects
  {
  }

  /** `retryDirect` is `sendDirect` with `retry()` in place of `send()`. */
  lemma RetryDirectEffects(groups: ContentTypeGroups, args: SendArgs)
    ensures var effects := RetryEffects(groups, args);
      && (AssignSenderClass(groups, args.contentType).Some? ==>
            effects[0] == Constructed(AssignSenderClass(groups, args.contentType).value, args)
            && Count(effects, RetryCalled) == 1 && SendCalled !in effects)
      && (AssignSenderClass(groups, args.contentType).None? ==>
            !Constructs(effects) && RetryCalled !in effects && ErrorLogged(args.contentType) in effects)
      && forall b :: OnSuccessCalled(b) !in effects
  {
  }

  /** Both entry points construct the same sender for the same arguments. */
  lemma SendAndRetryAgree(groups: ContentTypeGroups, args: SendArgs)
    ensures |SendEffects(groups, args)| == |RetryEffects(groups, args)|
    ensures SendEffects(groups, args)[0] == RetryEffects(groups, args)[0]
  {
  }

  /** The dispatcher, with the effects its calls have had so far. */
  class DirectDispatcher {
    const groups: ContentTypeGroups
    var effects: seq<Effect>

    constructor (groups: ContentTypeGroups)
      ensures this.groups == groups && effects == []
    {
      this.groups := groups;
      effects := [];
    }

    method SendDirect(chatId: ChatId, contentType: ContentType, data: Data, replyId: Option<MessageId>, messageId: MessageId)
      modifies this
      ensures effects == old(effects) + SendEffects(groups, SendArgs(chatId, contentType, data, replyId, messageId))
    {
      var senderClass := AssignSenderClass(groups, contentType);
      if senderClass.Some? {
        effects := effects + [Constructed(senderClass.value, SendArgs(chatId, contentType, data, replyId, messageId))];
        effects := effects + [SendCalled];
        return;
      }
      effects := effects + [ErrorLogged(contentType)];
    }

    method RetryDirect(chatId: ChatId, contentType: ContentType, data: Data, replyId: Option<MessageId>, messageId: MessageId)
      modifies this
      ensures effects == old(effects) + RetryEffects(groups, SendArgs(chatId, contentType, data, replyId, messageId))
    {
      var senderClass := AssignSenderClass(groups, contentType);
      if senderClass.Some? {
        effects := effects + [Constructed(senderClass.value, SendArgs(chatId, contentType, data, replyId, messageId))];
        effects := effects + [RetryCalled];
        return;
      }
      effects := effects + [ErrorLogged(contentType)];
    }
  }
}
