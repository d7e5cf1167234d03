/**
 * The status area of a chat tile on the home screen: an unread-count badge
 * capped at "999+", an empty spacer, or a delivery-status indicator.
 */
module DisplayStatus {
  import opened Wrappers
  import opened MessageTypes

  /** The character for a decimal digit. */
  function DigitChar(d: nat): (c: char)
    requires d < 10
    ensures '0' <= c <= '9'
  {
    "0123456789"[d]
  }

  /** The value of a decimal digit character. */
  function DigitValue(c: char): (d: nat)
    requires '0' <= c <= '9'
    ensures d < 10
  {
    (c as int - '0' as int) as nat
  }

  predicate IsDecimal(s: string) {
    |s| > 0 && forall i :: 0 <= i < |s| ==> '0' <= s[i] <= '9'
  }

  /** The decimal digits of `n`, most significant first, without leading zeros. */
  function NatToString(n: nat): (s: string)
    ensures IsDecimal(s)
    ensures s[0] == '0' ==> n == 0
    decreases n
  {
    if n < 10 then [DigitChar(n)] else NatToString(n / 10) + [DigitChar(n % 10)]
  }

  /** Reads a string of decimal digits back as a number. */
  function ParseNat(s: string): (n: nat)
    requires forall i :: 0 <= i < |s| ==> '0' <= s[i] <= '9'
    decreases |s|
  {
    if s == [] then 0 else ParseNat(s[..|s| - 1]) * 10 + DigitValue(s[|s| - 1])
  }

  /** JavaScript's `n.toString()` for an integer `n`. */
  function IntToString(n: int): (s: string)
    ensures |s| > 0
    ensures s[0] == '-' <==> n < 0
    ensures n >= 0 ==> IsDecimal(s)
  {
    if n < 0 then "-" + NatToString(-n) else NatToString(n)
  }

  /** The badge text for an unread count. */
  function DisplayNumber(newMsgCount: int): (s: string)
    ensures s == "999+" <==> newMsgCount > 999
  {
    if newMsgCount > 999 then "999+"
    else
      var s := IntToString(newMsgCount);
      assert |s| != 4 || s[0] != '9' || s[3] != '+';
      s
  }

  /** Decimal rendering and reading are inverse. */
  lemma {:induction false} ParseNatToString(n: nat)
    ensures ParseNat(NatToString(n)) == n
    decreases n
  {
    if n >= 10 {
      var s := NatToString(n);
      assert s[..|s| - 1] == NatToString(n / 10);
      ParseNatToString(n / 10);
    }
  }

  /** Numbers below 10^k have at most k digits. */
  lemma {:induction false} NatToStringLength(n: nat, k: nat)
    requires n < Pow10(k)
    ensures |NatToString(n)| <= if k == 0 then 1 else k
    decreases n
  {
    if n >= 10 {
      assert Pow10(0) == 1 && Pow10(1) == 10;
      NatToStringLength(n / 10, k - 1);
    }
  }

  function Pow10(k: nat): (p: nat) {
    if k == 0 then 1 else 10 * Pow10(k - 1)
  }

  /**
   * For a non-negative count the badge shows at most four characters: the
   * exact count up to 999, and "999+" above it.
   */
  lemma DisplayNumberShape(n: nat)
    ensures n > 999 ==> DisplayNumber(n) == "999+"
    ensures n <= 999 ==> IsDecimal(DisplayNumber(n)) && ParseNat(DisplayNumber(n)) == n
    ensures |DisplayNumber(n)| <= 4
  {
    if n <= 999 {
      ParseNatToString(n);
      assert Pow10(3) == 1000;
      NatToStringLength(n, 3);
    }
  }

  /** Which status icon a tile shows. */
  datatype Indicator = NoIndicator | SendingIcon | ReadIcon | FailureIcon

  /**
   * The icon for a delivery status; `None` stands for a falsy status
   * (`null` or `undefined`).
   */
  function MessageStatusIndicator(readStatus: Option<MessageStatus>): (ind: Indicator)
    ensures readStatus.None? ==> ind == NoIndicator
    ensures ind == SendingIcon <==> readStatus == Some(Journaled)
    ensures ind == ReadIcon <==> readStatus == Some(Read)
    ensures ind == FailureIcon <==> readStatus == Some(Failed)
  {
    match readStatus
    case None => NoIndicator
    case Some(status) =>
      match status
      case Journaled => SendingIcon
      case Read => ReadIcon
      case Sent => NoIndicator
      case Failed => FailureIcon
      case _ => NoIndicator
  }

  /** What the status area of a tile renders. */
  datatype TileStatus =
    | Nothing                        // a deleted chat: an empty fragment
    | Badge(text: string)            // the unread count
    | Spacer                         // an empty view
    | StatusIndicator(ind: Indicator)

  function DisplayStatusView(unreadCount: int, readStatus: Option<MessageStatus>, deleted: bool): (v: TileStatus)
    ensures deleted ==> v == Nothing
    ensures !deleted && readStatus == Some(Latest) && unreadCount > 0 ==>
              v.Badge? && v.text == DisplayNumber(unreadCount)
    ensures !deleted && readStatus == Some(Latest) && unreadCount <= 0 ==> v == Spacer
    ensures !deleted && readStatus != Some(Latest) ==>
              v.StatusIndicator? && v.ind == MessageStatusIndicator(readStatus)
  {
    if deleted then Nothing
    else if readStatus == Some(Latest) then
      (if unreadCount > 0 then Badge(DisplayNumber(unreadCount)) else Spacer)
    else StatusIndicator(MessageStatusIndicator(readStatus))
  }

  /** A badge always reads as a positive count, capped at "999+". */
  lemma BadgeShowsCount(unreadCount: int, readStatus: Option<MessageStatus>, deleted: bool)
    requires DisplayStatusView(unreadCount, readStatus, deleted).Badge?
    ensures unreadCount > 0 && !deleted && readStatus == Some(Latest)
    ensures |DisplayStatusView(unreadCount, readStatus, deleted).text| <= 4
    ensures unreadCount <= 999 ==> ParseNat(DisplayStatusView(unreadCount, readStatus, deleted).text) == unreadCount
  {
    DisplayNumberShape(unreadCount);
  }
}
