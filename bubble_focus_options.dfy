/**
 * Which actions the focus menu of a selected message bubble offers, in the
 * order it lists them. The content-type lists that allow or forbid an action
 * are defined elsewhere and are parameters here.
 */
module BubbleFocusOptions {
  import opened MessageTypes

  datatype ContentTypeLists = ContentTypeLists(
    report: set<ContentType>,         // types that may be reported
    unforwardable: set<ContentType>,
    uncopyable: set<ContentType>,
    editable: set<ContentType>)

  /** The first selected message, as far as the menu looks at it. */
  datatype SelectedMessage = SelectedMessage(sender: bool, contentType: ContentType)

  datatype FocusOption = Reply | Forward | Edit | Copy | Select | Report | Delete

  predicate AllowReport(lists: ContentTypeLists, m: SelectedMessage) {
    !m.sender && m.contentType in lists.report
  }

  predicate AllowForward(lists: ContentTypeLists, m: SelectedMessage) {
    m.contentType !in lists.unforwardable
  }

  predicate AllowCopy(lists: ContentTypeLists, m: SelectedMessage) {
    m.contentType !in lists.uncopyable
  }

  predicate AllowEdit(lists: ContentTypeLists, m: SelectedMessage) {
    m.contentType in lists.editable
  }

  predicate IsDeleted(m: SelectedMessage) {
    m.contentType == Deleted
  }

  predicate IsSender(m: SelectedMessage) {
    m.sender
  }

  /**
   * The visibility condition the menu attaches to each option; the menu
   * renders the options whose condition holds, in the declaration order of
   * `FocusOption`.
   */
  function Shown(lists: ContentTypeLists, m: SelectedMessage, isConnected: bool, o: FocusOption): (shown: bool)
    // a deleted message offers delete and nothing else
    ensures IsDeleted(m) ==> (shown <==> o == Delete)
    // editing is for one's own messages, reporting for the peer's
    ensures shown && o == Edit ==> IsSender(m)
    ensures shown && o == Report ==> !IsSender(m)
    // replying and editing need a connection
    ensures shown && (o == Reply || o == Edit) ==> isConnected
  {
    match o
    case Reply => isConnected && !IsDeleted(m)
    case Forward => !IsDeleted(m) && AllowForward(lists, m)
    case Edit => isConnected && !IsDeleted(m) && IsSender(m) && AllowEdit(lists, m)
    case Copy => !IsDeleted(m) && AllowCopy(lists, m)
    case Select => !IsDeleted(m)
    case Report => !IsDeleted(m) && !IsSender(m) && AllowReport(lists, m)
    case Delete => true
  }

  /** The visibility rule of each option in terms of the message and the lists. */
  lemma VisibilityRules(lists: ContentTypeLists, m: SelectedMessage, isConnected: bool)
    ensures Shown(lists, m, isConnected, Reply) <==> isConnected && m.contentType != Deleted
    ensures Shown(lists, m, isConnected, Forward) <==> m.contentType != Deleted && m.contentType !in lists.unforwardable
    ensures Shown(lists, m, isConnected, Edit) <==>
              isConnected && m.contentType != Deleted && m.sender && m.contentType in lists.editable
    ensures Shown(lists, m, isConnected, Copy) <==> m.contentType != Deleted && m.contentType !in lists.uncopyable
    ensures Shown(lists, m, isConnected, Select) <==> m.contentType != Deleted
    ensures Shown(lists, m, isConnected, Report) <==>
              m.contentType != Deleted && !m.sender && m.contentType in lists.report
    ensures Shown(lists, m, isConnected, Delete)
  {
  }

  /** Editing is for one's own messages and reporting for the peer's: never both. */
  lemma EditAndReportExclusive(lists: ContentTypeLists, m: SelectedMessage, isConnected: bool)
    ensures !(Shown(lists, m, isConnected, Edit) && Shown(lists, m, isConnected, Report))
  {
  }

  /** A deleted message offers Delete and nothing else, whatever the lists say. */
  lemma DeletedOffersOnlyDelete(lists: ContentTypeLists, m: SelectedMessage, isConnected: bool, o: FocusOption)
    requires m.contentType == Deleted
    ensures Shown(lists, m, isConnected, o) <==> o == Delete
  {
  }
}
