/**
 * The one-line preview of a chat's latest message shown in the chat list,
 * chosen by content type from a fixed table of emoji prefixes, default texts
 * and text extractors.
 */
module ConnectionText {
  import opened Wrappers
  import opened MessageTypes

  /** The fields of a latest message that the preview reads. */
  datatype LatestMessage = LatestMessage(
    text: Option<string>,
    bundleName: Option<string>,   // `bundle.name` of a shared contact
    timeoutValue: Option<int>)    // the new disappearing-messages timeout

  /** The extractor a table entry uses instead of the message's `text`. */
  datatype TextSource = MessageText | BundleName | SharedContact | DisappearingTimeout

  datatype ContentTypeEmojiAndText = ContentTypeEmojiAndText(
    emoji: Option<string>,
    defaultText: string,
    source: TextSource)

  const ContactEmoji: string := "\U{1F464}"
  const SharedContactPrefix: string := "shared you contact with "
  const DisappearingOff: string := "Disappearing messages have been turned OFF"
  const DisappearingOn: string := "Disappearing messages have been turned ON"

  /** The table of content types that have a preview. */
  function ContentTypeMap(contentType: ContentType): (info: Option<ContentTypeEmojiAndText>)
    // an entry without an emoji has no default text
    ensures info.Some? && info.value.emoji.None? ==> info.value.defaultText == ""
    // only entries that show the message text fall back to a default
    ensures info.Some? && info.value.defaultText != "" ==> info.value.source == MessageText
    ensures contentType == Deleted ==> info.None?
  {
    match contentType
    case File => Some(ContentTypeEmojiAndText(Some("\U{1F4CE}"), "file", MessageText))
    case Image => Some(ContentTypeEmojiAndText(Some("\U{1F4F7}"), "image", MessageText))
    case Video => Some(ContentTypeEmojiAndText(Some("\U{1F3A5}"), "video", MessageText))
    case AudioRecording => Some(ContentTypeEmojiAndText(Some("\U{1F50A}"), "audio", MessageText))
    case Text => Some(ContentTypeEmojiAndText(None, "", MessageText))
    case Link => Some(ContentTypeEmojiAndText(None, "", MessageText))
    case ContactBundle => Some(ContentTypeEmojiAndText(Some(ContactEmoji), "", BundleName))
    case ContactBundleRequest => Some(ContentTypeEmojiAndText(Some(ContactEmoji), "contact has been requested", MessageText))
    case ContactBundleResponse => Some(ContentTypeEmojiAndText(Some(ContactEmoji), "", SharedContact))
    case DisappearingMessages => Some(ContentTypeEmojiAndText(None, "", DisappearingTimeout))
    case _ => None
  }

  /** A JavaScript string is falsy exactly when it is missing or empty. */
  function OrElse(s: Option<string>, fallback: string): (r: string) {
    if s.Some? && s.value != "" then s.value else fallback
  }

  /** A template literal's rendering of a possibly missing string. */
  function Interpolate(s: Option<string>): (r: string) {
    if s.Some? then s.value else "undefined"
  }

  /**
   * What an extractor returns (`None` for `undefined`). `labelOf` is the
   * label the permission screens give a timeout; `"Off"` means switched off.
   */
  function ExtractText(source: TextSource, m: LatestMessage, labelOf: int -> string): (r: Option<string>)
    ensures source == MessageText ==> r == m.text
    ensures source == BundleName ==> r == m.bundleName
    // the shared-contact and disappearing extractors always return a string
    ensures source == SharedContact ==> r.Some? && SharedContactPrefix <= r.value
    ensures source == DisappearingTimeout ==> r.Some? && r.value in {"", DisappearingOff, DisappearingOn}
  {
    match source
    case MessageText => m.text
    case BundleName => m.bundleName
    case SharedContact => Some(SharedContactPrefix + Interpolate(m.bundleName))
    case DisappearingTimeout =>
      if m.timeoutValue.Some? && m.timeoutValue.value != 0 then
        Some(if labelOf(m.timeoutValue.value) == "Off" then DisappearingOff else DisappearingOn)
      else Some("")
  }

  function GetConnectionTextByContentType(contentType: ContentType, latestMessage: Option<LatestMessage>, labelOf: int -> string): (r: string)
    // no table entry or no message: nothing to show
    ensures ContentTypeMap(contentType).None? || latestMessage.None? ==> r == ""
    // a type with an emoji starts with it and a space
    ensures ContentTypeMap(contentType).Some? && latestMessage.Some? && ContentTypeMap(contentType).value.emoji.Some? ==>
              var prefix := ContentTypeMap(contentType).value.emoji.value + " ";
              |prefix| <= |r| && r[..|prefix|] == prefix
  {
    var info := ContentTypeMap(contentType);
    if info.None? || latestMessage.None? then ""
    else
      var text := OrElse(ExtractText(info.value.source, latestMessage.value, labelOf), info.value.defaultText);
      if info.value.emoji.Some? then info.value.emoji.value + " " + text else text
  }

  /**
   * The preview of a message whose type has a table entry is empty exactly
   * when the entry has no emoji, its default text is empty and the
   * extracted text is missing or empty.
   */
  lemma PreviewEmptyIff(contentType: ContentType, m: LatestMessage, labelOf: int -> string)
    requires ContentTypeMap(contentType).Some?
    ensures var info := ContentTypeMap(contentType).value;
            var text := ExtractText(info.source, m, labelOf);
            GetConnectionTextByContentType(contentType, Some(m), labelOf) == "" <==>
              info.emoji.None? && info.defaultText == "" && (text.None? || text.value == "")
  {
  }

  /** Text and links show the message text, or nothing, without a prefix. */
  lemma TextAndLinkPreview(contentType: ContentType, m: LatestMessage, labelOf: int -> string)
    requires contentType == Text || contentType == Link
    ensures GetConnectionTextByContentType(contentType, Some(m), labelOf) == m.text.GetOr("")
  {
  }

  /** Media show their emoji and caption, falling back to the media kind. */
  lemma MediaPreview(contentType: ContentType, m: LatestMessage, labelOf: int -> string)
    requires contentType in {File, Image, Video, AudioRecording}
    ensures var kind := match contentType
              case File => "file" case Image => "image" case Video => "video" case _ => "audio";
            var caption := if m.text.Some? && m.text.value != "" then m.text.value else kind;
            GetConnectionTextByContentType(contentType, Some(m), labelOf)
              == ContentTypeMap(contentType).value.emoji.value + " " + caption
  {
  }

  /** A shared contact without a name shows only the contact emoji and a space. */
  lemma ContactBundleWithoutName(m: LatestMessage, labelOf: int -> string)
    requires m.bundleName.None? || m.bundleName == Some("")
    ensures GetConnectionTextByContentType(ContactBundle, Some(m), labelOf) == ContactEmoji + " "
  {
  }

  /**
   * A contact response always interpolates the name, so a missing name
   * reads "undefined" rather than falling back to the default text.
   */
  lemma ContactResponseInterpolates(m: LatestMessage, labelOf: int -> string)
    ensures GetConnectionTextByContentType(ContactBundleResponse, Some(m), labelOf)
              == ContactEmoji + " " + SharedContactPrefix + Interpolate(m.bundleName)
  {
    var text := SharedContactPrefix + Interpolate(m.bundleName);
    assert |text| > 0;
    assert ExtractText(SharedContact, m, labelOf) == Some(text);
    assert ContactEmoji + " " + text == ContactEmoji + " " + SharedContactPrefix + Interpolate(m.bundleName);
  }

  lemma ContactRequestPreview(m: LatestMessage, labelOf: int -> string)
    ensures GetConnectionTextByContentType(ContactBundleRequest, Some(m), labelOf)
              == ContactEmoji + " " + OrElse(m.text, "contact has been requested")
  {
  }

  /** The disappearing-messages preview: nothing, OFF or ON. */
  lemma DisappearingPreview(m: LatestMessage, labelOf: int -> string)
    ensures var r := GetConnectionTextByContentType(DisappearingMessages, Some(m), labelOf);
      && (m.timeoutValue.None? || m.timeoutValue == Some(0) ==> r == "")
      && (m.timeoutValue.Some? && m.timeoutValue.value != 0 ==>
            r == if labelOf(m.timeoutValue.value) == "Off" then DisappearingOff else DisappearingOn)
  {
  }
}
