/**
 * The summary of a chat's last message shown in the chat list
 * (messenger/classes/Chat/LastMessage.ts).
 */
module LastMessages {
  import opened Wrappers
  import opened Attachments
  import opened Messages
  import Users

  /** `IConversation["type"]`. */
  datatype RoomType = ChatRoom | DialogRoom

  /** The non-null values of `ILastMessage["attachmentType"]`. */
  datatype Kind = FileKind | PhotoKind | VideoKind | StickerKind

  /** `ILastMessage`: the fields `parse` copies, the forwarded summary and the attachment kind. */
  datatype LastMessage = LastMessage(
    id: string,
    body: Option<string>,
    createdAt: int,
    sender: Sender,
    forwarded: Option<LastMessage>,
    attachmentType: Option<Kind>)

  const OwnPrefix := "Вы: "
  const ReplyText := "↩️ Ответ"
  const ForwardedText := "↪️ Пересланное сообщение"

  /** `getAuthorName(user, type)`, for the current user's id `selfId`. */
  function GetAuthorName(lm: LastMessage, selfId: string, t: RoomType): (r: string)
    ensures lm.sender.id == selfId ==> r == OwnPrefix
    ensures lm.sender.id != selfId && t == ChatRoom ==> r == lm.sender.username + ": "
    ensures lm.sender.id != selfId && t == DialogRoom ==> r == ""
  {
    if lm.sender.id == selfId then OwnPrefix
    else if t == ChatRoom then lm.sender.username + ": "
    else ""
  }

  /** The `icon` getter: no case for stickers. */
  function Icon(k: Kind): (r: Option<string>)
    ensures r.None? <==> k == StickerKind
    ensures r.Some? ==> |r.value| > 0
  {
    match k
    case VideoKind => Some("📹")
    case PhotoKind => Some("📷")
    case FileKind => Some("📎")
    case StickerKind => None
  }

  /** The `type` getter: no case for stickers. */
  function Label(k: Kind): (r: Option<string>)
    ensures r.None? <==> k == StickerKind
    ensures r.Some? ==> |r.value| > 0
  {
    match k
    case VideoKind => Some("Видео")
    case PhotoKind => Some("Фото")
    case FileKind => Some("Файл")
    case StickerKind => None
  }

  /**
   * The `text` getter. A template literal renders an undefined icon or label as "undefined",
   * which happens for a sticker summary.
   */
  function Text(lm: LastMessage): (r: string)
    ensures lm.attachmentType == Some(StickerKind) ==> r == "undefined undefined"
    ensures lm.attachmentType.None? && lm.forwarded.Some? ==>
      r == if Users.Truthy(lm.body) then ReplyText else ForwardedText
    ensures lm.attachmentType.None? && lm.forwarded.None? ==> r == lm.body.GetOr("")
  {
    match lm.attachmentType
    case Some(k) => Users.Render(Icon(k)) + " " + Users.Render(Label(k))
    case None =>
      if lm.forwarded.Some? then (if Users.Truthy(lm.body) then ReplyText else ForwardedText)
      else lm.body.GetOr("")
  }

  /** The attachments `parse` reads are present, down the whole forwarded chain (`IMessage` requires them). */
  predicate Parsable(d: MessageData)
    decreases d
  {
    d.attachments.Some? && (d.forwarded.Some? ==> Parsable(d.forwarded.value))
  }

  /** The classification of `parse`: by the first attachment only. */
  function KindOf(atts: seq<Attachment>): Option<Kind> {
    if atts == [] then None
    else match atts[0].kind
      case Some(Image) => Some(PhotoKind)
      case Some(File) => Some(FileKind)
      case Some(Video) => Some(VideoKind)
      case _ => None
  }

  /** `LastMessage.parse(message)`. */
  function Parse(d: MessageData): (r: LastMessage)
    requires Parsable(d)
    ensures r.id == d.id && r.body == d.body && r.createdAt == d.createdAt && r.sender == d.sender
    ensures r.forwarded.Some? <==> d.forwarded.Some?
    ensures r.attachmentType == KindOf(d.attachments.value)
    decreases d
  {
    LastMessage(d.id, d.body, d.createdAt, d.sender,
      if d.forwarded.Some? then Some(Parse(d.forwarded.value)) else None,
      KindOf(d.attachments.value))
  }

  /** Data in the constructor's shape can be parsed. */
  lemma {:induction false} NormalParsable(d: MessageData)
    requires Normal(d)
    ensures Parsable(d)
    decreases d
  {
    if d.forwarded.Some? {
      NormalParsable(d.forwarded.value);
    }
  }

  /** `parse(message)` for a message object: its `toJSON` data is always parsable. */
  function ParseMessage(m: Message): (lm: LastMessage)
    requires m.Valid()
    reads m, m.emotions
    ensures lm.id == m.fields.id && lm.body == Some(m.fields.body) && lm.createdAt == m.fields.createdAt
    ensures lm.sender == m.fields.sender
    ensures lm.forwarded.Some? <==> m.fields.forwarded.Some?
    ensures lm.attachmentType == KindOf(m.fields.attachments)
  {
    m.DataNormal();
    NormalParsable(m.Data());
    Parse(m.Data())
  }

  /**
   * `parse` keeps the first attachment's class: image, file and video give photo, file and
   * video, and anything else, an audio file, a sticker, an untyped attachment or none, gives
   * null; a sticker summary never comes out of `parse`.
   */
  lemma ParseKind(d: MessageData)
    requires Parsable(d)
    ensures var atts, k := d.attachments.value, Parse(d).attachmentType;
      && (k == Some(PhotoKind) <==> atts != [] && atts[0].kind == Some(Image))
      && (k == Some(FileKind) <==> atts != [] && atts[0].kind == Some(File))
      && (k == Some(VideoKind) <==> atts != [] && atts[0].kind == Some(Video))
      && k != Some(StickerKind)
  {
  }

  /** `parse` copies id, body, time and sender, and summarises the forwarded message the same way. */
  lemma ParseCopies(d: MessageData)
    requires Parsable(d)
    ensures var lm := Parse(d);
      && lm.id == d.id && lm.body == d.body && lm.createdAt == d.createdAt && lm.sender == d.sender
      && (lm.forwarded.Some? <==> d.forwarded.Some?)
      && (d.forwarded.Some? ==> lm.forwarded.value == Parse(d.forwarded.value))
  {
  }

  /** The number of messages down a forwarded chain. */
  function Depth(d: MessageData): nat
    decreases d
  {
    if d.forwarded.Some? then 1 + Depth(d.forwarded.value) else 1
  }

  function SummaryDepth(lm: LastMessage): nat
    decreases lm
  {
    if lm.forwarded.Some? then 1 + SummaryDepth(lm.forwarded.value) else 1
  }

  /** The summary nests exactly as deep as the forwarded chain it was parsed from. */
  lemma {:induction false} ParseDepth(d: MessageData)
    requires Parsable(d)
    ensures SummaryDepth(Parse(d)) == Depth(d)
    decreases d
  {
    if d.forwarded.Some? {
      ParseDepth(d.forwarded.value);
    }
  }

  /**
   * The text shown for a message: its first attachment's icon and label when that is an
   * image, a file or a video; otherwise, for a message with a forwarded one, the reply label
   * when it has a body of its own and the forwarded label when not; otherwise its body.
   */
  lemma TextOfParse(d: MessageData)
    requires Parsable(d)
    ensures var atts, t := d.attachments.value, Text(Parse(d));
      && (atts != [] && atts[0].kind == Some(Image) ==> t == "📷 Фото")
      && (atts != [] && atts[0].kind == Some(File) ==> t == "📎 Файл")
      && (atts != [] && atts[0].kind == Some(Video) ==> t == "📹 Видео")
      && (KindOf(atts).None? && d.forwarded.Some? ==> t == if Users.Truthy(d.body) then ReplyText else ForwardedText)
      && (KindOf(atts).None? && d.forwarded.None? ==> t == d.body.GetOr(""))
  {
  }
}
