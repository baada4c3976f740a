/**
  The chat message schema: the attachment type enumeration, the required attachment fields,
  the rule that a message has content or at least one attachment, the reaction emoji limit,
  and the `isRead` membership test.

  A document is validated as the schema validates a new message: `Validate` yields the typed
  message, or the schema paths that failed. Ids (ObjectIds) are strings.
*/
module MessageModel {
  import opened Wrappers

  /** The five kinds an attachment may have. */
  datatype AttachmentType = Image | Pdf | Video | Audio | Other
  {
    /** The string stored in the document. */
    function Name(): string
    {
      match this
      case Image => "image"
      case Pdf => "pdf"
      case Video => "video"
      case Audio => "audio"
      case Other => "other"
    }
  }

  /** The enum validator of the attachment `type` path: which kind a stored string names, if any. */
  function ParseAttachmentType(s: string): (t: Option<AttachmentType>)
    ensures t.Some? ==> t.value.Name() == s
    ensures t.None? ==> forall k: AttachmentType :: k.Name() != s
  {
    if s == "image" then Some(Image)
    else if s == "pdf" then Some(Pdf)
    else if s == "video" then Some(Video)
    else if s == "audio" then Some(Audio)
    else if s == "other" then Some(Other)
    else None
  }

  /** Every kind's stored name is accepted by the enum validator and read back as that kind. */
  lemma NameParses(k: AttachmentType)
    ensures ParseAttachmentType(k.Name()) == Some(k)
  {
  }

  /** An attachment as submitted: every field may be missing. */
  datatype RawAttachment = RawAttachment(
    url: Option<string>,
    localPath: Option<string>,
    kind: Option<string>,
    filename: Option<string>,
    mimeType: Option<string>,
    thumbnail: Option<string>,
    duration: Option<int>,
    pages: Option<int>)

  /** An attachment that passed validation. */
  datatype Attachment = Attachment(
    url: string,
    localPath: Option<string>,
    kind: AttachmentType,
    filename: string,
    mimeType: Option<string>,
    thumbnail: Option<string>,
    duration: Option<int>,
    pages: Option<int>)

  datatype RawReaction = RawReaction(userId: Option<string>, emoji: Option<string>)

  datatype Reaction = Reaction(userId: Option<string>, emoji: string)

  /** A new message document as submitted; `attachments` is `None` when the field was not given. */
  datatype MessageDraft = MessageDraft(
    sender: Option<string>,
    content: Option<string>,
    attachments: Option<seq<RawAttachment>>,
    chat: Option<string>,
    readBy: seq<string>,
    deletedFor: seq<string>,
    repliedTo: Option<string>,
    reactions: seq<RawReaction>)

  /** A message that passed validation. */
  datatype ChatMessage = ChatMessage(
    sender: string,
    content: Option<string>,
    attachments: seq<Attachment>,
    chat: string,
    readBy: seq<string>,
    deletedFor: seq<string>,
    repliedTo: Option<string>,
    reactions: seq<Reaction>)

  /** A schema path that failed validation. */
  datatype FailedPath =
    | SenderPath
    | ChatPath
    | AttachmentsPath
    | AttachmentUrlPath(index: nat)
    | AttachmentTypePath(index: nat)
    | AttachmentFilenamePath(index: nat)
    | ReactionEmojiPath(index: nat)

  const EMOJI_MAX_LENGTH: nat := 5

  /** The `required` check of a String path: present and not empty. */
  predicate RequiredString(s: Option<string>)
  {
    s.Some? && s.value != ""
  }

  /** The length of a string in UTF-16 code units: characters outside the Basic Multilingual Plane count twice. */
  function Utf16Length(s: string): (n: nat)
    ensures |s| <= n <= 2 * |s|
  {
    if s == [] then 0
    else (if s[0] as int >= 0x1_0000 then 2 else 1) + Utf16Length(s[1..])
  }

  /** The attachments of a draft, with the schema default `[]` when absent. */
  function AttachmentsOf(d: MessageDraft): seq<RawAttachment>
  {
    if d.attachments.Some? then d.attachments.value else []
  }

  /** The custom validator of `attachments`: truthy content or at least one attachment. */
  predicate HasContentOrAttachment(d: MessageDraft)
  {
    Truthy(d.content) || |AttachmentsOf(d)| > 0
  }

  predicate AttachmentOk(a: RawAttachment)
  {
    && RequiredString(a.url)
    && RequiredString(a.kind) && ParseAttachmentType(a.kind.value).Some?
    && RequiredString(a.filename)
  }

  predicate ReactionOk(r: RawReaction)
  {
    RequiredString(r.emoji) && Utf16Length(r.emoji.value) <= EMOJI_MAX_LENGTH
  }

  /** Everything the schema demands of a new message. */
  predicate IsValidDraft(d: MessageDraft)
  {
    && d.sender.Some?
    && d.chat.Some?
    && HasContentOrAttachment(d)
    && (forall i :: 0 <= i < |AttachmentsOf(d)| ==> AttachmentOk(AttachmentsOf(d)[i]))
    && (forall i :: 0 <= i < |d.reactions| ==> ReactionOk(d.reactions[i]))
  }

  function AttachmentFailures(a: RawAttachment, index: nat): (ps: seq<FailedPath>)
    ensures ps == [] <==> AttachmentOk(a)
    ensures forall p :: p in ps ==> p.AttachmentUrlPath? || p.AttachmentTypePath? || p.AttachmentFilenamePath?
  {
    (if RequiredString(a.url) then [] else [AttachmentUrlPath(index)]) +
    (if RequiredString(a.kind) && ParseAttachmentType(a.kind.value).Some? then [] else [AttachmentTypePath(index)]) +
    (if RequiredString(a.filename) then [] else [AttachmentFilenamePath(index)])
  }

  /** The failing paths of the attachments `atts`, the first of which sits at position `from` of the array. */
  function AttachmentsFailures(atts: seq<RawAttachment>, from: nat): (ps: seq<FailedPath>)
    ensures ps == [] <==> forall i :: 0 <= i < |atts| ==> AttachmentOk(atts[i])
    ensures forall p :: p in ps ==> p.AttachmentUrlPath? || p.AttachmentTypePath? || p.AttachmentFilenamePath?
    decreases |atts|
  {
    if atts == [] then []
    else AttachmentFailures(atts[0], from) + AttachmentsFailures(atts[1..], from + 1)
  }

  function ReactionsFailures(rs: seq<RawReaction>, from: nat): (ps: seq<FailedPath>)
    ensures ps == [] <==> forall i :: 0 <= i < |rs| ==> ReactionOk(rs[i])
    ensures forall p :: p in ps ==> p.ReactionEmojiPath?
    decreases |rs|
  {
    if rs == [] then []
    else (if ReactionOk(rs[0]) then [] else [ReactionEmojiPath(from)]) + ReactionsFailures(rs[1..], from + 1)
  }

  /** Every failing path of a draft, in schema order. */
  function Failures(d: MessageDraft): (ps: seq<FailedPath>)
    ensures ps == [] <==> IsValidDraft(d)
    ensures AttachmentsPath in ps <==> !HasContentOrAttachment(d)
    ensures SenderPath in ps <==> d.sender.None?
    ensures ChatPath in ps <==> d.chat.None?
  {
    (if d.sender.Some? then [] else [SenderPath]) +
    (if HasContentOrAttachment(d) then [] else [AttachmentsPath]) +
    AttachmentsFailures(AttachmentsOf(d), 0) +
    (if d.chat.Some? then [] else [ChatPath]) +
    ReactionsFailures(d.reactions, 0)
  }

  function ToAttachment(a: RawAttachment): (t: Attachment)
    requires AttachmentOk(a)
    ensures t.kind.Name() == a.kind.value
  {
    Attachment(a.url.value, a.localPath, ParseAttachmentType(a.kind.value).value, a.filename.value,
               a.mimeType, a.thumbnail, a.duration, a.pages)
  }

  /**
    Validation of a new message: the typed message when every rule holds, otherwise the failing
    paths. A message without content and without attachments always fails.
  */
  function Validate(d: MessageDraft): (r: Result<ChatMessage, seq<FailedPath>>)
    ensures r.Ok? <==> IsValidDraft(d)
    ensures r.Err? ==> r.error != [] && (AttachmentsPath in r.error <==> !HasContentOrAttachment(d))
    ensures r.Ok? ==>
      && r.value.content == d.content
      && (Truthy(r.value.content) || |r.value.attachments| > 0)
      && |r.value.attachments| == |AttachmentsOf(d)|
      && (forall i :: 0 <= i < |r.value.attachments| ==>
            r.value.attachments[i].url == AttachmentsOf(d)[i].url.value &&
            r.value.attachments[i].kind.Name() == AttachmentsOf(d)[i].kind.value &&
            r.value.attachments[i].filename == AttachmentsOf(d)[i].filename.value)
      && (forall i :: 0 <= i < |r.value.reactions| ==> Utf16Length(r.value.reactions[i].emoji) <= EMOJI_MAX_LENGTH)
  {
    var failures := Failures(d);
    if failures != [] then Err(failures)
    else
      var atts := AttachmentsOf(d);
      Ok(ChatMessage(
        d.sender.value,
        d.content,
        seq(|atts|, i requires 0 <= i < |atts| => ToAttachment(atts[i])),
        d.chat.value,
        d.readBy,
        d.deletedFor,
        d.repliedTo,
        seq(|d.reactions|, i requires 0 <= i < |d.reactions| => Reaction(d.reactions[i].userId, d.reactions[i].emoji.value))))
  }

  /** Without content and with the attachments left at their default, a message is rejected on `attachments`. */
  lemma EmptyMessageRejected(d: MessageDraft)
    requires !Truthy(d.content) && d.attachments.None?
    ensures Validate(d).Err? && AttachmentsPath in Validate(d).error
  {
  }

  lemma {:induction false} AstralLength(s: string)
    requires forall i :: 0 <= i < |s| ==> s[i] as int >= 0x1_0000
    ensures Utf16Length(s) == 2 * |s|
  {
    if s != [] {
      AstralLength(s[1..]);
    }
  }

  /**
    The emoji limit counts UTF-16 code units: an emoji made only of characters outside the Basic
    Multilingual Plane passes with one or two characters and fails with three or more.
  */
  lemma AstralEmojiLimit(r: RawReaction)
    requires r.emoji.Some?
    requires forall i :: 0 <= i < |r.emoji.value| ==> r.emoji.value[i] as int >= 0x1_0000
    ensures ReactionOk(r) <==> 1 <= |r.emoji.value| <= 2
  {
    AstralLength(r.emoji.value);
  }

  /** `Array.prototype.includes`: whether `x` occurs in `xs`, scanning from the front. */
  function Includes(xs: seq<string>, x: string): (found: bool)
    ensures found <==> x in xs
  {
    if xs == [] then false else xs[0] == x || Includes(xs[1..], x)
  }

  /** The `isRead` virtual: the user is among those the message was read by. */
  function IsRead(m: ChatMessage, userId: string): (read: bool)
    ensures read <==> exists i :: 0 <= i < |m.readBy| && m.readBy[i] == userId
  {
    Includes(m.readBy, userId)
  }
}
