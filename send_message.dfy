/** `Client.sendMessage` up to the page call: the option mapping, the
    classification of the content (tried in source order, first match wins),
    the attachment built from a file-like content, and the sticker metadata
    fallback. `Util.getFile` and the file system's `existsSync` are parameters;
    the sticker conversion itself is an external codec and is represented by
    the attachment it receives plus the metadata passed to it. */
module SendMessage {
  import opened Common

  // ---- the values `sendMessage` inspects ----

  /** A `MessageMedia`: mime type, base64 data, optional file name and size. */
  datatype Media = Media(mimetype: string, data: string, filename: Option<string>, filesize: Option<int>)

  /** What `Util.getFile` reports about a file-like content. */
  datatype FileInfo = FileInfo(ext: string, mime: string, data: string, size: int)

  /** An element of an array content or of `options.mentions`: a string, a
      contact (with the serialized form of its `id`, absent when it has no
      id), or any other object. */
  datatype Item = ItemText(s: string) | ItemContact(id: Option<string>) | ItemOther

  datatype ButtonsModel = ButtonsModel(buttonsType: string, body: string)

  /** The `content` argument. */
  datatype Content =
    | BufferContent(bytes: seq<bv8>)
    | Text(s: string)
    | MediaContent(media: Media)
    | LocationContent(latitude: real, longitude: real, description: string)
    | ContactContent(id: Option<string>)
    | ArrayContent(items: seq<Item>)
    | ButtonsContent(buttons: ButtonsModel)
    | ListContent(title: string)
    | OtherObject

  /** `options.quoted`: a message id string, or a message-like object with an
      optional own `_serialized` and an optional `id` object (itself carrying
      an optional `_serialized`). */
  datatype Quoted = QuotedText(s: string) | QuotedObject(serialized: Option<string>, id: Option<Option<string>>)

  /** The sticker metadata fields; `categories` is an array (always truthy when
      present) and `isAvatar` a boolean. */
  datatype StickerConfig = StickerConfig(
    packId: Option<string>,
    packName: Option<string>,
    packPublish: Option<string>,
    packEmail: Option<string>,
    packWebsite: Option<string>,
    androidApp: Option<string>,
    iOSApp: Option<string>,
    categories: Option<seq<string>>,
    isAvatar: Option<bool>)

  /** The options `sendMessage` reads, other than those it copies unchanged. */
  datatype SendOptions = SendOptions(
    asSticker: bool,
    caption: Option<string>,
    quoted: Option<Quoted>,
    parseVCards: Option<bool>,
    mentions: Option<seq<Item>>,
    sendSeen: Option<bool>,
    mimetype: Option<string>,
    fileName: Option<string>,
    fileSize: Option<int>,
    media: Option<Media>,
    sticker: StickerConfig)

  datatype Attachment =
    | FromFile(mimetype: string, data: string, filename: string, filesize: int)
    | FromMedia(media: Media)
    | ButtonsBody(body: string)
    | Sticker(source: Attachment, metadata: StickerConfig)

  /** `internalOptions` as handed to the page. */
  datatype InternalOptions = InternalOptions(
    sendMediaAsSticker: bool,
    caption: Option<Content>,
    quotedMessageId: Option<Quoted>,
    parseVCards: bool,
    mentionedJidList: seq<Item>,
    attachment: Option<Attachment>,
    location: Option<Content>,
    contactCard: Option<Item>,
    contactCardList: seq<Item>,
    buttons: Option<ButtonsModel>,
    list: Option<Content>)

  datatype Prepared = Prepared(message: Content, options: InternalOptions, sendSeen: bool)

  datatype SendError = TypeError(message: string)

  const MediaUndefinedMessage := "Cannot read properties of undefined (reading 'data')"
  const ObjectString := "[object Object]"

  // ---- string coercion and the three regular expressions ----

  function ItemString(i: Item): string {
    match i
    case ItemText(s) => s
    case _ => ObjectString
  }

  /** `Array.prototype.join(",")` of the elements' strings. */
  function JoinItems(items: seq<Item>): string
    decreases |items|
  {
    if items == [] then ""
    else if |items| == 1 then ItemString(items[0])
    else ItemString(items[0]) + "," + JoinItems(items[1..])
  }

  /** `String(content)`, as `RegExp.prototype.test` coerces a non-buffer
      content: a string is itself, an array is its joined elements, and every
      other object is `[object Object]`. */
  function JsString(c: Content): string
    requires !c.BufferContent?
  {
    match c
    case Text(s) => s
    case ArrayContent(items) => JoinItems(items)
    case _ => ObjectString
  }

  predicate IsBase64Char(c: char) {
    ('a' <= c <= 'z') || ('A' <= c <= 'Z') || ('0' <= c <= '9') || c == '+' || c == '/'
  }

  /** `/^[a-zA-Z0-9+/]*={0,2}$/i`: base64 characters followed by at most two
      `=` (the `i` flag adds nothing to a class holding both cases). */
  /** The first `n` characters are base64 characters and the rest, at most
      two, are `=`. */
  predicate Base64Split(s: string, n: nat)
    requires n <= |s|
  {
    |s| - n <= 2 &&
    (forall k :: 0 <= k < n ==> IsBase64Char(s[k])) &&
    (forall k :: n <= k < |s| ==> s[k] == '=')
  }

  predicate IsBase64Text(s: string) {
    exists n: nat | n <= |s| :: Base64Split(s, n)
  }

  /** The characters JavaScript's `.` does not match. */
  predicate IsLineTerminator(c: char) {
    c == '\n' || c == '\r' || c == '\U{2028}' || c == '\U{2029}'
  }

  predicate NoLineTerminator(s: string) {
    forall k :: 0 <= k < |s| ==> !IsLineTerminator(s[k])
  }

  /** ASCII lower-casing; under the `i` flag without `u` no other character
      folds onto an ASCII letter. */
  function Lower(c: char): char {
    if 'A' <= c <= 'Z' then (c as int + 32) as char else c
  }

  predicate EqualsIgnoreCase(a: string, b: string) {
    |a| == |b| && forall k :: 0 <= k < |a| ==> Lower(a[k]) == Lower(b[k])
  }

  /** A `/` at `i` and `;base64,` at `j`, with no line terminator between the
      `data:` prefix and `j`. */
  predicate DataUriAt(s: string, i: int, j: int)
    requires 5 <= i < j <= |s| - 8
  {
    s[i] == '/' && NoLineTerminator(s[5..i]) && NoLineTerminator(s[i + 1..j]) &&
    EqualsIgnoreCase(s[j..j + 8], ";base64,")
  }

  /** `/^data:.*?\/.*?;base64,/i`. */
  predicate IsDataUri(s: string) {
    |s| >= 5 && EqualsIgnoreCase(s[..5], "data:") &&
    exists i, j | 5 <= i < j <= |s| - 8 :: DataUriAt(s, i, j)
  }

  /** `/^https?:\/\//`. */
  predicate IsHttpUrl(s: string) {
    StartsWith(s, "http://") || StartsWith(s, "https://")
  }

  // ---- classification ----

  /** The branches of the classification, in source order, and plain text. */
  datatype Branch =
    | FileLike | MediaBranch | OptionsMediaBranch | LocationBranch | ContactBranch
    | ContactListBranch | ButtonsBranch | ListBranch | PlainText

  const BranchOrder: seq<Branch> :=
    [FileLike, MediaBranch, OptionsMediaBranch, LocationBranch, ContactBranch,
     ContactListBranch, ButtonsBranch, ListBranch]

  /** The first branch's test: a buffer, or a content whose string matches one
      of the three expressions, or a string naming an existing file
      (`existsSync` answers false for anything but a string). */
  predicate LooksLikeFile(c: Content, fileExists: string -> bool) {
    match c
    case BufferContent(_) => true
    case _ =>
      var s := JsString(c);
      IsBase64Text(s) || IsDataUri(s) || IsHttpUrl(s) || (c.Text? && fileExists(s))
  }

  /** The test guarding each branch, independently of the others. */
  predicate Guard(b: Branch, c: Content, o: SendOptions, fileExists: string -> bool) {
    match b
    case FileLike => LooksLikeFile(c, fileExists)
    case MediaBranch => c.MediaContent?
    case OptionsMediaBranch => o.media.Some?
    case LocationBranch => c.LocationContent?
    case ContactBranch => c.ContactContent?
    case ContactListBranch => c.ArrayContent? && |c.items| > 0 && c.items[0].ItemContact?
    case ButtonsBranch => c.ButtonsContent?
    case ListBranch => c.ListContent?
    case PlainText => true
  }

  /** The if/else-if chain of `sendMessage`. */
  function Classify(c: Content, o: SendOptions, fileExists: string -> bool): Branch {
    if LooksLikeFile(c, fileExists) then FileLike
    else if c.MediaContent? then MediaBranch
    else if o.media.Some? then OptionsMediaBranch
    else if c.LocationContent? then LocationBranch
    else if c.ContactContent? then ContactBranch
    else if c.ArrayContent? && |c.items| > 0 && c.items[0].ItemContact? then ContactListBranch
    else if c.ButtonsContent? then ButtonsBranch
    else if c.ListContent? then ListBranch
    else PlainText
  }

  /** The chain over the eight guard values alone. */
  function Pick(g: seq<bool>): Branch
    requires |g| == |BranchOrder|
  {
    if g[0] then FileLike else if g[1] then MediaBranch else if g[2] then OptionsMediaBranch
    else if g[3] then LocationBranch else if g[4] then ContactBranch else if g[5] then ContactListBranch
    else if g[6] then ButtonsBranch else if g[7] then ListBranch else PlainText
  }

  lemma PickFirst(g: seq<bool>, k: nat)
    requires |g| == |BranchOrder| && k < |BranchOrder|
    ensures Pick(g) == BranchOrder[k] <==> g[k] && forall j :: 0 <= j < k ==> !g[j]
    ensures Pick(g) == PlainText <==> forall j :: 0 <= j < |BranchOrder| ==> !g[j]
  {
  }

  /** The eight guard values of a content, in branch order. */
  function GuardValues(c: Content, o: SendOptions, fileExists: string -> bool): seq<bool> {
    [Guard(FileLike, c, o, fileExists), Guard(MediaBranch, c, o, fileExists),
     Guard(OptionsMediaBranch, c, o, fileExists), Guard(LocationBranch, c, o, fileExists),
     Guard(ContactBranch, c, o, fileExists), Guard(ContactListBranch, c, o, fileExists),
     Guard(ButtonsBranch, c, o, fileExists), Guard(ListBranch, c, o, fileExists)]
  }

  lemma ClassifyIsPick(c: Content, o: SendOptions, fileExists: string -> bool)
    ensures Classify(c, o, fileExists) == Pick(GuardValues(c, o, fileExists))
  {
  }

  lemma GuardValuesAreGuards(c: Content, o: SendOptions, fileExists: string -> bool)
    ensures forall j :: 0 <= j < |BranchOrder| ==> GuardValues(c, o, fileExists)[j] == Guard(BranchOrder[j], c, o, fileExists)
  {
    assert BranchOrder == [FileLike, MediaBranch, OptionsMediaBranch, LocationBranch, ContactBranch,
                           ContactListBranch, ButtonsBranch, ListBranch];
  }

  /** First match wins: the content takes branch number `k` exactly when that
      branch's guard holds and no earlier branch's guard does; it is sent as
      plain text exactly when no guard holds. */
  lemma FirstMatchWins(c: Content, o: SendOptions, fileExists: string -> bool, k: nat)
    requires k < |BranchOrder|
    ensures Classify(c, o, fileExists) == BranchOrder[k] <==>
              Guard(BranchOrder[k], c, o, fileExists) &&
              forall j :: 0 <= j < k ==> !Guard(BranchOrder[j], c, o, fileExists)
    ensures Classify(c, o, fileExists) == PlainText <==>
              forall j :: 0 <= j < |BranchOrder| ==> !Guard(BranchOrder[j], c, o, fileExists)
  {
    ClassifyIsPick(c, o, fileExists);
    GuardValuesAreGuards(c, o, fileExists);
    PickFirst(GuardValues(c, o, fileExists), k);
  }

  /** The base64 expression also matches the empty string and every plain
      alphanumeric word, so such a text goes down the file branch. */
  lemma AlphanumericTextIsFileLike(s: string, o: SendOptions, fileExists: string -> bool)
    requires forall k :: 0 <= k < |s| ==> ('a' <= s[k] <= 'z') || ('A' <= s[k] <= 'Z') || ('0' <= s[k] <= '9')
    ensures Classify(Text(s), o, fileExists) == FileLike
  {
    assert Base64Split(s, |s|);
  }

  /** An array whose first element is not a contact is never a contact list;
      an empty array is file-like (it coerces to the empty string). */
  lemma EmptyArrayIsFileLike(o: SendOptions, fileExists: string -> bool)
    ensures Classify(ArrayContent([]), o, fileExists) == FileLike
  {
    assert JsString(ArrayContent([])) == "";
    assert Base64Split("", 0);
  }

  // ---- option mapping ----

  /** `options.quoted?.id ? (quoted._serialized || quoted.id._serialized) : options.quoted`. */
  function QuotedMessageId(q: Option<Quoted>): (r: Option<Quoted>)
    ensures q.None? ==> r.None?
    ensures q.Some? && q.value.QuotedText? ==> r == q
    ensures q.Some? && q.value.QuotedObject? && q.value.id.None? ==> r == q
    ensures q.Some? && q.value.QuotedObject? && q.value.id.Some? ==>
              (Truthy(q.value.serialized) ==> r == Some(QuotedText(q.value.serialized.value))) &&
              (!Truthy(q.value.serialized) ==>
                 (r.Some? <==> q.value.id.value.Some?) &&
                 (r.Some? ==> r == Some(QuotedText(q.value.id.value.value))))
  {
    match q
    case None => None
    case Some(QuotedText(_)) => q
    case Some(QuotedObject(ser, id)) =>
      if id.None? then q
      else match OrElse(ser, id.value)
        case None => None
        case Some(s) => Some(QuotedText(s))
  }

  /** `x?.id ? x.id._serialized : x` on a mention or a contact-list element. */
  function SerializeRef(i: Item): Item {
    match i
    case ItemContact(Some(id)) => ItemText(id)
    case _ => i
  }

  function SerializeRefs(items: seq<Item>): (r: seq<Item>)
    ensures |r| == |items|
    ensures forall k :: 0 <= k < |items| ==> r[k] == SerializeRef(items[k])
  {
    seq(|items|, k requires 0 <= k < |items| => SerializeRef(items[k]))
  }

  /** `internalOptions` before the content is classified. */
  function BaseOptions(o: SendOptions): InternalOptions {
    InternalOptions(
      sendMediaAsSticker := o.asSticker,
      caption := if o.caption.Some? then Some(Text(o.caption.value)) else None,
      quotedMessageId := QuotedMessageId(o.quoted),
      parseVCards := o.parseVCards != Some(false),
      mentionedJidList := if o.mentions.Some? then SerializeRefs(o.mentions.value) else [],
      attachment := None,
      location := None,
      contactCard := None,
      contactCardList := [],
      buttons := None,
      list := None)
  }

  /** `typeof options.sendSeen === "undefined" ? true : options.sendSeen`. */
  function SendSeen(o: SendOptions): bool {
    o.sendSeen.None? || o.sendSeen.value
  }

  /** Option defaults: vCards are parsed unless explicitly disabled; the chat
      is marked seen unless `sendSeen` is given and false; mentions keep their
      number and order, each contact with an id replaced by that id. */
  lemma OptionDefaults(o: SendOptions)
    ensures BaseOptions(o).parseVCards <==> o.parseVCards != Some(false)
    ensures SendSeen(o) <==> o.sendSeen != Some(false)
    ensures o.mentions.None? ==> BaseOptions(o).mentionedJidList == []
    ensures o.mentions.Some? ==>
              |BaseOptions(o).mentionedJidList| == |o.mentions.value| &&
              forall k :: 0 <= k < |o.mentions.value| ==>
                (o.mentions.value[k].ItemContact? && o.mentions.value[k].id.Some? ==>
                   BaseOptions(o).mentionedJidList[k] == ItemText(o.mentions.value[k].id.value)) &&
                (!(o.mentions.value[k].ItemContact? && o.mentions.value[k].id.Some?) ==>
                   BaseOptions(o).mentionedJidList[k] == o.mentions.value[k])
  {
  }

  // ---- the file branch ----

  /** A file size option is truthy when present and non-zero. */
  predicate TruthyNumber(n: Option<int>) {
    n.Some? && n.value != 0
  }

  /** `ex === ".bin"` with no mimetype, or `ex === ".html"`: the content is
      then sent as it is. `ex` is `.bin` when `getFile` found nothing. */
  predicate KeepsContent(media: Option<FileInfo>, mimetype: Option<string>) {
    var ext := if media.None? then ".bin" else media.value.ext;
    (!Truthy(mimetype) && ext == ".bin") || ext == ".html"
  }

  /** The first branch: keep the content, or build an attachment from the file
      and send empty text. With a mimetype but nothing found, reading
      `media.data` throws. */
  function FileBranch(c: Content, o: SendOptions, media: Option<FileInfo>, randomName: string -> string,
                      base: InternalOptions): Result<(Content, InternalOptions), SendError> {
    if KeepsContent(media, o.mimetype) then Ok((c, base))
    else if media.None? then Err(TypeError(MediaUndefinedMessage))
    else
      var m := media.value;
      var a := FromFile(
        if Truthy(o.mimetype) then o.mimetype.value else m.mime,
        m.data,
        if Truthy(o.fileName) then o.fileName.value else randomName(m.ext),
        if TruthyNumber(o.fileSize) then o.fileSize.value else m.size);
      Ok((Text(""), base.(attachment := Some(a))))
  }

  /** The remaining branches, each moving the content into one option. */
  function OtherBranch(b: Branch, c: Content, o: SendOptions, fileExists: string -> bool,
                       base: InternalOptions): (Content, InternalOptions)
    requires b != FileLike && Guard(b, c, o, fileExists)
  {
    match b
    case MediaBranch => (Text(""), base.(attachment := Some(FromMedia(c.media))))
    case OptionsMediaBranch => (Text(""), base.(attachment := Some(FromMedia(o.media.value)), caption := Some(c)))
    case LocationBranch => (Text(""), base.(location := Some(c)))
    case ContactBranch =>
      (Text(""), base.(contactCard := Some(if c.id.Some? then ItemText(c.id.value) else ItemContact(None))))
    case ContactListBranch => (Text(""), base.(contactCardList := SerializeRefs(c.items)))
    case ButtonsBranch =>
      var withBody := if c.buttons.buttonsType != "chat" then base.(attachment := Some(ButtonsBody(c.buttons.body))) else base;
      (Text(""), withBody.(buttons := Some(c.buttons)))
    case ListBranch => (Text(""), base.(list := Some(c)))
    case _ => (c, base)
  }

  /** `global?.Exif`: every field absent when there is no global configuration. */
  function GlobalOrEmpty(global: Option<StickerConfig>): StickerConfig {
    if global.Some? then global.value else StickerConfig(None, None, None, None, None, None, None, None, None)
  }

  /** `options?.x ? options.x : global?.Exif?.x` on one string field. */
  predicate FallsBack(o: Option<string>, r: Option<string>, g: Option<string>) {
    (Truthy(o) ==> r == o) && (!Truthy(o) ==> r == g)
  }

  /** Each sticker field takes the option when truthy, else the process-wide
      value (absent when there is no global configuration). */
  function StickerMetadata(opt: StickerConfig, global: Option<StickerConfig>): (r: StickerConfig) {
    var g := GlobalOrEmpty(global);
    StickerConfig(
      OrElse(opt.packId, g.packId),
      OrElse(opt.packName, g.packName),
      OrElse(opt.packPublish, g.packPublish),
      OrElse(opt.packEmail, g.packEmail),
      OrElse(opt.packWebsite, g.packWebsite),
      OrElse(opt.androidApp, g.androidApp),
      OrElse(opt.iOSApp, g.iOSApp),
      if opt.categories.Some? then opt.categories else g.categories,
      if opt.isAvatar == Some(true) then opt.isAvatar else g.isAvatar)
  }

  /** The classification and the branch it selects, before the sticker step. */
  function Branched(c: Content, o: SendOptions, fileExists: string -> bool, getFile: Content -> Option<FileInfo>,
                    randomName: string -> string): Result<(Content, InternalOptions), SendError> {
    var base := BaseOptions(o);
    var b := Classify(c, o, fileExists);
    FirstMatchWins(c, o, fileExists, 0);
    if b == FileLike then FileBranch(c, o, getFile(c), randomName, base)
    else Ok(OtherBranch(b, c, o, fileExists, base))
  }

  /** JavaScript truthiness of `internalOptions.attachment`: a media or file
      object is always truthy; a buttons body is a string, truthy when non-empty. */
  predicate TruthyAttachment(a: Option<Attachment>) {
    a.Some? && (a.value.ButtonsBody? ==> a.value.body != "")
  }

  /** The sticker step: with `asSticker` set, a truthy attachment is converted
      with the fallback metadata. */
  function WithSticker(opts: InternalOptions, metadata: StickerConfig): InternalOptions {
    if opts.sendMediaAsSticker && TruthyAttachment(opts.attachment) then
      opts.(attachment := Some(Sticker(opts.attachment.value, metadata)))
    else opts
  }

  /** `sendMessage` up to the page call. */
  function Prepare(c: Content, o: SendOptions, fileExists: string -> bool, getFile: Content -> Option<FileInfo>,
                   randomName: string -> string, global: Option<StickerConfig>): Result<Prepared, SendError> {
    match Branched(c, o, fileExists, getFile, randomName)
    case Err(e) => Err(e)
    case Ok((msg, opts)) => Ok(Prepared(msg, WithSticker(opts, StickerMetadata(o.sticker, global)), SendSeen(o)))
  }

  /** No branch produces a sticker, and none touches `sendMediaAsSticker`. */
  lemma BranchesKeepStickerFlag(c: Content, o: SendOptions, fileExists: string -> bool, getFile: Content -> Option<FileInfo>,
                                randomName: string -> string)
    ensures var s := Branched(c, o, fileExists, getFile, randomName);
      s.Ok? ==> s.value.1.sendMediaAsSticker == o.asSticker &&
                (s.value.1.attachment.Some? ==> !s.value.1.attachment.value.Sticker?)
  {
    var b := Classify(c, o, fileExists);
    FirstMatchWins(c, o, fileExists, 0);
    if b == FileLike {
      FileBranchKeepsStickerFlag(c, o, getFile(c), randomName);
    } else {
      OtherBranchKeepsStickerFlag(b, c, o, fileExists);
    }
  }

  lemma FileBranchKeepsStickerFlag(c: Content, o: SendOptions, media: Option<FileInfo>, randomName: string -> string)
    ensures var s := FileBranch(c, o, media, randomName, BaseOptions(o));
      s.Ok? ==> s.value.1.sendMediaAsSticker == o.asSticker &&
                (s.value.1.attachment.Some? ==> !s.value.1.attachment.value.Sticker?)
  {
  }

  lemma OtherBranchKeepsStickerFlag(b: Branch, c: Content, o: SendOptions, fileExists: string -> bool)
    requires b != FileLike && Guard(b, c, o, fileExists)
    ensures var s := OtherBranch(b, c, o, fileExists, BaseOptions(o));
      s.1.sendMediaAsSticker == o.asSticker && (s.1.attachment.Some? ==> !s.1.attachment.value.Sticker?)
  {
  }

  // ---- properties of the whole preparation ----

  /** In the file branch the content is sent as text exactly when `KeepsContent`
      holds; otherwise it becomes a file attachment and the text is empty,
      except that a mimetype with nothing found is a TypeError. */
  lemma FileBranchOutcome(c: Content, o: SendOptions, fileExists: string -> bool, getFile: Content -> Option<FileInfo>,
                          randomName: string -> string, global: Option<StickerConfig>)
    requires Classify(c, o, fileExists) == FileLike
    ensures var r := Prepare(c, o, fileExists, getFile, randomName, global);
      (r.Err? <==> getFile(c).None? && Truthy(o.mimetype)) &&
      (r.Ok? ==> (r.value.message == c && r.value.options.attachment.None? <==> KeepsContent(getFile(c), o.mimetype))) &&
      (r.Ok? && !KeepsContent(getFile(c), o.mimetype) ==>
         r.value.message == Text("") && r.value.options.attachment.Some? &&
         var a := if o.asSticker then r.value.options.attachment.value.source else r.value.options.attachment.value;
         a.FromFile? &&
         a.mimetype == (if Truthy(o.mimetype) then o.mimetype.value else getFile(c).value.mime) &&
         a.filename == (if Truthy(o.fileName) then o.fileName.value else randomName(getFile(c).value.ext)))
  {
  }

  /** Only the file branch can fail, and every other branch but plain text
      sends empty text; plain text changes no option. */
  lemma OtherBranchesSucceed(c: Content, o: SendOptions, fileExists: string -> bool, getFile: Content -> Option<FileInfo>,
                             randomName: string -> string, global: Option<StickerConfig>)
    requires Classify(c, o, fileExists) != FileLike
    ensures var r := Prepare(c, o, fileExists, getFile, randomName, global);
      r.Ok? && r.value.sendSeen == SendSeen(o) &&
      (Classify(c, o, fileExists) == PlainText <==> r.value.message == c && r.value.options == BaseOptions(o)) &&
      (Classify(c, o, fileExists) == OptionsMediaBranch ==> r.value.options.caption == Some(c))
  {
    var b := Classify(c, o, fileExists);
    if b != PlainText {
      assert !c.Text? || c != Text("") by {
        if c.Text? && c.s == "" {
          assert Base64Split(c.s, 0);
        }
      }
    }
  }

  /** The sticker conversion is applied exactly when `asSticker` is set and a
      truthy attachment was built, to that attachment, with the fallback
      metadata; an empty buttons body is sent as it is. */
  lemma StickerOnlyWithAttachment(c: Content, o: SendOptions, fileExists: string -> bool, getFile: Content -> Option<FileInfo>,
                                  randomName: string -> string, global: Option<StickerConfig>)
    ensures var r := Prepare(c, o, fileExists, getFile, randomName, global);
      r.Ok? && r.value.options.attachment.Some? && r.value.options.attachment.value.Sticker? ==>
        o.asSticker && TruthyAttachment(Some(r.value.options.attachment.value.source)) &&
        r.value.options.attachment.value.metadata == StickerMetadata(o.sticker, global)
    ensures var r := Prepare(c, o, fileExists, getFile, randomName, global);
      r.Ok? && o.asSticker && r.value.options.attachment.Some? ==>
        (r.value.options.attachment.value.Sticker? <==> TruthyAttachment(r.value.options.attachment))
  {
    BranchesKeepStickerFlag(c, o, fileExists, getFile, randomName);
  }

  /** Other objects stringify to `[object Object]`, which none of the three
      expressions matches. */
  lemma ObjectStringIsNotFileLike()
    ensures !IsBase64Text(ObjectString) && !IsDataUri(ObjectString) && !IsHttpUrl(ObjectString)
  {
    assert ObjectString[0] == '[' && !IsBase64Char('[');
    assert ObjectString[..5] == "[obje";
    assert ObjectString[..7] == "[object";
  }

  /** A buttons content of a type other than `chat` with an empty body keeps
      that empty body as its attachment even with `asSticker` set: the empty
      string is falsy, so no sticker is made. */
  lemma EmptyButtonsBodyIsNotConverted(buttonsType: string, o: SendOptions, fileExists: string -> bool,
                                       getFile: Content -> Option<FileInfo>, randomName: string -> string,
                                       global: Option<StickerConfig>)
    requires buttonsType != "chat" && o.media.None?
    ensures var r := Prepare(ButtonsContent(ButtonsModel(buttonsType, "")), o, fileExists, getFile, randomName, global);
      r.Ok? && r.value.options.attachment == Some(ButtonsBody("")) && r.value.message == Text("")
  {
    ObjectStringIsNotFileLike();
  }

  /** The fallback is per field: a truthy option wins, anything else is the
      global value, and every field is absent when there is no global
      configuration; applying it twice changes nothing. */
  lemma StickerFallback(opt: StickerConfig, global: Option<StickerConfig>)
    ensures var r := StickerMetadata(opt, global);
      var g := GlobalOrEmpty(global);
      FallsBack(opt.packId, r.packId, g.packId) && FallsBack(opt.packName, r.packName, g.packName) &&
      FallsBack(opt.packPublish, r.packPublish, g.packPublish) && FallsBack(opt.packEmail, r.packEmail, g.packEmail) &&
      FallsBack(opt.packWebsite, r.packWebsite, g.packWebsite) && FallsBack(opt.androidApp, r.androidApp, g.androidApp) &&
      FallsBack(opt.iOSApp, r.iOSApp, g.iOSApp) &&
      (opt.categories.Some? ==> r.categories == opt.categories) && (opt.categories.None? ==> r.categories == g.categories) &&
      (opt.isAvatar == Some(true) ==> r.isAvatar == Some(true)) && (opt.isAvatar != Some(true) ==> r.isAvatar == g.isAvatar)
    ensures global.None? ==>
      var r := StickerMetadata(opt, None);
      (!Truthy(opt.packId) ==> r.packId.None?) && (!Truthy(opt.packName) ==> r.packName.None?) &&
      (!Truthy(opt.packPublish) ==> r.packPublish.None?) && (!Truthy(opt.packEmail) ==> r.packEmail.None?) &&
      (!Truthy(opt.packWebsite) ==> r.packWebsite.None?) && (!Truthy(opt.androidApp) ==> r.androidApp.None?) &&
      (!Truthy(opt.iOSApp) ==> r.iOSApp.None?) && (opt.categories.None? ==> r.categories.None?) &&
      (opt.isAvatar != Some(true) ==> r.isAvatar.None?)
    ensures StickerMetadata(StickerMetadata(opt, global), global) == StickerMetadata(opt, global)
  {
    StickerFallbackIdempotent(opt, global);
  }

  lemma StickerFallbackIdempotent(opt: StickerConfig, global: Option<StickerConfig>)
    ensures StickerMetadata(StickerMetadata(opt, global), global) == StickerMetadata(opt, global)
  {
  }
}
