/** The parts of a chat message the bot looks at. */
module Telegram {
  import opened Wrappers

  datatype PhotoSize = PhotoSize(fileId: string, width: int)

  datatype User = User(id: int, username: Option<string>, firstName: string)

  datatype Chat = Chat(id: int, isPrivate: bool)

  /** A text message, or a photo (several sizes of one picture) with an optional caption. */
  datatype Content = Text(text: string) | Photo(sizes: seq<PhotoSize>, caption: Option<string>)

  datatype Message = Message(
    id: int,
    chat: Chat,
    from: User,
    date: int,
    content: Content,
    replyTo: Option<Message>)
  {
    predicate IsPhoto() {
      content.Photo?
    }

    /** `message.caption if message.content_type == 'photo' else message.text`. */
    function Body(): Option<string> {
      match content
      case Text(t) => Some(t)
      case Photo(_, c) => c
    }

    /** `message.text`: None for a photo message. */
    function TextOnly(): Option<string> {
      match content
      case Text(t) => Some(t)
      case Photo(_, _) => None
    }
  }

  /** A message the bot sends: a text reply to `to` (`bot.reply_to`). */
  datatype Sent = ReplyTo(to: Message, text: string)

  /**
   * Index chosen by `max(sizes, key=lambda p: p.width)`: the widest size, the
   * first one when several are equally wide.
   */
  function WidestIndex(sizes: seq<PhotoSize>): (k: nat)
    requires sizes != []
    ensures k < |sizes|
    ensures forall j :: 0 <= j < |sizes| ==> sizes[j].width <= sizes[k].width
    ensures forall j :: 0 <= j < k ==> sizes[j].width < sizes[k].width
  {
    if |sizes| == 1 then 0
    else
      var b := WidestIndex(sizes[..|sizes| - 1]);
      if sizes[|sizes| - 1].width > sizes[b].width then |sizes| - 1 else b
  }

  /** The file id of the widest size of a photo message; an error where `max` raises on no sizes. */
  function WidestFileId(m: Message): (r: Result<string>)
    requires m.IsPhoto()
    ensures r.Ok? <==> m.content.sizes != []
    ensures r.Ok? ==> r.value == m.content.sizes[WidestIndex(m.content.sizes)].fileId
  {
    if m.content.sizes == [] then Err("max() arg is an empty sequence")
    else Ok(m.content.sizes[WidestIndex(m.content.sizes)].fileId)
  }
}
