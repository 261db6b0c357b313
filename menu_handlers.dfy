/**
 * The handlers of the photo menu: the table of message chains, the menu
 * that a photo opens, and the two handlers that step a form one slot at a
 * time until the job is queued on the worker.
 *
 * Each handler is a pure decision (`Choice` for a button press, `Answer`
 * for a reply to a form message) followed by `Menu.React`, which carries
 * the decision out on the chain table, the outbox and the worker.
 */
module MenuHandlers {
  import opened Wrappers
  import opened PyStr
  import opened PyInt
  import opened Dict
  import opened Telegram
  import opened FormCodec
  import opened ImageMenu
  import Worker

  /** A request to the bot. The buttons of a reply are the callback data of its inline keyboard. */
  datatype BotCall =
    | Reply(to: Message, text: string, buttons: seq<string>)
    | SendMessage(chatId: int, text: string)
    | DeleteMessages(chatId: int, messageIds: seq<int>)
    | DeleteMessage(chatId: int, messageId: int)

  function MessageIds(ms: seq<Message>): (ids: seq<int>)
    ensures |ids| == |ms|
    ensures forall i :: 0 <= i < |ms| ==> ids[i] == ms[i].id
  {
    seq(|ms|, i requires 0 <= i < |ms| => ms[i].id)
  }

  // ---------------------------------------------------------------- PhotoMessageChain

  /** The photo that opened a menu, and the bot messages sent about it since. */
  class PhotoMessageChain {
    const id: string
    const origMessage: Message
    const prompt: string
    /** The messages to delete when the chain ends; only ever appended to. */
    var messageChains: seq<Message>
    /** The menu message that the auto-close job deletes, once the job is scheduled. */
    var autoClose: Option<Message>

    constructor(id: string, origMessage: Message, prompt: string)
      ensures this.id == id && this.origMessage == origMessage && this.prompt == prompt
      ensures messageChains == [] && autoClose == None
    {
      this.id := id;
      this.origMessage := origMessage;
      this.prompt := prompt;
      messageChains := [];
      autoClose := None;
    }

    method Append(message: Message)
      modifies this
      ensures messageChains == old(messageChains) + [message]
      ensures autoClose == old(autoClose)
    {
      messageChains := messageChains + [message];
    }

    /**
     * What `delete` asks of the bot: nothing for an empty chain, otherwise
     * one request naming every message of the chain, in the photo's chat.
     * The chain itself is left as it is.
     */
    function DeleteCalls(): (calls: seq<BotCall>)
      reads this
      ensures calls == [] <==> messageChains == []
      ensures forall c :: c in calls ==> c == DeleteMessages(origMessage.chat.id, MessageIds(messageChains))
    {
      if messageChains == [] then [] else [DeleteMessages(origMessage.chat.id, MessageIds(messageChains))]
    }
  }

  // ---------------------------------------------------------------- the menu

  /** The menu message: the mention on its own line, then the prompt in backquotes at the end. */
  function MenuText(mention: string, prompt: string): (r: string)
    ensures StartsWith(r, mention + "\n")
    ensures EndsWith(r, "Prompt: `" + prompt + "`")
  {
    var last := "IMAGE MENU (auto deleted after 30s) - " + ("Prompt: `" + prompt + "`");
    JoinCons(mention, [last], "\n");
    Ends(mention + "\n", last);
    Ends("IMAGE MENU (auto deleted after 30s) - ", "Prompt: `" + prompt + "`");
    ConcatStrings([mention, last])
  }

  /** The callback data of a menu button: `command|id`. */
  function CallbackData(command: string, id: string): string {
    command + "|" + id
  }

  /** One button per command of the table, in table order, then `close`. */
  function MenuButtons(commands: seq<string>, id: string): (buttons: seq<string>)
    ensures |buttons| == |commands| + 1
    ensures forall i :: 0 <= i < |commands| ==> buttons[i] == CallbackData(commands[i], id)
    ensures buttons[|commands|] == CallbackData("close", id)
  {
    seq(|commands|, i requires 0 <= i < |commands| => CallbackData(commands[i], id)) + [CallbackData("close", id)]
  }

  const NotPhotoText := "The response is not photo. \nReup the first image and try again"

  // ---------------------------------------------------------------- decisions

  /** What a handler does about an update. */
  datatype Reaction =
    | Ignored
      /** Run the auto-close job now: delete the menu message. */
    | CloseMenu(chainId: string)
      /** A non-photo answer to a `Photo` slot: say so in `chatId` and delete the chain. */
    | Rejected(chainId: string, chatId: int)
      /** Reply to the photo with `text`, which asks for the next slot. */
    | Asks(chainId: string, text: string)
      /** Delete the chain, reply to the photo with `text`, and queue `job` if there is one. */
    | Runs(chainId: string, text: string, job: Option<Worker.Job>)

  /** The values and the types of a decoded form have the same keys. */
  lemma DecodedKeys(text: string)
    ensures Deserialized(text).form.keys == Deserialized(text).types.keys
  {
    var e: Dict<string, string> := Empty();
    CollectKeys(e, e, FindFields(text));
  }

  /** `worker.execute(form["command"], orig, form)`; nothing where `form["command"]` raises `KeyError`. */
  function CommandJob(form: Dict<string, string>, orig: Message): (job: Option<Worker.Job>)
    ensures job.Some? <==> "command" in form.vals
  {
    if "command" in form.vals then Some(Worker.Job(form.vals["command"], orig, form.vals)) else None
  }

  /** The position of `k` in `keys` (`keys.index(k)`): its first occurrence. */
  function IndexOf(keys: seq<string>, k: string): (i: nat)
    requires k in keys
    ensures i < |keys| && keys[i] == k
    ensures forall j :: 0 <= j < i ==> keys[j] != k
  {
    if keys[0] == k then 0 else 1 + IndexOf(keys[1..], k)
  }

  /** The entries of a form, each with its type, in key order: the lines the handlers send back. */
  function FormFields(form: Dict<string, string>, types: Dict<string, string>): (fs: seq<Field>)
    requires form.Valid() && types.Valid() && form.keys == types.keys
    ensures |fs| == |form.keys|
    ensures forall i :: 0 <= i < |fs| ==>
      fs[i] == Field(types.vals[form.keys[i]], form.keys[i], form.vals[form.keys[i]])
  {
    seq(|form.keys|, i requires 0 <= i < |form.keys| =>
      Field(types.vals[form.keys[i]], form.keys[i], form.vals[form.keys[i]]))
  }

  /** The summary of a completed form: every entry except `id` and the `Photo` ones, in form order. */
  function SummaryFields(fields: seq<Field>): (fs: seq<Field>)
    ensures |fs| <= |fields|
    ensures forall f :: f in fs <==> f in fields && f.name != "id" && f.kind != "Photo"
  {
    if fields == [] then []
    else
      (if fields[0].name != "id" && fields[0].kind != "Photo" then [fields[0]] else [])
      + SummaryFields(fields[1..])
  }

  /**
   * After a menu choice: a form with more than three keys (`command`, `id`
   * and `prompt` come first) asks for its fourth key; otherwise the chain
   * is deleted and the job is queued at once.
   */
  function FirstQuestion(id: string, orig: Message, serialized: string): (r: Reaction)
    ensures r.Asks? || r.Runs?
    ensures r.chainId == id
    ensures r.Asks? <==> |Deserialized(serialized).form.keys| > 3
    ensures r.Runs? ==> r.text == "Executing..." && r.job == CommandJob(Deserialized(serialized).form, orig)
  {
    var d := Deserialized(serialized);
    DecodedKeys(serialized);
    var keys := d.form.keys;
    if |keys| > 3 then Asks(id, AskText(serialized, d.types.vals[keys[3]], keys[3]))
    else Runs(id, "Executing...", CommandJob(d.form, orig))
  }

  /**
   * `callback_query`: the data must split on `|` into a command and a chain
   * id, the chain must exist and the presser must be the photo's author.
   * `close` closes the menu; a command of the table starts its form; an
   * unknown command or an unmapped input node does nothing.
   */
  function Choice(data: string, from: User, chains: map<string, PhotoMessageChain>,
                  table: Dict<string, seq<InputNode>>): (r: Reaction)
    ensures r != Ignored ==>
      |Split(data, "|")| == 2 && r.chainId == Split(data, "|")[1]
      && r.chainId in chains && chains[r.chainId].origMessage.from.id == from.id
    ensures r.CloseMenu? <==> r != Ignored && Split(data, "|")[0] == "close"
    ensures !r.Rejected?
    ensures r.Asks? || r.Runs? ==>
      var command := Split(data, "|")[0];
      command in table.vals
      && Serialized(command, r.chainId, chains[r.chainId].prompt, table.vals[command]).Ok?
  {
    var parts := Split(data, "|");
    if |parts| != 2 || parts[1] !in chains then Ignored
    else
      var command := parts[0];
      var pmc := chains[parts[1]];
      if from.id != pmc.origMessage.from.id then Ignored
      else if command == "close" then CloseMenu(parts[1])
      else if command !in table.vals then Ignored
      else match Serialized(command, parts[1], pmc.prompt, table.vals[command])
        case Err(_) => Ignored
        case Ok(s) => FirstQuestion(parts[1], pmc.origMessage, s)
  }

  /**
   * The value a reply gives to a slot: `TG-` and the file id of the widest
   * size for a `Photo` slot; otherwise the caption of a photo or the text,
   * where a missing caption is written as Python formats `None`.
   */
  function SlotValue(message: Message, kind: string): (r: Result<string>)
    requires kind == "Photo" ==> message.IsPhoto()
    ensures kind == "Photo" ==> (r.Ok? <==> message.content.sizes != [])
    ensures kind == "Photo" && r.Ok? ==>
      r.value == "TG-" + message.content.sizes[WidestIndex(message.content.sizes)].fileId
    ensures kind != "Photo" ==> r == Ok(if message.Body().Some? then message.Body().value else "None")
  {
    if kind == "Photo" then
      match WidestFileId(message)
      case Err(e) => Err(e)
      case Ok(f) => Ok("TG-" + f)
    else Ok(match message.Body() case Some(t) => t case None => "None")
  }

  /**
   * After the slot `query` is filled with `v`: ask for the first key after
   * it in form order, or, when none is left, send the summary, delete the
   * chain and queue the job.
   */
  function NextQuestion(id: string, orig: Message, d: Decoded, query: string, v: string): (r: Reaction)
    requires d.form.Valid() && d.types.Valid() && d.form.keys == d.types.keys
    requires query in d.form.keys
    ensures r.Asks? || r.Runs?
    ensures r.chainId == id
    ensures r.Asks? <==> IndexOf(d.form.keys, query) + 1 < |d.form.keys|
    ensures r.Runs? ==> r.job == CommandJob(d.form.Put(query, v), orig)
  {
    var form := d.form.Put(query, v);
    var remain := form.keys[IndexOf(form.keys, query) + 1..];
    var fields := FormFields(form, d.types);
    if remain != [] then Asks(id, AskText(Render(fields), d.types.vals[remain[0]], remain[0]))
    else Runs(id, DoneText(Render(SummaryFields(fields))), CommandJob(form, orig))
  }

  /**
   * `input_chain`: the replied-to message must be a form message (its text
   * starts with `INPUT CHAIN`), its `id` must name a chain, and the reply
   * must come from the photo's author. The awaited slot is the name in the
   * question on the last line of the form message.
   */
  function Answer(message: Message, chains: map<string, PhotoMessageChain>): (r: Reaction)
    ensures (message.replyTo.None? || message.replyTo.value.TextOnly().None?
             || !StartsWith(message.replyTo.value.TextOnly().value, InputChainPrefix)) ==> r == Ignored
    ensures r != Ignored ==> r.chainId in chains && chains[r.chainId].origMessage.from.id == message.from.id
    ensures r.Rejected? ==> !message.IsPhoto() && r.chatId == message.chat.id
    ensures !r.CloseMenu?
  {
    if message.replyTo.None? || message.replyTo.value.TextOnly().None? then Ignored
    else
      var text := message.replyTo.value.TextOnly().value;
      var d := Deserialized(text);
      if !StartsWith(text, InputChainPrefix) || "id" !in d.form.vals || d.form.vals["id"] !in chains then Ignored
      else
        var id := d.form.vals["id"];
        var pmc := chains[id];
        if message.from.id != pmc.origMessage.from.id then Ignored
        else match AwaitedName(text)
          case None => Ignored
          case Some(query) =>
            if query !in d.types.vals then Ignored
            else if d.types.vals[query] == "Photo" && !message.IsPhoto() then Rejected(id, message.chat.id)
            else match SlotValue(message, d.types.vals[query])
              case Err(_) => Ignored
              case Ok(v) =>
                DecodedKeys(text);
                NextQuestion(id, pmc.origMessage, d, query, v)
  }

  // ---------------------------------------------------------------- the protocol, step by step

  /**
   * A menu button leads back to its command and its chain: `close` closes
   * the menu, a command of the table starts its form unless serializing it
   * fails, and anything else does nothing.
   */
  lemma MenuButtonLeadsBack(command: string, n: int, from: User, chains: map<string, PhotoMessageChain>,
                            table: Dict<string, seq<InputNode>>)
    requires '|' !in command
    requires Str(n) in chains && chains[Str(n)].origMessage.from.id == from.id
    ensures var r := Choice(CallbackData(command, Str(n)), from, chains, table);
      (command == "close" ==> r == CloseMenu(Str(n)))
      && (command != "close" && command !in table.vals ==> r == Ignored)
      && (command != "close" && command in table.vals ==>
            (r != Ignored <==> Serialized(command, Str(n), chains[Str(n)].prompt, table.vals[command]).Ok?)
            && (r != Ignored ==> r.chainId == Str(n)))
  {
    StrChars(n);
    assert '|' !in Str(n);
    assert CallbackData(command, Str(n)) == command + ['|'] + Str(n);
    SplitPair(command, Str(n), '|');
  }

  /** A new form asks for the fourth field, or runs at once when it has at most three. */
  lemma FirstQuestionOfForm(id: string, orig: Message, fields: seq<Field>)
    requires forall i :: 0 <= i < |fields| ==> WellFormed(fields[i])
    requires DistinctNames(fields)
    ensures |fields| > 3 ==>
      FirstQuestion(id, orig, Render(fields)) == Asks(id, AskText(Render(fields), fields[3].kind, fields[3].name))
    ensures |fields| <= 3 ==> FirstQuestion(id, orig, Render(fields)).Runs?
  {
    DeserializeRender(fields);
    NamesIndex(fields);
  }

  /** Filling the entry of one field of a decoded form changes that field's value and nothing else. */
  lemma FilledFields(fields: seq<Field>, k: nat, v: string)
    requires forall i :: 0 <= i < |fields| ==> WellFormed(fields[i])
    requires DistinctNames(fields) && k < |fields|
    ensures var d := Deserialized(Render(fields));
      d.form.keys == d.types.keys && fields[k].name in d.form.keys
      && FormFields(d.form.Put(fields[k].name, v), d.types)
         == fields[k := Field(fields[k].kind, fields[k].name, v)]
  {
    var d := Deserialized(Render(fields));
    DeserializeRender(fields);
    NamesIndex(fields);
    assert d.form.keys[k] == fields[k].name;
    var form := d.form.Put(fields[k].name, v);
    var fs := FormFields(form, d.types);
    var want := fields[k := Field(fields[k].kind, fields[k].name, v)];
    assert |fs| == |want|;
    forall i | 0 <= i < |fs|
      ensures fs[i] == want[i]
    {
      assert d.form.keys[i] == fields[i].name;
    }
  }

  /** A form message that asks for `slot`, in the message a reply answers. */
  predicate AnswersForm(message: Message, pre: seq<Field>, slot: Field, post: seq<Field>) {
    message.replyTo.Some?
    && message.replyTo.value.content == Text(Received(AskText(Render(pre + [slot] + post), slot.kind, slot.name)))
  }

  /** What `input_chain` reads from a form message the bot sent: the form, its chain and the awaited slot. */
  lemma AnswerReads(message: Message, pre: seq<Field>, slot: Field, post: seq<Field>, j: nat)
    requires AnswersForm(message, pre, slot, post)
    requires Sendable(pre + [slot] + post) && DistinctNames(pre + [slot] + post) && GoodSlot(slot.kind, slot.name)
    requires j < |pre| && pre[j].name == "id"
    ensures var text := message.replyTo.value.TextOnly().value;
      var d := Deserialized(text);
      StartsWith(text, InputChainPrefix)
      && d == Decoded(d.prompt, Deserialized(Render(pre + [slot] + post)).form, Deserialized(Render(pre + [slot] + post)).types)
      && "id" in d.form.vals && d.form.vals["id"] == pre[j].value
      && AwaitedName(text) == Some(slot.name)
      && slot.name in d.types.vals && d.types.vals[slot.name] == slot.kind
  {
    var fields := pre + [slot] + post;
    AskTextReadsBack(fields, slot.kind, slot.name);
    DeserializeRender(fields);
    assert fields[j] == pre[j] && fields[|pre|] == slot;
  }

  /** The decoded form of `fields`, with the field at `k` filled: its keys, its types and its lines. */
  lemma FilledForm(fields: seq<Field>, k: nat, v: string, d: Decoded)
    requires forall i :: 0 <= i < |fields| ==> WellFormed(fields[i])
    requires DistinctNames(fields) && k < |fields|
    requires d.form == Deserialized(Render(fields)).form && d.types == Deserialized(Render(fields)).types
    ensures d.form.keys == d.types.keys && fields[k].name in d.form.keys
    ensures FormFields(d.form.Put(fields[k].name, v), d.types) == fields[k := Field(fields[k].kind, fields[k].name, v)]
    ensures IndexOf(d.form.keys, fields[k].name) == k
    ensures |d.form.keys| == |fields|
    ensures k + 1 < |fields| ==>
      d.form.keys[k + 1] == fields[k + 1].name
      && fields[k + 1].name in d.types.vals && d.types.vals[fields[k + 1].name] == fields[k + 1].kind
  {
    assert FormFields(d.form.Put(fields[k].name, v), d.types) == fields[k := Field(fields[k].kind, fields[k].name, v)]
      && d.form.keys == d.types.keys && fields[k].name in d.form.keys by {
      FilledFields(fields, k, v);
    }
    assert |d.form.keys| == |fields| && forall i :: 0 <= i < |fields| ==> d.form.keys[i] == fields[i].name by {
      DeserializeRender(fields);
      NamesIndex(fields);
    }
    assert k + 1 < |fields| ==> fields[k + 1].name in d.types.vals && d.types.vals[fields[k + 1].name] == fields[k + 1].kind by {
      DeserializeRender(fields);
    }
    var i := IndexOf(d.form.keys, fields[k].name);
    assert d.form.keys[i] == fields[i].name;
  }

  /** After the field at `k` is filled: the question for the field after it, or the summary after the last. */
  lemma NextQuestionOfForm(id: string, orig: Message, fields: seq<Field>, k: nat, v: string, d: Decoded)
    requires forall i :: 0 <= i < |fields| ==> WellFormed(fields[i])
    requires DistinctNames(fields) && k < |fields|
    requires d.form == Deserialized(Render(fields)).form && d.types == Deserialized(Render(fields)).types
    ensures d.form.keys == d.types.keys && fields[k].name in d.form.keys
    ensures var filled := fields[k := Field(fields[k].kind, fields[k].name, v)];
      var r := NextQuestion(id, orig, d, fields[k].name, v);
      (k + 1 < |fields| ==> r == Asks(id, AskText(Render(filled), fields[k + 1].kind, fields[k + 1].name)))
      && (k + 1 == |fields| ==> r.Runs? && r.chainId == id && r.text == DoneText(Render(SummaryFields(filled))))
  {
    FilledForm(fields, k, v, d);
  }

  /** An answer from the photo's author to a form message goes on to the next question. */
  lemma AnswerReachesNext(message: Message, chains: map<string, PhotoMessageChain>,
                          pre: seq<Field>, slot: Field, post: seq<Field>, j: nat, v: string)
    requires AnswersForm(message, pre, slot, post)
    requires Sendable(pre + [slot] + post) && DistinctNames(pre + [slot] + post) && GoodSlot(slot.kind, slot.name)
    requires j < |pre| && pre[j].name == "id"
    requires pre[j].value in chains && chains[pre[j].value].origMessage.from.id == message.from.id
    requires slot.kind == "Photo" ==> message.IsPhoto()
    requires SlotValue(message, slot.kind) == Ok(v)
    ensures var d := Deserialized(message.replyTo.value.TextOnly().value);
      d.form.keys == d.types.keys && slot.name in d.form.keys
    ensures Answer(message, chains)
      == NextQuestion(pre[j].value, chains[pre[j].value].origMessage,
                      Deserialized(message.replyTo.value.TextOnly().value), slot.name, v)
  {
    AnswerReads(message, pre, slot, post, j);
    DecodedKeys(message.replyTo.value.TextOnly().value);
  }

  /**
   * One step of the form: an answer from the photo's author to the
   * question for `slot` fills it with the answer's value and asks for the
   * next field in form order; after the last field it sends the summary.
   */
  lemma AnswerStepsForm(message: Message, chains: map<string, PhotoMessageChain>,
                        pre: seq<Field>, slot: Field, post: seq<Field>, j: nat, v: string)
    requires AnswersForm(message, pre, slot, post)
    requires Sendable(pre + [slot] + post) && DistinctNames(pre + [slot] + post) && GoodSlot(slot.kind, slot.name)
    requires j < |pre| && pre[j].name == "id"
    requires pre[j].value in chains && chains[pre[j].value].origMessage.from.id == message.from.id
    requires slot.kind == "Photo" ==> message.IsPhoto()
    requires SlotValue(message, slot.kind) == Ok(v)
    ensures var filled := pre + [Field(slot.kind, slot.name, v)] + post;
      var r := Answer(message, chains);
      (post != [] ==> r == Asks(pre[j].value, AskText(Render(filled), post[0].kind, post[0].name)))
      && (post == [] ==> r.Runs? && r.chainId == pre[j].value && r.text == DoneText(Render(SummaryFields(filled))))
  {
    var fields := pre + [slot] + post;
    var d := Deserialized(message.replyTo.value.TextOnly().value);
    var filled := pre + [Field(slot.kind, slot.name, v)] + post;
    var id := pre[j].value;
    var orig := chains[id].origMessage;
    assert filled == fields[|pre| := Field(slot.kind, slot.name, v)] && fields[|pre|] == slot;
    assert post != [] ==> fields[|pre| + 1] == post[0];
    assert Answer(message, chains) == NextQuestion(id, orig, d, slot.name, v) by {
      AnswerReachesNext(message, chains, pre, slot, post, j, v);
    }
    assert d.form == Deserialized(Render(fields)).form && d.types == Deserialized(Render(fields)).types by {
      AnswerReads(message, pre, slot, post, j);
    }
    assert forall i :: 0 <= i < |fields| ==> WellFormed(fields[i]);
    NextQuestionOfForm(id, orig, fields, |pre|, v, d);
  }

  /** A non-photo answer to a `Photo` slot from the photo's author is rejected. */
  lemma AnswerRejectsNonPhoto(message: Message, chains: map<string, PhotoMessageChain>,
                              pre: seq<Field>, slot: Field, post: seq<Field>, j: nat)
    requires AnswersForm(message, pre, slot, post)
    requires Sendable(pre + [slot] + post) && DistinctNames(pre + [slot] + post) && GoodSlot(slot.kind, slot.name)
    requires j < |pre| && pre[j].name == "id"
    requires pre[j].value in chains && chains[pre[j].value].origMessage.from.id == message.from.id
    requires slot.kind == "Photo" && !message.IsPhoto()
    ensures Answer(message, chains) == Rejected(pre[j].value, message.chat.id)
  {
    AnswerReads(message, pre, slot, post, j);
  }

  // ---------------------------------------------------------------- the handlers' state

  class Menu {
    /** `PHOTO_MESSAGE_CHAINS`, keyed by the photo's message id. */
    var chains: map<string, PhotoMessageChain>
    /** Every request made to the bot, in order. */
    var outbox: seq<BotCall>
    const worker: Worker.ComfyWorker
    /** The prompt a new chain starts with. */
    const defaultPrompt: string

    /** The worker keeps its queue invariant, and no chain object sits under two keys. */
    ghost predicate Valid()
      reads this, worker
    {
      worker.Valid()
      && forall a, b :: a in chains && b in chains && a != b ==> chains[a] != chains[b]
    }

    constructor(worker: Worker.ComfyWorker, defaultPrompt: string)
      requires worker.Valid()
      ensures Valid() && this.worker == worker && this.defaultPrompt == defaultPrompt
      ensures chains == map[] && outbox == []
    {
      this.worker := worker;
      this.defaultPrompt := defaultPrompt;
      chains := map[];
      outbox := [];
    }

    /**
     * `image_menu`: a photo gets a menu reply, with one button per command
     * of the table and a `close` button, and a new chain under its message
     * id holding that reply; any other message is ignored.
     */
    method ImageMenu(message: Message, mention: string, table: Dict<string, seq<InputNode>>, reply: Message)
      requires Valid()
      modifies this
      ensures Valid()
      ensures !message.IsPhoto() ==> chains == old(chains) && outbox == old(outbox)
      ensures message.IsPhoto() ==>
        var id := Str(message.id);
        chains.Keys == old(chains).Keys + {id}
        && (forall k :: k in old(chains) && k != id ==> chains[k] == old(chains)[k])
        && fresh(chains[id])
        && chains[id].id == id && chains[id].origMessage == message && chains[id].prompt == defaultPrompt
        && chains[id].messageChains == [reply] && chains[id].autoClose == Some(reply)
        && outbox == old(outbox) + [Reply(message, MenuText(mention, defaultPrompt), MenuButtons(table.keys, id))]
    {
      if !message.IsPhoto() {
        return;
      }
      var id := Str(message.id);
      var pmc := new PhotoMessageChain(id, message, defaultPrompt);
      outbox := outbox + [Reply(message, MenuText(mention, pmc.prompt), MenuButtons(table.keys, id))];
      pmc.Append(reply);
      pmc.autoClose := Some(reply);
      chains := chains[id := pmc];
    }

    /** The effect of carrying out `r`, where `reply` is the message the bot's reply became. */
    twostate predicate Reacted(r: Reaction, reply: Message)
      reads this, worker, chains.Values
    {
      chains == old(chains)
      && (forall k :: k in chains ==> chains[k].autoClose == old(chains[k].autoClose))
      && (forall k :: k in chains && (r.Ignored? || k != r.chainId) ==>
            chains[k].messageChains == old(chains[k].messageChains))
      && (r != Ignored ==> r.chainId in chains)
      && match r
         case Ignored =>
           outbox == old(outbox) && unchanged(worker)
         case CloseMenu(id) =>
           var m := chains[id].autoClose;
           outbox == old(outbox) + (if m.Some? then [DeleteMessage(m.value.chat.id, m.value.id)] else [])
           && chains[id].messageChains == old(chains[id].messageChains)
           && unchanged(worker)
         case Rejected(id, chatId) =>
           outbox == old(outbox) + [SendMessage(chatId, NotPhotoText)] + old(chains[id].DeleteCalls())
           && chains[id].messageChains == old(chains[id].messageChains)
           && unchanged(worker)
         case Asks(id, text) =>
           outbox == old(outbox) + [Reply(chains[id].origMessage, text, [])]
           && chains[id].messageChains == old(chains[id].messageChains) + [reply]
           && unchanged(worker)
         case Runs(id, text, job) =>
           outbox == old(outbox) + old(chains[id].DeleteCalls()) + [Reply(chains[id].origMessage, text, [])]
           && chains[id].messageChains == old(chains[id].messageChains) + [reply]
           && (job.None? ==> unchanged(worker))
           && (job.Some? ==>
                 worker.data == old(worker.data) + [job.value]
                 && worker.submitted == old(worker.submitted) + [job.value]
                 && worker.taken == old(worker.taken) && worker.sent == old(worker.sent))
    }

    /** Carries out a decision: the requests it sends, the chain it extends, the job it queues. */
    method React(r: Reaction, reply: Message)
      requires Valid()
      requires r != Ignored ==> r.chainId in chains
      modifies this`outbox, worker, chains.Values
      ensures Valid()
      ensures Reacted(r, reply)
    {
      match r {
        case Ignored =>
        case CloseMenu(id) =>
          var m := chains[id].autoClose;
          if m.Some? {
            outbox := outbox + [DeleteMessage(m.value.chat.id, m.value.id)];
          }
        case Rejected(id, chatId) =>
          outbox := outbox + [SendMessage(chatId, NotPhotoText)] + chains[id].DeleteCalls();
        case Asks(id, text) =>
          var pmc := chains[id];
          outbox := outbox + [Reply(pmc.origMessage, text, [])];
          pmc.Append(reply);
        case Runs(id, text, job) =>
          var pmc := chains[id];
          outbox := outbox + pmc.DeleteCalls() + [Reply(pmc.origMessage, text, [])];
          pmc.Append(reply);
          if job.Some? {
            worker.Execute(job.value.commandName, job.value.message, job.value.parsedData);
          }
      }
    }

    /** `callback_query`: a press on a menu button. */
    method CallbackQuery(data: string, from: User, table: Dict<string, seq<InputNode>>, reply: Message)
      returns (r: Reaction)
      requires Valid()
      modifies this`outbox, worker, chains.Values
      ensures Valid()
      ensures r == Choice(data, from, chains, table)
      ensures Reacted(r, reply)
    {
      r := Choice(data, from, chains, table);
      React(r, reply);
    }

    /** `input_chain`: a reply to one of the bot's messages. */
    method InputChain(message: Message, reply: Message) returns (r: Reaction)
      requires Valid()
      modifies this`outbox, worker, chains.Values
      ensures Valid()
      ensures r == Answer(message, chains)
      ensures Reacted(r, reply)
    {
      r := Answer(message, chains);
      React(r, reply);
    }
  }
}
