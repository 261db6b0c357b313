/**
 * The bot's entry point: the list of commands it announces, and the
 * handler that reads the command name off a message that is not a reply
 * and sends it to nothing (free commands), to a special-command handler,
 * or to the worker's queue.
 */
module Main {
  import opened Wrappers
  import opened PyStr
  import opened Telegram
  import BotUtils
  import Worker

  /** The keys of `SPECIAL_COMMANDS` as declared. */
  const SpecialNames: seq<string> := ["set_image_id", "get_image_id", "get_allowed", "add_allowed", "remove_allowed"]

  /** `SPECIAL_COMMANDS` once "image_menu" has been added to it. */
  const Specials: seq<string> := SpecialNames + ["image_menu"]

  /** `FREE_COMMANDS`: answered by their own handler, never dispatched here. */
  const FreeCommands: seq<string> := ["get_ids"]

  /** The workflow command names, then the special ones, then "image_menu". */
  ghost predicate CommandsLayout(commands: seq<string>, workflows: seq<string>) {
    |commands| == |workflows| + |Specials|
    && commands[..|workflows|] == workflows
    && commands[|workflows|..] == Specials
  }

  /** `COMMANDS`: the preprocessed workflow names, extended in place with the special command names and "image_menu". */
  method BuildCommands(workflows: seq<string>) returns (commands: seq<string>)
    ensures CommandsLayout(commands, workflows)
  {
    commands := workflows;
    commands := commands + SpecialNames;
    commands := commands + ["image_menu"];
    assert commands[|workflows|..] == Specials;
  }

  /** Every workflow and every special command, "image_menu" included, is announced. */
  lemma CommandsAnnounced(commands: seq<string>, workflows: seq<string>, name: string)
    requires CommandsLayout(commands, workflows)
    requires name in workflows || name in Specials
    ensures name in commands
  {
    if name in workflows {
      var i :| 0 <= i < |workflows| && workflows[i] == name;
      assert commands[i] == commands[..|workflows|][i];
    } else {
      var i :| 0 <= i < |Specials| && Specials[i] == name;
      assert commands[|workflows| + i] == commands[|workflows|..][i];
    }
  }

  /**
   * The command name: the first whitespace-separated word of the stripped
   * text without its first character. None where Python raises: no text
   * (a photo without a caption) or only whitespace.
   */
  function CommandName(text: Option<string>): (name: Option<string>)
    ensures name.None? <==> text.None? || SplitWs(Strip(text.value)) == []
  {
    if text.None? then None
    else
      var words := SplitWs(Strip(text.value));
      if words == [] then None else Some(Drop(words[0], 1))
  }

  lemma {:induction false} WordLenOfWord(w: string, rest: string)
    requires NoSpace(w)
    requires rest == [] || IsSpace(rest[0])
    ensures WordLen(w + rest) == |w|
    decreases |w|
  {
    if w != [] {
      assert (w + rest)[1..] == w[1..] + rest;
      WordLenOfWord(w[1..], rest);
    } else {
      assert w + rest == rest;
    }
  }

  /**
   * A text typed as whitespace `ws`, one non-whitespace character `c`
   * (normally '/', but any character is dropped), the word `name`, then
   * nothing or whitespace and arguments.
   */
  predicate CommandShape(ws: string, c: char, name: string, rest: string) {
    (forall i :: 0 <= i < |ws| ==> IsSpace(ws[i]))
    && !IsSpace(c) && NoSpace(name)
    && (rest == [] || IsSpace(rest[0]))
  }

  /** Such a text is the command `name`: "/draw x" gives "draw", "  /draw x" too, and "hello" gives "ello". */
  lemma CommandNameOf(ws: string, c: char, name: string, rest: string)
    requires CommandShape(ws, c, name, rest)
    ensures CommandName(Some(ws + [c] + name + rest)) == Some(name)
  {
    var word := [c] + name;
    var l := word + rest;
    var s := ws + [c] + name + rest;
    assert s == ws + l;
    assert NoSpace(word) by {
      assert forall i :: 1 <= i < |word| ==> word[i] == name[i - 1];
    }
    StripLeftAfterSpace(ws, l);
    StripRightKeeps(l, |word| - 1);
    StripRightIsPrefix(l);
    var t := StripRight(l);
    assert Strip(s) == t;
    var tail := t[|word|..];
    assert t == word + tail by {
      assert t == l[..|t|];
    }
    assert tail == [] || IsSpace(tail[0]) by {
      if tail != [] {
        assert tail[0] == t[|word|] == l[|word|] == rest[0];
      }
    }
    WordLenOfWord(word, tail);
    assert t[..|word|] == word;
    assert SplitWs(t)[0] == word;
    assert Drop(word, 1) == name;
  }

  /** Where `main` sends a message. */
  datatype Route =
    | NotMain                                                // a reply: left to `input_chain`
    | Raised                                                 // no text, or no word in it
    | Free(name: string)                                     // a free command: nothing to do here
    | Special(name: string, parsedData: map<string, string>) // a `SPECIAL_COMMANDS` handler
    | Queued(job: Worker.Job)                                // `worker.execute`

  /** The routing decision of `main`. */
  function RouteOf(message: Message): (r: Route)
    ensures r.NotMain? <==> message.replyTo.Some?
    ensures r.Raised? <==> message.replyTo.None? && CommandName(message.Body()).None?
    ensures r.Free? ==> r.name in FreeCommands
    ensures r.Special? ==> r.name in Specials && r.name !in FreeCommands
    ensures r.Queued? ==> r.job.commandName !in Specials && r.job.commandName !in FreeCommands
    ensures r.Queued? ==> r.job.message == message
  {
    if message.replyTo.Some? then NotMain
    else
      var text := message.Body();
      match CommandName(text)
      case None => Raised
      case Some(name) =>
        var parsed := BotUtils.Parsed(text.value, name);
        if name in FreeCommands then Free(name)
        else if name in Specials then Special(name, parsed)
        else Queued(Worker.Job(name, message, parsed))
  }

  /**
   * A command that is neither free nor special, typed as "/name args"
   * (after any whitespace), is queued on the worker under that name with
   * the parsed arguments.
   */
  lemma WorkflowCommandQueued(message: Message, ws: string, c: char, name: string, rest: string)
    requires message.replyTo.None? && message.Body() == Some(ws + [c] + name + rest)
    requires CommandShape(ws, c, name, rest)
    requires name !in Specials && name !in FreeCommands
    ensures RouteOf(message) == Queued(Worker.Job(name, message, BotUtils.Parsed(ws + [c] + name + rest, name)))
  {
    CommandNameOf(ws, c, name, rest);
  }

  /** A special command typed as "/name args" goes to its handler, never to the worker. */
  lemma SpecialCommandHandled(message: Message, ws: string, c: char, name: string, rest: string)
    requires message.replyTo.None? && message.Body() == Some(ws + [c] + name + rest)
    requires CommandShape(ws, c, name, rest)
    requires name in Specials
    ensures RouteOf(message) == Special(name, BotUtils.Parsed(ws + [c] + name + rest, name))
  {
    CommandNameOf(ws, c, name, rest);
  }

  /** `main`: routes the message and, for a queued command, hands it to the worker. */
  method Dispatch(message: Message, worker: Worker.ComfyWorker) returns (route: Route)
    requires worker.Valid()
    modifies worker
    ensures worker.Valid()
    ensures route == RouteOf(message)
    ensures route.Queued? ==>
              worker.data == old(worker.data) + [route.job] && worker.submitted == old(worker.submitted) + [route.job]
    ensures worker.sent == old(worker.sent) && worker.taken == old(worker.taken)
    ensures !route.Queued? ==> worker.data == old(worker.data) && worker.submitted == old(worker.submitted)
  {
    route := RouteOf(message);
    if route.Queued? {
      worker.Execute(route.job.commandName, route.job.message, route.job.parsedData);
    }
  }
}
