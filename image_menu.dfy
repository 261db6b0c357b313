/**
 * The photo menu and the multi-turn form: a photo opens a chain of bot
 * messages, a menu choice starts a form, and each reply to the form's
 * question fills the awaited slot until the job can be queued.
 */
module ImageMenu {
  import opened Wrappers
  import opened PyStr
  import opened PyInt
  import opened Dict
  import opened Telegram
  import opened FormCodec
  import Worker

  // ---------------------------------------------------------------- text helpers

  /** `concat_strings(*strs)`: the strings on separate lines. */
  function ConcatStrings(strs: seq<string>): string {
    Join(strs, "\n")
  }

  /** The padded title line: `pad*half title pad*half`, with `half = (length - len(title) - 2) // 2`. */
  function TitleLine(title: string, length: int, pad: string): string {
    var half := (length - |title| - 2) / 2;
    Repeat(pad, half) + " " + title + " " + Repeat(pad, half)
  }

  /** `title_pad`: opens a code block and writes the padded title. */
  function TitlePad(title: string, length: int, pad: string): string {
    "\n```\n" + TitleLine(title, length, pad)
  }

  /** `sep`: a rule of `length` pad characters, then the block is closed. */
  function Sep(length: int, pad: string): string {
    Repeat(pad, length) + "\n```"
  }

  /**
   * With a one-character pad and room for the title, the padded line is
   * `length` characters long, or one less when the padding is odd.
   */
  lemma TitleLineLength(title: string, length: int, pad: string)
    requires |pad| == 1 && length - |title| - 2 >= 0
    ensures |TitleLine(title, length, pad)| == length || |TitleLine(title, length, pad)| == length - 1
  {
  }

  /** `title_pad()` with its defaults puts ten dashes on each side of `SETTINGS`. */
  lemma DefaultTitle()
    ensures TitlePad("SETTINGS", 30, "-") == "\n```\n" + Repeat("-", 10) + " SETTINGS " + Repeat("-", 10)
    ensures |Repeat("-", 10)| == 10 && |TitleLine("SETTINGS", 30, "-")| == 30
    ensures forall i :: 0 <= i < 10 ==> Repeat("-", 10)[i] == '-'
  {
    var d := Repeat("-", 10);
    TitleLineDefault();
    assert |d| == 10;
    RepeatChars("-", 10);
  }

  /** The default title line: ten dashes, " SETTINGS ", ten dashes. */
  lemma TitleLineDefault()
    ensures TitleLine("SETTINGS", 30, "-") == Repeat("-", 10) + " SETTINGS " + Repeat("-", 10)
  {
    assert |"SETTINGS"| == 8 && (30 - 8 - 2) / 2 == 10;
  }

  lemma {:induction false} RepeatChars(p: string, n: int)
    requires |p| == 1
    ensures forall i :: 0 <= i < |Repeat(p, n)| ==> Repeat(p, n)[i] == p[0]
    decreases if n <= 0 then 0 else n
  {
    if n > 0 {
      RepeatChars(p, n - 1);
    }
  }

  // ---------------------------------------------------------------- the texts of the form

  const InputChainPrefix: string := "INPUT CHAIN"

  /** `title_pad()` and `sep()` with their defaults. */
  function Title(): string { TitlePad("SETTINGS", 30, "-") }
  function Rule(): string { Sep(30, "-") }

  /** The question at the end of a form message: `` kind `name`? ``. */
  function AskLine(kind: string, name: string): string {
    kind + " `" + name + "`?"
  }

  /** The message that shows the form so far and asks for the slot `name`: it opens with "INPUT CHAIN" and ends with the question. */
  function AskText(formText: string, kind: string, name: string): (r: string)
    ensures StartsWith(r, InputChainPrefix + "\n")
    ensures EndsWith(r, "\n" + AskLine(kind, name))
  {
    var f := Replace(formText, "`", "");
    Join5Ends(InputChainPrefix, Title(), f, Rule(), AskLine(kind, name));
    ConcatStrings([InputChainPrefix, Title(), f, Rule(), AskLine(kind, name)])
  }

  /** The message sent when the form is complete: it opens with "Form completed!" and ends with "Executing...". */
  function DoneText(summaryText: string): (r: string)
    ensures StartsWith(r, "Form completed!" + "\n")
    ensures EndsWith(r, "\n" + "Executing...")
  {
    var f := Replace(summaryText, "`", "");
    Join5Ends("Form completed!", Title(), f, Rule(), "Executing...");
    ConcatStrings(["Form completed!", Title(), f, Rule(), "Executing..."])
  }

  /**
   * The text of a form message as it comes back in `reply_to_message.text`.
   * The bot sends it as Markdown, and the text it gets back has the markup
   * taken out; the only markup these messages hold is backquotes.
   */
  function Received(sent: string): (r: string)
    ensures '`' !in r
  {
    RemoveCharGone(sent, '`');
    Replace(sent, "`", "")
  }

  lemma ReceivedLine(a: string, rest: string)
    ensures Received(a + "\n" + rest) == Received(a) + "\n" + Received(rest)
  {
    RemoveCharAppend(a + "\n", rest, '`');
    RemoveCharAppend(a, "\n", '`');
    ReceivedPlain("\n");
  }

  lemma ReceivedPlain(s: string)
    requires '`' !in s
    ensures Received(s) == s
  {
    RemoveCharAbsent(s, '`');
  }

  /** The padded title has no newline, no ':' , no '?' and no backquote. */
  lemma TitleLinePlain()
    ensures var d := TitleLine("SETTINGS", 30, "-");
      '\n' !in d && ':' !in d && '?' !in d && '`' !in d
  {
    var r := Repeat("-", 10);
    RepeatAvoids("-", 10, '\n');
    RepeatAvoids("-", 10, ':');
    RepeatAvoids("-", 10, '?');
    RepeatAvoids("-", 10, '`');
    TitleLineDefault();
  }

  lemma RuleLinePlain()
    ensures var d := Repeat("-", 30);
      '\n' !in d && ':' !in d && '?' !in d && '`' !in d
  {
    RepeatAvoids("-", 30, '\n');
    RepeatAvoids("-", 30, ':');
    RepeatAvoids("-", 30, '?');
    RepeatAvoids("-", 30, '`');
  }

  lemma Join5(a: string, b: string, c: string, d: string, e: string)
    ensures Join([a, b, c, d, e], "\n") == a + "\n" + (b + "\n" + (c + "\n" + (d + "\n" + e)))
  {
    assert [a, b, c, d, e] == [a] + [b, c, d, e];
    assert [b, c, d, e] == [b] + [c, d, e];
    assert [c, d, e] == [c] + [d, e];
    assert [d, e] == [d] + [e];
    JoinCons(a, [b, c, d, e], "\n");
    JoinCons(b, [c, d, e], "\n");
    JoinCons(c, [d, e], "\n");
    JoinCons(d, [e], "\n");
  }

  /** Five lines joined start with the first and a newline, and end with a newline and the last. */
  lemma Join5Ends(a: string, b: string, c: string, d: string, e: string)
    ensures StartsWith(Join([a, b, c, d, e], "\n"), a + "\n")
    ensures EndsWith(Join([a, b, c, d, e], "\n"), "\n" + e)
  {
    Join5(a, b, c, d, e);
    Ends(a + "\n", b + "\n" + (c + "\n" + (d + "\n" + e)));
    ConcatAssoc(a + "\n", b + "\n" + (c + "\n" + d), "\n" + e);
    Ends(a + "\n" + (b + "\n" + (c + "\n" + d)), "\n" + e);
  }

  /** A kind of letters and a name of the name class. */
  predicate GoodSlot(kind: string, name: string) {
    |kind| > 0 && (forall i :: 0 <= i < |kind| ==> IsLetter(kind[i]))
    && |name| > 0 && (forall i :: 0 <= i < |name| ==> IsNameChar(name[i]))
  }

  lemma ReceivedTitle()
    ensures Received(Title()) == "\n\n" + TitleLine("SETTINGS", 30, "-")
  {
    var d := TitleLine("SETTINGS", 30, "-");
    assert Received(d) == d by {
      TitleLinePlain();
      ReceivedPlain(d);
    }
    RemoveCharAppend("\n```\n", d, '`');
    ReceivedOpen();
  }

  /** The opening fence between two newlines. */
  lemma ReceivedOpen()
    ensures Received("\n```\n") == "\n\n"
  {
    ReceivedCons('\n', "```\n");
    ReceivedClose();
  }

  lemma ReceivedRule()
    ensures Received(Rule()) == Repeat("-", 30) + "\n"
  {
    RuleLinePlain();
    ReceivedFence(Repeat("-", 30));
  }

  /** A line without backquotes, then the closing fence. */
  lemma ReceivedFence(r: string)
    requires '`' !in r
    ensures Received(r + "\n```") == r + "\n"
  {
    ReceivedPlain(r);
    RemoveCharAppend(r, "\n```", '`');
    assert Received("\n```") == "\n" by {
      ReceivedCons('\n', "```");
      ReceivedCons('`', "``");
      ReceivedCons('`', "`");
      ReceivedCons('`', "");
    }
  }

  lemma ReceivedCons(c: char, s: string)
    ensures Received([c] + s) == (if c == '`' then [] else [c]) + Received(s)
  {
    assert ([c] + s)[1..] == s;
  }

  /** The closing fence and the newline after it. */
  lemma ReceivedClose()
    ensures Received("```\n") == "\n"
  {
    ReceivedCons('`', "``\n");
    ReceivedCons('`', "`\n");
    ReceivedCons('`', "\n");
    ReceivedCons('\n', "");
  }

  lemma ReceivedAskLine(kind: string, name: string)
    requires GoodSlot(kind, name)
    ensures Received(AskLine(kind, name)) == kind + " " + name + "?"
  {
    var tail := name + "`?";
    assert Received(tail) == name + "?" by {
      assert '`' !in name;
      ReceivedPlain(name);
      RemoveCharAppend(name, "`?", '`');
      ReceivedCons('`', "?");
      ReceivedCons('?', "");
    }
    assert Received(" `" + tail) == " " + (name + "?") by {
      RemoveCharAppend(" `", tail, '`');
      ReceivedCons(' ', "`");
      ReceivedCons('`', "");
    }
    assert Received(kind + (" `" + tail)) == kind + (" " + (name + "?")) by {
      assert '`' !in kind;
      ReceivedPlain(kind);
      RemoveCharAppend(kind, " `" + tail, '`');
    }
    AskLineParts(kind, name);
  }

  /** The question line and its received form, regrouped from the right. */
  lemma AskLineParts(kind: string, name: string)
    ensures AskLine(kind, name) == kind + (" `" + (name + "`?"))
    ensures kind + " " + name + "?" == kind + (" " + (name + "?"))
  {
  }

  /**
   * The lines of a received form message: the first line, two empty lines,
   * the title, the form, the rule, an empty line and the last line.
   */
  function Shape(first: string, title: string, body: string, rule: string, last: string): string {
    first + "\n" + ("\n" + ("\n" + (title + "\n" + (body + "\n" + (rule + "\n" + ("\n" + last))))))
  }

  /** The form message as it comes back: the fences and the backquotes around the name are gone. */
  lemma ReceivedAskText(formText: string, kind: string, name: string)
    requires '`' !in formText && GoodSlot(kind, name)
    ensures Received(AskText(formText, kind, name))
      == Shape(InputChainPrefix, TitleLine("SETTINGS", 30, "-"), formText, Repeat("-", 30), kind + " " + name + "?")
  {
    var d := TitleLine("SETTINGS", 30, "-");
    var r := Repeat("-", 30);
    var q' := kind + " " + name + "?";
    var f := Replace(formText, "`", "");
    var q := AskLine(kind, name);
    var t4 := Rule() + "\n" + q;
    var t3 := f + "\n" + t4;
    var t2 := Title() + "\n" + t3;
    assert AskText(formText, kind, name) == InputChainPrefix + "\n" + t2 by {
      Join5(InputChainPrefix, Title(), f, Rule(), q);
    }
    assert Received(t4) == r + "\n" + ("\n" + q') by {
      ReceivedLine(Rule(), q);
      ReceivedRule();
      ReceivedAskLine(kind, name);
    }
    assert Received(t3) == formText + "\n" + Received(t4) by {
      ReceivedLine(f, t4);
      ReceivedPlain(formText);
      ReceivedPlain(f);
    }
    assert Received(t2) == "\n" + ("\n" + (d + "\n" + Received(t3))) by {
      ReceivedLine(Title(), t3);
      ReceivedTitle();
    }
    assert Received(InputChainPrefix + "\n" + t2) == InputChainPrefix + "\n" + Received(t2) by {
      ReceivedLine(InputChainPrefix, t2);
      ReceivedPlain(InputChainPrefix);
    }
  }

  /** Only the form's lines hold fields when the other lines have no ':'. */
  lemma ShapeFields(first: string, title: string, fields: seq<Field>, rule: string, last: string)
    requires fields != [] && forall i :: 0 <= i < |fields| ==> WellFormed(fields[i])
    requires ':' !in first && '\n' !in first && ':' !in title && '\n' !in title
    requires ':' !in rule && '\n' !in rule && ':' !in last && '\n' !in last
    ensures FindFields(Shape(first, title, Render(fields), rule, last)) == fields
  {
    var x3 := rule + "\n" + ("\n" + last);
    var x2 := Render(fields) + "\n" + x3;
    var x1 := "\n" + ("\n" + (title + "\n" + x2));
    assert FindFields(x3) == [] by {
      SkipLineWithoutField(rule, "\n" + last);
      NewlineStartsNoField(last);
      NoFieldInLastLine(last);
    }
    assert FindFields(x2) == fields by {
      FindFieldsRenderThen(fields, x3);
    }
    assert FindFields(x1) == FindFields(x2) by {
      NewlineStartsNoField("\n" + (title + "\n" + x2));
      NewlineStartsNoField(title + "\n" + x2);
      SkipLineWithoutField(title, x2);
    }
    SkipLineWithoutField(first, x1);
  }

  /** The last line of the shape is its last line. */
  lemma ShapeLastLine(first: string, title: string, body: string, rule: string, last: string)
    requires '\n' !in last
    ensures LastLine(Shape(first, title, body, rule, last)) == last
  {
    var head := first + "\n" + ("\n" + ("\n" + (title + "\n" + (body + "\n" + (rule + "\n")))));
    assert Shape(first, title, body, rule, last) == head + "\n" + last;
    LastLineOf(head, last);
  }

  // ---------------------------------------------------------------- the form message read back

  /** Lines of well-formed fields without backquotes. */
  predicate Sendable(fields: seq<Field>) {
    forall i :: 0 <= i < |fields| ==> WellFormed(fields[i]) && '`' !in Line(fields[i])
  }

  lemma QuestionPlain(kind: string, name: string)
    requires GoodSlot(kind, name)
    ensures var q := kind + " " + name + "?";
      '\n' !in q && ':' !in q
  {
  }

  /** The fields of a form message come back as the fields sent. */
  lemma AskTextFields(fields: seq<Field>, kind: string, name: string)
    requires fields != [] && Sendable(fields) && GoodSlot(kind, name)
    ensures FindFields(Received(AskText(Render(fields), kind, name))) == fields
  {
    RenderAvoids(fields, '`');
    ReceivedAskText(Render(fields), kind, name);
    TitleLinePlain();
    RuleLinePlain();
    QuestionPlain(kind, name);
    assert ':' !in InputChainPrefix;
    ShapeFields(InputChainPrefix, TitleLine("SETTINGS", 30, "-"), fields, Repeat("-", 30), kind + " " + name + "?");
  }

  /** The form message asks for `name`: its last line is the question. */
  lemma AskTextAwaits(formText: string, kind: string, name: string)
    requires '`' !in formText && GoodSlot(kind, name)
    ensures AwaitedName(Received(AskText(formText, kind, name))) == Some(name)
  {
    ReceivedAskText(formText, kind, name);
    QuestionPlain(kind, name);
    ShapeLastLine(InputChainPrefix, TitleLine("SETTINGS", 30, "-"), formText, Repeat("-", 30), kind + " " + name + "?");
    PromptLineAsks(kind, name);
  }

  /**
   * Round trip of the protocol: a form message, once it comes back as the
   * replied-to text, starts with `INPUT CHAIN`, decodes to the form that
   * was sent, and awaits the slot it asked for.
   */
  lemma AskTextReadsBack(fields: seq<Field>, kind: string, name: string)
    requires fields != [] && Sendable(fields) && GoodSlot(kind, name)
    ensures var text := Received(AskText(Render(fields), kind, name));
      StartsWith(text, InputChainPrefix)
      && Deserialized(text).form == Deserialized(Render(fields)).form
      && Deserialized(text).types == Deserialized(Render(fields)).types
      && AwaitedName(text) == Some(name)
  {
    var text := Received(AskText(Render(fields), kind, name));
    RenderAvoids(fields, '`');
    AskTextFields(fields, kind, name);
    FindFieldsRender(fields);
    AskTextAwaits(Render(fields), kind, name);
    ReceivedAskText(Render(fields), kind, name);
    assert text[..|InputChainPrefix|] == InputChainPrefix;
  }
  // ---------------------------------------------------------------- where the awaited slot is read

  /** An answer that ends in a question of two words: `a b?`. */
  function QuestionAnswer(): Field {
    Field("String", "s", "a b?")
  }

  lemma RenderAround(pre: seq<Field>, f: Field, post: seq<Field>)
    requires pre != [] && post != []
    ensures Render(pre + [f] + post) == Render(pre) + "\n" + (Line(f) + ("\n" + Render(post)))
  {
    assert pre + [f] + post == pre + ([f] + post);
    RenderAppend(pre, [f] + post);
    RenderAppend([f], post);
    assert Render([f]) == Line(f);
  }

  /** The same split, with text after the form. */
  lemma RenderAroundThen(pre: seq<Field>, f: Field, post: seq<Field>, x: string)
    requires pre != [] && post != []
    ensures Render(pre + [f] + post) + "\n" + x == Render(pre) + "\n" + (Line(f) + ("\n" + Render(post) + "\n" + x))
  {
    RenderAround(pre, f, post);
    ConcatAssoc(Render(pre) + "\n", Line(f) + ("\n" + Render(post)), "\n" + x);
  }

  /** The prompt search passes over the first four lines of a form message. */
  lemma ShapePromptSkipsHead(first: string, title: string, body: string, rule: string, last: string)
    requires '?' !in first && '\n' !in first && '?' !in title && '\n' !in title
    ensures FindPrompt(Shape(first, title, body, rule, last))
         == FindPrompt(body + "\n" + (rule + "\n" + ("\n" + last)))
  {
    var x := body + "\n" + (rule + "\n" + ("\n" + last));
    SkipLineWithoutPrompt(first, "\n" + ("\n" + (title + "\n" + x)));
    NoPromptAtNonLetter("\n" + ("\n" + (title + "\n" + x)));
    NoPromptAtNonLetter("\n" + (title + "\n" + x));
    SkipLineWithoutPrompt(title, x);
  }

  /** Whatever follows the form, the search stops at the answer `a b?`. */
  lemma PromptInAnswer(pre: seq<Field>, post: seq<Field>, x: string)
    requires pre != [] && post != []
    requires Sendable(pre + [QuestionAnswer()] + post)
    requires forall i :: 0 <= i < |pre| ==> '?' !in Line(pre[i])
    ensures FindPrompt(Render(pre + [QuestionAnswer()] + post) + "\n" + x) == Some("b")
  {
    var fields := pre + [QuestionAnswer()] + post;
    var h := QuestionAnswer();
    var w := "\n" + Render(post) + "\n" + x;
    forall i | 0 <= i < |pre|
      ensures '?' !in Line(pre[i]) && '\n' !in Line(pre[i])
    {
      assert pre[i] == fields[i];
      WellFormedOneLine(pre[i]);
    }
    AnswerLineAsks(w);
    RenderAroundThen(pre, h, post, x);
    SkipRenderWithoutPrompt(pre, Line(h) + w);
  }

  /** The search over the line holding the answer `a b?` stops there, whatever follows. */
  lemma AnswerLineAsks(w: string)
    ensures FindPrompt(Line(QuestionAnswer()) + w) == Some("b")
  {
    var h := QuestionAnswer();
    SkipFieldHead(h, w);
    PromptLineAsks("a", "b");
    assert "a" + " " + "b" + "?" == "a b?";
    FindPromptStable("a b?", w);
  }

  /**
   * The search of `deserialize_input_chain_message` runs over the whole
   * message, so an answer `a b?` already in the form is taken for the
   * question: the awaited slot becomes `b`, while the question on the last
   * line asks for `name`.
   */
  lemma PromptHijackedAsWritten(pre: seq<Field>, post: seq<Field>, kind: string, name: string)
    requires pre != [] && post != []
    requires Sendable(pre + [QuestionAnswer()] + post) && GoodSlot(kind, name)
    requires forall i :: 0 <= i < |pre| ==> '?' !in Line(pre[i])
    ensures var text := Received(AskText(Render(pre + [QuestionAnswer()] + post), kind, name));
      Deserialized(text).prompt == Some("b") && AwaitedName(text) == Some(name)
  {
    var f := Render(pre + [QuestionAnswer()] + post);
    var d := TitleLine("SETTINGS", 30, "-");
    var r := Repeat("-", 30);
    var q := kind + " " + name + "?";
    assert '`' !in f by {
      RenderAvoids(pre + [QuestionAnswer()] + post, '`');
    }
    AskTextAwaits(f, kind, name);
    ReceivedAskText(f, kind, name);
    TitleLinePlain();
    ShapePromptSkipsHead(InputChainPrefix, d, f, r, q);
    PromptInAnswer(pre, post, r + "\n" + ("\n" + q));
  }
}
