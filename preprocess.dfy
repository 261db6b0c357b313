/**
 * Turning exported workflow scripts into callable commands: the text
 * rewrite `preprocess` applies to each script, the memoised table of input
 * nodes, and the display-name split of the command configuration.
 */
module Preprocess {
  import opened Wrappers
  import opened PyStr
  import opened Dict
  import opened FormCodec

  // ---------------------------------------------------------------- the hook substitution

  const MappingsOpen: string := "NODE_CLASS_MAPPINGS["

  /** The text a hooked node construction becomes: `hooks["<hook>"]`. */
  function HookRef(hook: string): string {
    "hooks[\"" + hook + "\"]"
  }

  /** `\s*\]\(\)` at the start of `u`: the length of the match. */
  function MatchClose(u: string): (r: Option<nat>)
    ensures r.Some? ==> 0 < r.value <= |u|
  {
    var b := Span(u, IsSpace);
    if StartsWith(u[b..], "]()") then Some(b + 3) else None
  }

  /** `\s*"<hook>"\s*\]\(\)` at the start of `t`. */
  function MatchQuoted(t: string, hook: string): (r: Option<nat>)
    ensures r.Some? ==> 0 < r.value <= |t|
  {
    var a := Span(t, IsSpace);
    var q := "\"" + hook + "\"";
    if !StartsWith(t[a..], q) then None
    else match MatchClose(t[a + |q|..])
      case None => None
      case Some(n) => Some(a + |q| + n)
  }

  /**
   * `NODE_CLASS_MAPPINGS\[\s*"<hook>"\s*\]\(\)` tried at the start of `s`:
   * the length of the match. `\s` is the same class as `str.isspace`.
   */
  function MatchHook(s: string, hook: string): (r: Option<nat>)
    ensures r.Some? ==> 0 < r.value <= |s|
  {
    if !StartsWith(s, MappingsOpen) then None
    else match MatchQuoted(s[|MappingsOpen|..], hook)
      case None => None
      case Some(n) => Some(|MappingsOpen| + n)
  }

  /**
   * `re.sub` of that pattern by `hooks["<hook>"]`: left to right,
   * non-overlapping. A match at the start becomes the hook reference, and
   * text without `NODE_CLASS_MAPPINGS[` is not changed.
   */
  function SubHook(s: string, hook: string): (r: string)
    ensures MatchHook(s, hook).Some? ==> StartsWith(r, HookRef(hook))
    ensures !Contains(s, MappingsOpen) ==> r == s
    decreases |s|
  {
    if s == [] then []
    else match MatchHook(s, hook)
      case Some(n) =>
        assert OccursAt(s, MappingsOpen, 0);
        HookRef(hook) + SubHook(s[n..], hook)
      case None =>
        if !Contains(s, MappingsOpen) then
          AbsentFromTail(s, MappingsOpen);
          [s[0]] + SubHook(s[1..], hook)
        else [s[0]] + SubHook(s[1..], hook)
  }

  /** The construction of node `hook`, with whitespace `w1` and `w2` inside the brackets. */
  function HookCall(hook: string, w1: string, w2: string): string {
    MappingsOpen + w1 + "\"" + hook + "\"" + w2 + "]()"
  }

  predicate AllSpace(w: string) {
    forall i :: 0 <= i < |w| ==> IsSpace(w[i])
  }

  lemma MatchCloseOf(w2: string, rest: string)
    requires AllSpace(w2)
    ensures MatchClose(w2 + ("]()" + rest)) == Some(|w2| + 3)
  {
    var u := w2 + ("]()" + rest);
    assert Span(u, IsSpace) == |w2| by {
      SpanOf(w2, "]()" + rest, IsSpace);
    }
    assert u[|w2|..] == "]()" + rest;
    assert ("]()" + rest)[..3] == "]()";
  }

  lemma MatchQuotedOf(hook: string, w1: string, w2: string, rest: string)
    requires AllSpace(w1) && AllSpace(w2)
    ensures MatchQuoted(w1 + ("\"" + hook + "\"" + (w2 + ("]()" + rest))), hook)
      == Some(|w1| + |hook| + 2 + |w2| + 3)
  {
    var q := "\"" + hook + "\"";
    var u := w2 + ("]()" + rest);
    var t := w1 + (q + u);
    assert Span(t, IsSpace) == |w1| by {
      SpanOf(w1, q + u, IsSpace);
    }
    assert t[|w1|..] == q + u;
    assert (q + u)[..|q|] == q;
    assert t[|w1| + |q|..] == u;
    MatchCloseOf(w2, rest);
  }

  /** The text of a construction followed by `rest`, regrouped from the right. */
  lemma HookCallParts(hook: string, w1: string, w2: string, rest: string)
    ensures HookCall(hook, w1, w2) + rest
      == MappingsOpen + (w1 + ("\"" + hook + "\"" + (w2 + ("]()" + rest))))
  {
  }

  lemma MatchHookCall(hook: string, w1: string, w2: string, rest: string)
    requires AllSpace(w1) && AllSpace(w2)
    ensures MatchHook(HookCall(hook, w1, w2) + rest, hook) == Some(|HookCall(hook, w1, w2)|)
  {
    var t := w1 + ("\"" + hook + "\"" + (w2 + ("]()" + rest)));
    HookCallParts(hook, w1, w2, rest);
    SplitAt(MappingsOpen, t);
    MatchQuotedOf(hook, w1, w2, rest);
  }

  /** Every construction of a listed node becomes a reference to its hook. */
  lemma HookCallReplaced(hook: string, w1: string, w2: string, rest: string)
    requires AllSpace(w1) && AllSpace(w2)
    ensures SubHook(HookCall(hook, w1, w2) + rest, hook) == HookRef(hook) + SubHook(rest, hook)
  {
    var c := HookCall(hook, w1, w2);
    MatchHookCall(hook, w1, w2, rest);
    assert (c + rest)[|c|..] == rest;
  }

  /** Two different hook names never both open a quoted prefix of the same text. */
  lemma QuotedDiffer(hook: string, other: string, u: string)
    requires hook != other && '"' !in hook && '"' !in other
    ensures !StartsWith("\"" + other + "\"" + u, "\"" + hook + "\"")
  {
    var q := "\"" + hook + "\"";
    var v := "\"" + other + "\"" + u;
    // a position below |q| where q and v differ
    var pos: nat;
    if |hook| < |other| {
      pos := |hook| + 1;
      assert q[pos] == '"' && v[pos] == other[|hook|];
    } else if |hook| > |other| {
      pos := |other| + 1;
      assert v[pos] == '"' && q[pos] == hook[|other|];
    } else {
      var k :| 0 <= k < |hook| && hook[k] != other[k];
      pos := k + 1;
      assert q[pos] == hook[k] && v[pos] == other[k];
    }
    assert pos < |q| && (pos >= |v| || q[pos] != v[pos]);
    if |q| <= |v| {
      assert v[..|q|][pos] != q[pos];
    }
  }

  /** The construction of another node is left as it is. */
  lemma OtherHookUntouched(hook: string, other: string, w1: string, w2: string, rest: string)
    requires AllSpace(w1) && AllSpace(w2)
    requires hook != other && '"' !in hook && '"' !in other
    ensures MatchHook(HookCall(other, w1, w2) + rest, hook) == None
  {
    var u := w2 + ("]()" + rest);
    var v := "\"" + other + "\"" + u;
    var t := w1 + v;
    assert HookCall(other, w1, w2) + rest == MappingsOpen + t;
    assert (MappingsOpen + t)[|MappingsOpen|..] == t;
    assert Span(t, IsSpace) == |w1| by {
      SpanOf(w1, v, IsSpace);
    }
    assert t[|w1|..] == v;
    QuotedDiffer(hook, other, u);
  }

  // ---------------------------------------------------------------- rewriting one workflow

  const MainOld: string := "def main():"
  const MainNew: string := "def main(NODE_CLASS_MAPPINGS, hooks):"
  const ImportCustomNodes: string := "    import_custom_nodes()"

  /** The hook loop: substitute each listed hook in turn; text without `NODE_CLASS_MAPPINGS[` goes through unchanged. */
  function SubHooks(code: string, hooks: seq<string>): (r: string)
    ensures !Contains(code, MappingsOpen) ==> r == code
    decreases |hooks|
  {
    if hooks == [] then code else SubHooks(SubHook(code, hooks[0]), hooks[1..])
  }

  /**
   * The rewrite of one workflow script: cut from the first `def find_path`
   * to the first `def main`, give `main` the node table and the hooks as
   * parameters, drop the `import_custom_nodes()` call and substitute the
   * hooks. `str.index` raises when a marker is missing.
   */
  function RewriteWorkflow(code: string, hooks: seq<string>): (r: Result<string>)
    ensures r.Err? <==> !Contains(code, "def find_path") || !Contains(code, "def main")
  {
    match (Find(code, "def find_path"), Find(code, "def main"))
    case (Some(start), Some(end)) =>
      var cut := code[..start] + code[end..];
      var renamed := Replace(Replace(cut, MainOld, MainNew), ImportCustomNodes, "");
      Ok(SubHooks(renamed, hooks))
    case _ => Err("substring not found")
  }

  /**
   * Apart from the cut between the first `def find_path` and the first
   * `def main`, the rewrite changes nothing in a script that has no `main()`
   * to rename, no custom-node import and no node construction.
   */
  lemma RewriteOnlyCuts(code: string, hooks: seq<string>, start: nat, end: nat)
    requires FirstAt(code, "def find_path", start) && FirstAt(code, "def main", end)
    requires var cut := code[..start] + code[end..];
      !Contains(cut, MainOld) && !Contains(cut, ImportCustomNodes) && !Contains(cut, MappingsOpen)
    ensures RewriteWorkflow(code, hooks) == Ok(code[..start] + code[end..])
  {
    var cut := code[..start] + code[end..];
    FirstAtUnique(code, "def find_path", start);
    FirstAtUnique(code, "def main", end);
    ReplaceAbsent(cut, MainOld, MainNew);
    ReplaceAbsent(cut, ImportCustomNodes, "");
  }

  /** `str.index` finds the leftmost occurrence, whichever position the caller names. */
  lemma FirstAtUnique(s: string, p: string, i: nat)
    requires FirstAt(s, p, i)
    ensures Find(s, p) == Some(i)
  {
    assert Contains(s, p);
  }

  // ---------------------------------------------------------------- the loop over the workflow directory

  /** A file of the workflow directory, as listed. */
  datatype SourceFile = SourceFile(name: string, text: string)

  /** What `preprocess` produces: the command names and the rewritten files, in listing order. */
  datatype Preprocessed = Preprocessed(commands: seq<string>, written: seq<SourceFile>)

  /** `Path.suffix == '.py'`: a name longer than ".py" ending in it. */
  predicate IsPython(name: string) {
    |name| > 3 && name[|name| - 3..] == ".py"
  }

  /** Hidden files (such as `.ipynb_checkpoints`) and non-Python files are skipped. */
  predicate IsWorkflow(file: SourceFile) {
    !StartsWith(file.name, ".") && IsPython(file.name)
  }

  function Stem(name: string): string
    requires IsPython(name)
  {
    name[..|name| - 3]
  }

  /** The loop over the directory listing, from `acc`; the first failing rewrite stops it. */
  function PreprocessFrom(acc: Preprocessed, files: seq<SourceFile>, hooks: seq<string>): (r: Result<Preprocessed>)
    ensures r.Ok? ==> acc.commands <= r.value.commands && acc.written <= r.value.written
    ensures r.Ok? ==> |r.value.commands| - |acc.commands| == |r.value.written| - |acc.written| <= |files|
    ensures r.Err? ==> r.error == "substring not found"
    decreases |files|
  {
    if files == [] then Ok(acc)
    else if !IsWorkflow(files[0]) then PreprocessFrom(acc, files[1..], hooks)
    else match RewriteWorkflow(files[0].text, hooks)
      case Err(e) => Err(e)
      case Ok(code) =>
        PreprocessFrom(Preprocessed(acc.commands + [Stem(files[0].name)],
                                    acc.written + [SourceFile("appio_" + files[0].name, code)]),
                       files[1..], hooks)
  }

  /** `preprocess(hooks)` over a directory listing. */
  method PreprocessWorkflows(files: seq<SourceFile>, hooks: seq<string>) returns (r: Result<Preprocessed>)
    ensures r == PreprocessFrom(Preprocessed([], []), files, hooks)
  {
    var commands: seq<string> := [];
    var written: seq<SourceFile> := [];
    ghost var final := PreprocessFrom(Preprocessed([], []), files, hooks);
    for i := 0 to |files|
      invariant PreprocessFrom(Preprocessed(commands, written), files[i..], hooks) == final
    {
      assert files[i..][1..] == files[i + 1..];
      var file := files[i];
      if IsWorkflow(file) {
        var code := RewriteWorkflow(file.text, hooks);
        if code.Err? {
          return Err(code.error);
        }
        written := written + [SourceFile("appio_" + file.name, code.value)];
        commands := commands + [Stem(file.name)];
      }
    }
    assert files[|files|..] == [];
    return Ok(Preprocessed(commands, written));
  }

  /** The rewrites of the workflows among `files` all succeed. */
  predicate AllRewrite(files: seq<SourceFile>, hooks: seq<string>) {
    forall i :: 0 <= i < |files| && IsWorkflow(files[i]) ==> RewriteWorkflow(files[i].text, hooks).Ok?
  }

  /** The command names of `files`: the stems of the workflows, in listing order. */
  function CommandsOf(files: seq<SourceFile>): seq<string>
    decreases |files|
  {
    if files == [] then []
    else if IsWorkflow(files[0]) then [Stem(files[0].name)] + CommandsOf(files[1..])
    else CommandsOf(files[1..])
  }

  /** The files written for `files`: `appio_<name>` holding each workflow's rewrite, in listing order. */
  function WrittenOf(files: seq<SourceFile>, hooks: seq<string>): seq<SourceFile>
    requires AllRewrite(files, hooks)
    decreases |files|
  {
    if files == [] then []
    else if IsWorkflow(files[0]) then
      [SourceFile("appio_" + files[0].name, RewriteWorkflow(files[0].text, hooks).value)] + WrittenOf(files[1..], hooks)
    else WrittenOf(files[1..], hooks)
  }

  /**
   * When every workflow rewrites, the loop adds the workflows' stems to the
   * commands and their rewrites to the written files, in listing order.
   */
  lemma {:induction false} PreprocessOutput(acc: Preprocessed, files: seq<SourceFile>, hooks: seq<string>)
    requires AllRewrite(files, hooks)
    ensures PreprocessFrom(acc, files, hooks)
      == Ok(Preprocessed(acc.commands + CommandsOf(files), acc.written + WrittenOf(files, hooks)))
    decreases |files|
  {
    if files == [] {
      assert acc.commands + [] == acc.commands && acc.written + [] == acc.written;
    } else {
      assert AllRewrite(files[1..], hooks) by {
        assert forall i :: 0 <= i < |files[1..]| ==> files[1..][i] == files[i + 1];
      }
      if !IsWorkflow(files[0]) {
        PreprocessOutput(acc, files[1..], hooks);
      } else {
        var f := files[0];
        var acc' := Preprocessed(acc.commands + [Stem(f.name)],
                                 acc.written + [SourceFile("appio_" + f.name, RewriteWorkflow(f.text, hooks).value)]);
        PreprocessOutput(acc', files[1..], hooks);
        ConcatAssoc(acc.commands, [Stem(f.name)], CommandsOf(files[1..]));
        ConcatAssoc(acc.written, [SourceFile("appio_" + f.name, RewriteWorkflow(f.text, hooks).value)], WrittenOf(files[1..], hooks));
      }
    }
  }

  /** Every workflow of a listing rewrites exactly when the first one does (if it is one) and the rest all do. */
  lemma AllRewriteCons(files: seq<SourceFile>, hooks: seq<string>)
    requires files != []
    ensures AllRewrite(files, hooks)
      <==> (IsWorkflow(files[0]) ==> RewriteWorkflow(files[0].text, hooks).Ok?) && AllRewrite(files[1..], hooks)
  {
    assert forall i :: 0 <= i < |files[1..]| ==> files[1..][i] == files[i + 1];
    if (IsWorkflow(files[0]) ==> RewriteWorkflow(files[0].text, hooks).Ok?) && AllRewrite(files[1..], hooks) {
      forall i | 0 <= i < |files| && IsWorkflow(files[i]) ensures RewriteWorkflow(files[i].text, hooks).Ok? {
        if i > 0 {
          assert files[i] == files[1..][i - 1];
        }
      }
    }
  }

  /** The loop fails exactly when the rewrite of some workflow fails. */
  lemma {:induction false} PreprocessErrIff(acc: Preprocessed, files: seq<SourceFile>, hooks: seq<string>)
    ensures PreprocessFrom(acc, files, hooks).Err? <==> !AllRewrite(files, hooks)
    decreases |files|
  {
    if files != [] {
      AllRewriteCons(files, hooks);
      if !IsWorkflow(files[0]) {
        PreprocessErrIff(acc, files[1..], hooks);
      } else if RewriteWorkflow(files[0].text, hooks).Ok? {
        var acc' := Preprocessed(acc.commands + [Stem(files[0].name)],
                                 acc.written + [SourceFile("appio_" + files[0].name, RewriteWorkflow(files[0].text, hooks).value)]);
        PreprocessErrIff(acc', files[1..], hooks);
      }
    }
  }

  // ---------------------------------------------------------------- analyze_argument_from_preprocessed

  /** A rewritten script of the output directory, by stem (`appio_<command>`, or `__init__`). */
  datatype ScriptFile = ScriptFile(stem: string, text: string)

  /** The key a rewritten script is filed under: its stem without any `appio_`. */
  function CommandKey(stem: string): string {
    RemoveAll(stem, "appio_")
  }

  /** `s.replace(pat, '')`. */
  function RemoveAll(s: string, pat: string): string
    requires |pat| > 0
  {
    Replace(s, pat, "")
  }

  /** The module-level `command_input_nodes`: computed once, then served from memory. */
  class ArgumentCache {
    var cached: Option<Dict<string, seq<InputNode>>>

    constructor()
      ensures cached == None
    {
      cached := None;
    }

    /** The loop that fills the table: scripts whose stem starts with `__` are skipped. */
    static function Table(acc: Dict<string, seq<InputNode>>, scripts: seq<ScriptFile>,
                          inputNodes: string -> seq<InputNode>): (t: Dict<string, seq<InputNode>>)
      requires acc.Valid()
      ensures t.Valid()
      decreases |scripts|
    {
      if scripts == [] then acc
      else if StartsWith(scripts[0].stem, "__") then Table(acc, scripts[1..], inputNodes)
      else Table(acc.Put(CommandKey(scripts[0].stem), inputNodes(scripts[0].text)), scripts[1..], inputNodes)
    }

    /**
     * `analyze_argument_from_preprocessed`. The extraction of the input
     * nodes from a script's syntax tree is the parameter `inputNodes`.
     */
    method Analyze(scripts: seq<ScriptFile>, inputNodes: string -> seq<InputNode>)
      returns (table: Dict<string, seq<InputNode>>)
      modifies this
      ensures old(cached).Some? ==> table == old(cached).value && cached == old(cached)
      ensures old(cached).None? ==> table == Table(Empty(), scripts, inputNodes)
      ensures cached == Some(table)
    {
      if cached.Some? {
        return cached.value;
      }
      var t: Dict<string, seq<InputNode>> := Empty();
      cached := Some(t);
      ghost var final := Table(t, scripts, inputNodes);
      for i := 0 to |scripts|
        invariant t.Valid() && cached == Some(t)
        invariant Table(t, scripts[i..], inputNodes) == final
      {
        assert scripts[i..][1..] == scripts[i + 1..];
        if !StartsWith(scripts[i].stem, "__") {
          t := t.Put(CommandKey(scripts[i].stem), inputNodes(scripts[i].text));
          cached := Some(t);
        }
      }
      assert scripts[|scripts|..] == [];
      return t;
    }
  }

  /**
   * Once the table is computed, a second call returns it unchanged whatever
   * the directory now holds, and does not recompute it.
   */
  method AnalyzeTwice(cache: ArgumentCache, first: seq<ScriptFile>, second: seq<ScriptFile>,
                      inputNodes: string -> seq<InputNode>)
    returns (a: Dict<string, seq<InputNode>>, b: Dict<string, seq<InputNode>>)
    modifies cache
    ensures a == b
    ensures old(cache.cached).None? ==> a == ArgumentCache.Table(Empty(), first, inputNodes)
  {
    a := cache.Analyze(first, inputNodes);
    b := cache.Analyze(second, inputNodes);
  }

  // ---------------------------------------------------------------- CommandConfig.get_display_names

  /** The commands of the configured display names: not a guide and not `get_user_info`. */
  function CommandNames(displayNames: Dict<string, string>, guides: seq<string>, keys: seq<string>): (r: Dict<string, string>)
    requires displayNames.Valid()
    ensures r.Valid()
    ensures forall i :: 0 <= i < |r.keys| ==> r.keys[i] in keys && r.keys[i] !in guides && r.keys[i] != "get_user_info"
    decreases |keys|
  {
    if keys == [] then Empty()
    else
      var rest := CommandNames(displayNames, guides, keys[..|keys| - 1]);
      var k := keys[|keys| - 1];
      if k in guides || k == "get_user_info" then rest
      else rest.Put(k, displayNames.Get(k, k))
  }

  /**
   * The second loop as written: its test reads `command`, the first loop's
   * variable, which still holds the last configured name, so it keeps every
   * name or none.
   */
  function GuideNamesAsWritten(displayNames: Dict<string, string>, guides: seq<string>, keys: seq<string>,
                               command: string): (r: Dict<string, string>)
    requires displayNames.Valid()
    ensures r.Valid()
    ensures command !in guides || command == "get_user_info" ==> r.keys == []
    decreases |keys|
  {
    if keys == [] then Empty()
    else
      var rest := GuideNamesAsWritten(displayNames, guides, keys[..|keys| - 1], command);
      var guide := keys[|keys| - 1];
      if command !in guides || command == "get_user_info" then rest
      else rest.Put(guide, displayNames.Get(guide, guide))
  }

  /**
   * With the guide `g` configured first and the command `c` last, the
   * as-written loop lists no guide at all; in the other order it lists the
   * command `c` among the guides.
   */
  lemma GuideNamesAsWrittenWrong()
    ensures var d := Empty<string, string>().Put("g", "Guide").Put("c", "Command");
      GuideNamesAsWritten(d, ["g"], d.keys, d.keys[|d.keys| - 1]).keys == []
    ensures var d := Empty<string, string>().Put("c", "Command").Put("g", "Guide");
      "c" in GuideNamesAsWritten(d, ["g"], d.keys, d.keys[|d.keys| - 1]).keys
  {
    GuideLastDropsAll();
    CommandLastListed();
  }

  /** With the guide configured first, the as-written loop lists nothing. */
  lemma GuideLastDropsAll()
    ensures var d := Empty<string, string>().Put("g", "Guide").Put("c", "Command");
      GuideNamesAsWritten(d, ["g"], d.keys, d.keys[|d.keys| - 1]).keys == []
  {
    var d1 := Empty<string, string>().Put("g", "Guide").Put("c", "Command");
    assert d1.keys == ["g", "c"];
    assert "c" !in ["g"];
  }

  /** With the command configured first, the as-written loop lists the command. */
  lemma CommandLastListed()
    ensures var d := Empty<string, string>().Put("c", "Command").Put("g", "Guide");
      "c" in GuideNamesAsWritten(d, ["g"], d.keys, d.keys[|d.keys| - 1]).keys
  {
    var d2 := Empty<string, string>().Put("c", "Command").Put("g", "Guide");
    assert d2.keys == ["c", "g"];
    assert d2.keys[..1] == ["c"] && ["c"][..0] == [];
    var r := GuideNamesAsWritten(d2, ["g"], ["c"], "g");
    assert r == Empty<string, string>().Put("c", d2.Get("c", "c"));
  }

  /** The second loop as intended: the configured names that are guides, except `get_user_info`. */
  function GuideNames(displayNames: Dict<string, string>, guides: seq<string>, keys: seq<string>): (r: Dict<string, string>)
    requires displayNames.Valid()
    ensures r.Valid()
    ensures forall i :: 0 <= i < |r.keys| ==> r.keys[i] in keys && r.keys[i] in guides && r.keys[i] != "get_user_info"
    decreases |keys|
  {
    if keys == [] then Empty()
    else
      var rest := GuideNames(displayNames, guides, keys[..|keys| - 1]);
      var guide := keys[|keys| - 1];
      if guide !in guides || guide == "get_user_info" then rest
      else rest.Put(guide, displayNames.Get(guide, guide))
  }

  /** The command table holds the configured names that are neither guides nor `get_user_info`, with their display names. */
  lemma {:induction false} CommandNamesSpec(displayNames: Dict<string, string>, guides: seq<string>, keys: seq<string>)
    requires displayNames.Valid()
    requires forall i :: 0 <= i < |keys| ==> keys[i] in displayNames.vals
    ensures forall k :: k in CommandNames(displayNames, guides, keys).vals <==>
      k in keys && k !in guides && k != "get_user_info"
    ensures forall k :: k in CommandNames(displayNames, guides, keys).vals ==>
      CommandNames(displayNames, guides, keys).vals[k] == displayNames.vals[k]
    decreases |keys|
  {
    if keys != [] {
      var front := keys[..|keys| - 1];
      var g := keys[|keys| - 1];
      assert forall i :: 0 <= i < |front| ==> front[i] == keys[i];
      CommandNamesSpec(displayNames, guides, front);
      FrontLast(keys);
      var rest := CommandNames(displayNames, guides, front);
      if !(g in guides || g == "get_user_info") {
        assert CommandNames(displayNames, guides, keys).vals == rest.vals[g := displayNames.vals[g]];
      } else {
        assert CommandNames(displayNames, guides, keys) == rest;
      }
    }
  }

  /** The guide table holds the configured names that are guides, except `get_user_info`, with their display names. */
  lemma {:induction false} GuideNamesSpec(displayNames: Dict<string, string>, guides: seq<string>, keys: seq<string>)
    requires displayNames.Valid()
    requires forall i :: 0 <= i < |keys| ==> keys[i] in displayNames.vals
    ensures forall k :: k in GuideNames(displayNames, guides, keys).vals <==>
      k in keys && k in guides && k != "get_user_info"
    ensures forall k :: k in GuideNames(displayNames, guides, keys).vals ==>
      GuideNames(displayNames, guides, keys).vals[k] == displayNames.vals[k]
    decreases |keys|
  {
    if keys != [] {
      var front := keys[..|keys| - 1];
      var g := keys[|keys| - 1];
      assert forall i :: 0 <= i < |front| ==> front[i] == keys[i];
      GuideNamesSpec(displayNames, guides, front);
      FrontLast(keys);
      var rest := GuideNames(displayNames, guides, front);
      if g in guides && g != "get_user_info" {
        assert GuideNames(displayNames, guides, keys).vals == rest.vals[g := displayNames.vals[g]];
      } else {
        assert GuideNames(displayNames, guides, keys) == rest;
      }
    }
  }

  /** `get_display_names`, with the second loop testing its own variable. */
  method GetDisplayNames(displayNames: Dict<string, string>, guides: seq<string>)
    returns (cmdNames: Dict<string, string>, guideNames: Dict<string, string>)
    requires displayNames.Valid()
    ensures cmdNames == CommandNames(displayNames, guides, displayNames.keys)
    ensures guideNames == GuideNames(displayNames, guides, displayNames.keys)
  {
    var keys := displayNames.keys;
    cmdNames := Empty();
    guideNames := Empty();
    for i := 0 to |keys|
      invariant cmdNames == CommandNames(displayNames, guides, keys[..i])
    {
      PrefixStep(keys, i);
      var command := keys[i];
      if !(command in guides || command == "get_user_info") {
        cmdNames := cmdNames.Put(command, displayNames.Get(command, command));
      }
    }
    assert keys[..|keys|] == keys;
    for i := 0 to |keys|
      invariant guideNames == GuideNames(displayNames, guides, keys[..i])
    {
      PrefixStep(keys, i);
      var guide := keys[i];
      if !(guide !in guides || guide == "get_user_info") {
        guideNames := guideNames.Put(guide, displayNames.Get(guide, guide));
      }
    }
  }
}
