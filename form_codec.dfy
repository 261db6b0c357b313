/**
 * The form that travels inside chat messages: an ordered list of
 * `Type name: value` lines, written by `serialize_input_nodes` and read back
 * by `deserialize_input_chain_message`.
 */
module FormCodec {
  import opened Wrappers
  import opened PyStr
  import opened Dict

  // ---------------------------------------------------------------- serialize_input_nodes

  /**
   * An input node of a workflow: its class name and the keyword arguments
   * of its `execute` call, each kept as the source text of the argument.
   */
  datatype InputNode = InputNode(className: string, arguments: map<string, string>)

  /** A form slot: `kind name: value`; a form key is the pair (kind, name). */
  datatype Field = Field(kind: string, name: string, value: string)

  /** The `argument_types` table. */
  function ArgumentType(className: string): (t: Option<string>)
    ensures t.Some? ==> t.value in {"String", "Integer", "Photo"}
    ensures t.Some? <==> className in {"AppIO_StringInput", "AppIO_IntegerInput", "AppIO_ImageInput", "AppIO_ImageInputFromID"}
  {
    if className == "AppIO_StringInput" then Some("String")
    else if className == "AppIO_IntegerInput" then Some("Integer")
    else if className == "AppIO_ImageInput" || className == "AppIO_ImageInputFromID" then Some("Photo")
    else None
  }

  /** `s.replace('"', '').replace("'", '')`. */
  function Unquote(s: string): (r: string)
    ensures '"' !in r && '\'' !in r
  {
    var a := Replace(s, "\"", "");
    RemoveCharGone(s, '"');
    RemoveCharGone(a, '\'');
    RemoveQuoteKeepsOther(a, '\'', '"');
    Replace(a, "'", "")
  }

  lemma {:induction false} RemoveQuoteKeepsOther(s: string, c: char, d: char)
    requires d !in s
    ensures d !in Replace(s, [c], [])
    decreases |s|
  {
    if s != [] {
      RemoveQuoteKeepsOther(s[1..], c, d);
    }
  }

  /**
   * The default a node contributes: its `string` argument when non-empty,
   * else its `integer` argument, else 1.
   */
  function DefaultValue(arguments: map<string, string>): (v: string)
    ensures "string" in arguments && arguments["string"] != [] ==> v == arguments["string"]
    ensures ("string" !in arguments || arguments["string"] == []) && "integer" in arguments ==> v == arguments["integer"]
    ensures ("string" !in arguments || arguments["string"] == []) && "integer" !in arguments ==> v == "1"
  {
    var s := if "string" in arguments then arguments["string"] else "";
    if s != [] then s else if "integer" in arguments then arguments["integer"] else "1"
  }

  /** A node the serializer refuses: it names an argument, not `prompt`, of an unmapped class. */
  predicate Unmapped(node: InputNode) {
    "argument_name" in node.arguments
    && Unquote(node.arguments["argument_name"]) != "prompt"
    && ArgumentType(Unquote(node.className)).None?
  }

  /** The first three entries, in this order. */
  function InitialForm(command: string, id: string, prompt: string): (d: Dict<(string, string), string>)
    ensures d.Valid()
  {
    Empty().Put(("String", "command"), command).Put(("String", "id"), id).Put(("String", "prompt"), prompt)
  }

  /** One iteration of the loop over the input nodes. */
  function AddNode(re: Dict<(string, string), string>, node: InputNode): (r: Result<Dict<(string, string), string>>)
    requires re.Valid()
    ensures r.Ok? ==> r.value.Valid()
    ensures r.Err? <==> Unmapped(node)
  {
    var arguments := node.arguments;
    var className := Unquote(node.className);
    if "argument_name" !in arguments then Ok(re)
    else
      var defaultValue := DefaultValue(arguments);
      var argumentName := Unquote(arguments["argument_name"]);
      if argumentName == "prompt" then Ok(re)
      else match ArgumentType(className)
        case None => Err("Not found argument type for class " + className)
        case Some(t) => Ok(re.Put((t, argumentName), defaultValue))
  }

  /** The loop over `nodes`, applied in order to `re`; the first refused node stops it. */
  function AddNodes(re: Dict<(string, string), string>, nodes: seq<InputNode>): (r: Result<Dict<(string, string), string>>)
    requires re.Valid()
    ensures r.Ok? ==> r.value.Valid()
    decreases |nodes|
  {
    if nodes == [] then Ok(re)
    else match AddNode(re, nodes[0])
      case Err(e) => Err(e)
      case Ok(next) => AddNodes(next, nodes[1..])
  }

  /** The fields of a form, in key order. */
  function Fields(d: Dict<(string, string), string>): (fs: seq<Field>)
    requires d.Valid()
    ensures |fs| == |d.keys|
    ensures forall i :: 0 <= i < |fs| ==> fs[i] == Field(d.keys[i].0, d.keys[i].1, d.vals[d.keys[i]])
  {
    seq(|d.keys|, i requires 0 <= i < |d.keys| => Field(d.keys[i].0, d.keys[i].1, d.vals[d.keys[i]]))
  }

  function Line(f: Field): string {
    f.kind + (" " + (f.name + (": " + f.value)))
  }

  function Lines(fields: seq<Field>): (ls: seq<string>)
    ensures |ls| == |fields|
    ensures forall i :: 0 <= i < |fields| ==> ls[i] == Line(fields[i])
  {
    seq(|fields|, i requires 0 <= i < |fields| => Line(fields[i]))
  }

  /** The lines `kind name: value`, joined by newlines. */
  function Render(fields: seq<Field>): (r: string)
    ensures r == [] <==> fields == []
  {
    Join(Lines(fields), "\n")
  }

  /** What `serialize_input_nodes` returns, or the `NotImplementedError` it raises. */
  function Serialized(command: string, id: string, prompt: string, nodes: seq<InputNode>): (r: Result<string>)
    ensures r.Err? <==> exists i :: 0 <= i < |nodes| && Unmapped(nodes[i])
  {
    AddNodesErrIff(InitialForm(command, id, prompt), nodes);
    match AddNodes(InitialForm(command, id, prompt), nodes)
    case Err(e) => Err(e)
    case Ok(d) => Ok(Render(Fields(d)))
  }

  /** `serialize_input_nodes`, with its loop over the input nodes. */
  method SerializeInputNodes(command: string, id: string, prompt: string, nodes: seq<InputNode>)
    returns (r: Result<string>)
    ensures r == Serialized(command, id, prompt, nodes)
  {
    var re := InitialForm(command, id, prompt);
    ghost var final := AddNodes(re, nodes);
    for i := 0 to |nodes|
      invariant re.Valid()
      invariant AddNodes(re, nodes[i..]) == final
    {
      assert nodes[i..][1..] == nodes[i + 1..];
      var node := nodes[i];
      var arguments := node.arguments;
      var className := Unquote(node.className);
      if "argument_name" in arguments {
        var defaultValue := DefaultValue(arguments);
        var argumentName := Unquote(arguments["argument_name"]);
        if argumentName != "prompt" {
          var argumentType := ArgumentType(className);
          if argumentType.None? {
            return Err("Not found argument type for class " + className);
          }
          re := re.Put((argumentType.value, argumentName), defaultValue);
        }
      }
    }
    assert nodes[|nodes|..] == [];
    return Ok(Render(Fields(re)));
  }

  // ---------------------------------------------------------------- properties of serialize

  /** The loop only appends keys: the keys it starts with stay first, in order. */
  lemma {:induction false} AddNodesKeepsPrefix(re: Dict<(string, string), string>, nodes: seq<InputNode>)
    requires re.Valid()
    ensures AddNodes(re, nodes).Ok? ==> re.keys <= AddNodes(re, nodes).value.keys
    decreases |nodes|
  {
    if nodes != [] && AddNode(re, nodes[0]).Ok? {
      AddNodesKeepsPrefix(AddNode(re, nodes[0]).value, nodes[1..]);
    }
  }

  /** No node can change the `String prompt` entry: an argument named `prompt` is skipped. */
  lemma {:induction false} AddNodesKeepsPrompt(re: Dict<(string, string), string>, nodes: seq<InputNode>)
    requires re.Valid() && ("String", "prompt") in re.vals
    ensures AddNodes(re, nodes).Ok? ==> ("String", "prompt") in AddNodes(re, nodes).value.vals
    ensures AddNodes(re, nodes).Ok? ==> AddNodes(re, nodes).value.vals[("String", "prompt")] == re.vals[("String", "prompt")]
    decreases |nodes|
  {
    if nodes != [] && AddNode(re, nodes[0]).Ok? {
      AddNodesKeepsPrompt(AddNode(re, nodes[0]).value, nodes[1..]);
    }
  }

  /** The loop fails exactly when some node is of an unmapped class. */
  lemma {:induction false} AddNodesErrIff(re: Dict<(string, string), string>, nodes: seq<InputNode>)
    requires re.Valid()
    ensures AddNodes(re, nodes).Err? <==> exists i :: 0 <= i < |nodes| && Unmapped(nodes[i])
    decreases |nodes|
  {
    if nodes != [] {
      assert forall i :: 1 <= i < |nodes| ==> nodes[i] == nodes[1..][i - 1];
      if AddNode(re, nodes[0]).Ok? {
        AddNodesErrIff(AddNode(re, nodes[0]).value, nodes[1..]);
        if exists i :: 1 <= i < |nodes| && Unmapped(nodes[i]) {
          var i :| 1 <= i < |nodes| && Unmapped(nodes[i]);
          assert Unmapped(nodes[1..][i - 1]);
        }
      }
    }
  }

  /**
   * The serialized form starts with the `command`, `id` and `prompt` lines
   * in that order, the prompt line holding `prompt`; it fails exactly when
   * some node is of an unmapped class.
   */
  lemma SerializedShape(command: string, id: string, prompt: string, nodes: seq<InputNode>)
    ensures Serialized(command, id, prompt, nodes).Err? <==> exists i :: 0 <= i < |nodes| && Unmapped(nodes[i])
    ensures AddNodes(InitialForm(command, id, prompt), nodes).Ok? ==>
      var fs := Fields(AddNodes(InitialForm(command, id, prompt), nodes).value);
      |fs| >= 3
      && fs[0].kind == "String" && fs[0].name == "command"
      && fs[1].kind == "String" && fs[1].name == "id"
      && fs[2] == Field("String", "prompt", prompt)
  {
    var re := InitialForm(command, id, prompt);
    InitialFormShape(command, id, prompt);
    AddNodesErrIff(re, nodes);
    var r := AddNodes(re, nodes);
    if r.Ok? {
      AddNodesKeepsPrefix(re, nodes);
      AddNodesKeepsPrompt(re, nodes);
      var d := r.value;
      assert d.keys[0] == re.keys[0] && d.keys[1] == re.keys[1] && d.keys[2] == re.keys[2];
      var fs := Fields(d);
      assert fs[2] == Field("String", "prompt", d.vals[("String", "prompt")]);
    }
  }

  /** The form before the loop: the `command`, `id` and `prompt` keys, in that order. */
  lemma InitialFormShape(command: string, id: string, prompt: string)
    ensures InitialForm(command, id, prompt).keys == [("String", "command"), ("String", "id"), ("String", "prompt")]
    ensures InitialForm(command, id, prompt).vals[("String", "prompt")] == prompt
  {
  }

  // ---------------------------------------------------------------- the two regular expressions

  predicate IsLetter(c: char) {
    'a' <= c <= 'z' || 'A' <= c <= 'Z'
  }

  /**
   * The class `[a-zA-Z0-9-_]`: a '-' that follows the completed range `0-9`
   * is read as a literal, so the class is letters, digits, '-' and '_'.
   */
  predicate IsNameChar(c: char) {
    IsLetter(c) || '0' <= c <= '9' || c == '-' || c == '_'
  }

  /** `.`: anything but a newline. */
  predicate IsLineChar(c: char) {
    c != '\n'
  }

  /** The length of the run of letters at the start of `s`. */
  function LetterRun(s: string): nat {
    Span(s, IsLetter)
  }

  /** The length of the run of name characters at the start of `s`. */
  function NameRun(s: string): nat {
    Span(s, IsNameChar)
  }

  /** The length of the run of characters other than a newline at the start of `s`. */
  function LineRun(s: string): nat {
    Span(s, IsLineChar)
  }

  /** `(.+)` at the start of `u`: the rest of the line, when not empty. */
  function MatchValue(u: string): (r: Option<(string, nat)>)
    ensures r.Some? ==> 0 < r.value.1 <= |u|
  {
    var c := LineRun(u);
    if c == 0 then None else Some((u[..c], c))
  }

  /** `([a-zA-Z0-9-_]+): (.+)` at the start of `t`: the name, the value and the length. */
  function MatchNameValue(t: string): (r: Option<(string, string, nat)>)
    ensures r.Some? ==> 0 < r.value.2 <= |t|
  {
    var b := NameRun(t);
    if b == 0 || b + 1 >= |t| || t[b] != ':' || t[b + 1] != ' ' then None
    else
      var m := MatchValue(t[b + 2..]);
      if m.None? then None else Some((t[..b], m.value.0, b + 2 + m.value.1))
  }

  /**
   * `([a-zA-Z]+) ([a-zA-Z0-9-_]+): (.+)` tried at the start of `s`: the
   * field and the length of the match. Each group is maximal, since the
   * character after it is outside its class.
   */
  function MatchField(s: string): (r: Option<(Field, nat)>)
    ensures r.Some? ==> 0 < r.value.1 <= |s|
  {
    var a := LetterRun(s);
    if a == 0 || a >= |s| || s[a] != ' ' then None
    else
      var m := MatchNameValue(s[a + 1..]);
      if m.None? then None else Some((Field(s[..a], m.value.0, m.value.1), a + 1 + m.value.2))
  }

  /**
   * `re.finditer` of the field pattern: try each position, resume after a
   * match. Every match is a well-formed field and consumes a character at
   * least, so there are no more fields than characters.
   */
  function FindFields(s: string): (r: seq<Field>)
    ensures |r| <= |s|
    ensures forall i :: 0 <= i < |r| ==> WellFormed(r[i])
    decreases |s|
  {
    if s == [] then []
    else if MatchField(s).Some? then
      MatchFieldWellFormed(s);
      var (f, n) := MatchField(s).value;
      [f] + FindFields(s[n..])
    else FindFields(s[1..])
  }

  /**
   * `([a-zA-Z]+) ([a-zA-Z0-9-_]+)\?` tried at the start of `s`: the name
   * group, a non-empty run of name characters that follows a non-empty run
   * of letters and a space and is followed by '?'.
   */
  function MatchPrompt(s: string): (r: Option<string>)
    ensures r.Some? ==> |r.value| > 0 && forall i :: 0 <= i < |r.value| ==> IsNameChar(r.value[i])
  {
    var a := LetterRun(s);
    if a == 0 || a >= |s| || s[a] != ' ' then None
    else
      var t := s[a + 1..];
      var b := NameRun(t);
      if b == 0 || b >= |t| || t[b] != '?' then None
      else
        SpanSpec(t, IsNameChar);
        Some(t[..b])
  }

  /** A prompt match is a run of letters, a space, then the name and '?'. */
  lemma MatchPromptShape(s: string)
    requires MatchPrompt(s).Some?
    ensures exists k :: PromptAt(s, k, MatchPrompt(s).value)
  {
    var a := LetterRun(s);
    SpanSpec(s, IsLetter);
    var t := s[a + 1..];
    var b := NameRun(t);
    assert s[a + 1..a + 1 + b] == t[..b];
    assert PromptAt(s, a, t[..b]);
  }

  /** `s` holds `k` letters, a space, the name `n` and '?', in that order, from its start. */
  predicate PromptAt(s: string, k: int, n: string) {
    0 < k && k + 1 + |n| < |s|
    && (forall i :: 0 <= i < k ==> IsLetter(s[i])) && s[k] == ' '
    && s[k + 1..k + 1 + |n|] == n && s[k + 1 + |n|] == '?'
  }

  /** `re.search` of the prompt pattern: the first position where it matches gives the name. */
  function FindPrompt(s: string): (r: Option<string>)
    ensures r.Some? ==> |r.value| > 0 && forall i :: 0 <= i < |r.value| ==> IsNameChar(r.value[i])
    decreases |s|
  {
    if s == [] then None
    else if MatchPrompt(s).Some? then MatchPrompt(s)
    else FindPrompt(s[1..])
  }

  /**
   * The search finds nothing exactly when no position matches, and
   * otherwise returns the match at the first position that matches.
   */
  lemma FindPromptFirst(s: string)
    ensures FindPrompt(s).None? <==> forall i :: 0 <= i < |s| ==> MatchPrompt(s[i..]).None?
    ensures FindPrompt(s).Some? ==> exists i :: (0 <= i < |s| && FindPrompt(s) == MatchPrompt(s[i..])
      && forall j :: 0 <= j < i ==> MatchPrompt(s[j..]).None?)
  {
    assert s[0..] == s;
    FindPromptIsSearch(s, 0);
    SearchFirst(s, 0, MatchPrompt);
    forall i | 0 <= i < |s| ensures MatchPrompt(s[i..]) == (MatchPrompt)(s[i..]) {
    }
  }

  /** The scan of `FindPrompt` from position `i` of `s`, with the match at one position left abstract. */
  ghost function Search(s: string, i: nat, m: string -> Option<string>): Option<string>
    decreases |s| - i
  {
    if i >= |s| then None
    else if m(s[i..]).Some? then m(s[i..])
    else Search(s, i + 1, m)
  }

  lemma {:induction false} FindPromptIsSearch(s: string, i: nat)
    requires i <= |s|
    ensures FindPrompt(s[i..]) == Search(s, i, MatchPrompt)
    decreases |s| - i
  {
    if i < |s| {
      assert s[i..][1..] == s[i + 1..];
      FindPromptIsSearch(s, i + 1);
    }
  }

  /** The scan returns the match at the first position that has one, and nothing when none has. */
  lemma {:induction false} SearchFirst(s: string, i: nat, m: string -> Option<string>)
    ensures Search(s, i, m).None? <==> forall j :: i <= j < |s| ==> m(s[j..]).None?
    ensures Search(s, i, m).Some? ==> exists j :: (i <= j < |s| && Search(s, i, m) == m(s[j..])
      && forall l :: i <= l < j ==> m(s[l..]).None?)
    decreases |s| - i
  {
    if i < |s| && m(s[i..]).None? {
      SearchFirst(s, i + 1, m);
    }
  }

  // ---------------------------------------------------------------- deserialize_input_chain_message

  /** The loop over the matches: each sets the value and the type of its name. */
  function Collect(form: Dict<string, string>, types: Dict<string, string>, fields: seq<Field>)
    : (r: (Dict<string, string>, Dict<string, string>))
    requires form.Valid() && types.Valid()
    ensures r.0.Valid() && r.1.Valid()
    decreases |fields|
  {
    if fields == [] then (form, types)
    else Collect(form.Put(fields[0].name, fields[0].value), types.Put(fields[0].name, fields[0].kind), fields[1..])
  }

  /** What `deserialize_input_chain_message` returns: the awaited name, the values and the types. */
  datatype Decoded = Decoded(prompt: Option<string>, form: Dict<string, string>, types: Dict<string, string>)

  /**
   * The values and the types have the same keys, in the order in which the
   * field lines first name them.
   */
  function Deserialized(text: string): (d: Decoded)
    ensures d.form.Valid() && d.types.Valid()
    ensures d.form.keys == AddKeys([], Names(FindFields(text)))
    ensures d.types.keys == d.form.keys
  {
    CollectKeys(Empty(), Empty(), FindFields(text));
    CollectKeyOrder(Empty(), Empty(), FindFields(text));
    var r := Collect(Empty(), Empty(), FindFields(text));
    Decoded(FindPrompt(text), r.0, r.1)
  }

  /** `deserialize_input_chain_message`, with its loop over the matches. */
  method DeserializeInputChainMessage(text: string) returns (d: Decoded)
    ensures d == Deserialized(text)
  {
    var form: Dict<string, string> := Empty();
    var formTypes: Dict<string, string> := Empty();
    var matches := FindFields(text);
    ghost var final := Collect(form, formTypes, matches);
    for i := 0 to |matches|
      invariant form.Valid() && formTypes.Valid()
      invariant Collect(form, formTypes, matches[i..]) == final
    {
      assert matches[i..][1..] == matches[i + 1..];
      form := form.Put(matches[i].name, matches[i].value);
      formTypes := formTypes.Put(matches[i].name, matches[i].kind);
    }
    assert matches[|matches|..] == [];
    d := Decoded(FindPrompt(text), form, formTypes);
  }

  // ---------------------------------------------------------------- properties of deserialize

  /** The names of the fields, in order. */
  function Names(fields: seq<Field>): (ns: seq<string>)
    ensures |ns| == |fields|
    decreases |fields|
  {
    if fields == [] then [] else [fields[0].name] + Names(fields[1..])
  }

  lemma {:induction false} NamesIndex(fields: seq<Field>)
    ensures forall i :: 0 <= i < |fields| ==> Names(fields)[i] == fields[i].name
    decreases |fields|
  {
    if fields != [] {
      NamesIndex(fields[1..]);
    }
  }

  predicate DistinctNames(fields: seq<Field>) {
    forall i, j :: 0 <= i < j < |fields| ==> fields[i].name != fields[j].name
  }

  /** A name seen before keeps its place; a new name goes last; the types follow the same keys. */
  lemma {:induction false} CollectKeys(form: Dict<string, string>, types: Dict<string, string>, fields: seq<Field>)
    requires form.Valid() && types.Valid() && form.keys == types.keys
    ensures form.keys <= Collect(form, types, fields).0.keys
    ensures Collect(form, types, fields).0.keys == Collect(form, types, fields).1.keys
    decreases |fields|
  {
    if fields != [] {
      CollectKeys(form.Put(fields[0].name, fields[0].value), types.Put(fields[0].name, fields[0].kind), fields[1..]);
    }
  }

  /** The names with a value, and those with a type, are the ones already there and those the fields carry. */
  lemma {:induction false} CollectNames(form: Dict<string, string>, types: Dict<string, string>, fields: seq<Field>)
    requires form.Valid() && types.Valid()
    ensures forall k :: k in Collect(form, types, fields).0.vals <==> k in form.vals || k in Names(fields)
    ensures forall k :: k in Collect(form, types, fields).1.vals <==> k in types.vals || k in Names(fields)
    decreases |fields|
  {
    if fields != [] {
      CollectNames(form.Put(fields[0].name, fields[0].value), types.Put(fields[0].name, fields[0].kind), fields[1..]);
    }
  }

  /** A name no field carries keeps its value and type. */
  lemma {:induction false} CollectUntouched(form: Dict<string, string>, types: Dict<string, string>, fields: seq<Field>, k: string)
    requires form.Valid() && types.Valid()
    requires forall i :: 0 <= i < |fields| ==> fields[i].name != k
    ensures k in Collect(form, types, fields).0.vals <==> k in form.vals
    ensures k in Collect(form, types, fields).1.vals <==> k in types.vals
    ensures k in form.vals ==> Collect(form, types, fields).0.vals[k] == form.vals[k]
    ensures k in types.vals ==> Collect(form, types, fields).1.vals[k] == types.vals[k]
    decreases |fields|
  {
    if fields != [] {
      assert forall i :: 0 <= i < |fields[1..]| ==> fields[1..][i] == fields[i + 1];
      CollectUntouched(form.Put(fields[0].name, fields[0].value), types.Put(fields[0].name, fields[0].kind), fields[1..], k);
    }
  }

  /** A later field with the same name overwrites the value and the type of an earlier one. */
  lemma {:induction false} CollectLastWins(form: Dict<string, string>, types: Dict<string, string>, fields: seq<Field>, j: nat)
    requires form.Valid() && types.Valid()
    requires j < |fields|
    requires forall i :: j < i < |fields| ==> fields[i].name != fields[j].name
    ensures fields[j].name in Collect(form, types, fields).0.vals
    ensures Collect(form, types, fields).0.vals[fields[j].name] == fields[j].value
    ensures fields[j].name in Collect(form, types, fields).1.vals
    ensures Collect(form, types, fields).1.vals[fields[j].name] == fields[j].kind
    decreases |fields|
  {
    if j == 0 {
      CollectFirstWins(form, types, fields);
    } else {
      var form' := form.Put(fields[0].name, fields[0].value);
      var types' := types.Put(fields[0].name, fields[0].kind);
      var rest := fields[1..];
      var c := Collect(form', types', rest);
      assert Collect(form, types, fields) == c;
      var g := fields[j];
      assert rest[j - 1] == g;
      forall i | j - 1 < i < |rest| ensures rest[i].name != g.name {
        assert rest[i] == fields[i + 1];
      }
      CollectLastWins(form', types', rest, j - 1);
      assert g.name in c.0.vals && c.0.vals[g.name] == g.value;
      assert g.name in c.1.vals && c.1.vals[g.name] == g.kind;
    }
  }

  /** The first field, when no later field has its name, keeps its value and its type. */
  lemma CollectFirstWins(form: Dict<string, string>, types: Dict<string, string>, fields: seq<Field>)
    requires form.Valid() && types.Valid()
    requires fields != []
    requires forall i :: 0 < i < |fields| ==> fields[i].name != fields[0].name
    ensures var c := Collect(form, types, fields);
      fields[0].name in c.0.vals && c.0.vals[fields[0].name] == fields[0].value
      && fields[0].name in c.1.vals && c.1.vals[fields[0].name] == fields[0].kind
  {
    var f := fields[0];
    var form' := form.Put(f.name, f.value);
    var types' := types.Put(f.name, f.kind);
    var rest := fields[1..];
    forall i | 0 <= i < |rest| ensures rest[i].name != f.name {
      assert rest[i] == fields[i + 1];
    }
    CollectUntouched(form', types', rest, f.name);
  }

  /** The key order the loop produces: a new name goes last, a seen one keeps its place. */
  function AddKeys(keys: seq<string>, names: seq<string>): seq<string>
    decreases |names|
  {
    if names == [] then keys
    else AddKeys(if names[0] in keys then keys else keys + [names[0]], names[1..])
  }

  lemma {:induction false} CollectKeyOrder(form: Dict<string, string>, types: Dict<string, string>, fields: seq<Field>)
    requires form.Valid() && types.Valid()
    ensures Collect(form, types, fields).0.keys == AddKeys(form.keys, Names(fields))
    decreases |fields|
  {
    if fields != [] {
      CollectKeyOrder(form.Put(fields[0].name, fields[0].value), types.Put(fields[0].name, fields[0].kind), fields[1..]);
    }
  }

  predicate Distinct(xs: seq<string>) {
    forall i, j :: 0 <= i < j < |xs| ==> xs[i] != xs[j]
  }

  /** Distinct names none of which is already a key are simply appended. */
  lemma {:induction false} AddKeysDistinct(keys: seq<string>, names: seq<string>)
    requires Distinct(names)
    requires forall i :: 0 <= i < |names| ==> names[i] !in keys
    ensures AddKeys(keys, names) == keys + names
    decreases |names|
  {
    if names == [] {
      assert keys + names == keys;
    } else {
      var rest := names[1..];
      assert forall i :: 0 <= i < |rest| ==> rest[i] == names[i + 1];
      AddKeysDistinct(keys + [names[0]], rest);
      assert keys + names == (keys + [names[0]]) + rest;
    }
  }

  lemma {:induction false} DistinctNamesAreDistinct(fields: seq<Field>)
    requires DistinctNames(fields)
    ensures Distinct(Names(fields))
  {
    NamesIndex(fields);
  }

  /** With distinct names, the keys are the names in order, after the ones already there. */
  lemma CollectDistinctKeys(form: Dict<string, string>, types: Dict<string, string>, fields: seq<Field>)
    requires form.Valid() && types.Valid()
    requires DistinctNames(fields)
    requires forall i :: 0 <= i < |fields| ==> fields[i].name !in form.keys
    ensures Collect(form, types, fields).0.keys == form.keys + Names(fields)
  {
    CollectKeyOrder(form, types, fields);
    DistinctNamesAreDistinct(fields);
    NamesIndex(fields);
    AddKeysDistinct(form.keys, Names(fields));
  }

  /** A well-formed field: a word, a name of the name class, and a one-line value. */
  predicate WellFormed(f: Field) {
    |f.kind| > 0 && (forall i :: 0 <= i < |f.kind| ==> IsLetter(f.kind[i]))
    && |f.name| > 0 && (forall i :: 0 <= i < |f.name| ==> IsNameChar(f.name[i]))
    && |f.value| > 0 && '\n' !in f.value
  }

  /** `(.+)` at the start of `u`, given where its run of line characters ends. */
  lemma MatchValueAt(u: string, c: nat)
    requires 0 < c <= |u| && LineRun(u) == c
    ensures MatchValue(u) == Some((u[..c], c))
  {
  }

  /** The name-and-value pattern at the start of `t`, given where its name run ends. */
  lemma MatchNameValueAt(t: string, b: nat, u: string, v: string, c: nat)
    requires 0 < b && b + 1 < |t| && NameRun(t) == b && t[b] == ':' && t[b + 1] == ' '
    requires u == t[b + 2..] && MatchValue(u) == Some((v, c))
    ensures MatchNameValue(t) == Some((t[..b], v, b + 2 + c))
  {
  }

  /** The field pattern at the start of `s`, given where its letter run ends. */
  lemma MatchFieldAt(s: string, a: nat, t: string, n: string, v: string, len: nat)
    requires 0 < a < |s| && LetterRun(s) == a && s[a] == ' '
    requires t == s[a + 1..] && MatchNameValue(t) == Some((n, v, len))
    ensures MatchField(s) == Some((Field(s[..a], n, v), a + 1 + len))
  {
  }

  /** What the field pattern matches is a well-formed field. */
  lemma MatchFieldWellFormed(s: string)
    requires MatchField(s).Some?
    ensures WellFormed(MatchField(s).value.0)
  {
    var a := LetterRun(s);
    SpanSpec(s, IsLetter);
    var t := s[a + 1..];
    var b := NameRun(t);
    SpanSpec(t, IsNameChar);
    var u := t[b + 2..];
    var c := LineRun(u);
    SpanSpec(u, IsLineChar);
    var v := u[..c];
    assert forall i :: 0 <= i < |v| ==> v[i] != '\n';
  }

  /** A well-formed field renders on one line. */
  lemma WellFormedOneLine(f: Field)
    requires WellFormed(f)
    ensures '\n' !in Line(f)
  {
    assert '\n' !in f.kind by {
      assert forall i :: 0 <= i < |f.kind| ==> f.kind[i] != '\n';
    }
    assert '\n' !in f.name by {
      assert forall i :: 0 <= i < |f.name| ==> f.name[i] != '\n';
    }
  }

  /** A well-formed value matches as a whole, up to the newline that ends it. */
  lemma MatchValueOf(v: string, rest: string)
    requires |v| > 0 && '\n' !in v
    requires rest == [] || rest[0] == '\n'
    ensures MatchValue(v + rest) == Some((v, |v|))
  {
    SpanOf(v, rest, IsLineChar);
    SplitAt(v, rest);
    MatchValueAt(v + rest, |v|);
  }

  /** A name run, ": " and a value match as the name and that value. */
  lemma MatchNameValueOf(n: string, u: string, v: string, c: nat)
    requires |n| > 0 && forall i :: 0 <= i < |n| ==> IsNameChar(n[i])
    requires MatchValue(u) == Some((v, c))
    ensures MatchNameValue(n + (": " + u)) == Some((n, v, |n| + 2 + c))
  {
    SpanOf(n, ": " + u, IsNameChar);
    SplitAround(n, ": ", u);
    MatchNameValueAt(n + (": " + u), |n|, u, v, c);
  }

  /** A letter run, a space and a name-and-value match as that field. */
  lemma MatchFieldOf(f: Field, t: string, len: nat)
    requires |f.kind| > 0 && forall i :: 0 <= i < |f.kind| ==> IsLetter(f.kind[i])
    requires MatchNameValue(t) == Some((f.name, f.value, len))
    ensures MatchField(f.kind + (" " + t)) == Some((f, |f.kind| + 1 + len))
  {
    var k := f.kind;
    SpanOf(k, " " + t, IsLetter);
    SplitAround(k, " ", t);
    MatchFieldAt(k + (" " + t), |k|, t, f.name, f.value, len);
  }

  /** A well-formed line matches as a whole, up to the newline that ends it. */
  lemma MatchLine(f: Field, rest: string)
    requires WellFormed(f)
    requires rest == [] || rest[0] == '\n'
    ensures MatchField(Line(f) + rest) == Some((f, |Line(f)|))
  {
    MatchLineParts(f, rest);
    LineParts(f, rest);
    MatchFieldEq(Line(f) + rest, f.kind + (" " + (f.name + (": " + (f.value + rest)))), Some((f, |Line(f)|)));
  }

  /** Equal texts match alike. */
  lemma MatchFieldEq(x: string, y: string, r: Option<(Field, nat)>)
    requires x == y && MatchField(y) == r
    ensures MatchField(x) == r
  {
  }

  /** The same, with the line and what follows it regrouped from the right. */
  lemma MatchLineParts(f: Field, rest: string)
    requires WellFormed(f)
    requires rest == [] || rest[0] == '\n'
    ensures MatchField(f.kind + (" " + (f.name + (": " + (f.value + rest)))))
      == Some((f, |f.kind| + 1 + (|f.name| + 2 + |f.value|)))
  {
    var u := f.value + rest;
    MatchValueOf(f.value, rest);
    MatchNameValueOf(f.name, u, f.value, |f.value|);
    MatchFieldOf(f, f.name + (": " + u), |f.name| + 2 + |f.value|);
  }

  /** A line then `rest`, regrouped from the right, and the length of the line. */
  lemma LineParts(f: Field, rest: string)
    ensures Line(f) + rest == f.kind + (" " + (f.name + (": " + (f.value + rest))))
    ensures |Line(f)| == |f.kind| + 1 + |f.name| + 2 + |f.value|
  {
  }

  /** Reading back the rendering of well-formed fields gives the fields. */
  lemma {:induction false} FindFieldsRender(fields: seq<Field>)
    requires forall i :: 0 <= i < |fields| ==> WellFormed(fields[i])
    ensures FindFields(Render(fields)) == fields
    decreases |fields|
  {
    if |fields| == 1 {
      assert Lines(fields) == [Line(fields[0])];
      OnlyLine(fields[0]);
    } else if |fields| > 1 {
      RenderCons(fields);
      FirstLineThen(fields[0], Render(fields[1..]));
      FindFieldsRender(fields[1..]);
      assert fields == [fields[0]] + fields[1..];
    }
  }

  /** The rendering of several fields: the first line, a newline, then the rest. */
  lemma RenderCons(fields: seq<Field>)
    requires |fields| > 1
    ensures Render(fields) == Line(fields[0]) + "\n" + Render(fields[1..])
  {
    assert Lines(fields) == [Line(fields[0])] + Lines(fields[1..]);
    JoinCons(Line(fields[0]), Lines(fields[1..]), "\n");
  }

  /** Where a field matches, the scan records it and resumes after the match. */
  lemma FindFieldsAt(s: string, f: Field, n: nat)
    requires s != [] && MatchField(s) == Some((f, n))
    ensures FindFields(s) == [f] + FindFields(s[n..])
  {
  }

  /** A single well-formed line reads back as its field. */
  lemma OnlyLine(f: Field)
    requires WellFormed(f)
    ensures FindFields(Line(f)) == [f]
  {
    var l := Line(f);
    assert l + [] == l;
    MatchLine(f, []);
    FindFieldsAt(l, f, |l|);
    assert l[|l|..] == [];
  }

  /**
   * Round trip: reading back the rendering of well-formed fields with
   * distinct names gives those names in order, each with its value and its
   * type.
   */
  lemma DeserializeRender(fields: seq<Field>)
    requires forall i :: 0 <= i < |fields| ==> WellFormed(fields[i])
    requires DistinctNames(fields)
    ensures Deserialized(Render(fields)).form.keys == Names(fields)
    ensures Deserialized(Render(fields)).types.keys == Names(fields)
    ensures forall i :: 0 <= i < |fields| ==>
      fields[i].name in Deserialized(Render(fields)).form.vals
      && Deserialized(Render(fields)).form.vals[fields[i].name] == fields[i].value
      && fields[i].name in Deserialized(Render(fields)).types.vals
      && Deserialized(Render(fields)).types.vals[fields[i].name] == fields[i].kind
  {
    var e: Dict<string, string> := Empty();
    var c := Collect(e, e, fields);
    assert Deserialized(Render(fields)).form == c.0 && Deserialized(Render(fields)).types == c.1 by {
      FindFieldsRender(fields);
    }
    CollectDistinctKeys(e, e, fields);
    CollectKeys(e, e, fields);
    assert e.keys + Names(fields) == Names(fields);
    forall i | 0 <= i < |fields|
      ensures fields[i].name in c.0.vals && c.0.vals[fields[i].name] == fields[i].value
      ensures fields[i].name in c.1.vals && c.1.vals[fields[i].name] == fields[i].kind
    {
      CollectLastWins(e, e, fields, i);
    }
  }

  // ---------------------------------------------------------------- the form inside a longer message

  /** A field match never crosses a newline, and needs a ':' before it. */
  lemma MatchFieldNeedsColon(s: string, k: nat)
    requires k <= |s| && (k == |s| || s[k] == '\n')
    requires forall i :: 0 <= i < k ==> s[i] != ':'
    ensures MatchField(s) == None
  {
    var a := LetterRun(s);
    SpanSpec(s, IsLetter);
    if a > 0 && a < |s| && s[a] == ' ' {
      assert a < k;
      var t := s[a + 1..];
      var b := NameRun(t);
      SpanSpec(t, IsNameChar);
      assert a + 1 + b <= k;
      if b + 1 < |t| {
        assert t[b] == s[a + 1 + b];
      }
    }
  }

  /** A prompt match never crosses a newline, and needs a '?' before it. */
  lemma MatchPromptNeedsQuestionMark(s: string, k: nat)
    requires k <= |s| && (k == |s| || s[k] == '\n')
    requires forall i :: 0 <= i < k ==> s[i] != '?'
    ensures MatchPrompt(s) == None
  {
    var a := LetterRun(s);
    SpanSpec(s, IsLetter);
    if a > 0 && a < |s| && s[a] == ' ' {
      assert a < k;
      var t := s[a + 1..];
      var b := NameRun(t);
      SpanSpec(t, IsNameChar);
      assert a + 1 + b <= k;
      if b < |t| {
        assert t[b] == s[a + 1 + b];
      }
    }
  }

  /** A line without ':' holds no field: scanning goes on after it. */
  lemma {:induction false} SkipLineWithoutField(line: string, rest: string)
    requires ':' !in line && '\n' !in line
    ensures FindFields(line + "\n" + rest) == FindFields(rest)
    decreases |line|
  {
    var s := line + "\n" + rest;
    MatchFieldNeedsColon(s, |line|);
    if line == [] {
      assert s[1..] == rest;
    } else {
      assert s[1..] == line[1..] + "\n" + rest;
      SkipLineWithoutField(line[1..], rest);
    }
  }

  /** A last line without ':' holds no field. */
  lemma {:induction false} NoFieldInLastLine(line: string)
    requires ':' !in line && '\n' !in line
    ensures FindFields(line) == []
    decreases |line|
  {
    if line != [] {
      MatchFieldNeedsColon(line, |line|);
      NoFieldInLastLine(line[1..]);
    }
  }

  /** A line without '?' holds no prompt: the search goes on after it. */
  lemma {:induction false} SkipLineWithoutPrompt(line: string, rest: string)
    requires '?' !in line && '\n' !in line
    ensures FindPrompt(line + "\n" + rest) == FindPrompt(rest)
    decreases |line|
  {
    var s := line + "\n" + rest;
    MatchPromptNeedsQuestionMark(s, |line|);
    if line == [] {
      assert s[1..] == rest;
      assert MatchPrompt(s) == None by {
        assert LetterRun(s) == 0;
      }
    } else {
      assert s[1..] == line[1..] + "\n" + rest;
      SkipLineWithoutPrompt(line[1..], rest);
    }
  }

  /** The line `kind name?` asks for `name`. */
  lemma PromptLineAsks(kind: string, name: string)
    requires |kind| > 0 && forall i :: 0 <= i < |kind| ==> IsLetter(kind[i])
    requires |name| > 0 && forall i :: 0 <= i < |name| ==> IsNameChar(name[i])
    ensures FindPrompt(kind + " " + name + "?") == Some(name)
  {
    var t := name + "?";
    var head := kind + " ";
    var s := head + t;
    ConcatAssoc(head, name, "?");
    ConcatAssoc(kind, " ", t);
    SpanOf(kind, " " + t, IsLetter);
    SpanOf(name, "?", IsNameChar);
    SplitAt(head, t);
    SplitAt(name, "?");
    MatchPromptAt(s, |kind|, t, |name|);
  }

  /** The prompt pattern at the start of `s`, given where its letter run and its name run end. */
  lemma MatchPromptAt(s: string, a: nat, t: string, b: nat)
    requires 0 < a < |s| && LetterRun(s) == a && s[a] == ' ' && t == s[a + 1..]
    requires 0 < b < |t| && NameRun(t) == b && t[b] == '?'
    ensures MatchPrompt(s) == Some(t[..b])
    ensures FindPrompt(s) == Some(t[..b])
  {
  }


  /** A newline starts no field: scanning goes on after it. */
  lemma NewlineStartsNoField(rest: string)
    ensures FindFields("\n" + rest) == FindFields(rest)
  {
    assert MatchField("\n" + rest) == None;
    assert ("\n" + rest)[1..] == rest;
  }

  /** One well-formed line, then a newline and `rest`. */
  lemma FirstLineThen(f: Field, rest: string)
    requires WellFormed(f)
    ensures FindFields(Line(f) + "\n" + rest) == [f] + FindFields(rest)
  {
    var l := Line(f);
    var s := l + ("\n" + rest);
    ConcatAssoc(l, "\n", rest);
    MatchLine(f, "\n" + rest);
    FindFieldsAt(s, f, |l|);
    SplitAt(l, "\n" + rest);
    NewlineStartsNoField(rest);
  }

  /** The fields of a form, followed by more lines, read back as the fields and then whatever those lines hold. */
  lemma {:induction false} FindFieldsRenderThen(fields: seq<Field>, rest: string)
    requires fields != []
    requires forall i :: 0 <= i < |fields| ==> WellFormed(fields[i])
    ensures FindFields(Render(fields) + "\n" + rest) == fields + FindFields(rest)
    decreases |fields|
  {
    var l := Line(fields[0]);
    if |fields| == 1 {
      assert Render(fields) == l;
      FirstLineThen(fields[0], rest);
      assert fields == [fields[0]];
    } else {
      var more := fields[1..];
      var tail := Render(more) + "\n" + rest;
      assert Render(fields) + "\n" + rest == l + "\n" + tail by {
        RenderCons(fields);
      }
      assert FindFields(l + "\n" + tail) == [fields[0]] + FindFields(tail) by {
        FirstLineThen(fields[0], tail);
      }
      assert FindFields(tail) == more + FindFields(rest) by {
        assert forall i :: 0 <= i < |more| ==> more[i] == fields[i + 1];
        FindFieldsRenderThen(more, rest);
      }
      calc {
        FindFields(Render(fields) + "\n" + rest);
        [fields[0]] + (more + FindFields(rest));
        { ConcatAssoc([fields[0]], more, FindFields(rest)); }
        ([fields[0]] + more) + FindFields(rest);
        { assert fields == [fields[0]] + more; }
        fields + FindFields(rest);
      }
    }
  }

  /** Lines of fields without '?' hold no prompt. */
  lemma {:induction false} SkipRenderWithoutPrompt(fields: seq<Field>, rest: string)
    requires fields != []
    requires forall i :: 0 <= i < |fields| ==> '?' !in Line(fields[i]) && '\n' !in Line(fields[i])
    ensures FindPrompt(Render(fields) + "\n" + rest) == FindPrompt(rest)
    decreases |fields|
  {
    var l := Line(fields[0]);
    if |fields| == 1 {
      assert Render(fields) == l;
      SkipLineWithoutPrompt(l, rest);
    } else {
      RenderCons(fields);
      var tail := Render(fields[1..]) + "\n" + rest;
      assert Render(fields) + "\n" + rest == l + "\n" + tail;
      SkipLineWithoutPrompt(l, tail);
      SkipRenderWithoutPrompt(fields[1..], rest);
    }
  }
  // ---------------------------------------------------------------- where the awaited name is read

  /** A prompt match needs a '?'. */
  lemma MatchPromptHasQuestion(s: string)
    requires MatchPrompt(s).Some?
    ensures exists q :: 0 <= q < |s| && s[q] == '?'
  {
    var a := LetterRun(s);
    var t := s[a + 1..];
    var b := NameRun(t);
    assert s[a + 1 + b] == t[b] == '?';
  }

  /** A prompt match that ends inside `x` is not changed by what follows `x`. */
  lemma MatchPromptStable(x: string, y: string, q: nat)
    requires q < |x| && x[q] == '?'
    ensures MatchPrompt(x + y) == MatchPrompt(x)
  {
    var s := x + y;
    SpanStable(x, y, IsLetter, q);
    var a := LetterRun(x);
    assert LetterRun(s) == a && a <= q;
    assert s[a] == x[a];
    if a != 0 && x[a] == ' ' {
      var t' := x[a + 1..];
      DropWithin(x, y, a + 1);
      SpanStable(t', y, IsNameChar, q - (a + 1));
      var b := NameRun(t');
      assert NameRun(t' + y) == b && b < |t'|;
      PrefixWithin(t', y, b);
    }
  }

  lemma {:induction false} FindPromptHasQuestion(s: string)
    requires FindPrompt(s).Some?
    ensures exists q :: 0 <= q < |s| && s[q] == '?'
    decreases |s|
  {
    if MatchPrompt(s).Some? {
      MatchPromptHasQuestion(s);
    } else {
      FindPromptHasQuestion(s[1..]);
      var q :| 0 <= q < |s[1..]| && s[1..][q] == '?';
      assert s[q + 1] == '?';
    }
  }

  /** Once a prompt is found in `x`, nothing after `x` changes what the search returns. */
  lemma {:induction false} FindPromptStable(x: string, y: string)
    requires FindPrompt(x).Some?
    ensures FindPrompt(x + y) == FindPrompt(x)
    decreases |x|
  {
    FindPromptHasQuestion(x);
    var q :| 0 <= q < |x| && x[q] == '?';
    MatchPromptStable(x, y, q);
    if MatchPrompt(x).None? {
      assert (x + y)[1..] == x[1..] + y;
      FindPromptStable(x[1..], y);
    }
  }

  /** The text after the last newline: a suffix with no newline, preceded by one unless it is all of `s`. */
  function LastLine(s: string): (r: string)
    ensures '\n' !in r
    ensures |r| <= |s| && r == s[|s| - |r|..]
    ensures |r| < |s| ==> s[|s| - |r| - 1] == '\n'
    decreases |s|
  {
    if s == [] || s[|s| - 1] == '\n' then []
    else
      var init := s[..|s| - 1];
      var r' := LastLine(init);
      assert s[|init| - |r'|..] == r' + [s[|s| - 1]];
      r' + [s[|s| - 1]]
  }

  lemma {:induction false} LastLineOf(x: string, y: string)
    requires '\n' !in y
    ensures LastLine(x + "\n" + y) == y
    decreases |y|
  {
    var s := x + "\n" + y;
    if y == [] {
      assert s[|s| - 1] == '\n';
    } else {
      var y' := y[..|y| - 1];
      assert s[..|s| - 1] == x + "\n" + y';
      LastLineOf(x, y');
      assert y == y' + [y[|y| - 1]];
    }
  }

  /**
   * The name the bot is waiting for, read from the last line of the text,
   * where the bot puts its `kind name?` question.
   */
  function AwaitedName(text: string): (r: Option<string>)
    ensures r.Some? ==> |r.value| > 0 && forall i :: 0 <= i < |r.value| ==> IsNameChar(r.value[i])
  {
    FindPrompt(LastLine(text))
  }

  /**
   * The search in the last line is a search over the positions with no
   * newline after them: nothing when none of them matches, otherwise the
   * match at the first of them that does.
   */
  lemma AwaitedNameFirst(text: string)
    ensures AwaitedName(text).None? ==>
      forall i :: 0 <= i < |text| && '\n' !in text[i..] ==> MatchPrompt(text[i..]).None?
    ensures AwaitedName(text).Some? ==>
      exists i :: (0 <= i < |text| && '\n' !in text[i..] && AwaitedName(text) == MatchPrompt(text[i..])
        && forall j :: 0 <= j < i && '\n' !in text[j..] ==> MatchPrompt(text[j..]).None?)
  {
    var m := |text| - |LastLine(text)|;
    FindPromptIsSearch(text, m);
    SearchFirst(text, m, MatchPrompt);
    forall j | m <= j < |text| ensures '\n' !in text[j..] && MatchPrompt(text[j..]) == (MatchPrompt)(text[j..]) {
      LastLineTail(text, j - m);
    }
    forall j | 0 <= j < |text| && '\n' !in text[j..] ensures m <= j {
      LastLineFrom(text, j);
    }
  }

  /** A position with no newline after it lies in the last line. */
  lemma LastLineFrom(text: string, i: nat)
    requires i < |text| && '\n' !in text[i..]
    ensures |text| - |LastLine(text)| <= i
  {
  }

  /** Each tail of the last line is a tail of the text with no newline. */
  lemma LastLineTail(text: string, k: nat)
    requires k <= |LastLine(text)|
    ensures var m := |text| - |LastLine(text)|;
      text[m + k..] == LastLine(text)[k..] && '\n' !in text[m + k..]
  {
    var l := LastLine(text);
    assert forall j :: 0 <= j < |l[k..]| ==> l[k..][j] == l[k + j];
  }

  // ---------------------------------------------------------------- rendering, piece by piece

  lemma RenderAppend(a: seq<Field>, b: seq<Field>)
    requires a != [] && b != []
    ensures Render(a + b) == Render(a) + "\n" + Render(b)
  {
    LinesAppend(a, b);
    JoinAppend(Lines(a), Lines(b), "\n");
  }

  lemma LinesAppend(a: seq<Field>, b: seq<Field>)
    ensures Lines(a + b) == Lines(a) + Lines(b)
  {
  }

  /** A character that no line holds, other than the newline, is not in the rendering. */
  lemma {:induction false} RenderAvoids(fields: seq<Field>, c: char)
    requires c != '\n'
    requires forall i :: 0 <= i < |fields| ==> c !in Line(fields[i])
    ensures c !in Render(fields)
    decreases |fields|
  {
    if |fields| > 1 {
      RenderCons(fields);
      assert forall i :: 0 <= i < |fields[1..]| ==> fields[1..][i] == fields[i + 1];
      RenderAvoids(fields[1..], c);
    }
  }
  // ---------------------------------------------------------------- the prompt search inside a field line

  /** The search never starts a match on a character that is not a letter. */
  lemma NoPromptAtNonLetter(s: string)
    requires s != [] && !IsLetter(s[0])
    ensures FindPrompt(s) == FindPrompt(s[1..])
  {
    assert LetterRun(s) == 0;
  }

  /** Where the prompt pattern does not match, the search moves on by one character. */
  lemma FindPromptPast(s: string)
    requires s != [] && MatchPrompt(s) == None
    ensures FindPrompt(s) == FindPrompt(s[1..])
  {
  }

  /** The prompt pattern fails where the letter run is not followed by a space. */
  lemma NoPromptWithoutSpace(s: string, a: nat)
    requires LetterRun(s) == a && a < |s| && s[a] != ' '
    ensures MatchPrompt(s) == None
  {
  }

  /** The prompt pattern fails where the name run is followed by something other than '?'. */
  lemma NoPromptBeforeColon(s: string, a: nat, t: string, b: nat)
    requires 0 < a < |s| && LetterRun(s) == a && s[a] == ' ' && t == s[a + 1..]
    requires b < |t| && NameRun(t) == b && t[b] != '?'
    ensures MatchPrompt(s) == None
  {
  }

  /** Inside the name of a field line, no match starts: the run of letters ends before a space. */
  lemma {:induction false} SkipName(n: string, y: string)
    requires |n| > 0 && forall i :: 0 <= i < |n| ==> IsNameChar(n[i])
    ensures FindPrompt(n + (": " + y)) == FindPrompt(": " + y)
    decreases |n|
  {
    var s := n + (": " + y);
    assert MatchPrompt(s) == None by {
      SpanSpec(s, IsLetter);
      SplitAt(n, ": " + y);
      var a := LetterRun(s);
      assert !IsLetter(s[|n|]);
      NoPromptWithoutSpace(s, a);
    }
    FindPromptPast(s);
    DropFirst(n, ": " + y);
    if |n| > 1 {
      SkipName(n[1..], y);
    } else {
      assert n[1..] == [];
    }
  }

  /** Inside the kind of a field line, no match starts: the name is followed by ':' rather than '?'. */
  lemma {:induction false} SkipKind(k: string, n: string, y: string)
    requires |k| > 0 && forall i :: 0 <= i < |k| ==> IsLetter(k[i])
    requires |n| > 0 && forall i :: 0 <= i < |n| ==> IsNameChar(n[i])
    ensures FindPrompt(k + (" " + (n + (": " + y)))) == FindPrompt(" " + (n + (": " + y)))
    decreases |k|
  {
    var t := n + (": " + y);
    var s := k + (" " + t);
    assert MatchPrompt(s) == None by {
      SpanOf(k, " " + t, IsLetter);
      ConcatAssoc(k, " ", t);
      SplitAt(k, " " + t);
      SplitAt(k + " ", t);
      SpanOf(n, ": " + y, IsNameChar);
      SplitAt(n, ": " + y);
      NoPromptBeforeColon(s, |k|, t, |n|);
    }
    FindPromptPast(s);
    DropFirst(k, " " + t);
    if |k| > 1 {
      SkipKind(k[1..], n, y);
    } else {
      assert k[1..] == [];
    }
  }

  /** The search over a field line goes straight to its value. */
  lemma SkipFieldHead(f: Field, rest: string)
    requires WellFormed(f)
    ensures FindPrompt(Line(f) + rest) == FindPrompt(f.value + rest)
  {
    var y := f.value + rest;
    var t := f.name + (": " + y);
    LineParts(f, rest);
    SkipKind(f.kind, f.name, y);
    assert FindPrompt(" " + t) == FindPrompt(t) by {
      NoPromptAtNonLetter(" " + t);
      DropFirst(" ", t);
    }
    SkipName(f.name, y);
    assert FindPrompt(": " + y) == FindPrompt(" " + y) by {
      NoPromptAtNonLetter(": " + y);
      DropFirst(": ", y);
    }
    assert FindPrompt(" " + y) == FindPrompt(y) by {
      NoPromptAtNonLetter(" " + y);
      DropFirst(" ", y);
    }
  }
}
