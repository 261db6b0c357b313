/**
 * Helpers shared by the handlers: the display name of a user and the parser
 * that turns `/cmd free text --key value ...` into an argument dictionary.
 */
module BotUtils {
  import opened Wrappers
  import opened PyStr
  import opened Telegram

  /** `get_username`: the Telegram username when the user has one, else the first name. */
  function GetUsername(user: User): (name: string)
    ensures user.username.Some? ==> name == user.username.value
    ensures user.username.None? ==> name == user.firstName
  {
    match user.username
    case Some(u) => u
    case None => user.firstName
  }

  // ---------------------------------------------------------------- parse_command_string

  /** The text after `/<name>`, stripped and cut at every "--". */
  function Segments(commandString: string, commandName: string): (segs: seq<string>)
    ensures |segs| >= 1
  {
    Split(Strip(Drop(commandString, 1 + |commandName|)), "--")
  }

  /** The key a `--key value ...` segment sets: its first token, when it has at least two. */
  function SegmentKey(segment: string): Option<string> {
    var parts := SplitWs(segment);
    if |parts| > 1 then Some(Strip(parts[0])) else None
  }

  /** The value such a segment sets: the remaining tokens joined by single spaces. */
  function SegmentValue(segment: string): string {
    var parts := SplitWs(segment);
    if |parts| > 1 then Strip(Join(parts[1..], " ")) else []
  }

  /** One iteration of the loop over the `--` segments. */
  function AddArgument(result: map<string, string>, segment: string): map<string, string> {
    match SegmentKey(segment)
    case Some(k) => result[k := SegmentValue(segment)]
    case None => result
  }

  /** The loop over `segments`, applied in order to `result`: it never removes a key. */
  function AddArguments(result: map<string, string>, segments: seq<string>): (r: map<string, string>)
    ensures result.Keys <= r.Keys
    decreases |segments|
  {
    if segments == [] then result
    else AddArguments(AddArgument(result, segments[0]), segments[1..])
  }

  /** What `parse_command_string(commandString, commandName)` returns: it always has a `prompt`. */
  function Parsed(commandString: string, commandName: string): (r: map<string, string>)
    ensures "prompt" in r
  {
    var segs := Segments(commandString, commandName);
    var text := Strip(segs[0]);
    AddArguments(map["prompt" := Strip(text)], segs[1..])
  }

  /** `parse_command_string`, with its loop over the argument segments. */
  method ParseCommandString(commandString: string, commandName: string) returns (result: map<string, string>)
    ensures result == Parsed(commandString, commandName)
  {
    var textAndArgs := Split(Strip(Drop(commandString, 1 + |commandName|)), "--");
    result := map[];
    var text := Strip(textAndArgs[0]);
    var args := textAndArgs[1..];
    result := result["prompt" := Strip(text)];
    ghost var final := AddArguments(result, args);
    for i := 0 to |args|
      invariant AddArguments(result, args[i..]) == final
    {
      assert args[i..][1..] == args[i + 1..];
      var parts := SplitWs(args[i]);
      if |parts| > 1 {
        var argName := Strip(parts[0]);
        var argValue := Strip(Join(parts[1..], " "));
        result := result[argName := argValue];
      }
    }
  }

  // ---------------------------------------------------------------- properties

  /** The loop only adds or overwrites keys, and every key it adds names a segment. */
  lemma {:induction false} AddArgumentsKeys(init: map<string, string>, segs: seq<string>)
    ensures init.Keys <= AddArguments(init, segs).Keys
    ensures forall k :: k in AddArguments(init, segs) && k !in init ==>
      exists j :: 0 <= j < |segs| && SegmentKey(segs[j]) == Some(k)
    decreases |segs|
  {
    if segs != [] {
      var mid := AddArgument(init, segs[0]);
      var res := AddArguments(init, segs);
      assert res == AddArguments(mid, segs[1..]);
      AddArgumentsKeys(mid, segs[1..]);
      forall k | k in res && k !in init
        ensures exists j :: 0 <= j < |segs| && SegmentKey(segs[j]) == Some(k)
      {
        if k in mid {
          assert SegmentKey(segs[0]) == Some(k);
        } else {
          var j :| 0 <= j < |segs[1..]| && SegmentKey(segs[1..][j]) == Some(k);
          assert segs[j + 1] == segs[1..][j];
        }
      }
    }
  }

  /** A key no segment names keeps its value from `init` (or stays absent). */
  lemma {:induction false} AddArgumentsUntouched(init: map<string, string>, segs: seq<string>, k: string)
    requires forall j :: 0 <= j < |segs| ==> SegmentKey(segs[j]) != Some(k)
    ensures k in AddArguments(init, segs) <==> k in init
    ensures k in init ==> AddArguments(init, segs)[k] == init[k]
    decreases |segs|
  {
    if segs != [] {
      var mid := AddArgument(init, segs[0]);
      assert AddArguments(init, segs) == AddArguments(mid, segs[1..]);
      assert forall j :: 0 <= j < |segs[1..]| ==> segs[1..][j] == segs[j + 1];
      AddArgumentsUntouched(mid, segs[1..], k);
    }
  }

  /** A key named by segment `j` and by no later one ends with that segment's value. */
  lemma {:induction false} AddArgumentsLastWins(init: map<string, string>, segs: seq<string>, k: string, j: nat)
    requires j < |segs| && SegmentKey(segs[j]) == Some(k)
    requires forall i :: j < i < |segs| ==> SegmentKey(segs[i]) != Some(k)
    ensures k in AddArguments(init, segs) && AddArguments(init, segs)[k] == SegmentValue(segs[j])
    decreases |segs|
  {
    var mid := AddArgument(init, segs[0]);
    assert AddArguments(init, segs) == AddArguments(mid, segs[1..]);
    assert forall i :: 0 <= i < |segs[1..]| ==> segs[1..][i] == segs[i + 1];
    if j == 0 {
      AddArgumentsUntouched(mid, segs[1..], k);
    } else {
      AddArgumentsLastWins(mid, segs[1..], k, j - 1);
    }
  }

  /** The result always holds `prompt`; any other key is the first token of some `--` segment. */
  lemma ParsedKeys(commandString: string, commandName: string)
    ensures "prompt" in Parsed(commandString, commandName)
    ensures forall k :: k in Parsed(commandString, commandName) && k != "prompt" ==>
      exists j :: 1 <= j < |Segments(commandString, commandName)|
        && SegmentKey(Segments(commandString, commandName)[j]) == Some(k)
  {
    var segs := Segments(commandString, commandName);
    var init := map["prompt" := Strip(Strip(segs[0]))];
    AddArgumentsKeys(init, segs[1..]);
    forall k | k in Parsed(commandString, commandName) && k != "prompt"
      ensures exists j :: 1 <= j < |segs| && SegmentKey(segs[j]) == Some(k)
    {
      var j :| 0 <= j < |segs[1..]| && SegmentKey(segs[1..][j]) == Some(k);
      assert segs[j + 1] == segs[1..][j];
    }
  }

  /** Without a `--prompt x` segment, `prompt` is the stripped text before the first "--". */
  lemma ParsedPromptIsFreeText(commandString: string, commandName: string)
    requires forall i :: 1 <= i < |Segments(commandString, commandName)| ==>
      SegmentKey(Segments(commandString, commandName)[i]) != Some("prompt")
    ensures "prompt" in Parsed(commandString, commandName)
    ensures Parsed(commandString, commandName)["prompt"] == Strip(Segments(commandString, commandName)[0])
  {
    var segs := Segments(commandString, commandName);
    var init := map["prompt" := Strip(Strip(segs[0]))];
    StripTrimmed(Strip(segs[0]));
    assert forall i :: 0 <= i < |segs[1..]| ==> segs[1..][i] == segs[i + 1];
    AddArgumentsUntouched(init, segs[1..], "prompt");
  }

  /**
   * A key set by several segments keeps the value of the last one; in
   * particular `--prompt x` overrides the free text.
   */
  lemma ParsedLastSegmentWins(commandString: string, commandName: string, k: string, j: nat)
    requires 1 <= j < |Segments(commandString, commandName)|
    requires SegmentKey(Segments(commandString, commandName)[j]) == Some(k)
    requires forall i :: j < i < |Segments(commandString, commandName)| ==>
      SegmentKey(Segments(commandString, commandName)[i]) != Some(k)
    ensures k in Parsed(commandString, commandName)
    ensures Parsed(commandString, commandName)[k] == SegmentValue(Segments(commandString, commandName)[j])
  {
    var segs := Segments(commandString, commandName);
    var init := map["prompt" := Strip(Strip(segs[0]))];
    assert forall i :: 0 <= i < |segs[1..]| ==> segs[1..][i] == segs[i + 1];
    AddArgumentsLastWins(init, segs[1..], k, j - 1);
  }

  /** Slices of a string without "--" have none either. */
  lemma NoDoubleDashSlice(s: string, a: nat, b: nat)
    requires NoDoubleDash(s) && a <= b <= |s|
    ensures NoDoubleDash(s[a..b])
  {
    forall i | 0 <= i < b - a - 1 ensures !(s[a..b][i] == '-' && s[a..b][i + 1] == '-') {
      assert s[a..b][i] == s[a + i] && s[a..b][i + 1] == s[a + i + 1];
    }
  }

  lemma StripNoDoubleDash(s: string)
    requires NoDoubleDash(s)
    ensures NoDoubleDash(Strip(s))
  {
    var l := StripLeft(s);
    StripLeftIsSuffix(s);
    NoDoubleDashSlice(s, |s| - |l|, |s|);
    StripRightIsPrefix(l);
    NoDoubleDashSlice(l, 0, |StripRight(l)|);
  }

  /** A segment's value holds no "--" and no surrounding whitespace. */
  lemma SegmentValueClean(segment: string)
    requires NoDoubleDash(segment)
    ensures NoDoubleDash(SegmentValue(segment)) && Trimmed(SegmentValue(segment))
  {
    var parts := SplitWs(segment);
    if |parts| > 1 {
      SplitWsTokens(segment);
      SplitWsNoDoubleDash(segment);
      var rest := parts[1..];
      assert forall i :: 0 <= i < |rest| ==> rest[i] == parts[i + 1];
      JoinTokensTrimmed(rest);
      JoinNoDoubleDash(rest);
      StripTrimmed(Join(rest, " "));
    }
  }

  lemma {:induction false} AddArgumentsClean(init: map<string, string>, segs: seq<string>)
    requires forall k :: k in init ==> NoDoubleDash(init[k]) && Trimmed(init[k])
    requires forall j :: 0 <= j < |segs| ==> NoDoubleDash(segs[j])
    ensures forall k :: k in AddArguments(init, segs) ==>
      NoDoubleDash(AddArguments(init, segs)[k]) && Trimmed(AddArguments(init, segs)[k])
    decreases |segs|
  {
    if segs != [] {
      SegmentValueClean(segs[0]);
      var mid := AddArgument(init, segs[0]);
      assert forall j :: 0 <= j < |segs[1..]| ==> segs[1..][j] == segs[j + 1];
      AddArgumentsClean(mid, segs[1..]);
    }
  }

  /** No parsed value contains "--" or starts or ends with whitespace. */
  lemma ParsedValuesClean(commandString: string, commandName: string)
    ensures forall k :: k in Parsed(commandString, commandName) ==>
      NoDoubleDash(Parsed(commandString, commandName)[k]) && Trimmed(Parsed(commandString, commandName)[k])
  {
    var segs := Segments(commandString, commandName);
    SplitPiecesAvoidSep(Strip(Drop(commandString, 1 + |commandName|)), "--");
    forall j | 0 <= j < |segs| ensures NoDoubleDash(segs[j]) {
      NoDoubleDashFromContains(segs[j]);
    }
    StripNoDoubleDash(segs[0]);
    StripNoDoubleDash(Strip(segs[0]));
    var prompt := Strip(Strip(segs[0]));
    assert forall j :: 0 <= j < |segs[1..]| ==> segs[1..][j] == segs[j + 1];
    AddArgumentsClean(map["prompt" := prompt], segs[1..]);
  }
}
