/**
 * The job queue that runs workflow commands one at a time, and the hooks a
 * workflow calls to bind its inputs to the parsed command arguments.
 */
module Worker {
  import opened Wrappers
  import opened PyStr
  import opened PyInt
  import opened Telegram
  import BotUtils

  // ---------------------------------------------------------------- hooks (create_hooks)

  /** The error a required string argument raises when it is missing. */
  function MissingStringError(argumentName: string): string {
    if argumentName == "prompt" then "A prompt is required"
    else "Argument --" + argumentName + " is required"
  }

  /**
   * `handle_string_input`: fails when a required argument is absent,
   * otherwise returns the supplied value or the node's default.
   */
  function HandleStringInput(parsedData: map<string, string>, required: bool, default: string,
                             argumentName: string): (r: Result<string>)
    ensures r.Err? <==> required && argumentName !in parsedData
    ensures r.Err? ==> r.error == MissingStringError(argumentName)
    ensures r.Ok? && argumentName in parsedData ==> r.value == parsedData[argumentName]
    ensures r.Ok? && argumentName !in parsedData ==> r.value == default
  {
    if required && argumentName !in parsedData then Err(MissingStringError(argumentName))
    else if argumentName in parsedData then Ok(parsedData[argumentName])
    else Ok(default)
  }

  /**
   * Arguments parsed from a command line always carry `prompt`, so a
   * required prompt input never fails on them and receives the free text.
   */
  lemma PromptInputNeverMissing(commandString: string, commandName: string, required: bool, default: string)
    ensures HandleStringInput(BotUtils.Parsed(commandString, commandName), required, default, "prompt").Ok?
  {
    BotUtils.ParsedKeys(commandString, commandName);
  }

  /**
   * `handle_string_output`: a string that is empty after stripping is an
   * error and nothing is sent; any other string is replied as it is.
   */
  function HandleStringOutput(message: Message, s: string): (r: Result<Sent>)
    ensures r.Ok? ==> r.value == ReplyTo(message, s)
  {
    if |Strip(s)| == 0 then Err("String passed to StringOutput node must not be empty")
    else Ok(ReplyTo(message, s))
  }

  /** The output hook accepts a string exactly when it has a non-whitespace character. */
  lemma StringOutputAcceptsIff(message: Message, s: string)
    ensures HandleStringOutput(message, s).Ok? <==> exists i :: 0 <= i < |s| && !IsSpace(s[i])
  {
    StripEmptyIff(s);
  }

  /** The guard at the head of `handle_image_input`: the file id of the widest photo size. */
  function HandleImageInput(message: Message): (r: Result<string>)
    ensures !message.IsPhoto() ==> r == Err("This command requires an image")
    ensures message.IsPhoto() ==> (r.Ok? <==> message.content.sizes != [])
    ensures message.IsPhoto() && r.Ok? ==>
      var sizes := message.content.sizes;
      exists k :: 0 <= k < |sizes| && r.value == sizes[k].fileId
        && (forall j :: 0 <= j < |sizes| ==> sizes[j].width <= sizes[k].width)
        && (forall j :: 0 <= j < k ==> sizes[j].width < sizes[k].width)
  {
    if !message.IsPhoto() then Err("This command requires an image")
    else WidestFileId(message)
  }

  /** The warning line of `handle_integer_input`. */
  function MinimumWarning(argumentName: string, integerMin: int): string {
    "The minium of --" + argumentName + " is " + Str(integerMin) + ". Changing to that value\n"
  }

  /**
   * The text of the `ValueError` that `int()` raises on a string it cannot
   * read. Python shows `repr(s)`; this is `s` between single quotes, which
   * differs from `repr` for a string holding a quote or a backslash.
   */
  function IntError(s: string): string {
    "invalid literal for int() with base 10: '" + s + "'"
  }

  /** What a hook call did: the replies it sent, then its value or the error it raised. */
  datatype HookOutcome<T> = HookOutcome(sent: seq<Sent>, result: Result<T>)

  /**
   * `handle_integer_input`. A missing argument always fails, whatever
   * `required` says; the warning depends only on the default and the
   * minimum; the result is `max(integer_max, min(value, integer_min))`.
   */
  function HandleIntegerInput(message: Message, parsedData: map<string, string>, required: bool,
                              integer: int, integerMin: int, integerMax: int,
                              argumentName: string): (o: HookOutcome<int>)
    ensures argumentName !in parsedData ==>
      o.sent == [] && o.result == Err("Missing argument " + argumentName)
    ensures argumentName in parsedData ==>
      o.sent == (if integer != integerMin then [ReplyTo(message, MinimumWarning(argumentName, integerMin))] else [])
    ensures o.result.Ok? <==> argumentName in parsedData && ParseInt(parsedData[argumentName]).Some?
    ensures o.result.Err? && argumentName in parsedData ==> o.result.error == IntError(parsedData[argumentName])
    ensures o.result.Ok? ==> o.result.value >= integerMax
    ensures o.result.Ok? ==>
      o.result.value <= (if integerMax > integerMin then integerMax else integerMin)
      && o.result.value in {integerMax, integerMin, ParseInt(parsedData[argumentName]).value}
  {
    if argumentName !in parsedData then HookOutcome([], Err("Missing argument " + argumentName))
    else
      var warning := (if integer < integerMin then MinimumWarning(argumentName, integerMin) else "")
        + (if integer > integerMin then MinimumWarning(argumentName, integerMin) else "");
      assert warning == if integer != integerMin then MinimumWarning(argumentName, integerMin) else [];
      assert MinimumWarning(argumentName, integerMin)[0] == 'T';
      var sent := if |warning| > 0 then [ReplyTo(message, warning)] else [];
      var s := parsedData[argumentName];
      match ParseInt(s)
      case None => HookOutcome(sent, Err(IntError(s)))
      case Some(v) =>
        var clamped := if v < integerMin then v else integerMin;
        HookOutcome(sent, Ok(if integerMax > clamped then integerMax else clamped))
  }

  /** The `required` check after the presence check can never be the one that fails. */
  lemma IntegerRequiredCheckUnreachable(message: Message, parsedData: map<string, string>, required: bool,
                                        integer: int, integerMin: int, integerMax: int, argumentName: string)
    ensures HandleIntegerInput(message, parsedData, required, integer, integerMin, integerMax, argumentName).result
      != Err("Argument --" + argumentName + " is required")
  {
    var o := HandleIntegerInput(message, parsedData, required, integer, integerMin, integerMax, argumentName);
    if argumentName !in parsedData {
      assert ("Missing argument " + argumentName)[0] == 'M';
      assert ("Argument --" + argumentName + " is required")[0] == 'A';
    } else if o.result.Err? {
      assert IntError(parsedData[argumentName])[0] == 'i';
      assert ("Argument --" + argumentName + " is required")[0] == 'A';
    }
  }

  /** Whenever the minimum does not exceed the maximum, every readable value becomes the maximum. */
  lemma IntegerInputIsMaximum(message: Message, parsedData: map<string, string>, required: bool,
                              integer: int, integerMin: int, integerMax: int, argumentName: string)
    requires integerMin <= integerMax
    requires argumentName in parsedData && ParseInt(parsedData[argumentName]).Some?
    ensures HandleIntegerInput(message, parsedData, required, integer, integerMin, integerMax, argumentName).result
      == Ok(integerMax)
  {
  }

  // ---------------------------------------------------------------- the queue (ComfyWorker)

  /** A queued command: its name, the message that asked for it and its arguments. */
  datatype Job = Job(commandName: string, message: Message, parsedData: map<string, string>)

  /**
   * What running a workflow did: the replies its hooks sent before it
   * finished, and the text of the exception it raised, if any.
   */
  datatype RunOutcome = RunOutcome(sent: seq<Sent>, raised: Option<string>)

  /** What the loop sends for one job: the workflow's replies, then `str(e)` to the job's message on failure. */
  function Report(run: Job -> RunOutcome, job: Job): (r: seq<Sent>)
  {
    var o := run(job);
    o.sent + (if o.raised.Some? then [ReplyTo(job.message, o.raised.value)] else [])
  }

  /**
   * What the loop sends for a sequence of jobs, run in that order: the
   * first job's messages come first, and jobs that send nothing and raise
   * nothing leave no trace.
   */
  function Reports(run: Job -> RunOutcome, jobs: seq<Job>): (r: seq<Sent>)
    decreases |jobs|
  {
    if jobs == [] then [] else Report(run, jobs[0]) + Reports(run, jobs[1..])
  }

  /**
   * A job's report opens with what its workflow sent; it is exactly that
   * when the workflow raised nothing, and otherwise ends with the error
   * replied to the job's message.
   */
  lemma ReportSpec(run: Job -> RunOutcome, job: Job)
    ensures run(job).sent <= Report(run, job)
    ensures run(job).raised.None? <==> Report(run, job) == run(job).sent
    ensures run(job).raised.Some? ==>
      Report(run, job)[|Report(run, job)| - 1] == ReplyTo(job.message, run(job).raised.value)
  {
  }

  /**
   * The first job's report opens the sequence, and jobs that send nothing
   * and raise nothing leave no trace.
   */
  lemma {:induction false} ReportsSpec(run: Job -> RunOutcome, jobs: seq<Job>)
    ensures jobs != [] ==> Report(run, jobs[0]) <= Reports(run, jobs)
    ensures (forall i :: 0 <= i < |jobs| ==> Report(run, jobs[i]) == []) ==> Reports(run, jobs) == []
    decreases |jobs|
  {
    if jobs != [] {
      ReportsSpec(run, jobs[1..]);
      assert forall i :: 0 <= i < |jobs[1..]| ==> jobs[1..][i] == jobs[i + 1];
    }
  }

  /** Running two batches one after the other sends what each sends, in order. */
  lemma {:induction false} ReportsAppend(run: Job -> RunOutcome, a: seq<Job>, b: seq<Job>)
    ensures Reports(run, a + b) == Reports(run, a) + Reports(run, b)
    decreases |a|
  {
    if a == [] {
      assert a + b == b;
    } else {
      assert (a + b)[0] == a[0] && (a + b)[1..] == a[1..] + b;
      ReportsAppend(run, a[1..], b);
    }
  }

  /**
   * A failing job gets its error replied to its own message, and the jobs
   * after it still run: their replies follow it.
   */
  lemma FailureIsReportedAndLoopContinues(run: Job -> RunOutcome, before: seq<Job>, job: Job, after: seq<Job>)
    requires run(job).raised.Some?
    ensures Reports(run, before + [job] + after)
      == Reports(run, before) + run(job).sent + [ReplyTo(job.message, run(job).raised.value)] + Reports(run, after)
  {
    var reply := [ReplyTo(job.message, run(job).raised.value)];
    ReportsAppend(run, before + [job], after);
    ReportsAppend(run, before, [job]);
    assert Reports(run, [job]) == run(job).sent + reply by {
      assert [job][1..] == [];
      assert Reports(run, [job]) == Report(run, job) + Reports(run, []);
    }
  }

  class ComfyWorker {
    /** The pending jobs, head first (`self.data`). */
    var data: seq<Job>
    /** Everything the loop has sent so far. */
    var sent: seq<Sent>
    /** Every job ever passed to `execute`, and those the loop has taken. */
    ghost var submitted: seq<Job>
    ghost var taken: seq<Job>

    /** Jobs are taken in submission order: the taken ones followed by the pending ones are all submitted ones. */
    ghost predicate Valid()
      reads this
    {
      taken + data == submitted
    }

    constructor()
      ensures Valid()
      ensures data == [] && sent == [] && submitted == [] && taken == []
    {
      data := [];
      sent := [];
      submitted := [];
      taken := [];
    }

    /** `execute`: append the job at the tail. */
    method Execute(commandName: string, message: Message, parsedData: map<string, string>)
      requires Valid()
      modifies this
      ensures Valid()
      ensures data == old(data) + [Job(commandName, message, parsedData)]
      ensures submitted == old(submitted) + [Job(commandName, message, parsedData)]
      ensures taken == old(taken) && sent == old(sent)
    {
      data := data + [Job(commandName, message, parsedData)];
      submitted := submitted + [Job(commandName, message, parsedData)];
    }

    /**
     * One iteration of `loop_thread`: nothing when the queue is empty,
     * otherwise pop the head, run it and report a failure to its message.
     */
    method Step(run: Job -> RunOutcome) returns (ran: Option<Job>)
      requires Valid()
      modifies this
      ensures Valid()
      ensures submitted == old(submitted)
      ensures old(data) == [] ==> ran == None && data == old(data) && taken == old(taken) && sent == old(sent)
      ensures old(data) != [] ==>
        ran == Some(old(data)[0])
        && data == old(data)[1..]
        && taken == old(taken) + [old(data)[0]]
        && sent == old(sent) + Report(run, old(data)[0])
    {
      if data == [] {
        return None;
      }
      var job := data[0];
      data := data[1..];
      taken := taken + [job];
      var outcome := run(job);
      sent := sent + outcome.sent;
      if outcome.raised.Some? {
        sent := sent + [ReplyTo(job.message, outcome.raised.value)];
      }
      ran := Some(job);
    }

    /**
     * The loop run until the queue is empty: every pending job is taken
     * exactly once, in submission order, and what is sent is the reports of
     * those jobs in that order.
     */
    method Drain(run: Job -> RunOutcome)
      requires Valid()
      modifies this
      ensures Valid()
      ensures data == [] && submitted == old(submitted)
      ensures taken == old(taken) + old(data)
      ensures sent == old(sent) + Reports(run, old(data))
    {
      ghost var pending := data;
      while data != []
        invariant Valid() && submitted == old(submitted)
        invariant taken + data == old(taken) + pending
        invariant sent + Reports(run, data) == old(sent) + Reports(run, pending)
        decreases |data|
      {
        ghost var before := data;
        var ran := Step(run);
        assert before == [before[0]] + data;
        assert Reports(run, before) == Report(run, before[0]) + Reports(run, data);
      }
    }
  }
}
