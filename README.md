# ComfyUI-backed Telegram bot: the sequential core, modelled and proved in Dafny

The bot turns exported ComfyUI workflow scripts into Telegram commands. A
user types `/command free text --key value ...`, or sends a photo and
fills in a form one reply at a time. The bot queues the job on a worker
that runs the workflows one after another. Around that sit an
anti-flood filter, access-control tables kept by the admin, and a few
special commands that store image ids.

This project models the logic between Telegram, ComfyUI and the disk. One
Dafny module covers each source file:

| module | file | form |
|---|---|---|
| `Worker` | worker.py | the input hooks as functions; `ComfyWorker` as a class over a `seq` queue with `Execute`, `Step` (one loop iteration) and `Drain` |
| `BotUtils` | backed_bot_utils.py | `get_username`; `parse_command_string` as a method with its loop, proved against the function `Parsed` |
| `Middlewares` | middlewares.py | `AntiFlood` as a class whose `last_time` map is updated by `PreProcess` |
| `FormCodec` | preprocess.py:201-235 | the form text codec: `serialize_input_nodes` and `deserialize_input_chain_message` as loop methods, and the two regular expressions as an explicit line scanner |
| `Preprocess` | preprocess.py:86-182 | the workflow rewrite, the memoised argument table (`ArgumentCache`), and the display-name split |
| `ImageMenu` | image_menu.py:12-20 | `concat_strings`, `title_pad` and `sep`, and the text of the form messages |
| `MenuHandlers` | image_menu.py:39-195 | `PhotoMessageChain`, the chain table and the three handlers: pure decisions (`Choice`, `Answer`) that `Menu.React` carries out |
| `Auth` | auth_manager.py | the id checks as predicates; the user table as the field of `AuthManager`, edited entry by entry by the command methods |
| `Special` | special_commands.py | `SpecialCommands` over the image-id store, the allowed-user dictionary and an outbox |
| `Main` | main.py | the construction of `COMMANDS` and the routing decision of `main` |

Five helper modules stand for Python and Telegram. `Wrappers` holds
`Option` and `Result`: an `Err` is a raised exception. `PyStr` models the
`str` methods used: `strip`, `split`, `split()` with no argument,
`join`, `replace`, `startswith`, `find` and `index`. `PyInt` models
`int()` and `str()` on integers. `Dict` is a dictionary that keeps
insertion order. `Telegram` holds the message and user records.

Conventions of the model:

- A dbm store is an in-memory map. Its keys are assumed to iterate in insertion order, which the listings and `dict.update`'s key order rely on; a gnu or ndbm `dbm` does not promise any order.
- Messages the bot sends are appended to an outbox.
- Clocks, file contents, directory listings and the workflows' own behaviour are parameters.

The regular expressions of `deserialize_input_chain_message` use the
class `[a-zA-Z0-9-_]`. Python's `re` reads a `-` that follows a finished
range (`0-9`) as a literal, so the class is letters, digits, `-` and
`_`. `FormCodec.IsNameChar` has exactly these, not a range `9-_`.

## Model

| member | source | states |
|---|---|---|
| `Worker.HandleStringInput` | worker.py:21-25 | fails exactly when the argument is required and absent, with "A prompt is required" for `prompt` and "Argument --name is required" otherwise; else the supplied value, or the default when absent |
| `Worker.PromptInputNeverMissing` | worker.py:21-24 | a `prompt` string input never fails on arguments from `parse_command_string`, which always sets `prompt` |
| `Worker.HandleStringOutput` | worker.py:27-30 | an accepted string is replied to the job's message |
| `Worker.StringOutputAcceptsIff` | worker.py:28-29 | a string is accepted exactly when it has a non-whitespace character, so one that is empty after stripping is rejected and nothing is sent |
| `Worker.HandleImageInput` | worker.py:32-35 | a non-photo message fails with "This command requires an image"; a photo with no sizes fails, as `max()` of an empty sequence raises; otherwise the result is the file id of the widest size, the first one among equally wide sizes |
| `Worker.HandleIntegerInput` | worker.py:46-59 | an absent argument fails with "Missing argument name" and sends nothing; otherwise a warning reply is sent exactly when the default differs from `integer_min`; the result is Ok exactly when `int()` reads the value; an Ok result is at least `integer_max`, at most the larger bound, and is one of the two bounds or the parsed value |
| `Worker.IntegerRequiredCheckUnreachable` | worker.py:47-50 | the "Argument --name is required" error can never be produced, whatever `required` says |
| `Worker.IntegerInputIsMaximum` | worker.py:57-59 | when `integer_min <= integer_max`, every readable value gives exactly `integer_max` |
| `Worker.ReportSpec` | worker.py:83-97 | what the loop sends for one job opens with its workflow's replies; it is exactly those when the workflow raised nothing, and otherwise ends with `str(e)` replied to the job's message |
| `Worker.ReportsSpec` | worker.py:78-97 | what the loop sends for a batch opens with the first job's report, and jobs that report nothing add nothing |
| `Worker.ReportsAppend` | worker.py:78-97 | what the loop sends for two batches of jobs is what it sends for the first, then for the second |
| `Worker.FailureIsReportedAndLoopContinues` | worker.py:83-97 | a job whose workflow raises gets its replies, then `str(e)` sent to its own message, and the jobs before and after it are reported in order, unchanged |
| `Worker.ComfyWorker.constructor` | worker.py:70-73 | the queue starts empty |
| `Worker.ComfyWorker.Execute` | worker.py:75-76 | the job is appended at the tail of the queue and to the submission history; the invariant `taken + data == submitted` is kept |
| `Worker.ComfyWorker.Step` | worker.py:78-97 | on an empty queue nothing changes; otherwise the head is removed, recorded as taken exactly once, and its report is sent, keeping `taken + data == submitted` (FIFO order) |
| `Worker.ComfyWorker.Drain` | worker.py:78-97 | running the loop until the queue is empty takes every queued job in submission order and sends their reports in that order |
| `BotUtils.GetUsername` | backed_bot_utils.py:7-10 | the username when there is one, else the first name |
| `BotUtils.Segments` | backed_bot_utils.py:56 | splitting the stripped text after the command on "--" yields at least the free-text segment |
| `BotUtils.AddArguments` | backed_bot_utils.py:64-70 | the loop over the segments never removes a key |
| `BotUtils.Parsed` | backed_bot_utils.py:55-72 | the parsed dictionary always has `prompt` |
| `BotUtils.ParseCommandString` | backed_bot_utils.py:55-72 | the loop builds exactly the dictionary `Parsed` describes |
| `BotUtils.AddArgumentsKeys` | backed_bot_utils.py:64-70 | the loop only adds keys, and each new key is the first token of some segment with at least two tokens |
| `BotUtils.AddArgumentsUntouched` | backed_bot_utils.py:64-70 | a key that no segment names keeps its presence and its value |
| `BotUtils.AddArgumentsLastWins` | backed_bot_utils.py:64-70 | a key holds the value of the last segment that names it |
| `BotUtils.ParsedKeys` | backed_bot_utils.py:57-70 | the result always has `prompt`; every other key is named by a later segment with at least two tokens, so shorter segments add no key |
| `BotUtils.ParsedPromptIsFreeText` | backed_bot_utils.py:58-62 | unless a `--prompt` segment overrides it, `prompt` is the stripped text before the first "--" |
| `BotUtils.ParsedLastSegmentWins` | backed_bot_utils.py:62-70 | a later segment overwrites an earlier one with the same name, and a `--prompt` segment overwrites the free text |
| `BotUtils.SegmentValueClean` | backed_bot_utils.py:68-69 | a segment's value, its tokens joined by single spaces, has no "--" and no surrounding whitespace |
| `BotUtils.AddArgumentsClean` | backed_bot_utils.py:64-70 | the loop keeps every value free of "--" and of surrounding whitespace |
| `BotUtils.ParsedValuesClean` | backed_bot_utils.py:56-70 | no parsed value contains "--" or leading or trailing whitespace |
| `Middlewares.LastDatesOf` | middlewares.py:14-24 | a user has a stored date exactly when one of their messages was accepted, and the date is that of one of them |
| `Middlewares.LastDates` | middlewares.py:18-24 | with no accepted message nobody has a date; otherwise the sender of the latest accepted message has that message's date |
| `Middlewares.LastDatesAfterStart` | middlewares.py:15-24 | every stored date is at least `start_time` |
| `Middlewares.AntiFlood.constructor` | middlewares.py:7-12 | `last_time` starts empty, with the given start time and limit |
| `Middlewares.AntiFlood.PreProcess` | middlewares.py:14-24 | a message dated before the start is cancelled, with `last_time` untouched; a user's first message passes and records its date; one less than `limit` seconds after the stored date is cancelled with the flood warning and `last_time` unchanged; any other passes and records its date; only the sender's entry changes; the invariant is kept: `last_time` is the last accepted date per user, all accepted dates are after the start, and one user's accepted messages are `limit` apart |
| `Middlewares.AntiFlood.Accept` | middlewares.py:18-24 | recording an accepted message sets the sender's date and keeps the invariant |
| `FormCodec.ArgumentType` | preprocess.py:202-207 | the four mapped class names give String, Integer, Photo and Photo, and every other name gives none |
| `FormCodec.Unquote` | preprocess.py:211 | removing both quote characters leaves none |
| `FormCodec.DefaultValue` | preprocess.py:213-214 | the `string` argument if non-empty, else the `integer` argument, else 1 |
| `FormCodec.Render` | preprocess.py:223 | the joined `k: v` lines are empty exactly when there are no entries |
| `FormCodec.Serialized` | preprocess.py:201-223 | serializing raises `NotImplementedError` exactly when some node with an argument name other than `prompt` has an unmapped class name |
| `FormCodec.AddNode` | preprocess.py:210-222 | adding one node fails exactly when it has an argument name other than `prompt` and an unmapped class name |
| `FormCodec.SerializeInputNodes` | preprocess.py:201-223 | the loop returns exactly the text (or `NotImplementedError`) that `Serialized` describes |
| `FormCodec.AddNodesKeepsPrefix` | preprocess.py:209-222 | the entries already in the form, and their order, are kept |
| `FormCodec.AddNodesKeepsPrompt` | preprocess.py:217-218 | an argument named `prompt` never overwrites the form's prompt |
| `FormCodec.AddNodesErrIff` | preprocess.py:219-221 | the loop raises exactly when some node is unmapped |
| `FormCodec.SerializedShape` | preprocess.py:208-223 | serializing fails exactly when some node is unmapped; otherwise the form starts with `String command`, `String id` and `String prompt`, in that order, and the prompt line holds the given prompt |
| `FormCodec.MatchField` | preprocess.py:228 | a match of the field pattern consumes at least one character and stays within the text |
| `FormCodec.MatchFieldWellFormed` | preprocess.py:228 | a field match has a type of letters, a name of the class `[a-zA-Z0-9-_]` and a non-empty value without a newline |
| `FormCodec.FindFields` | preprocess.py:228 | `re.finditer` finds at most one field per character of the text, each well-formed |
| `FormCodec.MatchPrompt` | preprocess.py:233 | a prompt match yields a non-empty name of the name class |
| `FormCodec.MatchPromptShape` | preprocess.py:233 | a prompt match is a run of letters, a space, the name and `?`, from the start of the text |
| `FormCodec.FindPrompt` | preprocess.py:233-234 | a found prompt is a non-empty name of the name class |
| `FormCodec.FindPromptFirst` | preprocess.py:233-234 | `re.search`: no prompt exactly when no position of the text matches; otherwise the match at the first position that matches |
| `FormCodec.Collect` | preprocess.py:228-231 | both tables stay well-formed ordered dictionaries |
| `FormCodec.CollectNames` | preprocess.py:228-231 | a name is in the value table, and in the type table, exactly when it was there before or some field line names it |
| `FormCodec.Deserialized` | preprocess.py:225-235 | the value table's keys are the field names in first-appearance order, and the type table has the same keys |
| `FormCodec.DeserializeInputChainMessage` | preprocess.py:225-235 | the loop returns exactly what `Deserialized` describes |
| `FormCodec.CollectKeys` | preprocess.py:228-231 | the value and type tables gain the same keys and lose none |
| `FormCodec.CollectUntouched` | preprocess.py:228-231 | a name no field line mentions keeps its value and type |
| `FormCodec.CollectLastWins` | preprocess.py:229-231 | a name holds the value and type of its last field line |
| `FormCodec.CollectKeyOrder` | preprocess.py:228-231 | the keys are in first-appearance order |
| `FormCodec.CollectDistinctKeys` | preprocess.py:228-231 | with distinct names, the keys are the names in line order |
| `FormCodec.MatchLine` | preprocess.py:228 | a well-formed `Type name: value` line is matched whole and read back as that field |
| `FormCodec.FindFieldsRender` | preprocess.py:223-231 | scanning rendered well-formed fields finds exactly those fields, in order |
| `FormCodec.DeserializeRender` | preprocess.py:201-235 | round trip: deserializing a rendered form with distinct well-formed names gives back the same names in order, with the same values and types |
| `FormCodec.MatchFieldNeedsColon` | preprocess.py:228 | a line without a colon holds no field match |
| `FormCodec.MatchPromptNeedsQuestionMark` | preprocess.py:233 | a line without a `?` holds no prompt match |
| `FormCodec.SkipLineWithoutField` | preprocess.py:228 | a line without a colon contributes no field |
| `FormCodec.NoFieldInLastLine` | preprocess.py:228 | a last line without a colon contributes no field |
| `FormCodec.SkipLineWithoutPrompt` | preprocess.py:233 | the prompt search passes over a line without a `?` |
| `FormCodec.PromptLineAsks` | preprocess.py:233-234 | `Type name?` yields `name` as the prompt |
| `FormCodec.FindPromptStable` | preprocess.py:233 | the search takes the first match: text appended after it does not change the prompt |
| `FormCodec.LastLine` | image_menu.py:162 | the last line of a text holds no newline |
| `FormCodec.AwaitedName` | image_menu.py:162-168 | (corrected) an awaited slot is a non-empty name of the name class |
| `FormCodec.AwaitedNameFirst` | image_menu.py:162-168 | (corrected) the awaited slot is the first prompt match that starts in the last line; there is none when no position of the last line matches |
| `Preprocess.MatchHookCall` | preprocess.py:100 | `NODE_CLASS_MAPPINGS[ "hook" ]()`, with any whitespace inside the brackets, is matched whole |
| `Preprocess.HookCallReplaced` | preprocess.py:98-100 | each such call of a listed hook becomes `hooks["hook"]` |
| `Preprocess.OtherHookUntouched` | preprocess.py:98-100 | a call of another hook is not matched |
| `Preprocess.SubHook` | preprocess.py:100 | a match at the start of the text becomes `hooks["hook"]`; text without `NODE_CLASS_MAPPINGS[` is left as it is |
| `Preprocess.SubHooks` | preprocess.py:98-100 | the hook loop leaves text without `NODE_CLASS_MAPPINGS[` as it is |
| `Preprocess.RewriteWorkflow` | preprocess.py:94-100 | the rewrite fails (`str.index`) exactly when "def find_path" or "def main" is missing |
| `Preprocess.RewriteOnlyCuts` | preprocess.py:94-97 | when the rest holds nothing to rename, drop or hook, the rewrite is exactly the text with the region from the first "def find_path" up to the first "def main" removed |
| `Preprocess.FirstAtUnique` | preprocess.py:94 | `str.index` finds the first occurrence |
| `Preprocess.PreprocessWorkflows` | preprocess.py:86-108 | the loop over the directory listing returns exactly what `PreprocessFrom` describes |
| `Preprocess.PreprocessFrom` | preprocess.py:89-103 | on success the commands and files so far are kept as prefixes and grow by the same number, at most one per listed file; a failure is always `str.index`'s "substring not found" |
| `Preprocess.PreprocessOutput` | preprocess.py:89-103 | when every workflow rewrites, the commands are the stems of the non-hidden `.py` files in listing order, and each is written as its rewritten text |
| `Preprocess.PreprocessErrIff` | preprocess.py:94 | preprocessing fails exactly when some workflow lacks a marker |
| `Preprocess.ArgumentCache.constructor` | preprocess.py:143 | the module global starts unset |
| `Preprocess.ArgumentCache.Analyze` | preprocess.py:144-153 | the first call computes the table over the scripts, skipping stems starting with `__` and keying by the stem without `appio_`; later calls return the cached table unchanged |
| `Preprocess.AnalyzeTwice` | preprocess.py:144-153 | two calls return the same table, whatever the directory holds at the second |
| `Preprocess.GuideNamesAsWritten` | preprocess.py:179-181 | as written, the second loop is empty whenever the first loop's last `command` is not a guide |
| `Preprocess.GuideNamesAsWrittenWrong` | preprocess.py:180 | as written, a guide can be dropped and a plain command listed as a guide, depending only on the order of the configuration |
| `Preprocess.CommandNames` | preprocess.py:176-178 | every listed command is a configured name, not a guide and not `get_user_info` |
| `Preprocess.GuideNames` | preprocess.py:179-181 | (corrected) every listed guide is a configured name, a guide and not `get_user_info` |
| `Preprocess.CommandNamesSpec` | preprocess.py:176-178 | the command names are exactly the configured names that are not guides and not `get_user_info`, with their display names |
| `Preprocess.GuideNamesSpec` | preprocess.py:179-181 | (corrected) the guide names are exactly the configured guides other than `get_user_info`, with their display names |
| `Preprocess.GetDisplayNames` | preprocess.py:173-182 | the two loops return the command and (corrected) guide tables |
| `ImageMenu.TitleLineLength` | image_menu.py:15-17 | when the padding is not negative, the title line is `length` or `length - 1` long |
| `ImageMenu.DefaultTitle` | image_menu.py:15-17 | with the defaults the title has 10 dashes on each side and a 30-character line |
| `ImageMenu.AskText` | image_menu.py:118-125 | a form message opens with "INPUT CHAIN" on its own line and ends with the question on its own line |
| `ImageMenu.DoneText` | image_menu.py:179-185 | the completion message opens with "Form completed!" on its own line and ends with "Executing..." on its own line |
| `ImageMenu.Received` | image_menu.py:145-146 | the text read back holds no backquote |
| `ImageMenu.ReceivedPlain` | image_menu.py:145-146 | a text without backquotes reads back unchanged |
| `ImageMenu.ReceivedLine` | image_menu.py:145-146 | reading back works line by line |
| `ImageMenu.ReceivedAskLine` | image_menu.py:118 | the question `` Type `name`? `` comes back as `Type name?` |
| `ImageMenu.ReceivedAskText` | image_menu.py:119-125 | a form message comes back as the prefix, the title line, the form, the rule and the question, one per line |
| `ImageMenu.AskTextFields` | image_menu.py:163-169 | the fields read back from a form message are the fields sent |
| `ImageMenu.AskTextAwaits` | image_menu.py:162-169 | the question on the last line of a form message names the slot asked for |
| `ImageMenu.AskTextReadsBack` | image_menu.py:145-146 | a form message read back starts with "INPUT CHAIN", decodes to the form sent, and awaits the slot asked for |
| `ImageMenu.PromptInAnswer` | preprocess.py:233 | an earlier answer such as `a b?` makes the prompt search stop inside the form, at `b` |
| `ImageMenu.PromptHijackedAsWritten` | image_menu.py:146 | as written, the slot taken from the first `Type name?` match is the one inside an earlier answer, not the one asked for |
| `Telegram.WidestIndex` | image_menu.py:154 | `max(..., key=width)`: the first size of the greatest width |
| `Telegram.WidestFileId` | special_commands.py:20 | the widest size's file id; an error exactly when the photo has no sizes |
| `MenuHandlers.MessageIds` | image_menu.py:50 | the ids of the chain's messages, in order |
| `MenuHandlers.PhotoMessageChain.constructor` | image_menu.py:77 | a new chain for the photo, with no messages and no auto-close job |
| `MenuHandlers.PhotoMessageChain.Append` | image_menu.py:52-53 | the message is appended to the chain and nothing else changes |
| `MenuHandlers.PhotoMessageChain.DeleteCalls` | image_menu.py:48-50 | one `delete_messages` call for the chat of the photo, with all chain message ids, exactly when the chain is not empty |
| `MenuHandlers.MenuButtons` | image_menu.py:80-81 | one button per command in table order, its data the command, a bar and the chain id; then a `close` button |
| `MenuHandlers.MenuText` | image_menu.py:82-85 | the menu message opens with the mention on its own line and ends with the prompt in backquotes |
| `MenuHandlers.DecodedKeys` | preprocess.py:228-231 | the decoded value and type tables have the same keys |
| `MenuHandlers.CommandJob` | image_menu.py:135-136 | the job exists exactly when the form has `command` |
| `MenuHandlers.IndexOf` | image_menu.py:159 | `list.index`: the first position of the key |
| `MenuHandlers.FormFields` | image_menu.py:160 | the form's fields in key order, each with its type and value |
| `MenuHandlers.SummaryFields` | image_menu.py:175-178 | the summary lists every form entry except `id` and the `Photo`-typed ones |
| `MenuHandlers.FirstQuestion` | image_menu.py:114-139 | a form with more than three keys asks for its fourth; otherwise it runs at once with "Executing..." and the form's job |
| `MenuHandlers.Choice` | image_menu.py:101-139 | a press acts only when its data splits on the bar into a command and a chain id, the chain exists and the presser wrote the photo; `close` closes the menu; a form is started only for a command of the table whose form serializes |
| `MenuHandlers.SlotValue` | image_menu.py:150-156 | a `Photo` slot gets "TG-" and the widest size's file id; other slots get the caption of a photo or the text |
| `MenuHandlers.NextQuestion` | image_menu.py:158-195 | after filling a slot, ask exactly when a key follows it in form order, else queue the completed form's job |
| `MenuHandlers.Answer` | image_menu.py:143-195 | a reply whose replied-to text does not start with "INPUT CHAIN" is ignored; only the photo's author acts on a chain; a rejection happens only for a non-photo answer |
| `MenuHandlers.MenuButtonLeadsBack` | image_menu.py:80-114 | pressing a menu button reaches its chain: `close` closes it, an unknown command does nothing, and a known one starts its form exactly when the form serializes |
| `MenuHandlers.FirstQuestionOfForm` | image_menu.py:114-127 | for a form with more than three fields, the first question asks for the fourth field; otherwise the job runs |
| `MenuHandlers.FilledFields` | image_menu.py:154-160 | filling one slot of a decoded form changes that field's value only |
| `MenuHandlers.AnswerReads` | image_menu.py:145-150 | a reply to a form message decodes to the form sent, its `id` and the awaited slot and type |
| `MenuHandlers.FilledForm` | image_menu.py:154-162 | after a slot is filled, its position in the form is its field's position and the next key is the next field |
| `MenuHandlers.NextQuestionOfForm` | image_menu.py:158-185 | after field k is filled, field k+1 is asked for; after the last one, the summary of the filled form is sent |
| `MenuHandlers.AnswerReachesNext` | image_menu.py:143-160 | a valid answer to a form message leads to the next-question step for that slot and value |
| `MenuHandlers.AnswerStepsForm` | image_menu.py:143-195 | a valid answer fills the awaited slot, then asks for the next field in form order, or completes the form with its summary and queues the job |
| `MenuHandlers.AnswerRejectsNonPhoto` | image_menu.py:150-153 | a non-photo answer to a `Photo` slot is rejected: an error to the chat, the chain deleted, no job |
| `MenuHandlers.Menu.constructor` | image_menu.py:59-66 | no chains and nothing sent |
| `MenuHandlers.Menu.ImageMenu` | image_menu.py:68-96 | a non-photo message changes nothing; a photo gets a menu reply with one button per command and a close button, and a new chain under its message id holding that reply, with the reply as its auto-close target; other chains are kept |
| `MenuHandlers.Menu.React` | image_menu.py:101-195 | carries out a decision: ignoring changes nothing; closing deletes the menu message; a rejection sends the error and deletes the chain; a question is replied and appended to the chain; a run deletes the chain, replies, appends, and queues the job on the worker |
| `MenuHandlers.Menu.CallbackQuery` | image_menu.py:101-139 | the handler carries out `Choice` on the current chains |
| `MenuHandlers.Menu.InputChain` | image_menu.py:143-195 | the handler carries out `Answer` on the current chains |
| `Auth.CheckUserId` | auth_manager.py:102-111 | "*" always passes; otherwise the id fails if `int()` cannot read it or it is negative, if it is the admin, or if a given store lacks it, and passes in every other case |
| `Auth.CheckAdmin` | auth_manager.py:73-77 | only the user whose id is the configured admin id passes |
| `Auth.AdminIsOneUser` | auth_manager.py:73-77 | two senders who pass the admin check have the same id |
| `Auth.NobodyAdminWhenUnset` | auth_manager.py:73-77 | with no admin configured nobody passes |
| `Auth.PlainIdAccepted` | auth_manager.py:102-111 | a non-negative decimal id that is not the admin passes, given it is in the store when one is given |
| `Auth.Updated` | auth_manager.py:55-60 | the old name is kept when the new one is falsy; `is_allowed` and the advanced info are overwritten |
| `Auth.Seeded` | auth_manager.py:46-52 | an empty store gets the admin as an allowed user with the permanent advanced period; a non-empty one is unchanged |
| `Auth.AllowEntryOf` | auth_manager.py:128-140 | a piece whose id passes is stored as the stripped id (without a leading '-', which bans) with the name stripped of backticks and no advanced info |
| `Auth.PlainIdShape` | auth_manager.py:128-137 | a decimal id has no '-', '/', surrounding whitespace, and is not "*" |
| `Auth.AllowedPair` | auth_manager.py:128-131 | a piece without '/' always unpacks, with the piece itself as the id; a piece with '/' unpacks only into the text around its one '/' |
| `Auth.AllowEntry` | auth_manager.py:133-140 | a piece fails exactly when it does not unpack; otherwise the table is unchanged or only the entry of one id that passes the check is set |
| `Auth.AddAllowedFrom` | auth_manager.py:128-140 | the loop completes exactly when every piece unpacks |
| `Auth.AllowNamed` | auth_manager.py:128-140 | "id/name" allows the user under that name |
| `Auth.BanNamed` | auth_manager.py:128-140 | "-id/name" bans the user under that name |
| `Auth.AllowUnnamed` | auth_manager.py:128-140 | a bare id is allowed as "Name_Unknown" |
| `Auth.AllowEveryone` | auth_manager.py:128-140 | "*" is allowed as "Everyone" |
| `Auth.CleanConstantName` | auth_manager.py:137 | the constant names pass the name cleaning unchanged |
| `Auth.AllowEntryChanges` | auth_manager.py:128-140 | one piece never deletes an entry, and any entry it changes passes the id check, has no advanced info and a clean name |
| `Auth.AddAllowedChanges` | auth_manager.py:124-142 | the whole loop never deletes, and every changed entry passes the id check, has no advanced info, and has a name without backticks or surrounding whitespace |
| `Auth.AddAllowedKeepsAdmin` | auth_manager.py:136 | the admin record is never touched |
| `Auth.IdList` | auth_manager.py:147-149 | every listed id is stripped |
| `Auth.RemoveFrom` | auth_manager.py:150-157 | the loop never adds an id, and it stops early only when "*" is listed |
| `Auth.RemoveFromSpec` | auth_manager.py:150-157 | only listed ids that pass the check are deleted; kept entries are unchanged; when the loop completes, every listed stored id that passes is gone; it stops early only on a "*" |
| `Auth.RemoveEveryone` | auth_manager.py:150-155 | "everyone" keeps only a subset of the entries, unchanged |
| `Auth.RemoveKeepsAdmin` | auth_manager.py:154 | neither removal deletes the admin |
| `Auth.AdvancedPair` | auth_manager.py:164-168 | the id is stripped; a piece without '/' gets the day count `float("1")` and its stripped self as the id |
| `Auth.AdvancedPairs` | auth_manager.py:164-168 | all pieces parse to (id, days), index by index, or the parse fails on some piece before any edit |
| `Auth.BannedNoticeAsWrittenDropsDigit` | auth_manager.py:177 | as written, the notice for user "12" names user "2" |
| `Auth.BannedNoticeNamesUser` | auth_manager.py:177 | (corrected) different users get different notices |
| `Auth.BannedNotice` | auth_manager.py:177 | (corrected) the notice opens with "User", then the whole id between backquotes |
| `Auth.BannedNoticeAsWritten` | auth_manager.py:177 | as written, the notice is the corrected one for the id without its first character |
| `Auth.AdvanceStep` | auth_manager.py:172-182 | an id failing the check is skipped; a banned user is left unchanged with a notice; any other id, known or created as "Unknown_Name", becomes allowed with an advanced period from now |
| `Auth.AddAdvancedChanges` | auth_manager.py:172-182 | nothing is deleted, banned users stay unchanged, and every changed entry passes the check, is allowed, has an advanced period and keeps its name or is "Unknown_Name" |
| `Auth.AddAdvancedFrom` | auth_manager.py:172-182 | the loop keeps every id and adds only listed ids |
| `Auth.AddAdvancedKeepsAdmin` | auth_manager.py:173 | the admin record is never touched |
| `Auth.AddAdvancedLast` | auth_manager.py:172-182 | the last listed eligible user ends with the last advanced period given |
| `Auth.ClearAdvancedAsWrittenUnbans` | auth_manager.py:192-198 | as written, clearing a banned user's advanced period allows them again |
| `Auth.ClearAdvancedAsWrittenDemotesAdmin` | auth_manager.py:192-198 | as written, the admin's own advanced period can be cleared |
| `Auth.ClearAdvancedAsWritten` | auth_manager.py:192-198 | as written, the ids are unchanged, and the loop completes exactly when every listed id is stored (`update_user_info` raises `KeyError` otherwise) |
| `Auth.ClearAdvanced` | auth_manager.py:192-198 | (corrected) the ids are unchanged |
| `Auth.ClearAdvancedSpec` | auth_manager.py:187-200 | (corrected) keys, names and ban states are kept; unlisted entries and those failing the check are unchanged; listed ones passing it lose their advanced period |
| `Auth.AuthManager.constructor` | auth_manager.py:46-52 | the manager holds the admin id and the stored table |
| `Auth.AuthManager.AllowedUserDbm` | auth_manager.py:46-52 | the table is seeded as `Seeded` says |
| `Auth.AuthManager.UpdateUserInfo` | auth_manager.py:55-60 | fails (`KeyError`) exactly when the id is absent, changing nothing; otherwise only that entry changes, as `Updated` says |
| `Auth.AuthManager.AddAllowed` | auth_manager.py:124-142 | a non-admin changes nothing; the admin's pieces are applied in order to the seeded table, and a piece that does not unpack stops the loop with the earlier writes kept |
| `Auth.AuthManager.RemoveAllowed` | auth_manager.py:145-159 | a non-admin changes nothing; "everyone" applies the removal to every stored id; otherwise the listed ids are removed in order from the seeded table |
| `Auth.AuthManager.RemoveAll` | auth_manager.py:150-157 | the loop over a snapshot of the stored keys leaves exactly `RemoveEveryone` |
| `Auth.AuthManager.AddAdvanced` | auth_manager.py:162-184 | a non-admin changes nothing; a piece that does not parse raises before any edit; otherwise the pairs are applied in order to the seeded table, with the notices as the reply |
| `Auth.AuthManager.AdvanceAll` | auth_manager.py:172-182 | the loop applies every pair in order and joins the notices |
| `Auth.AuthManager.AdvanceOne` | auth_manager.py:173-182 | one pair, as `AdvanceStep` says |
| `Auth.AuthManager.RemoveAdvanced` | auth_manager.py:187-200 | (corrected) a non-admin changes nothing; the admin's listed ids are cleared as `ClearAdvanced` says |
| `Special.FullImageId` | special_commands.py:10-11 | the key is the user id, a colon, then the image id |
| `Special.FullImageIdInjective` | special_commands.py:10-11 | different (user, image id) pairs never share a key, so each user's ids are their own |
| `Special.Listing` | special_commands.py:55-58 | an empty store lists nothing; otherwise the listing opens with the first entry's line, and is that line alone for one entry |
| `Special.PieceEntry` | special_commands.py:68-72 | a piece fails exactly when it does not unpack; a piece without '/' gives its stripped self as the id; ids and names are stripped and names hold no backquote |
| `Special.NewNames` | special_commands.py:68-72 | the new names exist exactly when every piece unpacks |
| `Special.Entries` | special_commands.py:68-72 | every piece unpacks, index by index, or the command raises |
| `Special.DictOf` | special_commands.py:72 | the built dictionary maps each id to the last name given for it |
| `Special.ValuesOfKeys` | special_commands.py:72 | an id is present exactly when some piece names it |
| `Special.ValuesOfLastWins` | special_commands.py:72 | each id holds the name of its last piece |
| `Special.Update` | special_commands.py:73 | `update` keeps the old keys first, in their order |
| `Special.PieceIds` | special_commands.py:89 | there is at least one id, and every id is stripped |
| `Special.RemovedFrom` | special_commands.py:86-92 | the admin's entry is kept unchanged |
| `Special.UpdateSpec` | special_commands.py:73 | `update` keeps the old keys first, in order, adds the new ones, and takes the new name wherever one is given |
| `Special.RemovedFromSpec` | special_commands.py:86-92 | exactly the listed ids that are present and not the admin are removed |
| `Special.RemoveEveryoneKeepsOnlyAdmin` | special_commands.py:86-92 | "everyone" removes every entry but the admin's |
| `Special.SpecialCommands.constructor` | special_commands.py:105-111 | the stores are as given and nothing is sent |
| `Special.SpecialCommands.SetImageId` | special_commands.py:13-26 | a non-photo message is refused first, then an empty or whitespace-only id, storing nothing; otherwise the widest size's file id is stored under the user's key, overwriting any earlier one, and confirmed |
| `Special.SpecialCommands.GetImageId` | special_commands.py:28-47 | an empty id is refused; an unknown key gets "isn't set"; otherwise the stored file id is returned |
| `Special.SpecialCommands.GetAllowed` | special_commands.py:49-61 | a non-admin gets nothing; the admin gets the listing, or the no-users text for an empty store |
| `Special.SpecialCommands.AddAllowed` | special_commands.py:63-78 | a non-admin changes nothing; a bad piece raises and changes nothing; otherwise the parsed names are merged into the store and the listing is sent |
| `Special.SpecialCommands.RemoveAllowed` | special_commands.py:80-102 | a non-admin changes nothing; the admin's ids ("everyone" being every stored id) are removed unless absent or the admin, and the reply lists what is left |
| `Special.SpecialCommands.RemoveIds` | special_commands.py:86-92 | the deletion loop leaves exactly `RemovedFrom` |
| `Main.BuildCommands` | main.py:12-14 | `COMMANDS` is the workflow names, then the special command names, then "image_menu", in that order |
| `Main.CommandsAnnounced` | main.py:12-14 | every workflow and special command is in `COMMANDS` |
| `Main.CommandName` | main.py:38-39 | there is no name exactly when there is no text or the text has no word in it |
| `Main.CommandNameOf` | main.py:39 | any leading whitespace, one non-whitespace character (normally '/'), the word `name`, then nothing or whitespace: the command is `name`, so "  /draw x" gives "draw" and "hello" gives "ello" |
| `Main.RouteOf` | main.py:36-44 | replies are left to `input_chain`; `main` raises exactly when there is no command name (no text, or no word in it); free commands are dropped; special names go to their handler; every other name is queued with the message |
| `Main.WorkflowCommandQueued` | main.py:40-44 | "/name args", after any whitespace, for a non-special name queues exactly that name, message and parsed arguments |
| `Main.SpecialCommandHandled` | main.py:40-43 | "/name args", after any whitespace, for a special name goes to its handler with the parsed arguments |
| `Main.Dispatch` | main.py:37-44 | the handler routes as `RouteOf` says, queues on the worker only for a queued route, and sends nothing and takes no job |

## Left out

- Telegram I/O is not modelled beyond an outbox of requests. This covers `reply_to`, `send_photo` and their fallbacks, `delete_messages`, file downloads, and the chat-type dependent `DelayedExecutor`, whose only effect is a delay.
- The worker thread, its busy-wait and `threading` are left out, as is running a workflow. The run is a parameter `run: Job -> RunOutcome` giving the replies the hooks sent and the exception raised. Model clean-up calls and the error-log file are left out.
- `handle_image_output` and the image conversion in `handle_image_input` are left out (PIL, torch, numpy).
- `schedule` timers are left out: the menu's 30-second auto-close, `AutoRevokeAdvanced` and the warm-up jobs in auth_manager.py. The menu's auto-close is modelled as the explicit `close` event.
- `serialize_allowed_users` is left out: its reply texts depend on `datetime` formatting. `AddAdvanced` returns the joined notices instead.
- Clocks are parameters: `now` for `datetime.now()` (one value for a whole command) and the middleware's start time. `float()` on the day count is the parameter `parseDays`.
- Middlewares.AntiFlood: `startTime` is an integer standing for `ceil(time.time())`. Message dates are whole seconds, and for an integer date, `date < t` holds exactly when `date < ceil(t)`, so the comparison is the source's.
- The dbm stores are in-memory maps. auth_manager.py and special_commands.py both open a store named "allowed_users" with different value types; the model keeps two separate tables.
- Storing a `UserInfo` object in a dbm needs bytes or str values and would fail; the model stores the record.
- Auth.AuthManager.RemoveAll: the store is a raw `dbm.open` (backed_bot_utils.py:50-53), whose keys come back as bytes. With "everyone", the comparison with the admin id would then fail, and the admin's own record would be deleted. The model iterates over a snapshot of str keys, as a `shelve` store would give.
- The extraction of input nodes from a script's syntax tree (`get_input_nodes`, `extract_execute_arguments`) is the parameter `inputNodes`, and is not part of this model. So are the dynamic import of the rewritten workflows and `preprocessed_init_code`.
- The directory listing and file contents of `preprocess` and `analyze_argument_from_preprocessed` are inputs; the files written are the result.
- Preprocess.PreprocessFrom: when a workflow lacks a marker, the files already written (preprocess.py:102) stay on disk, but the model's `Err` drops them.
- Preprocess.SubHook: hook names are matched literally. The source escapes only parentheses before building its regular expression, which matters only for hook names with other metacharacters; none of the listed hooks has one.
- `CommandConfig.get_guides`, `get_no_return_original` and the YAML loading are left out; the configuration's display names are an input.
- As written, the bot does not start. image_menu.py:4 imports `mention`, which backed_bot_utils.py does not define (`ImportError`). Past that, image_menu.py:62 calls `middlewares.get_anti_flood()`, which does not exist (`AttributeError`), and main.py:18-27 passes keyword arguments that `AntiFlood.__init__` lacks (`TypeError`). The model follows the evident intent of each call.
- The calls that do not fit their callees are left out:
  - `ImageMenu` passes `pbar_message` and `image_output_callback` to a `ComfyWorker.execute` that takes neither; the model queues the job with its three fields.
  - `middlewares.get_anti_flood` and `AntiFlood.check` do not exist, so the anti-flood checks inside the menu are left out.
  - main.py builds `AntiFlood` with keyword arguments its constructor lacks; the model uses the constructor as declared.
  - `SPECIAL_COMMANDS["image_menu"]` is an unbound method; the route reaches `MenuHandlers.Menu.ImageMenu`.
  - `mention` is not defined in backed_bot_utils.py, so the mention text is a parameter.
  - `handle_exception` is called with two of its four arguments and raises; the model reports that as `raised`.
- PyInt.ParseInt: `int()` is modelled as surrounding whitespace, an optional sign and decimal digits. Underscores between digits, non-ASCII digits and the 4300-digit limit on conversions are not modelled.
- `get_ids` only replies with the chat and user ids, and is not modelled beyond being a free command.
- `DEFAULT_PROMPT` comes from the environment and is a constructor parameter of `MenuHandlers.Menu`.
- MenuHandlers.SlotValue: a photo reply without a caption to a slot that is not `Photo` sets the slot to Python's `None` (image_menu.py:156). The model writes the string "None" instead. That is what the slot reads back as when a later question is asked, but when it is the last slot, the `None` object itself reaches the job (image_menu.py:189-192): there `handle_string_input` returns `None` and `int(None)` raises `TypeError`, where the model's job carries "None" and the integer hook raises `ValueError`.
- ImageMenu.Received: the model assumes that Telegram's Markdown parsing removes the backquotes of a sent message and nothing else, so the text that comes back is the sent text without backquotes.
- Auth.AuthManager.RemoveAdvanced follows the corrected `ClearAdvanced`, not the source as written; the as-written behaviour is `ClearAdvancedAsWritten` (see Findings).
- MenuHandlers.Answer takes the awaited slot from the question on the form message's last line (`FormCodec.AwaitedName`), not from the first `Type name?` match anywhere in the text as written (see Findings).
- Preprocess.GetDisplayNames returns the corrected guide table (see Findings).
- Auth.AdvanceStep uses the corrected ban notice (see Findings).

## Findings

| source | as written | input that shows it | evidently intended | confidence | as-written member | corrected member |
|---|---|---|---|---|---|---|
| preprocess.py:179-181 | the guide loop tests `command`, the first loop's leftover variable, instead of `guide` | display names {"g", "c"} with guide "g": with "c" last, no guide is listed; with "g" last, "c" is listed as a guide | list exactly the configured guides other than `get_user_info` | high, not executed | `Preprocess.GuideNamesAsWritten` (`Preprocess.GuideNamesAsWrittenWrong`) | `Preprocess.GuideNames` (`Preprocess.GuideNamesSpec`) |
| auth_manager.py:187-200 | `remove_advanced` calls `update_user_info` with the default `is_allowed=True` (line 55) and never checks the id | a banned user listed in `remove_advanced`; or the admin's own id | clear the advanced period only, keep ban states, and leave the admin alone as the other commands do | medium, not executed | `Auth.ClearAdvancedAsWritten` (`Auth.ClearAdvancedAsWrittenUnbans`, `Auth.ClearAdvancedAsWrittenDemotesAdmin`) | `Auth.ClearAdvanced` (`Auth.ClearAdvancedSpec`) |
| auth_manager.py:177 | the banned notice prints `user_id[1:]`, dropping the first digit | a banned user with id "12" is reported as "2" | print the whole id | high, not executed | `Auth.BannedNoticeAsWritten` (`Auth.BannedNoticeAsWrittenDropsDigit`) | `Auth.BannedNotice` (`Auth.BannedNoticeNamesUser`) |
| image_menu.py:146 with preprocess.py:233 | the awaited slot is the first `Type name?` match anywhere in the form message | an earlier slot answered with `a b?` makes every later reply fill slot `b` instead of the slot asked for | fill the slot named in the question on the message's last line | medium, not executed | `FormCodec.Deserialized` (`ImageMenu.PromptHijackedAsWritten`) | `FormCodec.AwaitedName` (`ImageMenu.AskTextAwaits`) |
