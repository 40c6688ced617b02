# Capa submissions, staff grading and the video speed menu

This project is a Dafny model of three parts of the edX courseware XModule library.

- **Capa problem submissions** (`capa_module.py`), in modules `Responses` and `Capa`:
  - `Responses` models how a submitted form becomes the answers map:
    - a key's name is the text after its first `_`, less one trailing `[]` or `{}`;
    - a list key keeps every value, a dictionary key keeps its decoded JSON, any other key keeps its single value;
    - a missing name, an undecodable document or two keys with the same name are errors.
  - `Capa` models the problem's state machine as a class `CapaModule`:
    - `CheckProblem`, `SaveProblem`, `ResetProblem` and `RescoreProblem` change the attempts, the done flag, the seed, the stored answers and the score, each behind its guards and with its messages;
    - the pure rules: when a problem is closed or past due, and the show-answer table;
    - the handler table of `handle_ajax`;
    - the descriptor's `backcompat_paths` and `filter_templates`.
- **Staff grading** (`staff_grading_module.py`), in module `StaffGrading`:
  - the SimpleDB status table becomes the `items` sequence of a `FileStatus` class;
  - `get_all_status` is modelled twice, as the select text it builds and as the filter its conditions select (the two agree for values without a `'`);
  - `update_status` edits the first matching record in place;
  - the module class `StaffGradingModule` covers the stored score and `update_score`, `is_graded`, `is_past_due` and the `score`, `unscore` and `download` handlers;
  - module-level functions give the `handle_ajax` routing, the conditions the handlers add, the close date and the file and item names.
- **The video speed menu** (`08_video_speed_control.js`), in module `SpeedControl`:
  - a class `VideoSpeedControl` holds the rendered entries in document order, the open flag, the keyboard focus, the current speed and the speed-change events fired;
  - every handler is a method;
  - the cyclic index functions are pure.

`Wrappers` holds the `Option` and `Result` types.

Some things are not part of the model and come in as values:
- Time is an integer number of seconds, passed in by the caller.
- Python's `json.loads`, `float` and `urllib.quote` are function parameters.
- The problem engine (`LoncapaProblem`) is an oracle. Its grading outcome, queue state, regenerated seed and score are parameters.
- The player's number formatting of a speed is a function parameter.

The request form (a webob MultiDict) is a list of (key, value) pairs. A plain lookup gives the last value under a key, and `getall` gives all of them in order.

`capa_module.py` uses several names it never imports:
- `datetime` and `UTC`;
- `convert_files_to_filenames`;
- `StudentInputError`, `ResponseError` and `LoncapaProblemError`;
- `cgi` and `traceback`.

The model follows the evident intent: the names are available. Two of these gaps are stated as findings below.

`staff_grading_module.py` imports pytz's `UTC` (line 22), which is the UTC time zone object rather than a class, and then calls `UTC()` in `is_past_due` (line 199). The model follows the evident intent there too; the third finding below states the gap. pytz itself is not part of this model.

## Model

| member | source | states |
|---|---|---|
| `Responses.MakeDictOfResponses` | common/lib/xmodule/xmodule/capa_module.py:273-354 | Visiting each distinct key once, in any order, succeeds exactly when the form is acceptable. It then returns the answers map (one entry per key under its name). Otherwise the error is one the source raises in some visiting order: a key without a name part, an undecodable document (with its value), or a name shared by two keys whose values were both read |
| `Responses.AllValues` | common/lib/xmodule/xmodule/capa_module.py:334 | Definition: `getall`, the values of the pairs under the key in submission order. `AllValuesMembers` and `AllValuesLast` state what it returns |
| `Responses.AllValuesMembers` | common/lib/xmodule/xmodule/capa_module.py:334-335 | `getall` returns exactly the values submitted under the key |
| `Responses.LastValue` | common/lib/xmodule/xmodule/capa_module.py:338-345 | A plain lookup of a present key returns a value submitted under that key; `LastValueIsLast` states which one |
| `Responses.LastValueIsLast` | common/lib/xmodule/xmodule/capa_module.py:338-345 | The lookup returns the value of the last pair submitted under the key: no later pair has that key |
| `Responses.AllValuesLast` | common/lib/xmodule/xmodule/capa_module.py:334-345 | The last value `getall` returns belongs to the last pair submitted under the key, so `data[key]` is the last of `getall(key)` |
| `Responses.AfterUnderscoreSplits` | common/lib/xmodule/xmodule/capa_module.py:313-321 | The name part is empty when the key has no underscore, and is otherwise exactly the text after the first underscore |
| `Responses.AfterUnderscorePrefix` | common/lib/xmodule/xmodule/capa_module.py:314-315 | A prefix without underscores does not change the name part |
| `Responses.InputKey` | common/lib/xmodule/xmodule/capa_module.py:280-282 | The name part of `input_<name>` is `<name>` |
| `Responses.AnswerName` | common/lib/xmodule/xmodule/capa_module.py:330-332 | The answer name is the name part with its `[]` or `{}` suffix removed, or the whole name part when it has neither |
| `Responses.AnswersOnePerKey` | common/lib/xmodule/xmodule/capa_module.py:347-352 | An accepted form has exactly as many answers as distinct keys, and each key's value is under its own name |
| `Responses.NamesCardinality` | common/lib/xmodule/xmodule/capa_module.py:347-352 | Distinct keys with distinct answer names give as many names as keys |
| `Responses.AnswerValueBySuffix` | common/lib/xmodule/xmodule/capa_module.py:334-345 | A list key's answer holds exactly its submitted values, a dictionary key's answer holds the decoding of its last value, any other key's answer is its last value |
| `Responses.RejectedHasCause` | common/lib/xmodule/xmodule/capa_module.py:313-352 | Every form that is not acceptable exhibits one of the three ValueErrors: no underscore, an undecodable document, or a shared answer name |
| `Responses.ResponseError.Message` | common/lib/xmodule/xmodule/capa_module.py:319-350 | Definition: the ValueError texts, one per cause. `CheckProblemAsWritten` raises with them |
| `Responses.AfterUnderscore` | common/lib/xmodule/xmodule/capa_module.py:315 | Definition: the third part of `key.partition('_')`. `AfterUnderscoreSplits` and `AfterUnderscorePrefix` state what it is |
| `Responses.KeyValue` | common/lib/xmodule/xmodule/capa_module.py:332-345 | Definition: a list key's values, a dictionary key's decoded document (none when it does not decode), or a plain key's value. `AnswerValueBySuffix` states it for accepted forms |
| `Responses.UnderscorelessKeyRejected` | common/lib/xmodule/xmodule/capa_module.py:299-302 | A key such as `input` makes the form unacceptable |
| `Responses.ListKeyAccepted` | common/lib/xmodule/xmodule/capa_module.py:284-290 | The documented form `{'input_1[]': 'test'}` is acceptable; its key is named `1` and holds `['test']` |
| `Responses.SingleKeyAcceptable` | common/lib/xmodule/xmodule/capa_module.py:313-352 | A form with one distinct key, with a name part and a value, is acceptable |
| `Responses.SingleKeyAnswers` | common/lib/xmodule/xmodule/capa_module.py:347-352 | A form with one distinct key gives the one-entry map from its name to its value |
| `Responses.SingleListKey` | common/lib/xmodule/xmodule/capa_module.py:284-290 | A one-pair form with a list key is acceptable, and its answers map the key's name to the one-element list of its value |
| `Responses.ListKeyExample` | common/lib/xmodule/xmodule/capa_module.py:284-290 | The documented example gives exactly `{'1': ['test']}` |
| `Responses.CollidingKeysRejected` | common/lib/xmodule/xmodule/capa_module.py:304-306 | `input_1` next to `input_1[]` is rejected rather than one overwriting the other |
| `Responses.SharedNameRejected` | common/lib/xmodule/xmodule/capa_module.py:347-350 | Two distinct keys with the same answer name make any form unacceptable |
| `Responses.UndecodableNotDuplicate` | common/lib/xmodule/xmodule/capa_module.py:336-348 | In a two-key form, an undecodable document rules out the duplicate-name error: it raises before a second name can be stored |
| `Capa.EscapeIsMarkupFree` | common/lib/xmodule/xmodule/capa_module.py:424 | The escaped traceback shown to staff holds no `<` or `>`, and is never shorter than the traceback |
| `Capa.EscapeKeepsPlainText` | common/lib/xmodule/xmodule/capa_module.py:424 | Text without `&`, `<` and `>` is shown unchanged |
| `Capa.Escape` | common/lib/xmodule/xmodule/capa_module.py:424 | Definition: `cgi.escape` without quotes, replacing `&`, `<` and `>` by entities. Its properties are stated by `EscapeIsMarkupFree` and `EscapeKeepsPlainText` |
| `Capa.Decimal` | common/lib/xmodule/xmodule/capa_module.py:403-405 | The wait time is printed as `str(n)`: digits only, no leading zero, and the digits denote `n` |
| `Capa.MustWait` | common/lib/xmodule/xmodule/capa_module.py:397-402 | Definition: the problem is queued and less than the wait time has passed since the latest submission. `CheckProblem` answers with `WaitMessage` exactly then |
| `Capa.WaitMessage` | common/lib/xmodule/xmodule/capa_module.py:403-404 | Definition: the wait reply, with the wait printed by `Decimal` |
| `Capa.DebugMessage` | common/lib/xmodule/xmodule/capa_module.py:436-438 | Definition: the debug reply to an unexpected error, its message then the traceback. `CheckProblem` and `RescoreProblem` give it exactly when debugging is on |
| `Capa.SavedMessage` | common/lib/xmodule/xmodule/capa_module.py:603-605 | Definition: the save reply, asking for a check unless `max_attempts` is 0. `SaveProblem` gives it |
| `Capa.OverallSuccess` | common/lib/xmodule/xmodule/capa_module.py:445-449 | The verdict is `correct` exactly when every answer of the correctness map is correct (an empty map included), and `incorrect` otherwise |
| `Capa.CapaModule.constructor` | common/lib/xmodule/xmodule/capa_module.py:37-41 | A fresh problem has no attempts and is not done. It is consistent and within its attempt limit |
| `Capa.CapaModule.CheckProblem` | common/lib/xmodule/xmodule/capa_module.py:369-472 | Guards in order: a malformed form is rejected, then a closed problem, then an unreset rerandomized one, then a queued one still inside its wait. Grading adds exactly one attempt, sets done and stores the score and answers. Input errors show the message, or the escaped traceback to staff. Unexpected errors are reported when debugging and otherwise re-raised. Only grading changes state. Done implies attempted, and the attempt limit, are preserved |
| `Capa.CapaModule.RescoreProblem` | common/lib/xmodule/xmodule/capa_module.py:490-568 | An unsupported problem raises NotImplementedError. A problem not done raises NotFoundError. Otherwise only the score changes, and the verdict and error messages are those of the source. Attempts and done are untouched |
| `Capa.CapaModule.SaveProblem` | common/lib/xmodule/xmodule/capa_module.py:570-607 | It refuses a closed problem unless max attempts is 0, and a done problem that rerandomizes always. Otherwise it stores exactly the parsed answers, and asks for a check unless max attempts is 0 |
| `Capa.CapaModule.ResetProblem` | common/lib/xmodule/xmodule/capa_module.py:609-651 | It refuses a closed problem or one that is not done. Otherwise it clears done and the answers, and redraws the seed exactly under `always`/`onreset`. The attempts never change |
| `Capa.CapaModule.IsPastDue` | common/lib/xmodule/xmodule/capa_module.py:103-108 | Definition: a close date is set and the time is after it. It is the corrected half of the first finding; `ShownPersists` states that it persists |
| `Capa.CapaModule.Closed` | common/lib/xmodule/xmodule/capa_module.py:110-119 | Definition: the attempts are used up or the problem is past due. `ShownPersists` states that a closed problem stays closed |
| `Capa.CapaModule.IsSubmitted` | common/lib/xmodule/xmodule/capa_module.py:121-130 | Definition: the problem is marked done. `AnsweredAfterAttempted` relates it to `IsAttempted` |
| `Capa.CapaModule.IsAttempted` | common/lib/xmodule/xmodule/capa_module.py:132-138 | Definition: at least one attempt was made |
| `Capa.CapaModule.IsCorrect` | common/lib/xmodule/xmodule/capa_module.py:140-145 | Definition: the score earned is the total. `PoliciesOrdered` uses it through `finished` |
| `Capa.CapaModule.ShownUnder` | common/lib/xmodule/xmodule/capa_module.py:147-175 | Definition: the show-answer table, tested in the source's order. Its properties are stated by `NeverShown`, `StaffShownOtherwise`, `UnknownPolicyHidden`, `PoliciesOrdered`, `AnsweredAfterAttempted` and `ShownPersists` |
| `Capa.CapaModule.AnswerAvailable` | common/lib/xmodule/xmodule/capa_module.py:147-175 | Definition: the table under the problem's own policy |
| `Capa.NeverShown` | common/lib/xmodule/xmodule/capa_module.py:151-154 | `''` and `never` hide the answer even from staff |
| `Capa.StaffShownOtherwise` | common/lib/xmodule/xmodule/capa_module.py:155-158 | Staff see the answer under every other policy |
| `Capa.UnknownPolicyHidden` | common/lib/xmodule/xmodule/capa_module.py:159-175 | An unknown policy hides the answer from students |
| `Capa.PoliciesOrdered` | common/lib/xmodule/xmodule/capa_module.py:165-173 | `past_due` shows no earlier than `closed`, `closed` no earlier than `finished`, and `always` whenever any policy does |
| `Capa.AnsweredAfterAttempted` | common/lib/xmodule/xmodule/capa_module.py:159-164 | In a consistent state `answered` shows no earlier than `attempted` (reset clears done, keeps attempts) |
| `Capa.ShownPersists` | common/lib/xmodule/xmodule/capa_module.py:103-119 | A closed problem stays closed as time passes, and an answer once shown stays shown |
| `Capa.LookupHandler` | common/lib/xmodule/xmodule/capa_module.py:54-63 | A found handler is registered under the name looked up |
| `Capa.LookupFindsEveryHandler` | common/lib/xmodule/xmodule/capa_module.py:54-63 | Every registered name finds its own handler |
| `Capa.Dispatch` | common/lib/xmodule/xmodule/capa_module.py:77-78 | A dispatch runs a handler exactly when some handler is registered under it, and otherwise replies that the action is unknown |
| `Capa.ProcessingMessage` | common/lib/xmodule/xmodule/capa_module.py:82-91 | Definition: the "state has changed" text for NotFoundError, the generic text otherwise. `WrapHandlerError` states which error gets which |
| `Capa.WrapHandlerError` | common/lib/xmodule/xmodule/capa_module.py:82-91 | A handler's reply passes through unchanged. Its exception becomes a ProcessingError that keeps it, with the "state has changed" message exactly for NotFoundError and the generic message otherwise |
| `Capa.BackcompatPaths` | common/lib/xmodule/xmodule/capa_module.py:706-711 | Two paths: the rest after the first eight characters (empty for shorter paths), with and without `problems/` |
| `Capa.BackcompatOfProblemPath` | common/lib/xmodule/xmodule/capa_module.py:706-711 | `problem/<name>` maps to `problems/<name>` and `<name>` |
| `Capa.Contains` | common/lib/xmodule/xmodule/capa_module.py:692 | Definition: Python's `in` on strings, as a scan. `ContainsOccurs` states what it finds |
| `Capa.ContainsOccurs` | common/lib/xmodule/xmodule/capa_module.py:692 | The substring scan succeeds exactly when the text occurs at some position |
| `Capa.FilterTemplates` | common/lib/xmodule/xmodule/capa_module.py:684-692 | A template is offered exactly when its id does not contain `latex` or the course uses the LaTeX compiler |
| `Capa.IsPastDueAsWritten` | common/lib/xmodule/xmodule/capa_module.py:103-108 | Definition (as written): False without a close date, a NameError on `datetime` with one. `ClosedAsWrittenRaises` states the discrepancy |
| `Capa.ClosedAsWritten` | common/lib/xmodule/xmodule/capa_module.py:110-119 | Definition (as written): True when the attempts are used up, otherwise the as-written `is_past_due` |
| `Capa.ClosedAsWrittenRaises` | common/lib/xmodule/xmodule/capa_module.py:110-119 | As written, `closed()` raises for a problem with unlimited attempts and a close date, while the intended rule compares the time |
| `Capa.CheckProblemAsWritten` | common/lib/xmodule/xmodule/capa_module.py:379-383 | As written the call never returns: a malformed form raises the ValueError of `make_dict_of_responses` with the message of an error the form exhibits, and every acceptable form (exactly those) raises NameError on `convert_files_to_filenames`. `CheckAsWrittenNeverGrades` states the discrepancy |
| `Capa.UnderscorelessCheckRaises` | common/lib/xmodule/xmodule/capa_module.py:319-321 | As written, checking a form with the key `input` raises a ValueError |
| `Capa.CheckAsWrittenNeverGrades` | common/lib/xmodule/xmodule/capa_module.py:381-383 | As written, checking the documented form raises NameError, while the intended check grades it on an open problem |
| `StaffGrading.ConditionText` | common/lib/xmodule/xmodule/staff_grading_module.py:305-306 | Definition: `<attribute> = '<value>'`. `QuotedValueSplicesCondition` states what an unescaped value does to it |
| `StaffGrading.JoinAnd` | common/lib/xmodule/xmodule/staff_grading_module.py:305-307 | Definition: the texts joined by ` and `. `JoinAndSnoc` states how it grows |
| `StaffGrading.SelectText` | common/lib/xmodule/xmodule/staff_grading_module.py:309 | Definition: `select * from staff_grading where ` and the joined conditions. `AllStatusQueryAppends` and `StatusQueryText` state its shape |
| `StaffGrading.JoinAndSnoc` | common/lib/xmodule/xmodule/staff_grading_module.py:305-307 | Joining one more condition appends it after ` and ` |
| `StaffGrading.SelectMembers` | common/lib/xmodule/xmodule/staff_grading_module.py:309-312 | The select returns exactly the records meeting every condition |
| `StaffGrading.Select` | common/lib/xmodule/xmodule/staff_grading_module.py:309-312 | Definition: the records meeting every condition, in domain order. `SelectMembers` and `SelectStartsAtFirstMatch` state what it returns |
| `StaffGrading.FirstMatch` | common/lib/xmodule/xmodule/staff_grading_module.py:270-273 | It is the index of a matching record with no match before it, or none when nothing matches |
| `StaffGrading.SelectStartsAtFirstMatch` | common/lib/xmodule/xmodule/staff_grading_module.py:270-273 | The select is empty exactly when nothing matches, and its first record is the first match |
| `StaffGrading.ReplacingKeepsFirstMatch` | common/lib/xmodule/xmodule/staff_grading_module.py:273-293 | A record updated in place keeps its keys, so a later select finds it first again |
| `StaffGrading.Cleared` | common/lib/xmodule/xmodule/staff_grading_module.py:274-281 | Definition: score, comments and grading time become empty; who graded is kept. `UpdateStatus` applies it to the first match |
| `StaffGrading.Graded` | common/lib/xmodule/xmodule/staff_grading_module.py:284-292 | Definition: score, comments, grading user and time are set. `UpdateStatus` applies it to the first match |
| `StaffGrading.FileStatus.constructor` | common/lib/xmodule/xmodule/staff_grading_module.py:240-243 | The table starts from the given domain |
| `StaffGrading.FileStatus.Conditions` | common/lib/xmodule/xmodule/staff_grading_module.py:303-307 | Course and module come first, followed by the extra conditions in order |
| `StaffGrading.FileStatus.AllStatusQuery` | common/lib/xmodule/xmodule/staff_grading_module.py:305-308 | Definition: the select text of the conditions. `AllStatusQueryAppends` and `StatusQueryText` state its shape |
| `StaffGrading.FileStatus.AllStatus` | common/lib/xmodule/xmodule/staff_grading_module.py:303-315 | Definition: the select of the conditions over the domain. `AllStatusFilters` states which records it returns |
| `StaffGrading.FileStatus.StatusConditions` | common/lib/xmodule/xmodule/staff_grading_module.py:296-301 | Definition: the one condition `username = <the module's user>`. `StatusQueryText` states the query it gives |
| `StaffGrading.FileStatus.Status` | common/lib/xmodule/xmodule/staff_grading_module.py:296-301 | Definition: `get_all_status` with the user's condition. `UpdateScore` and the constructor take the score from its first record |
| `StaffGrading.FileStatus.SavedMessage` | common/lib/xmodule/xmodule/staff_grading_module.py:294 | Definition: the success reply naming the module's user and their full name. `UpdateStatus` gives it exactly on a save |
| `StaffGrading.FileStatus.UpdateStatus` | common/lib/xmodule/xmodule/staff_grading_module.py:266-294 | No match gives `(False, 'No record found')` with nothing changed. Clearing removes score, comments and time but keeps who graded it. A non-numeric score or one above the max gives the bad-grade reply with nothing saved (the max itself is accepted). A valid score updates the first match only |
| `StaffGrading.Route` | common/lib/xmodule/xmodule/staff_grading_module.py:164-192 | `upload`, `download` and `list` run their own handlers for everyone (exactly those dispatches); `score` and `unscore` run `enter_score` and `remove_score` exactly for staff. Those from others and every unknown dispatch give Http404 |
| `StaffGrading.FormGet` | common/lib/xmodule/xmodule/staff_grading_module.py:328-329 | A missing key gives the default, a present one the value of its last pair |
| `StaffGrading.ScoringConditions` | common/lib/xmodule/xmodule/staff_grading_module.py:330-332 | A condition is added exactly when `uname` is given by staff, and it is then the one condition `username = <uname>` with the form's value |
| `StaffGrading.DownloadConditions` | common/lib/xmodule/xmodule/staff_grading_module.py:350-354 | A file-name condition appears exactly when `fn` is given, and comes first; a username condition appears exactly when `uname` is given by staff. Each holds the form's value, and none appears twice |
| `StaffGrading.CloseDate` | common/lib/xmodule/xmodule/staff_grading_module.py:124-129 | The close date is set exactly when the due date is. It is the due date plus the grace period when both are set, and the due date without one |
| `StaffGrading.GraceExtends` | common/lib/xmodule/xmodule/staff_grading_module.py:194-199 | With a non-negative grace period, past the close date means past the due date |
| `StaffGrading.MakeFileName` | common/lib/xmodule/xmodule/staff_grading_module.py:377-383 | Definition: username, course, location and quoted file name joined by `__`. `FileNameIdentifiesUser` states that it determines the user |
| `StaffGrading.FileNameIdentifiesUser` | common/lib/xmodule/xmodule/staff_grading_module.py:377-383 | For usernames without underscores, equal file names mean equal users |
| `StaffGrading.ItemName` | common/lib/xmodule/xmodule/staff_grading_module.py:259 | Definition: course, location and username joined by `:`. `ItemNameIdentifiesUser` states that it determines the user |
| `StaffGrading.ItemNameIdentifiesUser` | common/lib/xmodule/xmodule/staff_grading_module.py:259 | Within one course and location, the item name determines the user |
| `StaffGrading.StaffGradingModule.constructor` | common/lib/xmodule/xmodule/staff_grading_module.py:89-132 | The close date comes from due and grace. The score is that of the user's first status record, or the stored user-state score when there is none |
| `StaffGrading.StaffGradingModule.UpdateScore` | common/lib/xmodule/xmodule/staff_grading_module.py:134-144 | With records, the score becomes the first record's score (empty when it has none); with no records it is unchanged |
| `StaffGrading.StaffGradingModule.IsGraded` | common/lib/xmodule/xmodule/staff_grading_module.py:146-150 | Definition: a score is set |
| `StaffGrading.StaffGradingModule.IsPastDue` | common/lib/xmodule/xmodule/staff_grading_module.py:194-199 | Definition: a close date is set and the time is after it (the intended rule). `GraceExtends` relates it to the due date |
| `StaffGrading.IsPastDueAsWritten` | common/lib/xmodule/xmodule/staff_grading_module.py:194-199 | Definition (as written): False without a close date, a TypeError on calling `UTC` with one. `IsPastDueAsWrittenRaises` states the discrepancy |
| `StaffGrading.IsPastDueAsWrittenRaises` | common/lib/xmodule/xmodule/staff_grading_module.py:194-199 | As written, a module with a close date raises when asked whether it is past due, while the intended rule compares the time with the close date |
| `StaffGrading.IsPastDueAsWrittenWithoutDue` | common/lib/xmodule/xmodule/staff_grading_module.py:194-199 | Without a close date the as-written and the intended rule agree: not past due |
| `StaffGrading.StaffGradingModule.EnterScore` | common/lib/xmodule/xmodule/staff_grading_module.py:324-334 | It grades the first record found with the `grade` text and the `comments`, and `uname` narrows the search only for staff. A form without `grade` submits `''`, which `float` refuses, so it saves nothing |
| `StaffGrading.StaffGradingModule.RemoveScore` | common/lib/xmodule/xmodule/staff_grading_module.py:336-344 | It clears the grade of the first record found |
| `StaffGrading.StaffGradingModule.DownloadFile` | common/lib/xmodule/xmodule/staff_grading_module.py:346-360 | No matching record gives 'No files to download'. Otherwise it returns the stored file name of the first matching record (`rs[0]`) |
| `StaffGrading.AllStatusQueryAppends` | common/lib/xmodule/xmodule/staff_grading_module.py:303-309 | Every extra condition is appended to the where clause after ` and ` |
| `StaffGrading.StatusQueryText` | common/lib/xmodule/xmodule/staff_grading_module.py:296-309 | The base where clause is the course condition and the module condition. `get_status` adds exactly one username condition |
| `StaffGrading.QuotedValueSplicesCondition` | common/lib/xmodule/xmodule/staff_grading_module.py:332 | For all attributes and values: one condition whose value holds `' and <b> = '` has the same text as two conditions joined by ` and `, so the query text does not determine the filter |
| `StaffGrading.AllStatusFilters` | common/lib/xmodule/xmodule/staff_grading_module.py:303-315 | `get_all_status` returns exactly this course's and module's records meeting every extra condition given |
| `StaffGrading.StudentDownloadIgnoresOwner` | common/lib/xmodule/xmodule/staff_grading_module.py:350-360 | A student's download is not limited to their own file: another student's first record is returned |
| `SpeedControl.PreviousIndex` | common/lib/xmodule/xmodule/js/src/video/08_video_speed_control.js:120-124 | It stays in range, and the next index after it is the start (wrapping from first to last) |
| `SpeedControl.NextIndex` | common/lib/xmodule/xmodule/js/src/video/08_video_speed_control.js:126-129 | It stays in range, one step forward modulo the length (wrapping from last to first) |
| `SpeedControl.PreviousNextInverse` | common/lib/xmodule/xmodule/js/src/video/08_video_speed_control.js:122-129 | The two moves undo each other |
| `SpeedControl.NextTimesAdvances` | common/lib/xmodule/xmodule/js/src/video/08_video_speed_control.js:223-226 | k presses of DOWN move k entries down before the end |
| `SpeedControl.NextTimesCompose` | common/lib/xmodule/xmodule/js/src/video/08_video_speed_control.js:223-226 | a then b presses of DOWN are a + b presses |
| `SpeedControl.PreviousThenNextTimes` | common/lib/xmodule/xmodule/js/src/video/08_video_speed_control.js:217-226 | k presses of UP then k of DOWN return to the start |
| `SpeedControl.FullCycleReturns` | common/lib/xmodule/xmodule/js/src/video/08_video_speed_control.js:208-226 | n presses of DOWN, or of UP, in an n-entry menu return to the start |
| `SpeedControl.Reverse` | common/lib/xmodule/xmodule/js/src/video/08_video_speed_control.js:78-85 | Definition: the order that prepending each speed in turn produces. `ReverseAt` and `ReverseInvolution` state it |
| `SpeedControl.SpeedsOf` | common/lib/xmodule/xmodule/js/src/video/08_video_speed_control.js:78-85 | The speeds of the rendered entries, one per entry, in document order |
| `SpeedControl.ReverseAt` | common/lib/xmodule/xmodule/js/src/video/08_video_speed_control.js:78-85 | Position k of the reversed list holds the k-th speed from the end |
| `SpeedControl.ReverseInvolution` | common/lib/xmodule/xmodule/js/src/video/08_video_speed_control.js:78-85 | Reading the rendered list back to front gives the speeds in order |
| `SpeedControl.VideoSpeedControl.constructor` | common/lib/xmodule/xmodule/js/src/video/08_video_speed_control.js:40-88 | With one entry per speed, the entries are the speeds reversed. Exactly the entries equal to the initial speed are active, and the menu is closed |
| `SpeedControl.VideoSpeedControl.PrependItems` | common/lib/xmodule/xmodule/js/src/video/08_video_speed_control.js:289-301 | Prepending each speed in turn gives the speeds reversed, with exactly the entries equal to the current speed active |
| `SpeedControl.VideoSpeedControl.SetSpeed` | common/lib/xmodule/xmodule/js/src/video/08_video_speed_control.js:249-255 | Exactly the entries with that speed become active and the label shows it; nothing else changes |
| `SpeedControl.VideoSpeedControl.ChangeVideoSpeed` | common/lib/xmodule/xmodule/js/src/video/08_video_speed_control.js:257-280 | An active entry changes nothing and fires nothing. Otherwise the current speed becomes its speed, the list is marked with it and one event fires. The control regains focus either way |
| `SpeedControl.VideoSpeedControl.EntryClick` | common/lib/xmodule/xmodule/js/src/video/08_video_speed_control.js:150-151 | A click on an entry runs `changeVideoSpeed`, then bubbles to the control's click handler (lines 170-177), which closes the menu. The state after it is that of `changeVideoSpeed` with the menu closed |
| `SpeedControl.VideoSpeedControl.ReRender` | common/lib/xmodule/xmodule/js/src/video/08_video_speed_control.js:282-306 | The list is rebuilt reversed from the new speeds, with exactly the entries equal to the current speed active |
| `SpeedControl.VideoSpeedControl.MouseEnter` | common/lib/xmodule/xmodule/js/src/video/08_video_speed_control.js:164-166 | It opens the menu |
| `SpeedControl.VideoSpeedControl.MouseLeave` | common/lib/xmodule/xmodule/js/src/video/08_video_speed_control.js:167-169 | It closes the menu |
| `SpeedControl.VideoSpeedControl.Click` | common/lib/xmodule/xmodule/js/src/video/08_video_speed_control.js:170-177 | It closes the menu |
| `SpeedControl.VideoSpeedControl.ControlKeyDown` | common/lib/xmodule/xmodule/js/src/video/08_video_speed_control.js:179-202 | SPACE/ENTER toggle the menu. UP opens it and focuses the last entry. ESCAPE closes it. Other keys change nothing. The default action is suppressed except for TAB |
| `SpeedControl.VideoSpeedControl.EntryKeyDown` | common/lib/xmodule/xmodule/js/src/video/08_video_speed_control.js:208-237 | UP or TAB focuses the previous entry, DOWN or shift+TAB the next, and nothing else changes. ENTER gives the state `changeVideoSpeed` gives, with the menu closed. ESCAPE closes the menu and focuses the control, nothing else. Other keys change nothing. The default action is always suppressed |
| `SpeedControl.Initialize` | common/lib/xmodule/xmodule/js/src/video/08_video_speed_control.js:10-34 | On a touch device no speed-control state is created. Otherwise the entries are the speeds reversed, exactly those equal to the initial speed are active, the label shows it, and the menu is closed with no speed chosen and no event fired |
| `SpeedControl.RenderAndWalkScenario` | common/lib/xmodule/xmodule/js/src/video/08_video_speed_control.js:78-237 | Scenario, no contract: with four speeds the list shows them reversed; UP on the control, then DOWN and UP on the entries, walk round the list; a click on the last entry picks its speed and closes the menu |

## Left out

- HTML rendering is not modelled: `get_problem_html`, the markup of the speed entries, and the `html` keys of the replies.
- Event tracking is not modelled: `track_function`, `publish_grade`'s event, the psychometrics callback and logging. These are side channels that do not change the modelled state.
- JSON encoding of replies is not modelled. `ProcessingError` re-raising is `Capa.WrapHandlerError`, without the traceback. Progress reporting in `handle_ajax` is not modelled.
- The handlers `get_answer`, `update_score`, `handle_input_ajax` and `handle_ungraded_response` of `capa_module.py` are not modelled. They pass data to the problem engine, which is not part of this model. `get_answer`'s availability test is `AnswerAvailable`. `translate_to_native` is also omitted.
- LoncapaProblem's own grading, queueing, seeding and state are not modelled. The caller supplies their results.
- Responses.Json keeps numbers as integers, so a decoded document such as `{'a': 1.5}` has no exact value here. `decode` is a parameter on which no proof depends, and the model never looks inside a document.
- Capa.CapaModule.CheckProblem takes grading to store the submitted answers, and an error during grading to leave the state as it was. The engine that decides this is not part of this model.
- The `module_attr` proxies of `CapaDescriptor` (capa_module.py:727-754) are not modelled. Neither are `get_context` or `non_editable_metadata_fields`.
- StaffGrading.AllStatusFilters: the select is modelled as the filter of its conditions, which is what the query text means only when no value contains a `'`. The source puts `uname` and `fn` into the query unescaped (staff_grading_module.py:332, 352-354). A file name such as `don't.pdf` makes the query malformed, and SimpleDB then raises an error, while the model returns the file. A `'` in `uname` can widen the select (`QuotedValueSplicesCondition`).
- S3 and SimpleDB I/O are not modelled: `local_upload_to_s3`, `upload_file`, bucket and key lookup and URL generation in `do_download`, `create_status` persistence, `list_submissions`' JSON and `get_html`. `StaffGrading.ItemName` keeps only the item name of `create_status`.
- `urllib.quote` and `float` are function parameters. Python's `float` accepts `nan` and `inf`; whether such a text passes the grade check is left to the parameter.
- StaffGrading.FileStatus.UpdateStatus treats the bound check as always on. Python drops `assert` statements under `-O`, and that running mode is not modelled.
- SimpleDB stores every attribute as text. The model keeps scores as numbers and times as integers.
- `_checkPlaybackRates` (08_video_speed_control.js:106-113) and hiding the control are not modelled. They depend on the browser.
- The player's speed formatting `parseFloat(...).toFixed(2)` (08_video_speed_control.js:265-270) is a function parameter. Floating point is not modelled.
- Deferred promises and re-binding the handlers after `reRender` are not modelled. Event propagation is modelled only where it changes the menu: a click on an entry bubbles to the control and closes it (`EntryClick`), and an entry's keydown does not reach the control's keydown handler.
- SpeedControl: a speed is always text. jQuery's `.data('speed')` (08_video_speed_control.js:263) turns a text such as `0.75` into the number 0.75 but keeps `1.0` as text. So the type of the `speedChange` payload is not captured, and neither is `reRender`'s `===` test (line 296) against a number the caller passes.
- The touch-device click toggle inside `_bindHandlers` (08_video_speed_control.js:153-161) is not modelled. A touch device never creates the menu state (lines 13-18).
- The multi-store router (MixedModuleStore), the location-to-locator mapper and the group-based course listing are not part of this model. Only their tests are present, not their implementations.
- `initialize_spec.js` is not part of this model. It tests code in a file that is not part of this model.
- The `pavelib` build scripts are not part of this model. They are shell and process orchestration.

## Findings

| source | as written | input that shows it | evidently intended | confidence | as-written member | corrected member |
|---|---|---|---|---|---|---|
| common/lib/xmodule/xmodule/capa_module.py:103-108 | `is_past_due` calls `datetime.datetime.now(UTC())`, but neither `datetime` nor `UTC` is imported (lines 2-12) | a problem with no attempt limit and a close date set: `closed()` raises NameError | compare the current time with the close date | not executed | `Capa.IsPastDueAsWritten`, `Capa.ClosedAsWrittenRaises` | `Capa.CapaModule.IsPastDue` |
| common/lib/xmodule/xmodule/capa_module.py:381-383 | `check_problem` passes the parsed answers to `convert_files_to_filenames`, which is never imported | any acceptable form, e.g. `{'input_1[]': 'test'}`: NameError before any guard, so nothing is ever graded | log the answers' file names and go on to the guards and grading | not executed | `Capa.CheckProblemAsWritten`, `Capa.CheckAsWrittenNeverGrades` | `Capa.CapaModule.CheckProblem` |
| common/lib/xmodule/xmodule/staff_grading_module.py:194-199 | `is_past_due` calls `UTC()`, but `UTC` is pytz's time zone object (imported at line 22), not a class, so it cannot be called | a module with a due date: `is_past_due()` raises TypeError, and so does `get_html` (line 211), which calls it | compare the current time with the close date | not executed; rests on pytz binding `UTC` to an instance, and pytz is not part of this model | `StaffGrading.IsPastDueAsWritten`, `StaffGrading.IsPastDueAsWrittenRaises` | `StaffGrading.StaffGradingModule.IsPastDue` |
