/** The submission rules of a LON-CAPA problem (CapaModule), and the two
    small path and template rules of its descriptor (CapaDescriptor).

    Time is an integer number of seconds passed in by the caller. The
    problem engine (LoncapaProblem) is an oracle: the caller supplies what
    grading the answers gives, whether the problem is waiting on the
    external grading queue, and the seed and score of a regenerated problem. */
module Capa {
  import opened Wrappers
  import opened Responses

  /** Points earned out of points possible. */
  datatype Score = Score(earned: int, total: int)

  /** What grading (or regrading) the answers gives: a correctness map with
      the new score, one of the problem's own input errors
      (StudentInputError, ResponseError, LoncapaProblemError), or any other
      exception. Each error carries its message and its formatted traceback. */
  datatype GradeOutcome =
    | Graded(correctMap: map<string, bool>, score: Score)
    | InputError(message: string, trace: string)
    | Unexpected(message: string, trace: string)

  /** What the external grading queue reports: whether a submission is
      queued, when the latest one was queued, and the wait required
      between submissions. */
  datatype Queue = Queue(queued: bool, lastSubmit: int, waitTime: nat)

  /** The exceptions the handlers raise. */
  datatype CapaError =
    | Rejected(cause: ResponseError)   // the ValueError of a malformed form
    | NotFound(message: string)        // NotFoundError
    | NotImplemented(message: string)  // NotImplementedError
    | Raised(message: string)          // an unexpected exception, re-raised

  /** The reply of save_problem: {'success': ..., 'msg': ...}. */
  datatype SaveReply = SaveReply(success: bool, msg: string)

  /** The reply of reset_problem: a refusal with its 'error' text, or the
      reset problem (whose HTML is not modelled). */
  datatype ResetReply = ResetRefused(error: string) | ResetDone

  // ---------------------------------------------------------------------
  // Texts
  // ---------------------------------------------------------------------

  function Digit(d: nat): (c: char)
    requires d < 10
    ensures '0' <= c <= '9' && c as int - '0' as int == d
  {
    "0123456789"[d]
  }

  /** The number a string of decimal digits denotes. */
  ghost function NumeralValue(s: string): int
  {
    if s == [] then 0 else 10 * NumeralValue(s[..|s| - 1]) + (s[|s| - 1] as int - '0' as int)
  }

  /** The decimal numeral of `n`, as str(n) gives it: digits only, no
      leading zero, and denoting `n`. */
  function Decimal(n: nat): (r: string)
    ensures |r| >= 1
    ensures forall i :: 0 <= i < |r| ==> '0' <= r[i] <= '9'
    ensures |r| > 1 ==> r[0] != '0'
    ensures NumeralValue(r) == n
    decreases n
  {
    if n < 10 then [Digit(n)]
    else
      var r := Decimal(n / 10) + [Digit(n % 10)];
      assert r[..|r| - 1] == Decimal(n / 10);
      r
  }

  function WaitMessage(wait: nat): string {
    "You must wait at least " + Decimal(wait) + " seconds between submissions"
  }

  /** The HTML escaping of cgi.escape (quote=False): '&', '<' and '>' become
      entities, every other character is kept. */
  function Escape(s: string): string
  {
    if s == [] then []
    else
      (if s[0] == '&' then "&amp;" else if s[0] == '<' then "&lt;" else if s[0] == '>' then "&gt;" else [s[0]])
      + Escape(s[1..])
  }

  /** Escaped text holds no angle bracket, so a traceback cannot inject
      markup, and it is never shorter than the text. */
  lemma {:induction false} EscapeIsMarkupFree(s: string)
    ensures '<' !in Escape(s) && '>' !in Escape(s)
    ensures |Escape(s)| >= |s|
  {
    if s != [] {
      EscapeIsMarkupFree(s[1..]);
    }
  }

  /** Text without '&', '<' and '>' is left as it is. */
  lemma {:induction false} EscapeKeepsPlainText(s: string)
    requires '&' !in s && '<' !in s && '>' !in s
    ensures Escape(s) == s
  {
    if s != [] {
      assert s[0] in s;
      assert forall c :: c in s[1..] ==> c in s;
      EscapeKeepsPlainText(s[1..]);
    }
  }

  /** Every answer of the correctness map is correct (so an empty map is). */
  ghost predicate AllCorrect(correctMap: map<string, bool>)
  {
    forall id :: id in correctMap ==> correctMap[id]
  }

  /** The overall verdict of a graded problem: 'correct' when every answer
      in the correctness map is correct, 'incorrect' otherwise. The map is
      visited in an order the model leaves open. */
  method OverallSuccess(correctMap: map<string, bool>) returns (success: string)
    ensures success == (if AllCorrect(correctMap) then "correct" else "incorrect")
  {
    success := "correct";
    var remaining := correctMap.Keys;
    ghost var seen: set<string> := {};
    while remaining != {}
      invariant remaining <= correctMap.Keys
      invariant seen == correctMap.Keys - remaining
      invariant success == "correct" || success == "incorrect"
      invariant success == "correct" <==> forall id :: id in seen ==> correctMap[id]
      decreases remaining
    {
      var id :| id in remaining;
      if !correctMap[id] {
        success := "incorrect";
      }
      remaining := remaining - {id};
      seen := seen + {id};
    }
  }

  // ---------------------------------------------------------------------
  // The problem module
  // ---------------------------------------------------------------------

  class CapaModule {
    /** The course settings of the problem; no handler changes them. */
    const maxAttempts: Option<nat>
    const closeDate: Option<int>
    const rerandomize: string
    const showAnswer: string
    const userIsStaff: bool
    const debug: bool

    /** The student's state. */
    var attempts: nat
    var done: bool
    var seed: nat
    var studentAnswers: map<string, AnswerValue>
    var score: Score

    /** A fresh problem: no attempt yet, nothing submitted. */
    constructor (maxAttempts: Option<nat>, closeDate: Option<int>, rerandomize: string, showAnswer: string,
                 userIsStaff: bool, debug: bool, seed: nat, score: Score)
      ensures this.maxAttempts == maxAttempts && this.closeDate == closeDate
      ensures this.rerandomize == rerandomize && this.showAnswer == showAnswer
      ensures this.userIsStaff == userIsStaff && this.debug == debug
      ensures attempts == 0 && !done && this.seed == seed && studentAnswers == map[] && this.score == score
      ensures Consistent() && WithinAttemptLimit()
    {
      this.maxAttempts := maxAttempts;
      this.closeDate := closeDate;
      this.rerandomize := rerandomize;
      this.showAnswer := showAnswer;
      this.userIsStaff := userIsStaff;
      this.debug := debug;
      this.attempts := 0;
      this.done := false;
      this.seed := seed;
      this.studentAnswers := map[];
      this.score := score;
    }

    /** A problem marked done has been attempted at least once. */
    ghost predicate Consistent()
      reads this
    {
      done ==> attempts > 0
    }

    /** The attempts used do not exceed the limit. */
    ghost predicate WithinAttemptLimit()
      reads this
    {
      maxAttempts.Some? ==> attempts <= maxAttempts.value
    }

    /** It is past the close date (the due date with its grace period). */
    predicate IsPastDue(now: int)
      reads this
    {
      closeDate.Some? && now > closeDate.value
    }

    /** No more submissions: the attempts are used up or it is past due. */
    predicate Closed(now: int)
      reads this
    {
      (maxAttempts.Some? && attempts >= maxAttempts.value) || IsPastDue(now)
    }

    predicate IsSubmitted()
      reads this
    {
      done
    }

    predicate IsAttempted()
      reads this
    {
      attempts > 0
    }

    /** Full points. */
    predicate IsCorrect()
      reads this
    {
      score.earned == score.total
    }

    /** Whether the answer may be shown under the show-answer policy
        `policy`. */
    predicate ShownUnder(policy: string, now: int)
      reads this
    {
      if policy == "" || policy == "never" then false
      else if userIsStaff then true
      else if policy == "attempted" then IsAttempted()
      else if policy == "answered" then done
      else if policy == "closed" then Closed(now)
      else if policy == "finished" then Closed(now) || IsCorrect()
      else if policy == "past_due" then IsPastDue(now)
      else policy == "always"
    }

    /** answer_available: the table above, under the problem's own policy. */
    predicate AnswerAvailable(now: int)
      reads this
    {
      ShownUnder(showAnswer, now)
    }

    /** The state a check grades in: the form is acceptable, the problem is
        open, it needs no reset first, and the queue does not ask to wait. */
    ghost predicate Grades(data: FormData, decode: string -> Option<Json>, now: int, queue: Queue)
      reads this
    {
      && Acceptable(data, decode)
      && !Closed(now)
      && !(done && rerandomize == "always")
      && !MustWait(now, queue)
    }

    /** check_problem. The form is parsed first, so a malformed form is
        rejected even on a closed problem. Only grading changes the state:
        one more attempt, done, the new score and the graded answers. */
    method CheckProblem(data: FormData, decode: string -> Option<Json>, now: int, queue: Queue,
                        grade: map<string, AnswerValue> -> GradeOutcome)
      returns (r: Result<string, CapaError>)
      modifies this
      ensures !Acceptable(data, decode) ==>
        r.Failure? && r.error.Rejected? && RaisedFor(data, decode, r.error.cause) && unchanged(this)
      ensures Acceptable(data, decode) && old(Closed(now)) ==>
        r == Failure(NotFound("Problem is closed")) && unchanged(this)
      ensures Acceptable(data, decode) && !old(Closed(now)) && old(done) && rerandomize == "always" ==>
        r == Failure(NotFound("Problem must be reset before it can be checked again")) && unchanged(this)
      ensures Acceptable(data, decode) && !old(Closed(now)) && !(old(done) && rerandomize == "always")
              && MustWait(now, queue) ==>
        r == Success(WaitMessage(queue.waitTime)) && unchanged(this)
      ensures old(Grades(data, decode, now, queue)) ==>
        match grade(Answers(data, decode))
        case Graded(correctMap, newScore) =>
          && attempts == old(attempts) + 1 && done && score == newScore
          && studentAnswers == Answers(data, decode) && seed == old(seed)
          && r == Success(if AllCorrect(correctMap) then "correct" else "incorrect")
        case InputError(message, trace) =>
          && unchanged(this)
          && r == Success(if userIsStaff then "Staff debug info: " + Escape(trace) else "Error: " + message)
        case Unexpected(message, trace) =>
          && unchanged(this)
          && r == (if debug then Success(DebugMessage(message, trace)) else Failure(Raised(message)))
      ensures old(Consistent()) ==> Consistent()
      ensures old(WithinAttemptLimit()) ==> WithinAttemptLimit()
      ensures attempts == old(attempts) || attempts == old(attempts) + 1
    {
      var parsed := MakeDictOfResponses(data, decode);
      if parsed.Failure? {
        return Failure(Rejected(parsed.error));
      }
      var answers := parsed.value;
      if Closed(now) {
        return Failure(NotFound("Problem is closed"));
      }
      if done && rerandomize == "always" {
        return Failure(NotFound("Problem must be reset before it can be checked again"));
      }
      if queue.queued && now - queue.lastSubmit < queue.waitTime {
        return Success(WaitMessage(queue.waitTime));
      }
      var outcome := grade(answers);
      match outcome {
        case Graded(correctMap, newScore) =>
          attempts := attempts + 1;
          done := true;
          score := newScore;
          studentAnswers := answers;
          var success := OverallSuccess(correctMap);
          r := Success(success);
        case InputError(message, trace) =>
          if userIsStaff {
            r := Success("Staff debug info: " + Escape(trace));
          } else {
            r := Success("Error: " + message);
          }
        case Unexpected(message, trace) =>
          if debug {
            r := Success(DebugMessage(message, trace));
          } else {
            r := Failure(Raised(message));
          }
      }
    }

    /** rescore_problem: regrade the stored answers of a done problem. The
        attempts and the done flag are never changed; only the score is. */
    method RescoreProblem(supportsRescoring: bool, regrade: GradeOutcome)
      returns (r: Result<string, CapaError>)
      modifies this`score
      ensures !supportsRescoring ==>
        r == Failure(NotImplemented("Problem's definition does not support rescoring")) && score == old(score)
      ensures supportsRescoring && !done ==>
        r == Failure(NotFound("Problem must be answered before it can be graded again")) && score == old(score)
      ensures supportsRescoring && done ==>
        match regrade
        case Graded(correctMap, newScore) =>
          score == newScore && r == Success(if AllCorrect(correctMap) then "correct" else "incorrect")
        case InputError(message, _) =>
          score == old(score) && r == Success("Error: " + message)
        case Unexpected(message, trace) =>
          && score == old(score)
          && r == (if debug then Success(DebugMessage(message, trace)) else Failure(Raised(message)))
    {
      if !supportsRescoring {
        return Failure(NotImplemented("Problem's definition does not support rescoring"));
      }
      if !done {
        return Failure(NotFound("Problem must be answered before it can be graded again"));
      }
      match regrade {
        case Graded(correctMap, newScore) =>
          score := newScore;
          var success := OverallSuccess(correctMap);
          r := Success(success);
        case InputError(message, _) =>
          r := Success("Error: " + message);
        case Unexpected(message, trace) =>
          if debug {
            r := Success(DebugMessage(message, trace));
          } else {
            r := Failure(Raised(message));
          }
      }
    }

    /** save_problem: store the answers without grading them. A closed
        problem refuses unless it allows no attempts at all (max_attempts
        of 0); a done problem that rerandomizes always needs a reset first. */
    method SaveProblem(data: FormData, decode: string -> Option<Json>, now: int)
      returns (r: Result<SaveReply, CapaError>)
      modifies this`studentAnswers
      ensures !Acceptable(data, decode) ==>
        r.Failure? && r.error.Rejected? && RaisedFor(data, decode, r.error.cause)
        && studentAnswers == old(studentAnswers)
      ensures Acceptable(data, decode) && Closed(now) && maxAttempts != Some(0) ==>
        r == Success(SaveReply(false, "Problem is closed")) && studentAnswers == old(studentAnswers)
      ensures Acceptable(data, decode) && !(Closed(now) && maxAttempts != Some(0)) && done && rerandomize == "always" ==>
        r == Success(SaveReply(false, "Problem needs to be reset prior to save"))
        && studentAnswers == old(studentAnswers)
      ensures Acceptable(data, decode) && !(Closed(now) && maxAttempts != Some(0)) && !(done && rerandomize == "always") ==>
        && studentAnswers == Answers(data, decode)
        && r == Success(SaveReply(true, SavedMessage(maxAttempts)))
    {
      var parsed := MakeDictOfResponses(data, decode);
      if parsed.Failure? {
        return Failure(Rejected(parsed.error));
      }
      if Closed(now) && maxAttempts != Some(0) {
        return Success(SaveReply(false, "Problem is closed"));
      }
      if done && rerandomize == "always" {
        return Success(SaveReply(false, "Problem needs to be reset prior to save"));
      }
      studentAnswers := parsed.value;
      var msg := "Your answers have been saved";
      if maxAttempts != Some(0) {
        msg := msg + " but not graded. Hit 'Check' to grade them.";
      }
      assert msg == SavedMessage(maxAttempts);
      return Success(SaveReply(true, msg));
    }

    /** reset_problem: start the problem over once it is done. The seed is
        redrawn (`newSeed`) only under the "always" and "onreset" policies;
        the regenerated problem has no answers and the score `freshScore`.
        The attempts are never reset. */
    method ResetProblem(now: int, newSeed: nat, freshScore: Score) returns (r: ResetReply)
      modifies this`done, this`seed, this`studentAnswers, this`score
      ensures Closed(now) ==> r == ResetRefused("Problem is closed") && unchanged(this)
      ensures !Closed(now) && !old(done) ==>
        r == ResetRefused("Refresh the page and make an attempt before resetting.") && unchanged(this)
      ensures !Closed(now) && old(done) ==>
        && r == ResetDone && !done && studentAnswers == map[] && score == freshScore
        && seed == (if rerandomize in ["always", "onreset"] then newSeed else old(seed))
      ensures attempts == old(attempts)
      ensures old(Consistent()) ==> Consistent()
    {
      if Closed(now) {
        return ResetRefused("Problem is closed");
      }
      if !done {
        return ResetRefused("Refresh the page and make an attempt before resetting.");
      }
      if rerandomize in ["always", "onreset"] {
        seed := newSeed;
      }
      done := false;
      studentAnswers := map[];
      score := freshScore;
      return ResetDone;
    }
  }

  /** The waiting rule of the grading queue: a queued problem takes no new
      submission until the wait has passed since the latest one. */
  predicate MustWait(now: int, queue: Queue)
  {
    queue.queued && now - queue.lastSubmit < queue.waitTime
  }

  /** The reply to an unexpected error when debugging is on. */
  function DebugMessage(message: string, trace: string): string {
    "Error checking problem: " + message + "\nTraceback:\n" + trace
  }

  /** The message of a successful save: only a problem that can be graded
      asks for a check. */
  function SavedMessage(maxAttempts: Option<nat>): string {
    "Your answers have been saved" + (if maxAttempts != Some(0) then " but not graded. Hit 'Check' to grade them." else "")
  }

  // ---------------------------------------------------------------------
  // Properties of the show-answer table
  // ---------------------------------------------------------------------

  /** The '' and "never" policies hide the answer even from staff. */
  lemma NeverShown(m: CapaModule, now: int)
    ensures !m.ShownUnder("", now) && !m.ShownUnder("never", now)
  {
  }

  /** Staff see the answer under every other policy, known or not. */
  lemma StaffShownOtherwise(m: CapaModule, policy: string, now: int)
    requires m.userIsStaff && policy != "" && policy != "never"
    ensures m.ShownUnder(policy, now)
  {
  }

  /** An unknown policy hides the answer from students. */
  lemma UnknownPolicyHidden(m: CapaModule, policy: string, now: int)
    requires !m.userIsStaff
    requires policy !in ["", "never", "attempted", "answered", "closed", "finished", "past_due", "always"]
    ensures !m.ShownUnder(policy, now)
  {
  }

  /** The time-based policies are ordered: past_due shows no earlier than
      closed, closed no earlier than finished, and "always" shows whenever
      any policy does. */
  lemma PoliciesOrdered(m: CapaModule, policy: string, now: int)
    ensures m.ShownUnder("past_due", now) ==> m.ShownUnder("closed", now)
    ensures m.ShownUnder("closed", now) ==> m.ShownUnder("finished", now)
    ensures m.ShownUnder(policy, now) ==> m.ShownUnder("always", now)
  {
  }

  /** For a consistent state, 'answered' shows no earlier than 'attempted':
      a reset clears done but keeps the attempts. */
  lemma AnsweredAfterAttempted(m: CapaModule, now: int)
    requires m.Consistent()
    ensures m.ShownUnder("answered", now) ==> m.ShownUnder("attempted", now)
  {
  }

  /** A problem once closed stays closed as time passes, and an answer once
      shown stays shown. */
  lemma ShownPersists(m: CapaModule, policy: string, now: int, later: int)
    requires now <= later
    ensures m.Closed(now) ==> m.Closed(later)
    ensures m.ShownUnder(policy, now) ==> m.ShownUnder(policy, later)
  {
  }

  // ---------------------------------------------------------------------
  // The handler table of handle_ajax
  // ---------------------------------------------------------------------

  datatype Handler =
    | GetProblem | CheckProblemHandler | ResetProblemHandler | SaveProblemHandler
    | GetAnswer | UpdateScore | InputAjax | UngradedResponse

  /** The dispatch name under which each handler is registered. */
  function HandlerName(h: Handler): string {
    match h
    case GetProblem => "problem_get"
    case CheckProblemHandler => "problem_check"
    case ResetProblemHandler => "problem_reset"
    case SaveProblemHandler => "problem_save"
    case GetAnswer => "problem_show"
    case UpdateScore => "score_update"
    case InputAjax => "input_ajax"
    case UngradedResponse => "ungraded_response"
  }

  /** The handler registered under `dispatch`, if any. */
  function LookupHandler(dispatch: string): (r: Option<Handler>)
    ensures r.Some? ==> HandlerName(r.value) == dispatch
  {
    if dispatch == "problem_get" then Some(GetProblem)
    else if dispatch == "problem_check" then Some(CheckProblemHandler)
    else if dispatch == "problem_reset" then Some(ResetProblemHandler)
    else if dispatch == "problem_save" then Some(SaveProblemHandler)
    else if dispatch == "problem_show" then Some(GetAnswer)
    else if dispatch == "score_update" then Some(UpdateScore)
    else if dispatch == "input_ajax" then Some(InputAjax)
    else if dispatch == "ungraded_response" then Some(UngradedResponse)
    else None
  }

  /** Every registered name finds its own handler, so the table is
      one-to-one. */
  lemma LookupFindsEveryHandler(h: Handler)
    ensures LookupHandler(HandlerName(h)) == Some(h)
  {
  }

  /** The dispatch step of handle_ajax: the handler to run, or the reply to
      an unknown action (which runs no handler). */
  function Dispatch(dispatch: string): (r: Result<Handler, string>)
    ensures r.Success? <==> exists h :: HandlerName(h) == dispatch
    ensures r.Success? ==> HandlerName(r.value) == dispatch
    ensures r.Failure? ==> r.error == "Error: " + dispatch + " is not a known capa action"
  {
    match LookupHandler(dispatch)
    case Some(h) => Success(h)
    case None =>
      assert forall h :: HandlerName(h) != dispatch by {
        forall h ensures HandlerName(h) != dispatch {
          LookupFindsEveryHandler(h);
        }
      }
      Failure("Error: " + dispatch + " is not a known capa action")
  }

  /** The message handle_ajax wraps a handler's exception in: the "state
      has changed" text for NotFoundError and the generic text otherwise. */
  function ProcessingMessage(e: CapaError): string {
    if e.NotFound? then NotFoundErrorMessage else GenericErrorMessage
  }

  const NotFoundErrorMessage := "The state of this problem has changed since you loaded this page. Please refresh your page."
  const GenericErrorMessage := "We're sorry, there was an error with processing your request. Please try reloading your page and trying again."

  /** The ProcessingError handle_ajax raises: its message and the original
      exception. */
  datatype ProcessingError = ProcessingError(message: string, cause: CapaError)

  /** What handle_ajax makes of a handler's outcome: a reply passes through,
      an exception is re-raised as a ProcessingError that keeps it, with
      the "state has changed" message exactly for a NotFoundError. */
  function WrapHandlerError<T>(outcome: Result<T, CapaError>): (r: Result<T, ProcessingError>)
    ensures r.Success? <==> outcome.Success?
    ensures r.Success? ==> r.value == outcome.value
    ensures r.Failure? ==> r.error.cause == outcome.error
    ensures r.Failure? && outcome.error.NotFound? ==> r.error.message == NotFoundErrorMessage
    ensures r.Failure? && !outcome.error.NotFound? ==> r.error.message == GenericErrorMessage
  {
    match outcome
    case Success(v) => Success(v)
    case Failure(e) => Failure(ProcessingError(ProcessingMessage(e), e))
  }

  // ---------------------------------------------------------------------
  // The descriptor
  // ---------------------------------------------------------------------

  /** backcompat_paths: the path less its first eight characters (the
      length of "problem/"), with and without a "problems/" prefix. Python's
      slice gives "" for a shorter path. */
  function BackcompatPaths(path: string): (r: seq<string>)
    ensures |r| == 2 && r[0] == "problems/" + r[1]
    ensures |path| >= 8 ==> path == path[..8] + r[1]
    ensures |path| <= 8 ==> r[1] == ""
  {
    var tail := if |path| >= 8 then path[8..] else "";
    ["problems/" + tail, tail]
  }

  /** An old 'problem/<name>' path is looked up as 'problems/<name>' and
      as '<name>'. */
  lemma BackcompatOfProblemPath(name: string)
    ensures BackcompatPaths("problem/" + name) == ["problems/" + name, name]
  {
    assert ("problem/" + name)[8..] == name;
  }

  /** `t` occurs in `s` at position `i`. */
  ghost predicate OccursAt(s: string, t: string, i: nat)
  {
    i + |t| <= |s| && s[i..i + |t|] == t
  }

  /** Python's `t in s` for strings, scanning from the left. */
  function Contains(s: string, t: string): (r: bool)
    decreases |s|
  {
    if |t| > |s| then false
    else if s[..|t|] == t then true
    else Contains(s[1..], t)
  }

  /** The scan finds `t` exactly when it occurs somewhere in `s`. */
  lemma {:induction false} ContainsOccurs(s: string, t: string)
    ensures Contains(s, t) <==> exists i: nat :: OccursAt(s, t, i)
    decreases |s|
  {
    if |t| > |s| {
      assert forall i: nat :: !OccursAt(s, t, i);
    } else if s[..|t|] == t {
      assert OccursAt(s, t, 0);
    } else {
      ContainsOccurs(s[1..], t);
      if Contains(s[1..], t) {
        var i: nat :| OccursAt(s[1..], t, i);
        assert s[i + 1..i + 1 + |t|] == s[1..][i..i + |t|];
        assert OccursAt(s, t, i + 1);
      } else {
        forall i: nat | OccursAt(s, t, i) ensures false {
          if i > 0 {
            assert s[1..][i - 1..i - 1 + |t|] == s[i..i + |t|];
            assert OccursAt(s[1..], t, i - 1);
          }
        }
      }
    }
  }

  /** filter_templates: a template whose id mentions 'latex' is offered only
      to courses that use the LaTeX compiler; every other is always offered. */
  function FilterTemplates(templateId: string, useLatexCompiler: bool): (r: bool)
    ensures r <==> useLatexCompiler || !exists i: nat :: OccursAt(templateId, "latex", i)
  {
    ContainsOccurs(templateId, "latex");
    !Contains(templateId, "latex") || useLatexCompiler
  }

  // ---------------------------------------------------------------------
  // The module as written: names it uses but never imports
  // ---------------------------------------------------------------------

  /** is_past_due as written: `datetime` is evaluated only once a close
      date is set (the `and` short-circuits), and is not defined. */
  function IsPastDueAsWritten(closeDate: Option<int>, now: int): PyOutcome<bool>
  {
    if closeDate.None? then Returns(false) else NameErrorOn("datetime")
  }

  /** closed() as written: a problem with attempts left and a close date
      raises instead of answering. */
  function ClosedAsWritten(maxAttempts: Option<nat>, attempts: nat, closeDate: Option<int>, now: int): PyOutcome<bool>
  {
    if maxAttempts.Some? && attempts >= maxAttempts.value then Returns(true)
    else IsPastDueAsWritten(closeDate, now)
  }

  /** A problem with unlimited attempts and any close date cannot even be
      asked whether it is closed, while the intended rule answers. */
  lemma ClosedAsWrittenRaises(m: CapaModule, now: int)
    requires m.maxAttempts.None? && m.closeDate.Some?
    ensures ClosedAsWritten(m.maxAttempts, m.attempts, m.closeDate, now) == NameErrorOn("datetime")
    ensures m.Closed(now) <==> now > m.closeDate.value
  {
  }

  /** check_problem as written: a malformed form raises the ValueError of
      make_dict_of_responses; the answers of any other are passed to
      `convert_files_to_filenames`, which is not defined. Either way the
      call never returns, and no form is ever graded. */
  ghost function CheckProblemAsWritten(data: FormData, decode: string -> Option<Json>): (r: PyOutcome<()>)
    ensures !r.Returns?
    ensures r.NameErrorOn? <==> Acceptable(data, decode)
    ensures r.ValueErrorWith? ==> exists e :: RaisedFor(data, decode, e) && r.message == e.Message()
  {
    if Acceptable(data, decode) then NameErrorOn("convert_files_to_filenames")
    else
      RejectedHasCause(data, decode);
      var e :| RaisedFor(data, decode, e);
      ValueErrorWith(e.Message())
  }

  /** A form with the key "input" raises a ValueError as written, as the
      intended check also refuses it. */
  lemma UnderscorelessCheckRaises(decode: string -> Option<Json>, v: string)
    ensures CheckProblemAsWritten([("input", v)], decode).ValueErrorWith?
  {
    UnderscorelessKeyRejected(decode, v);
  }

  /** The source's own example form cannot be checked as written, while the
      intended check grades it on an open problem. */
  lemma CheckAsWrittenNeverGrades(m: CapaModule, decode: string -> Option<Json>, now: int, queue: Queue)
    requires !m.Closed(now) && !m.done && !MustWait(now, queue)
    ensures CheckProblemAsWritten([("input_1[]", "test")], decode) == NameErrorOn("convert_files_to_filenames")
    ensures m.Grades([("input_1[]", "test")], decode, now, queue)
  {
    ListKeyAccepted(decode);
  }
}
