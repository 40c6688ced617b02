/** Staff grading of uploaded assignments (StaffGradingModule): the status
    table of submissions, kept in a SimpleDB domain, and the module's score,
    handler gating and naming rules.

    The domain is an in-memory sequence of records, in the order a select
    returns them. Converting a grade text to a number (Python's float) and
    quoting a file name (urllib.quote) are passed in as functions; the
    current time is an integer passed in by the caller. */
module StaffGrading {
  import opened Wrappers
  import opened Responses

  /** One item of the staff_grading domain. */
  datatype Record = Record(
    courseId: string,
    moduleId: string,
    username: string,
    name: string,
    anonUserId: string,
    s3Filename: string,
    studentFilename: string,
    created: int,
    score: Option<real>,
    staffComments: Option<string>,
    gradedBy: Option<string>,
    gradedDt: Option<int>)

  /** The attributes the module selects on. */
  datatype Attribute = CourseId | ModuleId | Username | StudentFilename

  function AttributeName(a: Attribute): string {
    match a
    case CourseId => "course_id"
    case ModuleId => "module_id"
    case Username => "username"
    case StudentFilename => "student_filename"
  }

  function Field(rec: Record, a: Attribute): string {
    match a
    case CourseId => rec.courseId
    case ModuleId => rec.moduleId
    case Username => rec.username
    case StudentFilename => rec.studentFilename
  }

  /** An equality condition of a select: attribute = 'value'. */
  datatype Condition = Eq(attribute: Attribute, value: string)

  /** The text of a condition in a select expression. */
  function ConditionText(c: Condition): string {
    AttributeName(c.attribute) + " = '" + c.value + "'"
  }

  function ConditionTexts(conds: seq<Condition>): (r: seq<string>)
    ensures |r| == |conds|
    ensures forall i :: 0 <= i < |conds| ==> r[i] == ConditionText(conds[i])
  {
    if conds == [] then [] else [ConditionText(conds[0])] + ConditionTexts(conds[1..])
  }

  /** ' and '.join(texts). */
  function JoinAnd(texts: seq<string>): string
  {
    if texts == [] then ""
    else if |texts| == 1 then texts[0]
    else texts[0] + " and " + JoinAnd(texts[1..])
  }

  /** Joining one more text appends it after ' and '. */
  lemma {:induction false} JoinAndSnoc(texts: seq<string>, t: string)
    requires texts != []
    ensures JoinAnd(texts + [t]) == JoinAnd(texts) + " and " + t
  {
    if |texts| == 1 {
      assert texts + [t] == [texts[0], t];
      assert [texts[0], t][1..] == [t];
    } else {
      assert (texts + [t])[1..] == texts[1..] + [t];
      JoinAndSnoc(texts[1..], t);
    }
  }

  /** The select expression whose where clause is the conjunction of
      `conds`. */
  function SelectText(conds: seq<Condition>): string {
    "select * from staff_grading where " + JoinAnd(ConditionTexts(conds))
  }

  /** A record satisfies a condition when its attribute has that value. */
  predicate Matches(rec: Record, c: Condition) {
    Field(rec, c.attribute) == c.value
  }

  predicate MatchesAll(rec: Record, conds: seq<Condition>) {
    forall i :: 0 <= i < |conds| ==> Matches(rec, conds[i])
  }

  /** What the select returns: the matching records, in domain order. */
  function Select(items: seq<Record>, conds: seq<Condition>): seq<Record>
  {
    if items == [] then []
    else if MatchesAll(items[0], conds) then [items[0]] + Select(items[1..], conds)
    else Select(items[1..], conds)
  }

  /** The select keeps exactly the records that meet every condition. */
  lemma {:induction false} SelectMembers(items: seq<Record>, conds: seq<Condition>)
    ensures forall rec :: rec in Select(items, conds) <==> rec in items && MatchesAll(rec, conds)
  {
    if items != [] {
      SelectMembers(items[1..], conds);
      assert forall rec :: rec in items <==> rec == items[0] || rec in items[1..];
    }
  }

  /** The index of the first record that meets every condition. */
  function FirstMatch(items: seq<Record>, conds: seq<Condition>): (r: Option<nat>)
    ensures r.Some? ==> r.value < |items| && MatchesAll(items[r.value], conds)
    ensures r.Some? ==> forall j :: 0 <= j < r.value ==> !MatchesAll(items[j], conds)
    ensures r.None? ==> forall j :: 0 <= j < |items| ==> !MatchesAll(items[j], conds)
  {
    if items == [] then None
    else if MatchesAll(items[0], conds) then Some(0)
    else match FirstMatch(items[1..], conds)
      case None => None
      case Some(i) => Some(i + 1)
  }

  /** The first record of a select is the domain's first match, and the
      select is empty exactly when nothing matches. */
  lemma {:induction false} SelectStartsAtFirstMatch(items: seq<Record>, conds: seq<Condition>)
    ensures Select(items, conds) == [] <==> FirstMatch(items, conds).None?
    ensures FirstMatch(items, conds).Some? ==> Select(items, conds)[0] == items[FirstMatch(items, conds).value]
  {
    if items != [] && !MatchesAll(items[0], conds) {
      SelectStartsAtFirstMatch(items[1..], conds);
    }
  }

  /** Two records agree on every attribute the module selects on. */
  predicate SameKeys(a: Record, b: Record) {
    a.courseId == b.courseId && a.moduleId == b.moduleId && a.username == b.username
    && a.studentFilename == b.studentFilename
  }

  /** Rewriting the first match with a record of the same keys leaves it
      the first match: a later select finds the updated record first. */
  lemma ReplacingKeepsFirstMatch(items: seq<Record>, conds: seq<Condition>, i: nat, rec: Record)
    requires FirstMatch(items, conds) == Some(i)
    requires SameKeys(items[i], rec)
    ensures FirstMatch(items[i := rec], conds) == Some(i)
  {
    var updated := items[i := rec];
    assert forall j :: 0 <= j < |items| ==> SameKeys(items[j], updated[j]);
    assert forall j, c :: 0 <= j < |items| && c in conds ==> (Matches(items[j], c) <==> Matches(updated[j], c));
    FirstMatchUnique(updated, conds, i);
  }

  /** The first match is the one index meeting the conditions with none
      before it. */
  lemma FirstMatchUnique(items: seq<Record>, conds: seq<Condition>, i: nat)
    requires i < |items| && MatchesAll(items[i], conds)
    requires forall j :: 0 <= j < i ==> !MatchesAll(items[j], conds)
    ensures FirstMatch(items, conds) == Some(i)
  {
    var r := FirstMatch(items, conds);
    assert r.Some?;
    assert !(r.value < i);
    assert !(i < r.value);
  }

  /** The grade is removed: score, comments and grading time become empty;
      who graded is kept. */
  function Cleared(rec: Record): Record {
    rec.(score := None, staffComments := None, gradedDt := None)
  }

  /** The grade is entered, with the comments, the staff member grading and the time. */
  function Graded(rec: Record, score: real, comments: string, gradedBy: string, now: int): Record {
    rec.(score := Some(score), staffComments := Some(comments), gradedBy := Some(gradedBy), gradedDt := Some(now))
  }

  /** The status table of one staff-grading module, for one viewing user. */
  class FileStatus {
    const courseId: string
    const moduleId: string
    /** The module's user: their username and their full name. */
    const user: string
    const userFullName: string
    const maxScore: real
    /** The staff_grading domain. */
    var items: seq<Record>

    constructor (courseId: string, moduleId: string, user: string, userFullName: string, maxScore: real,
                 items: seq<Record>)
      ensures this.courseId == courseId && this.moduleId == moduleId
      ensures this.user == user && this.userFullName == userFullName && this.maxScore == maxScore
      ensures this.items == items
    {
      this.courseId := courseId;
      this.moduleId := moduleId;
      this.user := user;
      this.userFullName := userFullName;
      this.maxScore := maxScore;
      this.items := items;
    }

    /** The conditions of get_all_status: this course, this module, then the
        extra conditions in order. */
    function Conditions(extra: seq<Condition>): (r: seq<Condition>)
      ensures |r| == |extra| + 2 && r[2..] == extra
      ensures r[0] == Eq(CourseId, courseId) && r[1] == Eq(ModuleId, moduleId)
    {
      [Eq(CourseId, courseId), Eq(ModuleId, moduleId)] + extra
    }

    /** The select expression get_all_status sends. */
    function AllStatusQuery(extra: seq<Condition>): string {
      SelectText(Conditions(extra))
    }

    /** get_all_status: the records of this course and module that meet the
        extra conditions. */
    function AllStatus(extra: seq<Condition>): seq<Record>
      reads this
    {
      Select(items, Conditions(extra))
    }

    /** get_status: get_all_status for the module's own user. */
    function StatusConditions(): seq<Condition> {
      [Eq(Username, user)]
    }

    function Status(): seq<Record>
      reads this
    {
      AllStatus(StatusConditions())
    }

    function SavedMessage(): string {
      "Saved grade and comment for " + user + " (" + userFullName + ")"
    }

    /** update_status: edit the first record get_all_status(extra) returns.
        Without a score the grade is removed; a score that is not a number
        or exceeds the maximum is refused and nothing is saved; otherwise
        the grade, comments, grading user and time are saved. Only that record
        changes. */
    method UpdateStatus(score: Option<string>, comments: string, extra: seq<Condition>,
                        toFloat: string -> Option<real>, now: int)
      returns (ok: bool, msg: string)
      modifies this`items
      ensures FirstMatch(old(items), Conditions(extra)).None? ==>
        !ok && msg == "No record found" && items == old(items)
      ensures FirstMatch(old(items), Conditions(extra)).Some? ==>
        var i := FirstMatch(old(items), Conditions(extra)).value;
        match score
        case None =>
          ok && msg == SavedMessage() && items == old(items)[i := Cleared(old(items)[i])]
        case Some(text) =>
          if toFloat(text).Some? && toFloat(text).value <= maxScore then
            ok && msg == SavedMessage()
            && items == old(items)[i := Graded(old(items)[i], toFloat(text).value, comments, user, now)]
          else
            !ok && msg == "Bad grade value, must be numeric" && items == old(items)
      ensures |items| == |old(items)|
      ensures forall j :: 0 <= j < |items| ==> SameKeys(items[j], old(items)[j])
    {
      var first := FirstMatch(items, Conditions(extra));
      if first.None? {
        return false, "No record found";
      }
      var i := first.value;
      var item := items[i];
      match score {
        case None =>
          item := Cleared(item);
        case Some(text) =>
          var value := toFloat(text);
          if value.None? || !(value.value <= maxScore) {
            return false, "Bad grade value, must be numeric";
          }
          item := Graded(item, value.value, comments, user, now);
      }
      items := items[i := item];
      return true, SavedMessage();
    }
  }

  /** Which handler handle_ajax runs. */
  datatype Action = Upload | Download | List | EnterScore | RemoveScore | NotFound404

  /** handle_ajax's routing: 'score' and 'unscore' run only for staff;
      those from anyone else, and every unknown dispatch, raise Http404. */
  function Route(dispatch: string, userIsStaff: bool): (r: Action)
    ensures r == Upload <==> dispatch == "upload"
    ensures r == Download <==> dispatch == "download"
    ensures r == List <==> dispatch == "list"
    ensures r == EnterScore <==> dispatch == "score" && userIsStaff
    ensures r == RemoveScore <==> dispatch == "unscore" && userIsStaff
    ensures r == NotFound404 <==>
      dispatch !in ["upload", "download", "list"] && !(userIsStaff && dispatch in ["score", "unscore"])
  {
    if dispatch == "upload" then Upload
    else if dispatch == "download" then Download
    else if dispatch == "list" then List
    else if dispatch == "score" && userIsStaff then EnterScore
    else if dispatch == "unscore" && userIsStaff then RemoveScore
    else NotFound404
  }

  /** Python's dict.get on the form: the value under `key`, or `default`. */
  function FormGet(data: FormData, key: string, default: string): (r: string)
    ensures key !in Keys(data) ==> r == default
    ensures key in Keys(data) ==>
      exists i :: 0 <= i < |data| && data[i] == (key, r) && IsLastUnder(data, key, i)
  {
    if key in Keys(data) then
      LastValueIsLast(data, key);
      LastValue(data, key)
    else default
  }

  /** The extra condition of enter_score and remove_score: the student
      named by 'uname', for staff only. */
  function ScoringConditions(data: FormData, userIsStaff: bool): (r: seq<Condition>)
    ensures r != [] <==> "uname" in Keys(data) && userIsStaff
    ensures r != [] ==> r == [Eq(Username, FormGet(data, "uname", ""))]
  {
    if "uname" in Keys(data) && userIsStaff then [Eq(Username, LastValue(data, "uname"))] else []
  }

  /** The extra conditions of do_download: the file name 'fn' if given, then
      the student 'uname', for staff only. */
  function DownloadConditions(data: FormData, userIsStaff: bool): (r: seq<Condition>)
    ensures (exists i :: 0 <= i < |r| && r[i].attribute == StudentFilename) <==> "fn" in Keys(data)
    ensures (exists i :: 0 <= i < |r| && r[i].attribute == Username) <==> "uname" in Keys(data) && userIsStaff
    ensures "fn" in Keys(data) ==> r[0] == Eq(StudentFilename, FormGet(data, "fn", ""))
    ensures forall i :: 0 <= i < |r| ==>
      r[i] == Eq(StudentFilename, FormGet(data, "fn", "")) || r[i] == Eq(Username, FormGet(data, "uname", ""))
    ensures forall i, j :: 0 <= i < j < |r| ==> r[i].attribute != r[j].attribute
  {
    var byName := if "fn" in Keys(data) then [Eq(StudentFilename, LastValue(data, "fn"))] else [];
    var byUser := ScoringConditions(data, userIsStaff);
    var r := byName + byUser;
    assert byName != [] ==> r[0] == byName[0];
    assert byUser != [] ==> r[|byName|] == byUser[0];
    assert forall i :: |byName| <= i < |r| ==> r[i] == byUser[i - |byName|];
    r
  }

  /** The close date: the due date extended by the grace period when both
      are set, and the due date otherwise. */
  function CloseDate(due: Option<int>, grace: Option<int>): (r: Option<int>)
    ensures r.Some? <==> due.Some?
    ensures due.Some? && grace.Some? ==> r.value - due.value == grace.value
    ensures grace.None? ==> r == due
  {
    if grace.Some? && due.Some? then Some(due.value + grace.value) else due
  }

  /** A grace period never brings the close date before the due date. */
  lemma GraceExtends(due: Option<int>, grace: Option<int>, now: int)
    requires grace.Some? ==> grace.value >= 0
    ensures var c := CloseDate(due, grace); c.Some? && now > c.value ==> now > due.value
  {
  }

  /** is_past_due as written: the module imports pytz's `UTC`, which is
      the UTC time zone object itself, not a class, so `UTC()` is not
      callable. It is evaluated only once a close date is set (the `and`
      short-circuits). */
  function IsPastDueAsWritten(closeDate: Option<int>, now: int): PyOutcome<bool>
  {
    if closeDate.None? then Returns(false) else TypeErrorOn("UTC")
  }

  /** Every module with a due date raises as written when asked whether it
      is past due, while the intended rule compares the time with the
      close date. */
  lemma IsPastDueAsWrittenRaises(m: StaffGradingModule, now: int)
    requires m.closeDate.Some?
    ensures IsPastDueAsWritten(m.closeDate, now) == TypeErrorOn("UTC")
    ensures m.IsPastDue(now) <==> now > m.closeDate.value
  {
  }

  /** A module without a due date answers as written, and as intended: not
      past due. */
  lemma IsPastDueAsWrittenWithoutDue(m: StaffGradingModule, now: int)
    requires m.closeDate.None?
    ensures IsPastDueAsWritten(m.closeDate, now) == Returns(false) && !m.IsPastDue(now)
  {
  }

  /** make_file_name: username, course, location and the quoted student
      file name, separated by '__'. */
  function MakeFileName(username: string, courseId: string, location: string, fname: string,
                        quote: string -> string): string
  {
    username + "__" + courseId + "__" + location + "__" + quote(fname)
  }

  /** Names made for two users without underscores in their usernames are
      equal only when the users are. */
  lemma FileNameIdentifiesUser(u1: string, u2: string, c1: string, c2: string, l1: string, l2: string,
                               f1: string, f2: string, quote: string -> string)
    requires '_' !in u1 && '_' !in u2
    requires MakeFileName(u1, c1, l1, f1, quote) == MakeFileName(u2, c2, l2, f2, quote)
    ensures u1 == u2
  {
    var n := MakeFileName(u1, c1, l1, f1, quote);
    var rest1 := "_" + c1 + "__" + l1 + "__" + quote(f1);
    var rest2 := "_" + c2 + "__" + l2 + "__" + quote(f2);
    assert n == u1 + ("_" + rest1);
    assert n == u2 + ("_" + rest2);
    AfterUnderscorePrefix(u1, "_" + rest1);
    AfterUnderscorePrefix(u2, "_" + rest2);
    assert ("_" + rest1)[1..] == rest1;
    assert ("_" + rest2)[1..] == rest2;
    assert |u1| == |u2|;
    assert u1 == n[..|u1|] == u2;
  }

  /** The name of a new item: course, location and username joined by ':'. */
  function ItemName(courseId: string, location: string, username: string): string {
    courseId + ":" + location + ":" + username
  }

  /** Within one course and location, the item name determines the user. */
  lemma ItemNameIdentifiesUser(courseId: string, location: string, u1: string, u2: string)
    requires ItemName(courseId, location, u1) == ItemName(courseId, location, u2)
    ensures u1 == u2
  {
    var k := |courseId| + 1 + |location| + 1;
    assert ItemName(courseId, location, u1)[k..] == u1;
    assert ItemName(courseId, location, u2)[k..] == u2;
  }

  /** The staff-grading module of one viewing user. */
  class StaffGradingModule {
    const fstat: FileStatus
    const closeDate: Option<int>
    const userIsStaff: bool
    var score: Option<real>

    /** __init__: the close date from the due date and grace period, then
        the score from the user's status record. The score is a user-state
        field, so `stored` is the value it already holds; without a status
        record it is kept. */
    constructor (fstat: FileStatus, due: Option<int>, grace: Option<int>, userIsStaff: bool, stored: Option<real>)
      ensures this.fstat == fstat && this.userIsStaff == userIsStaff
      ensures closeDate == CloseDate(due, grace)
      ensures score == (if fstat.Status() == [] then stored else fstat.Status()[0].score)
    {
      this.fstat := fstat;
      this.closeDate := CloseDate(due, grace);
      this.userIsStaff := userIsStaff;
      this.score := stored;
      new;
      UpdateScore();
    }

    /** update_score: take the score of the user's first status record;
        with no record the score is left as it was. */
    method UpdateScore()
      modifies this`score
      ensures fstat.Status() != [] ==> score == fstat.Status()[0].score
      ensures fstat.Status() == [] ==> score == old(score)
    {
      var rset := fstat.AllStatus(fstat.StatusConditions());
      if rset != [] && rset[0].score.Some? {
        score := rset[0].score;
      } else if rset != [] {
        score := None;
      }
    }

    predicate IsGraded()
      reads this
    {
      score.Some?
    }

    predicate IsPastDue(now: int)
      reads this
    {
      closeDate.Some? && now > closeDate.value
    }

    /** enter_score: grade the first record found, by default the module's
        whole table; staff may name the student with 'uname'. A form
        without 'grade' submits the empty text, which Python's float
        refuses, so `toFloat` is taken to refuse it too. */
    method EnterScore(data: FormData, toFloat: string -> Option<real>, now: int)
      returns (ok: bool, msg: string)
      requires toFloat("") == None
      modifies fstat
      ensures "grade" !in Keys(data) ==> !ok && fstat.items == old(fstat.items)
      ensures var conds := fstat.Conditions(ScoringConditions(data, userIsStaff));
        match FirstMatch(old(fstat.items), conds)
        case None => !ok && msg == "No record found" && fstat.items == old(fstat.items)
        case Some(i) =>
          var value := toFloat(FormGet(data, "grade", ""));
          if value.Some? && value.value <= fstat.maxScore then
            && ok && msg == fstat.SavedMessage()
            && fstat.items == old(fstat.items)[i := Graded(old(fstat.items)[i], value.value,
                                                             FormGet(data, "comments", ""), fstat.user, now)]
          else !ok && msg == "Bad grade value, must be numeric" && fstat.items == old(fstat.items)
    {
      var score := FormGet(data, "grade", "");
      var comments := FormGet(data, "comments", "");
      var extra := ScoringConditions(data, userIsStaff);
      ok, msg := fstat.UpdateStatus(Some(score), comments, extra, toFloat, now);
    }

    /** remove_score: clear the grade of the first record found. */
    method RemoveScore(data: FormData, now: int) returns (ok: bool, msg: string)
      modifies fstat
      ensures var conds := fstat.Conditions(ScoringConditions(data, userIsStaff));
        match FirstMatch(old(fstat.items), conds)
        case None => !ok && msg == "No record found" && fstat.items == old(fstat.items)
        case Some(i) =>
          ok && msg == fstat.SavedMessage() && fstat.items == old(fstat.items)[i := Cleared(old(fstat.items)[i])]
    {
      var extra := ScoringConditions(data, userIsStaff);
      ok, msg := fstat.UpdateStatus(None, "", extra, s => None, now);
    }

    /** do_download, up to the storage lookup: the stored file name of the
        first record found, or the refusal when there is none. */
    function DownloadFile(data: FormData): (r: Result<string, string>)
      reads this, fstat
      ensures r.Failure? <==> fstat.AllStatus(DownloadConditions(data, userIsStaff)) == []
      ensures r.Failure? <==> FirstMatch(fstat.items, fstat.Conditions(DownloadConditions(data, userIsStaff))).None?
      ensures r.Failure? ==> r.error == "No files to download"
      ensures r.Success? ==>
        var first := FirstMatch(fstat.items, fstat.Conditions(DownloadConditions(data, userIsStaff)));
        first.Some? && r.value == fstat.items[first.value].s3Filename
    {
      var rs := fstat.AllStatus(DownloadConditions(data, userIsStaff));
      SelectStartsAtFirstMatch(fstat.items, fstat.Conditions(DownloadConditions(data, userIsStaff)));
      if rs == [] then Failure("No files to download")
      else Success(rs[0].s3Filename)
    }
  }

  // ---------------------------------------------------------------------
  // Properties of the queries
  // ---------------------------------------------------------------------

  /** Each extra condition is appended to the where clause after ' and '. */
  lemma AllStatusQueryAppends(fs: FileStatus, extra: seq<Condition>, c: Condition)
    ensures fs.AllStatusQuery(extra + [c]) == fs.AllStatusQuery(extra) + " and " + ConditionText(c)
  {
    var conds := fs.Conditions(extra);
    assert fs.Conditions(extra + [c]) == conds + [c];
    assert ConditionTexts(conds + [c]) == ConditionTexts(conds) + [ConditionText(c)];
    JoinAndSnoc(ConditionTexts(conds), ConditionText(c));
  }

  /** get_status's select: course, module and exactly one username
      condition. */
  lemma StatusQueryText(fs: FileStatus)
    ensures fs.AllStatusQuery([]) == "select * from staff_grading where "
      + ConditionText(Eq(CourseId, fs.courseId)) + " and " + ConditionText(Eq(ModuleId, fs.moduleId))
    ensures fs.AllStatusQuery(fs.StatusConditions()) ==
      fs.AllStatusQuery([]) + " and " + ConditionText(Eq(Username, fs.user))
  {
    var c := Eq(Username, fs.user);
    assert fs.StatusConditions() == [] + [c];
    AllStatusQueryAppends(fs, [], c);
    assert fs.Conditions([]) == [Eq(CourseId, fs.courseId), Eq(ModuleId, fs.moduleId)];
    var a := ConditionText(Eq(CourseId, fs.courseId));
    var b := ConditionText(Eq(ModuleId, fs.moduleId));
    assert ConditionTexts(fs.Conditions([])) == [a, b];
    assert JoinAnd([a, b]) == a + " and " + b by {
      assert [a, b][1..] == [b];
    }
  }

  /** Values are put into the query unescaped, so a value holding a quote
      can carry a condition of its own: the text of one condition on `a`
      whose value is v' and <b> = 'w is the text of the two conditions on
      `a` with the value v and on `b` with the value w, joined as the where
      clause joins them. */
  lemma QuotedValueSplicesCondition(a: Attribute, b: Attribute, v: string, w: string)
    ensures ConditionText(Eq(a, v + "' and " + AttributeName(b) + " = '" + w))
      == ConditionText(Eq(a, v)) + " and " + ConditionText(Eq(b, w))
  {
    var eq, q, and := " = '", "'", " and ";
    assert "' and " == q + and;
    Regroup(AttributeName(a), eq, v, q, and, AttributeName(b), w);
  }

  /** Regrouping the texts of a spliced condition. */
  lemma Regroup(na: string, eq: string, v: string, q: string, and: string, nb: string, w: string)
    ensures na + eq + (v + (q + and) + nb + eq + w) + q == (na + eq + v + q) + and + (nb + eq + w + q)
  {
  }

  /** get_all_status returns the records that the conditions it is given
      select: those of this course and module that meet every extra
      condition. For values without a quote this is what its query text
      asks for; QuotedValueSplicesCondition shows why the quote matters. */
  lemma AllStatusFilters(fs: FileStatus, extra: seq<Condition>)
    ensures forall rec :: rec in fs.AllStatus(extra) <==>
      && rec in fs.items && rec.courseId == fs.courseId && rec.moduleId == fs.moduleId
      && MatchesAll(rec, extra)
  {
    var conds := fs.Conditions(extra);
    SelectMembers(fs.items, conds);
    forall rec ensures MatchesAll(rec, conds) <==>
      rec.courseId == fs.courseId && rec.moduleId == fs.moduleId && MatchesAll(rec, extra)
    {
      if MatchesAll(rec, conds) {
        assert Matches(rec, conds[0]) && Matches(rec, conds[1]);
        forall i | 0 <= i < |extra| ensures Matches(rec, extra[i]) {
          assert conds[i + 2] == extra[i];
        }
      }
    }
  }

  /** A student's download is not limited to their own records: with
      another student's file first in the table, that file is returned. */
  lemma StudentDownloadIgnoresOwner(m: StaffGradingModule, data: FormData)
    requires !m.userIsStaff && "fn" !in Keys(data)
    requires m.fstat.items != [] && m.fstat.items[0].courseId == m.fstat.courseId
    requires m.fstat.items[0].moduleId == m.fstat.moduleId
    ensures m.DownloadFile(data) == Success(m.fstat.items[0].s3Filename)
  {
    assert DownloadConditions(data, false) == [];
    assert MatchesAll(m.fstat.items[0], m.fstat.Conditions([]));
  }
}
