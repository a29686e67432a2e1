/** The "courses and sessions" tab: `fullExport` filters the courses, rebuilds
    `window.fullExportData` from every course's session rows (or one summary row for a
    course without sessions), and numbers the rows of the results table. */
module CoursesTab {
  import opened JsValues
  import opened Seqs
  import opened Helpers
  import opened Paging
  import opened CoursesApi
  import opened SessionsApi

  /** `summary row` fields of a course with no session rows. */
  function SummaryOwner(course: Course): string {
    OrDefault(course.ownerName, Unknown)
  }

  /** The authors of the summary row: every trimmed entry, empty ones included. */
  function SummaryAuthors(course: Course): string {
    if course.authors.Some? then Join(AllAuthorEntries(course.authors.value), ", ") else Unknown
  }

  /** The category of the summary row: a missing type name reads as "Неизвестно". */
  function SummaryCategory(course: Course): string {
    if course.types.Some? then
      Join(seq(|course.types.value|, i requires 0 <= i < |course.types.value| =>
             OrDefault(course.types.value[i].name, Unknown)), ", ")
    else Unknown
  }

  function SummaryRow(course: Course): ExportRow {
    ExportRow(course.id, course.name, None, None, None, None, 0,
              SummaryOwner(course), SummaryAuthors(course), course.createdAt, SummaryCategory(course))
  }

  /** The rows one course adds, given what `processCourseSessions` returned for it. */
  function CourseRows(course: Course, sessionRows: seq<ExportRow>): seq<ExportRow> {
    if |sessionRows| > 0 then sessionRows else [SummaryRow(course)]
  }

  /** The rows of a run over `courses`, and whether it got through all of them: the run
      stops at the first course whose sessions cannot be fetched because the token
      refresh threw. */
  datatype Run = Run(rows: seq<ExportRow>, complete: bool)

  function RunOver(courses: seq<Course>, sessionServer: Value -> Server<Session>,
                   details: (Value, Value) -> Reply<SessionBody>): Run
  {
    if courses == [] then Run([], true)
    else
      var before := RunOver(courses[..|courses| - 1], sessionServer, details);
      var last := courses[|courses| - 1];
      if !before.complete then before
      else
        var rows := CourseSessionRows(last, sessionServer, details);
        if rows.Thrown? then Run(before.rows, false)
        else Run(before.rows + CourseRows(last, rows.value), true)
  }

  /** Once a run has stopped, the later courses add nothing. */
  lemma {:induction false} StoppedRunStays(courses: seq<Course>, k: nat, sessionServer: Value -> Server<Session>,
                                           details: (Value, Value) -> Reply<SessionBody>)
    requires k <= |courses|
    requires !RunOver(courses[..k], sessionServer, details).complete
    ensures RunOver(courses, sessionServer, details) == RunOver(courses[..k], sessionServer, details)
    decreases |courses| - k
  {
    if k < |courses| {
      var next := courses[..k + 1];
      assert next[..|next| - 1] == courses[..k];
      StoppedRunStays(courses, k + 1, sessionServer, details);
    } else {
      assert courses[..k] == courses;
    }
  }

  /** A course without session rows gets exactly one row: no session, no user, no
      listeners, the owner and type names defaulting to "Неизвестно". */
  lemma SummaryRowShape(course: Course)
    ensures var rows := CourseRows(course, []);
      && |rows| == 1
      && rows[0].courseId == course.id && rows[0].courseName == course.name
      && rows[0].createdAt == course.createdAt
      && rows[0].sessionId.None? && rows[0].sessionName.None?
      && rows[0].userId.None? && rows[0].fullname.None?
      && rows[0].listenersCount == 0
      && (course.ownerName.Some? && course.ownerName.value != "" ==> rows[0].ownerName == course.ownerName.value)
      && (course.ownerName.None? || course.ownerName.value == "" ==> rows[0].ownerName == Unknown)
      && (course.authors.None? ==> rows[0].authorsNames == Unknown)
      && (course.authors == Some([]) ==> rows[0].authorsNames == "")
      && (course.authors.Some? ==> rows[0].authorsNames == Join(AllAuthorEntries(course.authors.value), ", "))
      && (course.types.None? ==> rows[0].category == Unknown)
      && (course.types == Some([]) ==> rows[0].category == "")
      && (forall t: CourseType :: course.types == Some([t]) ==>
            rows[0].category == if t.name.Some? && t.name.value != "" then t.name.value else Unknown)
  {
  }

  /** An author with neither name has an empty entry. */
  lemma {:induction false} NoNameEntry()
    ensures AuthorEntry(Author(None, None)) == ""
  {
    TrimSpace();
    assert Trim("") + " " + Trim("") == " ";
  }

  /** An author with only a (trimmed, non-empty) last name has that last name as entry. */
  lemma {:induction false} LastNameOnlyEntry(x: string)
    requires x != "" && Trim(x) == x
    ensures AuthorEntry(Author(Some(x), None)) == x
  {
    TrimTrailingSpace(x);
    assert Trim(x) + " " + Trim("") == x + " ";
  }

  /** The entries of two authors are their two entries. */
  lemma {:induction false} TwoAuthorEntries(a: Author, b: Author)
    ensures AllAuthorEntries([a, b]) == [AuthorEntry(a), AuthorEntry(b)]
  {
    var entries := AllAuthorEntries([a, b]);
    assert |entries| == 2;
  }

  /** The entries of an author with neither name followed by one with only a last name. */
  lemma {:induction false} ExampleEntries(x: string)
    requires x != "" && Trim(x) == x
    ensures AllAuthorEntries([Author(None, None), Author(Some(x), None)]) == ["", x]
  {
    TwoAuthorEntries(Author(None, None), Author(Some(x), None));
    NoNameEntry();
    LastNameOnlyEntry(x);
  }

  /** Joining an empty entry and `x` leaves the separator in front of `x`. */
  lemma {:induction false} JoinAfterEmpty(x: string, sep: string)
    ensures Join(["", x], sep) == sep + x
  {
    assert ["", x][1..] == [x];
  }

  /** `.filter(Boolean)` drops the empty entry and keeps `x`. */
  lemma {:induction false} FilterDropsEmpty(x: string)
    requires x != ""
    ensures Filter(["", x], NonEmpty) == [x]
  {
    assert ["", x][1..] == [x];
    assert [x][1..] == [];
    assert Filter([x], NonEmpty) == [x] + Filter([], NonEmpty);
    assert Filter(["", x], NonEmpty) == [] + Filter([x], NonEmpty);
  }

  /** Unlike `getAuthorsNames`, the summary row keeps the empty entry of an author with
      neither name: the authors `[{}, {last_name: x}]` read ", x" there and "x" in a
      session row. */
  lemma {:induction false} SummaryKeepsEmptyAuthor(x: string)
    requires x != "" && Trim(x) == x
    ensures var authors := [Author(None, None), Author(Some(x), None)];
      && AuthorEntries(authors) == [x]
      && Join(AllAuthorEntries(authors), ", ") == ", " + x
      && AuthorsNames(CourseInfo(None, Some(authors))) == x
  {
    ExampleEntries(x);
    JoinAfterEmpty(x, ", ");
    FilterDropsEmpty(x);
  }

  /** A completed run over a non-empty list is the run over all but the last course
      followed by the last course's rows. */
  lemma RunOverLast(courses: seq<Course>, sessionServer: Value -> Server<Session>,
                    details: (Value, Value) -> Reply<SessionBody>)
    requires courses != [] && RunOver(courses, sessionServer, details).complete
    ensures var init := courses[..|courses| - 1];
      var last := courses[|courses| - 1];
      && RunOver(init, sessionServer, details).complete
      && CourseSessionRows(last, sessionServer, details).Ok?
      && RunOver(courses, sessionServer, details).rows ==
           RunOver(init, sessionServer, details).rows + CourseRows(last, CourseSessionRows(last, sessionServer, details).value)
  {
  }

  /** The rows one course adds: at least one, all with its id, and the one without a
      session is its summary row, present exactly when it has no session rows. */
  lemma {:induction false} CourseRowsOwn(c: Course, sessionServer: Value -> Server<Session>,
                                         details: (Value, Value) -> Reply<SessionBody>)
    requires CourseSessionRows(c, sessionServer, details).Ok?
    ensures var sessionRows := CourseSessionRows(c, sessionServer, details).value;
      var rows := CourseRows(c, sessionRows);
      && |rows| >= 1
      && (forall row :: row in rows ==> row.courseId == c.id)
      && (forall row :: row in rows && row.sessionId.None? ==> sessionRows == [] && row == SummaryRow(c))
      && (sessionRows == [] ==> rows == [SummaryRow(c)])
  {
    var sessions := FetchFrom(sessionServer(c.id), 1);
    var sessionRows := CourseSessionRows(c, sessionServer, details).value;
    if sessionRows != [] {
      SessionsRowsCopyCourse(c, sessions.value, details);
      forall row | row in sessionRows
        ensures row.sessionId.Some?
      {
        var i :| 0 <= i < |sessions.value| && row.sessionId == Some(sessions.value[i].id)
          && row.sessionName == Some(OrDefault(sessions.value[i].name, Unknown));
      }
    }
  }

  /** The coverage facts carry over from the rows of the first courses to the rows of
      all of them, once the last course's own rows are appended. */
  lemma {:induction false} CoversStep(courses: seq<Course>, init: seq<Course>, before: seq<ExportRow>, own: seq<ExportRow>)
    requires courses != [] && init == courses[..|courses| - 1]
    requires |before| >= |init|
    requires forall row :: row in before ==> exists c :: c in init && row.courseId == c.id
    requires forall i :: 0 <= i < |init| ==> exists row :: row in before && row.courseId == init[i].id
    requires own != [] && forall row :: row in own ==> row.courseId == courses[|courses| - 1].id
    ensures |before + own| >= |courses|
    ensures forall row :: row in before + own ==> exists c :: c in courses && row.courseId == c.id
    ensures forall i :: 0 <= i < |courses| ==> exists row :: row in before + own && row.courseId == courses[i].id
  {
    var last := courses[|courses| - 1];
    assert last in courses;
    forall row | row in before + own
      ensures exists c :: c in courses && row.courseId == c.id
    {
      if row in before {
        var c :| c in init && row.courseId == c.id;
        assert c in courses;
      }
    }
    forall i | 0 <= i < |courses|
      ensures exists row :: row in before + own && row.courseId == courses[i].id
    {
      if i < |init| {
        assert courses[i] == init[i];
        var row :| row in before && row.courseId == init[i].id;
        assert row in before + own;
      } else {
        assert own[0] in own;
        assert own[0] in before + own;
      }
    }
  }

  /** Every course of a completed run has a row of its own, and every row belongs to a
      course of the list. */
  lemma {:induction false} RunCoversCourses(courses: seq<Course>, sessionServer: Value -> Server<Session>,
                                            details: (Value, Value) -> Reply<SessionBody>)
    requires RunOver(courses, sessionServer, details).complete
    ensures |RunOver(courses, sessionServer, details).rows| >= |courses|
    ensures forall row :: row in RunOver(courses, sessionServer, details).rows ==>
      exists c :: c in courses && row.courseId == c.id
    ensures forall i :: 0 <= i < |courses| ==>
      exists row :: row in RunOver(courses, sessionServer, details).rows && row.courseId == courses[i].id
  {
    if courses != [] {
      var init := courses[..|courses| - 1];
      var last := courses[|courses| - 1];
      RunOverLast(courses, sessionServer, details);
      RunCoversCourses(init, sessionServer, details);
      CourseRowsOwn(last, sessionServer, details);
      CoversStep(courses, init, RunOver(init, sessionServer, details).rows,
                 CourseRows(last, CourseSessionRows(last, sessionServer, details).value));
    }
  }

  /** The summary-row facts carry over from the first courses to all of them. */
  lemma {:induction false} SummaryStep(courses: seq<Course>, init: seq<Course>, before: seq<ExportRow>,
                                       own: seq<ExportRow>, empty: seq<bool>)
    requires courses != [] && init == courses[..|courses| - 1] && |empty| == |courses|
    requires forall row :: row in before && row.sessionId.None? ==>
      exists i :: 0 <= i < |init| && empty[i] && row == SummaryRow(init[i])
    requires forall i :: 0 <= i < |init| && empty[i] ==> SummaryRow(init[i]) in before
    requires forall row :: row in own && row.sessionId.None? ==>
      empty[|courses| - 1] && row == SummaryRow(courses[|courses| - 1])
    requires empty[|courses| - 1] ==> own == [SummaryRow(courses[|courses| - 1])]
    ensures forall row :: row in before + own && row.sessionId.None? ==>
      exists i :: 0 <= i < |courses| && empty[i] && row == SummaryRow(courses[i])
    ensures forall i :: 0 <= i < |courses| && empty[i] ==> SummaryRow(courses[i]) in before + own
  {
    forall row | row in before + own && row.sessionId.None?
      ensures exists i :: 0 <= i < |courses| && empty[i] && row == SummaryRow(courses[i])
    {
      if row in before {
        var i :| 0 <= i < |init| && empty[i] && row == SummaryRow(init[i]);
        assert courses[i] == init[i];
      }
    }
    forall i | 0 <= i < |courses| && empty[i]
      ensures SummaryRow(courses[i]) in before + own
    {
      if i < |init| {
        assert courses[i] == init[i];
      } else {
        assert SummaryRow(courses[i]) in own;
      }
    }
  }

  /** Which courses have no session rows. */
  function NoSessionRows(courses: seq<Course>, sessionServer: Value -> Server<Session>,
                         details: (Value, Value) -> Reply<SessionBody>): (empty: seq<bool>)
    ensures |empty| == |courses|
    ensures forall i :: 0 <= i < |courses| ==>
      (empty[i] <==> CourseSessionRows(courses[i], sessionServer, details) == Ok([]))
  {
    seq(|courses|, i requires 0 <= i < |courses| => CourseSessionRows(courses[i], sessionServer, details) == Ok([]))
  }

  /** In a completed run, the rows without a session are exactly the summary rows of the
      courses that have no session rows. */
  lemma {:induction false} RunSummaryRows(courses: seq<Course>, sessionServer: Value -> Server<Session>,
                                          details: (Value, Value) -> Reply<SessionBody>)
    requires RunOver(courses, sessionServer, details).complete
    ensures var empty := NoSessionRows(courses, sessionServer, details);
      forall row :: row in RunOver(courses, sessionServer, details).rows && row.sessionId.None? ==>
        exists i :: 0 <= i < |courses| && empty[i] && row == SummaryRow(courses[i])
    ensures var empty := NoSessionRows(courses, sessionServer, details);
      forall i :: 0 <= i < |courses| && empty[i] ==> SummaryRow(courses[i]) in RunOver(courses, sessionServer, details).rows
  {
    if courses != [] {
      var init := courses[..|courses| - 1];
      var last := courses[|courses| - 1];
      RunOverLast(courses, sessionServer, details);
      RunSummaryRows(init, sessionServer, details);
      CourseRowsOwn(last, sessionServer, details);
      var empty := NoSessionRows(courses, sessionServer, details);
      var emptyInit := NoSessionRows(init, sessionServer, details);
      assert forall i :: 0 <= i < |init| ==> emptyInit[i] == empty[i];
      SummaryStep(courses, init, RunOver(init, sessionServer, details).rows,
                  CourseRows(last, CourseSessionRows(last, sessionServer, details).value), empty);
    }
  }

  predicate Numbered(table: seq<(nat, ExportRow)>, data: seq<ExportRow>) {
    |table| == |data| && forall i :: 0 <= i < |table| ==> table[i] == (i + 1, data[i])
  }

  class CoursesTab {
    /** `window.fullExportData` */
    var fullExportData: seq<ExportRow>
    /** The body of `#fullExportTable`: each row's number and its row. */
    var table: seq<(nat, ExportRow)>

    constructor ()
      ensures fullExportData == [] && table == []
    {
      fullExportData := [];
      table := [];
    }

    predicate Valid()
      reads this
    {
      Numbered(table, fullExportData)
    }

    /** The pushes for one course: `rowCounter++`, `fullExportData.push(rec)`, one table row. */
    method PushRows(rows: seq<ExportRow>)
      modifies this
      requires Valid()
      ensures Valid()
      ensures fullExportData == old(fullExportData) + rows
    {
      for k := 0 to |rows|
        invariant Valid()
        invariant fullExportData == old(fullExportData) + rows[..k]
      {
        table := table + [(|fullExportData| + 1, rows[k])];
        fullExportData := fullExportData + [rows[k]];
      }
    }

    /** The course loop of `fullExport`: clears the data and the table, then adds each
        course's rows, stopping at the first course whose sessions throw. */
    method ExportCourses(courses: seq<Course>, sessionServer: Value -> Server<Session>,
                         details: (Value, Value) -> Reply<SessionBody>)
      returns (r: Result<()>)
      modifies this
      ensures Valid()
      ensures var run := RunOver(courses, sessionServer, details);
        && fullExportData == run.rows
        && (r.Ok? <==> run.complete)
    {
      table := [];
      fullExportData := [];
      for i := 0 to |courses|
        invariant Valid()
        invariant RunOver(courses[..i], sessionServer, details) == Run(fullExportData, true)
      {
        var course := courses[i];
        assert courses[..i + 1][..i] == courses[..i];
        var sessionRecords := ProcessCourseSessions(course, sessionServer, details);
        if sessionRecords.Thrown? {
          StoppedRunStays(courses, i + 1, sessionServer, details);
          return Thrown;
        }
        PushRows(CourseRows(course, sessionRecords.value));
      }
      assert courses[..|courses|] == courses;
      r := Ok(());
    }

    /** `fullExport`. `courseServer` answers the course pages, `sessionServer` the
        session pages of a course id, `details` the detail request of a session.
        `r.Thrown?` is a rejected promise; a failed course fetch only logs. */
    method FullExport(courseServer: Server<Course>, filters: Filters,
                      sessionServer: Value -> Server<Session>, details: (Value, Value) -> Reply<SessionBody>)
      returns (r: Result<()>)
      modifies this
      requires Valid()
      ensures Valid()
      ensures FetchFrom(courseServer, 1).Thrown? ==>
        r == Ok(()) && fullExportData == old(fullExportData) && table == old(table)
      ensures FetchFrom(courseServer, 1).Ok? && AnyFilterSet(filters) && filters.courseIds.None? ==>
        r.Thrown? && fullExportData == old(fullExportData) && table == old(table)
      ensures FetchFrom(courseServer, 1).Ok? && (!AnyFilterSet(filters) || filters.courseIds.Some?) ==>
        var run := RunOver(ApplyCourseFilters(FetchFrom(courseServer, 1).value, filters), sessionServer, details);
        && fullExportData == run.rows
        && (r.Ok? <==> run.complete)
    {
      var fetched, _ := FetchAllCourses(courseServer);
      if fetched.Thrown? {
        return Ok(());
      }
      var courses := fetched.value;
      if AnyFilterSet(filters) {
        if filters.courseIds.None? {
          // `window.filterOptions.courseIds.join(', ')` on null
          return Thrown;
        }
        courses := ApplyCourseFilters(courses, filters);
      } else {
        NoFilterKeepsAll(courses, filters);
      }
      r := ExportCourses(courses, sessionServer, details);
    }
  }
}
