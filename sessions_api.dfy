/** The session endpoints and the session rows of the courses tab:
    `fetchCourseSessions`, `fetchSessionDetails` and `processCourseSessions`. */
module SessionsApi {
  import opened JsValues
  import opened Seqs
  import opened Helpers
  import opened Paging

  datatype Session = Session(id: Value, name: Option<string>)

  datatype Participant = Participant(id: Value, fullname: Option<string>, roleName: Option<string>)

  /** A session detail body: null or an array (both read as `{}`), or an object whose
      `participants` / `course` fields are `None` when missing or falsy. */
  datatype SessionBody =
    | NotAnObject
    | SessionObject(participants: Option<seq<Participant>>, course: Option<CourseInfo>)

  /** The result of `fetchSessionDetails`. */
  datatype Details = Details(speakers: seq<Participant>, listenersCount: nat, ownerName: string, authorsNames: string)

  /** One row of the courses tab's export (`fullExportData`); `None` stands for null. */
  datatype ExportRow = ExportRow(
    courseId: Value,
    courseName: Option<string>,
    sessionId: Option<Value>,
    sessionName: Option<string>,
    userId: Option<Value>,
    fullname: Option<string>,
    listenersCount: nat,
    ownerName: string,
    authorsNames: string,
    createdAt: Option<int>,
    category: string)

  const SpeakerRole := "докладчик"
  const ListenerRole := "слушатель"
  const Unknown := "Неизвестно"

  /** The details of a session whose detail request failed. */
  const EmptyDetails := Details([], 0, "", "")

  /** `fetchCourseSessions`: the same page loop as `fetchAllCourses`. */
  method FetchCourseSessions(server: Server<Session>) returns (r: Result<seq<Session>>, visited: seq<nat>)
    ensures |visited| >= 1
    ensures forall i :: 0 <= i < |visited| ==> visited[i] == i + 1
    ensures forall p :: 1 <= p < |visited| ==> PageStep(server, p).Next?
    ensures !PageStep(server, |visited|).Next?
    ensures r.Thrown? <==> PageStep(server, |visited|).Abort?
    ensures r.Ok? ==> r.value == Pages(server, 1, |visited|)
    ensures r == FetchFrom(server, 1)
  {
    r, visited := FetchAllPages(server);
  }

  // ----------------------------------------------------- participant roles

  /** `(p.role_name || '').toLowerCase().trim()` */
  function Role(p: Participant): string {
    Trim(Lower(OrEmpty(p.roleName)))
  }

  predicate IsSpeaker(p: Participant) {
    Role(p) == SpeakerRole
  }

  predicate IsListener(p: Participant) {
    Role(p) == ListenerRole
  }

  /** The classification of `fetchSessionDetails` for a session object. */
  function Classify(participants: seq<Participant>, info: CourseInfo): Details {
    var speakers := Filter(participants, IsSpeaker);
    var listeners := |Filter(participants, IsListener)|;
    Details(
      speakers,
      if |participants| > 0 && |speakers| == 0 then |participants| else listeners,
      OwnerName(info),
      AuthorsNames(info))
  }

  /** Speakers are exactly the participants with the speaker role, in their order; the
      listener count never exceeds the participants and falls back to all of them when
      there is no speaker. */
  lemma {:induction false} ClassifySorts(participants: seq<Participant>, info: CourseInfo)
    ensures var d := Classify(participants, info);
      && (forall p :: p in d.speakers <==> p in participants && IsSpeaker(p))
      && IsSubseq(d.speakers, participants)
      && (forall p :: multiset(d.speakers)[p] == if IsSpeaker(p) then multiset(participants)[p] else 0)
      && d.listenersCount <= |participants|
      && (|participants| > 0 && d.speakers == [] ==> d.listenersCount == |participants|)
      && (d.speakers != [] ==> d.listenersCount == |Filter(participants, IsListener)|)
  {
    FilterMembers(participants, IsSpeaker);
    FilterCount(participants, IsSpeaker);
    FilterIsSubseq(participants, IsSpeaker);
    FilterLength(participants, IsListener);
  }

  /** `fetchSessionDetails` for the reply to the detail request. */
  function FetchSessionDetails(reply: Reply<SessionBody>): Result<Details> {
    match reply
    case TokenError => Thrown
    case RequestError => Ok(EmptyDetails)
    case Response(NotAnObject) => Ok(Classify([], CourseInfo(None, None)))
    case Response(SessionObject(ps, course)) =>
      Ok(Classify(if ps.Some? then ps.value else [],
                  if course.Some? then course.value else CourseInfo(None, None)))
  }

  /** A failed request, and a body that is null or an array, give the empty details. */
  lemma FailedDetailsAreEmpty(reply: Reply<SessionBody>)
    requires reply.RequestError? || reply == Response(NotAnObject)
    ensures FetchSessionDetails(reply) == Ok(EmptyDetails)
  {
    assert Trim("") == "";
  }

  // ---------------------------------------------------------- session rows

  /** `'Категория'` of a session row: type names (missing ones as '') joined by ", ". */
  function Category(types: Option<seq<CourseType>>): string {
    if types.Some? then
      Join(seq(|types.value|, i requires 0 <= i < |types.value| => OrEmpty(types.value[i].name)), ", ")
    else ""
  }

  function SpeakerRow(course: Course, s: Session, d: Details, speaker: Participant): ExportRow {
    ExportRow(course.id, course.name, Some(s.id), Some(OrDefault(s.name, Unknown)),
              Some(speaker.id), Some(Trim(OrEmpty(speaker.fullname))),
              d.listenersCount, d.ownerName, d.authorsNames, course.createdAt, Category(course.types))
  }

  function PlaceholderRow(course: Course, s: Session, d: Details): ExportRow {
    ExportRow(course.id, course.name, Some(s.id), Some(OrDefault(s.name, Unknown)),
              None, Some(""),
              d.listenersCount, d.ownerName, d.authorsNames, course.createdAt, Category(course.types))
  }

  /** The rows of one session: one per speaker, or a single placeholder. */
  function SessionRows(course: Course, s: Session, d: Details): seq<ExportRow> {
    if |d.speakers| > 0 then
      seq(|d.speakers|, k requires 0 <= k < |d.speakers| => SpeakerRow(course, s, d, d.speakers[k]))
    else [PlaceholderRow(course, s, d)]
  }

  /** The rows of `sessions` in order, or `Thrown` if a detail fetch propagates an error. */
  function SessionsRows(course: Course, sessions: seq<Session>, details: (Value, Value) -> Reply<SessionBody>)
    : Result<seq<ExportRow>>
  {
    if sessions == [] then Ok([])
    else
      var d := FetchSessionDetails(details(course.id, sessions[0].id));
      if d.Thrown? then Thrown
      else Prepend(SessionRows(course, sessions[0], d.value), SessionsRows(course, sessions[1..], details))
  }

  lemma SessionsRowsUnfold(course: Course, sessions: seq<Session>, details: (Value, Value) -> Reply<SessionBody>)
    requires sessions != []
    ensures var d := FetchSessionDetails(details(course.id, sessions[0].id));
      SessionsRows(course, sessions, details) ==
        if d.Thrown? then Thrown
        else Prepend(SessionRows(course, sessions[0], d.value), SessionsRows(course, sessions[1..], details))
  {
  }

  /** What `processCourseSessions` returns for `course`. */
  function CourseSessionRows(course: Course, sessionServer: Value -> Server<Session>,
                             details: (Value, Value) -> Reply<SessionBody>): Result<seq<ExportRow>>
  {
    var sessions := FetchFrom(sessionServer(course.id), 1);
    if sessions.Thrown? then Thrown else SessionsRows(course, sessions.value, details)
  }

  /** The pushes of one iteration of `processCourseSessions`'s session loop. */
  method PushSessionRows(records: seq<ExportRow>, course: Course, session: Session, d: Details)
    returns (out: seq<ExportRow>)
    ensures out == records + SessionRows(course, session, d)
  {
    out := records;
    if |d.speakers| > 0 {
      for j := 0 to |d.speakers|
        invariant out == records + SessionRows(course, session, d)[..j]
      {
        out := out + [SpeakerRow(course, session, d, d.speakers[j])];
      }
    } else {
      out := out + [PlaceholderRow(course, session, d)];
    }
  }

  /** `processCourseSessions` */
  method ProcessCourseSessions(course: Course, sessionServer: Value -> Server<Session>,
                               details: (Value, Value) -> Reply<SessionBody>)
    returns (r: Result<seq<ExportRow>>)
    ensures r == CourseSessionRows(course, sessionServer, details)
  {
    var fetched, _ := FetchCourseSessions(sessionServer(course.id));
    if fetched.Thrown? {
      assert CourseSessionRows(course, sessionServer, details) == Thrown;
      return Thrown;
    }
    var sessions := fetched.value;
    ghost var expected := SessionsRows(course, sessions, details);
    assert CourseSessionRows(course, sessionServer, details) == expected;
    var records: seq<ExportRow> := [];
    PrependNothing(SessionsRows(course, sessions, details));
    for i := 0 to |sessions|
      invariant expected == Prepend(records, SessionsRows(course, sessions[i..], details))
    {
      var d := FetchSessionDetails(details(course.id, sessions[i].id));
      SessionsRowsUnfold(course, sessions[i..], details);
      assert sessions[i..][1..] == sessions[i + 1..];
      if d.Thrown? {
        assert SessionsRows(course, sessions[i..], details) == Thrown;
        assert expected == Thrown;
        return Thrown;
      }
      PrependTwice(records, SessionRows(course, sessions[i], d.value), SessionsRows(course, sessions[i + 1..], details));
      records := PushSessionRows(records, course, sessions[i], d.value);
    }
    assert sessions[|sessions|..] == [];
    assert SessionsRows(course, [], details) == Ok([]);
    assert records + [] == records;
    r := Ok(records);
  }

  // ------------------------------------------------------------ properties

  /** Per session: one row per speaker carrying the speaker's id and trimmed name, or a
      single row with a null user and an empty name. */
  lemma SessionRowsShape(course: Course, s: Session, d: Details)
    ensures var rows := SessionRows(course, s, d);
      && (d.speakers != [] ==>
            && |rows| == |d.speakers|
            && forall k :: 0 <= k < |rows| ==>
                 rows[k].userId == Some(d.speakers[k].id) && rows[k].fullname == Some(Trim(OrEmpty(d.speakers[k].fullname))))
      && (d.speakers == [] ==> |rows| == 1 && rows[0].userId.None? && rows[0].fullname == Some(""))
      && (forall k :: 0 <= k < |rows| ==>
            && rows[k].sessionId == Some(s.id)
            && (s.name.Some? && s.name.value != "" ==> rows[k].sessionName == s.name)
            && (s.name.None? || s.name.value == "" ==> rows[k].sessionName == Some(Unknown))
            && rows[k].listenersCount == d.listenersCount
            && rows[k].ownerName == d.ownerName && rows[k].authorsNames == d.authorsNames)
  {
  }

  /** Every row copies the course's id, name, creation time and category, and the id and
      name ("Неизвестно" when empty) of one of the course's sessions. */
  lemma {:induction false} SessionsRowsCopyCourse(course: Course, sessions: seq<Session>,
                                                  details: (Value, Value) -> Reply<SessionBody>)
    requires SessionsRows(course, sessions, details).Ok?
    ensures forall row :: row in SessionsRows(course, sessions, details).value ==>
      && row.courseId == course.id && row.courseName == course.name
      && row.createdAt == course.createdAt && row.category == Category(course.types)
      && (exists i :: 0 <= i < |sessions| && row.sessionId == Some(sessions[i].id)
            && row.sessionName == Some(OrDefault(sessions[i].name, Unknown)))
  {
    if sessions != [] {
      var rest := sessions[1..];
      SessionsRowsCopyCourse(course, rest, details);
      var d := FetchSessionDetails(details(course.id, sessions[0].id));
      SessionRowsShape(course, sessions[0], d.value);
      forall row | row in SessionsRows(course, sessions, details).value
        ensures exists i :: (0 <= i < |sessions| && row.sessionId == Some(sessions[i].id)
                             && row.sessionName == Some(OrDefault(sessions[i].name, Unknown)))
      {
        if row in SessionsRows(course, rest, details).value {
          var j :| 0 <= j < |rest| && row.sessionId == Some(rest[j].id)
            && row.sessionName == Some(OrDefault(rest[j].name, Unknown));
          assert rest[j] == sessions[j + 1];
        } else {
          assert row in SessionRows(course, sessions[0], d.value);
        }
      }
    }
  }

  /** A course contributes no session rows exactly when it has no sessions. */
  lemma {:induction false} SessionsRowsEmpty(course: Course, sessions: seq<Session>,
                                             details: (Value, Value) -> Reply<SessionBody>)
    requires SessionsRows(course, sessions, details).Ok?
    ensures SessionsRows(course, sessions, details).value == [] <==> sessions == []
    ensures |SessionsRows(course, sessions, details).value| >= |sessions|
  {
    if sessions != [] {
      SessionsRowsEmpty(course, sessions[1..], details);
    }
  }
}
