/** The course records of the LMS list view and the pure helpers of the pipeline:
    `formatTime`, `getOwnerName`, `getAuthorsNames` and the course filter engine
    `applyCourseFilters`. */
module Helpers {
  import opened JsValues
  import opened Seqs

  datatype CourseType = CourseType(name: Option<string>)

  datatype Author = Author(lastName: Option<string>, name: Option<string>)

  /** A course of the list view. `createdAt` is the already parsed timestamp; `types` and
      `authors` are `None` when the field is missing or not an array. */
  datatype Course = Course(
    id: Value,
    name: Option<string>,
    createdAt: Option<int>,
    types: Option<seq<CourseType>>,
    authors: Option<seq<Author>>,
    ownerName: Option<string>)

  /** The nested course object of a session detail body. */
  datatype CourseInfo = CourseInfo(ownerName: Option<string>, authors: Option<seq<Author>>)

  /** Filter options. Bounds are parsed timestamps (`None` for null); `courseIds` is
      `None` when the field is missing. */
  datatype Filters = Filters(
    startDate: Option<int>,
    endDate: Option<int>,
    courseTypes: seq<string>,
    courseIds: Option<seq<string>>)

  // ---------------------------------------------------------------- formatTime

  /** Hours, minutes and seconds of a duration given in whole seconds. */
  function TimeParts(seconds: nat): (r: (nat, nat, nat))
    ensures r.0 * 3600 + r.1 * 60 + r.2 == seconds
    ensures r.1 < 60 && r.2 < 60
  {
    var h, rest := seconds / 3600, seconds % 3600;
    var m, s := rest / 60, rest % 60;
    assert seconds % 60 == s by {
      assert seconds == h * 3600 + m * 60 + s;
      assert seconds == (h * 60 + m) * 60 + s;
    }
    (h, m, seconds % 60)
  }

  /** `formatTime`: "X ч Y мин Z сек". */
  function FormatTime(seconds: nat): string {
    var (h, m, s) := TimeParts(seconds);
    Decimal(h) + " ч " + Decimal(m) + " мин " + Decimal(s) + " сек"
  }

  // ---------------------------------------------------- owner and author names

  /** `getOwnerName` */
  function OwnerName(info: CourseInfo): (r: string)
    ensures info.ownerName.None? ==> r == ""
    ensures Trim(r) == r
  {
    TrimIdempotent(OrEmpty(info.ownerName));
    Trim(OrEmpty(info.ownerName))
  }

  /** The "last_name name" text of one author, trimmed. */
  function AuthorEntry(a: Author): (r: string)
    ensures Trim(r) == r
  {
    TrimIdempotent(Trim(OrEmpty(a.lastName)) + " " + Trim(OrEmpty(a.name)));
    Trim(Trim(OrEmpty(a.lastName)) + " " + Trim(OrEmpty(a.name)))
  }

  /** One entry per author, in order, before empty ones are dropped. */
  function AllAuthorEntries(authors: seq<Author>): (r: seq<string>)
    ensures |r| == |authors|
    ensures forall i :: 0 <= i < |r| ==> Trim(r[i]) == r[i]
  {
    seq(|authors|, i requires 0 <= i < |authors| => AuthorEntry(authors[i]))
  }

  predicate NonEmpty(s: string) {
    s != ""
  }

  predicate IsTrimmed(s: string) {
    Trim(s) == s
  }

  /** The entries `getAuthorsNames` joins. */
  function AuthorEntries(authors: seq<Author>): seq<string> {
    Filter(AllAuthorEntries(authors), NonEmpty)
  }

  /** `getAuthorsNames` */
  function AuthorsNames(info: CourseInfo): string {
    if info.authors.Some? && |info.authors.value| > 0 then Join(AuthorEntries(info.authors.value), ", ")
    else ""
  }

  /** The joined entries are at most one per author, never empty, trimmed, and in the
      authors' order, and every non-empty entry is kept as often as it occurs; without an
      authors array the text is empty. */
  lemma {:induction false} AuthorsNamesShape(info: CourseInfo)
    ensures info.authors.None? ==> AuthorsNames(info) == ""
    ensures info.authors.Some? ==>
      var entries := AuthorEntries(info.authors.value);
      && AuthorsNames(info) == Join(entries, ", ")
      && |entries| <= |info.authors.value|
      && (forall i :: 0 <= i < |entries| ==> entries[i] != "" && Trim(entries[i]) == entries[i])
      && IsSubseq(entries, AllAuthorEntries(info.authors.value))
      && (forall x :: multiset(entries)[x] ==
            if x != "" then multiset(AllAuthorEntries(info.authors.value))[x] else 0)
  {
    if info.authors.Some? {
      var all := AllAuthorEntries(info.authors.value);
      FilterCount(all, NonEmpty);
      FilterLength(all, NonEmpty);
      FilterIsSubseq(all, NonEmpty);
      FilterPasses(all, NonEmpty);
      FilterPreserves(all, NonEmpty, IsTrimmed);
    }
  }

  // ------------------------------------------------------------ course filters

  /** Date test: bounds are inclusive and a course without `created_at` passes. */
  predicate PassesDate(c: Course, f: Filters) {
    c.createdAt.None? ||
    ((f.startDate.None? || c.createdAt.value >= f.startDate.value) &&
     (f.endDate.None? || c.createdAt.value <= f.endDate.value))
  }

  /** The course's type names, lowercased but not trimmed. */
  function TypeNames(types: seq<CourseType>): seq<string> {
    seq(|types|, i requires 0 <= i < |types| => Lower(OrEmpty(types[i].name)))
  }

  /** A selected type as it is compared: lowercased, then trimmed. */
  function SelectedType(t: string): string {
    Trim(Lower(t))
  }

  /** Type test: with selected types, some selected type, lowercased and trimmed, is one of
      the course's type names; a course without a types array fails. */
  predicate PassesTypes(c: Course, f: Filters) {
    |f.courseTypes| == 0 ||
    (c.types.Some? &&
     exists i :: 0 <= i < |f.courseTypes| && SelectedType(f.courseTypes[i]) in TypeNames(c.types.value))
  }

  /** Allowlist test on `String(course.id).trim()`. */
  predicate PassesIds(c: Course, f: Filters) {
    f.courseIds.None? || |f.courseIds.value| == 0 || Trim(ToJsString(c.id)) in f.courseIds.value
  }

  predicate KeepCourse(c: Course, f: Filters) {
    PassesDate(c, f) && PassesTypes(c, f) && PassesIds(c, f)
  }

  /** `applyCourseFilters` */
  function ApplyCourseFilters(courses: seq<Course>, f: Filters): seq<Course> {
    Filter(courses, c => KeepCourse(c, f))
  }

  /** Some filter dimension is set (the guard of both export tabs). */
  predicate AnyFilterSet(f: Filters) {
    f.startDate.Some? || f.endDate.Some? || |f.courseTypes| > 0 ||
    (f.courseIds.Some? && |f.courseIds.value| > 0)
  }

  /** The result is an order-preserving subsequence of the input holding exactly the
      courses that pass all three tests, each as often as in the input. */
  lemma {:induction false} ApplyCourseFiltersSelects(courses: seq<Course>, f: Filters)
    ensures IsSubseq(ApplyCourseFilters(courses, f), courses)
    ensures |ApplyCourseFilters(courses, f)| <= |courses|
    ensures forall c :: c in ApplyCourseFilters(courses, f) <==> c in courses && KeepCourse(c, f)
    ensures forall c ::
      multiset(ApplyCourseFilters(courses, f))[c] == if KeepCourse(c, f) then multiset(courses)[c] else 0
  {
    FilterCount(courses, c => KeepCourse(c, f));
    FilterIsSubseq(courses, c => KeepCourse(c, f));
    FilterLength(courses, c => KeepCourse(c, f));
    FilterMembers(courses, c => KeepCourse(c, f));
  }

  lemma {:induction false} ApplyCourseFiltersIdempotent(courses: seq<Course>, f: Filters)
    ensures ApplyCourseFilters(ApplyCourseFilters(courses, f), f) == ApplyCourseFilters(courses, f)
  {
    FilterIdempotent(courses, c => KeepCourse(c, f));
  }

  /** Empty or null dimensions are no-ops: with none set, every course is kept. */
  lemma {:induction false} NoFilterKeepsAll(courses: seq<Course>, f: Filters)
    requires !AnyFilterSet(f)
    ensures ApplyCourseFilters(courses, f) == courses
  {
    FilterKeepsAll(courses, c => KeepCourse(c, f));
  }

  function LowerAll(ts: seq<string>): seq<string> {
    seq(|ts|, i requires 0 <= i < |ts| => Lower(ts[i]))
  }

  /** Lowercasing a selected type does not change the type test. */
  lemma {:induction false} PassesTypesIgnoresCase(c: Course, f: Filters)
    ensures PassesTypes(c, f.(courseTypes := LowerAll(f.courseTypes))) == PassesTypes(c, f)
  {
    var g := f.(courseTypes := LowerAll(f.courseTypes));
    assert |g.courseTypes| == |f.courseTypes|;
    forall i | 0 <= i < |f.courseTypes|
      ensures SelectedType(g.courseTypes[i]) == SelectedType(f.courseTypes[i])
    {
      LowerIdempotent(f.courseTypes[i]);
    }
  }

  /** The type test ignores the letter case of the selected types. */
  lemma {:induction false} TypeFilterIgnoresCase(courses: seq<Course>, f: Filters)
    ensures ApplyCourseFilters(courses, f.(courseTypes := LowerAll(f.courseTypes)))
         == ApplyCourseFilters(courses, f)
  {
    var g := f.(courseTypes := LowerAll(f.courseTypes));
    forall i | 0 <= i < |courses| ensures KeepCourse(courses[i], g) == KeepCourse(courses[i], f) {
      PassesTypesIgnoresCase(courses[i], f);
    }
    FilterCongruent(courses, c => KeepCourse(c, g), c => KeepCourse(c, f));
  }

  /** The date bounds are inclusive, and a course without `created_at` is never dropped by
      the date test: a course dated exactly at one bound passes iff it is within the other. */
  lemma DateBoundsInclusive(c: Course, f: Filters)
    ensures c.createdAt.None? ==> PassesDate(c, f)
    ensures c.createdAt.Some? && f.startDate == c.createdAt ==>
      (PassesDate(c, f) <==> f.endDate.None? || c.createdAt.value <= f.endDate.value)
    ensures c.createdAt.Some? && f.endDate == c.createdAt ==>
      (PassesDate(c, f) <==> f.startDate.None? || f.startDate.value <= c.createdAt.value)
  {
  }

  /** A course that is undated, or dated exactly at a bound of a non-empty range, and that
      passes the type and id tests, is kept by `applyCourseFilters`. */
  lemma {:induction false} BoundCourseKept(courses: seq<Course>, c: Course, f: Filters)
    requires c in courses
    requires c.createdAt.None? || f.startDate == c.createdAt || f.endDate == c.createdAt
    requires f.startDate.None? || f.endDate.None? || f.startDate.value <= f.endDate.value
    requires PassesTypes(c, f) && PassesIds(c, f)
    ensures c in ApplyCourseFilters(courses, f)
  {
    DateBoundsInclusive(c, f);
    ApplyCourseFiltersSelects(courses, f);
  }
}
