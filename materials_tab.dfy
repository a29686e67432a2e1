/** The "sections and materials" tab: `fullExportMaterialsNew` filters the courses,
    fetches each course's detail view and flattens its sections into
    `window.materialsDataDetails`, numbering the rows of the results table. */
module MaterialsTab {
  import opened JsValues
  import opened Helpers
  import opened Paging
  import opened MaterialsApi

  /** One row of `materialsDataDetails`. */
  datatype MaterialRow = MaterialRow(
    courseId: Value,
    courseName: Option<string>,
    courseCreatedAt: Option<int>,
    sectionName: string,
    materialName: string,
    fileName: string,
    category: string,
    materialCreatedAt: string,
    scorm: bool)

  /** The collection of a section an item comes from. */
  datatype ItemKind = MaterialKind | TaskKind | QuizKind | ScormKind

  /** The record pushed for one item. */
  function ItemRow(course: Course, sectionName: string, kind: ItemKind, item: Item): MaterialRow {
    MaterialRow(
      course.id, course.name, course.createdAt, sectionName,
      OrEmpty(item.name),
      match kind
        case MaterialKind => OrEmpty(item.fileName)
        case ScormKind => OrEmpty(item.resourceUrl)
        case _ => "",
      match kind
        case MaterialKind => OrEmpty(item.category)
        case TaskKind => "task"
        case QuizKind => "quiz"
        case ScormKind => "scorm",
      OrEmpty(item.createdAt),
      kind == ScormKind)
  }

  /** The records of one collection; nothing when it is missing or not an array. */
  function ItemsRows(course: Course, sectionName: string, kind: ItemKind, items: Option<seq<Item>>): seq<MaterialRow> {
    if items.Some? then
      seq(|items.value|, k requires 0 <= k < |items.value| => ItemRow(course, sectionName, kind, items.value[k]))
    else []
  }

  /** The number of items of a collection that is an array. */
  function Count(items: Option<seq<Item>>): nat {
    if items.Some? then |items.value| else 0
  }

  /** The records of one section: materials, then tasks, then quizzes, then SCORM packages. */
  function SectionRows(course: Course, s: Section): seq<MaterialRow> {
    var name := OrEmpty(s.name);
    ItemsRows(course, name, MaterialKind, s.materials) + ItemsRows(course, name, TaskKind, s.tasks)
      + ItemsRows(course, name, QuizKind, s.quizzes) + ItemsRows(course, name, ScormKind, s.scormPackages)
  }

  function SectionsRows(course: Course, sections: seq<Section>): seq<MaterialRow> {
    if sections == [] then []
    else SectionsRows(course, sections[..|sections| - 1]) + SectionRows(course, sections[|sections| - 1])
  }

  /** The records of a course: none when the details are null or have no sections array. */
  function DetailRows(course: Course, detail: Option<CourseDetail>): seq<MaterialRow> {
    if detail.Some? && detail.value.sections.Some? then SectionsRows(course, detail.value.sections.value) else []
  }

  /** The rows of a run over `courses` and whether it got through all of them: a detail
      request whose token refresh throws rejects the export. */
  datatype Run = Run(rows: seq<MaterialRow>, complete: bool)

  function RunOver(courses: seq<Course>, detailsOf: Value -> Reply<Option<CourseDetail>>): Run {
    if courses == [] then Run([], true)
    else
      var before := RunOver(courses[..|courses| - 1], detailsOf);
      var last := courses[|courses| - 1];
      if !before.complete then before
      else
        var d := GetCourseDetailsWithMaterials(detailsOf(last.id));
        if d.Thrown? then Run(before.rows, false)
        else Run(before.rows + DetailRows(last, d.value), true)
  }

  lemma {:induction false} StoppedRunStays(courses: seq<Course>, k: nat, detailsOf: Value -> Reply<Option<CourseDetail>>)
    requires k <= |courses|
    requires !RunOver(courses[..k], detailsOf).complete
    ensures RunOver(courses, detailsOf) == RunOver(courses[..k], detailsOf)
    decreases |courses| - k
  {
    if k < |courses| {
      var next := courses[..k + 1];
      assert next[..|next| - 1] == courses[..k];
      StoppedRunStays(courses, k + 1, detailsOf);
    } else {
      assert courses[..k] == courses;
    }
  }

  // ------------------------------------------------------------ properties

  /** A section gives one row per item of its array collections, in the order materials,
      tasks, quizzes, SCORM packages; exactly the SCORM rows have `scorm` set, and the
      category and file name depend on the collection. */
  lemma SectionRowsLayout(course: Course, s: Section)
    ensures var rows := SectionRows(course, s);
      var m, t, q := Count(s.materials), Count(s.tasks), Count(s.quizzes);
      && |rows| == m + t + q + Count(s.scormPackages)
      && (forall k :: 0 <= k < |rows| ==> (rows[k].scorm <==> m + t + q <= k))
      && (forall k :: m <= k < m + t ==> rows[k].category == "task" && rows[k].fileName == "")
      && (forall k :: m + t <= k < m + t + q ==> rows[k].category == "quiz" && rows[k].fileName == "")
      && (forall k :: m + t + q <= k < |rows| ==>
            rows[k].category == "scorm" && rows[k].fileName == OrEmpty(s.scormPackages.value[k - m - t - q].resourceUrl))
      && (forall k :: 0 <= k < m ==>
            rows[k].category == OrEmpty(s.materials.value[k].category)
            && rows[k].fileName == OrEmpty(s.materials.value[k].fileName))
  {
  }

  /** Every row of a section has the section's name ("" when missing), and each row the
      name and creation time of its own item. */
  lemma SectionRowsNames(course: Course, s: Section)
    ensures var rows := SectionRows(course, s);
      var m, t, q := Count(s.materials), Count(s.tasks), Count(s.quizzes);
      && |rows| == m + t + q + Count(s.scormPackages)
      && (forall k :: 0 <= k < |rows| ==> rows[k].sectionName == OrEmpty(s.name))
      && (forall k :: 0 <= k < m ==>
            rows[k].materialName == OrEmpty(s.materials.value[k].name)
            && rows[k].materialCreatedAt == OrEmpty(s.materials.value[k].createdAt))
      && (forall k :: m <= k < m + t ==>
            rows[k].materialName == OrEmpty(s.tasks.value[k - m].name)
            && rows[k].materialCreatedAt == OrEmpty(s.tasks.value[k - m].createdAt))
      && (forall k :: m + t <= k < m + t + q ==>
            rows[k].materialName == OrEmpty(s.quizzes.value[k - m - t].name)
            && rows[k].materialCreatedAt == OrEmpty(s.quizzes.value[k - m - t].createdAt))
      && (forall k :: m + t + q <= k < |rows| ==>
            rows[k].materialName == OrEmpty(s.scormPackages.value[k - m - t - q].name)
            && rows[k].materialCreatedAt == OrEmpty(s.scormPackages.value[k - m - t - q].createdAt))
  {
  }

  /** Every row of a section copies the course fields and the section's name. */
  lemma SectionRowsCopy(course: Course, s: Section)
    ensures forall row :: row in SectionRows(course, s) ==>
      && row.courseId == course.id && row.courseName == course.name && row.courseCreatedAt == course.createdAt
      && row.sectionName == OrEmpty(s.name)
  {
  }

  /** Every row copies the list-level course's id, name and creation time, and the name
      (empty when missing) of one of the course's sections. */
  lemma {:induction false} SectionsRowsCopyCourse(course: Course, sections: seq<Section>)
    ensures forall row :: row in SectionsRows(course, sections) ==>
      && row.courseId == course.id && row.courseName == course.name && row.courseCreatedAt == course.createdAt
      && (exists i :: 0 <= i < |sections| && row.sectionName == OrEmpty(sections[i].name))
  {
    if sections != [] {
      var init := sections[..|sections| - 1];
      var last := sections[|sections| - 1];
      SectionsRowsCopyCourse(course, init);
      SectionRowsCopy(course, last);
      forall row | row in SectionsRows(course, sections)
        ensures && row.courseId == course.id && row.courseName == course.name && row.courseCreatedAt == course.createdAt
                && (exists i :: 0 <= i < |sections| && row.sectionName == OrEmpty(sections[i].name))
      {
        if row in SectionsRows(course, init) {
          var j :| 0 <= j < |init| && row.sectionName == OrEmpty(init[j].name);
          assert init[j] == sections[j];
        } else {
          assert row.sectionName == OrEmpty(sections[|sections| - 1].name);
        }
      }
    }
  }

  /** The number of rows of a course is the sum over its sections. */
  function SectionsCount(sections: seq<Section>): nat {
    if sections == [] then 0
    else
      var s := sections[|sections| - 1];
      SectionsCount(sections[..|sections| - 1]) + Count(s.materials) + Count(s.tasks) + Count(s.quizzes) + Count(s.scormPackages)
  }

  lemma {:induction false} SectionsRowsCount(course: Course, sections: seq<Section>)
    ensures |SectionsRows(course, sections)| == SectionsCount(sections)
  {
    if sections != [] {
      SectionsRowsCount(course, sections[..|sections| - 1]);
      SectionRowsLayout(course, sections[|sections| - 1]);
    }
  }

  /** A course whose details are null, or have no sections array, adds no rows. */
  lemma NoSectionsNoRows(course: Course, detail: Option<CourseDetail>)
    requires detail.None? || detail.value.sections.None?
    ensures DetailRows(course, detail) == []
  {
  }

  /** Appending `a` and then `b` appends `a + b`. */
  lemma Append(x: seq<MaterialRow>, a: seq<MaterialRow>, b: seq<MaterialRow>)
    ensures x + a + b == x + (a + b)
  {
  }

  predicate Numbered(table: seq<(nat, MaterialRow)>, data: seq<MaterialRow>) {
    |table| == |data| && forall i :: 0 <= i < |table| ==> table[i] == (i + 1, data[i])
  }

  class MaterialsTab {
    /** `window.materialsDataDetails` */
    var materialsDataDetails: seq<MaterialRow>
    /** The body of `#materialsDetailsTable`: each row's number and its row. */
    var table: seq<(nat, MaterialRow)>

    constructor ()
      ensures materialsDataDetails == [] && table == []
    {
      materialsDataDetails := [];
      table := [];
    }

    predicate Valid()
      reads this
    {
      Numbered(table, materialsDataDetails)
    }

    /** One `for (const x of section.<collection>)` loop: `detailRowCounter++`, one push,
        one table row per item. */
    method PushItems(course: Course, sectionName: string, kind: ItemKind, items: Option<seq<Item>>)
      modifies this
      requires Valid()
      ensures Valid()
      ensures materialsDataDetails == old(materialsDataDetails) + ItemsRows(course, sectionName, kind, items)
    {
      if items.None? {
        assert materialsDataDetails + [] == materialsDataDetails;
        return;
      }
      var rows := ItemsRows(course, sectionName, kind, items);
      for k := 0 to |items.value|
        invariant Valid()
        invariant materialsDataDetails == old(materialsDataDetails) + rows[..k]
      {
        var record := ItemRow(course, sectionName, kind, items.value[k]);
        table := table + [(|materialsDataDetails| + 1, record)];
        materialsDataDetails := materialsDataDetails + [record];
      }
      assert rows[..|items.value|] == rows;
    }

    /** The four collection loops of one section. */
    method PushSection(course: Course, s: Section)
      modifies this
      requires Valid()
      ensures Valid()
      ensures materialsDataDetails == old(materialsDataDetails) + SectionRows(course, s)
    {
      var name := OrEmpty(s.name);
      ghost var a := ItemsRows(course, name, MaterialKind, s.materials);
      ghost var b := ItemsRows(course, name, TaskKind, s.tasks);
      ghost var c := ItemsRows(course, name, QuizKind, s.quizzes);
      ghost var d := ItemsRows(course, name, ScormKind, s.scormPackages);
      ghost var start := materialsDataDetails;
      PushItems(course, name, MaterialKind, s.materials);
      PushItems(course, name, TaskKind, s.tasks);
      Append(start, a, b);
      PushItems(course, name, QuizKind, s.quizzes);
      Append(start, a + b, c);
      PushItems(course, name, ScormKind, s.scormPackages);
      Append(start, a + b + c, d);
    }

    /** The body of the course loop once the details are in: skip a course without a
        sections array, otherwise walk its sections. */
    method PushDetail(course: Course, detail: Option<CourseDetail>)
      modifies this
      requires Valid()
      ensures Valid()
      ensures materialsDataDetails == old(materialsDataDetails) + DetailRows(course, detail)
    {
      if detail.None? || detail.value.sections.None? {
        assert materialsDataDetails + [] == materialsDataDetails;
        return;
      }
      var sections := detail.value.sections.value;
      for j := 0 to |sections|
        invariant Valid()
        invariant materialsDataDetails == old(materialsDataDetails) + SectionsRows(course, sections[..j])
      {
        assert sections[..j + 1][..j] == sections[..j];
        assert SectionsRows(course, sections[..j + 1]) == SectionsRows(course, sections[..j]) + SectionRows(course, sections[j]);
        PushSection(course, sections[j]);
        Append(old(materialsDataDetails), SectionsRows(course, sections[..j]), SectionRows(course, sections[j]));
      }
      assert sections[..|sections|] == sections;
    }

    /** The course loop of `fullExportMaterialsNew`: clears the data and the table, then
        adds each course's rows, stopping at the first detail request that throws. */
    method ExportCoursesMaterials(courses: seq<Course>, detailsOf: Value -> Reply<Option<CourseDetail>>)
      returns (r: Result<()>)
      modifies this
      ensures Valid()
      ensures var run := RunOver(courses, detailsOf);
        && materialsDataDetails == run.rows
        && (r.Ok? <==> run.complete)
    {
      table := [];
      materialsDataDetails := [];
      for i := 0 to |courses|
        invariant Valid()
        invariant RunOver(courses[..i], detailsOf) == Run(materialsDataDetails, true)
      {
        var course := courses[i];
        assert courses[..i + 1][..i] == courses[..i];
        var courseDetails := GetCourseDetailsWithMaterials(detailsOf(course.id));
        if courseDetails.Thrown? {
          StoppedRunStays(courses, i + 1, detailsOf);
          return Thrown;
        }
        PushDetail(course, courseDetails.value);
      }
      assert courses[..|courses|] == courses;
      r := Ok(());
    }

    /** `fullExportMaterialsNew`. `courseServer` answers the course pages and `detailsOf`
        the detail request of a course id. `r.Thrown?` is a rejected promise. */
    method FullExportMaterials(courseServer: Server<Course>, filters: Filters,
                               detailsOf: Value -> Reply<Option<CourseDetail>>)
      returns (r: Result<()>)
      modifies this
      requires Valid()
      ensures Valid()
      ensures FetchFrom(courseServer, 1).Thrown? ==>
        r == Ok(()) && materialsDataDetails == old(materialsDataDetails) && table == old(table)
      ensures FetchFrom(courseServer, 1).Ok? && AnyFilterSet(filters) && filters.courseIds.None? ==>
        r.Thrown? && materialsDataDetails == old(materialsDataDetails) && table == old(table)
      ensures FetchFrom(courseServer, 1).Ok? && (!AnyFilterSet(filters) || filters.courseIds.Some?) ==>
        var run := RunOver(ApplyCourseFilters(FetchFrom(courseServer, 1).value, filters), detailsOf);
        && materialsDataDetails == run.rows
        && (r.Ok? <==> run.complete)
    {
      var fetched, _ := FetchAllCoursesMaterials(courseServer);
      if fetched.Thrown? {
        return Ok(());
      }
      var courses := fetched.value;
      if AnyFilterSet(filters) {
        if filters.courseIds.None? {
          // `window.filterOptionsMaterials.courseIds.join(', ')` on null
          return Thrown;
        }
        courses := ApplyCourseFilters(courses, filters);
      } else {
        NoFilterKeepsAll(courses, filters);
      }
      r := ExportCoursesMaterials(courses, detailsOf);
    }
  }
}
