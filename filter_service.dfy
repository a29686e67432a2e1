/** The filter state of the two export tabs (`window.filterOptions` and
    `window.filterOptionsMaterials`) and the two operations that update it:
    `applyFilters` and `processCourseIdFilterFile`. */
module FilterService {
  import opened JsValues
  import opened Seqs
  import opened Helpers

  /** The column of the uploaded sheet that holds the course ids. */
  const CourseIdColumn: string := "course_id"

  /** `String(row.course_id || '').trim()` */
  function CourseIdCell(row: Row): string {
    Trim(ToJsString(Or(Get(row, CourseIdColumn), Text(""))))
  }

  /** The trimmed `course_id` cell of every row, in row order (the `map` step). */
  function Cells(rows: seq<Row>): (cells: seq<string>)
    ensures |cells| == |rows|
  {
    seq(|rows|, i requires 0 <= i < |rows| => CourseIdCell(rows[i]))
  }

  /** The ids of a sheet: the cells that are not empty (the `filter` step). */
  function ExtractCourseIds(rows: seq<Row>): seq<string> {
    Filter(Cells(rows), NonEmpty)
  }

  /** The ids come in row order, one at most per row. */
  lemma {:induction false} ExtractCourseIdsOrder(rows: seq<Row>)
    ensures |ExtractCourseIds(rows)| <= |rows|
    ensures IsSubseq(ExtractCourseIds(rows), Cells(rows))
  {
    FilterLength(Cells(rows), NonEmpty);
    FilterIsSubseq(Cells(rows), NonEmpty);
  }

  /** A string is an extracted id exactly when it is the non-empty trimmed cell of some row. */
  lemma {:induction false} ExtractCourseIdsMembers(rows: seq<Row>)
    ensures forall x :: x in ExtractCourseIds(rows) <==>
      x != "" && exists i :: 0 <= i < |rows| && CourseIdCell(rows[i]) == x
  {
    var cells := Cells(rows);
    FilterMembers(cells, NonEmpty);
    forall x | x in cells
      ensures exists i :: 0 <= i < |rows| && CourseIdCell(rows[i]) == x
    {
      var i :| 0 <= i < |cells| && cells[i] == x;
      assert CourseIdCell(rows[i]) == x;
    }
    forall x, i | 0 <= i < |rows| && CourseIdCell(rows[i]) == x
      ensures x in cells
    {
      assert cells[i] == x;
    }
  }

  /** Every id is non-empty and has no white space at either end. */
  lemma {:induction false} ExtractCourseIdsTrimmed(rows: seq<Row>)
    ensures forall k :: 0 <= k < |ExtractCourseIds(rows)| ==>
      ExtractCourseIds(rows)[k] != "" && Trim(ExtractCourseIds(rows)[k]) == ExtractCourseIds(rows)[k]
  {
    var cells := Cells(rows);
    FilterPasses(cells, NonEmpty);
    forall i | 0 <= i < |cells|
      ensures IsTrimmed(cells[i])
    {
      TrimIdempotent(ToJsString(Or(Get(rows[i], CourseIdColumn), Text(""))));
    }
    FilterPreserves(cells, NonEmpty, IsTrimmed);
  }

  /** A row whose `course_id` is falsy (missing, empty, `0`, `false`, `null`) adds no id. */
  lemma {:induction false} FalsyCourseIdDropped(row: Row, rows: seq<Row>)
    requires !Truthy(Get(row, CourseIdColumn))
    ensures ExtractCourseIds([row] + rows) == ExtractCourseIds(rows)
  {
    var cells := Cells([row] + rows);
    assert cells[0] == "" by {
      assert Or(Get(row, CourseIdColumn), Text("")) == Text("");
    }
    assert cells[1..] == Cells(rows);
    assert Filter(cells, NonEmpty) == Filter(cells[1..], NonEmpty);
  }

  /** A course whose trimmed id string is the trimmed `course_id` of some sheet row passes
      the id test of options whose `courseIds` came from that sheet, and one that matches no
      row fails it as soon as the sheet gave some id. */
  lemma {:induction false} ExtractedIdsAdmit(rows: seq<Row>, c: Course, f: Filters)
    requires f.courseIds == Some(ExtractCourseIds(rows))
    ensures (exists i :: 0 <= i < |rows| && CourseIdCell(rows[i]) == Trim(ToJsString(c.id)) != "") ==> PassesIds(c, f)
    ensures |ExtractCourseIds(rows)| > 0 ==>
      (PassesIds(c, f) <==> exists i :: 0 <= i < |rows| && CourseIdCell(rows[i]) == Trim(ToJsString(c.id)) != "")
  {
    ExtractCourseIdsMembers(rows);
  }

  /** Which options object an operation writes. */
  datatype Target = CoursesTarget | MaterialsTarget

  /** `target === 'courses'` chooses `window.filterOptions`; every other value chooses
      `window.filterOptionsMaterials`. */
  function TargetOf(target: string): (t: Target)
    ensures t == CoursesTarget <==> target == "courses"
  {
    if target == "courses" then CoursesTarget else MaterialsTarget
  }

  /** The options after `applyFilters`: the new bounds and types, and `courseIds` carried
      over when the passed options have a (possibly empty) array. */
  function Applied(f: Filters, startVal: Option<int>, endVal: Option<int>, typesArr: seq<string>,
                   carried: Option<seq<string>>): Filters
  {
    Filters(startVal, endVal, typesArr, if carried.Some? then carried else f.courseIds)
  }

  /** Applying the same choice twice is applying it once, and the filtering the options
      then perform is the date and type test of the new choice together with the id test
      of the carried (or kept) list. */
  lemma AppliedMeaning(f: Filters, startVal: Option<int>, endVal: Option<int>, typesArr: seq<string>,
                       carried: Option<seq<string>>, c: Course)
    ensures var g := Applied(f, startVal, endVal, typesArr, carried);
      && Applied(g, startVal, endVal, typesArr, carried) == g
      && g.startDate == startVal && g.endDate == endVal && g.courseTypes == typesArr
      && (carried.None? ==> g.courseIds == f.courseIds)
      && (carried.Some? ==> g.courseIds == carried)
      && (KeepCourse(c, g) <==>
            PassesDate(c, g) && PassesTypes(c, g) && PassesIds(c, f.(courseIds := g.courseIds)))
  {
  }

  /** Clearing the dates and the types and carrying no ids leaves a state whose export
      guard is set only by the ids already loaded. */
  lemma ClearedFiltersGuard(f: Filters)
    ensures AnyFilterSet(Applied(f, None, None, [], None)) <==> f.courseIds.Some? && |f.courseIds.value| > 0
  {
  }

  class FilterState {
    /** `window.filterOptions` */
    var courses: Filters
    /** `window.filterOptionsMaterials` */
    var materials: Filters

    /** Both options objects as the renderer creates them: no dates, no types, no ids. */
    constructor ()
      ensures courses == Filters(None, None, [], Some([]))
      ensures materials == Filters(None, None, [], Some([]))
    {
      courses := Filters(None, None, [], Some([]));
      materials := Filters(None, None, [], Some([]));
    }

    /** `applyFilters`. The date inputs (already parsed, `None` for an empty input) and the
        checked type names are parameters; `carried` is `filterOptions.courseIds`, `None`
        when `filterOptions` or its `courseIds` is null or missing. */
    method ApplyFilters(target: string, startVal: Option<int>, endVal: Option<int>, typesArr: seq<string>,
                        carried: Option<seq<string>>)
      modifies this
      ensures TargetOf(target) == CoursesTarget ==>
        courses == Applied(old(courses), startVal, endVal, typesArr, carried) && materials == old(materials)
      ensures TargetOf(target) == MaterialsTarget ==>
        materials == Applied(old(materials), startVal, endVal, typesArr, carried) && courses == old(courses)
    {
      if target == "courses" {
        courses := courses.(startDate := startVal, endDate := endVal, courseTypes := typesArr);
        if carried.Some? {
          courses := courses.(courseIds := carried);
        }
      } else {
        materials := materials.(startDate := startVal, endDate := endVal, courseTypes := typesArr);
        if carried.Some? {
          materials := materials.(courseIds := carried);
        }
      }
    }

    /** `processCourseIdFilterFile` on the options of `target`. `file` is the sheet's rows,
        `None` when reading it fails; either failure mode leaves an empty list. */
    method ProcessCourseIdFilterFile(file: Option<seq<Row>>, target: Target)
      modifies this
      ensures var ids := if file.Some? then ExtractCourseIds(file.value) else [];
        target == CoursesTarget ==>
          courses == old(courses).(courseIds := Some(ids)) && materials == old(materials)
      ensures var ids := if file.Some? then ExtractCourseIds(file.value) else [];
        target == MaterialsTarget ==>
          materials == old(materials).(courseIds := Some(ids)) && courses == old(courses)
    {
      var ids: seq<string>;
      if file.None? {
        ids := [];
      } else {
        var found := ExtractCourseIds(file.value);
        if |found| > 0 {
          ids := found;
        } else {
          ids := [];
        }
      }
      if target == CoursesTarget {
        courses := courses.(courseIds := Some(ids));
      } else {
        materials := materials.(courseIds := Some(ids));
      }
    }
  }

  /** The two type names "Лекция" and "лекция" select the same courses. */
  lemma {:induction false} TypeChoiceIgnoresCase(courses: seq<Course>, f: Filters)
    ensures ApplyCourseFilters(courses, f.(courseTypes := ["Лекция"]))
         == ApplyCourseFilters(courses, f.(courseTypes := ["лекция"]))
  {
    assert Lower("Лекция") == "лекция";
    assert LowerAll(["Лекция"]) == ["лекция"];
    TypeFilterIgnoresCase(courses, f.(courseTypes := ["Лекция"]));
  }
}
