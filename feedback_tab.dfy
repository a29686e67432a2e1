/** The "feedback" tab: `processFeedbackFile` adds a prefilled form link to every row
    of the uploaded sheet, `awaitCreateFeedback` creates a feedback section with a link
    material in each listed course, and the export button writes the results. */
module FeedbackTab {
  import opened JsValues
  import opened FeedbackApi

  const NameColumn := "Название курса в ЛМС"
  const IdColumn := "course_id"
  const FallbackNameColumn := "course_name"
  const LinkColumn := "Ссылка"
  const SectionName := "Обратная связь"
  const MaterialName := "Обратная связь по дисциплине"

  /** `feedbackSettings` */
  datatype Settings = Settings(formUrl: string, courseNameFieldId: string, courseIdFieldId: string, materialText: string)

  /** One entry of `window.feedbackResults`. */
  datatype FeedbackResult = FeedbackResult(courseId: Value, courseName: Value, sectionId: Value, materialAdded: bool, link: Value)

  /** What the export button did: ignored while an export runs, nothing to write, or the
      rows handed to the spreadsheet writer. */
  datatype Export = Busy | NothingToExport | Written(rows: seq<FeedbackResult>)

  // ------------------------------------------------------------ links

  /** The link `processFeedbackFile` puts in a row. */
  function LinkFor(row: Row, s: Settings): string {
    CreatePrefilledUrl(s.formUrl, Or(Get(row, NameColumn), Text("")), Or(Get(row, IdColumn), Text("")),
                       s.courseNameFieldId, s.courseIdFieldId)
  }

  function WithLink(row: Row, s: Settings): Row {
    row[LinkColumn := Text(LinkFor(row, s))]
  }

  /** The link only depends on the Russian course name column and `course_id`: the
      `course_name` column and every other column are ignored. */
  lemma LinkReadsTwoColumns(row: Row, other: Row, s: Settings)
    requires Get(row, NameColumn) == Get(other, NameColumn) && Get(row, IdColumn) == Get(other, IdColumn)
    ensures LinkFor(row, s) == LinkFor(other, s)
  {
  }

  /** A row with a link keeps all its other cells and gets a non-empty link. */
  lemma WithLinkKeepsCells(row: Row, s: Settings)
    ensures forall k :: k in row && k != LinkColumn ==> k in WithLink(row, s) && WithLink(row, s)[k] == row[k]
    ensures Truthy(Get(WithLink(row, s), LinkColumn))
    ensures WithLink(row, s).Keys == row.Keys + {LinkColumn}
  {
    PrefilledUrlShape(s.formUrl, Or(Get(row, NameColumn), Text("")), Or(Get(row, IdColumn), Text("")),
                      s.courseNameFieldId, s.courseIdFieldId);
  }

  // ------------------------------------------------------------ one row

  /** `row["Название курса в ЛМС"] || row["course_name"] || ""` */
  function CourseNameOf(row: Row): Value {
    Or(Or(Get(row, NameColumn), Get(row, FallbackNameColumn)), Text(""))
  }

  function LinkOf(row: Row): Value {
    Or(Get(row, LinkColumn), Text(""))
  }

  /** The guard of the loop: a row without a course id, a course name or a link is skipped. */
  predicate Complete(row: Row) {
    Truthy(Get(row, IdColumn)) && Truthy(CourseNameOf(row)) && Truthy(LinkOf(row))
  }

  /** The work of one iteration: `Ok(None)` when the row is skipped, `Thrown` when a token
      refresh fails. `sections` answers the section POST for a course id; `materials`
      answers the material POST for a section id and the payload sent. */
  function RowOutcome(row: Row, s: Settings, now: int,
                      sections: Value -> Reply<Option<Value>>,
                      materials: (Value, MaterialPayload) -> Reply<()>): Result<Option<FeedbackResult>>
  {
    if !Complete(row) then Ok(None)
    else
      var courseId := Get(row, IdColumn);
      var sectionId := CreateSection(sections(courseId));
      if sectionId.Thrown? then Thrown
      else if !Truthy(sectionId.value) then Ok(None)
      else
        var link := LinkOf(row);
        var payload := MaterialPayloadFor(MaterialName, ToJsString(link), s.materialText, now);
        var added := AddMaterialWithHyperlink(materials(sectionId.value, payload));
        if added.Thrown? then Thrown
        else Ok(Some(FeedbackResult(courseId, CourseNameOf(row), sectionId.value, added.value, link)))
  }

  /** The results of a run over `rows`, and whether it got through all of them. */
  datatype Run = Run(results: seq<FeedbackResult>, complete: bool)

  function RunOver(rows: seq<Row>, s: Settings, now: int,
                   sections: Value -> Reply<Option<Value>>,
                   materials: (Value, MaterialPayload) -> Reply<()>): Run
  {
    if rows == [] then Run([], true)
    else
      var before := RunOver(rows[..|rows| - 1], s, now, sections, materials);
      if !before.complete then before
      else
        var o := RowOutcome(rows[|rows| - 1], s, now, sections, materials);
        if o.Thrown? then Run(before.results, false)
        else if o.value.None? then before
        else Run(before.results + [o.value.value], true)
  }

  lemma {:induction false} StoppedRunStays(rows: seq<Row>, k: nat, s: Settings, now: int,
                                           sections: Value -> Reply<Option<Value>>,
                                           materials: (Value, MaterialPayload) -> Reply<()>)
    requires k <= |rows|
    requires !RunOver(rows[..k], s, now, sections, materials).complete
    ensures RunOver(rows, s, now, sections, materials) == RunOver(rows[..k], s, now, sections, materials)
    decreases |rows| - k
  {
    if k < |rows| {
      var next := rows[..k + 1];
      assert next[..|next| - 1] == rows[..k];
      StoppedRunStays(rows, k + 1, s, now, sections, materials);
    } else {
      assert rows[..k] == rows;
    }
  }

  // ------------------------------------------------------------ properties

  /** The course name falls back from the Russian column to `course_name`, then to "". */
  lemma CourseNameFallback(row: Row)
    ensures Truthy(Get(row, NameColumn)) ==> CourseNameOf(row) == Get(row, NameColumn)
    ensures !Truthy(Get(row, NameColumn)) && Truthy(Get(row, FallbackNameColumn)) ==> CourseNameOf(row) == Get(row, FallbackNameColumn)
    ensures !Truthy(Get(row, NameColumn)) && !Truthy(Get(row, FallbackNameColumn)) ==> CourseNameOf(row) == Text("")
  {
  }

  /** A result carries the row's course id, course name and link, and a section id that is
      not null, 0 or empty. */
  lemma RowOutcomeEntry(row: Row, s: Settings, now: int,
                        sections: Value -> Reply<Option<Value>>,
                        materials: (Value, MaterialPayload) -> Reply<()>)
    requires RowOutcome(row, s, now, sections, materials).Ok? && RowOutcome(row, s, now, sections, materials).value.Some?
    ensures var e := RowOutcome(row, s, now, sections, materials).value.value;
      && Complete(row) && e.courseId == Get(row, IdColumn) && e.courseName == CourseNameOf(row)
      && e.link == LinkOf(row) && Truthy(e.sectionId)
      && e.materialAdded == materials(e.sectionId, MaterialPayloadFor(MaterialName, ToJsString(e.link), s.materialText, now)).Response?
  {
  }

  /** At most one result per row, and every result comes from a complete row whose section
      was created. */
  lemma {:induction false} RunBound(rows: seq<Row>, s: Settings, now: int,
                                    sections: Value -> Reply<Option<Value>>,
                                    materials: (Value, MaterialPayload) -> Reply<()>)
    ensures |RunOver(rows, s, now, sections, materials).results| <= |rows|
    ensures forall e :: e in RunOver(rows, s, now, sections, materials).results ==>
      Truthy(e.courseId) && Truthy(e.courseName) && Truthy(e.link) && Truthy(e.sectionId)
  {
    if rows != [] {
      var init := rows[..|rows| - 1];
      RunBound(init, s, now, sections, materials);
      var o := RowOutcome(rows[|rows| - 1], s, now, sections, materials);
      if RunOver(init, s, now, sections, materials).complete && o.Ok? && o.value.Some? {
        RowOutcomeEntry(rows[|rows| - 1], s, now, sections, materials);
      }
    }
  }

  /** When every row is complete and every section is created, each row yields exactly
      one result, in row order. */
  lemma {:induction false} RunAllRows(rows: seq<Row>, s: Settings, now: int,
                                      sections: Value -> Reply<Option<Value>>,
                                      materials: (Value, MaterialPayload) -> Reply<()>)
    requires forall i :: 0 <= i < |rows| ==> Complete(rows[i])
    requires forall i :: 0 <= i < |rows| ==>
      var reply := sections(Get(rows[i], IdColumn));
      reply.Response? && reply.body.Some? && Truthy(reply.body.value)
    requires forall id: Value, p: MaterialPayload :: !materials(id, p).TokenError?
    ensures var run := RunOver(rows, s, now, sections, materials);
      && run.complete && |run.results| == |rows|
      && forall i :: 0 <= i < |rows| ==> run.results[i].courseId == Get(rows[i], IdColumn)
  {
    if rows != [] {
      var init := rows[..|rows| - 1];
      RunAllRows(init, s, now, sections, materials);
    }
  }

  // ------------------------------------------------------------ the tab

  class FeedbackTab {
    /** `feedbackSettings` */
    var settings: Settings
    /** `window.feedbackData` */
    var feedbackData: seq<Row>
    /** `window.feedbackResults` */
    var feedbackResults: seq<FeedbackResult>
    /** `exportFeedbackInProgress` */
    var exportInProgress: bool

    constructor (s: Settings)
      ensures settings == s && feedbackData == [] && feedbackResults == [] && !exportInProgress
    {
      settings := s;
      feedbackData := [];
      feedbackResults := [];
      exportInProgress := false;
    }

    /** `processFeedbackFile`: `sheet` holds the rows read from the file, `None` when the
        read fails (nothing changes then). On success every row gets its link; the caller
        then runs `AwaitCreateFeedback`. */
    method ProcessFeedbackFile(sheet: Option<seq<Row>>)
      modifies this
      ensures sheet.None? ==> feedbackData == old(feedbackData)
      ensures sheet.Some? ==> |feedbackData| == |sheet.value|
      ensures sheet.Some? ==> forall i :: 0 <= i < |feedbackData| ==> feedbackData[i] == WithLink(sheet.value[i], settings)
      ensures settings == old(settings) && feedbackResults == old(feedbackResults) && exportInProgress == old(exportInProgress)
    {
      if sheet.None? {
        return;
      }
      var rows := sheet.value;
      var withLinks: seq<Row> := [];
      for i := 0 to |rows|
        invariant |withLinks| == i
        invariant forall j :: 0 <= j < i ==> withLinks[j] == WithLink(rows[j], settings)
      {
        var row := rows[i];
        var courseName := Or(Get(row, NameColumn), Text(""));
        var courseId := Or(Get(row, IdColumn), Text(""));
        var link := CreatePrefilledUrl(settings.formUrl, courseName, courseId,
                                       settings.courseNameFieldId, settings.courseIdFieldId);
        assert link == LinkFor(row, settings);
        withLinks := withLinks + [row[LinkColumn := Text(link)]];
      }
      feedbackData := withLinks;
    }

    /** `awaitCreateFeedback` over `feedbackData`; `now` stands for `Date.now()` in the
        payloads. `r.Thrown?` is a rejected promise, which leaves the results so far. */
    method AwaitCreateFeedback(now: int, sections: Value -> Reply<Option<Value>>,
                               materials: (Value, MaterialPayload) -> Reply<()>)
      returns (r: Result<()>)
      modifies this
      ensures var run := RunOver(old(feedbackData), settings, now, sections, materials);
        feedbackResults == run.results && (r.Ok? <==> run.complete)
      ensures feedbackData == old(feedbackData) && settings == old(settings) && exportInProgress == old(exportInProgress)
    {
      feedbackResults := [];
      var rows := feedbackData;
      for i := 0 to |rows|
        invariant RunOver(rows[..i], settings, now, sections, materials) == Run(feedbackResults, true)
        invariant feedbackData == rows && settings == old(settings) && exportInProgress == old(exportInProgress)
      {
        var row := rows[i];
        assert rows[..i + 1][..i] == rows[..i];
        var courseId := Get(row, IdColumn);
        var courseName := CourseNameOf(row);
        var link := LinkOf(row);
        if !Truthy(courseId) || !Truthy(courseName) || !Truthy(link) {
          continue;
        }
        var sectionId := CreateSection(sections(courseId));
        if sectionId.Thrown? {
          StoppedRunStays(rows, i + 1, settings, now, sections, materials);
          return Thrown;
        }
        if !Truthy(sectionId.value) {
          continue;
        }
        var payload := MaterialPayloadFor(MaterialName, ToJsString(link), settings.materialText, now);
        var success := AddMaterialWithHyperlink(materials(sectionId.value, payload));
        if success.Thrown? {
          StoppedRunStays(rows, i + 1, settings, now, sections, materials);
          return Thrown;
        }
        feedbackResults := feedbackResults + [FeedbackResult(courseId, courseName, sectionId.value, success.value, link)];
      }
      assert rows[..|rows|] == rows;
      r := Ok(());
    }

    /** The start of the export button's handler: ignored while an export is in progress;
        otherwise it raises the flag and writes the results, or only logs when there are
        none. */
    method StartExport() returns (e: Export)
      modifies this
      ensures old(exportInProgress) ==> e == Busy && exportInProgress
      ensures !old(exportInProgress) ==>
        && exportInProgress
        && e == (if |feedbackResults| > 0 then Written(feedbackResults) else NothingToExport)
      ensures settings == old(settings) && feedbackData == old(feedbackData) && feedbackResults == old(feedbackResults)
    {
      if exportInProgress {
        return Busy;
      }
      exportInProgress := true;
      if |feedbackResults| > 0 {
        e := Written(feedbackResults);
      } else {
        e := NothingToExport;
      }
    }

    /** The end of the handler, after the file is written: the flag is cleared. */
    method FinishExport()
      modifies this
      ensures !exportInProgress
      ensures settings == old(settings) && feedbackData == old(feedbackData) && feedbackResults == old(feedbackResults)
    {
      exportInProgress := false;
    }
  }
}
