/** The endpoints of the materials tab: `fetchAllCoursesMaterials` and
    `getCourseDetailsWithMaterials`, with the course detail view they return. */
module MaterialsApi {
  import opened JsValues
  import opened Helpers
  import opened Paging

  /** One entry of a section's `materials`, `tasks`, `quizzes` or `scorm_packages`. */
  datatype Item = Item(
    name: Option<string>,
    fileName: Option<string>,
    category: Option<string>,
    createdAt: Option<string>,
    resourceUrl: Option<string>)

  /** A section of the detail view; a collection is `None` when missing or not an array. */
  datatype Section = Section(
    name: Option<string>,
    materials: Option<seq<Item>>,
    tasks: Option<seq<Item>>,
    quizzes: Option<seq<Item>>,
    scormPackages: Option<seq<Item>>)

  /** The detail view of a course; `sections` is `None` when missing or not an array. */
  datatype CourseDetail = CourseDetail(sections: Option<seq<Section>>)

  /** `fetchAllCoursesMaterials`: the same page loop as `fetchAllCourses`. */
  method FetchAllCoursesMaterials(server: Server<Course>) returns (r: Result<seq<Course>>, visited: seq<nat>)
    ensures |visited| >= 1
    ensures forall i :: 0 <= i < |visited| ==> visited[i] == i + 1
    ensures forall p :: 1 <= p < |visited| ==> PageStep(server, p).Next?
    ensures !PageStep(server, |visited|).Next?
    ensures r.Thrown? <==> PageStep(server, |visited|).Abort?
    ensures r.Ok? ==> r.value == Pages(server, 1, |visited|)
    ensures r == FetchFrom(server, 1)
  {
    r, visited := FetchAllPages(server);
  }

  /** `getCourseDetailsWithMaterials`: the body (`None` for a null body), null on a failed
      request; a failed token refresh before the `try` propagates. */
  function GetCourseDetailsWithMaterials(reply: Reply<Option<CourseDetail>>): (r: Result<Option<CourseDetail>>)
    ensures reply.TokenError? <==> r.Thrown?
    ensures reply.RequestError? ==> r == Ok(None)
    ensures reply.Response? ==> r == Ok(reply.body)
  {
    match reply
    case TokenError => Thrown
    case RequestError => Ok(None)
    case Response(body) => Ok(body)
  }
}
