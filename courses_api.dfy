/** The course endpoints: `fetchAllCourses`, `getCourseDetails`, `fetchCourseTypes`. */
module CoursesApi {
  import opened JsValues
  import opened Helpers
  import opened Paging

  /** `fetchAllCourses`: pages 1, 2, ... in order, stopping at the first empty or failed
      page with what it has so far; a failed token refresh before a request propagates. */
  method FetchAllCourses(server: Server<Course>) returns (r: Result<seq<Course>>, visited: seq<nat>)
    ensures |visited| >= 1
    ensures forall i :: 0 <= i < |visited| ==> visited[i] == i + 1
    ensures forall p :: 1 <= p < |visited| ==> PageStep(server, p).Next?
    ensures !PageStep(server, |visited|).Next?
    ensures r.Thrown? <==> PageStep(server, |visited|).Abort?
    ensures r.Ok? ==> r.value == Pages(server, 1, |visited|)
    ensures r == FetchFrom(server, 1)
  {
    r, visited := FetchAllPages(server);
  }

  /** `getCourseDetails`: the response body (`None` for a null body), null on a failed
      request; a failed token refresh before the `try` propagates. */
  function GetCourseDetails<B>(reply: Reply<Option<B>>): (r: Result<Option<B>>)
    ensures reply.TokenError? <==> r.Thrown?
    ensures reply.RequestError? ==> r == Ok(None)
    ensures reply.Response? ==> r == Ok(reply.body)
  {
    match reply
    case TokenError => Thrown
    case RequestError => Ok(None)
    case Response(body) => Ok(body)
  }

  /** `fetchCourseTypes`: the token refresh is inside the `try`, so every failure gives []. */
  function FetchCourseTypes(reply: Reply<seq<CourseType>>): (r: seq<CourseType>)
    ensures !reply.Response? ==> r == []
    ensures reply.Response? ==> r == reply.body
  {
    if reply.Response? then reply.body else []
  }
}
