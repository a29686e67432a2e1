/** The `while (moreData)` page loop shared by `fetchAllCourses`,
    `fetchAllCoursesMaterials` and `fetchCourseSessions`. */
module Paging {
  import opened JsValues

  /** The body of one page: a bare array, an object with a `data` field (`None` when
      it is missing or falsy), or null (reading `.data` of null throws inside the `try`). */
  datatype PageBody<T> = ArrayBody(items: seq<T>) | ObjectBody(data: Option<seq<T>>) | NullBody

  /** The server's answer to page p is `server[p - 1]`; past the end of `server` the
      collection is exhausted and the answer is an empty array. */
  type Server<T> = seq<Reply<PageBody<T>>>

  /** What the loop does with one reply. */
  datatype Step<T> = Next(items: seq<T>) | Stop | Abort

  /** `Array.isArray(body) ? body : (body.data || [])` */
  function Normalize<T>(body: PageBody<T>): Option<seq<T>> {
    match body
    case ArrayBody(items) => Some(items)
    case ObjectBody(data) => if data.Some? then data else Some([])
    case NullBody => None
  }

  function StepOf<T>(reply: Reply<PageBody<T>>): Step<T> {
    match reply
    case TokenError => Abort
    case RequestError => Stop
    case Response(body) =>
      var data := Normalize(body);
      if data.Some? && |data.value| > 0 then Next(data.value) else Stop
  }

  function Reply<T>(server: Server<T>, page: nat): Reply<PageBody<T>> {
    if 1 <= page <= |server| then server[page - 1] else Response(ArrayBody([]))
  }

  function PageStep<T>(server: Server<T>, page: nat): Step<T> {
    StepOf(Reply(server, page))
  }

  /** The concatenation of the items of pages `from .. to - 1`. */
  function Pages<T>(server: Server<T>, from: nat, to: nat): seq<T>
    decreases to - from
  {
    if to <= from then []
    else
      var step := PageStep(server, to - 1);
      Pages(server, from, to - 1) + (if step.Next? then step.items else [])
  }

  /** `items` followed by what `r` returns, or `Thrown`. */
  function Prepend<T>(items: seq<T>, r: Result<seq<T>>): Result<seq<T>> {
    if r.Ok? then Ok(items + r.value) else Thrown
  }

  lemma PrependNothing<T>(r: Result<seq<T>>)
    ensures Prepend([], r) == r
  {
    if r.Ok? {
      assert [] + r.value == r.value;
    }
  }

  lemma PrependTwice<T>(a: seq<T>, b: seq<T>, r: Result<seq<T>>)
    ensures Prepend(a, Prepend(b, r)) == Prepend(a + b, r)
  {
    if r.Ok? {
      assert a + (b + r.value) == (a + b) + r.value;
    }
  }

  /** The loop's result from `page` on: the items of the non-empty pages before the first
      empty or failed page, or `Thrown` when the token refresh fails first. */
  function FetchFrom<T>(server: Server<T>, page: nat): Result<seq<T>>
    requires page >= 1
    decreases |server| + 1 - page
  {
    match PageStep(server, page)
    case Abort => Thrown
    case Stop => Ok([])
    case Next(items) =>
      assert page <= |server|;
      Prepend(items, FetchFrom(server, page + 1))
  }

  /** The loop, from page 1: `visited` lists the pages it reached, in order. The last one
      either failed or answered with no items, or was never requested because its token
      refresh threw. */
  method FetchAllPages<T>(server: Server<T>) returns (r: Result<seq<T>>, visited: seq<nat>)
    ensures |visited| >= 1
    ensures forall i :: 0 <= i < |visited| ==> visited[i] == i + 1
    ensures forall p :: 1 <= p < |visited| ==> PageStep(server, p).Next?
    ensures !PageStep(server, |visited|).Next?
    ensures r.Thrown? <==> PageStep(server, |visited|).Abort?
    ensures r.Ok? ==> r.value == Pages(server, 1, |visited|)
    ensures r == FetchFrom(server, 1)
  {
    var items: seq<T> := [];
    var page: nat := 1;
    var more := true;
    var failed := false;
    visited := [];
    PrependNothing(FetchFrom(server, 1));
    while more
      invariant 1 <= page <= |server| + 1
      invariant more ==> |visited| == page - 1
      invariant !more ==> |visited| == page
      invariant forall i :: 0 <= i < |visited| ==> visited[i] == i + 1
      invariant forall p :: 1 <= p < page ==> PageStep(server, p).Next?
      invariant !more ==> !PageStep(server, page).Next?
      invariant !more ==> (failed <==> PageStep(server, page).Abort?)
      invariant more ==> !failed
      invariant items == Pages(server, 1, page)
      invariant more ==> FetchFrom(server, 1) == Prepend(items, FetchFrom(server, page))
      invariant !more ==> FetchFrom(server, 1) == (if failed then Thrown else Ok(items))
      decreases |server| + 1 - page, more
    {
      visited := visited + [page];
      match PageStep(server, page)
      case Abort =>
        failed := true;
        more := false;
      case Stop =>
        assert items + [] == items;
        more := false;
      case Next(data) =>
        assert items + data == Pages(server, 1, page + 1);
        PrependTwice(items, data, FetchFrom(server, page + 1));
        items := items + data;
        page := page + 1;
    }
    r := if failed then Thrown else Ok(items);
  }
}
