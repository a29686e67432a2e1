/** The feedback endpoints: `createPrefilledUrl`, `createSection` and
    `addMaterialWithHyperlink` with the material payload it posts. */
module FeedbackApi {
  import opened JsValues
  import opened Uri

  // ------------------------------------------------------- createPrefilledUrl

  predicate IsDigit(c: char) {
    '0' <= c <= '9'
  }

  function DigitsValue(s: string): nat
    requires forall i :: 0 <= i < |s| ==> IsDigit(s[i])
  {
    if s == [] then 0
    else
      assert IsDigit(s[|s| - 1]);
      DigitsValue(s[..|s| - 1]) * 10 + (s[|s| - 1] as int - '0' as int)
  }

  /** An array index in the sense of ECMA-262: the canonical decimal form of an integer
      below 2^32 - 1. */
  predicate IsArrayIndex(key: string) {
    && key != []
    && (forall i :: 0 <= i < |key| ==> IsDigit(key[i]))
    && (|key| == 1 || key[0] != '0')
    && DigitsValue(key) < 0xFFFF_FFFF
  }

  /** `Object.keys(params)` after `params[nameKey] = ...; params[idKey] = ...`: array
      indices first in ascending order, then the other keys in order of creation; one key
      when both are the same. */
  function Keys(nameKey: string, idKey: string): (r: seq<string>)
    ensures nameKey == idKey ==> r == [idKey]
    ensures nameKey != idKey ==> r == [nameKey, idKey] || r == [idKey, nameKey]
  {
    if nameKey == idKey then [idKey]
    else if IsArrayIndex(nameKey) && IsArrayIndex(idKey) then
      if DigitsValue(idKey) < DigitsValue(nameKey) then [idKey, nameKey] else [nameKey, idKey]
    else if IsArrayIndex(idKey) then [idKey, nameKey]
    else [nameKey, idKey]
  }

  /** The key/value pairs of `params`: the id key holds the course id, since it is
      assigned last. */
  function Params(courseName: Value, courseId: Value, nameKey: string, idKey: string): seq<(string, string)> {
    var keys := Keys(nameKey, idKey);
    if |keys| == 1 then [Param(courseName, courseId, idKey, keys[0])]
    else [Param(courseName, courseId, idKey, keys[0]), Param(courseName, courseId, idKey, keys[1])]
  }

  /** `[key, params[key]]` */
  function Param(courseName: Value, courseId: Value, idKey: string, key: string): (string, string) {
    (key, if key == idKey then ToJsString(courseId) else ToJsString(courseName))
  }

  /** `createPrefilledUrl` */
  function CreatePrefilledUrl(baseUrl: string, courseName: Value, courseId: Value,
                              nameKey: string, idKey: string): string
  {
    baseUrl + "?" + Query(Params(courseName, courseId, nameKey, idKey))
  }

  /** With two distinct keys that are not array indices the URL carries the name pair,
      then the id pair. */
  lemma PrefilledUrlDistinctKeys(baseUrl: string, courseName: Value, courseId: Value, nameKey: string, idKey: string)
    requires nameKey != idKey && !IsArrayIndex(nameKey) && !IsArrayIndex(idKey)
    ensures CreatePrefilledUrl(baseUrl, courseName, courseId, nameKey, idKey)
      == baseUrl + "?" + EncodeURIComponent(nameKey) + "=" + EncodeURIComponent(ToJsString(courseName))
                 + "&" + EncodeURIComponent(idKey) + "=" + EncodeURIComponent(ToJsString(courseId))
  {
    var n, i := (nameKey, ToJsString(courseName)), (idKey, ToJsString(courseId));
    assert Keys(nameKey, idKey) == [nameKey, idKey];
    assert Params(courseName, courseId, nameKey, idKey) == [n, i];
    QueryOfTwo(n, i);
    Regroup(baseUrl, EncodeURIComponent(n.0), EncodeURIComponent(n.1), EncodeURIComponent(i.0), EncodeURIComponent(i.1));
  }

  lemma Regroup(u: string, a: string, b: string, c: string, d: string)
    ensures u + "?" + ((a + "=" + b) + "&" + (c + "=" + d)) == u + "?" + a + "=" + b + "&" + c + "=" + d
  {
  }

  /** With one key for both fields only the course id is sent. */
  lemma PrefilledUrlSameKey(baseUrl: string, courseName: Value, courseId: Value, key: string)
    ensures CreatePrefilledUrl(baseUrl, courseName, courseId, key, key)
      == baseUrl + "?" + EncodeURIComponent(key) + "=" + EncodeURIComponent(ToJsString(courseId))
  {
    QueryOfOne((key, ToJsString(courseId)));
  }

  /** The URL is `baseUrl?query` where the query holds no `?` and parses back into
      exactly one pair per distinct key: the id key carries the course id and a distinct
      name key the course name. */
  lemma PrefilledUrlParses(baseUrl: string, courseName: Value, courseId: Value, nameKey: string, idKey: string)
    ensures var q := Query(Params(courseName, courseId, nameKey, idKey));
      && CreatePrefilledUrl(baseUrl, courseName, courseId, nameKey, idKey) == baseUrl + "?" + q
      && '?' !in q
      && ParseQuery(q) == Some(Params(courseName, courseId, nameKey, idKey))
    ensures var pairs := Params(courseName, courseId, nameKey, idKey);
      && (idKey, ToJsString(courseId)) in pairs
      && (nameKey != idKey ==> (nameKey, ToJsString(courseName)) in pairs && |pairs| == 2)
      && (nameKey == idKey ==> |pairs| == 1)
  {
    var pairs := Params(courseName, courseId, nameKey, idKey);
    QueryRoundTrip(pairs);
    var n, i := (nameKey, ToJsString(courseName)), (idKey, ToJsString(courseId));
    if nameKey == idKey {
      assert pairs == [i];
    } else if Keys(nameKey, idKey) == [nameKey, idKey] {
      assert pairs == [n, i];
    } else {
      assert pairs == [i, n];
    }
  }

  /** The link is never empty, and has no `$` when the base URL has none. */
  lemma PrefilledUrlShape(baseUrl: string, courseName: Value, courseId: Value, nameKey: string, idKey: string)
    ensures CreatePrefilledUrl(baseUrl, courseName, courseId, nameKey, idKey) != []
    ensures '$' !in baseUrl ==> '$' !in CreatePrefilledUrl(baseUrl, courseName, courseId, nameKey, idKey)
  {
    var pairs := Params(courseName, courseId, nameKey, idKey);
    QueryRoundTrip(pairs);
  }

  // ------------------------------------------------------------- replace

  predicate OccursAt(s: string, pat: string, i: nat) {
    i + |pat| <= |s| && s[i..i + |pat|] == pat
  }

  /** The first index at which `pat` occurs in `s`, from `from` on. */
  function IndexOf(s: string, pat: string, from: nat): (r: Option<nat>)
    ensures r.Some? ==> from <= r.value && OccursAt(s, pat, r.value)
    ensures r.Some? ==> forall i :: from <= i < r.value ==> !OccursAt(s, pat, i)
    ensures r.None? ==> forall i :: from <= i ==> !OccursAt(s, pat, i)
    decreases |s| - from
  {
    if from + |pat| > |s| then None
    else if s[from..from + |pat|] == pat then Some(from)
    else IndexOf(s, pat, from + 1)
  }

  /** `GetSubstitution` for a string pattern (no captures): `$$`, `$&`, `` $` `` and `$'`
      are expanded, every other character is copied. */
  function Substitute(rep: string, matched: string, before: string, after: string): string {
    if rep == [] then []
    else if rep[0] == '$' && |rep| >= 2 && rep[1] == '$' then "$" + Substitute(rep[2..], matched, before, after)
    else if rep[0] == '$' && |rep| >= 2 && rep[1] == '&' then matched + Substitute(rep[2..], matched, before, after)
    else if rep[0] == '$' && |rep| >= 2 && rep[1] == '`' then before + Substitute(rep[2..], matched, before, after)
    else if rep[0] == '$' && |rep| >= 2 && rep[1] == '\'' then after + Substitute(rep[2..], matched, before, after)
    else [rep[0]] + Substitute(rep[1..], matched, before, after)
  }

  /** `s.replace(pat, rep)` with a string pattern: only the first occurrence is replaced. */
  function ReplaceFirst(s: string, pat: string, rep: string): string {
    var at := IndexOf(s, pat, 0);
    if at.None? then s
    else s[..at.value] + Substitute(rep, pat, s[..at.value], s[at.value + |pat|..]) + s[at.value + |pat|..]
  }

  /** A replacement without `$` is inserted as it is. */
  lemma {:induction false} SubstituteLiteral(rep: string, matched: string, before: string, after: string)
    requires '$' !in rep
    ensures Substitute(rep, matched, before, after) == rep
  {
    if rep != [] {
      SubstituteLiteral(rep[1..], matched, before, after);
      assert [rep[0]] + rep[1..] == rep;
    }
  }

  /** Without an occurrence of the pattern the text is unchanged. */
  lemma ReplaceWithoutMatch(s: string, pat: string, rep: string)
    requires forall i: nat :: !OccursAt(s, pat, i)
    ensures ReplaceFirst(s, pat, rep) == s
  {
  }

  /** Only the first occurrence is replaced, and a replacement without `$` is inserted
      verbatim. */
  lemma ReplaceFirstMatch(s: string, pat: string, rep: string, i: nat)
    requires OccursAt(s, pat, i)
    requires forall j :: 0 <= j < i ==> !OccursAt(s, pat, j)
    requires '$' !in rep
    ensures ReplaceFirst(s, pat, rep) == s[..i] + rep + s[i + |pat|..]
  {
    assert IndexOf(s, pat, 0) == Some(i);
    SubstituteLiteral(rep, pat, s[..i], s[i + |pat|..]);
  }

  // ------------------------------------------------------------- requests

  const LinkPlaceholder := "{link}"
  const NoDescription := "Описание отсутствует"
  const EditorVersion := "2.25.0"

  datatype Block = Block(kind: string, id: string, text: string)
  datatype Content = Content(blocks: seq<Block>, version: string, time: int)
  datatype MaterialPayload = MaterialPayload(name: string, description: string, content: Content)

  /** The payload `addMaterialWithHyperlink` posts; `time` is `Date.now()`. */
  function MaterialPayloadFor(materialName: string, link: string, template: string, time: int): MaterialPayload {
    MaterialPayload(materialName, NoDescription,
      Content([Block("paragraph", "unique-id", ReplaceFirst(template, LinkPlaceholder, link))], EditorVersion, time))
  }

  /** The payload is one paragraph block holding the template with its first `{link}`
      replaced by the link, under the given name and the fixed description. */
  lemma MaterialPayloadShape(materialName: string, link: string, template: string, time: int, i: nat)
    requires OccursAt(template, LinkPlaceholder, i)
    requires forall j :: 0 <= j < i ==> !OccursAt(template, LinkPlaceholder, j)
    requires '$' !in link
    ensures var p := MaterialPayloadFor(materialName, link, template, time);
      && p.name == materialName && p.description == NoDescription
      && |p.content.blocks| == 1 && p.content.blocks[0].kind == "paragraph"
      && p.content.blocks[0].text == template[..i] + link + template[i + |LinkPlaceholder|..]
  {
    ReplaceFirstMatch(template, LinkPlaceholder, link, i);
  }

  /** A template without `{link}` is posted unchanged. */
  lemma MaterialPayloadWithoutPlaceholder(materialName: string, link: string, template: string, time: int)
    requires forall j: nat :: !OccursAt(template, LinkPlaceholder, j)
    ensures MaterialPayloadFor(materialName, link, template, time).content.blocks[0].text == template
  {
    ReplaceWithoutMatch(template, LinkPlaceholder, link);
  }

  /** `createSection`: `reply` answers the POST; its body is `None` when null, and the id
      read from it is `Undefined` when missing. The id, or null when the request or the
      read of `.id` fails; a failed token refresh before the `try` propagates. */
  function CreateSection(reply: Reply<Option<Value>>): (r: Result<Value>)
    ensures reply.TokenError? <==> r.Thrown?
    ensures reply.RequestError? ==> r == Ok(Null)
    ensures reply == Response(None) ==> r == Ok(Null)
    ensures reply.Response? && reply.body.Some? ==> r == Ok(reply.body.value)
  {
    match reply
    case TokenError => Thrown
    case RequestError => Ok(Null)
    case Response(None) => Ok(Null)
    case Response(Some(id)) => Ok(id)
  }

  /** `addMaterialWithHyperlink`: true when the POST succeeds, false when it fails. */
  function AddMaterialWithHyperlink(reply: Reply<()>): (r: Result<bool>)
    ensures reply.TokenError? <==> r.Thrown?
    ensures !reply.TokenError? ==> r == Ok(reply.Response?)
  {
    match reply
    case TokenError => Thrown
    case RequestError => Ok(false)
    case Response(_) => Ok(true)
  }
}
