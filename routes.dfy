/**
 * The snippet routes of `registerRoutes`: each handler as a method over the
 * storage that returns the status code and JSON body it sends.
 */
module Routes {
  import opened Wrappers
  import opened Schema
  import opened Ordering
  import opened Storage

  const OK := 200
  const BAD_REQUEST := 400
  const NOT_FOUND := 404

  const MSG_INVALID_DATA := "Geçersiz veri"
  const MSG_NOT_FOUND := "Kod bulunamadı"
  const MSG_QUERY_REQUIRED := "Arama sorgusu gerekli"

  /** A JSON response body: one record, a list of records, or an error message with issue paths. */
  datatype Body = One(snippet: Snippet) | Many(snippets: seq<Snippet>) | Error(message: string, issues: seq<string>)

  datatype Response = Response(status: int, body: Body)

  /**
   * POST /api/code: a body that passes the insert schema is stored under the
   * fresh id, as the spread builds it, and echoed back; any other body gets
   * 400 with the issue paths and the table is left alone.
   */
  method PostCode(storage: MemStorage, body: Json, id: string, now: Timestamp) returns (resp: Response)
    requires storage.Valid()
    requires id !in storage.codeSnippets
    modifies storage
    ensures storage.Valid()
    ensures resp.status == OK || resp.status == BAD_REQUEST
    ensures ParseInsert(body).Success? ==>
      && resp == Response(OK, One(NewSnippetAsWritten(ParseInsert(body).value, id, now)))
      && storage.codeSnippets == old(storage.codeSnippets)[id := resp.body.snippet]
      && storage.order == old(storage.order) + [id]
    ensures ParseInsert(body).Failure? ==>
      && resp == Response(BAD_REQUEST, Error(MSG_INVALID_DATA, ParseInsert(body).error))
      && unchanged(storage)
  {
    match ParseInsert(body)
    case Failure(issues) =>
      resp := Response(BAD_REQUEST, Error(MSG_INVALID_DATA, issues));
    case Success(ins) =>
      var created := storage.CreateCodeSnippet(ins, id, now);
      resp := Response(OK, One(created));
  }

  /**
   * GET /api/code/:id: 404 for an unknown id, with no view counted;
   * otherwise one more view, and the record sent already carries it, since
   * the handler holds the very object that `incrementViews` updates.
   */
  method GetCode(storage: MemStorage, id: string, now: Timestamp) returns (resp: Response)
    requires storage.Valid()
    modifies storage
    ensures storage.Valid()
    ensures id !in old(storage.codeSnippets) ==>
      resp == Response(NOT_FOUND, Error(MSG_NOT_FOUND, [])) && unchanged(storage)
    ensures id in old(storage.codeSnippets) ==>
      && resp.status == OK
      && storage.codeSnippets == ViewedTable(old(storage.codeSnippets), id, now)
      && storage.order == old(storage.order)
      && resp.body == One(storage.codeSnippets[id])
      && resp.body.snippet.views == old(storage.codeSnippets[id].views) + 1
  {
    var found := storage.GetCodeSnippet(id);
    if found.None? {
      return Response(NOT_FOUND, Error(MSG_NOT_FOUND, []));
    }
    storage.IncrementViews(id, now);
    resp := Response(OK, One(WithView(found.value, now)));
  }

  /** GET /api/code: exactly the public records, each once, newest first. */
  method ListCodes(storage: MemStorage) returns (resp: Response)
    requires storage.Valid()
    ensures resp.status == OK && resp.body.Many?
    ensures SortedDesc(resp.body.snippets, CreatedAt)
    ensures forall s :: multiset(resp.body.snippets)[s] == if storage.IsStored(s) && s.isPublic then 1 else 0
  {
    var all := storage.GetAllCodeSnippets();
    var isPublic := (s: Snippet) => s.isPublic;
    var publicSnippets := Filter(all, isPublic);
    FilterKeepsSorted(all, isPublic, CreatedAt);
    forall s ensures multiset(publicSnippets)[s] == if storage.IsStored(s) && s.isPublic then 1 else 0 {
      FilterCount(all, isPublic, s);
    }
    resp := Response(OK, Many(publicSnippets));
  }

  /** `!query || typeof query !== 'string'`: the search query is unusable. */
  predicate QueryMissing(q: Param) {
    !(q.Str? && q.value != "")
  }

  /**
   * GET /api/search: 400 when `q` is missing, empty or not a string, without
   * consulting the storage; otherwise the search results.
   */
  method Search(storage: MemStorage, q: Param, language: Param, category: Param) returns (resp: Response)
    requires storage.Valid()
    ensures QueryMissing(q) ==> resp == Response(BAD_REQUEST, Error(MSG_QUERY_REQUIRED, []))
    ensures !QueryMissing(q) ==>
      && resp.status == OK && resp.body.Many?
      && SortedDesc(resp.body.snippets, CreatedAt)
      && forall s :: multiset(resp.body.snippets)[s]
           == if storage.IsStored(s) && SearchMatch(s, q.value, language, category) then 1 else 0
  {
    if QueryMissing(q) {
      return Response(BAD_REQUEST, Error(MSG_QUERY_REQUIRED, []));
    }
    var results := storage.SearchCodeSnippets(q.value, language, category);
    resp := Response(OK, Many(results));
  }

  /**
   * POST /api/code/:id/like: 404 for an unknown id with the table unchanged;
   * otherwise the record with one more like.
   */
  method LikeCode(storage: MemStorage, id: string, now: Timestamp) returns (resp: Response)
    requires storage.Valid()
    modifies storage
    ensures storage.Valid()
    ensures storage.order == old(storage.order)
    ensures id !in old(storage.codeSnippets) ==>
      resp == Response(NOT_FOUND, Error(MSG_NOT_FOUND, [])) && storage.codeSnippets == old(storage.codeSnippets)
    ensures id in old(storage.codeSnippets) ==>
      && resp.status == OK
      && storage.codeSnippets == LikedTable(old(storage.codeSnippets), id, now)
      && resp.body == One(storage.codeSnippets[id])
      && resp.body.snippet.likes == old(storage.codeSnippets[id].likes) + 1
  {
    var liked := storage.ToggleLike(id, now);
    if liked.None? {
      return Response(NOT_FOUND, Error(MSG_NOT_FOUND, []));
    }
    resp := Response(OK, One(liked.value));
  }
}
