/**
 * The request descriptors built by the groups service: for each call, the HTTP verb, the
 * path, the query parameters and the optional body it hands to the HTTP client.
 * Sending the request is not part of the model.
 */
module Groups {
  import opened Wrappers
  import opened Text

  datatype Verb = Get | Post | Put | Delete

  /** The note payload a caller passes in; it is forwarded unchanged, so its shape is opaque here. */
  datatype NoteData = NoteData(fields: map<string, string>)

  /** What the service hands to the HTTP client. Query parameters are a map: setting a key replaces it. */
  datatype Request = Request(verb: Verb, path: string, params: map<string, string>, body: Option<NoteData>)

  /** One entry of `filterBy`: the parameter named by its `type` property, set to its `value`. */
  datatype Filter = Filter(key: string, value: Option<string>)

  function Lookup(m: map<string, string>, k: string): Option<string> {
    if k in m then Some(m[k]) else None
  }

  // ---------------------------------------------------------------- getGroups

  /** The five parameters every group listing starts with. */
  function BaseParams(orderBy: string, sortOrder: string, offset: int, limit: int): map<string, string> {
    map["offset" := IntToString(offset), "limit" := IntToString(limit), "sortOrder" := sortOrder,
        "orderBy" := orderBy, "paged" := "true"]
  }

  /** The value of the last filter with a truthy value whose key is `k`, if there is one. */
  function LastTruthy(filters: seq<Filter>, k: string): Option<string>
    decreases |filters|
  {
    if filters == [] then None
    else
      var f := filters[|filters| - 1];
      if Truthy(f.value) && f.key == k then f.value else LastTruthy(filters[..|filters| - 1], k)
  }

  /** The keys of the filters with a truthy value. */
  function TruthyKeys(filters: seq<Filter>): set<string>
    decreases |filters|
  {
    if filters == [] then {}
    else
      var f := filters[|filters| - 1];
      TruthyKeys(filters[..|filters| - 1]) + if Truthy(f.value) then {f.key} else {}
  }

  /** How many filters have a truthy value. */
  function TruthyCount(filters: seq<Filter>): nat
    decreases |filters|
  {
    if filters == [] then 0
    else
      var f := filters[|filters| - 1];
      TruthyCount(filters[..|filters| - 1]) + if Truthy(f.value) then 1 else 0
  }

  /** The value a listing request carries for `k`: the last truthy filter for `k`, else the base value. */
  function Effective(base: map<string, string>, filters: seq<Filter>, k: string): Option<string> {
    match LastTruthy(filters, k)
    case Some(v) => Some(v)
    case None => Lookup(base, k)
  }

  lemma {:induction false} LastTruthyKeys(filters: seq<Filter>, k: string)
    ensures LastTruthy(filters, k).Some? <==> k in TruthyKeys(filters)
    decreases |filters|
  {
    if filters != [] {
      LastTruthyKeys(filters[..|filters| - 1], k);
    }
  }

  lemma {:induction false} TruthyKeysBound(filters: seq<Filter>)
    ensures |TruthyKeys(filters)| <= TruthyCount(filters)
    decreases |filters|
  {
    if filters != [] {
      TruthyKeysBound(filters[..|filters| - 1]);
    }
  }

  lemma BaseParamsKeys(orderBy: string, sortOrder: string, offset: int, limit: int)
    ensures BaseParams(orderBy, sortOrder, offset, limit).Keys == {"offset", "limit", "sortOrder", "orderBy", "paged"}
    ensures |BaseParams(orderBy, sortOrder, offset, limit)| == 5
  {
    var keys := {"offset", "limit", "sortOrder", "orderBy", "paged"};
    assert BaseParams(orderBy, sortOrder, offset, limit).Keys == keys;
    assert |keys| == 5;
  }

  lemma UnionBound(a: set<string>, b: set<string>)
    ensures |a| <= |a + b| <= |a| + |b|
  {
    assert a + b == a + (b - a);
    assert |b - a| <= |b| by {
      assert b - a <= b;
    }
  }

  /**
   * What the parameters of a listing are, once every key reads as Effective says: the five base
   * keys plus the keys of the truthy filters, at most one key per truthy filter beyond the five,
   * and offset, limit and paged as given unless a filter replaced them.
   */
  lemma ListingParams(params: map<string, string>, filterBy: seq<Filter>, orderBy: string, sortOrder: string,
                      offset: int, limit: int)
    requires forall k :: Lookup(params, k) == Effective(BaseParams(orderBy, sortOrder, offset, limit), filterBy, k)
    ensures params.Keys == {"offset", "limit", "sortOrder", "orderBy", "paged"} + TruthyKeys(filterBy)
    ensures 5 <= |params| <= 5 + TruthyCount(filterBy)
    ensures LastTruthy(filterBy, "offset") == None ==> ParseInt(params["offset"]) == Some(offset)
    ensures LastTruthy(filterBy, "limit") == None ==> ParseInt(params["limit"]) == Some(limit)
    ensures LastTruthy(filterBy, "paged") == None ==> params["paged"] == "true"
  {
    var base := BaseParams(orderBy, sortOrder, offset, limit);
    BaseParamsKeys(orderBy, sortOrder, offset, limit);
    forall k ensures k in params <==> k in base.Keys + TruthyKeys(filterBy) {
      assert Lookup(params, k) == Effective(base, filterBy, k);
      LastTruthyKeys(filterBy, k);
    }
    TruthyKeysBound(filterBy);
    UnionBound(base.Keys, TruthyKeys(filterBy));
    IntToStringRoundTrip(offset);
    IntToStringRoundTrip(limit);
    assert Lookup(params, "offset") == Effective(base, filterBy, "offset");
    assert Lookup(params, "limit") == Effective(base, filterBy, "limit");
    assert Lookup(params, "paged") == Effective(base, filterBy, "paged");
  }

  /**
   * getGroups: a GET on /groups whose parameters are the five base parameters, each replaced by
   * the last filter with a truthy value for the same key, plus one parameter per other key of
   * such a filter. Filters with an empty or absent value add nothing.
   */
  method GetGroups(filterBy: seq<Filter>, orderBy: string, sortOrder: string, offset: int, limit: int)
    returns (r: Request)
    ensures r.verb == Get && r.path == "/groups" && r.body == None
    ensures forall k :: Lookup(r.params, k) == Effective(BaseParams(orderBy, sortOrder, offset, limit), filterBy, k)
  {
    ghost var base := BaseParams(orderBy, sortOrder, offset, limit);
    var httpParams := map[];
    httpParams := httpParams["offset" := IntToString(offset)];
    httpParams := httpParams["limit" := IntToString(limit)];
    httpParams := httpParams["sortOrder" := sortOrder];
    httpParams := httpParams["orderBy" := orderBy];
    httpParams := httpParams["paged" := "true"];
    assert httpParams == base;
    var i := 0;
    while i < |filterBy|
      invariant 0 <= i <= |filterBy|
      invariant forall k :: Lookup(httpParams, k) == Effective(base, filterBy[..i], k)
    {
      var filter := filterBy[i];
      ghost var prev := httpParams;
      if Truthy(filter.value) {
        httpParams := httpParams[filter.key := filter.value.value];
      }
      ghost var done := filterBy[..i + 1];
      assert done[..i] == filterBy[..i] && done[i] == filter;
      forall k ensures Lookup(httpParams, k) == Effective(base, done, k) {
        assert Lookup(prev, k) == Effective(base, filterBy[..i], k);
        assert LastTruthy(done, k) == if Truthy(filter.value) && filter.key == k then filter.value else LastTruthy(filterBy[..i], k);
      }
      i := i + 1;
    }
    assert filterBy[..i] == filterBy;
    r := Request(Get, "/groups", httpParams, None);
  }

  // ---------------------------------------------------------------- the single-expression builders

  /** getGroupsByOfficeId */
  function GetGroupsByOfficeId(officeId: int): Request {
    Request(Get, "/groups", map["officeId" := IntToString(officeId)], None)
  }

  /** getGroupData */
  function GetGroupData(groupId: string): Request {
    Request(Get, "/groups/" + groupId, map["associations" := "all"], None)
  }

  /** getGroupSummary */
  function GetGroupSummary(groupId: string): Request {
    Request(Get, "/runreports/GroupSummaryCounts", map["R_groupId" := groupId, "genericResultSet" := "false"], None)
  }

  /** getGroupAccountsData */
  function GetGroupAccountsData(groupId: string): Request {
    Request(Get, "/groups/" + groupId + "/accounts", map[], None)
  }

  /** getGroupNotes */
  function GetGroupNotes(groupId: string): Request {
    Request(Get, "/groups/" + groupId + "/notes", map[], None)
  }

  /** createGroupNote */
  function CreateGroupNote(groupId: string, noteData: NoteData): Request {
    Request(Post, "/groups/" + groupId + "/notes", map[], Some(noteData))
  }

  /** editGroupNote */
  function EditGroupNote(groupId: string, noteId: string, noteData: NoteData): Request {
    Request(Put, "/groups/" + groupId + "/notes/" + noteId, map[], Some(noteData))
  }

  /** deleteGroupNote */
  function DeleteGroupNote(groupId: string, noteId: string): Request {
    Request(Delete, "/groups/" + groupId + "/notes/" + noteId, map[], None)
  }

  // ---------------------------------------------------------------- what each request addresses

  /** The path segments of a request: Split of "/a/b" is ["", "a", "b"]. */
  function Segments(r: Request): seq<string> {
    Split(r.path, '/')
  }

  lemma GroupsPrefix(rest: string)
    ensures "/groups/" + rest == "" + "/" + ("groups" + "/" + rest)
  {
    assert "/groups/" == "/" + "groups" + "/";
  }

  /** "/groups/" + rest splits into "", "groups" and the pieces of rest. */
  lemma GroupsPathSegments(rest: string)
    ensures Split("/groups/" + rest, '/') == ["", "groups"] + Split(rest, '/')
  {
    GroupsPrefix(rest);
    SplitAfterSegment("groups", rest, '/');
    SplitAfterSegment("", "groups" + "/" + rest, '/');
  }

  /** getGroupsByOfficeId lists /groups with the office id as its only parameter, which reads back as that id. */
  lemma OfficeGroupsRequest(officeId: int)
    ensures var r := GetGroupsByOfficeId(officeId);
      && r.verb == Get && r.path == "/groups" && r.body == None
      && r.params.Keys == {"officeId"} && ParseInt(r.params["officeId"]) == Some(officeId)
  {
    IntToStringRoundTrip(officeId);
  }

  /** getGroupData reads the group resource itself, with all its associations. */
  lemma GroupDataRequest(groupId: string)
    requires '/' !in groupId
    ensures var r := GetGroupData(groupId);
      && r.verb == Get && Segments(r) == ["", "groups", groupId] && r.body == None
      && r.params == map["associations" := "all"]
  {
    SplitOfSegment(groupId, '/');
    GroupsPathSegments(groupId);
  }

  /**
   * getGroupSummary runs the GroupSummaryCounts report: the path is fixed and the group id travels
   * only as the R_groupId parameter, next to genericResultSet = "false".
   */
  lemma GroupSummaryRequest(groupId: string)
    ensures var r := GetGroupSummary(groupId);
      && r.verb == Get && r.path == "/runreports/GroupSummaryCounts" && r.body == None
      && r.params.Keys == {"R_groupId", "genericResultSet"}
      && r.params["R_groupId"] == groupId && r.params["genericResultSet"] == "false"
  {
  }

  /** getGroupAccountsData reads the accounts sub-resource of the group, without parameters. */
  lemma GroupAccountsRequest(groupId: string)
    requires '/' !in groupId
    ensures var r := GetGroupAccountsData(groupId);
      && r.verb == Get && Segments(r) == ["", "groups", groupId, "accounts"]
      && r.params == map[] && r.body == None
  {
    assert "/groups/" + groupId + "/accounts" == "/groups/" + (groupId + "/" + "accounts") by {
      assert "/accounts" == "/" + "accounts";
    }
    SplitOfSegment("accounts", '/');
    SplitAfterSegment(groupId, "accounts", '/');
    GroupsPathSegments(groupId + "/" + "accounts");
  }

  /** GET and POST on the notes of a group address its notes collection; POST carries the note unchanged. */
  lemma NoteCollectionRequests(groupId: string, noteData: NoteData)
    requires '/' !in groupId
    ensures var list, create := GetGroupNotes(groupId), CreateGroupNote(groupId, noteData);
      && list.verb == Get && create.verb == Post
      && Segments(list) == Segments(create) == ["", "groups", groupId, "notes"]
      && list.body == None && create.body == Some(noteData)
      && list.params == create.params == map[]
  {
    assert "/groups/" + groupId + "/notes" == "/groups/" + (groupId + "/" + "notes") by {
      assert "/notes" == "/" + "notes";
    }
    SplitOfSegment("notes", '/');
    SplitAfterSegment(groupId, "notes", '/');
    GroupsPathSegments(groupId + "/" + "notes");
  }

  /** PUT and DELETE on a note address that note inside the notes collection; PUT carries the note unchanged. */
  lemma NoteItemRequests(groupId: string, noteId: string, noteData: NoteData)
    requires '/' !in groupId && '/' !in noteId
    ensures var edit, delete := EditGroupNote(groupId, noteId, noteData), DeleteGroupNote(groupId, noteId);
      && edit.verb == Put && delete.verb == Delete
      && Segments(edit) == Segments(delete) == ["", "groups", groupId, "notes", noteId]
      && edit.body == Some(noteData) && delete.body == None
      && edit.params == delete.params == map[]
  {
    var rest := groupId + "/" + ("notes" + "/" + noteId);
    assert "/groups/" + groupId + "/notes/" + noteId == "/groups/" + rest by {
      assert "/notes/" == "/" + "notes" + "/";
    }
    SplitOfSegment(noteId, '/');
    SplitAfterSegment("notes", noteId, '/');
    SplitAfterSegment(groupId, "notes" + "/" + noteId, '/');
    GroupsPathSegments(rest);
  }
}
