/** The request router (`src/requestHandler.ts`, class `RequestHandler`):
    it chooses a response or a store call from the url, the method and, for
    the two writing methods, the validated body; the store call is then made
    and its result shaped into the response. The decision is a function
    (`PlanOf`); `Handle` carries it out on a `DB`. */
module RequestHandler {
  import opened Base
  import opened Entropy
  import opened Rows
  import opened Selection
  import opened Store
  import opened DataHandler

  /** The cap `handle` puts on the url's length. */
  const MaxUrlLength: nat := 1024

  /** The three kinds of url `handle` tells apart. */
  datatype Route = InvalidPath | CreatePath | HubPath(hubId: string)

  /** The store operation a request leads to. */
  datatype StoreCall = NewHub | Fetch(hubId: string) | Add(hubId: string, content: seq<byte>) | Deactivate(id: string)

  /** Either a response sent at once, or a store call to make first. */
  datatype Plan = Reply(resp: Response) | Call(call: StoreCall)

  /** `invalid`: 404 with the text `Invalid path`. */
  const InvalidPathResponse: Response := Response(404, map[], Some("Invalid path"))

  /** What the top-level `catch` sends for the `Bad request` rethrown by the
      PUT and DELETE branches. */
  const BadRequest: Response := Response(500, map[], Some("Bad request"))

  const Ok200: Response := Response(200, map[], None)

  // ---------------------------------------------------------------------
  // url.split('/')[1]
  // ---------------------------------------------------------------------

  /** The part of `s` before its first `/` (all of `s` when it has none). */
  function BeforeSlash(s: string): (p: string)
    ensures |p| <= |s| && p == s[..|p|]
    ensures '/' !in p
    ensures |p| < |s| ==> s[|p|] == '/'
  {
    if s == [] || s[0] == '/' then [] else [s[0]] + BeforeSlash(s[1..])
  }

  /** `url.split('/')[1]`: the field between the first and the second `/`,
      or `undefined` (here `None`) when the url holds no `/` at all. */
  function Segment(url: string): (f: Option<string>)
    ensures f.None? <==> '/' !in url
    ensures f.Some? ==> exists k :: 0 <= k < |url| && url[k] == '/' && '/' !in url[..k] && IsFieldAt(url, k + 1, f.value)
  {
    if '/' !in url then None
    else
      var k := |BeforeSlash(url)|;
      var p := BeforeSlash(url[k + 1..]);
      assert url[..k] == BeforeSlash(url);
      assert url[k + 1..][..|p|] == url[k + 1..k + 1 + |p|];
      Some(p)
  }

  /** `url` holds the slash-free field `f` from position `start`, running up
      to the end or to a `/`. */
  predicate IsFieldAt(url: string, start: nat, f: string) {
    && start + |f| <= |url| && url[start..start + |f|] == f && '/' !in f
    && (start + |f| == |url| || url[start + |f|] == '/')
  }

  /** What `validateUUID` is given: the field, or the text `undefined` into
      which a regular-expression test turns a missing one. */
  function HubCandidate(url: string): string {
    match Segment(url)
    case None => "undefined"
    case Some(s) => s
  }

  /** The branches of `handle`: no url, an empty one or one longer than
      1024 UTF-16 code units (JavaScript's `length`) is invalid; `/create`
      is the base path; any other url is a hub path when its first field is
      a valid identifier. */
  function RouteOf(url: Option<string>): (route: Route)
    ensures route == CreatePath <==> url == Some("/create")
    ensures route.HubPath? ==> url.Some? && Segment(url.value) == Some(route.hubId) && ValidateUuid(route.hubId)
  {
    if url.None? || url.value == "" || Utf16Length(url.value) > MaxUrlLength then InvalidPath
    else if url.value == "/create" then CreatePath
    else if ValidateUuid(HubCandidate(url.value)) then HubPath(HubCandidate(url.value))
    else InvalidPath
  }

  // ---------------------------------------------------------------------
  // The decision
  // ---------------------------------------------------------------------

  /** `handleBaseRequests`. */
  function BasePlan(verb: string): (p: Plan)
    ensures p.Call? <==> verb == "POST"
    ensures p.Reply? ==> p.resp.headers == map[] && (p.resp.status == 200 || p.resp.status == 405)
  {
    if verb == "POST" then Call(NewHub)
    else if verb == "OPTIONS" then Reply(Ok200)
    else Reply(Response(405, map[], Some("Not handled: " + verb)))
  }

  /** `handleHubRequests`; a failed validation becomes the 500 response. */
  function HubPlan(req: Request, hubId: string): (p: Plan)
    ensures p.Reply? ==> p.resp.headers == map[] && p.resp.status in {200, 405, 500}
    ensures p.Call? ==> !p.call.NewHub? && (p.call.Fetch? || p.call.Add? ==> p.call.hubId == hubId)
  {
    if req.verb == "GET" then Call(Fetch(hubId))
    else if req.verb == "PUT" then
      match AddPayload(req)
      case Err(_) => Reply(BadRequest)
      case Ok(content) => Call(Add(hubId, content))
    else if req.verb == "DELETE" then
      match DeletePayload(req)
      case Err(_) => Reply(BadRequest)
      case Ok(id) => Call(Deactivate(id))
    else if req.verb == "OPTIONS" then Reply(Ok200)
    else Reply(Response(405, map[], Some(req.verb)))
  }

  /** `handle`: the 404 is sent exactly for an invalid route, since no
      other branch answers 404. */
  function PlanOf(req: Request): (p: Plan)
    ensures p == Reply(InvalidPathResponse) <==> RouteOf(req.url) == InvalidPath
  {
    var route := RouteOf(req.url);
    if route.InvalidPath? then Reply(InvalidPathResponse)
    else if route.CreatePath? then BasePlan(req.verb)
    else HubPlan(req, route.hubId)
  }

  /** `setCors`: the four headers it sets on its local `Headers` object. */
  function SetCors(headers: map<string, string>): (h: map<string, string>)
    ensures h.Keys == headers.Keys + CorsKeys
  {
    headers["Access-Control-Allow-Origin" := "*"]
           ["Access-Control-Request-Method" := "*"]
           ["Access-Control-Allow-Methods" := "OPTIONS, GET, PUT, DELETE"]
           ["Access-Control-Allow-Headers" := "*"]
  }

  const CorsKeys: set<string> :=
    {"Access-Control-Allow-Origin", "Access-Control-Request-Method",
     "Access-Control-Allow-Methods", "Access-Control-Allow-Headers"}

  // ---------------------------------------------------------------------
  // Carrying out a plan
  // ---------------------------------------------------------------------

  /** `item` is a row `getData(hubId)` may return when `r` is drawn: an
      active row of the hub at the drawn offset of some count ordering. */
  ghost predicate Served(item: DataItem, datas: seq<DataItem>, hubId: string, r: nat) {
    && item in datas && item.hub_id == hubId && item.active == 1
    && exists o :: IsCountOrdering(o, Eligible(datas, hubId)) && item == Pick(o, r)
  }

  /** The response and the tables after carrying out plan `p` on the tables
      `hubs` and `datas`, with `newId` from the identifier provider, `now`
      from the clock and `r` from `RANDOM()`. */
  ghost predicate Performs(p: Plan, resp: Response, hubs: seq<Hub>, datas: seq<DataItem>,
                           hubs': seq<Hub>, datas': seq<DataItem>, newId: string, now: int, r: nat) {
    match p
    case Reply(out) => resp == out && hubs' == hubs && datas' == datas
    case Call(NewHub) =>
      && resp == Response(200, map[], Some(newId))
      && hubs' == hubs + [Hub(newId, now, 1)] && datas' == datas
    case Call(Fetch(h)) =>
      && hubs' == hubs
      && (Eligible(datas, h) == [] ==> resp == OnGet(EmptyData) && datas' == datas)
      && (Eligible(datas, h) != [] ==>
            exists item :: Served(item, datas, h, r) && resp == OnGet(item)
                           && datas' == SetCount(datas, item.id, item.count + 1))
    case Call(Add(h, content)) =>
      && resp == OnAdd(DataItem(newId, h, now, 1, 0, content))
      && hubs' == hubs && datas' == datas + [DataItem(newId, h, now, 1, 0, content)]
    case Call(Deactivate(id)) =>
      && resp == OnDelete(EmptyData)
      && hubs' == hubs
      && datas' == (if FirstDataWithId(datas, id).Some? then DeactivateRows(datas, id) else datas)
  }

  /** The response headers never include a CORS header. */
  predicate NoCors(resp: Response) {
    forall k :: k in CorsKeys ==> k !in resp.headers
  }

  /** `handleBaseRequests` on a `DB`. */
  method HandleBase(db: DB, verb: string, newId: string, now: int) returns (resp: Response)
    modifies db
    ensures Performs(BasePlan(verb), resp, old(db.hubs), old(db.datas), db.hubs, db.datas, newId, now, 0)
    ensures old(db.Valid()) ==> db.Valid()
  {
    if verb == "POST" {
      var hub := db.CreateHub(newId, now);
      resp := Response(200, map[], Some(hub.id));
    } else if verb == "OPTIONS" {
      resp := Ok200;
    } else {
      resp := Response(405, map[], Some("Not handled: " + verb));
    }
  }

  /** `handleHubRequests` on a `DB`: the validators run before the store is
      touched, and `DELETE` deactivates the identifier read from the body. */
  method HandleHub(db: DB, req: Request, hubId: string, newId: string, now: int, r: nat) returns (resp: Response)
    modifies db
    ensures Performs(HubPlan(req, hubId), resp, old(db.hubs), old(db.datas), db.hubs, db.datas, newId, now, r)
    ensures old(db.Valid()) ==> db.Valid()
  {
    ghost var plan := HubPlan(req, hubId);
    if req.verb == "GET" {
      assert plan == Call(Fetch(hubId));
      var item := db.GetData(hubId, r);
      resp := OnGet(item);
      if Eligible(old(db.datas), hubId) != [] {
        assert Served(item, old(db.datas), hubId, r);
      }
    } else if req.verb == "PUT" {
      var content := ValidateAdd(req);
      if content.Err? {
        assert plan == Reply(BadRequest);
        resp := BadRequest;
      } else {
        assert plan == Call(Add(hubId, content.value));
        var item := db.AddData(hubId, content.value, newId, now);
        resp := OnAdd(item);
      }
    } else if req.verb == "DELETE" {
      var id := ValidateDelete(req);
      if id.Err? {
        assert plan == Reply(BadRequest);
        resp := BadRequest;
      } else {
        assert plan == Call(Deactivate(id.value));
        var item := db.DeactivateData(id.value);
        resp := OnDelete(item);
      }
    } else if req.verb == "OPTIONS" {
      assert plan == Reply(Ok200);
      resp := Ok200;
    } else {
      assert plan == Reply(Response(405, map[], Some(req.verb)));
      resp := Response(405, map[], Some(req.verb));
    }
  }

  /** `handle` on a `DB`. The CORS headers are built on a local object and
      never handed to the response. */
  method Handle(db: DB, req: Request, newId: string, now: int, r: nat) returns (resp: Response)
    modifies db
    ensures Performs(PlanOf(req), resp, old(db.hubs), old(db.datas), db.hubs, db.datas, newId, now, r)
    ensures NoCors(resp)
    ensures old(db.Valid()) ==> db.Valid()
  {
    var route := RouteOf(req.url);
    if route.InvalidPath? {
      assert PlanOf(req) == Reply(InvalidPathResponse);
      resp := InvalidPathResponse;
    } else if route.CreatePath? {
      assert PlanOf(req) == BasePlan(req.verb);
      resp := HandleBase(db, req.verb, newId, now);
    } else {
      assert PlanOf(req) == HubPlan(req, route.hubId);
      var headers := SetCors(map[]);
      resp := HandleHub(db, req, route.hubId, newId, now, r);
    }
    if PlanOf(req).Reply? {
      RepliesHaveNoHeaders(req);
    }
    PerformedHeaders(PlanOf(req), resp, old(db.hubs), old(db.datas), db.hubs, db.datas, newId, now, r);
  }

  // ---------------------------------------------------------------------
  // Properties of the decision
  // ---------------------------------------------------------------------

  /** Every response the router can send has no header but `Location`, so
      none carries a CORS header. */
  lemma PerformedHeaders(p: Plan, resp: Response, hubs: seq<Hub>, datas: seq<DataItem>,
                         hubs': seq<Hub>, datas': seq<DataItem>, newId: string, now: int, r: nat)
    requires p.Reply? ==> p.resp.headers == map[]
    requires Performs(p, resp, hubs, datas, hubs', datas', newId, now, r)
    ensures resp.headers.Keys <= {"Location"}
    ensures NoCors(resp)
  {
  }

  /** Immediate responses never have headers. */
  lemma RepliesHaveNoHeaders(req: Request)
    requires PlanOf(req).Reply?
    ensures PlanOf(req).resp.headers == map[]
  {
    match RouteOf(req.url)
    case InvalidPath =>
    case CreatePath =>
    case HubPath(h) =>
      if req.verb == "PUT" {
        assert HubPlan(req, h).Reply? ==> HubPlan(req, h) == Reply(BadRequest);
      } else if req.verb == "DELETE" {
        assert HubPlan(req, h).Reply? ==> HubPlan(req, h) == Reply(BadRequest);
      }
  }

  /** The url checks: exactly which urls are invalid paths. */
  lemma RouteOutcomes(url: Option<string>)
    ensures RouteOf(url) == InvalidPath <==>
              || url.None? || url.value == "" || Utf16Length(url.value) > MaxUrlLength
              || (url.value != "/create" && !ValidateUuid(HubCandidate(url.value)))
    ensures RouteOf(url).HubPath? ==>
              && url.Some? && url.value != "/create" && Utf16Length(url.value) <= MaxUrlLength
              && Segment(url.value) == Some(RouteOf(url).hubId) && ValidateUuid(RouteOf(url).hubId)
  {
  }

  /** An invalid path gets the 404 and no store call. */
  lemma InvalidPathAnswered(req: Request)
    requires RouteOf(req.url) == InvalidPath
    ensures PlanOf(req) == Reply(InvalidPathResponse)
  {
  }

  /** A url without any `/` is invalid: the missing field is tested as the
      nine characters of `undefined`, too short for an identifier. */
  lemma NoSlashInvalid(url: string)
    requires '/' !in url && url != ""
    ensures RouteOf(Some(url)) == InvalidPath
  {
  }

  /** The field is read up to the next `/`, so anything after the hub
      identifier is ignored. */
  lemma {:induction false} SegmentOfHubUrl(id: string, rest: string)
    requires '/' !in id
    ensures Segment("/" + id) == Some(id)
    ensures Segment("/" + id + "/" + rest) == Some(id)
  {
    LeadingSlashSegment(id);
    BeforeSlashStops(id, []);
    assert id + [] == id;
    assert "/" + id + "/" + rest == "/" + (id + ("/" + rest));
    LeadingSlashSegment(id + ("/" + rest));
    BeforeSlashStops(id, "/" + rest);
  }

  /** After a leading `/` the field runs to the next `/`. */
  lemma LeadingSlashSegment(tail: string)
    ensures Segment("/" + tail) == Some(BeforeSlash(tail))
  {
    var url := "/" + tail;
    assert url[0] == '/';
    assert BeforeSlash(url) == [];
    assert url[1..] == tail;
  }

  lemma {:induction false} BeforeSlashStops(id: string, tail: string)
    requires '/' !in id
    requires tail == [] || tail[0] == '/'
    ensures BeforeSlash(id + tail) == id
  {
    if id != [] {
      assert (id + tail)[1..] == id[1..] + tail;
      BeforeSlashStops(id[1..], tail);
    } else {
      assert id + tail == tail;
    }
  }

  /** A hub identifier minted by the service's pool is routed to its hub,
      whatever follows it, as long as the whole url stays within the cap;
      past the cap even a valid hub url is an invalid path. */
  lemma MintedHubRouted(id: string, rest: string)
    requires MintedFrom(id, DefaultAlphabet, ServiceIdLength)
    ensures Utf16Length(rest) <= MaxUrlLength - 22 ==> RouteOf(Some("/" + id + "/" + rest)) == HubPath(id)
    ensures Utf16Length(rest) > MaxUrlLength - 22 ==> RouteOf(Some("/" + id + "/" + rest)) == InvalidPath
  {
    MintedIdValidates(id, ServiceIdLength);
    assert forall i :: 0 <= i < |id| ==> id[i] != '/';
    SegmentOfHubUrl(id, rest);
    HubUrlLength(id, rest);
  }

  /** The url length of `/<id>/<rest>` for a minted identifier. */
  lemma HubUrlLength(id: string, rest: string)
    requires MintedFrom(id, DefaultAlphabet, ServiceIdLength)
    ensures Utf16Length("/" + id + "/" + rest) == 22 + Utf16Length(rest)
  {
    forall i | 0 <= i < |id| ensures !IsAstral(id[i]) {
      DefaultAlphabetIsIdClass(id[i]);
    }
    Utf16LengthAppend("/", id);
    Utf16LengthAppend("/" + id, "/");
    Utf16LengthAppend("/" + id + "/", rest);
    assert Utf16Length("/") == 1;
  }

  /** Only a hub path with a valid identifier reaches the store, apart from
      `POST /create`. */
  lemma StoreCallsNeedValidRoute(req: Request)
    requires PlanOf(req).Call?
    ensures RouteOf(req.url) != InvalidPath
    ensures PlanOf(req).call == NewHub <==> RouteOf(req.url) == CreatePath
    ensures PlanOf(req).call.Fetch? || PlanOf(req).call.Add? ==>
              RouteOf(req.url) == HubPath(PlanOf(req).call.hubId) && ValidateUuid(PlanOf(req).call.hubId)
  {
    var route := RouteOf(req.url);
    if route.CreatePath? {
      assert PlanOf(req) == BasePlan(req.verb);
    } else if route.HubPath? {
      assert PlanOf(req) == HubPlan(req, route.hubId);
    }
  }

  /** What each method does on a hub path. `GET` fetches that hub; `PUT`
      stores the validated body in it, or answers 500 when validation fails;
      `OPTIONS` answers 200 and any other method 405 with its name. */
  lemma HubPathMethods(req: Request, h: string)
    requires RouteOf(req.url) == HubPath(h)
    ensures req.verb == "GET" ==> PlanOf(req) == Call(Fetch(h))
    ensures req.verb == "PUT" ==>
              (AddPayload(req).Err? <==> PlanOf(req) == Reply(BadRequest))
              && (AddPayload(req).Ok? ==> PlanOf(req) == Call(Add(h, AddPayload(req).value)))
    ensures req.verb == "OPTIONS" ==> PlanOf(req) == Reply(Ok200)
    ensures req.verb !in {"GET", "PUT", "DELETE", "OPTIONS"} ==>
              PlanOf(req) == Reply(Response(405, map[], Some(req.verb)))
  {
  }

  /** `DELETE` deactivates the identifier the body names, which need not
      belong to the hub of the path; a body that does not validate gives the
      500 response. */
  lemma DeleteTargetsBody(req: Request, h: string)
    requires RouteOf(req.url) == HubPath(h) && req.verb == "DELETE"
    ensures DeletePayload(req).Err? <==> PlanOf(req) == Reply(BadRequest)
    ensures DeletePayload(req).Ok? ==>
              && PlanOf(req) == Call(Deactivate(JoinChunks(req.body)))
              && ValidateUuid(JoinChunks(req.body))
  {
    DeletePayloadOutcomes(req);
  }

  /** The base path: `POST` creates a hub, `OPTIONS` answers 200, and any
      other method gets 405 naming it. */
  lemma BasePathMethods(req: Request)
    requires RouteOf(req.url) == CreatePath
    ensures PlanOf(req).Call? <==> req.verb == "POST"
    ensures req.verb == "POST" ==> PlanOf(req) == Call(NewHub)
    ensures req.verb == "OPTIONS" ==> PlanOf(req) == Reply(Ok200)
    ensures req.verb != "POST" && req.verb != "OPTIONS" ==>
              PlanOf(req) == Reply(Response(405, map[], Some("Not handled: " + req.verb)))
  {
  }

  /** Across every request the `active` flags only go down, counts only go
      up, and no row disappears, as long as the `datas` identifiers are
      unique. */
  lemma PerformedEvolves(p: Plan, resp: Response, hubs: seq<Hub>, datas: seq<DataItem>,
                         hubs': seq<Hub>, datas': seq<DataItem>, newId: string, now: int, r: nat)
    requires UniqueIds(datas)
    requires Performs(p, resp, hubs, datas, hubs', datas', newId, now, r)
    ensures HubsEvolve(hubs, hubs') && DataEvolves(datas, datas')
  {
    match p
    case Reply(_) =>
    case Call(NewHub) =>
    case Call(Fetch(h)) =>
      FetchEvolves(datas, datas', h, r, resp);
    case Call(Add(h, content)) =>
    case Call(Deactivate(id)) =>
      DeactivateEvolvesAnyRows(datas, id);
  }

  lemma FetchEvolves(datas: seq<DataItem>, datas': seq<DataItem>, h: string, r: nat, resp: Response)
    requires UniqueIds(datas)
    requires Eligible(datas, h) == [] ==> datas' == datas
    requires Eligible(datas, h) != [] ==>
               exists item :: Served(item, datas, h, r) && resp == OnGet(item)
                              && datas' == SetCount(datas, item.id, item.count + 1)
    ensures DataEvolves(datas, datas')
  {
    forall item | item in datas
      ensures DataEvolves(datas, SetCount(datas, item.id, item.count + 1))
    {
      PickKeepsCounts(datas, item);
    }
  }
}
