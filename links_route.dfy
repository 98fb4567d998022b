/**
 * `/api/links`: `POST` adds a monitored link after four guards (a URL is
 * given, it passes the URL guard, it is not already monitored, fewer than
 * eight links exist); `GET` lists the links newest first, each with a
 * projection of its latest check.
 */
module LinksRoute {
  import opened Wrappers
  import opened Strings
  import opened Store
  import opened Http
  import Fetcher

  const MaxLinks: nat := 8
  const UrlRequiredMessage := "URL is required"
  const DuplicateMessage := "You're already monitoring this URL"
  const LimitMessage := "Maximum of " + DecimalString(MaxLinks) + " links reached. Delete one to add more."

  /**
   * The fields of the request body the route reads. `url` is `None` when it
   * is absent or not a string; `labelText` and `tags` are `None` when absent.
   */
  datatype Body = Body(url: Option<string>, labelText: Option<string>, tags: Option<string>)

  /** `s?.trim() || null` */
  function NullIfEmpty(s: Option<string>): (r: Option<string>)
    ensures s.None? ==> r.None?
    ensures r.Some? ==> s.Some? && r.value == Trim(s.value)
    ensures r.Some? ==> r.value != "" && !IsSpace(r.value[0]) && !IsSpace(r.value[|r.value| - 1])
    ensures r.None? && s.Some? ==> AllSpace(s.value)
  {
    if s.None? then None
    else
      var trimmed := Trim(s.value);
      if trimmed == "" then
        TrimEmptyIffAllSpace(s.value);
        None
      else Some(trimmed)
  }

  /** The tables after a `POST` and its answer. */
  datatype Added = Added(tables: Tables, response: ApiResponse<Link>)

  /** `POST /api/links` (its reference definition); `parseUrl` stands for the WHATWG URL parser. */
  function AddLink(t: Tables, body: Body, parseUrl: string -> Option<Fetcher.ParsedUrl>): (a: Added)
    ensures a.response.Failure? ==> a.tables == t
    ensures a.response.Success? ==> a.tables.links == t.links + [a.response.data] && a.tables.checks == t.checks
  {
    if !Truthy(body.url) then Added(t, Failure(400, UrlRequiredMessage))
    else
      var url := Trim(body.url.value);
      match Fetcher.ValidateUrl(parseUrl(url))
      case Err(message) => Added(t, Failure(400, message))
      case Ok(_) =>
        if FindByUrl(t.links, url).Some? then Added(t, Failure(409, DuplicateMessage))
        else if |t.links| >= MaxLinks then Added(t, Failure(400, LimitMessage))
        else
          var link := Link(IdOf(t.clock), url, NullIfEmpty(body.labelText), NullIfEmpty(body.tags), t.clock, None);
          Added(Tables(t.links + [link], t.checks, t.clock + 1), Success(201, link))
  }

  /**
   * The guards, in order: each answers with its status and message when the
   * earlier ones passed and its own condition holds, and the link is created
   * exactly when all pass.
   */
  lemma AddGuardsInOrder(t: Tables, body: Body, parseUrl: string -> Option<Fetcher.ParsedUrl>)
    ensures !Truthy(body.url) ==> AddLink(t, body, parseUrl).response == Failure(400, UrlRequiredMessage)
    ensures Truthy(body.url) ==>
      var url := Trim(body.url.value);
      var v := Fetcher.ValidateUrl(parseUrl(url));
      var r := AddLink(t, body, parseUrl).response;
      var duplicate := exists i :: 0 <= i < |t.links| && t.links[i].url == url;
      && (v.Err? ==> r == Failure(400, v.message))
      && (v.Ok? && duplicate ==> r == Failure(409, DuplicateMessage))
      && (v.Ok? && !duplicate && |t.links| >= MaxLinks ==> r == Failure(400, LimitMessage))
    ensures AddLink(t, body, parseUrl).response.Success? <==>
      && Truthy(body.url)
      && Fetcher.ValidateUrl(parseUrl(Trim(body.url.value))).Ok?
      && (forall i :: 0 <= i < |t.links| ==> t.links[i].url != Trim(body.url.value))
      && |t.links| < MaxLinks
  {
  }

  /**
   * A successful `POST` stores exactly one link, last, with the trimmed URL,
   * the trimmed label and tags (or null), a fresh id and no check yet, and
   * answers 201 with that link.
   */
  lemma SuccessfulAddStoresTrimmed(t: Tables, body: Body, parseUrl: string -> Option<Fetcher.ParsedUrl>)
    requires AddLink(t, body, parseUrl).response.Success?
    ensures var a := AddLink(t, body, parseUrl);
      && a.response.status == 201
      && a.tables.links == t.links + [a.response.data]
      && a.tables.checks == t.checks
      && a.response.data.url == Trim(body.url.value)
      && a.response.data.labelText == NullIfEmpty(body.labelText)
      && a.response.data.tags == NullIfEmpty(body.tags)
      && a.response.data.lastChecked.None?
      && a.response.data.id == IdOf(t.clock)
  {
  }

  /** From a valid table of at most eight links, a `POST` keeps the table valid (URLs distinct), its ids distinct and its size at most eight. */
  lemma AddKeepsTableBounded(t: Tables, body: Body, parseUrl: string -> Option<Fetcher.ParsedUrl>)
    requires TablesValid(t)
    requires |t.links| <= MaxLinks
    ensures TablesValid(AddLink(t, body, parseUrl).tables)
    ensures |AddLink(t, body, parseUrl).tables.links| <= MaxLinks
    ensures var links := AddLink(t, body, parseUrl).tables.links;
      forall i, j :: 0 <= i < j < |links| ==> links[i].id != links[j].id
  {
    if AddLink(t, body, parseUrl).response.Success? {
      var url := Trim(body.url.value);
      assert FindByUrl(t.links, url).None?;
      AppendLinkKeepsValid(t, url, NullIfEmpty(body.labelText), NullIfEmpty(body.tags));
    }
    var after := AddLink(t, body, parseUrl).tables;
    DistinctIds(after.links, after.clock);
  }

  /** Adding a URL and then the same URL again: the second `POST` is refused with 409. */
  lemma SecondAddIsDuplicate(t: Tables, body: Body, again: Body, parseUrl: string -> Option<Fetcher.ParsedUrl>)
    requires AddLink(t, body, parseUrl).response.Success?
    requires Truthy(again.url) && Trim(again.url.value) == Trim(body.url.value)
    ensures AddLink(AddLink(t, body, parseUrl).tables, again, parseUrl).response == Failure(409, DuplicateMessage)
  {
    var a := AddLink(t, body, parseUrl);
    var url := Trim(body.url.value);
    SuccessfulAddStoresTrimmed(t, body, parseUrl);
    assert Fetcher.ValidateUrl(parseUrl(url)).Ok?;
    var links := a.tables.links;
    assert links[|t.links|].url == url;
    assert FindByUrl(links, url).Some?;
  }

  /** `POST /api/links`: the guards in order, then `link.create`. */
  method Post(db: Db, body: Body, parseUrl: string -> Option<Fetcher.ParsedUrl>) returns (response: ApiResponse<Link>)
    requires db.Valid()
    modifies db
    ensures db.Valid()
    ensures Added(db.Snapshot(), response) == AddLink(old(db.Snapshot()), body, parseUrl)
  {
    if !Truthy(body.url) {
      return Failure(400, UrlRequiredMessage);
    }
    var url := Trim(body.url.value);
    var validated := Fetcher.ValidateUrl(parseUrl(url));
    if validated.Err? {
      return Failure(400, validated.message);
    }
    var existing := FindByUrl(db.links, url);
    if existing.Some? {
      return Failure(409, DuplicateMessage);
    }
    var count := |db.links|;
    if count >= MaxLinks {
      return Failure(400, LimitMessage);
    }
    var link := db.CreateLink(url, NullIfEmpty(body.labelText), NullIfEmpty(body.tags));
    response := Success(201, link);
  }

  /** The fields of a link's latest check that `GET` returns. */
  datatype LatestCheckView = LatestCheckView(hasChanges: bool, summary: Option<string>, checkedAt: nat,
                                             error: Option<string>, snippet: Option<string>)

  /** One entry of the `GET` answer. */
  datatype LinkView = LinkView(id: string, url: string, labelText: Option<string>, tags: Option<string>,
                               createdAt: nat, lastChecked: Option<nat>, latestCheck: Option<LatestCheckView>)

  function ViewOf(c: Check): LatestCheckView {
    LatestCheckView(c.hasChanges, c.summary, c.checkedAt, c.error, c.snippet)
  }

  /** `checks: { orderBy: { checkedAt: "desc" }, take: 1 }` followed by `link.checks[0] || null`. */
  function LatestView(checks: seq<Check>, id: string): Option<LatestCheckView> {
    match LatestCheck(checks, id)
    case None => None
    case Some(c) => Some(ViewOf(c))
  }

  function EntryOf(link: Link, checks: seq<Check>): LinkView {
    LinkView(link.id, link.url, link.labelText, link.tags, link.createdAt, link.lastChecked,
             LatestView(checks, link.id))
  }

  /** `GET /api/links`: the links in reverse table order, each with its latest check. */
  function Listing(links: seq<Link>, checks: seq<Check>): (r: seq<LinkView>)
    ensures |r| == |links|
    ensures forall i :: 0 <= i < |links| ==> r[i] == EntryOf(links[|links| - 1 - i], checks)
  {
    if links == [] then []
    else
      var rest := Listing(links[1..], checks);
      rest + [EntryOf(links[0], checks)]
  }

  /** In a valid table the listing is in strictly descending `createdAt` order (`orderBy: { createdAt: "desc" }`). */
  lemma ListingNewestFirst(t: Tables)
    requires TablesValid(t)
    ensures var r := Listing(t.links, t.checks);
      forall i, j :: 0 <= i < j < |r| ==> r[i].createdAt > r[j].createdAt
  {
    var r := Listing(t.links, t.checks);
    var n := |t.links|;
    forall i, j | 0 <= i < j < |r| ensures r[i].createdAt > r[j].createdAt {
      assert r[i].createdAt == t.links[n - 1 - i].createdAt;
      assert r[j].createdAt == t.links[n - 1 - j].createdAt;
      assert t.links[n - 1 - j].createdAt < t.links[n - 1 - i].createdAt;
    }
  }

  /** Every link of the table has its entry in the listing. */
  lemma ListingHasEveryLink(links: seq<Link>, checks: seq<Check>, link: Link)
    requires link in links
    ensures exists i :: 0 <= i < |links| && Listing(links, checks)[i] == EntryOf(link, checks)
  {
    var n := |links|;
    var k :| 0 <= k < n && links[k] == link;
    assert Listing(links, checks)[n - 1 - k] == EntryOf(link, checks);
  }

  /**
   * Each entry's `latestCheck` is null exactly when the link has no check,
   * and otherwise shows a check of that link that no other check of it
   * postdates.
   */
  lemma ListingShowsNewestCheck(t: Tables)
    requires TablesValid(t)
    ensures var r := Listing(t.links, t.checks);
      forall i :: 0 <= i < |r| ==>
        && (r[i].latestCheck.None? <==> forall c :: c in t.checks ==> c.linkId != r[i].id)
        && (r[i].latestCheck.Some? ==>
              exists c :: c in t.checks && c.linkId == r[i].id && ViewOf(c) == r[i].latestCheck.value
                      && forall d :: d in t.checks && d.linkId == r[i].id ==> d.checkedAt <= c.checkedAt)
  {
    var r := Listing(t.links, t.checks);
    forall i | 0 <= i < |r|
      ensures r[i].latestCheck.None? <==> forall c :: c in t.checks ==> c.linkId != r[i].id
      ensures r[i].latestCheck.Some? ==>
              exists c :: c in t.checks && c.linkId == r[i].id && ViewOf(c) == r[i].latestCheck.value
                      && forall d :: d in t.checks && d.linkId == r[i].id ==> d.checkedAt <= c.checkedAt
    {
      LatestCheckIsNewest(t.checks, r[i].id, t.clock);
    }
  }
}
