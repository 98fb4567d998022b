/**
 * `POST /api/check`: fetch each page, compare its digest with the link's
 * latest check, diff and summarise a change, store the check, stamp the link
 * and keep only the five newest checks of a successfully checked link.
 *
 * The outside world (URL parser, network, digest, diff library, API key and
 * language model) is a value of `World`; the database is a `Db`.
 */
module CheckRoute {
  import opened Wrappers
  import opened Strings
  import opened Store
  import opened Http
  import Differ
  import Fetcher
  import Summarize

  /** What `runCheck` depends on outside the database. */
  datatype World = World(
    parseUrl: string -> Option<Fetcher.ParsedUrl>,
    fetch: Fetcher.ParsedUrl -> Fetcher.Response,
    sha256: string -> string,
    createPatch: (string, string) -> string,
    apiKey: Option<string>,
    llm: string -> nat -> Summarize.Reply)

  const LinkNotFoundMessage := "Link not found"
  const BaselineSummary := "First snapshot captured — changes will be tracked from this point."
  const CheckFailedMessage := "Check failed"

  /** What `runCheck` returns for one link. */
  datatype CheckResult = CheckResult(linkId: string, hasChanges: bool, summary: Option<string>,
                                     diff: Option<string>, checkedAt: nat, error: Option<string>)

  /** The fields of a successful check that depend on the comparison with the previous one. */
  datatype Assessment = Assessment(hasChanges: bool, diff: Option<string>, summary: Option<string>,
                                   snippet: Option<string>)

  /** A change is reported against a previous check with another digest and a non-empty text. */
  predicate IsChange(previous: Option<Check>, newHash: string) {
    previous.Some? && previous.value.contentHash != newHash && Truthy(previous.value.rawText)
  }

  /** A thrown summariser error is stored as the unavailability text. */
  function SummaryText(outcome: Summarize.Outcome): string {
    match outcome
    case Summary(text) => text
    case Thrown(_) => Summarize.Unavailable
  }

  /** The stored summary for a change from `oldText` to `unified`'s new side. */
  function ChangeSummary(unified: string, url: string, world: World): string {
    SummaryText(Summarize.Summarize(world.apiKey,
      world.llm(Summarize.Prompt(url, Summarize.TruncateDiff(unified)))).outcome)
  }

  /** Baseline, change or no change, from the previous check and the new text and digest. */
  function Assess(previous: Option<Check>, text: string, newHash: string, url: string,
                  world: World): Assessment
  {
    if IsChange(previous, newHash) then
      var unified := world.createPatch(previous.value.rawText.value, text);
      Assessment(true, Some(unified), Some(ChangeSummary(unified, url, world)),
                 Some(Differ.Snippet(unified, Differ.DefaultSnippetLength)))
    else if previous.None? then Assessment(false, None, Some(BaselineSummary), None)
    else Assessment(false, None, None, None)
  }

  /** The record a check of `link` stores at time `t.clock`: an error record when fetching failed. */
  function NewRecord(t: Tables, link: Link, world: World): Check {
    match Fetcher.FetchPageText(world.parseUrl(link.url), world.fetch)
    case Err(message) => Check(link.id, "", None, None, None, false, None, Some(message), t.clock)
    case Ok(page) =>
      var newHash := Differ.ComputeHash(world.sha256, page.text);
      var a := Assess(LatestCheck(t.checks, link.id), page.text, newHash, link.url, world);
      Check(link.id, newHash, Some(page.text), a.diff, a.summary, a.hasChanges, a.snippet, None, t.clock)
  }

  function ResultOf(record: Check): CheckResult {
    CheckResult(record.linkId, record.hasChanges, record.summary, record.diff, record.checkedAt, record.error)
  }

  /** The tables after a check and what it returned. */
  datatype Step = Step(tables: Tables, result: Result<CheckResult>)

  /** Storing `record` for link `linkId`: append it, stamp the link, and prune after a success. */
  function StoreRecord(t: Tables, linkId: string, record: Check): Tables {
    var appended := t.checks + [record];
    var checks := if record.error.None? then Prune(appended, linkId) else appended;
    Tables(Touch(t.links, linkId, t.clock), checks, t.clock + 1)
  }

  /**
   * One `runCheck` (its reference definition): an unknown id throws
   * "Link not found" before anything is written; a known link answers with
   * a result for that link, stamped now.
   */
  function CheckStep(t: Tables, linkId: string, world: World): (s: Step)
    ensures s.result.Err? <==> FindLink(t.links, linkId).None?
    ensures s.result.Err? ==> s == Step(t, Err(LinkNotFoundMessage))
    ensures s.result.Ok? ==> s.result.value.linkId == linkId && s.result.value.checkedAt == t.clock
  {
    match FindLink(t.links, linkId)
    case None => Step(t, Err(LinkNotFoundMessage))
    case Some(link) =>
      var record := NewRecord(t, link, world);
      Step(StoreRecord(t, linkId, record), Ok(ResultOf(record)))
  }

  /** The record of a failed fetch: the error record. */
  lemma NewRecordOnError(t: Tables, link: Link, world: World, message: string)
    requires Fetcher.FetchPageText(world.parseUrl(link.url), world.fetch) == Err(message)
    ensures NewRecord(t, link, world) == Check(link.id, "", None, None, None, false, None, Some(message), t.clock)
  {
  }

  /** The record of a successful fetch: the text, its digest and the assessment against the latest check. */
  lemma NewRecordOnPage(t: Tables, link: Link, world: World, text: string)
    requires Fetcher.FetchPageText(world.parseUrl(link.url), world.fetch).Ok?
    requires Fetcher.FetchPageText(world.parseUrl(link.url), world.fetch).value.text == text
    ensures var newHash := Differ.ComputeHash(world.sha256, text);
      var a := Assess(LatestCheck(t.checks, link.id), text, newHash, link.url, world);
      NewRecord(t, link, world) ==
        Check(link.id, newHash, Some(text), a.diff, a.summary, a.hasChanges, a.snippet, None, t.clock)
  {
  }

  lemma NewRecordStamp(t: Tables, link: Link, world: World)
    ensures NewRecord(t, link, world).checkedAt == t.clock
    ensures NewRecord(t, link, world).linkId == link.id
  {
  }

  /**
   * Storing a record stamped now keeps the tables valid, keeps the link list
   * (ids and order) and stamps the checked link and only it.
   */
  lemma StoreRecordContract(t: Tables, linkId: string, record: Check)
    requires TablesValid(t)
    requires record.checkedAt == t.clock
    ensures TablesValid(StoreRecord(t, linkId, record))
    ensures Ids(StoreRecord(t, linkId, record).links) == Ids(t.links)
    ensures forall i :: 0 <= i < |t.links| ==>
      StoreRecord(t, linkId, record).links[i].lastChecked ==
        (if t.links[i].id == linkId then Some(t.clock) else t.links[i].lastChecked)
  {
    var appended := t.checks + [record];
    AppendCheckContract(t.checks, record, t.clock);
    if record.error.None? {
      PruneContract(appended, linkId, t.clock + 1);
    }
    TouchContract(t.links, linkId, t.clock, t.clock + 1);
  }

  /**
   * A check keeps the tables valid and the link list; a check of a known
   * link answers Ok for that link, stamped now, and stamps only that link.
   */
  lemma CheckStepContract(t: Tables, linkId: string, world: World)
    requires TablesValid(t)
    ensures TablesValid(CheckStep(t, linkId, world).tables)
    ensures Ids(CheckStep(t, linkId, world).tables.links) == Ids(t.links)
    ensures FindLink(t.links, linkId).Some? ==>
      var s := CheckStep(t, linkId, world);
      && s.result.Ok? && s.result.value.linkId == linkId && s.result.value.checkedAt == t.clock
      && forall i :: 0 <= i < |t.links| ==>
           s.tables.links[i].lastChecked ==
             (if t.links[i].id == linkId then Some(t.clock) else t.links[i].lastChecked)
  {
    match FindLink(t.links, linkId)
    case None =>
    case Some(link) =>
      NewRecordStamp(t, link, world);
      StoreRecordContract(t, linkId, NewRecord(t, link, world));
  }

  /** A check of a known link answers with the record it stored, which is now that link's newest check. */
  lemma CheckStepAnswersStoredRecord(t: Tables, linkId: string, world: World)
    requires TablesValid(t)
    requires FindLink(t.links, linkId).Some?
    ensures var s := CheckStep(t, linkId, world);
      var record := NewRecord(t, FindLink(t.links, linkId).value, world);
      var mine := ChecksOf(s.tables.checks, linkId);
      && s.result == Ok(ResultOf(record))
      && |mine| > 0 && mine[|mine| - 1] == record
  {
    var link := FindLink(t.links, linkId).value;
    NewRecordStamp(t, link, world);
    StoredRecordIsNewest(t, linkId, NewRecord(t, link, world));
  }

  /** Whether or not it is pruned after, the stored record is the link's newest check. */
  lemma StoredRecordIsNewest(t: Tables, linkId: string, record: Check)
    requires TablesValid(t)
    requires record.checkedAt == t.clock && record.linkId == linkId
    ensures var mine := ChecksOf(StoreRecord(t, linkId, record).checks, linkId);
      |mine| > 0 && mine[|mine| - 1] == record
  {
    if record.error.None? {
      SuccessKeepsFiveNewest(t, linkId, record);
    } else {
      ErrorRecordNotPruned(t, linkId, record);
      ChecksOfAppend(t.checks, [record], linkId);
      assert ChecksOf([record], linkId) == [record] by {
        assert [record][1..] == [];
      }
    }
  }

  /** A check keeps the tables valid and the link ids; a link in the table is checked without error. */
  lemma CheckStepKeepsLinks(t: Tables, linkId: string, world: World)
    requires TablesValid(t)
    ensures TablesValid(CheckStep(t, linkId, world).tables)
    ensures Ids(CheckStep(t, linkId, world).tables.links) == Ids(t.links)
    ensures linkId in Ids(t.links) ==>
      CheckStep(t, linkId, world).result.Ok? && CheckStep(t, linkId, world).result.value.linkId == linkId
  {
    FindLinkIds(t.links, linkId);
    match FindLink(t.links, linkId)
    case None =>
    case Some(link) =>
      NewRecordStamp(t, link, world);
      StoreRecordContract(t, linkId, NewRecord(t, link, world));
  }

  /**
   * A failure after the link lookup stores exactly one error record (empty
   * digest, no change, the message) without pruning, and answers with that
   * error and no summary or diff.
   */
  lemma FetchFailureStoresErrorRecord(t: Tables, link: Link, world: World, message: string)
    requires link in t.links
    requires FindLink(t.links, link.id) == Some(link)
    requires Fetcher.FetchPageText(world.parseUrl(link.url), world.fetch) == Err(message)
    ensures var s := CheckStep(t, link.id, world);
      && s.tables.checks == t.checks + [Check(link.id, "", None, None, None, false, None, Some(message), t.clock)]
      && s.result == Ok(CheckResult(link.id, false, None, None, t.clock, Some(message)))
  {
  }

  /**
   * After a successful check (a record without error) the link keeps exactly
   * its five newest checks, the new one last; every other link's checks are
   * untouched.
   */
  lemma SuccessKeepsFiveNewest(t: Tables, linkId: string, record: Check)
    requires TablesValid(t)
    requires record.checkedAt == t.clock && record.linkId == linkId && record.error.None?
    ensures var after := StoreRecord(t, linkId, record).checks;
      var mine := ChecksOf(t.checks, linkId) + [record];
      && ChecksOf(after, linkId) ==
           (if |mine| > MaxChecksPerLink then mine[|mine| - MaxChecksPerLink..] else mine)
      && |ChecksOf(after, linkId)| <= MaxChecksPerLink
      && forall other :: other != linkId ==> ChecksOf(after, other) == ChecksOf(t.checks, other)
  {
    var appended := t.checks + [record];
    AppendCheckContract(t.checks, record, t.clock);
    PruneContract(appended, linkId, t.clock + 1);
    ChecksOfAppend(t.checks, [record], linkId);
    assert ChecksOf([record], linkId) == [record] by {
      assert [record][1..] == [];
    }
    var mine := ChecksOf(appended, linkId);
    assert mine == ChecksOf(t.checks, linkId) + [record];
    assert StoreRecord(t, linkId, record).checks == Prune(appended, linkId);
    forall other | other != linkId
      ensures ChecksOf(appended, other) == ChecksOf(t.checks, other)
    {
      ChecksOfAppend(t.checks, [record], other);
    }
  }

  /** An error record is appended as it is: nothing is pruned. */
  lemma ErrorRecordNotPruned(t: Tables, linkId: string, record: Check)
    requires record.error.Some?
    ensures StoreRecord(t, linkId, record).checks == t.checks + [record]
    ensures |ChecksOf(StoreRecord(t, linkId, record).checks, linkId)| ==
      |ChecksOf(t.checks, linkId)| + (if record.linkId == linkId then 1 else 0)
  {
    ChecksOfAppend(t.checks, [record], linkId);
  }

  /**
   * The three outcomes of a successful fetch, decided by the link's latest
   * check: a change (with the diff, its snippet and a summary), the baseline
   * (first check), or no change with nothing stored beside the text.
   */
  lemma Classification(t: Tables, link: Link, world: World)
    requires Fetcher.FetchPageText(world.parseUrl(link.url), world.fetch).Ok?
    ensures var text := Fetcher.FetchPageText(world.parseUrl(link.url), world.fetch).value.text;
      var newHash := Differ.ComputeHash(world.sha256, text);
      var previous := LatestCheck(t.checks, link.id);
      var r := NewRecord(t, link, world);
      && r.error.None? && r.contentHash == newHash && r.rawText == Some(text)
      && (r.hasChanges <==> IsChange(previous, newHash))
      && (r.hasChanges ==>
            var unified := world.createPatch(previous.value.rawText.value, text);
            && r.diff == Some(unified)
            && r.snippet == Some(Differ.Snippet(unified, Differ.DefaultSnippetLength))
            && r.summary == Some(ChangeSummary(unified, link.url, world)))
      && (previous.None? ==> r.diff.None? && r.snippet.None? && r.summary == Some(BaselineSummary))
      && (previous.Some? && !r.hasChanges ==> r.diff.None? && r.snippet.None? && r.summary.None?)
  {
  }

  /** Fetching the text of the latest snapshot again reports no change. */
  lemma SameTextNoChange(t: Tables, link: Link, world: World)
    requires Fetcher.FetchPageText(world.parseUrl(link.url), world.fetch).Ok?
    requires LatestCheck(t.checks, link.id).Some?
    requires var previous := LatestCheck(t.checks, link.id).value;
      && previous.rawText == Some(Fetcher.FetchPageText(world.parseUrl(link.url), world.fetch).value.text)
      && previous.contentHash == Differ.ComputeHash(world.sha256, previous.rawText.value)
    ensures var r := NewRecord(t, link, world);
      !r.hasChanges && r.diff.None? && r.summary.None? && r.snippet.None?
  {
    Classification(t, link, world);
  }

  /**
   * A check right after an error record compares against that record, which
   * has no text: it reports no change and is not a new baseline, whatever the
   * page now says.
   */
  lemma CheckAfterErrorReportsNothing(t: Tables, link: Link, world: World)
    requires Fetcher.FetchPageText(world.parseUrl(link.url), world.fetch).Ok?
    requires LatestCheck(t.checks, link.id).Some?
    requires LatestCheck(t.checks, link.id).value.rawText.None?
    ensures var r := NewRecord(t, link, world);
      r.error.None? && !r.hasChanges && r.summary.None? && r.diff.None?
  {
    Classification(t, link, world);
  }

  /**
   * A summariser that throws (no API key, or a reply whose error names the
   * key) still gives a stored change, with the unavailability text.
   */
  lemma ThrowingSummarizerStillStoresChange(t: Tables, link: Link, world: World)
    requires Fetcher.FetchPageText(world.parseUrl(link.url), world.fetch).Ok?
    requires var text := Fetcher.FetchPageText(world.parseUrl(link.url), world.fetch).value.text;
      var previous := LatestCheck(t.checks, link.id);
      && IsChange(previous, Differ.ComputeHash(world.sha256, text))
      && var unified := world.createPatch(previous.value.rawText.value, text);
         Summarize.Summarize(world.apiKey,
           world.llm(Summarize.Prompt(link.url, Summarize.TruncateDiff(unified)))).outcome.Thrown?
    ensures NewRecord(t, link, world).hasChanges
    ensures NewRecord(t, link, world).summary == Some(Summarize.Unavailable)
    ensures NewRecord(t, link, world).error.None?
  {
  }

  /**
   * The comparison step of `runCheck`: reassigns `hasChanges`, `diff`,
   * `snippet` and `summary` from their defaults, running the diff, the
   * snippet and the summariser for a change.
   */
  method AssessChange(lastCheck: Option<Check>, text: string, newHash: string, url: string, world: World)
    returns (a: Assessment)
    ensures a == Assess(lastCheck, text, newHash, url, world)
  {
    var hasChanges := false;
    var diff: Option<string> := None;
    var summary: Option<string> := None;
    var snippet: Option<string> := None;
    if lastCheck.Some? && lastCheck.value.contentHash != newHash && Truthy(lastCheck.value.rawText) {
      hasChanges := true;
      var diffResult := Differ.ComputeDiff(world.createPatch, lastCheck.value.rawText.value, text);
      diff := Some(diffResult.unified);
      var s := Differ.ExtractSnippet(diffResult.unified, Differ.DefaultSnippetLength);
      snippet := Some(s);
      var outcome, _, _ := Summarize.SummarizeChanges(diffResult.unified, url, world.apiKey, world.llm);
      summary := Some(if outcome.Thrown? then Summarize.Unavailable else outcome.text);
    } else if lastCheck.None? {
      summary := Some(BaselineSummary);
    }
    a := Assessment(hasChanges, diff, summary, snippet);
  }

  /** The catch block of `runCheck`: stores the error record and stamps the link; nothing is pruned. */
  method StoreErrorRecord(db: Db, linkId: string, message: string) returns (stored: Check)
    requires db.Valid()
    modifies db
    ensures stored == Check(linkId, "", None, None, None, false, None, Some(message), old(db.clock))
    ensures db.Valid()
    ensures db.Snapshot() == StoreRecord(old(db.Snapshot()), linkId, stored)
  {
    stored := db.CreateCheck(Check(linkId, "", None, None, None, false, None, Some(message), 0));
    db.SetLastChecked(linkId, stored.checkedAt);
  }

  /** The end of a successful `runCheck`: stores the record, stamps the link and prunes its history. */
  method StoreSnapshot(db: Db, linkId: string, row: Check) returns (stored: Check)
    requires db.Valid()
    requires row.error.None?
    modifies db
    ensures stored == row.(checkedAt := old(db.clock))
    ensures db.Valid()
    ensures db.Snapshot() == StoreRecord(old(db.Snapshot()), linkId, stored)
  {
    stored := db.CreateCheck(row);
    db.SetLastChecked(linkId, stored.checkedAt);
    db.PruneChecks(linkId);
  }

  /**
   * `runCheck`: looks the link up, fetches, compares with the latest check,
   * stores the record, stamps the link and, after a success, prunes the
   * link's history; a failed fetch stores an error record instead.
   */
  method RunCheck(db: Db, linkId: string, world: World) returns (r: Result<CheckResult>)
    requires db.Valid()
    modifies db
    ensures db.Valid()
    ensures Step(db.Snapshot(), r) == CheckStep(old(db.Snapshot()), linkId, world)
  {
    var found := FindLink(db.links, linkId);
    if found.None? {
      return Err(LinkNotFoundMessage);
    }
    var link := found.value;
    ghost var before := db.Snapshot();
    var fetched := Fetcher.FetchPageText(world.parseUrl(link.url), world.fetch);
    if fetched.Err? {
      var stored := StoreErrorRecord(db, linkId, fetched.message);
      NewRecordOnError(before, link, world, fetched.message);
      return Ok(CheckResult(linkId, false, None, None, stored.checkedAt, Some(fetched.message)));
    }
    var text := fetched.value.text;
    var newHash := Differ.ComputeHash(world.sha256, text);
    var lastCheck := LatestCheck(db.checks, linkId);
    var a := AssessChange(lastCheck, text, newHash, link.url, world);
    var stored := StoreSnapshot(db, linkId,
      Check(linkId, newHash, Some(text), a.diff, a.summary, a.hasChanges, a.snippet, None, 0));
    NewRecordOnPage(before, link, world, text);
    r := Ok(CheckResult(linkId, a.hasChanges, a.summary, a.diff, stored.checkedAt, None));
  }

  /** The tables after checking several links in order, and their results or the first error. */
  datatype Bulk = Bulk(tables: Tables, results: Result<seq<CheckResult>>)

  /** Results already collected, in front of those still to come. */
  function Prepend(done: seq<CheckResult>, later: Bulk): Bulk {
    match later.results
    case Err(message) => later
    case Ok(rest) => Bulk(later.tables, Ok(done + rest))
  }

  /** One check per id in order, with any step function, stopping at the first error. */
  function CheckEach(t: Tables, ids: seq<string>, step: (Tables, string) -> Step): Bulk
    decreases |ids|
  {
    if ids == [] then Bulk(t, Ok([]))
    else
      var s := step(t, ids[0]);
      match s.result
      case Err(message) => Bulk(s.tables, Err(message))
      case Ok(result) => Prepend([result], CheckEach(s.tables, ids[1..], step))
  }

  /** `runCheck` as a step function. */
  function Checker(world: World): (Tables, string) -> Step {
    (t: Tables, linkId: string) => CheckStep(t, linkId, world)
  }

  /** Checking the links `ids` one after another (the reference definition of the bulk loop). */
  function CheckAll(t: Tables, ids: seq<string>, world: World): Bulk {
    CheckEach(t, ids, Checker(world))
  }

  /** A step that keeps `inv` and succeeds, about its link, on every id in `keys`. */
  ghost predicate KeepsLinks(step: (Tables, string) -> Step, inv: Tables -> bool, keys: seq<string>) {
    forall t: Tables, linkId: string :: inv(t) ==>
      var s := step(t, linkId);
      && inv(s.tables)
      && (linkId in keys ==> s.result.Ok? && s.result.value.linkId == linkId)
  }

  /** Checking one id and then the rest puts the first result in front, when it succeeds. */
  lemma CheckEachOk(t: Tables, ids: seq<string>, step: (Tables, string) -> Step)
    requires ids != [] && step(t, ids[0]).result.Ok?
    ensures var s := step(t, ids[0]);
      CheckEach(t, ids, step) == Prepend([s.result.value], CheckEach(s.tables, ids[1..], step))
  {
  }

  /** The indices of a list with one result put in front. */
  lemma PrependOne(r: CheckResult, later: Bulk)
    requires later.results.Ok?
    ensures var b := Prepend([r], later);
      && b.tables == later.tables && b.results.Ok?
      && |b.results.value| == 1 + |later.results.value| && b.results.value[0] == r
      && forall i :: 0 < i < |b.results.value| ==> b.results.value[i] == later.results.value[i - 1]
  {
  }

  /** Such a step, run over ids in `keys`, answers once per id, in order, without error. */
  lemma {:induction false} CheckEachCovers(t: Tables, ids: seq<string>, step: (Tables, string) -> Step,
                                           inv: Tables -> bool, keys: seq<string>)
    requires KeepsLinks(step, inv, keys)
    requires inv(t)
    requires forall i :: 0 <= i < |ids| ==> ids[i] in keys
    ensures inv(CheckEach(t, ids, step).tables)
    ensures var b := CheckEach(t, ids, step);
      && b.results.Ok? && |b.results.value| == |ids|
      && forall i :: 0 <= i < |ids| ==> b.results.value[i].linkId == ids[i]
    decreases |ids|
  {
    if ids != [] {
      var s := step(t, ids[0]);
      var tail := ids[1..];
      assert ids[0] in keys;
      assert inv(s.tables) && s.result.Ok? && s.result.value.linkId == ids[0];
      assert forall i :: 0 <= i < |tail| ==> tail[i] == ids[i + 1];
      CheckEachCovers(s.tables, tail, step, inv, keys);
      var rest := CheckEach(s.tables, tail, step);
      CheckEachOk(t, ids, step);
      PrependOne(s.result.value, rest);
    }
  }

  /** The tables invariant, with the link ids `keys`, as a value. */
  function Valid(keys: seq<string>): Tables -> bool {
    (t: Tables) => TablesValid(t) && Ids(t.links) == keys
  }

  lemma CheckerKeepsLinks(world: World, keys: seq<string>)
    ensures KeepsLinks(Checker(world), Valid(keys), keys)
  {
    forall t: Tables, linkId: string | TablesValid(t) && Ids(t.links) == keys
      ensures var s := CheckStep(t, linkId, world);
        && TablesValid(s.tables) && Ids(s.tables.links) == keys
        && (linkId in keys ==> s.result.Ok? && s.result.value.linkId == linkId)
    {
      CheckStepKeepsLinks(t, linkId, world);
    }
  }

  /**
   * Bulk mode over the table's own ids never fails: one result per link, in
   * table order, each about its link, and the tables stay valid.
   */
  lemma CheckAllCoversEveryLink(t: Tables, ids: seq<string>, world: World)
    requires TablesValid(t)
    requires forall i :: 0 <= i < |ids| ==> ids[i] in Ids(t.links)
    ensures TablesValid(CheckAll(t, ids, world).tables)
    ensures var b := CheckAll(t, ids, world);
      && b.results.Ok? && |b.results.value| == |ids|
      && forall i :: 0 <= i < |ids| ==> b.results.value[i].linkId == ids[i]
  {
    CheckerKeepsLinks(world, Ids(t.links));
    CheckEachCovers(t, ids, Checker(world), Valid(Ids(t.links)), Ids(t.links));
  }

  /** What a single check or a bulk check returns. */
  datatype CheckData = Single(result: CheckResult) | Every(results: seq<CheckResult>)

  datatype Posted = Posted(tables: Tables, response: ApiResponse<CheckData>)

  /** A thrown error becomes a 500 with its message, or "Check failed" when that is empty. */
  function ServerError(message: string): ApiResponse<CheckData> {
    Failure(500, OrElse(Some(message), CheckFailedMessage))
  }

  /**
   * `POST /api/check` (its reference definition): one link when `linkId` is
   * given, else all, in table order. Every thrown error is a 500; otherwise
   * a 200 carrying one result when a `linkId` was given, the list otherwise.
   */
  function PostSpec(t: Tables, linkId: Option<string>, world: World): (p: Posted)
    ensures p.response.Failure? ==> p.response.status == 500
    ensures p.response.Success? ==> p.response.status == 200 && (p.response.data.Single? <==> Truthy(linkId))
    ensures Truthy(linkId) && p.response.Success? ==> p.response.data.result.linkId == linkId.value
  {
    if Truthy(linkId) then
      var s := CheckStep(t, linkId.value, world);
      match s.result
      case Err(message) => Posted(s.tables, ServerError(message))
      case Ok(result) => Posted(s.tables, Success(200, Single(result)))
    else
      var b := CheckAll(t, Ids(t.links), world);
      match b.results
      case Err(message) => Posted(b.tables, ServerError(message))
      case Ok(results) => Posted(b.tables, Success(200, Every(results)))
  }

  /** Without a `linkId`, every link is checked once, in table order, and the answer is a 200. */
  lemma BulkChecksEveryLinkInOrder(t: Tables, world: World)
    requires TablesValid(t)
    ensures var p := PostSpec(t, None, world);
      && p.response.Success? && p.response.status == 200 && p.response.data.Every?
      && |p.response.data.results| == |t.links|
      && (forall i :: 0 <= i < |t.links| ==> p.response.data.results[i].linkId == t.links[i].id)
      && TablesValid(p.tables)
  {
    var ids := Ids(t.links);
    assert forall i :: 0 <= i < |ids| ==> ids[i] in Ids(t.links);
    CheckAllCoversEveryLink(t, ids, world);
  }

  /** An unknown `linkId` is answered with a 500 carrying "Link not found", and nothing changes. */
  lemma UnknownSingleLinkIsServerError(t: Tables, linkId: string, world: World)
    requires linkId != ""
    requires forall i :: 0 <= i < |t.links| ==> t.links[i].id != linkId
    ensures PostSpec(t, Some(linkId), world) == Posted(t, Failure(500, LinkNotFoundMessage))
  {
  }

  /** Nothing collected yet leaves a bulk result as it is. */
  lemma PrependNothing(b: Bulk)
    ensures Prepend([], b) == b
  {
    match b.results
    case Err(_) =>
    case Ok(rest) => assert [] + rest == rest;
  }

  /** Collecting in two rounds is collecting once. */
  lemma PrependTwice(done: seq<CheckResult>, more: seq<CheckResult>, b: Bulk)
    ensures Prepend(done, Prepend(more, b)) == Prepend(done + more, b)
  {
    match b.results
    case Err(_) =>
    case Ok(rest) => assert done + (more + rest) == done + more + rest;
  }

  /** A successful check of `ids[i]` moves its result from the bulk check still to come to those collected. */
  lemma BulkAdvance(done: seq<CheckResult>, t: Tables, ids: seq<string>, i: nat, world: World,
                    after: Tables, result: CheckResult)
    requires i < |ids|
    requires CheckStep(t, ids[i], world) == Step(after, Ok(result))
    ensures Prepend(done, CheckAll(t, ids[i..], world)) == Prepend(done + [result], CheckAll(after, ids[i + 1..], world))
  {
    assert ids[i..][0] == ids[i] && ids[i..][1..] == ids[i + 1..];
    assert Checker(world)(t, ids[i]) == CheckStep(t, ids[i], world);
    PrependTwice(done, [result], CheckAll(after, ids[i + 1..], world));
  }

  /** A failed check of `ids[i]` ends the bulk check with its error, whatever was collected. */
  lemma BulkStops(done: seq<CheckResult>, t: Tables, ids: seq<string>, i: nat, world: World,
                  after: Tables, message: string)
    requires i < |ids|
    requires CheckStep(t, ids[i], world) == Step(after, Err(message))
    ensures Prepend(done, CheckAll(t, ids[i..], world)) == Bulk(after, Err(message))
  {
    assert ids[i..][0] == ids[i];
    assert Checker(world)(t, ids[i]) == CheckStep(t, ids[i], world);
  }

  /** Past the last id nothing is left to check. */
  lemma BulkDone(done: seq<CheckResult>, t: Tables, ids: seq<string>, world: World)
    ensures Prepend(done, CheckAll(t, ids[|ids|..], world)) == Bulk(t, Ok(done))
  {
    assert ids[|ids|..] == [];
    assert done + [] == done;
  }

  /** The bulk loop: every link in table order, stopping at the first error. */
  method CheckEvery(db: Db, world: World) returns (results: Result<seq<CheckResult>>)
    requires db.Valid()
    modifies db
    ensures db.Valid()
    ensures Bulk(db.Snapshot(), results) == CheckAll(old(db.Snapshot()), old(Ids(db.links)), world)
  {
    var ids := Ids(db.links);
    var done: seq<CheckResult> := [];
    var i := 0;
    PrependNothing(CheckAll(db.Snapshot(), ids, world));
    while i < |ids|
      invariant 0 <= i <= |ids|
      invariant db.Valid()
      invariant CheckAll(old(db.Snapshot()), ids, world) == Prepend(done, CheckAll(db.Snapshot(), ids[i..], world))
    {
      ghost var before := db.Snapshot();
      var result := RunCheck(db, ids[i], world);
      if result.Err? {
        BulkStops(done, before, ids, i, world, db.Snapshot(), result.message);
        return Err(result.message);
      }
      BulkAdvance(done, before, ids, i, world, db.Snapshot(), result.value);
      done := done + [result.value];
      i := i + 1;
    }
    BulkDone(done, db.Snapshot(), ids, world);
    results := Ok(done);
  }

  /** `POST /api/check`: one link when `linkId` is given, else the bulk loop; a thrown error becomes a 500. */
  method Post(db: Db, linkId: Option<string>, world: World) returns (response: ApiResponse<CheckData>)
    requires db.Valid()
    modifies db
    ensures db.Valid()
    ensures Posted(db.Snapshot(), response) == PostSpec(old(db.Snapshot()), linkId, world)
  {
    if Truthy(linkId) {
      var result := RunCheck(db, linkId.value, world);
      if result.Err? {
        return ServerError(result.message);
      }
      return Success(200, Single(result.value));
    }
    var results := CheckEvery(db, world);
    if results.Err? {
      return ServerError(results.message);
    }
    response := Success(200, Every(results.value));
  }
}
