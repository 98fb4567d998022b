/**
 * The two database tables the routes read and write, kept in memory.
 *
 * Rows are kept in insertion order. Every write that stamps a row takes the
 * current `clock` and advances it, so `createdAt` and `checkedAt` are
 * strictly increasing along their tables and insertion order is time order.
 * A link's id is derived from its creation time, which makes ids unique.
 */
module Store {
  import opened Wrappers
  import opened Strings

  /** A monitored page. */
  datatype Link = Link(id: string, url: string, labelText: Option<string>, tags: Option<string>,
                       createdAt: nat, lastChecked: Option<nat>)

  /** One check of one link: a snapshot, a change record, or an error record. */
  datatype Check = Check(linkId: string, contentHash: string, rawText: Option<string>,
                         diff: Option<string>, summary: Option<string>, hasChanges: bool,
                         snippet: Option<string>, error: Option<string>, checkedAt: nat)

  /** Both tables and the clock that stamps their rows. */
  datatype Tables = Tables(links: seq<Link>, checks: seq<Check>, clock: nat)

  /** The id of the link created at time `t`. */
  function IdOf(t: nat): string {
    "c" + DecimalString(t)
  }

  /** Links created at different times have different ids. */
  lemma IdOfInjective(a: nat, b: nat)
    ensures IdOf(a) == IdOf(b) ==> a == b
  {
    if IdOf(a) == IdOf(b) {
      assert DecimalString(a) == IdOf(a)[1..];
      assert DecimalString(b) == IdOf(b)[1..];
      DecimalRoundTrip(a);
      DecimalRoundTrip(b);
    }
  }

  /** The ids of the links, in table order. */
  function Ids(links: seq<Link>): (ids: seq<string>)
    ensures |ids| == |links|
    ensures forall i :: 0 <= i < |links| ==> ids[i] == links[i].id
  {
    if links == [] then [] else [links[0].id] + Ids(links[1..])
  }

  /** Link rows were stamped in order, before now, with their creation-time ids and distinct URLs. */
  predicate LinksValid(links: seq<Link>, clock: nat) {
    && (forall i, j :: 0 <= i < j < |links| ==> links[i].createdAt < links[j].createdAt)
    && (forall i :: 0 <= i < |links| ==> links[i].createdAt < clock)
    && (forall i :: 0 <= i < |links| ==> links[i].id == IdOf(links[i].createdAt))
    && (forall i :: 0 <= i < |links| && links[i].lastChecked.Some? ==> links[i].lastChecked.value < clock)
    && (forall i, j :: 0 <= i < j < |links| ==> links[i].url != links[j].url)
  }

  /** Check rows were stamped in order, before now. */
  predicate ChecksValid(checks: seq<Check>, clock: nat) {
    && (forall i, j :: 0 <= i < j < |checks| ==> checks[i].checkedAt < checks[j].checkedAt)
    && (forall i :: 0 <= i < |checks| ==> checks[i].checkedAt < clock)
  }

  predicate TablesValid(t: Tables) {
    LinksValid(t.links, t.clock) && ChecksValid(t.checks, t.clock)
  }

  /** No two links share an id. */
  lemma DistinctIds(links: seq<Link>, clock: nat)
    requires LinksValid(links, clock)
    ensures forall i, j :: 0 <= i < j < |links| ==> links[i].id != links[j].id
  {
    forall i, j | 0 <= i < j < |links|
      ensures links[i].id != links[j].id
    {
      IdOfInjective(links[i].createdAt, links[j].createdAt);
    }
  }

  /** The first link whose `key` is `value`: `findUnique` on a unique column. */
  function FindBy(links: seq<Link>, key: Link -> string, value: string): (r: Option<Link>)
    ensures r.Some? ==> r.value in links && key(r.value) == value
    ensures r.None? <==> forall i :: 0 <= i < |links| ==> key(links[i]) != value
  {
    if links == [] then None
    else if key(links[0]) == value then Some(links[0])
    else
      var r := FindBy(links[1..], key, value);
      assert forall i :: 1 <= i < |links| ==> links[i] == links[1..][i - 1];
      r
  }

  /** `findUnique({ where: { id } })` */
  function FindLink(links: seq<Link>, id: string): (r: Option<Link>)
    ensures r.Some? ==> r.value in links && r.value.id == id
    ensures r.None? <==> forall i :: 0 <= i < |links| ==> links[i].id != id
  {
    FindBy(links, (link: Link) => link.id, id)
  }

  /** A link is found exactly when its id is in the table. */
  lemma FindLinkIds(links: seq<Link>, id: string)
    ensures FindLink(links, id).Some? <==> id in Ids(links)
  {
    if id in Ids(links) {
      var i :| 0 <= i < |links| && Ids(links)[i] == id;
      assert links[i].id == id;
    }
  }

  /** `findUnique({ where: { url } })` */
  function FindByUrl(links: seq<Link>, url: string): (r: Option<Link>)
    ensures r.Some? ==> r.value in links && r.value.url == url
    ensures r.None? <==> forall i :: 0 <= i < |links| ==> links[i].url != url
  {
    FindBy(links, (link: Link) => link.url, url)
  }

  /** `link.update({ where: { id }, data: { lastChecked } })` */
  function Touch(links: seq<Link>, id: string, time: nat): (r: seq<Link>)
    ensures |r| == |links|
    ensures forall i :: 0 <= i < |links| ==>
      r[i] == if links[i].id == id then links[i].(lastChecked := Some(time)) else links[i]
  {
    if links == [] then []
    else
      var head := if links[0].id == id then links[0].(lastChecked := Some(time)) else links[0];
      [head] + Touch(links[1..], id, time)
  }

  /** Stamping a link keeps the link list valid and its ids in order. */
  lemma TouchContract(links: seq<Link>, id: string, time: nat, clock: nat)
    requires LinksValid(links, clock)
    requires time < clock
    ensures LinksValid(Touch(links, id, time), clock)
    ensures Ids(Touch(links, id, time)) == Ids(links)
  {
    var r := Touch(links, id, time);
    assert forall i :: 0 <= i < |links| ==> r[i].id == links[i].id && r[i].url == links[i].url
                                            && r[i].createdAt == links[i].createdAt;
    assert forall i :: 0 <= i < |links| ==> Ids(r)[i] == Ids(links)[i];
  }

  /** A row stamped with the current time keeps the check table in time order. */
  lemma AppendCheckContract(checks: seq<Check>, row: Check, clock: nat)
    requires ChecksValid(checks, clock)
    requires row.checkedAt == clock
    ensures ChecksValid(checks + [row], clock + 1)
  {
  }

  /** The checks of one link, in table order. */
  function ChecksOf(checks: seq<Check>, id: string): (r: seq<Check>)
    ensures |r| <= |checks|
  {
    if checks == [] then []
    else
      var rest := ChecksOf(checks[1..], id);
      if checks[0].linkId == id then [checks[0]] + rest else rest
  }

  /** The checks of a link are the checks in the table that name it. */
  lemma {:induction false} ChecksOfMembers(checks: seq<Check>, id: string)
    ensures forall c :: c in ChecksOf(checks, id) <==> c in checks && c.linkId == id
    decreases |checks|
  {
    if checks != [] {
      ChecksOfMembers(checks[1..], id);
      assert checks == [checks[0]] + checks[1..];
    }
  }

  lemma {:induction false} ChecksOfAppend(a: seq<Check>, b: seq<Check>, id: string)
    ensures ChecksOf(a + b, id) == ChecksOf(a, id) + ChecksOf(b, id)
    decreases |a|
  {
    if a == [] {
      assert a + b == b;
    } else {
      assert (a + b)[1..] == a[1..] + b;
      ChecksOfAppend(a[1..], b, id);
    }
  }

  /**
   * `check.findFirst({ where: { linkId }, orderBy: { checkedAt: "desc" } })`:
   * the last of the link's checks in table order.
   */
  function LatestCheck(checks: seq<Check>, id: string): Option<Check> {
    var mine := ChecksOf(checks, id);
    if mine == [] then None else Some(mine[|mine| - 1])
  }

  /** The checks of one link, in order, are a subsequence of all checks: their times increase too. */
  lemma {:induction false} ChecksOfIncreasing(checks: seq<Check>, id: string, clock: nat)
    requires ChecksValid(checks, clock)
    ensures ChecksValid(ChecksOf(checks, id), clock)
    decreases |checks|
  {
    if checks != [] {
      ChecksOfIncreasing(checks[1..], id, clock);
      var rest := ChecksOf(checks[1..], id);
      ChecksOfMembers(checks[1..], id);
      forall c | c in rest ensures checks[0].checkedAt < c.checkedAt {
        assert c in checks[1..];
      }
    }
  }

  /**
   * The latest check is the link's check with the greatest `checkedAt`, and
   * there is none exactly when the link has no checks.
   */
  lemma LatestCheckIsNewest(checks: seq<Check>, id: string, clock: nat)
    requires ChecksValid(checks, clock)
    ensures LatestCheck(checks, id).None? <==> forall c :: c in checks ==> c.linkId != id
    ensures LatestCheck(checks, id).Some? ==>
      var latest := LatestCheck(checks, id).value;
      && latest in checks && latest.linkId == id
      && forall c :: c in checks && c.linkId == id ==> c.checkedAt <= latest.checkedAt
  {
    var mine := ChecksOf(checks, id);
    ChecksOfMembers(checks, id);
    if mine != [] {
      ChecksOfIncreasing(checks, id, clock);
      assert mine[|mine| - 1] in mine;
      forall c | c in checks && c.linkId == id
        ensures c.checkedAt <= mine[|mine| - 1].checkedAt
      {
        assert c in mine;
      }
    }
  }

  /** The table with the first `k` checks of link `id` deleted. */
  function DropOldest(checks: seq<Check>, id: string, k: nat): (r: seq<Check>)
    ensures forall c :: c in r ==> c in checks
    ensures |r| <= |checks|
  {
    if checks == [] then []
    else if checks[0].linkId == id && k > 0 then DropOldest(checks[1..], id, k - 1)
    else
      var rest := DropOldest(checks[1..], id, k);
      assert forall c :: c in rest ==> c in checks[1..];
      [checks[0]] + rest
  }

  lemma {:induction false} DropOldestOwn(checks: seq<Check>, id: string, k: nat)
    requires k <= |ChecksOf(checks, id)|
    ensures ChecksOf(DropOldest(checks, id, k), id) == ChecksOf(checks, id)[k..]
    decreases |checks|
  {
    if checks != [] {
      var tail := checks[1..];
      var mine := ChecksOf(checks, id);
      if checks[0].linkId == id {
        assert mine == [checks[0]] + ChecksOf(tail, id);
        if k > 0 {
          DropOldestOwn(tail, id, k - 1);
          assert mine[k..] == ChecksOf(tail, id)[k - 1..];
        } else {
          DropOldestOwn(tail, id, k);
          assert DropOldest(checks, id, k) == [checks[0]] + DropOldest(tail, id, k);
        }
      } else {
        assert mine == ChecksOf(tail, id);
        DropOldestOwn(tail, id, k);
        assert DropOldest(checks, id, k) == [checks[0]] + DropOldest(tail, id, k);
      }
    }
  }

  lemma {:induction false} DropOldestOthers(checks: seq<Check>, id: string, k: nat, other: string)
    requires other != id
    ensures ChecksOf(DropOldest(checks, id, k), other) == ChecksOf(checks, other)
    decreases |checks|
  {
    if checks != [] {
      DropOldestOthers(checks[1..], id, if checks[0].linkId == id && k > 0 then k - 1 else k, other);
    }
  }

  lemma {:induction false} DropOldestIncreasing(checks: seq<Check>, id: string, k: nat, clock: nat)
    requires ChecksValid(checks, clock)
    ensures ChecksValid(DropOldest(checks, id, k), clock)
    decreases |checks|
  {
    if checks != [] {
      var tail := checks[1..];
      var k' := if checks[0].linkId == id && k > 0 then k - 1 else k;
      assert ChecksValid(tail, clock) by {
        assert forall i :: 0 <= i < |tail| ==> tail[i] == checks[i + 1];
      }
      DropOldestIncreasing(tail, id, k', clock);
      if !(checks[0].linkId == id && k > 0) {
        var rest := DropOldest(tail, id, k');
        var r := [checks[0]] + rest;
        assert forall j :: 0 < j < |r| ==> r[j] == rest[j - 1];
        forall j | 0 < j < |r| ensures checks[0].checkedAt < r[j].checkedAt {
          var c := rest[j - 1];
          assert c in tail;
          var m :| 0 <= m < |tail| && tail[m] == c;
          assert c == checks[m + 1];
        }
      }
    }
  }

  const MaxChecksPerLink: nat := 5

  /** Deleting all but the `MaxChecksPerLink` newest checks of link `id`. */
  function Prune(checks: seq<Check>, id: string): seq<Check> {
    var n := |ChecksOf(checks, id)|;
    DropOldest(checks, id, if n > MaxChecksPerLink then n - MaxChecksPerLink else 0)
  }

  /**
   * Pruning keeps exactly the link's five newest checks (all of them when it
   * has at most five), leaves every other link's checks alone and keeps the
   * table in time order.
   */
  lemma PruneContract(checks: seq<Check>, id: string, clock: nat)
    requires ChecksValid(checks, clock)
    ensures var mine := ChecksOf(checks, id);
      ChecksOf(Prune(checks, id), id) ==
        if |mine| > MaxChecksPerLink then mine[|mine| - MaxChecksPerLink..] else mine
    ensures |ChecksOf(Prune(checks, id), id)| <= MaxChecksPerLink
    ensures forall other :: other != id ==> ChecksOf(Prune(checks, id), other) == ChecksOf(checks, other)
    ensures ChecksValid(Prune(checks, id), clock)
  {
    var n := |ChecksOf(checks, id)|;
    var k := if n > MaxChecksPerLink then n - MaxChecksPerLink else 0;
    DropOldestOwn(checks, id, k);
    forall other | other != id
      ensures ChecksOf(Prune(checks, id), other) == ChecksOf(checks, other)
    {
      DropOldestOthers(checks, id, k, other);
    }
    DropOldestIncreasing(checks, id, k, clock);
  }

  /** Appending a link stamped with the current time and a URL not yet in the table keeps the tables valid. */
  lemma AppendLinkKeepsValid(t: Tables, url: string, labelText: Option<string>, tags: Option<string>)
    requires TablesValid(t)
    requires forall i :: 0 <= i < |t.links| ==> t.links[i].url != url
    ensures var link := Link(IdOf(t.clock), url, labelText, tags, t.clock, None);
      TablesValid(Tables(t.links + [link], t.checks, t.clock + 1))
  {
    var link := Link(IdOf(t.clock), url, labelText, tags, t.clock, None);
    var links := t.links + [link];
    assert forall i :: 0 <= i < |t.links| ==> links[i] == t.links[i];
    assert links[|t.links|] == link;
  }

  /** The store: the two tables and the clock that stamps their rows. */
  class Db {
    var links: seq<Link>
    var checks: seq<Check>
    var clock: nat

    ghost predicate Valid()
      reads this
    {
      TablesValid(Snapshot())
    }

    function Snapshot(): Tables
      reads this
    {
      Tables(links, checks, clock)
    }

    /** An empty database. */
    constructor ()
      ensures links == [] && checks == [] && clock == 0
      ensures Valid()
    {
      links, checks, clock := [], [], 0;
    }

    /** `check.create`: appends `row` stamped with the current time. */
    method CreateCheck(row: Check) returns (stored: Check)
      requires Valid()
      modifies this
      ensures stored == row.(checkedAt := old(clock))
      ensures checks == old(checks) + [stored]
      ensures links == old(links) && clock == old(clock) + 1
      ensures LinksValid(links, clock) && ChecksValid(checks, clock)
    {
      stored := row.(checkedAt := clock);
      checks := checks + [stored];
      clock := clock + 1;
    }

    /** `link.create`: appends a link stamped, and identified, with the current time. */
    method CreateLink(url: string, labelText: Option<string>, tags: Option<string>) returns (link: Link)
      requires Valid()
      requires forall i :: 0 <= i < |links| ==> links[i].url != url
      modifies this
      ensures link == Link(IdOf(old(clock)), url, labelText, tags, old(clock), None)
      ensures links == old(links) + [link]
      ensures checks == old(checks) && clock == old(clock) + 1
      ensures Valid()
    {
      AppendLinkKeepsValid(Snapshot(), url, labelText, tags);
      link := Link(IdOf(clock), url, labelText, tags, clock, None);
      links := links + [link];
      clock := clock + 1;
    }

    /** `link.update`: records when link `id` was last checked. */
    method SetLastChecked(id: string, time: nat)
      requires LinksValid(links, clock) && ChecksValid(checks, clock)
      requires time < clock
      modifies this
      ensures links == Touch(old(links), id, time)
      ensures checks == old(checks) && clock == old(clock)
      ensures Valid()
    {
      TouchContract(links, id, time, clock);
      links := Touch(links, id, time);
    }

    /** The `findMany` / `deleteMany` pair that keeps the five newest checks of link `id`. */
    method PruneChecks(id: string)
      requires Valid()
      modifies this
      ensures checks == Prune(old(checks), id)
      ensures links == old(links) && clock == old(clock)
      ensures Valid()
    {
      PruneContract(checks, id, clock);
      checks := Prune(checks, id);
    }
  }
}
