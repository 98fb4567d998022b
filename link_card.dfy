/**
 * The two display rules of a link card: the status badge chosen from the
 * latest check, and the relative time of the last check.
 */
module LinkCard {
  import opened Wrappers
  import opened Strings
  import opened Store
  import LinksRoute
  import CheckRoute

  datatype Badge = Badge(text: string, className: string)

  const NeverChecked := Badge("Never Checked", "badge badge-never")
  const ErrorBadge := Badge("Error", "badge badge-error")
  const ChangedBadge := Badge("Changed", "badge badge-changed")
  const NoChangeBadge := Badge("No Changes", "badge badge-no-change")

  /** `getStatusBadge`: no check, then an error, then a change, else no change. */
  function StatusBadge(latest: Option<LinksRoute.LatestCheckView>): (b: Badge)
    ensures b == NeverChecked <==> latest.None?
    ensures b == ErrorBadge <==> latest.Some? && Truthy(latest.value.error)
    ensures b == ChangedBadge <==> latest.Some? && !Truthy(latest.value.error) && latest.value.hasChanges
    ensures b == NoChangeBadge <==> latest.Some? && !Truthy(latest.value.error) && !latest.value.hasChanges
  {
    if latest.None? then NeverChecked
    else if Truthy(latest.value.error) then ErrorBadge
    else if latest.value.hasChanges then ChangedBadge
    else NoChangeBadge
  }

  /**
   * After a check stores `record`, the link's card shows the badge of that
   * record: a failed fetch shows "Error" (when its message is not empty),
   * a change "Changed", anything else "No Changes".
   */
  lemma BadgeAfterCheck(t: Tables, record: Check)
    requires TablesValid(t)
    requires record.checkedAt == t.clock
    ensures var after := CheckRoute.StoreRecord(t, record.linkId, record);
      LinksRoute.LatestView(after.checks, record.linkId) == Some(LinksRoute.ViewOf(record))
    ensures var after := CheckRoute.StoreRecord(t, record.linkId, record);
      && (Truthy(record.error) ==> StatusBadge(LinksRoute.LatestView(after.checks, record.linkId)) == ErrorBadge)
      && (record.error.None? && record.hasChanges ==>
            StatusBadge(LinksRoute.LatestView(after.checks, record.linkId)) == ChangedBadge)
  {
    var id := record.linkId;
    var after := CheckRoute.StoreRecord(t, id, record).checks;
    if record.error.Some? {
      CheckRoute.ErrorRecordNotPruned(t, id, record);
      ChecksOfAppend(t.checks, [record], id);
      assert ChecksOf([record], id) == [record] by {
        assert [record][1..] == [];
      }
    } else {
      CheckRoute.SuccessKeepsFiveNewest(t, id, record);
    }
    var mine := ChecksOf(after, id);
    assert mine != [] && mine[|mine| - 1] == record;
  }

  /** The whole seconds between two instants given in milliseconds, rounded down (`Math.floor`). */
  function ElapsedSeconds(nowMs: int, thenMs: int): (s: int)
    ensures s * 1000 <= nowMs - thenMs < s * 1000 + 1000
  {
    (nowMs - thenMs) / 1000
  }

  datatype Unit = Minute | Hour | Day

  function Seconds(u: Unit): nat {
    match u
    case Minute => 60
    case Hour => 3600
    case Day => 86400
  }

  function Letter(u: Unit): char {
    match u
    case Minute => 'm'
    case Hour => 'h'
    case Day => 'd'
  }

  /** What `timeAgo` says: "just now", or a whole number of one unit. */
  datatype Ago = JustNow | UnitsAgo(n: nat, unit: Unit)

  /**
   * The reading of `s` elapsed seconds: under a minute (or negative, for a
   * date in the future) is "just now"; otherwise the largest unit that fits,
   * counted down to a whole number: `n` units have passed and `n + 1` have not.
   */
  function AgoOf(s: int): (a: Ago)
    ensures a == JustNow <==> s < 60
    ensures a.UnitsAgo? ==> 1 <= a.n && Seconds(a.unit) * a.n <= s < Seconds(a.unit) * (a.n + 1)
    ensures a.UnitsAgo? ==> (a.unit == Minute <==> s < 3600) && (a.unit == Day <==> s >= 86400)
  {
    if s < 60 then JustNow
    else if s < 3600 then UnitsAgo(s / 60, Minute)
    else if s < 86400 then UnitsAgo(s / 3600, Hour)
    else UnitsAgo(s / 86400, Day)
  }

  /** The text of a reading: "just now", or `${n}m ago`, `${n}h ago`, `${n}d ago`. */
  function Text(a: Ago): string {
    match a
    case JustNow => "just now"
    case UnitsAgo(n, u) => DecimalString(n) + [Letter(u)] + " ago"
  }

  /**
   * `timeAgo`, with the current time passed in and both instants in
   * milliseconds: "just now" exactly when less than a minute has passed or
   * the date is in the future; anything older starts with its count.
   */
  function TimeAgo(nowMs: int, thenMs: int): (r: string)
    ensures r == "just now" <==> nowMs - thenMs < 60000
    ensures r != "just now" ==> |r| > 0 && IsDigit(r[0])
  {
    var a := AgoOf(ElapsedSeconds(nowMs, thenMs));
    TextStartsWithDigit(a);
    Text(a)
  }

  /** A reading in units starts with a digit; "just now" does not. */
  lemma TextStartsWithDigit(a: Ago)
    ensures |Text(a)| > 0 && (IsDigit(Text(a)[0]) <==> a.UnitsAgo?)
  {
    if a.UnitsAgo? {
      assert Text(a)[0] == DecimalString(a.n)[0];
    }
  }

  /** Different readings print differently, so the text determines the reading. */
  lemma TextInjective(a: Ago, b: Ago)
    requires Text(a) == Text(b)
    ensures a == b
  {
    TextStartsWithDigit(a);
    TextStartsWithDigit(b);
    if a.UnitsAgo? {
      var x := DecimalString(a.n) + [Letter(a.unit)];
      var y := DecimalString(b.n) + [Letter(b.unit)];
      assert Text(a) == x + " ago" && Text(b) == y + " ago";
      assert |x| == |y|;
      assert x == Text(a)[..|x|] == y;
      assert x[..|x| - 1] == DecimalString(a.n) && y[..|y| - 1] == DecimalString(b.n);
      DecimalRoundTrip(a.n);
      DecimalRoundTrip(b.n);
    }
  }
}
