/** Merging reported Lightning invoice states into the stored legs of a bundle (`src/db.rs`). */
module Lightning {
  import opened Common

  datatype Leg = Open | Accepted | Settled | Canceled | Expired

  predicate Terminal(leg: Leg) {
    leg.Settled? || leg.Canceled? || leg.Expired?
  }

  /** The `CASE` expression of the update: terminal states stick, and an accepted leg does
      not go back to open. */
  function Merged(stored: Leg, reported: Leg): Leg {
    if Terminal(stored) then stored
    else if stored == Accepted && reported == Open then stored
    else reported
  }

  datatype Bundle = Bundle(base: Leg, success: Leg, updatedAt: int)

  datatype Report = Report(session: string, base: Leg, success: Leg, now: int)

  function Updated(bundles: map<string, Bundle>, r: Report): map<string, Bundle> {
    if r.session in bundles then
      var b := bundles[r.session];
      bundles[r.session := Bundle(Merged(b.base, r.base), Merged(b.success, r.success), r.now)]
    else bundles
  }

  class BundleTable {
    var bundles: map<string, Bundle>

    constructor (bundles: map<string, Bundle>)
      ensures this.bundles == bundles
    {
      this.bundles := bundles;
    }

    method UpdateStates(session: string, base: Leg, success: Leg, now: int) returns (updated: bool)
      modifies this
      ensures updated == (session in old(bundles))
      ensures bundles == Updated(old(bundles), Report(session, base, success, now))
    {
      updated := session in bundles;
      if updated {
        var row := bundles[session];
        var base' := row.base;
        if !Terminal(row.base) && !(row.base == Accepted && base == Open) {
          base' := base;
        }
        var success' := row.success;
        if !Terminal(row.success) && !(row.success == Accepted && success == Open) {
          success' := success;
        }
        bundles := bundles[session := Bundle(base', success', now)];
      }
    }
  }

  // ---------------------------------------------------------------- sequences of reports

  /** The leg after a sequence of reports. */
  function MergedAll(stored: Leg, reports: seq<Leg>): Leg {
    if reports == [] then stored
    else Merged(MergedAll(stored, reports[..|reports| - 1]), reports[|reports| - 1])
  }

  /** The first terminal state in a sequence, if any. */
  function FirstTerminal(reports: seq<Leg>): Option<Leg> {
    if reports == [] then None
    else if Terminal(reports[0]) then Some(reports[0])
    else FirstTerminal(reports[1..])
  }

  lemma {:induction false} FirstTerminalSnoc(reports: seq<Leg>, last: Leg)
    ensures FirstTerminal(reports + [last]) ==
      if FirstTerminal(reports).Some? then FirstTerminal(reports)
      else if Terminal(last) then Some(last) else None
  {
    if reports == [] {
      assert [last][1..] == [];
      assert reports + [last] == [last];
    } else {
      assert (reports + [last])[1..] == reports[1..] + [last];
      FirstTerminalSnoc(reports[1..], last);
    }
  }

  /** Starting from open, a leg ends in the first terminal state reported, else accepted if
      that was ever reported, else open. */
  lemma {:induction false} LegIsFirstTerminal(reports: seq<Leg>)
    ensures MergedAll(Open, reports) ==
      if FirstTerminal(reports).Some? then FirstTerminal(reports).value
      else if Accepted in reports then Accepted else Open
  {
    if reports != [] {
      var init, last := reports[..|reports| - 1], reports[|reports| - 1];
      assert reports == init + [last];
      LegIsFirstTerminal(init);
      FirstTerminalSnoc(init, last);
      FirstTerminalIsTerminal(init);
    }
  }

  lemma {:induction false} FirstTerminalIsTerminal(reports: seq<Leg>)
    ensures FirstTerminal(reports).Some? ==>
      Terminal(FirstTerminal(reports).value) && FirstTerminal(reports).value in reports
    ensures FirstTerminal(reports).None? ==> forall r | r in reports :: !Terminal(r)
  {
    if reports != [] {
      FirstTerminalIsTerminal(reports[1..]);
      assert reports == [reports[0]] + reports[1..];
    }
  }

  // ---------------------------------------------------------------- order independence

  ghost predicate SameReports(a: seq<Leg>, b: seq<Leg>) {
    forall x: Leg :: x in a <==> x in b
  }

  ghost predicate AtMostOneTerminal(reports: seq<Leg>) {
    forall x: Leg, y: Leg | x in reports && y in reports && Terminal(x) && Terminal(y) :: x == y
  }

  /** With at most one distinct terminal state, only the set of reports matters. */
  lemma OrderDoesNotMatter(reports: seq<Leg>, other: seq<Leg>)
    requires AtMostOneTerminal(reports) && SameReports(reports, other)
    ensures MergedAll(Open, other) == MergedAll(Open, reports)
  {
    LegIsFirstTerminal(reports);
    LegIsFirstTerminal(other);
    FirstTerminalIsTerminal(reports);
    FirstTerminalIsTerminal(other);
  }

  /** Reporting a terminal state once more, and first, makes it the outcome. */
  lemma EarlierTerminalWins(reports: seq<Leg>, x: Leg)
    requires x in reports && Terminal(x)
    ensures SameReports(reports, [x] + reports) && MergedAll(Open, [x] + reports) == x
  {
    LegIsFirstTerminal([x] + reports);
  }

  /** The outcome does not depend on order or duplication of the reports if and only if they
      contain at most one distinct terminal state. */
  lemma OrderMattersOnlyForTerminals(reports: seq<Leg>)
    ensures AtMostOneTerminal(reports) <==>
      forall other: seq<Leg> | SameReports(reports, other) :: MergedAll(Open, other) == MergedAll(Open, reports)
  {
    if AtMostOneTerminal(reports) {
      forall other: seq<Leg> | SameReports(reports, other)
        ensures MergedAll(Open, other) == MergedAll(Open, reports)
      {
        OrderDoesNotMatter(reports, other);
      }
    } else {
      var x: Leg, y: Leg :| x in reports && y in reports && Terminal(x) && Terminal(y) && x != y;
      EarlierTerminalWins(reports, x);
      EarlierTerminalWins(reports, y);
    }
  }

  /** Moving a terminal state to the front, without repeating it, makes it the outcome. */
  lemma MovedToFrontWins(reports: seq<Leg>, x: Leg) returns (other: seq<Leg>)
    requires x in reports && Terminal(x)
    ensures multiset(other) == multiset(reports) && MergedAll(Open, other) == x
  {
    var i :| 0 <= i < |reports| && reports[i] == x;
    var rest := reports[..i] + reports[i + 1..];
    other := [x] + rest;
    assert reports == reports[..i] + [x] + reports[i + 1..];
    LegIsFirstTerminal(other);
  }

  /** Order alone: every permutation of the reports has the same outcome if and only if they
      contain at most one distinct terminal state. */
  lemma PermutationMattersOnlyForTerminals(reports: seq<Leg>)
    ensures AtMostOneTerminal(reports) <==>
      forall other: seq<Leg> | multiset(other) == multiset(reports) :: MergedAll(Open, other) == MergedAll(Open, reports)
  {
    if AtMostOneTerminal(reports) {
      forall other: seq<Leg> | multiset(other) == multiset(reports)
        ensures MergedAll(Open, other) == MergedAll(Open, reports)
      {
        assert forall x: Leg :: x in reports <==> x in multiset(reports);
        assert forall x: Leg :: x in other <==> x in multiset(other);
        OrderDoesNotMatter(reports, other);
      }
    } else {
      var x: Leg, y: Leg :| x in reports && y in reports && Terminal(x) && Terminal(y) && x != y;
      var a := MovedToFrontWins(reports, x);
      var b := MovedToFrontWins(reports, y);
    }
  }

  // ---------------------------------------------------------------- bundles

  function UpdatedAll(bundles: map<string, Bundle>, reports: seq<Report>): map<string, Bundle> {
    if reports == [] then bundles
    else Updated(UpdatedAll(bundles, reports[..|reports| - 1]), reports[|reports| - 1])
  }

  /** The reports of one session, one leg at a time. */
  function LegReports(reports: seq<Report>, session: string, base: bool): seq<Leg> {
    if reports == [] then []
    else
      var rest := LegReports(reports[..|reports| - 1], session, base);
      var last := reports[|reports| - 1];
      if last.session == session then rest + [if base then last.base else last.success] else rest
  }

  /** Each leg of each bundle merges its own reports and no others. */
  lemma {:induction false} LegsMergeIndependently(bundles: map<string, Bundle>, reports: seq<Report>, session: string)
    requires session in bundles
    ensures session in UpdatedAll(bundles, reports)
    ensures UpdatedAll(bundles, reports)[session].base ==
      MergedAll(bundles[session].base, LegReports(reports, session, true))
    ensures UpdatedAll(bundles, reports)[session].success ==
      MergedAll(bundles[session].success, LegReports(reports, session, false))
  {
    if reports != [] {
      var init, last := reports[..|reports| - 1], reports[|reports| - 1];
      LegsMergeIndependently(bundles, init, session);
      if last.session == session {
        MergeSnoc(bundles[session].base, LegReports(init, session, true), last.base);
        MergeSnoc(bundles[session].success, LegReports(init, session, false), last.success);
      }
    }
  }

  /** Reports neither create nor drop bundles, and a bundle was updated at the last report of
      its session. */
  lemma {:induction false} BundlesKeepTimes(bundles: map<string, Bundle>, reports: seq<Report>, session: string)
    ensures session in UpdatedAll(bundles, reports) <==> session in bundles
    ensures session in bundles ==>
      UpdatedAll(bundles, reports)[session].updatedAt ==
        if LastReport(reports, session).Some? then LastReport(reports, session).value else bundles[session].updatedAt
  {
    if reports != [] {
      BundlesKeepTimes(bundles, reports[..|reports| - 1], session);
    }
  }

  ghost function LastReport(reports: seq<Report>, session: string): Option<int> {
    if reports == [] then None
    else if reports[|reports| - 1].session == session then Some(reports[|reports| - 1].now)
    else LastReport(reports[..|reports| - 1], session)
  }

  lemma MergeSnoc(stored: Leg, reports: seq<Leg>, last: Leg)
    ensures MergedAll(stored, reports + [last]) == Merged(MergedAll(stored, reports), last)
  {
    assert (reports + [last])[..|reports|] == reports;
  }
}
