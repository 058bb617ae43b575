/** The values of the Sigils of Hope indicator (shown by the toolbar as "-", "1" … "4"). */
module Sigils {
  datatype SigilsOfHope = None | One | Two | Three | Four
}

/**
 * The Sigils of Hope classifier of Cooldowns.Domain/Factory/SigilsOfHopeFactory.cs:
 * a presence fingerprint of three points and four value fingerprints that each
 * test one point, handed to the status checker with `None` as the missing value.
 */
module DomainSigilsOfHopeFactory {
  import opened ScreenColor
  import opened Status
  import opened Sigils

  /** `StatusCheckInfo<T>` of this revision: missing value, presence check, value checks. */
  datatype SigilsCheckInfo = SigilsCheckInfo(
    missingValue: SigilsOfHope,
    hasState: Fingerprint<SigilsOfHope>,
    stateValues: seq<Fingerprint<SigilsOfHope>>)

  /** `stateCheck`: the three points that show whether the indicator is on screen. */
  const StateCheck: Fingerprint<SigilsOfHope> :=
    Fingerprint([Point(1294, 1262), Point(1337, 1264), Point(1312, 1291)],
                [FromRgb(253, 249, 64), FromRgb(200, 210, 19), FromRgb(169, 166, 22)],
                SigilsOfHope.None)

  /** `stateValueChecks`: one point whose colour tells the four values apart. */
  const StateValueChecks: seq<Fingerprint<SigilsOfHope>> := [
    Fingerprint([Point(1341, 1289)], [FromRgb(57, 149, 45)], One),
    Fingerprint([Point(1341, 1289)], [FromRgb(175, 175, 175)], Two),
    Fingerprint([Point(1341, 1289)], [FromRgb(194, 194, 194)], Three),
    Fingerprint([Point(1341, 1289)], [FromRgb(198, 198, 198)], Four)
  ]

  const Table: SigilsCheckInfo := SigilsCheckInfo(SigilsOfHope.None, StateCheck, StateValueChecks)

  /** What the status checker is given: the missing value and the value checks, in order. */
  function CheckerInfo(t: SigilsCheckInfo): StatusCheckInfo<SigilsOfHope>
  {
    StatusCheckInfo(t.missingValue, t.stateValues)
  }

  /** The shape of the tables: missing value, presence check, value checks. */
  lemma TableShape()
    ensures Table.missingValue == SigilsOfHope.None
    ensures |Table.hasState.points| == 3 && |Table.hasState.colors| == 3
    ensures |Table.stateValues| == 4
    ensures Table.stateValues[0].state == One && Table.stateValues[1].state == Two
    ensures Table.stateValues[2].state == Three && Table.stateValues[3].state == Four
    ensures forall i :: 0 <= i < 4 ==>
      Table.stateValues[i].points == [Point(1341, 1289)] && |Table.stateValues[i].colors| == 1
    ensures WellFormed(CheckerInfo(Table)) && Indexable(Table.hasState)
  {
  }

  /** No two value colours are an exact match for each other. */
  lemma ValueColorsDistinct(i: int, j: int)
    requires 0 <= i < 4 && 0 <= j < 4 && i != j
    ensures !IsExactMatch(StateValueChecks[i].colors[0], StateValueChecks[j].colors[0])
  {
    ExactMatchIff(StateValueChecks[i].colors[0], StateValueChecks[j].colors[0]);
  }

  /** So at most one value check matches any screen. */
  lemma AtMostOneValueMatches(screen: Screen, i: int, j: int)
    requires 0 <= i < 4 && 0 <= j < 4
    requires Matches(StateValueChecks[i], screen) && Matches(StateValueChecks[j], screen)
    ensures i == j
  {
    if i != j {
      var px := screen(Point(1341, 1289));
      assert PointMatches(StateValueChecks[i], screen, 0) && PointMatches(StateValueChecks[j], screen, 0);
      ExactMatchIff(px, StateValueChecks[i].colors[0]);
      ExactMatchIff(px, StateValueChecks[j].colors[0]);
      ValueColorsDistinct(i, j);
    }
  }

  /** A screen showing the colour of value `k` at the value point is classified as value `k`. */
  lemma ShownValueIsRaised(screen: Screen, k: int, state: SigilsOfHope, missCount: int)
    requires 0 <= k < 4
    requires screen(Point(1341, 1289)) == StateValueChecks[k].colors[0]
    ensures var o := Check(CheckerInfo(Table), state, missCount, screen);
      o.state == StateValueChecks[k].state && o.raised == [StateValueChecks[k].state] && o.missCount == 0
  {
    assert PointMatches(StateValueChecks[k], screen, 0);
    forall j | 0 <= j < k
      ensures !Matches(StateValueChecks[j], screen)
    {
      if Matches(StateValueChecks[j], screen) {
        AtMostOneValueMatches(screen, j, k);
      }
    }
    FirstMatchWins(CheckerInfo(Table), state, missCount, screen, k);
  }

  /**
   * Misses are counted per candidate: with four value checks, two passes that
   * recognise nothing take the count from 0 to 4 and then to 8, so the second
   * already raises `None`.
   */
  lemma TwoBlankPassesRaiseNone(state: SigilsOfHope, s1: Screen, s2: Screen)
    requires forall j :: 0 <= j < 4 ==> !Matches(StateValueChecks[j], s1) && !Matches(StateValueChecks[j], s2)
    ensures var o := RunTicks(CheckerInfo(Table), state, 0, [s1, s2]);
      o.raised == [SigilsOfHope.None] && o.state == SigilsOfHope.None && o.missCount == 0
  {
    var info := CheckerInfo(Table);
    NoMatchCountsMisses(info, state, 0, s1);
    NoMatchCountsMisses(info, state, 4, s2);
    var second := Check(info, state, 4, s2);
    assert [s1, s2][1..] == [s2] && [s2][1..] == [];
    assert RunTicks(info, state, 4, [s2]).raised == [SigilsOfHope.None] by {
      assert second.raised == [SigilsOfHope.None];
      assert RunTicks(info, second.state, second.missCount, []).raised == [];
    }
  }

  /**
   * `Create`: a checker over the value checks with `None` as the missing value,
   * subscribed to the timer, whose `StatusChanged` handler forwards every value
   * to the callback unchanged.
   */
  method Create() returns (checker: StatusChecker<SigilsOfHope>)
    ensures fresh(checker) && checker.Valid()
    ensures checker.info == CheckerInfo(Table)
    ensures checker.state == SigilsOfHope.None && checker.missCount == 0
    ensures checker.subscribed && checker.Forwards()
  {
    checker := new StatusChecker(CheckerInfo(Table));
    checker.AddStatusChangedHandler();
  }
}
