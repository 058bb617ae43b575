/**
 * The Sigils of Hope classifier of Cooldowns/Factory/SigilsOfHopeFactory.cs:
 * one named fingerprint with `None` as its missing value and four testpoints,
 * each testing the same four points; the fourth colour tells the values apart.
 */
module AppSigilsOfHopeFactory {
  import opened ScreenColor
  import opened Status
  import opened Sigils

  /** This revision's `Fingerprint<T>`: a name, the missing value and the testpoints. */
  datatype SigilsFingerprint = SigilsFingerprint(
    name: string,
    missingValue: SigilsOfHope,
    tests: seq<Fingerprint<SigilsOfHope>>)

  const Tests: seq<Fingerprint<SigilsOfHope>> := [
    Fingerprint([Point(1294, 1262), Point(1335, 1255), Point(1324, 1296), Point(1341, 1290)],
                [FromRgb(253, 249, 64), FromRgb(206, 209, 32), FromRgb(222, 231, 47), FromRgb(54, 141, 42)],
                One),
    Fingerprint([Point(1294, 1262), Point(1335, 1255), Point(1324, 1296), Point(1341, 1290)],
                [FromRgb(253, 249, 64), FromRgb(206, 209, 32), FromRgb(222, 231, 47), FromRgb(210, 210, 210)],
                Two),
    Fingerprint([Point(1294, 1262), Point(1335, 1255), Point(1324, 1296), Point(1341, 1290)],
                [FromRgb(253, 249, 64), FromRgb(206, 209, 32), FromRgb(222, 231, 47), FromRgb(202, 202, 202)],
                Three),
    Fingerprint([Point(1294, 1262), Point(1335, 1255), Point(1324, 1296), Point(1341, 1290)],
                [FromRgb(253, 249, 64), FromRgb(206, 209, 32), FromRgb(222, 231, 47), FromRgb(200, 200, 200)],
                Four)
  ]

  /** The list handed to the status checker: one fingerprint. */
  const Fingerprints: seq<SigilsFingerprint> := [SigilsFingerprint("Sigils of Hope", SigilsOfHope.None, Tests)]

  /** What the status checker works with: the missing value and the testpoints, in order. */
  function CheckerInfo(f: SigilsFingerprint): StatusCheckInfo<SigilsOfHope>
  {
    StatusCheckInfo(f.missingValue, f.tests)
  }

  /**
   * The shape of the table: missing value `None`, four testpoints carrying One..Four
   * in order, each with four points and four colours, all on the same four points
   * and with the same first three colours.
   */
  lemma TableShape()
    ensures |Fingerprints| == 1 && Fingerprints[0].missingValue == SigilsOfHope.None
    ensures Fingerprints[0].tests == Tests && |Tests| == 4
    ensures Tests[0].state == One && Tests[1].state == Two && Tests[2].state == Three && Tests[3].state == Four
    ensures forall i :: 0 <= i < 4 ==> |Tests[i].points| == 4 && |Tests[i].colors| == 4
    ensures forall i :: 0 <= i < 4 ==> Tests[i].points == Tests[0].points
    ensures forall i :: 0 <= i < 4 ==> Tests[i].colors[..3] == Tests[0].colors[..3]
    ensures WellFormed(CheckerInfo(Fingerprints[0]))
  {
  }

  /** No two fourth colours are an exact match for each other. */
  lemma FourthColorsDistinct(i: int, j: int)
    requires 0 <= i < 4 && 0 <= j < 4 && i != j
    ensures !IsExactMatch(Tests[i].colors[3], Tests[j].colors[3])
  {
    ExactMatchIff(Tests[i].colors[3], Tests[j].colors[3]);
  }

  /** So at most one testpoint matches any screen. */
  lemma AtMostOneTestpointMatches(screen: Screen, i: int, j: int)
    requires 0 <= i < 4 && 0 <= j < 4
    requires Matches(Tests[i], screen) && Matches(Tests[j], screen)
    ensures i == j
  {
    if i != j {
      var px := screen(Point(1341, 1290));
      assert PointMatches(Tests[i], screen, 3) && PointMatches(Tests[j], screen, 3);
      ExactMatchIff(px, Tests[i].colors[3]);
      ExactMatchIff(px, Tests[j].colors[3]);
      FourthColorsDistinct(i, j);
    }
  }

  /**
   * A screen that does not show the first colour of the frame at (1294, 1262)
   * matches no testpoint, and each testpoint stops sampling after that one point.
   */
  lemma NoFrameNoMatch(screen: Screen, i: int)
    requires 0 <= i < 4
    requires !IsExactMatch(screen(Point(1294, 1262)), FromRgb(253, 249, 64))
    ensures !Matches(Tests[i], screen)
    ensures SampledPoints(Tests[i], screen) == [Point(1294, 1262)]
  {
    assert !PointMatches(Tests[i], screen, 0);
    SamplingStopsAtFirstFailure(Tests[i], screen, 0);
  }

  /**
   * `Create`: a checker over the testpoints with `None` as the missing value,
   * subscribed to the timer, whose `StatusChanged` handler forwards every value
   * to the callback unchanged.
   */
  method Create() returns (checker: StatusChecker<SigilsOfHope>)
    ensures fresh(checker) && checker.Valid()
    ensures checker.info == CheckerInfo(Fingerprints[0])
    ensures checker.state == SigilsOfHope.None && checker.missCount == 0
    ensures checker.subscribed && checker.Forwards()
  {
    checker := new StatusChecker(CheckerInfo(Fingerprints[0]));
    checker.AddStatusChangedHandler();
  }
}
