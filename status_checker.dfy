/**
 * The fingerprint classifier `StatusChecker<T>` (Cooldowns.Domain/Status/StatusChecker.cs).
 *
 * On every tick of its timer it tries an ordered list of candidates. A candidate is a
 * list of screen points, the colour expected at each, and the value it stands for.
 * The first candidate whose every point shows exactly its colour becomes the state
 * and is raised. Each candidate that fails adds one to a miss counter; once a pass
 * ends with the counter above five, the missing value is raised and becomes the state.
 */
module Status {
  import opened ScreenColor

  /** One candidate: the points to test, the colour expected at each, and its value. */
  datatype Fingerprint<T> = Fingerprint(points: seq<Point>, colors: seq<Argb>, state: T)

  /** The value that stands for "nothing recognised" and the ordered candidates. */
  datatype StatusCheckInfo<T> = StatusCheckInfo(missingValue: T, fingerprints: seq<Fingerprint<T>>)

  /** `MissLimit`: how many misses are tolerated before the missing value is forced. */
  const MissLimit: int := 5

  /** Points and colours are indexed together, so there must be a colour for every point. */
  predicate Indexable<T>(fp: Fingerprint<T>)
  {
    |fp.points| <= |fp.colors|
  }

  predicate WellFormed<T>(info: StatusCheckInfo<T>)
  {
    forall i :: 0 <= i < |info.fingerprints| ==> Indexable(info.fingerprints[i])
  }

  /** The `i`-th point of `fp` shows exactly its colour. */
  predicate PointMatches<T>(fp: Fingerprint<T>, screen: Screen, i: int)
    requires Indexable(fp) && 0 <= i < |fp.points|
  {
    IsExactMatch(screen(fp.points[i]), fp.colors[i])
  }

  /** Every point of `fp` shows exactly its colour. */
  predicate Matches<T>(fp: Fingerprint<T>, screen: Screen)
    requires Indexable(fp)
  {
    forall i :: 0 <= i < |fp.points| ==> PointMatches(fp, screen, i)
  }

  /** The index of the first point at or after `i` that fails, or the number of points. */
  function FirstMismatchFrom<T>(fp: Fingerprint<T>, screen: Screen, i: nat): (k: nat)
    requires Indexable(fp) && i <= |fp.points|
    ensures i <= k <= |fp.points|
    ensures forall j :: i <= j < k ==> PointMatches(fp, screen, j)
    ensures k < |fp.points| ==> !PointMatches(fp, screen, k)
    decreases |fp.points| - i
  {
    if i == |fp.points| then i
    else if PointMatches(fp, screen, i) then FirstMismatchFrom(fp, screen, i + 1)
    else i
  }

  function FirstMismatch<T>(fp: Fingerprint<T>, screen: Screen): nat
    requires Indexable(fp)
  {
    FirstMismatchFrom(fp, screen, 0)
  }

  /** The points sampled for one candidate: all of them up to and including the first that fails. */
  function SampledPoints<T>(fp: Fingerprint<T>, screen: Screen): seq<Point>
    requires Indexable(fp)
  {
    var k := FirstMismatch(fp, screen);
    if k < |fp.points| then fp.points[..k + 1] else fp.points
  }

  /** The index of the first candidate at or after `n` that matches, or the number of candidates. */
  function FirstMatchFrom<T>(info: StatusCheckInfo<T>, screen: Screen, n: nat): (k: nat)
    requires WellFormed(info) && n <= |info.fingerprints|
    ensures n <= k <= |info.fingerprints|
    ensures forall j :: n <= j < k ==> !Matches(info.fingerprints[j], screen)
    ensures k < |info.fingerprints| ==> Matches(info.fingerprints[k], screen)
    decreases |info.fingerprints| - n
  {
    if n == |info.fingerprints| then n
    else if Matches(info.fingerprints[n], screen) then n
    else FirstMatchFrom(info, screen, n + 1)
  }

  function FirstMatch<T>(info: StatusCheckInfo<T>, screen: Screen): nat
    requires WellFormed(info)
  {
    FirstMatchFrom(info, screen, 0)
  }

  /** The points sampled while the first `n` candidates are tried, in order. */
  function SampledUpTo<T>(info: StatusCheckInfo<T>, screen: Screen, n: nat): seq<Point>
    requires WellFormed(info) && n <= |info.fingerprints|
  {
    if n == 0 then []
    else SampledUpTo(info, screen, n - 1) + SampledPoints(info.fingerprints[n - 1], screen)
  }

  /** What one pass does: the new state and miss count, the values raised and the points sampled. */
  datatype Outcome<T> = Outcome(state: T, missCount: int, raised: seq<T>, sampled: seq<Point>)

  /** One pass of `CheckState` from the given state and miss count. */
  function Check<T>(info: StatusCheckInfo<T>, state: T, missCount: int, screen: Screen): (o: Outcome<T>)
    requires WellFormed(info)
    ensures o.raised == [] || o.raised == [o.state]
    ensures o.raised == [] ==> o.state == state && o.missCount == missCount + |info.fingerprints|
    ensures o.raised != [] ==> o.missCount == 0
  {
    var fps := info.fingerprints;
    var k := FirstMatch(info, screen);
    if k < |fps| then
      Outcome(fps[k].state, 0, [fps[k].state], SampledUpTo(info, screen, k + 1))
    else if missCount + |fps| > MissLimit then
      Outcome(info.missingValue, 0, [info.missingValue], SampledUpTo(info, screen, |fps|))
    else
      Outcome(state, missCount + |fps|, [], SampledUpTo(info, screen, |fps|))
  }

  /** Successive passes over a sequence of screens; the raised values and samples accumulate. */
  function RunTicks<T>(info: StatusCheckInfo<T>, state: T, missCount: int, screens: seq<Screen>): (o: Outcome<T>)
    requires WellFormed(info)
    ensures |o.raised| <= |screens|
    ensures o.raised == [] ==> o.state == state
    ensures o.raised != [] ==> o.state == o.raised[|o.raised| - 1]
    decreases |screens|
  {
    if screens == [] then Outcome(state, missCount, [], [])
    else
      var first := Check(info, state, missCount, screens[0]);
      var rest := RunTicks(info, first.state, first.missCount, screens[1..]);
      Outcome(rest.state, rest.missCount, first.raised + rest.raised, first.sampled + rest.sampled)
  }

  /** A candidate matches exactly when no point fails; one with no points matches vacuously. */
  lemma MatchesIff<T>(fp: Fingerprint<T>, screen: Screen)
    requires Indexable(fp)
    ensures Matches(fp, screen) <==> FirstMismatch(fp, screen) == |fp.points|
    ensures fp.points == [] ==> Matches(fp, screen)
  {
  }

  /** Sampling a candidate stops right after its first failing point. */
  lemma SamplingStopsAtFirstFailure<T>(fp: Fingerprint<T>, screen: Screen, k: nat)
    requires Indexable(fp) && k < |fp.points|
    requires forall j :: 0 <= j < k ==> PointMatches(fp, screen, j)
    requires !PointMatches(fp, screen, k)
    ensures SampledPoints(fp, screen) == fp.points[..k + 1]
  {
  }

  /**
   * Candidates are tried in list order: the first that matches becomes the state
   * and is raised, even when it equals the current state, and the miss count resets.
   */
  lemma FirstMatchWins<T>(info: StatusCheckInfo<T>, state: T, missCount: int, screen: Screen, k: nat)
    requires WellFormed(info) && k < |info.fingerprints|
    requires Matches(info.fingerprints[k], screen)
    requires forall j :: 0 <= j < k ==> !Matches(info.fingerprints[j], screen)
    ensures var o := Check(info, state, missCount, screen);
      o.state == info.fingerprints[k].state && o.missCount == 0 && o.raised == [info.fingerprints[k].state]
  {
  }

  /**
   * A pass in which no candidate matches adds one miss per candidate. If that takes
   * the count above five it raises the missing value, makes it the state and resets
   * the count; otherwise it raises nothing and keeps the state.
   */
  lemma NoMatchCountsMisses<T>(info: StatusCheckInfo<T>, state: T, missCount: int, screen: Screen)
    requires WellFormed(info)
    requires forall j :: 0 <= j < |info.fingerprints| ==> !Matches(info.fingerprints[j], screen)
    ensures var o := Check(info, state, missCount, screen);
      var m := missCount + |info.fingerprints|;
      if m > MissLimit then o.state == info.missingValue && o.missCount == 0 && o.raised == [info.missingValue]
      else o.state == state && o.missCount == m && o.raised == []
  {
  }

  /** Between ticks the miss count stays within 0..5. */
  lemma MissCountBounded<T>(info: StatusCheckInfo<T>, state: T, missCount: int, screen: Screen)
    requires WellFormed(info) && 0 <= missCount
    ensures 0 <= Check(info, state, missCount, screen).missCount <= MissLimit
  {
  }

  /** Every pass raises at most one value. */
  lemma AtMostOneRaisePerPass<T>(info: StatusCheckInfo<T>, state: T, missCount: int, screen: Screen)
    requires WellFormed(info)
    ensures |Check(info, state, missCount, screen).raised| <= 1
  {
  }

  /** With a single candidate, misses that keep the count at five or less raise nothing. */
  lemma {:induction false} FewMissesRaiseNothing<T>(info: StatusCheckInfo<T>, state: T, missCount: int, screens: seq<Screen>)
    requires WellFormed(info) && |info.fingerprints| == 1 && 0 <= missCount
    requires missCount + |screens| <= MissLimit
    requires forall i :: 0 <= i < |screens| ==> !Matches(info.fingerprints[0], screens[i])
    ensures var o := RunTicks(info, state, missCount, screens);
      o.raised == [] && o.state == state && o.missCount == missCount + |screens|
    decreases |screens|
  {
    if screens != [] {
      NoMatchCountsMisses(info, state, missCount, screens[0]);
      FewMissesRaiseNothing(info, state, missCount + 1, screens[1..]);
    }
  }

  /**
   * With a single candidate and a fresh count, six screens in a row that do not match
   * raise the missing value exactly once, on the sixth, and nothing on the first five.
   */
  lemma {:induction false} SixthMissRaisesMissing<T>(info: StatusCheckInfo<T>, state: T, missCount: int, screens: seq<Screen>)
    requires WellFormed(info) && |info.fingerprints| == 1 && 0 <= missCount <= MissLimit
    requires missCount + |screens| == MissLimit + 1
    requires forall i :: 0 <= i < |screens| ==> !Matches(info.fingerprints[0], screens[i])
    ensures var o := RunTicks(info, state, missCount, screens);
      o.raised == [info.missingValue] && o.state == info.missingValue && o.missCount == 0
    decreases |screens|
  {
    NoMatchCountsMisses(info, state, missCount, screens[0]);
    var first := Check(info, state, missCount, screens[0]);
    var rest := RunTicks(info, first.state, first.missCount, screens[1..]);
    if missCount == MissLimit {
      assert first.raised == [info.missingValue];
      assert screens[1..] == [];
      assert rest.raised == [] && rest.state == info.missingValue;
    } else {
      assert first.raised == [] && first.state == state && first.missCount == missCount + 1;
      SixthMissRaisesMissing(info, state, missCount + 1, screens[1..]);
    }
  }

  /**
   * Two candidates testing the same point, the first for red and the second for
   * green: a green screen is classified as the second even though the first is tried first.
   */
  lemma SecondCandidateWinsWhenFirstFails<T>(a: T, b: T, missing: T, p: Point, state: T, missCount: int, screen: Screen)
    requires screen(p) == FromRgb(0, 255, 0)
    ensures var info := StatusCheckInfo(missing, [Fingerprint([p], [FromRgb(255, 0, 0)], a),
                                                  Fingerprint([p], [FromRgb(0, 255, 0)], b)]);
      Check(info, state, missCount, screen).raised == [b]
  {
    var info := StatusCheckInfo(missing, [Fingerprint([p], [FromRgb(255, 0, 0)], a),
                                          Fingerprint([p], [FromRgb(0, 255, 0)], b)]);
    ExactMatchIff(screen(p), FromRgb(255, 0, 0));
    assert !PointMatches(info.fingerprints[0], screen, 0);
    FirstMatchWins(info, state, missCount, screen, 1);
  }

  /**
   * `StatusChecker<T>`: the current state and the miss counter, updated on every
   * tick of the timer it subscribed to. `raised` records every `StatusChanged`
   * value, `delivered` what reached the one handler a caller may attach, and
   * `sampled` the points the latest pass read from the screen, in order.
   */
  class StatusChecker<T> {
    const info: StatusCheckInfo<T>
    var state: T
    var missCount: int
    /** The tick handler is attached to the timer (until `Dispose`). */
    var subscribed: bool
    /** A `StatusChanged` handler is attached. */
    var hasHandler: bool
    ghost var raised: seq<T>
    ghost var delivered: seq<T>
    ghost var sampled: seq<Point>

    ghost predicate Valid()
      reads this
    {
      WellFormed(info) && 0 <= missCount <= MissLimit
    }

    /** Every raised value has reached the attached handler, unchanged and in order. */
    ghost predicate Forwards()
      reads this
    {
      hasHandler && delivered == raised
    }

    /** The constructor: starts at the missing value with no misses, subscribed to the timer. */
    constructor (info: StatusCheckInfo<T>)
      requires WellFormed(info)
      ensures Valid() && this.info == info
      ensures state == info.missingValue && missCount == 0
      ensures subscribed && !hasHandler
      ensures raised == [] && delivered == [] && sampled == []
    {
      this.info := info;
      state := info.missingValue;
      missCount := 0;
      subscribed := true;
      hasHandler := false;
      raised, delivered, sampled := [], [], [];
    }

    /** `StatusChanged += handler`. */
    method AddStatusChangedHandler()
      modifies this
      ensures hasHandler
      ensures state == old(state) && missCount == old(missCount) && subscribed == old(subscribed)
      ensures raised == old(raised) && delivered == old(delivered) && sampled == old(sampled)
    {
      hasHandler := true;
    }

    /** `OnStatusChanged`: raises the value, through the dispatcher, to the handler if there is one. */
    method OnStatusChanged(value: T)
      modifies this`raised, this`delivered
      ensures raised == old(raised) + [value]
      ensures delivered == old(delivered) + if hasHandler then [value] else []
    {
      raised := raised + [value];
      if hasHandler {
        delivered := delivered + [value];
      }
    }

    /**
     * The inner loop of `CheckState`: samples the points of one candidate in order
     * and stops at the first whose colour is not an exact match.
     */
    method TestFingerprint(fp: Fingerprint<T>, screen: Screen) returns (matched: bool)
      requires Indexable(fp)
      modifies this`sampled
      ensures matched == Matches(fp, screen)
      ensures sampled == old(sampled) + SampledPoints(fp, screen)
    {
      matched := true;
      var i := 0;
      while i < |fp.points|
        invariant 0 <= i <= |fp.points|
        invariant forall j :: 0 <= j < i ==> PointMatches(fp, screen, j)
        invariant sampled == old(sampled) + fp.points[..i]
        invariant matched
      {
        var p := fp.points[i];
        var c := fp.colors[i];
        var px := screen(p);
        sampled := sampled + [p];
        if IsExactMatch(px, c) {
          i := i + 1;
        } else {
          matched := false;
          break;
        }
      }
      if matched {
        assert fp.points[..i] == fp.points;
      } else {
        assert !PointMatches(fp, screen, i);
        SamplingStopsAtFirstFailure(fp, screen, i);
      }
    }

    /**
     * The outer loop of `CheckState`: tries the candidates in order, adding a miss
     * for each that fails, and stops at the first that matches.
     */
    method TryFingerprints(screen: Screen) returns (n: nat, matched: bool)
      requires Valid()
      modifies this`sampled, this`missCount
      ensures n <= |info.fingerprints| && FirstMatch(info, screen) == n
      ensures matched <==> n < |info.fingerprints|
      ensures missCount == old(missCount) + n
      ensures sampled == SampledUpTo(info, screen, if matched then n + 1 else n)
    {
      var fps := info.fingerprints;
      n := 0;
      matched := false;
      sampled := [];
      while n < |fps|
        invariant 0 <= n <= |fps|
        invariant n <= FirstMatch(info, screen)
        invariant missCount == old(missCount) + n
        invariant sampled == SampledUpTo(info, screen, n)
        invariant !matched
      {
        matched := TestFingerprint(fps[n], screen);
        if matched {
          break;
        }
        missCount := missCount + 1;
        n := n + 1;
      }
    }

    /** `CheckState`: one pass over the candidates, as `Check` describes it. */
    method CheckState(screen: Screen)
      requires Valid()
      modifies this
      ensures Valid()
      ensures var o := Check(info, old(state), old(missCount), screen);
        && state == o.state && missCount == o.missCount
        && raised == old(raised) + o.raised
        && delivered == old(delivered) + (if hasHandler then o.raised else [])
        && sampled == o.sampled
      ensures subscribed == old(subscribed) && hasHandler == old(hasHandler)
      ensures old(Forwards()) ==> Forwards()
    {
      var n, matched := TryFingerprints(screen);
      if matched {
        // the first match becomes the state and is raised; the pass ends here
        state := info.fingerprints[n].state;
        missCount := 0;
        OnStatusChanged(info.fingerprints[n].state);
      } else if missCount > MissLimit {
        OnStatusChanged(info.missingValue);
        state := info.missingValue;
        missCount := 0;
      }
    }

    /** The timer's `Ticked` event: runs a pass unless the checker has been disposed. */
    method TimerTicked(screen: Screen)
      requires Valid()
      modifies this
      ensures Valid()
      ensures !old(subscribed) ==>
        && state == old(state) && missCount == old(missCount) && raised == old(raised)
        && delivered == old(delivered) && sampled == old(sampled)
      ensures old(subscribed) ==>
        var o := Check(info, old(state), old(missCount), screen);
        && state == o.state && missCount == o.missCount
        && raised == old(raised) + o.raised
        && delivered == old(delivered) + (if hasHandler then o.raised else [])
        && sampled == o.sampled
      ensures subscribed == old(subscribed) && hasHandler == old(hasHandler)
      ensures old(Forwards()) ==> Forwards()
    {
      if subscribed {
        CheckState(screen);
      }
    }

    /** `Dispose`: detaches from the timer, so later ticks change nothing. */
    method Dispose()
      modifies this`subscribed
      ensures !subscribed
    {
      subscribed := false;
    }
  }
}
