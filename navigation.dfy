/**
 * The home destination of AppNavigation: it moves to the result screen once a
 * test has finished with a plausible result, and only once per test. The
 * `didNavigateToResult` flag is reset when a new test starts; navigation is
 * `launchSingleTop`, so the result screen is never stacked on itself.
 */
module Navigation {
  import opened Wrappers
  import opened SpeedModels

  datatype Route = Home | ResultDetail | NetworkTools | WifiHeatMap

  /** `hasValidResult`: a result is present, some transfer speed is positive and the ping is positive. */
  predicate HasValidResult(r: Option<SpeedResult>) {
    r.Some? && (r.value.downloadSpeed > 0.0 || r.value.uploadSpeed > 0.0) && r.value.ping > 0
  }

  /** `navigate(route) { launchSingleTop = true }`: no new entry when the route is already on top. */
  function NavigateSingleTop(stack: seq<Route>, route: Route): (r: seq<Route>)
    ensures |r| > 0 && r[|r| - 1] == route
    ensures r[..|r| - 1] == stack || r == stack
    ensures (|stack| > 0 && stack[|stack| - 1] == route) <==> r == stack
  {
    if |stack| > 0 && stack[|stack| - 1] == route then stack else stack + [route]
  }

  /** The first effect, keyed on `isTesting`: a starting test clears the flag. */
  function AfterTestingChanged(didNavigate: bool, isTesting: bool): (flag: bool)
    ensures isTesting ==> !flag
    ensures !isTesting ==> flag == didNavigate
  {
    if isTesting then false else didNavigate
  }

  /** The second effect's decision: navigate when idle, the result is valid and not yet shown. */
  predicate ShouldNavigate(didNavigate: bool, isTesting: bool, r: Option<SpeedResult>) {
    !isTesting && HasValidResult(r) && !didNavigate
  }

  /** The state behind the home destination: the saved flag and the navigation back stack. */
  class HomeNavigation {
    var didNavigateToResult: bool
    var backStack: seq<Route>

    constructor()
      ensures !didNavigateToResult && backStack == [Home]
    {
      didNavigateToResult := false;
      backStack := [Home];
    }

    /** `LaunchedEffect(isTesting)` */
    method OnTestingChanged(isTesting: bool)
      modifies this
      ensures didNavigateToResult == AfterTestingChanged(old(didNavigateToResult), isTesting)
      ensures backStack == old(backStack)
    {
      if isTesting {
        didNavigateToResult := false;
      }
    }

    /** `LaunchedEffect(isTesting, result)` */
    method OnResultChanged(isTesting: bool, result: Option<SpeedResult>) returns (navigated: bool)
      modifies this
      ensures navigated == ShouldNavigate(old(didNavigateToResult), isTesting, result)
      ensures didNavigateToResult == (old(didNavigateToResult) || navigated)
      ensures backStack == if navigated then NavigateSingleTop(old(backStack), ResultDetail) else old(backStack)
    {
      navigated := false;
      if !isTesting && HasValidResult(result) && !didNavigateToResult {
        didNavigateToResult := true;
        backStack := NavigateSingleTop(backStack, ResultDetail);
        navigated := true;
      }
    }
  }

  /* ----------------------------- runs of events ----------------------------- */

  /** What the two effects see: `isTesting` changing, or the pair (`isTesting`, result) changing. */
  datatype Event = TestingChanged(isTesting: bool) | ResultChanged(testing: bool, result: Option<SpeedResult>)

  /** The flag after the events, starting from `flag`. */
  function FlagAfter(flag: bool, events: seq<Event>): bool
    decreases |events|
  {
    if events == [] then flag
    else
      var e := events[0];
      var next := match e
        case TestingChanged(t) => AfterTestingChanged(flag, t)
        case ResultChanged(t, r) => flag || ShouldNavigate(flag, t, r);
      FlagAfter(next, events[1..])
  }

  /** How many times the events make the home destination navigate to the result, starting from `flag`. */
  function Navigations(flag: bool, events: seq<Event>): (n: nat)
    ensures n <= |events|
    decreases |events|
  {
    if events == [] then 0
    else
      var e := events[0];
      match e
      case TestingChanged(t) => Navigations(AfterTestingChanged(flag, t), events[1..])
      case ResultChanged(t, r) =>
        (if ShouldNavigate(flag, t, r) then 1 else 0) + Navigations(flag || ShouldNavigate(flag, t, r), events[1..])
  }

  /** No event starts a new test. */
  predicate NoTestStart(events: seq<Event>) {
    forall i :: 0 <= i < |events| ==> events[i] != TestingChanged(true)
  }

  /** Once the flag is set and no test starts, nothing navigates. */
  lemma {:induction false} SetFlagBlocks(events: seq<Event>)
    requires NoTestStart(events)
    ensures Navigations(true, events) == 0
    decreases |events|
  {
    if events != [] {
      assert NoTestStart(events[1..]) by {
        forall i | 0 <= i < |events[1..]| ensures events[1..][i] != TestingChanged(true) {
          assert events[1..][i] == events[i + 1];
        }
      }
      assert events[0] != TestingChanged(true);
      SetFlagBlocks(events[1..]);
    }
  }

  /** Between two test starts the result screen is opened at most once. */
  lemma {:induction false} AtMostOneNavigationPerTest(flag: bool, events: seq<Event>)
    requires NoTestStart(events)
    ensures Navigations(flag, events) <= 1
    ensures flag ==> Navigations(flag, events) == 0
    decreases |events|
  {
    if events != [] {
      assert NoTestStart(events[1..]) by {
        forall i | 0 <= i < |events[1..]| ensures events[1..][i] != TestingChanged(true) {
          assert events[1..][i] == events[i + 1];
        }
      }
      assert events[0] != TestingChanged(true);
      match events[0]
      case TestingChanged(t) =>
        AtMostOneNavigationPerTest(flag, events[1..]);
      case ResultChanged(t, r) =>
        if ShouldNavigate(flag, t, r) {
          SetFlagBlocks(events[1..]);
        } else {
          AtMostOneNavigationPerTest(flag, events[1..]);
        }
    }
  }

  /** A result that arrives while a test is running never navigates. */
  lemma NeverWhileTesting(flag: bool, r: Option<SpeedResult>)
    ensures Navigations(flag, [ResultChanged(true, r)]) == 0
  {
  }

  /** After a test starts, finishing it with a valid result navigates, whatever the flag was before. */
  lemma NewTestNavigatesAgain(flag: bool, r: Option<SpeedResult>)
    requires HasValidResult(r)
    ensures Navigations(flag, [TestingChanged(true), ResultChanged(false, r)]) == 1
    ensures FlagAfter(flag, [TestingChanged(true), ResultChanged(false, r)])
  {
    var events := [TestingChanged(true), ResultChanged(false, r)];
    assert events[1..] == [ResultChanged(false, r)];
    assert events[1..][1..] == [];
  }

  /** Navigating twice to the result screen leaves a single entry for it on top. */
  lemma SingleTopIdempotent(stack: seq<Route>, route: Route)
    ensures NavigateSingleTop(NavigateSingleTop(stack, route), route) == NavigateSingleTop(stack, route)
  {
  }
}
