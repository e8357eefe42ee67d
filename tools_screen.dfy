/**
 * The display helpers of NetworkToolsScreen: the `safeText` fallback rule, the
 * icon picked for a device row, and the router flag of a row in the device list
 * (which is keyed by IP).
 */
module ToolsScreen {
  import opened Wrappers
  import opened KotlinText
  import opened ArpScan

  /* ----------------------------- safeText ----------------------------- */

  /**
   * `safeText(value, fallback)`: the trimmed value, unless the value is null,
   * empty after trimming, or the text "null" after trimming.
   */
  function SafeText(value: Option<string>, fallback: string): (r: string)
    ensures r == fallback || (value.Some? && r == Trim(value.value) && r != [] && r != "null")
  {
    match value
    case None => fallback
    case Some(s) =>
      var v := Trim(s);
      if v == [] || v == "null" then fallback else v
  }

  /** When the fallback applies: no value, a blank one, or one that trims to "null". */
  lemma SafeTextFallback(value: Option<string>, fallback: string)
    ensures value.None? || IsBlank(value.value) || Trim(value.value) == "null" ==> SafeText(value, fallback) == fallback
    ensures value.Some? && !IsBlank(value.value) && Trim(value.value) != "null" ==> SafeText(value, fallback) == Trim(value.value)
  {
  }

  /** With a non-empty fallback the shown text is never empty. */
  lemma SafeTextNonEmpty(value: Option<string>, fallback: string)
    requires fallback != []
    ensures SafeText(value, fallback) != []
  {
  }

  /** A text that is its own trim, non-empty and not "null". */
  predicate Displayable(s: string) {
    s != [] && Trim(s) == s && s != "null"
  }

  /** Applying `safeText` to its own result changes nothing when the fallback is displayable. */
  lemma SafeTextIdempotent(value: Option<string>, fallback: string)
    requires Displayable(fallback)
    ensures SafeText(Some(SafeText(value, fallback)), fallback) == SafeText(value, fallback)
  {
    var r := SafeText(value, fallback);
    if r != fallback {
      TrimIdempotent(value.value);
    }
  }

  /* ----------------------------- device icons ----------------------------- */

  datatype Icon = RouterIcon | PhoneAndroid | Tv | Computer | PhoneIphone | Devices

  /**
   * The icon `when` of `DeviceItemImproved`: the router icon for the router
   * row, otherwise the first case-insensitive keyword found in the name.
   */
  function IconFor(name: string, isRouter: bool): (r: Icon)
    ensures isRouter ==> r == RouterIcon
    ensures r == RouterIcon ==> isRouter
    ensures r == PhoneIphone ==> !ContainsIgnoreCase(name, "phone")
    ensures r == Devices ==> !ContainsIgnoreCase(name, "android") && !ContainsIgnoreCase(name, "tv")
  {
    if isRouter then RouterIcon
    else if ContainsIgnoreCase(name, "android") || ContainsIgnoreCase(name, "phone") then PhoneAndroid
    else if ContainsIgnoreCase(name, "tv") then Tv
    else if ContainsIgnoreCase(name, "laptop") || ContainsIgnoreCase(name, "pc") then Computer
    else if ContainsIgnoreCase(name, "iphone") || ContainsIgnoreCase(name, "ipad") then PhoneIphone
    else Devices
  }

  /**
   * The `when` is first-match: off the router row, each icon is picked exactly
   * when its keywords occur and no earlier branch's keywords do.
   */
  lemma IconForFirstMatch(name: string)
    ensures var a := ContainsIgnoreCase(name, "android") || ContainsIgnoreCase(name, "phone");
      var t := ContainsIgnoreCase(name, "tv");
      var c := ContainsIgnoreCase(name, "laptop") || ContainsIgnoreCase(name, "pc");
      var i := ContainsIgnoreCase(name, "iphone") || ContainsIgnoreCase(name, "ipad");
      && (IconFor(name, false) == PhoneAndroid <==> a)
      && (IconFor(name, false) == Tv <==> !a && t)
      && (IconFor(name, false) == Computer <==> !a && !t && c)
      && (IconFor(name, false) == PhoneIphone <==> !a && !t && !c && i)
      && (IconFor(name, false) == Devices <==> !a && !t && !c && !i)
      && IconFor(name, false) != RouterIcon
  {
  }

  lemma LowerPhone()
    ensures Lower("phone") == "phone" && Lower("iphone") == "iphone"
  {
  }

  /** Every name that contains "iphone" also contains "phone", ignoring case. */
  lemma IphoneContainsPhone(name: string)
    requires ContainsIgnoreCase(name, "iphone")
    ensures ContainsIgnoreCase(name, "phone")
  {
    LowerPhone();
    assert StartsWithAt("iphone", "phone", 1);
    ContainsTransitive(Lower(name), "iphone", "phone");
  }

  /** As written, a name containing "iphone" gets the Android phone icon. */
  lemma IphoneGetsAndroidIcon(name: string)
    requires ContainsIgnoreCase(name, "iphone")
    ensures IconFor(name, false) == PhoneAndroid
  {
    IphoneContainsPhone(name);
  }

  /** As written, only an iPad name can reach the iPhone icon. */
  lemma IphoneIconOnlyForIpad(name: string)
    ensures IconFor(name, false) == PhoneIphone <==>
      && !ContainsIgnoreCase(name, "android") && !ContainsIgnoreCase(name, "phone")
      && !ContainsIgnoreCase(name, "tv") && !ContainsIgnoreCase(name, "laptop") && !ContainsIgnoreCase(name, "pc")
      && ContainsIgnoreCase(name, "ipad")
  {
    if ContainsIgnoreCase(name, "iphone") {
      IphoneContainsPhone(name);
    }
  }

  /** The evidently intended order: iPhone and iPad are recognised before the generic "phone". */
  function IconForIntended(name: string, isRouter: bool): (r: Icon)
    ensures isRouter ==> r == RouterIcon
  {
    if isRouter then RouterIcon
    else if ContainsIgnoreCase(name, "iphone") || ContainsIgnoreCase(name, "ipad") then PhoneIphone
    else IconFor(name, false)
  }

  /** The intended classifier gives the iPhone icon to every name containing "iphone" ... */
  lemma IntendedIphoneIcon(name: string)
    requires ContainsIgnoreCase(name, "iphone")
    ensures IconForIntended(name, false) == PhoneIphone
  {
  }

  /** ... and agrees with the written one on every other name. */
  lemma IntendedAgrees(name: string, isRouter: bool)
    requires !ContainsIgnoreCase(name, "iphone") && !ContainsIgnoreCase(name, "ipad")
    ensures IconForIntended(name, isRouter) == IconFor(name, isRouter)
  {
  }

  /* ----------------------------- the device list ----------------------------- */

  /** `device.ip == state.routerIp`: the row is drawn as the router. */
  predicate IsRouterRow(d: DeviceInfo, routerIp: string) {
    d.ip == routerIp
  }

  /** The list's key `it.ip` is unique exactly when no two rows share an IP. */
  lemma KeysUniqueRouterRow(devices: seq<DeviceInfo>, routerIp: string, k: int)
    requires UniqueIpsOf(devices) && 0 <= k < |devices| && IsRouterRow(devices[k], routerIp)
    ensures forall j :: 0 <= j < |devices| && IsRouterRow(devices[j], routerIp) ==> j == k
  {
  }
}
