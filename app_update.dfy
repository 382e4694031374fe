/** The app-update check: dotted version comparison, the rule for a forced update, the App Store
    lookup outcome and the store address per platform.

    The native version, the platform and the App Store lookup are parameters; logging is not
    modelled. A version component is `Number` of the text between dots, `None` standing for NaN. */
module AppUpdate {
  import opened Common
  import opened JsText

  const AppId := "6745115112"
  const AppStoreUrl := "https://apps.apple.com/app/id" + AppId
  const PlayStoreUrl := "https://play.google.com/store/apps/details?id=day.cadence.mobile"

  datatype Platform = IOS | Android | OtherPlatform(name: string)

  /** One entry of the App Store lookup's `results`. */
  datatype StoreEntry = StoreEntry(version: string, trackViewUrl: string, releaseDate: string)

  datatype AppVersionInfo = AppVersionInfo(
    currentVersion: string, latestVersion: Option<string>,
    updateAvailable: bool, updateRequired: bool, storeUrl: Option<string>)

  /** `version.split(".").map(Number)`. */
  function VersionParts(v: string): (ps: seq<Option<int>>)
    ensures |ps| == |Split(v, '.')| >= 1
  {
    MapSeq(Split(v, '.'), NumberOf)
  }

  /** `parts[i] || 0`: a missing or NaN component counts as 0. */
  function Part(ps: seq<Option<int>>, i: nat): int {
    if i < |ps| then ps[i].GetOr(0) else 0
  }

  function Max(a: nat, b: nat): nat { if a < b then b else a }

  /** The comparison from component `i` on: the first differing component decides. */
  function CompareFrom(a: seq<Option<int>>, b: seq<Option<int>>, i: nat): (r: int)
    ensures r in {-1, 0, 1}
    decreases Max(|a|, |b|) - i
  {
    if i >= Max(|a|, |b|) then 0
    else if Part(a, i) < Part(b, i) then -1
    else if Part(a, i) > Part(b, i) then 1
    else CompareFrom(a, b, i + 1)
  }

  /** The order `compareVersions` computes. */
  function VersionOrder(v1: string, v2: string): int {
    CompareFrom(VersionParts(v1), VersionParts(v2), 0)
  }

  /** `compareVersions`: -1, 0 or 1 as `v1` is older than, the same as, or newer than `v2`. */
  method CompareVersions(v1: string, v2: string) returns (r: int)
    ensures r == VersionOrder(v1, v2)
    ensures r in {-1, 0, 1}
  {
    var v1parts := VersionParts(v1);
    var v2parts := VersionParts(v2);
    r := CompareParts(v1parts, v2parts);
  }

  /** The loop of `compareVersions` over the two component lists. */
  method CompareParts(v1parts: seq<Option<int>>, v2parts: seq<Option<int>>) returns (r: int)
    ensures r == CompareFrom(v1parts, v2parts, 0)
  {
    var maxLength := Max(|v1parts|, |v2parts|);
    var i := 0;
    while i < maxLength
      invariant 0 <= i <= maxLength
      invariant CompareFrom(v1parts, v2parts, i) == CompareFrom(v1parts, v2parts, 0)
    {
      var v1part := if i < |v1parts| then v1parts[i].GetOr(0) else 0;
      var v2part := if i < |v2parts| then v2parts[i].GetOr(0) else 0;
      if v1part < v2part {
        return -1;
      }
      if v1part > v2part {
        return 1;
      }
      i := i + 1;
    }
    return 0;
  }

  /** The comparison is the lexicographic order on the zero-padded component lists. */
  lemma {:induction false} CompareFromLexicographic(a: seq<Option<int>>, b: seq<Option<int>>, i: nat)
    ensures CompareFrom(a, b, i) == 0 <==> forall k :: i <= k < Max(|a|, |b|) ==> Part(a, k) == Part(b, k)
    ensures CompareFrom(a, b, i) == -1 <==>
              exists k :: i <= k < Max(|a|, |b|) && Part(a, k) < Part(b, k)
                          && forall j :: i <= j < k ==> Part(a, j) == Part(b, j)
    decreases Max(|a|, |b|) - i
  {
    if i < Max(|a|, |b|) {
      CompareFromLexicographic(a, b, i + 1);
      if Part(a, i) == Part(b, i) && CompareFrom(a, b, i + 1) == -1 {
        var k :| i + 1 <= k < Max(|a|, |b|) && Part(a, k) < Part(b, k)
                 && forall j :: i + 1 <= j < k ==> Part(a, j) == Part(b, j);
        assert forall j :: i <= j < k ==> Part(a, j) == Part(b, j);
      }
    }
  }

  /** Swapping the arguments negates the result. */
  lemma {:induction false} CompareFromAntisymmetric(a: seq<Option<int>>, b: seq<Option<int>>, i: nat)
    ensures CompareFrom(a, b, i) == -CompareFrom(b, a, i)
    decreases Max(|a|, |b|) - i
  {
    if i < Max(|a|, |b|) {
      CompareFromAntisymmetric(a, b, i + 1);
    }
  }

  lemma {:induction false} CompareFromReflexive(a: seq<Option<int>>, i: nat)
    ensures CompareFrom(a, a, i) == 0
    decreases |a| - i
  {
    if i < |a| {
      CompareFromReflexive(a, i + 1);
    }
  }

  /** Lists with the same components up to padding compare alike. */
  lemma {:induction false} CompareFromPadding(a: seq<Option<int>>, a': seq<Option<int>>, b: seq<Option<int>>, i: nat)
    requires forall k :: Part(a, k) == Part(a', k)
    ensures CompareFrom(a, b, i) == CompareFrom(a', b, i)
    decreases Max(Max(|a|, |a'|), |b|) - i
  {
    if i < Max(Max(|a|, |a'|), |b|) {
      CompareFromPadding(a, a', b, i + 1);
      if i >= Max(|a|, |b|) {
        CompareFromLexicographic(a, b, i + 1);
        CompareFromLexicographic(a', b, i + 1);
        assert forall k :: i <= k ==> Part(a, k) == 0 && Part(b, k) == 0;
      }
      if i >= Max(|a'|, |b|) {
        CompareFromLexicographic(a, b, i + 1);
        CompareFromLexicographic(a', b, i + 1);
        assert forall k :: i <= k ==> Part(a', k) == 0 && Part(b, k) == 0;
      }
    }
  }

  /** `compareVersions` is an order: the same version compares equal, and swapping the
      versions negates the answer. */
  lemma VersionOrderProperties(v1: string, v2: string)
    ensures VersionOrder(v1, v1) == 0
    ensures VersionOrder(v1, v2) == -VersionOrder(v2, v1)
  {
    CompareFromReflexive(VersionParts(v1), 0);
    CompareFromAntisymmetric(VersionParts(v1), VersionParts(v2), 0);
  }

  /** A trailing ".0" component changes nothing: "1.2" and "1.2.0" compare equal to everything
      alike. */
  lemma TrailingZero(v1: string, v2: string)
    ensures VersionOrder(v1 + ".0", v2) == VersionOrder(v1, v2)
  {
    var a := VersionParts(v1);
    ZeroComponent(v1);
    ZeroPadding(a);
    CompareFromPadding(a + [Some(0)], a, VersionParts(v2), 0);
  }

  /** Appending ".0" appends a component 0. */
  lemma ZeroComponent(v: string)
    ensures VersionParts(v + ".0") == VersionParts(v) + [Some(0)]
  {
    assert v + ".0" == v + ['.'] + "0";
    SplitAppendPart(v, "0", '.');
    NumberOfZero();
    MapSeqAppend(Split(v, '.'), "0", NumberOf);
  }

  lemma NumberOfZero()
    ensures NumberOf("0") == Some(0)
  {
    NumberOfDigits("0");
    assert "0"[..0] == [];
  }

  /** A trailing component 0 reads like a missing one. */
  lemma ZeroPadding(a: seq<Option<int>>)
    ensures forall k: nat :: Part(a + [Some(0)], k) == Part(a, k)
  {
    forall k: nat ensures Part(a + [Some(0)], k) == Part(a, k) {
      if k < |a| {
        assert (a + [Some(0)])[k] == a[k];
      }
    }
  }

  /** Splitting `s + [c] + t` with `t` free of `c` adds `t` as a last part. */
  lemma {:induction false} SplitAppendPart(s: string, t: string, c: char)
    requires c !in t
    ensures Split(s + [c] + t, c) == Split(s, c) + [t]
  {
    if s == [] {
      assert s + [c] + t == [c] + t;
      SplitNoSeparator(t, c);
    } else {
      assert (s + [c] + t)[1..] == s[1..] + [c] + t;
      SplitAppendPart(s[1..], t, c);
    }
  }

  /** A component as `isUpdateRequired` sees it after padding to three: NaN stays NaN. */
  function Component(ps: seq<Option<int>>, i: nat): Option<int> {
    if i < |ps| then ps[i] else Some(0)
  }

  /** `>` and `===` on numbers, both false when either side is NaN. */
  predicate Greater(a: Option<int>, b: Option<int>) { a.Some? && b.Some? && a.value > b.value }
  predicate Same(a: Option<int>, b: Option<int>) { a.Some? && b.Some? && a.value == b.value }

  /** The forced-update rule: a newer major version, or the same major and a newer minor. */
  predicate RequiresUpdate(current: seq<Option<int>>, latest: seq<Option<int>>) {
    Greater(Component(latest, 0), Component(current, 0))
    || (Same(Component(latest, 0), Component(current, 0)) && Greater(Component(latest, 1), Component(current, 1)))
  }

  /** `isUpdateRequired`. */
  method IsUpdateRequired(currentVersion: string, latestVersion: string) returns (r: bool)
    ensures r <==> RequiresUpdate(VersionParts(currentVersion), VersionParts(latestVersion))
  {
    var currentParts := VersionParts(currentVersion);
    var latestParts := VersionParts(latestVersion);
    ghost var c0, l0 := currentParts, latestParts;
    while |currentParts| < 3
      invariant |currentParts| >= 1
      invariant forall i :: Component(currentParts, i) == Component(c0, i)
    {
      currentParts := currentParts + [Some(0)];
    }
    while |latestParts| < 3
      invariant |latestParts| >= 1
      invariant forall i :: Component(latestParts, i) == Component(l0, i)
    {
      latestParts := latestParts + [Some(0)];
    }
    assert Component(currentParts, 1) == Component(c0, 1) && Component(latestParts, 1) == Component(l0, 1);
    var currentMajor, currentMinor := currentParts[0], currentParts[1];
    var latestMajor, latestMinor := latestParts[0], latestParts[1];
    var majorChanged := Greater(latestMajor, currentMajor);
    var minorChanged := Same(latestMajor, currentMajor) && Greater(latestMinor, currentMinor);
    r := majorChanged || minorChanged;
  }

  /** A required update is always a newer version, so the `updateAvailable &&` guard in the iOS
      check never changes the outcome. */
  lemma RequiredIsNewer(currentVersion: string, latestVersion: string)
    requires RequiresUpdate(VersionParts(currentVersion), VersionParts(latestVersion))
    ensures VersionOrder(currentVersion, latestVersion) == -1
  {
    var a, b := VersionParts(currentVersion), VersionParts(latestVersion);
    if Greater(Component(b, 0), Component(a, 0)) {
      assert Part(a, 0) < Part(b, 0);
    } else {
      assert Part(a, 0) == Part(b, 0) && Part(a, 1) < Part(b, 1);
      assert CompareFrom(a, b, 0) == CompareFrom(a, b, 1);
    }
  }

  /** Versions that agree on major and minor never force an update, whatever the patch. */
  lemma PatchOnlyNotRequired(currentVersion: string, latestVersion: string)
    requires var a, b := VersionParts(currentVersion), VersionParts(latestVersion);
             Component(a, 0) == Component(b, 0) && Component(a, 1) == Component(b, 1)
    ensures !RequiresUpdate(VersionParts(currentVersion), VersionParts(latestVersion))
  {
  }

  /** `getCurrentVersion`: the native version, or "unknown" when it is missing. */
  function GetCurrentVersion(nativeVersion: string): (r: string)
    ensures r != ""
    ensures nativeVersion != "" ==> r == nativeVersion
  {
    if nativeVersion == "" then "unknown" else nativeVersion
  }

  /** `checkIOSUpdate`. `lookup` is `None` when the request fails or answers with an error
      status, and otherwise the `results` array. */
  method CheckIOSUpdate(nativeVersion: string, lookup: Option<seq<StoreEntry>>) returns (info: AppVersionInfo)
    ensures info.currentVersion == GetCurrentVersion(nativeVersion)
    ensures info.updateRequired ==> info.updateAvailable
    ensures lookup.None? || lookup.value == [] ==>
              info == AppVersionInfo(info.currentVersion, None, false, false, Some(AppStoreUrl))
    ensures lookup.Some? && lookup.value != [] ==>
              var entry := lookup.value[0];
              && info.latestVersion == Some(entry.version)
              && info.storeUrl == Some(entry.trackViewUrl)
              && (info.updateAvailable <==> VersionOrder(info.currentVersion, entry.version) < 0)
              && (info.updateRequired <==>
                    RequiresUpdate(VersionParts(info.currentVersion), VersionParts(entry.version)))
  {
    var currentVersion := GetCurrentVersion(nativeVersion);
    if lookup.None? || |lookup.value| == 0 {
      return AppVersionInfo(currentVersion, None, false, false, Some(AppStoreUrl));
    }
    var appData := lookup.value[0];
    var latestVersion := appData.version;
    var order := CompareVersions(currentVersion, latestVersion);
    var updateAvailable := order < 0;
    var updateRequired := false;
    if updateAvailable {
      updateRequired := IsUpdateRequired(currentVersion, latestVersion);
    } else if RequiresUpdate(VersionParts(currentVersion), VersionParts(latestVersion)) {
      RequiredIsNewer(currentVersion, latestVersion);
    }
    info := AppVersionInfo(currentVersion, Some(latestVersion), updateAvailable, updateRequired,
                           Some(appData.trackViewUrl));
  }

  /** `checkForUpdates`: the iOS lookup, the Android fallback, or no information at all. */
  method CheckForUpdates(platform: Platform, nativeVersion: string, lookup: Option<seq<StoreEntry>>)
    returns (info: AppVersionInfo)
    ensures info.currentVersion == GetCurrentVersion(nativeVersion)
    ensures info.updateRequired ==> info.updateAvailable
    ensures !platform.IOS? ==> !info.updateAvailable && info.latestVersion.None?
    ensures platform.Android? ==> info.storeUrl == Some(PlayStoreUrl)
    ensures platform.OtherPlatform? ==> info.storeUrl.None?
  {
    match platform
    case IOS =>
      info := CheckIOSUpdate(nativeVersion, lookup);
    case Android =>
      info := AppVersionInfo(GetCurrentVersion(nativeVersion), None, false, false, Some(PlayStoreUrl));
    case OtherPlatform(_) =>
      info := AppVersionInfo(GetCurrentVersion(nativeVersion), None, false, false, None);
  }

  /** `getStoreUrl`. */
  function GetStoreUrl(platform: Platform): (r: string)
    ensures r == PlayStoreUrl <==> platform == Android
    ensures r != PlayStoreUrl ==> r == AppStoreUrl
  {
    match platform
    case IOS => AppStoreUrl
    case Android => PlayStoreUrl
    case OtherPlatform(_) => AppStoreUrl
  }
}
