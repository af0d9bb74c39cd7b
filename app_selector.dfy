/** app_selector.py: choosing apps from an F-Droid style index. A JSON dictionary that
    is iterated becomes a `seq` (Python dictionaries iterate in insertion order); one
    that is only looked up or built becomes a `map`. The module-level counters of
    `filtered` are the fields of a `Filter` object. The package's age, which the
    script computes from `datetime.now()`, is an input in whole days. */
module AppSelector {
  import opened Wrappers

  const MAX_APP_AGE: int := 10
  const MIN_SDK_VERSION: int := 16
  const MAX_SDK_VERSION: int := 29

  const FILTERED_CATEGORIES: set<string> := {"Games"}

  const FILTERED_APPS: seq<string> := [
    "com.androidfromfrankfurt.workingtimealert",
    "click.dummer.yidkey",
    "org.retroshare.android.qml_app",
    "pl.net.szafraniec.NFCTagmaker",
    "com.diblui.fullcolemak",
    "de.cketti.dashclock.k9",
    "se.manyver",
    "de.devmil.muzei.bingimageofthedayartsource",
    "info.tangential.cone",
    "org.weilbach.splitbills",
    "io.lbry.browser",
    "org.bitbucket.watashi564.combapp",
    "org.dash.electrum.electrum_dash",
    "com.mmazzarolo.breathly"
  ]

  /** `manifest["usesSdk"]` of a version. */
  datatype UsesSdk = UsesSdk(minSdkVersion: int, targetSdkVersion: int)

  /** One entry of a package's "versions" dictionary. */
  datatype Version = Version(added: int, versionCode: int, fileName: string, usesSdk: Option<UsesSdk>)

  /** A package's "metadata": its English name (absent when the index has none),
      its categories and its last-update time in milliseconds. */
  datatype Metadata = Metadata(englishName: Option<string>, categories: seq<string>, lastUpdated: int)

  /** The dictionary `get_package_dictionary` builds for an accepted package. */
  datatype PackageDetails = PackageDetails(
    name: string, package: string, versionCode: int, lastUpdated: int,
    categories: seq<string>, url: string, minSdkVersion: int, targetSdkVersion: int)

  // ---------------------------------------------------------------- get_latest_version

  /** `j` is the first version added exactly at `lastUpdated`. */
  ghost predicate IsFirstMatch(versions: seq<Version>, lastUpdated: int, j: int) {
    0 <= j < |versions| && versions[j].added == lastUpdated
    && forall k | 0 <= k < j :: versions[k].added != lastUpdated
  }

  /** `j` is the first version with the largest "added" among the first `n`. */
  ghost predicate IsFirstMax(versions: seq<Version>, n: int, j: int)
    requires 0 <= n <= |versions|
  {
    0 <= j < n
    && (forall k | 0 <= k < n :: versions[k].added <= versions[j].added)
    && (forall k | 0 <= k < j :: versions[k].added < versions[j].added)
  }

  /** `get_latest_version`: the first version added at `lastUpdated` if there is one;
      otherwise the first version with the greatest "added"; None when there are none. */
  method GetLatestVersion(lastUpdated: int, versions: seq<Version>) returns (latest: Option<Version>)
    ensures (exists j :: IsFirstMatch(versions, lastUpdated, j)) ==>
              exists j :: IsFirstMatch(versions, lastUpdated, j) && latest == Some(versions[j])
    ensures (forall j :: !IsFirstMatch(versions, lastUpdated, j)) && versions != [] ==>
              exists j :: IsFirstMax(versions, |versions|, j) && latest == Some(versions[j])
    ensures latest.None? <==> versions == []
  {
    latest := None;
    ghost var index := -1;
    var i := 0;
    while i < |versions|
      invariant 0 <= i <= |versions|
      invariant forall k | 0 <= k < i :: versions[k].added != lastUpdated
      invariant i == 0 ==> latest.None?
      invariant i > 0 ==> IsFirstMax(versions, i, index) && latest == Some(versions[index])
    {
      var packageVersion := versions[i];
      if packageVersion.added == lastUpdated {
        latest := Some(packageVersion);
        assert IsFirstMatch(versions, lastUpdated, i);
        return;
      } else if latest.None? || latest.value.added < packageVersion.added {
        latest := Some(packageVersion);
        index := i;
      }
      i := i + 1;
    }
    assert forall j :: !IsFirstMatch(versions, lastUpdated, j);
  }

  // ---------------------------------------------------------------- filtered

  /** Why `filtered` rejects a package: the first check that fails. */
  datatype Reason = Manual | Category | Age | Sdk

  /** The SDK check: `usesSdk` present and both versions within [16, 29]. */
  predicate SdkSuitable(version: Version) {
    version.usesSdk.Some?
    && MIN_SDK_VERSION <= version.usesSdk.value.minSdkVersion <= MAX_SDK_VERSION
    && MIN_SDK_VERSION <= version.usesSdk.value.targetSdkVersion <= MAX_SDK_VERSION
  }

  /** `number_of_years > MAX_APP_AGE` where `number_of_years` is the age in days over 365. */
  predicate TooOld(ageDays: int) {
    ageDays as real / 365.0 > MAX_APP_AGE as real
  }

  /** The checks of `filtered`, in order: the manual list, the category filter, the age, the SDK. */
  function FilterReason(package: string, metadata: Metadata, version: Version, ageDays: int): (r: Option<Reason>)
    ensures r == None <==>
              package !in FILTERED_APPS
              && (forall c | c in metadata.categories :: c !in FILTERED_CATEGORIES)
              && !TooOld(ageDays) && SdkSuitable(version)
    ensures r == Some(Manual) <==> package in FILTERED_APPS
    ensures r == Some(Sdk) ==> !SdkSuitable(version)
  {
    if package in FILTERED_APPS then Some(Manual)
    else if exists c | c in metadata.categories :: c in FILTERED_CATEGORIES then Some(Category)
    else if TooOld(ageDays) then Some(Age)
    else if !SdkSuitable(version) then Some(Sdk)
    else None
  }

  /** An age over ten years is more than 3650 days. */
  lemma TooOldIffOverTenYears(ageDays: int)
    ensures TooOld(ageDays) <==> ageDays > 3650
  {
  }

  /** The global counters of the script, one per check. */
  class Filter {
    var manualCount: nat
    var categoryCount: nat
    var ageCount: nat
    var sdkCount: nat

    constructor()
      ensures manualCount == categoryCount == ageCount == sdkCount == 0
    {
      manualCount, categoryCount, ageCount, sdkCount := 0, 0, 0, 0;
    }

    /** The counter of one check. */
    function Count(reason: Reason): nat
      reads this
    {
      match reason
      case Manual => manualCount
      case Category => categoryCount
      case Age => ageCount
      case Sdk => sdkCount
    }

    /** `filtered(package, metadata, version)`: true when the package is rejected; the
        counter of the check that rejected it goes up by one and no other changes. */
    method Filtered(package: string, metadata: Metadata, version: Version, ageDays: int) returns (rejected: bool)
      modifies this
      ensures rejected <==> FilterReason(package, metadata, version, ageDays).Some?
      ensures forall reason ::
                Count(reason) == old(Count(reason))
                                 + if FilterReason(package, metadata, version, ageDays) == Some(reason) then 1 else 0
    {
      if package in FILTERED_APPS {
        manualCount := manualCount + 1;
        return true;
      }
      if exists c | c in metadata.categories :: c in FILTERED_CATEGORIES {
        categoryCount := categoryCount + 1;
        return true;
      }
      if ageDays as real / 365.0 > MAX_APP_AGE as real {
        ageCount := ageCount + 1;
        return true;
      }
      if version.usesSdk.Some? {
        var sdk := version.usesSdk.value;
        if !(MIN_SDK_VERSION <= sdk.minSdkVersion <= MAX_SDK_VERSION)
           || !(MIN_SDK_VERSION <= sdk.targetSdkVersion <= MAX_SDK_VERSION) {
          sdkCount := sdkCount + 1;
          return true;
        }
      } else {
        sdkCount := sdkCount + 1;
        return true;
      }
      return false;
    }
  }

  /** `get_package_dictionary`: fails with a KeyError when the English name or `usesSdk` is missing. */
  function GetPackageDictionary(baseUrl: string, package: string, metadata: Metadata, version: Version)
    : (r: Result<PackageDetails>)
    ensures r.Ok? <==> metadata.englishName.Some? && version.usesSdk.Some?
    ensures r.Ok? ==> r.value.package == package && r.value.categories == metadata.categories
                      && r.value.url == baseUrl + version.fileName
  {
    if metadata.englishName.None? || version.usesSdk.None? then Err(KeyError)
    else Ok(PackageDetails(metadata.englishName.value, package, version.versionCode, metadata.lastUpdated,
                           metadata.categories, baseUrl + version.fileName,
                           version.usesSdk.value.minSdkVersion, version.usesSdk.value.targetSdkVersion))
  }

  /** A package that `filtered` accepts has SDK details, so its dictionary fails only
      for a missing English name. */
  lemma AcceptedHasSdk(baseUrl: string, package: string, metadata: Metadata, version: Version, ageDays: int)
    requires FilterReason(package, metadata, version, ageDays).None?
    ensures GetPackageDictionary(baseUrl, package, metadata, version).Ok? <==> metadata.englishName.Some?
  {
  }

  // ---------------------------------------------------------------- categories

  /** `[category for category in categories if category not in FILTERED_CATEGORIES]`. */
  function FilterCategories(categories: seq<string>): (r: seq<string>)
    ensures |r| <= |categories|
    ensures forall c :: c in r <==> c in categories && c !in FILTERED_CATEGORIES
  {
    if categories == [] then []
    else
      var rest := FilterCategories(categories[1..]);
      assert categories == [categories[0]] + categories[1..];
      if categories[0] in FILTERED_CATEGORIES then rest else [categories[0]] + rest
  }

  /** `list_category_packages(category)`: the accepted packages listed in the category, details unchanged. */
  method ListCategoryPackages(category: string, filteredPackages: map<string, PackageDetails>)
    returns (packages: map<string, PackageDetails>)
    ensures packages.Keys == set p | p in filteredPackages && category in filteredPackages[p].categories
    ensures forall p | p in packages :: packages[p] == filteredPackages[p]
  {
    packages := map[];
    var remaining := filteredPackages.Keys;
    while remaining != {}
      invariant remaining <= filteredPackages.Keys
      invariant packages.Keys == set p | p in filteredPackages && p !in remaining
                                         && category in filteredPackages[p].categories
      invariant forall p | p in packages :: packages[p] == filteredPackages[p]
      decreases remaining
    {
      var packageName :| packageName in remaining;
      if category in filteredPackages[packageName].categories {
        packages := packages[packageName := filteredPackages[packageName]];
      }
      remaining := remaining - {packageName};
    }
  }
}
