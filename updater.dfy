/** The self-updater of go/internal/updater/updater.go: the version test,
    the choice of a release asset for the running platform, and the
    settings file that remembers the last check, the update found and the
    automatic-update preference. The release server, the clock, the
    platform and the file system are inputs. */
module Updater {
  import opened Common

  /** `UpdateCheckInterval`: 24 hours, in nanoseconds. */
  const UpdateCheckInterval: int := 24 * 3600 * 1_000_000_000

  /** `Version`, the version of the running program. */
  const Version: string := "1.0.0"

  /** The zero `time.Time`, as nanoseconds since the Unix epoch. */
  const ZeroTime: int := -62135596800 * 1_000_000_000

  // -----------------------------------------------------------------------
  // isNewer
  // -----------------------------------------------------------------------

  /** Go's `<` on strings: lexicographic order of the bytes, which for
      UTF-8 text is the order of the code points. */
  predicate Less(a: string, b: string)
  {
    if a == [] then b != []
    else if b == [] then false
    else if a[0] != b[0] then a[0] < b[0]
    else Less(a[1..], b[1..])
  }

  /** `isNewer`: a plain string comparison, not a comparison of version
      numbers. */
  predicate IsNewer(version: string, current: string)
  {
    Less(current, version)
  }

  lemma {:induction false} LessIrreflexive(a: string)
    ensures !Less(a, a)
  {
    if a != [] {
      LessIrreflexive(a[1..]);
    }
  }

  lemma {:induction false} LessTransitive(a: string, b: string, c: string)
    requires Less(a, b) && Less(b, c)
    ensures Less(a, c)
  {
    if a != [] && b != [] && c != [] && a[0] == b[0] && b[0] == c[0] {
      LessTransitive(a[1..], b[1..], c[1..]);
    }
  }

  /** Two different strings are always ordered one way or the other. */
  lemma {:induction false} LessTotal(a: string, b: string)
    requires a != b
    ensures Less(a, b) || Less(b, a)
  {
    if a != [] && b != [] && a[0] == b[0] {
      assert a == [a[0]] + a[1..] && b == [b[0]] + b[1..];
      LessTotal(a[1..], b[1..]);
    }
  }

  /** No version is newer than itself, and the test is transitive. */
  lemma IsNewerIsStrictOrder(a: string, b: string, c: string)
    ensures !IsNewer(a, a)
    ensures IsNewer(a, b) && IsNewer(b, c) ==> IsNewer(a, c)
    ensures IsNewer(a, b) ==> !IsNewer(b, a)
  {
    LessIrreflexive(a);
    if IsNewer(a, b) && IsNewer(b, c) {
      LessTransitive(c, b, a);
    }
    if IsNewer(a, b) && IsNewer(b, a) {
      LessTransitive(a, b, a);
      LessIrreflexive(a);
    }
  }

  /** Comparing text rather than numbers: 1.10.0 does not count as newer
      than 1.9.0, because '1' sorts before '9'. */
  lemma TenIsNotNewerThanNine()
    ensures !IsNewer("1.10.0", "1.9.0")
    ensures IsNewer("1.9.0", "1.10.0")
  {
    assert "1.9.0"[..2] == "1." && "1.10.0"[..2] == "1.";
    assert "1.9.0"[2] == '9' && "1.10.0"[2] == '1';
    assert Less("1.10.0"[2..], "1.9.0"[2..]);
  }

  /** `strings.TrimPrefix(tag, "v")`: one leading "v" is removed. */
  function TrimV(tag: string): (r: string)
    ensures HasPrefix(tag, "v") ==> tag == "v" + r
    ensures !HasPrefix(tag, "v") ==> r == tag
  {
    if |tag| > 0 && tag[0] == 'v' then tag[1..] else tag
  }

  // -----------------------------------------------------------------------
  // findDownloadURL
  // -----------------------------------------------------------------------

  datatype Asset = Asset(name: string, downloadUrl: string, size: int)

  datatype ReleaseInfo = ReleaseInfo(tagName: string, name: string, assets: seq<Asset>)

  predicate ForPlatform(a: Asset, platform: string)
  {
    Contains(ToLower(a.name), platform)
  }

  predicate ForPlatformAndArch(a: Asset, platform: string, arch: string)
  {
    ForPlatform(a, platform) && Contains(ToLower(a.name), arch)
  }

  /** Asset `i` is the first one whose lowercased name names both the
      operating system and the architecture. */
  predicate FirstFullMatch(assets: seq<Asset>, platform: string, arch: string, i: int)
  {
    0 <= i < |assets| && ForPlatformAndArch(assets[i], platform, arch) &&
    forall j :: 0 <= j < i ==> !ForPlatformAndArch(assets[j], platform, arch)
  }

  /** Asset `i` is the first one whose lowercased name names the operating
      system. */
  predicate FirstPlatformMatch(assets: seq<Asset>, platform: string, i: int)
  {
    0 <= i < |assets| && ForPlatform(assets[i], platform) &&
    forall j :: 0 <= j < i ==> !ForPlatform(assets[j], platform)
  }

  /** The address of the first asset naming both the platform and the
      architecture, if there is one. */
  function FullMatchUrl(assets: seq<Asset>, platform: string, arch: string): Option<string>
  {
    if assets == [] then None
    else if ForPlatformAndArch(assets[0], platform, arch) then Some(assets[0].downloadUrl)
    else FullMatchUrl(assets[1..], platform, arch)
  }

  /** The address of the first asset naming the platform, if there is one. */
  function PlatformMatchUrl(assets: seq<Asset>, platform: string): Option<string>
  {
    if assets == [] then None
    else if ForPlatform(assets[0], platform) then Some(assets[0].downloadUrl)
    else PlatformMatchUrl(assets[1..], platform)
  }

  /** The address `findDownloadURL` picks: the first asset naming both the
      platform and the architecture, else the first naming the platform,
      else "". */
  function DownloadUrlFor(assets: seq<Asset>, platform: string, arch: string): string
  {
    match FullMatchUrl(assets, platform, arch)
    case Some(url) => url
    case None =>
      match PlatformMatchUrl(assets, platform)
      case Some(url) => url
      case None => ""
  }

  lemma {:induction false} FullMatchUrlIsFirst(assets: seq<Asset>, platform: string, arch: string)
    ensures FullMatchUrl(assets, platform, arch).None? ==>
      forall i :: 0 <= i < |assets| ==> !ForPlatformAndArch(assets[i], platform, arch)
    ensures FullMatchUrl(assets, platform, arch).Some? ==>
      exists i :: FirstFullMatch(assets, platform, arch, i) && FullMatchUrl(assets, platform, arch).value == assets[i].downloadUrl
    decreases |assets|
  {
    if assets != [] {
      if ForPlatformAndArch(assets[0], platform, arch) {
        assert FirstFullMatch(assets, platform, arch, 0);
      } else {
        var tail := assets[1..];
        FullMatchUrlIsFirst(tail, platform, arch);
        if FullMatchUrl(tail, platform, arch).Some? {
          var i :| FirstFullMatch(tail, platform, arch, i) && FullMatchUrl(tail, platform, arch).value == tail[i].downloadUrl;
          forall j | 0 < j < i + 1
            ensures !ForPlatformAndArch(assets[j], platform, arch)
          {
            assert assets[j] == tail[j - 1];
          }
          assert FirstFullMatch(assets, platform, arch, i + 1);
        } else {
          forall j | 0 < j < |assets|
            ensures !ForPlatformAndArch(assets[j], platform, arch)
          {
            assert assets[j] == tail[j - 1];
          }
        }
      }
    }
  }

  lemma {:induction false} PlatformMatchUrlIsFirst(assets: seq<Asset>, platform: string)
    ensures PlatformMatchUrl(assets, platform).None? ==>
      forall i :: 0 <= i < |assets| ==> !ForPlatform(assets[i], platform)
    ensures PlatformMatchUrl(assets, platform).Some? ==>
      exists i :: FirstPlatformMatch(assets, platform, i) && PlatformMatchUrl(assets, platform).value == assets[i].downloadUrl
    decreases |assets|
  {
    if assets != [] {
      if ForPlatform(assets[0], platform) {
        assert FirstPlatformMatch(assets, platform, 0);
      } else {
        var tail := assets[1..];
        PlatformMatchUrlIsFirst(tail, platform);
        if PlatformMatchUrl(tail, platform).Some? {
          var i :| FirstPlatformMatch(tail, platform, i) && PlatformMatchUrl(tail, platform).value == tail[i].downloadUrl;
          forall j | 0 < j < i + 1
            ensures !ForPlatform(assets[j], platform)
          {
            assert assets[j] == tail[j - 1];
          }
          assert FirstPlatformMatch(assets, platform, i + 1);
        } else {
          forall j | 0 < j < |assets|
            ensures !ForPlatform(assets[j], platform)
          {
            assert assets[j] == tail[j - 1];
          }
        }
      }
    }
  }

  /** The address picked, case by case: the first full match wins, the
      first platform match is the fallback, and "" means no asset names the
      platform (or the chosen asset has no address). */
  lemma DownloadUrlForCases(assets: seq<Asset>, platform: string, arch: string)
    ensures (exists i :: 0 <= i < |assets| && ForPlatformAndArch(assets[i], platform, arch)) ==>
      exists i :: FirstFullMatch(assets, platform, arch, i) && DownloadUrlFor(assets, platform, arch) == assets[i].downloadUrl
    ensures ((forall i :: 0 <= i < |assets| ==> !ForPlatformAndArch(assets[i], platform, arch)) &&
             (exists i :: 0 <= i < |assets| && ForPlatform(assets[i], platform))) ==>
      exists i :: FirstPlatformMatch(assets, platform, i) && DownloadUrlFor(assets, platform, arch) == assets[i].downloadUrl
    ensures (forall i :: 0 <= i < |assets| ==> !ForPlatform(assets[i], platform)) ==>
      DownloadUrlFor(assets, platform, arch) == ""
  {
    FullMatchUrlIsFirst(assets, platform, arch);
    PlatformMatchUrlIsFirst(assets, platform);
    if FullMatchUrl(assets, platform, arch).Some? {
      var i :| FirstFullMatch(assets, platform, arch, i) && FullMatchUrl(assets, platform, arch).value == assets[i].downloadUrl;
      assert ForPlatform(assets[i], platform);
    }
  }

  /** Skipping an asset that does not match leaves the search result as it
      was. */
  lemma MatchUrlsStep(assets: seq<Asset>, i: int, platform: string, arch: string)
    requires 0 <= i < |assets|
    ensures FullMatchUrl(assets[i..], platform, arch) ==
      if ForPlatformAndArch(assets[i], platform, arch) then Some(assets[i].downloadUrl)
      else FullMatchUrl(assets[i + 1..], platform, arch)
    ensures PlatformMatchUrl(assets[i..], platform) ==
      if ForPlatform(assets[i], platform) then Some(assets[i].downloadUrl)
      else PlatformMatchUrl(assets[i + 1..], platform)
  {
    assert assets[i..][0] == assets[i];
    assert assets[i..][1..] == assets[i + 1..];
  }

  /** `findDownloadURL` for the running `platform` and `arch`: the first
      asset naming both, else the first naming the platform, else "". */
  method FindDownloadUrl(release: ReleaseInfo, platform: string, arch: string) returns (url: string)
    ensures url == DownloadUrlFor(release.assets, platform, arch)
  {
    var assets := release.assets;
    var i := 0;
    while i < |assets|
      invariant 0 <= i <= |assets|
      invariant FullMatchUrl(assets[i..], platform, arch) == FullMatchUrl(assets, platform, arch)
    {
      MatchUrlsStep(assets, i, platform, arch);
      var name := ToLower(assets[i].name);
      if Contains(name, platform) && Contains(name, arch) {
        return assets[i].downloadUrl;
      }
      i := i + 1;
    }
    assert assets[i..] == [];
    i := 0;
    while i < |assets|
      invariant 0 <= i <= |assets|
      invariant PlatformMatchUrl(assets[i..], platform) == PlatformMatchUrl(assets, platform)
    {
      MatchUrlsStep(assets, i, platform, arch);
      if Contains(ToLower(assets[i].name), platform) {
        return assets[i].downloadUrl;
      }
      i := i + 1;
    }
    assert assets[i..] == [];
    url := "";
  }

  // -----------------------------------------------------------------------
  // The settings file
  // -----------------------------------------------------------------------

  /** `UpdateSettings`; `lastCheck` is a time in nanoseconds. */
  datatype UpdateSettings = UpdateSettings(
    lastCheck: int,
    autoUpdate: bool,
    updateAvailable: bool,
    newVersion: string,
    downloadUrl: string)

  /** The settings written when no settings file exists yet. */
  const DefaultSettings: UpdateSettings := UpdateSettings(ZeroTime, false, false, "", "")

  /** What is on disk: no file, a file that cannot be read or decoded, or
      decodable settings. */
  datatype StoredFile = Missing | Unreadable | Stored(settings: UpdateSettings)

  datatype UpdaterError =
    | LoadFailed
    | FetchFailed(message: string)
    | SaveFailed
    | NoUpdateAvailable
    | NoDownloadUrl
    | DownloadFailed

  /** Whether a check at time `now` may answer from the settings alone. */
  predicate Fresh(s: UpdateSettings, now: int, force: bool)
  {
    !force && now - s.lastCheck < UpdateCheckInterval
  }

  /** The settings file of the updater, `settingsPath`. */
  class SettingsFile {
    var file: StoredFile

    /** The package initialisation: a missing file is created with the
        default settings (when the write succeeds). */
    constructor (initial: StoredFile, saveOk: bool)
      ensures initial == Missing && saveOk ==> file == Stored(DefaultSettings)
      ensures !(initial == Missing && saveOk) ==> file == initial
    {
      file := if initial == Missing && saveOk then Stored(DefaultSettings) else initial;
    }

    /** `CheckForUpdates(force)`. `now` is the clock, `release` the answer
        of the release server, `platform`/`arch` the running platform and
        `saveOk` whether writing the settings back succeeds. */
    method CheckForUpdates(force: bool, now: int, release: Result<ReleaseInfo, string>,
                           platform: string, arch: string, saveOk: bool)
      returns (settings: Option<UpdateSettings>, available: bool, err: Option<UpdaterError>)
      modifies this
      ensures !old(file).Stored? ==> settings == None && !available && err == Some(LoadFailed) && file == old(file)
      ensures old(file).Stored? && Fresh(old(file).settings, now, force) ==>
        settings == Some(old(file).settings) && available == old(file).settings.updateAvailable &&
        err == None && file == old(file)
      ensures old(file).Stored? && !Fresh(old(file).settings, now, force) && release.Err? ==>
        settings == Some(old(file).settings.(lastCheck := now)) && !available &&
        err == Some(FetchFailed(release.error)) && file == old(file)
      ensures old(file).Stored? && !Fresh(old(file).settings, now, force) && release.Ok? ==>
        var before := old(file).settings;
        var version := TrimV(release.value.tagName);
        && settings.Some?
        && settings.value.lastCheck == now
        && settings.value.autoUpdate == before.autoUpdate
        && (settings.value.updateAvailable <==> IsNewer(version, Version))
        && available == settings.value.updateAvailable
        && settings.value.newVersion == (if IsNewer(version, Version) then version else before.newVersion)
        && settings.value.downloadUrl ==
             (var url := DownloadUrlFor(release.value.assets, platform, arch);
              if IsNewer(version, Version) && url != "" then url else before.downloadUrl)
        && (file == if saveOk then Stored(settings.value) else old(file))
        && (err == if saveOk then None else Some(SaveFailed))
    {
      if !file.Stored? {
        return None, false, Some(LoadFailed);
      }
      var s := file.settings;
      if !force && now - s.lastCheck < UpdateCheckInterval {
        return Some(s), s.updateAvailable, None;
      }
      s := s.(lastCheck := now);
      if release.Err? {
        return Some(s), false, Some(FetchFailed(release.error));
      }
      var newVersion := TrimV(release.value.tagName);
      if IsNewer(newVersion, Version) {
        s := s.(updateAvailable := true, newVersion := newVersion);
        var url := FindDownloadUrl(release.value, platform, arch);
        if url != "" {
          s := s.(downloadUrl := url);
        }
      } else {
        s := s.(updateAvailable := false);
      }
      if saveOk {
        file := Stored(s);
        err := None;
      } else {
        err := Some(SaveFailed);
      }
      settings, available := Some(s), s.updateAvailable;
    }

    /** `InstallUpdate`: refused unless the stored settings record an
        available update with a download address. `downloadOk` is the
        outcome of the download; the platform-specific installers are
        placeholders that always succeed. */
    method InstallUpdate(downloadOk: bool) returns (err: Option<UpdaterError>)
      ensures !file.Stored? ==> err == Some(LoadFailed)
      ensures file.Stored? && !file.settings.updateAvailable ==> err == Some(NoUpdateAvailable)
      ensures file.Stored? && file.settings.updateAvailable && file.settings.downloadUrl == "" ==>
        err == Some(NoDownloadUrl)
      ensures file.Stored? && file.settings.updateAvailable && file.settings.downloadUrl != "" && !downloadOk ==>
        err == Some(DownloadFailed)
      ensures err == None <==>
        file.Stored? && file.settings.updateAvailable && file.settings.downloadUrl != "" && downloadOk
    {
      if !file.Stored? {
        return Some(LoadFailed);
      }
      var s := file.settings;
      if !s.updateAvailable {
        return Some(NoUpdateAvailable);
      }
      if s.downloadUrl == "" {
        return Some(NoDownloadUrl);
      }
      if !downloadOk {
        return Some(DownloadFailed);
      }
      err := None;
    }

    /** `EnableAutoUpdate(enable)`: only the preference changes. */
    method EnableAutoUpdate(enable: bool, saveOk: bool) returns (err: Option<UpdaterError>)
      modifies this
      ensures !old(file).Stored? ==> err == Some(LoadFailed) && file == old(file)
      ensures old(file).Stored? && saveOk ==> err == None && file == Stored(old(file).settings.(autoUpdate := enable))
      ensures old(file).Stored? && !saveOk ==> err == Some(SaveFailed) && file == old(file)
    {
      if !file.Stored? {
        return Some(LoadFailed);
      }
      var s := file.settings.(autoUpdate := enable);
      if saveOk {
        file := Stored(s);
        err := None;
      } else {
        err := Some(SaveFailed);
      }
    }

    /** `ShouldAutoUpdate`: the stored preference. */
    method ShouldAutoUpdate() returns (auto: bool, err: Option<UpdaterError>)
      ensures file.Stored? ==> err == None && auto == file.settings.autoUpdate
      ensures !file.Stored? ==> err == Some(LoadFailed) && !auto
    {
      if !file.Stored? {
        return false, Some(LoadFailed);
      }
      return file.settings.autoUpdate, None;
    }
  }

  /** A release tagged with the running version, with or without the "v",
      is not an update. */
  lemma SameVersionIsNoUpdate()
    ensures !IsNewer(TrimV("v" + Version), Version)
    ensures !IsNewer(TrimV(Version), Version)
  {
    assert TrimV("v" + Version) == Version;
    LessIrreflexive(Version);
  }

  /** An enabled preference survives a later check for updates: the check
      never touches it. */
  method EnableThenCheck(f: SettingsFile, now: int, release: Result<ReleaseInfo, string>,
                         platform: string, arch: string)
    returns (auto: bool)
    requires f.file.Stored?
    modifies f
    ensures auto
  {
    var _ := f.EnableAutoUpdate(true, true);
    var _, _, _ := f.CheckForUpdates(false, now, release, platform, arch, true);
    var a, _ := f.ShouldAutoUpdate();
    auto := a;
  }
}
