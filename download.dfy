/** The download helpers of go/internal/updater/download.go: the download
    addresses for the running platform, the command line suggested for
    fetching the program, and the decision whether the terminal shows ANSI
    colours. The platform, the installed tools and the environment are
    inputs. */
module Download {
  import opened Common

  const WebsiteUrl: string := "https://bitshare.yourdomain.com"
  const RepositoryUrl: string := "https://github.com/yourusername/bitshare"
  const ReleaseDownloadBase: string := "https://github.com/yourusername/bitshare/releases/latest/download/"

  datatype DownloadInfo = DownloadInfo(websiteUrl: string, repositoryUrl: string, directDownload: string)

  /** The name of a release asset: system, architecture and archive
      extension. */
  function ReleaseAsset(os: string, arch: string, ext: string): string
  {
    "bitshare-" + os + "-" + arch + ext
  }

  /** The release asset offered to `goos`/`goarch`: Windows and macOS get
      a zip (macOS per architecture, arm64 or else amd64), every other
      system the Linux amd64 tarball. */
  function AssetName(goos: string, goarch: string): string
  {
    if goos == "windows" then ReleaseAsset("windows", "amd64", ".zip")
    else if goos == "darwin" then
      if goarch == "arm64" then ReleaseAsset("darwin", "arm64", ".zip") else ReleaseAsset("darwin", "amd64", ".zip")
    else ReleaseAsset("linux", "amd64", ".tar.gz")
  }

  /** `GetDownloadInfo` on the platform `goos`/`goarch`. */
  function GetDownloadInfo(goos: string, goarch: string): (info: DownloadInfo)
    ensures info.websiteUrl == WebsiteUrl && info.repositoryUrl == RepositoryUrl
    ensures info.directDownload == ReleaseDownloadBase + AssetName(goos, goarch)
  {
    DownloadInfo(WebsiteUrl, RepositoryUrl, ReleaseDownloadBase + AssetName(goos, goarch))
  }

  lemma OccursIn(s: string, sub: string, i: nat)
    requires i + |sub| <= |s| && s[i..i + |sub|] == sub
    ensures Contains(s, sub)
  {
    assert OccursAt(s, sub, i);
  }

  /** An asset name holds its system and its architecture and ends with
      its extension. */
  lemma ReleaseAssetParts(os: string, arch: string, ext: string)
    ensures Contains(ReleaseAsset(os, arch, ext), os)
    ensures Contains(ReleaseAsset(os, arch, ext), arch)
    ensures HasSuffix(ReleaseAsset(os, arch, ext), ext)
  {
    var n := ReleaseAsset(os, arch, ext);
    assert n[9..9 + |os|] == os;
    OccursIn(n, os, 9);
    assert n[10 + |os|..10 + |os| + |arch|] == arch;
    OccursIn(n, arch, 10 + |os|);
    assert n[|n| - |ext|..] == ext;
  }

  /** On Windows, macOS and Linux the offered asset names the system; it
      names the architecture on arm64 macOS and on every amd64 machine
      (other architectures get the amd64 build). A zip is offered exactly
      to Windows and macOS. */
  lemma AssetMatchesPlatform(goos: string, goarch: string)
    ensures goos in {"windows", "darwin", "linux"} ==> Contains(AssetName(goos, goarch), goos)
    ensures goos == "darwin" && goarch == "arm64" ==> Contains(AssetName(goos, goarch), goarch)
    ensures goarch == "amd64" && goos in {"windows", "darwin", "linux"} ==> Contains(AssetName(goos, goarch), goarch)
    ensures HasSuffix(AssetName(goos, goarch), ".zip") <==> goos == "windows" || goos == "darwin"
  {
    if goos == "windows" {
      ReleaseAssetParts("windows", "amd64", ".zip");
    } else if goos == "darwin" {
      ReleaseAssetParts("darwin", goarch, ".zip");
      if goarch != "arm64" {
        ReleaseAssetParts("darwin", "amd64", ".zip");
      }
    } else {
      ReleaseAssetParts("linux", "amd64", ".tar.gz");
      var n := ReleaseAsset("linux", "amd64", ".tar.gz");
      assert n[|n| - 4..] == ".tar.gz"[3..];
    }
  }

  /** `GetDownloadCommand`, given whether `wget` and `curl` are on the
      search path. */
  function GetDownloadCommand(goos: string, goarch: string, hasWget: bool, hasCurl: bool): (cmd: string)
    ensures hasWget ==> cmd == "wget " + GetDownloadInfo(goos, goarch).directDownload + " -O bitshare.zip"
    ensures !hasWget && hasCurl ==> cmd == "curl -L " + GetDownloadInfo(goos, goarch).directDownload + " -o bitshare.zip"
    ensures !hasWget && !hasCurl ==> cmd == "Please download from: " + WebsiteUrl
  {
    var info := GetDownloadInfo(goos, goarch);
    if hasWget then "wget " + info.directDownload + " -O bitshare.zip"
    else if hasCurl then "curl -L " + info.directDownload + " -o bitshare.zip"
    else "Please download from: " + info.websiteUrl
  }

  /** A text placed between a prefix and a suffix starts with the prefix
      and contains the text. */
  lemma Between(p: string, d: string, q: string)
    ensures (p + d + q)[..|p|] == p && Contains(p + d + q, d)
  {
    assert (p + d + q)[|p|..|p| + |d|] == d;
    OccursIn(p + d + q, d, |p|);
  }

  /** wget wins over curl, and both fetch the offered asset; without
      either, the suggestion points to the website instead. */
  lemma DownloadCommandPriority(goos: string, goarch: string, hasWget: bool, hasCurl: bool)
    ensures var cmd := GetDownloadCommand(goos, goarch, hasWget, hasCurl);
      (HasPrefix(cmd, "wget ") <==> hasWget) &&
      (HasPrefix(cmd, "curl ") <==> !hasWget && hasCurl) &&
      (hasWget || hasCurl ==> Contains(cmd, GetDownloadInfo(goos, goarch).directDownload))
  {
    var cmd := GetDownloadCommand(goos, goarch, hasWget, hasCurl);
    var d := GetDownloadInfo(goos, goarch).directDownload;
    if hasWget {
      Between("wget ", d, " -O bitshare.zip");
      assert cmd[0] == 'w';
    } else if hasCurl {
      Between("curl -L ", d, " -o bitshare.zip");
      assert cmd[..5] == "curl -L "[..5] == "curl ";
    } else {
      assert cmd == "Please download from: " + WebsiteUrl;
      assert cmd[0] == 'P';
    }
  }

  /** `supportsColors`: `term`, `wtSession` and `termProgram` are the
      environment variables TERM, WT_SESSION and TERM_PROGRAM. */
  function SupportsColors(goos: string, term: string, wtSession: string, termProgram: string): (ok: bool)
  {
    if term == "" && goos == "windows" then wtSession != "" || termProgram != "" else true
  }

  /** Colours are refused only on a Windows console without TERM that is
      neither Windows Terminal nor a terminal announcing itself. */
  lemma SupportsColorsExactly(goos: string, term: string, wtSession: string, termProgram: string)
    ensures !SupportsColors(goos, term, wtSession, termProgram) <==>
      goos == "windows" && term == "" && wtSession == "" && termProgram == ""
  {
  }
}
