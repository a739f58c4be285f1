/** The terminal screen of go/internal/ui/terminal.go without its drawing:
    which screen is active, whether the interface runs, and the two text
    helpers used to lay out its lines. Text is measured in characters; the
    source measures bytes, which agree for ASCII text. */
module Terminal {
  import opened Common

  // -----------------------------------------------------------------------
  // Text helpers
  // -----------------------------------------------------------------------

  function Spaces(n: nat): (s: string)
    ensures |s| == n && forall i :: 0 <= i < n ==> s[i] == ' '
  {
    if n == 0 then "" else Spaces(n - 1) + " "
  }

  /** `centerText`: text at least as wide as the line is returned as it is;
      otherwise it is shifted right by half the free room, rounded down,
      and nothing is added on its right. */
  function CenterText(text: string, width: int): (r: string)
    ensures |text| >= width ==> r == text
    ensures |text| < width ==> |r| == |text| + (width - |text|) / 2
  {
    if |text| >= width then text else Spaces((width - |text|) / 2) + text
  }

  /** A centred line ends with the text, starts with blanks only, and
      never exceeds the width when the text fits; the blanks on its left
      are never more than the room left on its right plus one. */
  lemma CenterTextLayout(text: string, width: int)
    ensures var r := CenterText(text, width); var pad := |r| - |text|;
      pad >= 0 && r[pad..] == text && (forall i :: 0 <= i < pad ==> r[i] == ' ') &&
      (|text| < width ==> |r| <= width && pad <= width - |r| + 1 && width - |r| <= pad + 1)
  {
  }

  /** `truncateString`: a string longer than `maxLen` keeps its first
      `maxLen - 3` characters followed by "...". The slice would panic for
      `maxLen < 3`; every caller passes 15 or 20. */
  function TruncateString(s: string, maxLen: int): (r: string)
    requires maxLen >= 3
    ensures |s| <= maxLen ==> r == s
    ensures |s| > maxLen ==> |r| == maxLen && r[..maxLen - 3] == s[..maxLen - 3] && r[maxLen - 3..] == "..."
  {
    if |s| <= maxLen then s else s[..maxLen - 3] + "..."
  }

  /** A truncated string always fits, and truncating again changes
      nothing. */
  lemma TruncateFitsAndIsIdempotent(s: string, maxLen: int)
    requires maxLen >= 3
    ensures |TruncateString(s, maxLen)| <= maxLen
    ensures TruncateString(TruncateString(s, maxLen), maxLen) == TruncateString(s, maxLen)
  {
  }

  // -----------------------------------------------------------------------
  // TerminalUI
  // -----------------------------------------------------------------------

  /** The size `getTerminalSize` reports: always 80 by 24. */
  const DefaultWidth: int := 80
  const DefaultHeight: int := 24

  const RefreshRateNs: int := 1_000_000_000

  datatype UiError = AlreadyRunning

  /** The names of the screens. */
  const ScreenNames: set<string> := {"dashboard", "peers", "transfers", "network"}

  /** `TerminalUI`. */
  class TerminalUI {
    var isRunning: bool
    var refreshRate: int
    var width: int
    var height: int
    var activeScreen: string

    predicate Valid()
      reads this
    {
      activeScreen in ScreenNames && width > 0 && height > 0
    }

    /** `GetTerminalUI`'s instance: stopped, refreshing every second, 80 by
        24, on the dashboard. */
    constructor ()
      ensures Valid()
      ensures !isRunning && refreshRate == RefreshRateNs
      ensures width == DefaultWidth && height == DefaultHeight && activeScreen == "dashboard"
    {
      isRunning := false;
      refreshRate := RefreshRateNs;
      width, height := DefaultWidth, DefaultHeight;
      activeScreen := "dashboard";
    }

    /** `Start`: refused while running; otherwise it takes the terminal
        size (always 80 by 24) and marks the interface running. */
    method Start() returns (err: Option<UiError>)
      requires Valid()
      modifies this
      ensures Valid()
      ensures old(isRunning) ==> err == Some(AlreadyRunning) && width == old(width) && height == old(height)
      ensures !old(isRunning) ==> err == None && width == DefaultWidth && height == DefaultHeight
      ensures isRunning
      ensures activeScreen == old(activeScreen) && refreshRate == old(refreshRate)
    {
      if isRunning {
        return Some(AlreadyRunning);
      }
      width, height := DefaultWidth, DefaultHeight;
      isRunning := true;
      err := None;
    }

    /** `Stop`: clears the running flag, whether or not it was set. */
    method Stop()
      requires Valid()
      modifies this
      ensures Valid()
      ensures !isRunning
      ensures activeScreen == old(activeScreen) && width == old(width) && height == old(height)
      ensures refreshRate == old(refreshRate)
    {
      isRunning := false;
    }

    /** The `Show*` methods: each selects its screen and changes nothing
        else. */
    method Show(screen: string)
      requires Valid() && screen in ScreenNames
      modifies this
      ensures Valid()
      ensures activeScreen == screen
      ensures isRunning == old(isRunning) && width == old(width) && height == old(height)
      ensures refreshRate == old(refreshRate)
    {
      activeScreen := screen;
    }

    method ShowDashboard()
      requires Valid()
      modifies this
      ensures Valid() && activeScreen == "dashboard"
      ensures isRunning == old(isRunning) && width == old(width) && height == old(height)
      ensures refreshRate == old(refreshRate)
    {
      Show("dashboard");
    }

    method ShowPeerList()
      requires Valid()
      modifies this
      ensures Valid() && activeScreen == "peers"
      ensures isRunning == old(isRunning) && width == old(width) && height == old(height)
      ensures refreshRate == old(refreshRate)
    {
      Show("peers");
    }

    method ShowTransferStatus()
      requires Valid()
      modifies this
      ensures Valid() && activeScreen == "transfers"
      ensures isRunning == old(isRunning) && width == old(width) && height == old(height)
      ensures refreshRate == old(refreshRate)
    {
      Show("transfers");
    }

    method ShowNetworkMap()
      requires Valid()
      modifies this
      ensures Valid() && activeScreen == "network"
      ensures isRunning == old(isRunning) && width == old(width) && height == old(height)
      ensures refreshRate == old(refreshRate)
    {
      Show("network");
    }
  }

  /** Starting twice fails the second time and leaves the interface
      running; stopping always succeeds, so a stopped interface can be
      started again. */
  method StartStopStart(ui: TerminalUI) returns (first: Option<UiError>, second: Option<UiError>, third: Option<UiError>)
    requires ui.Valid() && !ui.isRunning
    modifies ui
    ensures first == None && second == Some(AlreadyRunning) && third == None
    ensures ui.isRunning && ui.Valid()
  {
    first := ui.Start();
    second := ui.Start();
    ui.Stop();
    third := ui.Start();
  }
}
