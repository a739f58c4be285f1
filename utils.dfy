/** The helpers of go/internal/utils/utils.go: the existence test for
    regular files, the unit selection of the byte-count formatter, the
    search of the usual user directories, and the node name made from the
    host name. The file system and the host name are inputs. */
module Utils {
  import opened Common

  // -----------------------------------------------------------------------
  // FileExists
  // -----------------------------------------------------------------------

  /** What `os.Stat` reports for a path. */
  datatype StatResult = NotExist | StatError | Found(isDir: bool)

  /** `FileExists` as written: a stat error other than "does not exist"
      leaves the file information nil, and asking it whether it is a
      directory panics; `None` stands for that panic. */
  function FileExistsAsWritten(st: StatResult): (r: Option<bool>)
    ensures r.None? <==> st == StatError
    ensures r == Some(true) <==> st == Found(false)
  {
    match st
    case NotExist => Some(false)
    case StatError => None
    case Found(isDir) => Some(!isDir)
  }

  /** A path whose stat fails for another reason than absence (a permission
      error, say) makes `FileExists` panic. */
  lemma StatErrorPanics()
    ensures FileExistsAsWritten(StatError) == None
  {
  }

  /** `FileExists` as intended: the path names something that is not a
      directory; any stat error counts as absence. */
  predicate FileExists(st: StatResult)
  {
    st.Found? && !st.isDir
  }

  /** Wherever the code as written answers, it answers like `FileExists`;
      in particular a directory never counts as an existing file. */
  lemma FileExistsAgrees(st: StatResult)
    requires FileExistsAsWritten(st).Some?
    ensures FileExistsAsWritten(st).value == FileExists(st)
    ensures st == Found(true) ==> !FileExists(st)
  {
  }

  // -----------------------------------------------------------------------
  // FormatBytes
  // -----------------------------------------------------------------------

  const Unit: int := 1024
  const UnitLetters: string := "KMGTPE"

  function Pow(b: nat, e: nat): (p: nat)
    ensures b >= 1 ==> p >= 1
  {
    if e == 0 then 1 else b * Pow(b, e - 1)
  }

  /** The unit `FormatBytes` chooses: a count below 1024 is printed in
      bytes; otherwise the count is divided by `div` = 1024^(exp+1) and
      followed by the letter of that power. The printing of the quotient
      with one decimal is not modelled. */
  datatype ByteUnit = InBytes(text: string) | Scaled(div: int, exp: nat, letter: char)

  lemma {:induction false} PowMonotone(d: nat, e: nat)
    requires d <= e
    ensures Pow(Unit, d) <= Pow(Unit, e)
    decreases e
  {
    if d < e {
      PowMonotone(d, e - 1);
    }
  }

  /** 1024^7 = 2^70 exceeds every int64. */
  lemma PowAboveInt64()
    ensures Pow(Unit, 7) > Int64Max
  {
    assert Pow(Unit, 7) == 1180591620717411303424;
  }

  /** `FormatBytes`: the unit loop. The exponent stays below 6 for every
      int64, so the index into "KMGTPE" is in range. */
  method FormatBytes(b: int) returns (u: ByteUnit)
    requires InInt64(b)
    ensures u.InBytes? <==> b < Unit
    ensures u.InBytes? ==> u.text == IntToDecimal(b) + " B"
    ensures u.Scaled? ==> u.exp <= 5 && u.letter == UnitLetters[u.exp]
    ensures u.Scaled? ==> u.div == Pow(Unit, u.exp + 1) && u.div <= b < Unit * u.div
  {
    if b < Unit {
      return InBytes(IntToDecimal(b) + " B");
    }
    var div, exp := Unit, 0;
    var n := b / Unit;
    while n >= Unit
      invariant div == Pow(Unit, exp + 1) && n >= 1
      invariant div * n <= b < div * (n + 1)
      decreases n
    {
      BracketStep(b, div, n);
      div := div * Unit;
      exp := exp + 1;
      n := n / Unit;
    }
    BracketEnd(b, div, n);
    if exp > 5 {
      PowMonotone(7, exp + 1);
      PowAboveInt64();
      assert false;
    }
    u := Scaled(div, exp, UnitLetters[exp]);
  }

  lemma MulMonotone(a: int, x: int, y: int)
    requires a >= 0 && x <= y
    ensures a * x <= a * y
  {
  }

  /** One turn of the unit loop keeps `n` the quotient of `b` by `div`,
      stated without division: div * n <= b < div * (n + 1). */
  lemma BracketStep(b: int, div: int, n: int)
    requires div > 0 && n >= 0 && div * n <= b < div * (n + 1)
    ensures (div * Unit) * (n / Unit) <= b < (div * Unit) * (n / Unit + 1)
  {
    var q, r := n / Unit, n % Unit;
    assert n == Unit * q + r && 0 <= r < Unit;
    assert div * n == (div * Unit) * q + div * r;
    MulMonotone(div, 0, r);
    MulMonotone(div, n + 1, Unit * q + Unit);
    assert div * (Unit * q + Unit) == (div * Unit) * (q + 1);
  }

  lemma BracketEnd(b: int, div: int, n: int)
    requires div > 0 && 1 <= n < Unit && div * n <= b < div * (n + 1)
    ensures div <= b < Unit * div
  {
    MulMonotone(div, 1, n);
    MulMonotone(div, n + 1, Unit);
  }

  /** The exponent is determined by the count: two exponents whose powers
      bracket the same count are equal. */
  lemma ExponentUnique(b: int, e1: nat, e2: nat)
    requires Pow(Unit, e1 + 1) <= b < Unit * Pow(Unit, e1 + 1)
    requires Pow(Unit, e2 + 1) <= b < Unit * Pow(Unit, e2 + 1)
    ensures e1 == e2
  {
    if e1 < e2 {
      PowMonotone(e1 + 2, e2 + 1);
    } else if e2 < e1 {
      PowMonotone(e2 + 2, e1 + 1);
    }
  }

  // -----------------------------------------------------------------------
  // FindFileInCommonDirs
  // -----------------------------------------------------------------------

  /** The directories searched, in order. */
  const SearchDirs: seq<string> := ["Downloads", "Documents", "Desktop"]

  datatype FindError = NoHomeDir | NotFoundInCommonDirs

  function Candidate(home: string, dir: string, filename: string): string
  {
    Join(Join(home, dir), filename)
  }

  /** Directory `i` is the first of the search list that holds the file. */
  predicate FirstHit(filename: string, home: string, stat: string -> StatResult, i: int)
  {
    0 <= i < |SearchDirs| && FileExists(stat(Candidate(home, SearchDirs[i], filename))) &&
    forall j :: 0 <= j < i ==> !FileExists(stat(Candidate(home, SearchDirs[j], filename)))
  }

  /** `FindFileInCommonDirs`: the first of Downloads, Documents and
      Desktop under the home directory that holds `filename` as a file.
      `home` is the home directory (None when it cannot be found) and
      `stat` the file system. */
  method FindFileInCommonDirs(filename: string, home: Option<string>, stat: string -> StatResult)
    returns (r: Result<string, FindError>)
    ensures home.None? ==> r == Err(NoHomeDir)
    ensures r.Ok? ==>
      exists i :: FirstHit(filename, home.value, stat, i) && r.value == Candidate(home.value, SearchDirs[i], filename)
    ensures home.Some? ==> (r.Err? <==>
      forall i :: 0 <= i < |SearchDirs| ==> !FileExists(stat(Candidate(home.value, SearchDirs[i], filename))))
  {
    if home.None? {
      return Err(NoHomeDir);
    }
    var i := 0;
    while i < |SearchDirs|
      invariant 0 <= i <= |SearchDirs|
      invariant forall j :: 0 <= j < i ==> !FileExists(stat(Candidate(home.value, SearchDirs[j], filename)))
    {
      var searchPath := Candidate(home.value, SearchDirs[i], filename);
      if FileExists(stat(searchPath)) {
        assert FirstHit(filename, home.value, stat, i);
        return Ok(searchPath);
      }
      i := i + 1;
    }
    r := Err(NotFoundInCommonDirs);
  }

  // -----------------------------------------------------------------------
  // GenerateNodeName
  // -----------------------------------------------------------------------

  /** The host name with every '.' and every ' ' replaced by '-'. */
  function CleanHostName(h: string): (r: string)
    ensures |r| == |h|
    ensures forall i :: 0 <= i < |h| ==> r[i] == (if h[i] == '.' || h[i] == ' ' then '-' else h[i])
  {
    if h == [] then []
    else [if h[0] == '.' || h[0] == ' ' then '-' else h[0]] + CleanHostName(h[1..])
  }

  /** `GenerateNodeName`: `hostname` is the host name, None when it cannot
      be read. */
  function GenerateNodeName(hostname: Option<string>): (r: string)
    ensures hostname.Some? ==> |r| == |hostname.value|
  {
    CleanHostName(if hostname.Some? then hostname.value else "unknown-device")
  }

  /** A name without dots and spaces is kept as it is. */
  lemma {:induction false} CleanHostNameKeepsClean(h: string)
    requires forall i :: 0 <= i < |h| ==> h[i] != '.' && h[i] != ' '
    ensures CleanHostName(h) == h
    decreases |h|
  {
    if h != [] {
      CleanHostNameKeepsClean(h[1..]);
    }
  }

  /** Without a host name the node is called "unknown-device". */
  lemma UnknownHostName()
    ensures GenerateNodeName(None) == "unknown-device"
  {
    var h := "unknown-device";
    UnknownDeviceIsClean();
    CleanHostNameKeepsClean(h);
    assert GenerateNodeName(None) == CleanHostName(h);
  }

  lemma UnknownDeviceIsClean()
    ensures forall i :: 0 <= i < |"unknown-device"| ==> "unknown-device"[i] != '.' && "unknown-device"[i] != ' '
  {
  }

  /** A node name never holds a dot or a space, and the characters that
      are neither are kept in place. */
  lemma NodeNameIsClean(hostname: Option<string>)
    ensures var r := GenerateNodeName(hostname);
      forall i :: 0 <= i < |r| ==> r[i] != '.' && r[i] != ' '
    ensures hostname.Some? ==> var h := hostname.value; var r := GenerateNodeName(hostname);
      forall i :: 0 <= i < |h| && h[i] != '.' && h[i] != ' ' ==> r[i] == h[i]
  {
    var h := if hostname.Some? then hostname.value else "unknown-device";
    assert forall i :: 0 <= i < |h| ==> h[i] != '.' && h[i] != ' ' ==> CleanHostName(h)[i] == h[i];
  }

  /** Cleaning twice changes nothing more. */
  lemma CleanHostNameIdempotent(h: string)
    ensures CleanHostName(CleanHostName(h)) == CleanHostName(h)
  {
    CleanHostNameKeepsClean(CleanHostName(h));
  }
}
