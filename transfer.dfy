/** The whole-file transfer of go/internal/transfer/transfer.go. The sender
    writes a text header, the base name of the file and its size in decimal
    each followed by a newline, and then the content; the receiver reads the
    header back, checks the size and the name, and copies exactly the
    declared number of bytes into a file of that name inside its
    destination directory. The wire is a sequence of characters, one per
    byte; the outcomes of the file system and network calls are
    parameters. */
module LegacyTransfer {
  import opened Common

  /** `MaxFileSize`: 10 GiB. */
  const MaxFileSize: int := 10 * 1024 * 1024 * 1024

  // -----------------------------------------------------------------------
  // The header
  // -----------------------------------------------------------------------

  /** The characters fmt's scanners treat as white space. */
  predicate IsSpace(c: char)
  {
    var n := c as int;
    9 <= n <= 13 || n == 0x20 || n == 0x85 || n == 0xA0 || n == 0x1680 ||
    0x2000 <= n <= 0x200A || n == 0x2028 || n == 0x2029 || n == 0x202F ||
    n == 0x205F || n == 0x3000
  }

  predicate NoWhitespace(s: string)
  {
    forall k :: 0 <= k < |s| ==> !IsSpace(s[k])
  }

  /** The header `fmt.Fprintf(conn, "%s\n%d\n", name, size)` writes. */
  function HeaderText(name: string, size: int): string
  {
    name + "\n" + IntToDecimal(size) + "\n"
  }

  /** The longest prefix of `s` without white space: what a `%s` or `%d`
      verb consumes. */
  function Token(s: string): (t: string)
    ensures |t| <= |s| && t == s[..|t|] && NoWhitespace(t)
    ensures |t| < |s| ==> IsSpace(s[|t|])
  {
    if s == [] || IsSpace(s[0]) then [] else [s[0]] + Token(s[1..])
  }

  /** A white-space character other than the newline: what fmt's scanners
      skip in front of a verb, and in front of a newline of the format. */
  predicate IsBlank(c: char) { IsSpace(c) && c != '\n' }

  /** `s` without its leading blanks. */
  function SkipBlanks(s: string): (r: string)
    ensures IsSuffix(r, s)
    ensures r != [] ==> !IsBlank(r[0])
  {
    if s != [] && IsBlank(s[0]) then SkipBlanks(s[1..]) else s
  }

  /** A newline of the format: blanks, then a newline or the end of the
      input. The result is the input after the match. */
  function MatchNewline(s: string): (r: Option<string>)
    ensures r.Some? ==> IsSuffix(r.value, s)
  {
    var t := SkipBlanks(s);
    if t == [] then Some([])
    else if t[0] == '\n' then Some(t[1..])
    else None
  }

  /** The longest run of decimal digits at the front of `s`. */
  function DigitRun(s: string): (d: string)
    ensures |d| <= |s| && d == s[..|d|] && AllDigits(d)
    ensures |d| < |s| ==> !IsDigit(s[|d|])
  {
    if s == [] || !IsDigit(s[0]) then [] else [s[0]] + DigitRun(s[1..])
  }

  /** What `%d` consumes: an optional sign and the digits after it. */
  function NumberToken(s: string): (t: string)
    ensures |t| <= |s| && t == s[..|t|]
  {
    if s != [] && (s[0] == '+' || s[0] == '-') then [s[0]] + DigitRun(s[1..]) else DigitRun(s)
  }

  /** `%s`: blanks are skipped and a non-empty word is taken; a newline or
      the end of the input fails. The result is the word and what follows
      it. */
  function ScanWord(s: string): (r: Option<(string, string)>)
    ensures r.Some? ==> r.value.0 != "" && NoWhitespace(r.value.0)
    ensures r.Some? ==> |r.value.1| < |s| && IsSuffix(r.value.1, s)
  {
    var t := SkipBlanks(s);
    if t == [] || t[0] == '\n' then None
    else
      var w := Token(t);
      Some((w, t[|w|..]))
  }

  /** `%d` into an int64: blanks are skipped, then a sign and at least one
      digit are taken, and their value must fit 64 bits. The result is the
      value and what follows the digits. */
  function ScanInt(s: string): (r: Option<(int, string)>)
    ensures r.Some? ==> InInt64(r.value.0)
    ensures r.Some? ==> |r.value.1| < |s| && IsSuffix(r.value.1, s)
  {
    var t := SkipBlanks(s);
    var number := NumberToken(t);
    match ParseInt(number)
    case None => None
    case Some(v) =>
      var rest := t[|number|..];
      assert IsSuffix(rest, t);
      SuffixTrans(rest, t, s);
      Some((v, rest))
  }

  /** What the receiver reads: the name, the size, and the bytes after the
      header. */
  datatype Parsed = Parsed(name: string, size: int, content: string)

  /** `fmt.Fscanf(conn, "%s\n%d\n", &name, &size)`: a word, a newline of
      the format, an int64, a newline of the format. */
  function ParseHeader(stream: string): (p: Option<Parsed>)
    ensures p.Some? ==> p.value.name != "" && NoWhitespace(p.value.name) && InInt64(p.value.size)
    ensures p.Some? ==> |p.value.content| < |stream| && IsSuffix(p.value.content, stream)
  {
    match ScanWord(stream)
    case None => None
    case Some((name, s1)) =>
      match MatchNewline(s1)
      case None => None
      case Some(s2) =>
        match ScanInt(s2)
        case None => None
        case Some((size, s3)) =>
          match MatchNewline(s3)
          case None => None
          case Some(content) =>
            SuffixTrans(s2, s1, stream);
            SuffixTrans(s3, s2, stream);
            SuffixTrans(content, s3, stream);
            Some(Parsed(name, size, content))
  }

  /** `a` is what is left of `s` after some prefix. */
  predicate IsSuffix(a: string, s: string)
  {
    |a| <= |s| && a == s[|s| - |a|..]
  }

  lemma SuffixTrans(a: string, b: string, c: string)
    requires IsSuffix(a, b) && IsSuffix(b, c)
    ensures IsSuffix(a, c)
  {
    assert c[|c| - |b|..][|b| - |a|..] == c[|c| - |a|..];
  }

  lemma {:induction false} TokenOfWordThenSpace(w: string, rest: string)
    requires NoWhitespace(w) && rest != [] && IsSpace(rest[0])
    ensures Token(w + rest) == w
    decreases |w|
  {
    if w != [] {
      assert (w + rest)[1..] == w[1..] + rest;
      TokenOfWordThenSpace(w[1..], rest);
    }
  }

  lemma {:induction false} DigitRunOfDigits(d: string, rest: string)
    requires AllDigits(d) && (rest == [] || !IsDigit(rest[0]))
    ensures DigitRun(d + rest) == d
    decreases |d|
  {
    if d != [] {
      assert (d + rest)[1..] == d[1..] + rest;
      DigitRunOfDigits(d[1..], rest);
    }
  }

  lemma DecimalHasNoWhitespace(n: int)
    ensures NoWhitespace(IntToDecimal(n))
  {
    var s := IntToDecimal(n);
    if n < 0 {
      assert forall k :: 1 <= k < |s| ==> s[k] == NatToDecimal(-n)[k - 1];
    }
  }

  /** A word followed by white space is scanned as that word. */
  lemma ScanWordOfWord(w: string, rest: string)
    requires w != "" && NoWhitespace(w) && rest != [] && IsSpace(rest[0])
    ensures ScanWord(w + rest) == Some((w, rest))
  {
    assert SkipBlanks(w + rest) == w + rest;
    TokenOfWordThenSpace(w, rest);
    assert (w + rest)[|w|..] == rest;
  }

  /** `%d` reads back what `%d` printed, up to the first non-digit. */
  lemma ScanIntOfDecimal(n: int, rest: string)
    requires InInt64(n) && (rest == [] || !IsDigit(rest[0]))
    ensures ScanInt(IntToDecimal(n) + rest) == Some((n, rest))
  {
    var d := IntToDecimal(n);
    var s := d + rest;
    DecimalStart(n);
    assert s[0] == d[0] && !IsBlank(s[0]);
    assert SkipBlanks(s) == s;
    NumberTokenOfDecimal(n, rest);
    assert s[|d|..] == rest;
    DecimalRoundTrip(n);
  }

  /** A decimal starts with a minus sign or a digit. */
  lemma DecimalStart(n: int)
    ensures IntToDecimal(n)[0] == '-' || IsDigit(IntToDecimal(n)[0])
  {
  }

  /** The number token of a decimal followed by a non-digit is the decimal. */
  lemma NumberTokenOfDecimal(n: int, rest: string)
    requires rest == [] || !IsDigit(rest[0])
    ensures NumberToken(IntToDecimal(n) + rest) == IntToDecimal(n)
  {
    var d := IntToDecimal(n);
    var s := d + rest;
    if n < 0 {
      var m := NatToDecimal(-n);
      assert s[0] == '-' && s[1..] == m + rest;
      DigitRunOfDigits(m, rest);
    } else {
      assert s[0] == d[0];
      DigitRunOfDigits(d, rest);
    }
  }

  /** A newline of the format matches a newline of the input. */
  lemma NewlineMatches(rest: string)
    ensures MatchNewline("\n" + rest) == Some(rest)
  {
    assert SkipBlanks("\n" + rest) == "\n" + rest;
  }

  /** Assembling the four steps of the header scan. */
  lemma ParseHeaderSteps(stream: string, name: string, s1: string, s2: string, size: int, s3: string, content: string)
    requires ScanWord(stream) == Some((name, s1)) && MatchNewline(s1) == Some(s2)
    requires ScanInt(s2) == Some((size, s3)) && MatchNewline(s3) == Some(content)
    ensures ParseHeader(stream) == Some(Parsed(name, size, content))
  {
  }

  /** A header whose name is not followed by a newline does not parse. */
  lemma ParseHeaderStopsAfterName(stream: string, name: string, s1: string)
    requires ScanWord(stream) == Some((name, s1)) && MatchNewline(s1) == None
    ensures ParseHeader(stream) == None
  {
  }

  /** A blank before the newline is skipped. */
  lemma BlankThenNewline(rest: string)
    ensures MatchNewline(" " + ("\n" + rest)) == Some(rest)
  {
    assert (" " + ("\n" + rest))[1..] == "\n" + rest;
    assert SkipBlanks("\n" + rest) == "\n" + rest;
  }

  /** A blank followed by anything but white space does not match a
      newline of the format. */
  lemma BlankThenWord(after: string)
    requires after != [] && !IsSpace(after[0])
    ensures MatchNewline(" " + after) == None
  {
    assert (" " + after)[1..] == after;
    assert SkipBlanks(after) == after;
  }

  /** The header round trip: a name without white space and any int64 size
      come back unchanged, followed by the content. */
  lemma HeaderRoundTrip(name: string, size: int, content: string)
    requires name != "" && NoWhitespace(name) && InInt64(size)
    ensures ParseHeader(HeaderText(name, size) + content) == Some(Parsed(name, size, content))
  {
    var d := IntToDecimal(size);
    var tail := "\n" + content;
    var s2 := d + tail;
    var s1 := "\n" + s2;
    assert HeaderText(name, size) + content == name + s1;
    ScanWordOfWord(name, s1);
    NewlineMatches(s2);
    ScanIntOfDecimal(size, tail);
    NewlineMatches(content);
    ParseHeaderSteps(name + s1, name, s1, s2, size, tail, content);
  }

  /** A connection that closes right after the digits of the size still
      gives a header: the last newline of the format also matches the end
      of the input, and the content is then empty. */
  lemma HeaderCutAfterSize(name: string, size: int)
    requires name != "" && NoWhitespace(name) && InInt64(size)
    ensures ParseHeader(name + "\n" + IntToDecimal(size)) == Some(Parsed(name, size, ""))
  {
    var d := IntToDecimal(size);
    var s1 := "\n" + d;
    assert name + "\n" + d == name + s1;
    ScanWordOfWord(name, s1);
    NewlineMatches(d);
    assert d == d + [];
    ScanIntOfDecimal(size, []);
    assert MatchNewline([]) == Some([]);
    ParseHeaderSteps(name + s1, name, s1, d, size, [], []);
  }

  /** Blanks after the name are skipped before the newline, so a name
      ending in a blank is read back without it. */
  lemma NameWithTrailingBlankTrimmed(name: string, size: int, content: string)
    requires name != "" && NoWhitespace(name) && InInt64(size)
    ensures ParseHeader(HeaderText(name + " ", size) + content) == Some(Parsed(name, size, content))
  {
    var d := IntToDecimal(size);
    var tail := "\n" + content;
    var s2 := d + tail;
    var s1 := " " + ("\n" + s2);
    assert HeaderText(name + " ", size) + content == name + s1;
    ScanWordOfWord(name, s1);
    BlankThenNewline(s2);
    ScanIntOfDecimal(size, tail);
    NewlineMatches(content);
    ParseHeaderSteps(name + s1, name, s1, s2, size, tail, content);
  }

  /** The round trip needs the name to be free of white space: a name that
      holds a space or a tab is never read back as itself. */
  lemma HeaderNeedsNoWhitespace(name: string, size: int, content: string)
    requires var p := ParseHeader(HeaderText(name, size) + content); p.Some? && p.value.name == name
    ensures NoWhitespace(name)
  {
  }

  /** A name with a blank inside it, such as "my file.txt", is cut at the
      blank; the newline of the format then meets the rest of the name and
      the header no longer parses. */
  lemma NameWithSpaceFails(w1: string, w2: string, size: int, content: string)
    requires w1 != "" && NoWhitespace(w1) && w2 != "" && !IsSpace(w2[0])
    ensures ParseHeader(HeaderText(w1 + " " + w2, size) + content) == None
  {
    var after := w2 + ("\n" + IntToDecimal(size) + "\n" + content);
    var s1 := " " + after;
    SpacedHeader(w1, w2, size, content);
    ScanWordOfWord(w1, s1);
    assert after[0] == w2[0];
    BlankThenWord(after);
    ParseHeaderStopsAfterName(w1 + s1, w1, s1);
  }

  lemma SpacedHeader(w1: string, w2: string, size: int, content: string)
    ensures HeaderText(w1 + " " + w2, size) + content ==
      w1 + (" " + (w2 + ("\n" + IntToDecimal(size) + "\n" + content)))
  {
  }

  // -----------------------------------------------------------------------
  // SendFile
  // -----------------------------------------------------------------------

  datatype SendError =
    | FileDoesNotExist(path: string)
    | OpenFailed
    | StatFailed
    | FileTooLarge(size: int)
    | ConnectFailed
    | MetadataWriteFailed
    | ContentWriteFailed

  /** `SendFile` for a file whose content is `content`. `notExist` is
      whether the first stat reports that the file does not exist (any
      other stat error is ignored there), `openOk` and `statOk` whether the
      open and the stat of the open file succeed, `dialOk`, `headerOk` and
      `copyOk` whether the connection, the header write and the copy
      succeed. The result is the wire text on success. */
  function SendFile(path: string, content: string, notExist: bool, openOk: bool, statOk: bool,
                    dialOk: bool, headerOk: bool, copyOk: bool): (r: Result<string, SendError>)
    ensures r.Ok? <==>
      !notExist && openOk && statOk && |content| <= MaxFileSize && dialOk && headerOk && copyOk
    ensures r.Ok? ==> r.value == HeaderText(Base(path), |content|) + content
    ensures !notExist && openOk && statOk && |content| > MaxFileSize ==> r == Err(FileTooLarge(|content|))
    ensures notExist ==> r == Err(FileDoesNotExist(path))
  {
    if notExist then Err(FileDoesNotExist(path))
    else if !openOk then Err(OpenFailed)
    else if !statOk then Err(StatFailed)
    else if |content| > MaxFileSize then Err(FileTooLarge(|content|))
    else if !dialOk then Err(ConnectFailed)
    else if !headerOk then Err(MetadataWriteFailed)
    else if !copyOk then Err(ContentWriteFailed)
    else Ok(HeaderText(Base(path), |content|) + content)
  }

  // -----------------------------------------------------------------------
  // receiveFileFromConnection
  // -----------------------------------------------------------------------

  datatype ReceiveError =
    | MetadataReadFailed
    | InvalidFileSize(size: int)
    | InvalidFileName(name: string)
    | MkdirFailed
    | CreateFailed
    | ContentReadFailed

  /** A base name the receiver accepts. */
  predicate AcceptedName(b: string)
  {
    b != "" && b != "." && b != ".."
  }

  /** `filepath.Join(destDir, name)` for a base name, with the Clean step
      that matters here: joining the root "/" names the directory itself. */
  function OutputPath(destDir: string, b: string): (p: string)
  {
    if b == "/" then (if destDir == "" then "/" else destDir) else Join(destDir, b)
  }

  /** What the receiver leaves behind: the error, the path of the file it
      created (if it got that far), and the bytes it wrote there. */
  datatype Received = Received(err: Option<ReceiveError>, created: Option<string>, written: string)

  /** `receiveFileFromConnection` on the bytes `stream` that arrive before
      the connection closes. `mkdirOk` and `createOk` are the outcomes of
      creating the destination directory and the file. `io.CopyN` copies
      at most the declared size and reports a shorter stream as an error;
      what it copied stays in the file. */
  function ReceiveFromConnection(stream: string, destDir: string, mkdirOk: bool, createOk: bool): (r: Received)
    ensures r.err == None <==>
      ParseHeader(stream).Some? && 0 < ParseHeader(stream).value.size <= MaxFileSize &&
      AcceptedName(Base(ParseHeader(stream).value.name)) && (destDir == "" || mkdirOk) && createOk &&
      ParseHeader(stream).value.size <= |ParseHeader(stream).value.content|
    ensures r.err == None ==>
      var h := ParseHeader(stream).value;
      r.created == Some(OutputPath(destDir, Base(h.name))) && r.written == h.content[..h.size]
    ensures r.created.None? ==> r.written == ""
    ensures r.created.Some? ==> |r.written| <= MaxFileSize
  {
    match ParseHeader(stream)
    case None => Received(Some(MetadataReadFailed), None, "")
    case Some(h) =>
      if h.size <= 0 || h.size > MaxFileSize then Received(Some(InvalidFileSize(h.size)), None, "")
      else
        var b := Base(h.name);
        if !AcceptedName(b) then Received(Some(InvalidFileName(b)), None, "")
        else if destDir != "" && !mkdirOk then Received(Some(MkdirFailed), None, "")
        else if !createOk then Received(Some(CreateFailed), None, "")
        else
          var path := OutputPath(destDir, b);
          if |h.content| < h.size then Received(Some(ContentReadFailed), Some(path), h.content)
          else Received(None, Some(path), h.content[..h.size])
  }

  /** The file the receiver creates is one entry directly inside the
      destination directory: its name has no separator and is not "." or
      "..", or it is the directory itself when the name is the root. */
  lemma OutputStaysInDestination(stream: string, destDir: string, mkdirOk: bool, createOk: bool)
    requires ReceiveFromConnection(stream, destDir, mkdirOk, createOk).created.Some?
    ensures var path := ReceiveFromConnection(stream, destDir, mkdirOk, createOk).created.value;
      (path == destDir && destDir != "") ||
      (path == "/" && destDir == "") ||
      exists b :: AcceptedName(b) && '/' !in b && path == Join(destDir, b)
  {
    var h := ParseHeader(stream).value;
    var b := Base(h.name);
    BaseIsOneElement(h.name);
    if b != "/" {
      assert AcceptedName(b) && '/' !in b;
    }
  }

  /** Base is idempotent: the name the sender puts on the wire is already a
      base name. */
  lemma BaseIdempotent(path: string)
    ensures Base(Base(path)) == Base(path)
  {
    var b := Base(path);
    BaseIsOneElement(path);
    if b == "/" {
      assert StripTrailingSlashes("/") == "" by {
        assert "/"[..0] == "";
      }
    } else {
      BaseOfElement(b);
    }
  }

  /** A well-formed header for an accepted name and a size within the
      limit, followed by at least that many bytes, is received in full. */
  lemma ReceiveWellFormed(name: string, size: int, content: string, destDir: string)
    requires name != "" && NoWhitespace(name) && AcceptedName(Base(name))
    requires 0 < size <= MaxFileSize && size <= |content|
    ensures ReceiveFromConnection(HeaderText(name, size) + content, destDir, true, true) ==
      Received(None, Some(OutputPath(destDir, Base(name))), content[..size])
  {
    HeaderRoundTrip(name, size, content);
  }

  /** A file sent whole arrives whole: for a non-empty file within the
      size limit whose base name has no white space and is accepted, the
      receiver creates that name inside its directory and writes exactly
      the content, whatever the connection carries after it. */
  lemma SendThenReceive(path: string, content: string, destDir: string, trailer: string)
    requires 0 < |content| <= MaxFileSize
    requires NoWhitespace(Base(path)) && AcceptedName(Base(path))
    ensures var sent := SendFile(path, content, false, true, true, true, true, true);
      sent.Ok? &&
      ReceiveFromConnection(sent.value + trailer, destDir, true, true) ==
        Received(None, Some(OutputPath(destDir, Base(path))), content)
  {
    var b := Base(path);
    var wire := HeaderText(b, |content|) + content;
    assert wire + trailer == HeaderText(b, |content|) + (content + trailer);
    BaseIdempotent(path);
    ReceiveWellFormed(b, |content|, content + trailer, destDir);
    assert (content + trailer)[..|content|] == content;
  }

  /** The sender accepts an empty file, but the receiver refuses a declared
      size of 0, so an empty file can never be transferred. */
  lemma EmptyFileRefused(path: string, destDir: string)
    requires NoWhitespace(Base(path))
    ensures var sent := SendFile(path, "", false, true, true, true, true, true);
      sent.Ok? && ReceiveFromConnection(sent.value, destDir, true, true).err == Some(InvalidFileSize(0))
  {
    var b := Base(path);
    BaseIsOneElement(path);
    var wire := HeaderText(b, 0);
    assert SendFile(path, "", false, true, true, true, true, true) == Ok(wire + "");
    assert wire + "" == wire;
    HeaderRoundTrip(b, 0, "");
    assert ParseHeader(wire) == Some(Parsed(b, 0, ""));
  }

  /** A connection that closes right after the size digits: the header is
      accepted, so the file is created (or truncated) and left empty, and
      the content read fails. */
  lemma StreamEndingAfterSize(name: string, size: int, destDir: string)
    requires name != "" && NoWhitespace(name) && AcceptedName(Base(name))
    requires 0 < size <= MaxFileSize
    ensures ReceiveFromConnection(name + "\n" + IntToDecimal(size), destDir, true, true) ==
      Received(Some(ContentReadFailed), Some(OutputPath(destDir, Base(name))), "")
  {
    HeaderCutAfterSize(name, size);
  }

  /** A connection that closes early leaves a partial file and an error. */
  lemma ShortStreamFails(name: string, size: int, content: string, destDir: string)
    requires name != "" && NoWhitespace(name) && AcceptedName(Base(name))
    requires 0 < size <= MaxFileSize && |content| < size
    ensures var r := ReceiveFromConnection(HeaderText(name, size) + content, destDir, true, true);
      r.err == Some(ContentReadFailed) && r.written == content
  {
    HeaderRoundTrip(name, size, content);
  }
}
