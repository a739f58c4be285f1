/** The interactive front end of go/main.go, without its printing: the
    command-line tokenizer, the interpretation of a tokenized command line,
    the choice of a route to a peer, the quote stripping of the sender and
    the names of the network modes. */
module Cli {
  import opened Common
  import opened MeshCoordinator

  // -----------------------------------------------------------------------
  // parseCommand
  // -----------------------------------------------------------------------

  /** The tokenizer's state between two characters: the finished arguments,
      the argument being built, and the two flags. */
  datatype Scan = Scan(args: seq<string>, current: string, inQuotes: bool, escapeNext: bool)

  const Start: Scan := Scan([], "", false, false)

  /** One character of `parseCommand`: an escaped character is copied, a
      backslash escapes the next one, a double quote toggles quoting, an
      unquoted space ends a non-empty argument, and anything else is
      copied. */
  function Step(st: Scan, c: char): Scan
  {
    if st.escapeNext then st.(current := st.current + [c], escapeNext := false)
    else if c == '\\' then st.(escapeNext := true)
    else if c == '"' then st.(inQuotes := !st.inQuotes)
    else if c == ' ' && !st.inQuotes then
      if |st.current| > 0 then st.(args := st.args + [st.current], current := "") else st
    else st.(current := st.current + [c])
  }

  /** The state after feeding the characters of `s`, in order, from `st`. */
  function Run(st: Scan, s: string): Scan
    decreases |s|
  {
    if s == [] then st else Run(Step(st, s[0]), s[1..])
  }

  /** The end of the input: a non-empty pending argument is kept. */
  function Finish(st: Scan): seq<string>
  {
    if |st.current| > 0 then st.args + [st.current] else st.args
  }

  /** What `parseCommand` returns for `cmd`. */
  function Tokenize(cmd: string): seq<string>
  {
    Finish(Run(Start, cmd))
  }

  /** `parseCommand`: the character loop with its two flags and builder. */
  method ParseCommand(cmd: string) returns (args: seq<string>)
    ensures args == Tokenize(cmd)
  {
    args := [];
    var current: string := "";
    var inQuotes := false;
    var escapeNext := false;
    var i := 0;
    while i < |cmd|
      invariant 0 <= i <= |cmd|
      invariant Run(Scan(args, current, inQuotes, escapeNext), cmd[i..]) == Run(Start, cmd)
    {
      var c := cmd[i];
      assert cmd[i..][0] == c && cmd[i..][1..] == cmd[i + 1..];
      i := i + 1;
      if escapeNext {
        current := current + [c];
        escapeNext := false;
        continue;
      }
      if c == '\\' {
        escapeNext := true;
        continue;
      }
      if c == '"' {
        inQuotes := !inQuotes;
        continue;
      }
      if c == ' ' && !inQuotes {
        if |current| > 0 {
          args := args + [current];
          current := "";
        }
        continue;
      }
      current := current + [c];
    }
    assert cmd[i..] == [];
    if |current| > 0 {
      args := args + [current];
    }
  }

  lemma {:induction false} RunAppend(st: Scan, a: string, b: string)
    ensures Run(st, a + b) == Run(Run(st, a), b)
    decreases |a|
  {
    if a == [] {
      assert a + b == b;
    } else {
      assert (a + b)[0] == a[0] && (a + b)[1..] == a[1..] + b;
      RunAppend(Step(st, a[0]), a[1..], b);
    }
  }

  predicate NoEmptyArgument(args: seq<string>)
  {
    forall k :: 0 <= k < |args| ==> args[k] != ""
  }

  lemma {:induction false} RunKeepsArgumentsNonEmpty(st: Scan, s: string)
    requires NoEmptyArgument(st.args)
    ensures NoEmptyArgument(Run(st, s).args)
    decreases |s|
  {
    if s != [] {
      RunKeepsArgumentsNonEmpty(Step(st, s[0]), s[1..]);
    }
  }

  /** `parseCommand` never returns an empty argument, whatever the input:
      empty quotes, repeated spaces and lone backslashes produce nothing. */
  lemma TokenizeHasNoEmptyArgument(cmd: string)
    ensures NoEmptyArgument(Tokenize(cmd))
  {
    RunKeepsArgumentsNonEmpty(Start, cmd);
  }

  /** Neither a double quote nor a backslash. */
  predicate Unmarked(s: string)
  {
    forall k :: 0 <= k < |s| ==> s[k] != '"' && s[k] != '\\'
  }

  predicate NoSpace(s: string)
  {
    forall k :: 0 <= k < |s| ==> s[k] != ' '
  }

  /** Between quotes, every character other than a quote or a backslash,
      spaces included, goes into the current argument. */
  lemma {:induction false} RunQuoted(st: Scan, s: string)
    requires st.inQuotes && !st.escapeNext && Unmarked(s)
    ensures Run(st, s) == st.(current := st.current + s)
    decreases |s|
  {
    if s != [] {
      assert st.current + [s[0]] + s[1..] == st.current + s;
      RunQuoted(Step(st, s[0]), s[1..]);
    }
  }

  lemma RunOne(st: Scan, c: char)
    ensures Run(st, [c]) == Step(st, c)
  {
    assert [c][0] == c && [c][1..] == [];
  }

  /** A quoted argument keeps its spaces. */
  lemma TokenizeQuoted(s: string)
    requires s != "" && Unmarked(s)
    ensures Tokenize("\"" + s + "\"") == [s]
  {
    var q := Step(Start, '"');
    RunOne(Start, '"');
    assert "\"" + s + "\"" == ['"'] + (s + ['"']);
    RunAppend(Start, ['"'], s + ['"']);
    RunAppend(q, s, ['"']);
    RunQuoted(q, s);
    RunOne(q.(current := s), '"');
    assert Run(Start, "\"" + s + "\"") == Scan([], s, false, false);
  }

  /** An opening quote that is never closed still yields what follows it. */
  lemma TokenizeUnterminatedQuote(s: string)
    requires s != "" && Unmarked(s)
    ensures Tokenize("\"" + s) == [s]
  {
    var q := Step(Start, '"');
    RunOne(Start, '"');
    assert "\"" + s == ['"'] + s;
    RunAppend(Start, ['"'], s);
    RunQuoted(q, s);
    assert "" + s == s;
    assert Run(Start, "\"" + s) == Scan([], s, true, false);
  }

  /** A backslash at the very end is dropped: the result is that of the
      command without it, unless that command itself ended by escaping. */
  lemma TrailingBackslashDropped(cmd: string)
    requires !Run(Start, cmd).escapeNext
    ensures Tokenize(cmd + "\\") == Tokenize(cmd)
  {
    RunAppend(Start, cmd, "\\");
  }

  /** A backslash copies the next character literally, even a space, a
      quote or another backslash: two unquoted words joined by an escaped
      character are one argument. */
  lemma EscapedCharacterJoinsWords(w1: string, c: char, w2: string)
    requires Unmarked(w1) && NoSpace(w1) && Unmarked(w2) && NoSpace(w2)
    ensures Tokenize(w1 + ['\\', c] + w2) == [w1 + [c] + w2]
  {
    var st1 := Run(Start, w1);
    RunPlain(Start, w1);
    assert st1 == Start.(current := w1);
    RunAppend(Start, w1, ['\\', c] + w2);
    RunAppend(st1, ['\\', c], w2);
    var st2 := Run(st1, ['\\', c]);
    assert st2 == st1.(current := w1 + [c]) by {
      assert ['\\', c] == ['\\'] + [c];
      RunAppend(st1, ['\\'], [c]);
      RunOne(st1, '\\');
      RunOne(Step(st1, '\\'), c);
    }
    RunPlain(st2, w2);
    assert w1 + ['\\', c] + w2 == w1 + (['\\', c] + w2);
  }

  /** Outside quotes, characters other than spaces, quotes and backslashes
      go into the current argument. */
  lemma {:induction false} RunPlain(st: Scan, s: string)
    requires !st.inQuotes && !st.escapeNext && Unmarked(s) && NoSpace(s)
    ensures Run(st, s) == st.(current := st.current + s)
    decreases |s|
  {
    if s != [] {
      assert st.current + [s[0]] + s[1..] == st.current + s;
      RunPlain(Step(st, s[0]), s[1..]);
    }
  }

  // A reference for commands without quotes or backslashes: the fields of
  // the text between spaces.

  /** The longest prefix of `s` without a space. */
  function FirstWord(s: string): (w: string)
    ensures |w| <= |s| && w == s[..|w|] && NoSpace(w)
    ensures |w| < |s| ==> s[|w|] == ' '
  {
    if s == [] || s[0] == ' ' then [] else [s[0]] + FirstWord(s[1..])
  }

  /** The non-empty space-separated fields of `s`. */
  function Fields(s: string): seq<string>
    decreases |s|
  {
    if s == [] then []
    else if s[0] == ' ' then Fields(s[1..])
    else
      var w := FirstWord(s);
      [w] + Fields(s[|w|..])
  }

  lemma {:induction false} FirstWordOfWordThenSpace(w: string, rest: string)
    requires NoSpace(w) && rest != [] && rest[0] == ' '
    ensures FirstWord(w + rest) == w
    decreases |w|
  {
    if w != [] {
      assert (w + rest)[1..] == w[1..] + rest;
      FirstWordOfWordThenSpace(w[1..], rest);
    }
  }

  lemma {:induction false} FirstWordOfWord(w: string)
    requires NoSpace(w)
    ensures FirstWord(w) == w
    decreases |w|
  {
    if w != [] {
      FirstWordOfWord(w[1..]);
    }
  }

  /** The generalisation behind `TokenizeUnquotedIsFields`: from a state
      outside quotes whose pending argument is `cur`, the rest of the run
      adds the fields of `cur + s`. */
  lemma {:induction false} FinishRunIsFields(args: seq<string>, cur: string, s: string)
    requires NoSpace(cur) && Unmarked(s)
    ensures Finish(Run(Scan(args, cur, false, false), s)) == args + Fields(cur + s)
    decreases |s|
  {
    if s == [] {
      assert cur + s == cur;
      FinishPending(args, cur);
    } else if s[0] == ' ' && cur == [] {
      FinishRunIsFields(args, "", s[1..]);
      SpaceSkipped(args, s);
    } else if s[0] == ' ' {
      FinishRunIsFields(args + [cur], "", s[1..]);
      SpaceEndsArgument(args, cur, s);
    } else {
      NoSpaceSnoc(cur, s[0]);
      FinishRunIsFields(args, cur + [s[0]], s[1..]);
      LetterCase(args, cur, s);
    }
  }

  /** A space with no pending argument is skipped. */
  lemma SpaceSkipped(args: seq<string>, s: string)
    requires s != [] && s[0] == ' '
    requires Finish(Run(Scan(args, "", false, false), s[1..])) == args + Fields("" + s[1..])
    ensures Finish(Run(Scan(args, "", false, false), s)) == args + Fields("" + s)
  {
    assert Run(Scan(args, "", false, false), s) == Run(Scan(args, "", false, false), s[1..]);
    assert "" + s == s && "" + s[1..] == s[1..];
  }

  /** A space after a pending argument ends it. */
  lemma SpaceEndsArgument(args: seq<string>, cur: string, s: string)
    requires cur != [] && NoSpace(cur) && s != [] && s[0] == ' '
    requires Finish(Run(Scan(args + [cur], "", false, false), s[1..])) == (args + [cur]) + Fields("" + s[1..])
    ensures Finish(Run(Scan(args, cur, false, false), s)) == args + Fields(cur + s)
  {
    RunSpaceAfterArgument(args, cur, s);
    FieldsAfterArgument(cur, s);
    SeqAssoc(args, [cur], Fields(s[1..]));
    assert "" + s[1..] == s[1..];
  }

  lemma RunSpaceAfterArgument(args: seq<string>, cur: string, s: string)
    requires cur != [] && s != [] && s[0] == ' '
    ensures Run(Scan(args, cur, false, false), s) == Run(Scan(args + [cur], "", false, false), s[1..])
  {
  }

  lemma FieldsAfterArgument(cur: string, s: string)
    requires cur != [] && NoSpace(cur) && s != [] && s[0] == ' '
    ensures Fields(cur + s) == [cur] + Fields(s[1..])
  {
    assert cur + s == cur + " " + s[1..];
    FieldsOfWords(cur, s[1..]);
  }

  lemma SeqAssoc<T>(a: seq<T>, b: seq<T>, c: seq<T>)
    ensures a + (b + c) == (a + b) + c
  {
  }

  /** Any other unmarked character extends the pending argument. */
  lemma LetterCase(args: seq<string>, cur: string, s: string)
    requires s != [] && s[0] != ' ' && s[0] != '"' && s[0] != '\\'
    requires Finish(Run(Scan(args, cur + [s[0]], false, false), s[1..])) == args + Fields(cur + [s[0]] + s[1..])
    ensures Finish(Run(Scan(args, cur, false, false), s)) == args + Fields(cur + s)
  {
    assert cur + [s[0]] + s[1..] == cur + s;
  }

  lemma FinishPending(args: seq<string>, cur: string)
    requires NoSpace(cur)
    ensures Finish(Scan(args, cur, false, false)) == args + Fields(cur)
  {
    if cur != [] {
      FieldsOfWord(cur);
    }
  }

  lemma NoSpaceSnoc(cur: string, c: char)
    requires NoSpace(cur) && c != ' '
    ensures NoSpace(cur + [c])
  {
  }

  /** Without quotes or backslashes, `parseCommand` is exactly the
      splitting of the line at spaces into non-empty fields. */
  lemma TokenizeUnquotedIsFields(cmd: string)
    requires Unmarked(cmd)
    ensures Tokenize(cmd) == Fields(cmd)
  {
    FinishRunIsFields([], "", cmd);
    assert "" + cmd == cmd;
  }

  // -----------------------------------------------------------------------
  // findBestRoute
  // -----------------------------------------------------------------------

  /** Route `i` is the first route of hop count 1. */
  predicate IsFirstDirect(routes: seq<Route>, i: int)
  {
    0 <= i < |routes| && routes[i].hopCount == 1 &&
    forall j :: 0 <= j < i ==> routes[j].hopCount != 1
  }

  /** Route `i` has the highest quality, and every earlier route a lower
      one. */
  predicate IsEarliestBest(routes: seq<Route>, i: int)
  {
    0 <= i < |routes| &&
    (forall j :: 0 <= j < |routes| ==> routes[j].quality <= routes[i].quality) &&
    forall j :: 0 <= j < i ==> routes[j].quality < routes[i].quality
  }

  /** `findBestRoute`: the first route of hop count 1 whatever its quality;
      failing that, the earliest route of highest quality. The caller
      guarantees at least one route. */
  method FindBestRoute(routes: seq<Route>) returns (best: Route)
    requires |routes| > 0
    ensures best in routes
    ensures (exists i :: 0 <= i < |routes| && routes[i].hopCount == 1) ==>
      exists i :: IsFirstDirect(routes, i) && best == routes[i]
    ensures (forall i :: 0 <= i < |routes| ==> routes[i].hopCount != 1) ==>
      exists i :: IsEarliestBest(routes, i) && best == routes[i]
  {
    best := routes[0];
    var i := 0;
    while i < |routes|
      invariant 0 <= i <= |routes|
      invariant forall j :: 0 <= j < i ==> routes[j].hopCount != 1
    {
      if routes[i].hopCount == 1 {
        assert IsFirstDirect(routes, i);
        return routes[i];
      }
      i := i + 1;
    }

    ghost var b := 0;
    i := 0;
    while i < |routes|
      invariant 0 <= i <= |routes|
      invariant 0 <= b < |routes| && b <= i && best == routes[b]
      invariant forall j :: 0 <= j < i ==> routes[j].quality <= best.quality
      invariant forall j :: 0 <= j < b ==> routes[j].quality < best.quality
    {
      if routes[i].quality > best.quality {
        best := routes[i];
        b := i;
      }
      i := i + 1;
    }
    assert IsEarliestBest(routes, b);
  }

  // -----------------------------------------------------------------------
  // executeCommand: what a tokenized command line asks for
  // -----------------------------------------------------------------------

  datatype Action =
    | Nothing
    | StartNode
    | ScanNetwork
    | ListKnownPeers
    | ShowInstall
    | ShowHelp
    | ShowDownload
    | Receive(port: int, destDir: string)
    | Send(target: string, port: int, filePath: string)
    | UpdateCheck
    | UpdateInstall
    | UpdateAuto(enable: bool)
    | Usage(command: string)
    | InvalidPort(arg: string)
    | PortOutOfRange(port: int)
    | UnknownUpdateSubcommand(sub: string)
    | UnknownCommand(command: string)

  /** The argument checks of `executeCommand`, deciding what it goes on to
      do (or which message it prints) for the arguments `args`. */
  function Interpret(args: seq<string>): (a: Action)
    ensures a.Receive? <==>
      |args| > 0 && args[0] == "receive" && 2 <= |args| <= 3 &&
      ParseInt(args[1]).Some? && 1 <= ParseInt(args[1]).value <= 65535
    ensures a.Receive? ==>
      a.port == ParseInt(args[1]).value && a.destDir == (if |args| == 3 then args[2] else ".")
    ensures a.Send? <==>
      |args| == 4 && args[0] == "send" && ParseInt(args[2]).Some?
    ensures a.Send? ==>
      a.target == args[1] && a.port == ParseInt(args[2]).value && a.filePath == args[3]
    ensures a.UpdateAuto? <==>
      |args| >= 3 && args[0] == "update" && args[1] == "auto" &&
      (args[2] == "--enable" || args[2] == "--disable")
    ensures a.UpdateAuto? ==> (a.enable <==> args[2] == "--enable")
    ensures a == Nothing <==> args == []
  {
    if args == [] then Nothing
    else
      var command := args[0];
      if command == "start" then StartNode
      else if command == "scan" then ScanNetwork
      else if command == "list" then ListKnownPeers
      else if command == "install" || command == "--install" then ShowInstall
      else if command == "receive" then
        if |args| < 2 || |args| > 3 then Usage(command)
        else
          match ParseInt(args[1])
          case None => InvalidPort(args[1])
          case Some(port) =>
            if port < 1 || port > 65535 then PortOutOfRange(port)
            else Receive(port, if |args| == 3 then args[2] else ".")
      else if command == "send" then
        if |args| != 4 then Usage(command)
        else
          match ParseInt(args[2])
          case None => InvalidPort(args[2])
          case Some(port) => Send(args[1], port, args[3])
      else if command == "help" then ShowHelp
      else if command == "update" then
        if |args| < 2 then Usage(command)
        else if args[1] == "check" then UpdateCheck
        else if args[1] == "install" then UpdateInstall
        else if args[1] == "auto" then
          if |args| < 3 || (args[2] != "--enable" && args[2] != "--disable") then Usage("update auto")
          else UpdateAuto(args[2] == "--enable")
        else UnknownUpdateSubcommand(args[1])
      else if command == "download" then ShowDownload
      else UnknownCommand(command)
  }

  /** A port printed in decimal is accepted back by `receive`, with the
      current directory as the default destination. */
  lemma ReceiveRoundTrip(port: int, dest: seq<string>)
    requires 1 <= port <= 65535 && |dest| <= 1
    ensures Interpret(["receive", IntToDecimal(port)] + dest) ==
      Receive(port, if dest == [] then "." else dest[0])
  {
    DecimalRoundTrip(port);
    var args := ["receive", IntToDecimal(port)] + dest;
    assert args[1] == IntToDecimal(port);
  }

  /** `send` checks only that its port is a number: a port outside
      1..65535 is passed on as it is. */
  lemma SendKeepsAnyPort(target: string, port: int, path: string)
    requires InInt64(port)
    ensures Interpret(["send", target, IntToDecimal(port), path]) == Send(target, port, path)
  {
    DecimalRoundTrip(port);
  }

  /** A `receive` line that the tokenizer splits into three fields is
      interpreted from those fields. */
  lemma ReceiveFromCommandLine(port: int, dir: string)
    requires 1 <= port <= 65535 && dir != "" && Unmarked(dir) && NoSpace(dir)
    ensures Interpret(Tokenize("receive " + IntToDecimal(port) + " " + dir)) == Receive(port, dir)
  {
    var p := IntToDecimal(port);
    DigitsAreWord(p);
    TokenizeThreeWords("receive", p, dir);
    assert "receive" + " " + p + " " + dir == "receive " + p + " " + dir;
    ReceiveRoundTrip(port, [dir]);
    assert ["receive", p] + [dir] == ["receive", p, dir];
  }

  /** Three unmarked words separated by single spaces are three
      arguments. */
  lemma TokenizeThreeWords(a: string, b: string, c: string)
    requires a != "" && b != "" && c != ""
    requires Unmarked(a) && Unmarked(b) && Unmarked(c)
    requires NoSpace(a) && NoSpace(b) && NoSpace(c)
    ensures Tokenize(a + " " + b + " " + c) == [a, b, c]
  {
    var tail := b + " " + c;
    UnmarkedAround(b, c);
    UnmarkedAround(a, tail);
    assert a + " " + tail == a + " " + b + " " + c;
    TokenizeUnquotedIsFields(a + " " + tail);
    FieldsOfWords(a, tail);
    FieldsOfWords(b, c);
    FieldsOfWord(c);
  }

  lemma DigitsAreWord(s: string)
    requires AllDigits(s)
    ensures Unmarked(s) && NoSpace(s)
  {
  }

  lemma UnmarkedAround(a: string, b: string)
    requires Unmarked(a) && Unmarked(b)
    ensures Unmarked(a + " " + b)
  {
    var s := a + " " + b;
    forall k | 0 <= k < |s|
      ensures s[k] != '"' && s[k] != '\\'
    {
      if k < |a| {
        assert s[k] == a[k];
      } else if k > |a| {
        assert s[k] == b[k - |a| - 1];
      }
    }
  }

  lemma FieldsOfWords(w: string, rest: string)
    requires w != "" && NoSpace(w)
    ensures Fields(w + " " + rest) == [w] + Fields(rest)
  {
    var s := w + " " + rest;
    FirstWordOfWordThenSpace(w, " " + rest);
    assert w + " " + rest == w + (" " + rest);
    assert s[|w|..] == " " + rest;
    assert (" " + rest)[1..] == rest;
  }

  lemma FieldsOfWord(w: string)
    requires w != "" && NoSpace(w)
    ensures Fields(w) == [w]
  {
    FirstWordOfWord(w);
    assert w[|w|..] == [];
  }

  // -----------------------------------------------------------------------
  // startSender: quote stripping
  // -----------------------------------------------------------------------

  /** The quote stripping of `startSender` as written: a path that begins
      and ends with a double quote loses both. For the one-character path
      made of a single quote the slice has its start after its end, which
      panics at run time; `None` stands for that panic. */
  function StripQuotesAsWritten(path: string): (r: Option<string>)
    ensures r.None? <==> path == "\""
  {
    if HasPrefix(path, "\"") && HasSuffix(path, "\"") then
      if |path| < 2 then None else Some(path[1..|path| - 1])
    else Some(path)
  }

  /** The one-character path `"` makes the stripping panic. */
  lemma LoneQuotePanics()
    ensures StripQuotesAsWritten("\"") == None
  {
  }

  /** The stripping as intended: one surrounding pair of quotes is removed,
      and only when both are present as two distinct characters. */
  function StripQuotes(path: string): (r: string)
    ensures |r| <= |path|
  {
    if |path| >= 2 && path[0] == '"' && path[|path| - 1] == '"' then path[1..|path| - 1] else path
  }

  /** Stripping removes exactly one surrounding pair. */
  lemma StripQuotesOfQuoted(s: string)
    ensures StripQuotes("\"" + s + "\"") == s
  {
  }

  /** A path that is not enclosed in a pair of quotes is left alone. */
  lemma StripQuotesKeepsUnquoted(path: string)
    requires path == [] || path[0] != '"' || path[|path| - 1] != '"'
    ensures StripQuotes(path) == path
  {
  }

  /** Wherever the code as written does not panic, it agrees with the
      corrected stripping. */
  lemma StripQuotesAgrees(path: string)
    requires StripQuotesAsWritten(path).Some?
    ensures StripQuotesAsWritten(path).value == StripQuotes(path)
  {
    if HasPrefix(path, "\"") && HasSuffix(path, "\"") {
      assert path[..1] == "\"" && path[|path| - 1..] == "\"";
      assert path[0] == '"' && path[|path| - 1] == '"';
    }
  }

  // -----------------------------------------------------------------------
  // getNetworkModeString
  // -----------------------------------------------------------------------

  /** `getNetworkModeString` over the integer value of a mode. */
  function NetworkModeString(code: int): (s: string)
    ensures s == "Unknown" <==> code !in {0, 1, 2}
  {
    if code == ModeCode(DirectMode) then "Direct (P2P connections available)"
    else if code == ModeCode(RelayMode) then "Relay (Using relay servers)"
    else if code == ModeCode(MixedMode) then "Mixed (Some direct, some relayed)"
    else "Unknown"
  }

  /** Every mode the coordinator can be in has its own description. */
  lemma ModeStringsDistinct(m1: NetworkMode, m2: NetworkMode)
    ensures NetworkModeString(ModeCode(m1)) != "Unknown"
    ensures m1 != m2 ==> NetworkModeString(ModeCode(m1)) != NetworkModeString(ModeCode(m2))
  {
  }
}
