/** The terminal panel: a buffer of output lines and the command being typed,
    the interpreter `executeCommand` that updates them, and
    `extractConsoleLogs`, which pulls the string arguments of `console.log`
    calls out of the editor's code with the regular expression
    `/console\.log\(['"](.+?)['"]\)/g`. The expression is modelled as an
    explicit scanner: `FindFrom` is one call of `exec` from `lastIndex`. */
module Terminal {
  import opened Options
  import opened Strings

  const WelcomeLines: seq<string> := ["> Welcome to CodeGarden Terminal", "> Type \"help\" for available commands"]
  const HelpLine := "> Available commands: help, clear, run"
  const ClearedLine := "> Terminal cleared"
  const RunningLine := "> Running code..."
  const NotFoundPrefix := "> Command not found: "
  const NoOutputText := "No console output found"
  const NoOutputLine := "> " + NoOutputText

  /** The literal part `console\.log\(` of the expression (12 characters). */
  const LogCall := "console.log("

  // ---------------------------------------------------------------------
  // What the expression matches

  /** `['"]`: the two quote characters; opening and closing quote are
      chosen independently. */
  predicate IsQuote(c: char)
  {
    c == '\'' || c == '"'
  }

  /** The characters `.` does not match: the JavaScript line terminators. */
  predicate IsLineTerminator(c: char)
  {
    c == '\n' || c == '\r' || c == '\U{2028}' || c == '\U{2029}'
  }

  /** `console.log(` followed by a quote starts at `p`. */
  predicate OpensAt(s: string, p: nat)
  {
    p + 13 <= |s| && s[p..p + 12] == LogCall && IsQuote(s[p + 12])
  }

  /** `s[c..e]` is a non-empty run without line terminators, followed by a
      quote and `)`. */
  predicate ClosesAt(s: string, c: nat, e: nat)
  {
    && c < e && e + 2 <= |s|
    && (forall j :: c <= j < e ==> !IsLineTerminator(s[j]))
    && IsQuote(s[e]) && s[e + 1] == ')'
  }

  /** The expression matches at `p` with a capture of `k` characters:
      `console.log(`, quote, capture, quote, `)`, 15 + k characters in all. */
  predicate MatchAt(s: string, p: nat, k: nat)
  {
    OpensAt(s, p) && ClosesAt(s, p + 13, p + 13 + k)
  }

  /** A match: where it starts and how long its capture is. */
  datatype Match = Match(start: nat, len: nat)

  /** Index just past a match: where scanning resumes. */
  function End(m: Match): nat
  {
    m.start + 15 + m.len
  }

  /** `m` is what `exec` returns from `lastIndex == from`: the leftmost
      match starting at or after `from`, with the shortest capture there. */
  ghost predicate IsFirstMatch(s: string, from: nat, m: Match)
  {
    && from <= m.start
    && MatchAt(s, m.start, m.len)
    && (forall k: nat :: k < m.len ==> !MatchAt(s, m.start, k))
    && (forall p: nat, k: nat :: from <= p < m.start ==> !MatchAt(s, p, k))
  }

  /** No match starts at or after `from`. */
  ghost predicate NoMatchFrom(s: string, from: nat)
  {
    forall p: nat, k: nat :: from <= p ==> !MatchAt(s, p, k)
  }

  // ---------------------------------------------------------------------
  // The scanner

  /** The lazy `(.+?)`: the capture begins at `c` and currently ends at `e`;
      stop at the first quote followed by `)`, otherwise take one more
      character unless it is a line terminator. */
  function LazyEnd(s: string, c: nat, e: nat): (r: Option<nat>)
    requires c < e <= |s|
    ensures r.Some? ==> e <= r.value && r.value + 2 <= |s|
    decreases |s| - e
  {
    if e + 1 < |s| && IsQuote(s[e]) && s[e + 1] == ')' then Some(e)
    else if e < |s| && !IsLineTerminator(s[e]) then LazyEnd(s, c, e + 1)
    else None
  }

  /** The expression anchored at `p`: the capture length of the match that
      starts there, if any. */
  function MatchLenAt(s: string, p: nat): (r: Option<nat>)
    ensures r.Some? ==> 1 <= r.value && p + 15 + r.value <= |s|
  {
    if OpensAt(s, p) && p + 13 < |s| && !IsLineTerminator(s[p + 13]) then
      match LazyEnd(s, p + 13, p + 14)
      case Some(e) => Some(e - (p + 13))
      case None => None
    else
      None
  }

  /** `regex.exec(s)` with `regex.lastIndex == from`: try every start
      position from `from` onwards. */
  function FindFrom(s: string, from: nat): (r: Option<Match>)
    ensures r.Some? ==> from <= r.value.start && End(r.value) <= |s|
    decreases |s| - from
  {
    if from >= |s| then None
    else
      match MatchLenAt(s, from)
      case Some(k) => Some(Match(from, k))
      case None => FindFrom(s, from + 1)
  }

  /** The successive results of `exec`, each search resuming where the
      previous match ended, until `exec` finds nothing. */
  function Matches(s: string, from: nat): (ms: seq<Match>)
    requires from <= |s|
    ensures forall i :: 0 <= i < |ms| ==> from <= ms[i].start && End(ms[i]) <= |s|
    decreases |s| - from
  {
    match FindFrom(s, from)
    case None => []
    case Some(m) => [m] + Matches(s, End(m))
  }

  /** The captured argument text of a match. */
  function Capture(s: string, m: Match): string
    requires End(m) <= |s|
  {
    s[m.start + 13..m.start + 13 + m.len]
  }

  /** One output line per match: `'> ' + match[1]`. */
  function LinesOf(s: string, ms: seq<Match>): (r: seq<string>)
    requires forall i :: 0 <= i < |ms| ==> End(ms[i]) <= |s|
    ensures |r| == |ms|
    ensures forall i :: 0 <= i < |ms| ==> r[i] == "> " + Capture(s, ms[i])
  {
    if ms == [] then [] else ["> " + Capture(s, ms[0])] + LinesOf(s, ms[1..])
  }

  /** What `extractConsoleLogs(s)` returns. */
  function ConsoleLogLines(s: string): seq<string>
  {
    var ms := Matches(s, 0);
    if ms == [] then [NoOutputLine] else LinesOf(s, ms)
  }

  /** `extractConsoleLogs`: the `while ((match = regex.exec(...)) !== null)`
      loop, pushing one line per match. (`match[1]` is never empty, so the
      `if (match[1])` test always passes.) */
  method ExtractConsoleLogs(sourceCode: string) returns (logs: seq<string>)
    ensures logs == ConsoleLogLines(sourceCode)
  {
    ghost var all := LinesOf(sourceCode, Matches(sourceCode, 0));
    var found: seq<string> := [];
    var lastIndex: nat := 0;
    var m := FindFrom(sourceCode, lastIndex);
    while m.Some?
      invariant lastIndex <= |sourceCode|
      invariant m == FindFrom(sourceCode, lastIndex)
      invariant found + LinesOf(sourceCode, Matches(sourceCode, lastIndex)) == all
      decreases |sourceCode| - lastIndex
    {
      var capture := sourceCode[m.value.start + 13..m.value.start + 13 + m.value.len];
      assert capture == Capture(sourceCode, m.value);
      ResumeAfterMatch(sourceCode, lastIndex, m.value);
      ghost var rest := LinesOf(sourceCode, Matches(sourceCode, End(m.value)));
      assert found + (["> " + capture] + rest) == all;
      assert (found + ["> " + capture]) + rest == found + (["> " + capture] + rest);
      found := found + ["> " + capture];
      lastIndex := End(m.value);
      m := FindFrom(sourceCode, lastIndex);
    }
    assert Matches(sourceCode, lastIndex) == [];
    assert found == all;
    logs := if |found| > 0 then found else [NoOutputLine];
  }

  /** One iteration of the extraction loop: the lines still to come from
      `from` are the current match's line followed by those after it. */
  lemma ResumeAfterMatch(s: string, from: nat, m: Match)
    requires from <= |s| && FindFrom(s, from) == Some(m)
    ensures End(m) <= |s|
    ensures LinesOf(s, Matches(s, from)) == ["> " + Capture(s, m)] + LinesOf(s, Matches(s, End(m)))
  {
    assert Matches(s, from) == [m] + Matches(s, End(m));
    assert Matches(s, from)[1..] == Matches(s, End(m));
  }

  // ---------------------------------------------------------------------
  // The scanner against the expression's meaning

  /** The lazy loop finds the first closing quote-and-parenthesis after a
      run free of line terminators, and finds none only if there is none. */
  lemma {:induction false} LazyEndSpec(s: string, c: nat, e: nat)
    requires c < e <= |s|
    requires forall j :: c <= j < e ==> !IsLineTerminator(s[j])
    ensures LazyEnd(s, c, e).Some? ==>
      ClosesAt(s, c, LazyEnd(s, c, e).value) &&
      forall x: nat :: e <= x < LazyEnd(s, c, e).value ==> !ClosesAt(s, c, x)
    ensures LazyEnd(s, c, e).None? ==> forall x: nat :: e <= x ==> !ClosesAt(s, c, x)
    decreases |s| - e
  {
    if e + 1 < |s| && IsQuote(s[e]) && s[e + 1] == ')' {
    } else if e < |s| && !IsLineTerminator(s[e]) {
      LazyEndSpec(s, c, e + 1);
    } else {
      forall x: nat | e <= x ensures !ClosesAt(s, c, x) {
        if x > e && e < |s| {
          assert IsLineTerminator(s[e]);
        }
      }
    }
  }

  /** The anchored scan finds the match at `p` with the shortest capture,
      and reports none only if no capture length matches there. */
  lemma MatchLenAtSpec(s: string, p: nat)
    ensures MatchLenAt(s, p).Some? ==>
      MatchAt(s, p, MatchLenAt(s, p).value) &&
      forall k: nat :: k < MatchLenAt(s, p).value ==> !MatchAt(s, p, k)
    ensures MatchLenAt(s, p).None? ==> forall k: nat :: !MatchAt(s, p, k)
  {
    if OpensAt(s, p) && p + 13 < |s| && !IsLineTerminator(s[p + 13]) {
      LazyEndSpec(s, p + 13, p + 14);
      forall k: nat | MatchAt(s, p, k) ensures MatchLenAt(s, p).Some? && MatchLenAt(s, p).value <= k {
        assert ClosesAt(s, p + 13, p + 13 + k);
      }
    }
  }

  /** One `exec` from `lastIndex == from` returns the leftmost match at or
      after `from` with its shortest capture, or nothing when there is no
      match at or after `from`. */
  lemma {:induction false} FindFromSpec(s: string, from: nat)
    ensures FindFrom(s, from).Some? ==> IsFirstMatch(s, from, FindFrom(s, from).value)
    ensures FindFrom(s, from).None? ==> NoMatchFrom(s, from)
    decreases |s| - from
  {
    if from < |s| {
      MatchLenAtSpec(s, from);
      if MatchLenAt(s, from).None? {
        FindFromSpec(s, from + 1);
      }
    }
  }

  /** Where the `i`-th search of a global scan from `from` begins. */
  function ResumeAt(from: nat, ms: seq<Match>, i: nat): nat
    requires i <= |ms|
  {
    if i == 0 then from else End(ms[i - 1])
  }

  /** The global search: every match is the first one found from where the
      previous match ended (so the matches are in source order and do not
      overlap), each with its shortest capture, and no match begins after
      the last one. */
  lemma {:induction false} MatchesSpec(s: string, from: nat)
    requires from <= |s|
    ensures forall i :: 0 <= i < |Matches(s, from)| ==>
      IsFirstMatch(s, ResumeAt(from, Matches(s, from), i), Matches(s, from)[i])
    ensures NoMatchFrom(s, ResumeAt(from, Matches(s, from), |Matches(s, from)|))
    decreases |s| - from
  {
    FindFromSpec(s, from);
    if FindFrom(s, from).Some? {
      var m := FindFrom(s, from).value;
      MatchesSpec(s, End(m));
      var ms := Matches(s, from);
      assert ms == [m] + Matches(s, End(m));
      forall i | 0 <= i < |ms|
        ensures IsFirstMatch(s, ResumeAt(from, ms, i), ms[i])
      {
        if i == 0 {
          assert ms[0] == m;
        } else {
          assert ms[i] == Matches(s, End(m))[i - 1];
          if i > 1 {
            assert ms[i - 1] == Matches(s, End(m))[i - 2];
          }
        }
      }
    }
  }

  /** The scan comes back empty exactly when the code holds no match, and
      then `extractConsoleLogs` reports "No console output found". */
  lemma NoMatchIff(s: string)
    ensures Matches(s, 0) == [] <==> NoMatchFrom(s, 0)
    ensures NoMatchFrom(s, 0) ==> ConsoleLogLines(s) == [NoOutputLine]
  {
    FindFromSpec(s, 0);
    if FindFrom(s, 0).Some? {
      var m := FindFrom(s, 0).value;
      assert MatchAt(s, m.start, m.len);
    }
  }

  /** A capture is non-empty and holds no line terminator. */
  lemma CaptureShape(s: string, m: Match)
    requires MatchAt(s, m.start, m.len)
    ensures |Capture(s, m)| >= 1
    ensures forall j :: 0 <= j < |Capture(s, m)| ==> !IsLineTerminator(Capture(s, m)[j])
  {
    forall j | 0 <= j < |Capture(s, m)| ensures !IsLineTerminator(Capture(s, m)[j]) {
      assert Capture(s, m)[j] == s[m.start + 13 + j];
    }
  }

  /** When the code holds a match, `extractConsoleLogs` returns one line per
      match, `> ` followed by a non-empty capture free of line terminators
      that sits between `console.log(` plus a quote and a quote plus `)`. */
  lemma LogLineShape(s: string)
    requires !NoMatchFrom(s, 0)
    ensures ConsoleLogLines(s) == LinesOf(s, Matches(s, 0))
    ensures forall i :: 0 <= i < |Matches(s, 0)| ==>
      var m := Matches(s, 0)[i];
      && MatchAt(s, m.start, m.len)
      && |Capture(s, m)| >= 1
      && (forall j :: 0 <= j < |Capture(s, m)| ==> !IsLineTerminator(Capture(s, m)[j]))
  {
    NoMatchIff(s);
    MatchesSpec(s, 0);
    var ms := Matches(s, 0);
    forall i | 0 <= i < |ms|
      ensures MatchAt(s, ms[i].start, ms[i].len)
      ensures |Capture(s, ms[i])| >= 1
      ensures forall j :: 0 <= j < |Capture(s, ms[i])| ==> !IsLineTerminator(Capture(s, ms[i])[j])
    {
      assert IsFirstMatch(s, ResumeAt(0, ms, i), ms[i]);
      CaptureShape(s, ms[i]);
    }
  }

  /** Code whose only log call prints the "no output" text itself. */
  const LogsNoOutputText := LogCall + "'" + NoOutputText + "')"

  /** Where the pieces of that code sit. */
  lemma LogsNoOutputTextLayout()
    ensures |NoOutputText| == 23 && |LogsNoOutputText| == 38
    ensures LogsNoOutputText[..12] == LogCall && LogsNoOutputText[12] == '\''
    ensures LogsNoOutputText[13..36] == NoOutputText
    ensures LogsNoOutputText[36] == '\'' && LogsNoOutputText[37] == ')'
  {
    var code := LogsNoOutputText;
    assert code == LogCall + "'" + NoOutputText + "')";
    assert |LogCall| == 12;
  }

  lemma LogsNoOutputTextMatch()
    ensures FindFrom(LogsNoOutputText, 0) == Some(Match(0, 23))
  {
    var code := LogsNoOutputText;
    LogsNoOutputTextLayout();
    assert forall c :: c in NoOutputText ==> !IsQuote(c) && !IsLineTerminator(c);
    assert forall x :: 13 <= x < 36 ==> code[x] == NoOutputText[x - 13];
    assert MatchAt(code, 0, 23);
    FindFromSpec(code, 0);
    var m := FindFrom(code, 0).value;
    assert m.start == 0;
  }

  /** The "no output" line is not a reliable signal: code that logs that
      very text produces the same result as code that logs nothing. */
  lemma NoOutputLineIsAmbiguous()
    ensures !NoMatchFrom(LogsNoOutputText, 0)
    ensures ConsoleLogLines(LogsNoOutputText) == ConsoleLogLines("") == [NoOutputLine]
  {
    var code := LogsNoOutputText;
    var m := Match(0, 23);
    LogsNoOutputTextLayout();
    MatchesOfLogsNoOutputText();
    assert MatchAt(code, 0, 23) by {
      FindFromSpec(code, 0);
      LogsNoOutputTextMatch();
    }
    assert LinesOf(code, [m]) == ["> " + Capture(code, m)];
    assert Capture(code, m) == NoOutputText;
    EmptyCodeLogsNothing();
  }

  /** The scan of that code finds the one call and stops at the end. */
  lemma MatchesOfLogsNoOutputText()
    ensures Matches(LogsNoOutputText, 0) == [Match(0, 23)]
  {
    LogsNoOutputTextMatch();
    LogsNoOutputTextLayout();
    assert End(Match(0, 23)) == |LogsNoOutputText|;
    assert Matches(LogsNoOutputText, |LogsNoOutputText|) == [];
  }

  lemma EmptyCodeLogsNothing()
    ensures ConsoleLogLines("") == [NoOutputLine]
  {
    assert FindFrom("", 0) == None;
    assert Matches("", 0) == [];
  }

  /** Every line `extractConsoleLogs` returns is an output line: there is at
      least one, and each begins with `> `. */
  lemma {:induction false} LogLinesArePrompted(s: string)
    ensures |ConsoleLogLines(s)| >= 1
    ensures forall i :: 0 <= i < |ConsoleLogLines(s)| ==> ConsoleLogLines(s)[i][..2] == "> "
  {
    var ms := Matches(s, 0);
    if ms != [] {
      var r := LinesOf(s, ms);
      forall i | 0 <= i < |r| ensures r[i][..2] == "> " {
        assert r[i] == "> " + Capture(s, ms[i]);
      }
    }
  }

  // ---------------------------------------------------------------------
  // The interpreter

  /** The four branches of the `switch` on `command.toLowerCase()`. */
  datatype CommandKind = Help | Clear | Run | Unknown

  /** Which branch a command takes: the whole command, lower-cased but not
      trimmed, must equal the command name. */
  function Classify(command: string): CommandKind
  {
    var lowered := ToLower(command);
    if lowered == "help" then Help
    else if lowered == "clear" then Clear
    else if lowered == "run" then Run
    else Unknown
  }

  /** Case does not matter: a command and its lower-cased form take the
      same branch. */
  lemma ClassifyIgnoresCase(command: string)
    ensures Classify(ToLower(command)) == Classify(command)
  {
    assert ToLower(ToLower(command)) == ToLower(command);
  }

  /** Surrounding blanks are not trimmed before dispatch: a command that
      begins with a space is never recognised. */
  lemma LeadingSpaceIsUnknown(command: string)
    ensures Classify(" " + command) == Unknown
  {
    assert ToLower(" " + command)[0] == ' ';
  }

  /** The three names, in any case, are recognised. */
  lemma UpperCaseNamesRecognised()
    ensures Classify("HELP") == Help && Classify("Clear") == Clear && Classify("rUN") == Run
  {
    assert ToLower("HELP") == "help";
    assert ToLower("Clear") == "clear";
    assert ToLower("rUN") == "run";
  }

  /** The output after `executeCommand` runs a non-blank `command` against
      `output`, with `code` the editor's contents: the command is echoed
      with `$ `, then the branch adds its reply; `clear` replaces everything,
      the echo included. */
  function Respond(output: seq<string>, command: string, code: string): seq<string>
  {
    var echoed := output + ["$ " + command];
    match Classify(command)
    case Help => echoed + [HelpLine]
    case Clear => [ClearedLine]
    case Run => echoed + [RunningLine] + ConsoleLogLines(code)
    case Unknown => echoed + [NotFoundPrefix + command]
  }

  /** Every command but `clear` keeps the earlier output, then echoes the
      command, then adds at least one reply line; `clear` leaves only
      "Terminal cleared". */
  lemma RespondKeepsHistory(output: seq<string>, command: string, code: string)
    ensures Classify(command) != Clear ==>
      && |Respond(output, command, code)| >= |output| + 2
      && Respond(output, command, code)[..|output|] == output
      && Respond(output, command, code)[|output|] == "$ " + command
    ensures Classify(command) == Clear ==> Respond(output, command, code) == [ClearedLine]
  {
    RespondByKind(output, command, code);
    var k := Classify(command);
    if k == Help {
      EchoThen(output, command, [HelpLine]);
    } else if k == Run {
      LogLinesArePrompted(code);
      EchoThen(output, command, [RunningLine] + ConsoleLogLines(code));
    } else if k == Unknown {
      EchoThen(output, command, [NotFoundPrefix + command]);
    }
  }

  /** `Respond` branch by branch: `clear` replaces the output, every other
      branch appends the echo and then its reply. */
  lemma RespondByKind(output: seq<string>, command: string, code: string)
    ensures Classify(command) == Help ==> Respond(output, command, code) == output + ["$ " + command] + [HelpLine]
    ensures Classify(command) == Clear ==> Respond(output, command, code) == [ClearedLine]
    ensures Classify(command) == Run ==>
      Respond(output, command, code) == output + ["$ " + command] + ([RunningLine] + ConsoleLogLines(code))
    ensures Classify(command) == Unknown ==>
      Respond(output, command, code) == output + ["$ " + command] + [NotFoundPrefix + command]
  {
    RespondRun(output, command, code);
  }

  /** The `run` branch, regrouped so that its reply is one sequence. */
  lemma RespondRun(output: seq<string>, command: string, code: string)
    ensures Classify(command) == Run ==>
      Respond(output, command, code) == output + ["$ " + command] + ([RunningLine] + ConsoleLogLines(code))
  {
    var echoed := output + ["$ " + command];
    var logs := ConsoleLogLines(code);
    assert echoed + [RunningLine] + logs == echoed + ([RunningLine] + logs);
  }

  /** Appending the echo and a non-empty reply keeps the old output in
      front, followed by the echo. */
  lemma EchoThen(output: seq<string>, command: string, reply: seq<string>)
    requires |reply| >= 1
    ensures var r := output + ["$ " + command] + reply;
      && |r| >= |output| + 2
      && r[..|output|] == output
      && r[|output|] == "$ " + command
      && r[|r| - 1] == reply[|reply| - 1]
  {
    var r := output + ["$ " + command] + reply;
    assert r == output + (["$ " + command] + reply);
  }

  /** After every command the last line is a reply, never the echo: it
      begins with `> `. */
  lemma RespondEndsWithReply(output: seq<string>, command: string, code: string)
    ensures |Respond(output, command, code)| >= 1
    ensures Respond(output, command, code)[|Respond(output, command, code)| - 1][..2] == "> "
  {
    RespondByKind(output, command, code);
    var k := Classify(command);
    var reply: seq<string>;
    if k == Clear {
      RepliesArePrompted();
      return;
    } else if k == Help {
      reply := [HelpLine];
      RepliesArePrompted();
    } else if k == Run {
      reply := [RunningLine] + ConsoleLogLines(code);
      LastLogLinePrompted(code);
    } else {
      reply := [NotFoundPrefix + command];
      NotFoundLinePrompted(command);
    }
    EchoThen(output, command, reply);
  }

  /** The last line `extractConsoleLogs` returns begins with `> `. */
  lemma LastLogLinePrompted(code: string)
    ensures var reply := [RunningLine] + ConsoleLogLines(code);
      reply[|reply| - 1][..2] == "> "
  {
    LogLinesArePrompted(code);
    var logs := ConsoleLogLines(code);
    assert ([RunningLine] + logs)[|logs|] == logs[|logs| - 1];
  }

  /** The "not found" reply begins with `> `. */
  lemma NotFoundLinePrompted(command: string)
    ensures (NotFoundPrefix + command)[..2] == "> "
  {
    RepliesArePrompted();
    assert (NotFoundPrefix + command)[..2] == NotFoundPrefix[..2];
  }

  /** The fixed reply lines begin with `> `. */
  lemma RepliesArePrompted()
    ensures HelpLine[..2] == "> " && ClearedLine[..2] == "> " && RunningLine[..2] == "> "
    ensures |NotFoundPrefix| >= 2 && NotFoundPrefix[..2] == "> "
  {
    assert HelpLine[..2] == [HelpLine[0], HelpLine[1]];
    assert ClearedLine[..2] == [ClearedLine[0], ClearedLine[1]];
    assert RunningLine[..2] == [RunningLine[0], RunningLine[1]];
    assert NotFoundPrefix[..2] == [NotFoundPrefix[0], NotFoundPrefix[1]];
  }

  /** The terminal panel's state: the lines shown and the command being
      typed. (Whether the panel is expanded only changes its height and is
      not modelled.) */
  class TerminalPanel {
    var output: seq<string>
    var command: string

    /** A new panel shows the two welcome lines and an empty prompt. */
    constructor ()
      ensures output == WelcomeLines && command == ""
    {
      output := WelcomeLines;
      command := "";
    }

    /** Typing in the input field replaces the command. */
    method SetCommand(text: string)
      modifies this
      ensures command == text && output == old(output)
    {
      command := text;
    }

    /** `executeCommand`, run on Enter: a blank command does nothing;
        otherwise the output becomes `Respond` of the old output and the
        prompt is cleared. */
    method ExecuteCommand(code: string)
      modifies this
      ensures Trim(old(command)) == [] ==> output == old(output) && command == old(command)
      ensures Trim(old(command)) != [] ==>
        output == Respond(old(output), old(command), code) && command == ""
    {
      if Trim(command) == [] {
        return;
      }
      output := output + ["$ " + command];
      var kind := Classify(command);
      match kind {
        case Help =>
          output := output + [HelpLine];
        case Clear =>
          output := [ClearedLine];
        case Run =>
          output := output + [RunningLine];
          var logs := ExtractConsoleLogs(code);
          output := output + logs;
        case Unknown =>
          output := output + [NotFoundPrefix + command];
      }
      command := "";
    }

    /** The close button: the output becomes "Terminal cleared" alone; the
        command being typed is kept. */
    method ClearOutput()
      modifies this
      ensures output == [ClearedLine] && command == old(command)
    {
      output := [ClearedLine];
    }
  }
}
