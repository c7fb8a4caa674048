/** `GET /api/coturn-check`: decide whether coturn is installed from `turnserver -V` and, when
    that fails, `which turnserver`, extracting the version with the pattern
    /version\s*([\d\w.-]+(?:'[^']+')?)/i. */
module CoturnCheckRoute {
  import opened Text
  import opened Http

  /** `[\d\w.-]`: an ASCII letter or digit, '_', '.' or '-'. */
  predicate IsVersionChar(c: char) {
    ('0' <= c <= '9') || ('a' <= c <= 'z') || ('A' <= c <= 'Z') || c == '_' || c == '.' || c == '-'
  }

  /** Case folding under the `i` flag without `u`: only ASCII letters fold. */
  function Fold(c: char): char {
    if 'A' <= c <= 'Z' then (c as int + 32) as char else c
  }

  /** "version", in any mix of letter cases, starts at `i`. */
  predicate KeywordAt(s: string, i: nat) {
    && i + 7 <= |s|
    && Fold(s[i]) == 'v' && Fold(s[i + 1]) == 'e' && Fold(s[i + 2]) == 'r' && Fold(s[i + 3]) == 's'
    && Fold(s[i + 4]) == 'i' && Fold(s[i + 5]) == 'o' && Fold(s[i + 6]) == 'n'
  }

  /** `\s*`: the end of the run of white space starting at `j`. */
  function SkipSpace(s: string, j: nat): (k: nat)
    requires j <= |s|
    ensures j <= k <= |s|
    ensures forall m :: j <= m < k ==> IsSpace(s[m])
    ensures k == |s| || !IsSpace(s[k])
    decreases |s| - j
  {
    if j < |s| && IsSpace(s[j]) then SkipSpace(s, j + 1) else j
  }

  /** `[\d\w.-]*`, greedy: the end of the run of version characters starting at `j`. */
  function RunEnd(s: string, j: nat): (k: nat)
    requires j <= |s|
    ensures j <= k <= |s|
    ensures forall m :: j <= m < k ==> IsVersionChar(s[m])
    ensures k == |s| || !IsVersionChar(s[k])
    decreases |s| - j
  {
    if j < |s| && IsVersionChar(s[j]) then RunEnd(s, j + 1) else j
  }

  /** The first quote at or after `j`, or `|s|` when there is none. */
  function NextQuote(s: string, j: nat): (k: nat)
    requires j <= |s|
    ensures j <= k <= |s|
    ensures forall m :: j <= m < k ==> s[m] != '\''
    ensures k < |s| ==> s[k] == '\''
    decreases |s| - j
  {
    if j < |s| && s[j] != '\'' then NextQuote(s, j + 1) else j
  }

  /** The captured group when the pattern matches at `i`: "version", white space, a non-empty
      maximal run of version characters, and, when a quote follows the run at once, the quoted
      text up to the next quote if it is not empty. */
  function MatchAt(s: string, i: nat): (m: Option<string>)
    ensures m.Some? ==> KeywordAt(s, i)
    ensures m.Some? ==> m.value != [] && IsVersionChar(m.value[0])
    ensures m.Some? ==> IsVersionChar(m.value[|m.value| - 1]) || m.value[|m.value| - 1] == '\''
  {
    if !KeywordAt(s, i) then None
    else
      var a := SkipSpace(s, i + 7);
      var b := RunEnd(s, a);
      if a == b then None
      else if b < |s| && s[b] == '\'' && NextQuote(s, b + 1) < |s| && NextQuote(s, b + 1) > b + 1 then
        Some(s[a..NextQuote(s, b + 1) + 1])
      else Some(s[a..b])
  }

  /** A captured version is not empty and has white space at neither end. */
  lemma MatchIsTrimmed(s: string, i: nat)
    requires MatchAt(s, i).Some?
    ensures Trimmed(MatchAt(s, i).value)
  {
  }

  /** The leftmost match at or after `i`. */
  function Scan(s: string, i: nat): (r: Option<string>)
    ensures r.Some? ==> r.value != [] && Trimmed(r.value)
    decreases |s| - i
  {
    if i + 7 > |s| then None
    else match MatchAt(s, i)
      case Some(v) => MatchIsTrimmed(s, i); Some(v)
      case None => Scan(s, i + 1)
  }

  /** `output.match(...)` and its group 1: the capture of the leftmost match. */
  function ExtractVersion(output: string): (r: Option<string>)
    ensures r.Some? ==> r.value != [] && Trimmed(r.value)
  {
    Scan(output, 0)
  }

  /** The scan finds the leftmost position where the pattern matches ... */
  lemma {:induction false} ScanIsLeftmost(s: string, i: nat, j: nat)
    requires i <= j && MatchAt(s, j).Some?
    requires forall k :: i <= k < j ==> MatchAt(s, k).None?
    ensures Scan(s, i) == MatchAt(s, j)
    decreases j - i
  {
    if i < j {
      ScanIsLeftmost(s, i + 1, j);
    }
  }

  /** ... and finds nothing exactly when the pattern matches nowhere. */
  lemma {:induction false} ScanNone(s: string, i: nat)
    ensures Scan(s, i).None? <==> forall k :: i <= k ==> MatchAt(s, k).None?
    decreases |s| - i
  {
    if i + 7 <= |s| {
      ScanNone(s, i + 1);
      if Scan(s, i).None? {
        forall k | i <= k ensures MatchAt(s, k).None? {
          if k > i {
            assert i + 1 <= k;
          }
        }
      }
    }
  }

  /** Trimming the captured version changes nothing. */
  lemma VersionTrimIsIdentity(output: string)
    requires ExtractVersion(output).Some?
    ensures Trim(ExtractVersion(output).value) == ExtractVersion(output).value
  {
    TrimIdentity(ExtractVersion(output).value);
  }

  /** The keyword starts at no position in `[i, j)`. */
  predicate NoKeywordIn(s: string, i: nat, j: nat)
    decreases j - i
  {
    i >= j || (!KeywordAt(s, i) && NoKeywordIn(s, i + 1, j))
  }

  /** Positions where the keyword does not start pass the scan on. */
  lemma {:induction false} ScanSkips(s: string, i: nat, j: nat)
    requires i <= j && j + 7 <= |s| && NoKeywordIn(s, i, j)
    ensures Scan(s, i) == Scan(s, j)
    decreases j - i
  {
    if i < j {
      ScanSkips(s, i + 1, j);
    }
  }

  lemma PlainOutputHasNoEarlierKeyword()
    ensures NoKeywordIn("turnserver version 4.6.2", 0, 11)
  {
  }

  lemma PlainOutputMatchesAtKeyword(s: string)
    requires s == "turnserver version 4.6.2"
    ensures MatchAt(s, 11) == Some("4.6.2")
  {
    assert KeywordAt(s, 11);
    assert SkipSpace(s, 18) == 19;
    assert RunEnd(s, 19) == 24;
    assert s[19..24] == "4.6.2";
  }

  /** The output given as an example beside the pattern. */
  lemma PlainVersionExample(s: string)
    requires s == "turnserver version 4.6.2"
    ensures ExtractVersion(s) == Some("4.6.2")
  {
    PlainOutputHasNoEarlierKeyword();
    ScanSkips(s, 0, 11);
    PlainOutputMatchesAtKeyword(s);
  }

  lemma BannerHasNoKeywordFrom12(s: string)
    requires s == "Coturn TURN Server version 4.5.2 'dan Eider'"
    ensures NoKeywordIn(s, 12, 19)
  {
    assert NoKeywordIn(s, 18, 19); assert NoKeywordIn(s, 17, 19); assert NoKeywordIn(s, 16, 19);
    assert NoKeywordIn(s, 15, 19); assert NoKeywordIn(s, 14, 19); assert NoKeywordIn(s, 13, 19);
    assert NoKeywordIn(s, 12, 19);
  }

  lemma BannerHasNoKeywordFrom6(s: string)
    requires s == "Coturn TURN Server version 4.5.2 'dan Eider'"
    ensures NoKeywordIn(s, 6, 19)
  {
    BannerHasNoKeywordFrom12(s);
    assert NoKeywordIn(s, 11, 19); assert NoKeywordIn(s, 10, 19); assert NoKeywordIn(s, 9, 19);
    assert NoKeywordIn(s, 8, 19); assert NoKeywordIn(s, 7, 19); assert NoKeywordIn(s, 6, 19);
  }

  lemma BannerHasNoEarlierKeyword(s: string)
    requires s == "Coturn TURN Server version 4.5.2 'dan Eider'"
    ensures NoKeywordIn(s, 0, 19)
  {
    BannerHasNoKeywordFrom6(s);
    assert NoKeywordIn(s, 5, 19); assert NoKeywordIn(s, 4, 19); assert NoKeywordIn(s, 3, 19);
    assert NoKeywordIn(s, 2, 19); assert NoKeywordIn(s, 1, 19); assert NoKeywordIn(s, 0, 19);
  }

  lemma BannerMatchesAtKeyword(s: string)
    requires s == "Coturn TURN Server version 4.5.2 'dan Eider'"
    ensures MatchAt(s, 19) == Some("4.5.2")
  {
    assert KeywordAt(s, 19);
    assert SkipSpace(s, 26) == 27;
    assert RunEnd(s, 32) == 32; assert RunEnd(s, 31) == 32; assert RunEnd(s, 30) == 32;
    assert RunEnd(s, 29) == 32; assert RunEnd(s, 28) == 32; assert RunEnd(s, 27) == 32;
    assert s[27..32] == "4.5.2";
  }

  /** A release name after a space is not part of the version. */
  lemma BannerVersionExample(s: string)
    requires s == "Coturn TURN Server version 4.5.2 'dan Eider'"
    ensures ExtractVersion(s) == Some("4.5.2")
  {
    BannerHasNoEarlierKeyword(s);
    ScanSkips(s, 0, 19);
    BannerMatchesAtKeyword(s);
  }

  lemma QuotedNameRun(s: string)
    requires s == "Version 4.5.2'dan Eider'"
    ensures RunEnd(s, 8) == 13
  {
    assert RunEnd(s, 13) == 13; assert RunEnd(s, 12) == 13; assert RunEnd(s, 11) == 13;
    assert RunEnd(s, 10) == 13; assert RunEnd(s, 9) == 13; assert RunEnd(s, 8) == 13;
  }

  lemma QuotedNameClose(s: string)
    requires s == "Version 4.5.2'dan Eider'"
    ensures NextQuote(s, 14) == 23
  {
    assert NextQuote(s, 23) == 23; assert NextQuote(s, 22) == 23; assert NextQuote(s, 21) == 23;
    assert NextQuote(s, 20) == 23; assert NextQuote(s, 19) == 23; assert NextQuote(s, 18) == 23;
    assert NextQuote(s, 17) == 23; assert NextQuote(s, 16) == 23; assert NextQuote(s, 15) == 23;
    assert NextQuote(s, 14) == 23;
  }

  lemma QuotedNameMatch(s: string)
    requires s == "Version 4.5.2'dan Eider'"
    ensures MatchAt(s, 0) == Some("4.5.2'dan Eider'")
  {
    assert KeywordAt(s, 0);
    assert SkipSpace(s, 7) == 8;
    QuotedNameRun(s);
    QuotedNameClose(s);
    assert s[8..24] == "4.5.2'dan Eider'";
  }

  /** A quoted release name glued to the number is part of the version, quotes included. */
  lemma QuotedNameExample(s: string)
    requires s == "Version 4.5.2'dan Eider'"
    ensures ExtractVersion(s) == Some("4.5.2'dan Eider'")
  {
    QuotedNameMatch(s);
  }

  /** An empty quoted name is not taken: `[^']+` needs a character. */
  lemma EmptyQuotesExample(s: string)
    requires s == "version 1.0''"
    ensures ExtractVersion(s) == Some("1.0")
  {
    assert KeywordAt(s, 0);
    assert SkipSpace(s, 7) == 8;
    assert RunEnd(s, 11) == 11; assert RunEnd(s, 10) == 11; assert RunEnd(s, 9) == 11;
    assert RunEnd(s, 8) == 11;
    assert NextQuote(s, 12) == 12;
    assert s[8..11] == "1.0";
  }

  /** The JSON body `GET` answers with (always status 200). */
  datatype CheckResponse = CheckResponse(installed: bool, version: Option<string>,
                                         message: Option<string>, details: Option<string>)

  const VersionCommand: string := "turnserver -V"
  const WhichCommand: string := "which turnserver"
  const UnknownVersion: string := "Unknown (installed)"
  const UnknownVersionAfterFailure: string := "Unknown (executable found, but -V failed)"
  const NoOutputMessage: string := "coturn not found. 'turnserver -V' produced no output."
  const NothingFoundMessage: string := "coturn not found. 'turnserver -V' failed and 'which turnserver' found nothing."
  const BothFailedMessage: string := "coturn not found. Both 'turnserver -V' and 'which turnserver' failed."

  /** `output.trim().split('\n')[0]`: the first line of the trimmed output. */
  function FirstLine(output: string): (line: string)
    ensures '\n' !in line
  {
    Split(Trim(output), '\n')[0]
  }

  /** `stderr || stdout`: the version usually goes to stderr. */
  function VersionOutput(stdout: string, stderr: string): (output: string)
    ensures output == "" <==> stdout == "" && stderr == ""
    ensures stderr != "" ==> output == stderr
    ensures stderr == "" ==> output == stdout
  {
    if stderr != "" then stderr else stdout
  }

  /** `GET()`, with `exec` standing for the promisified `exec`: `Threw` is a rejected promise. */
  function CoturnCheck(exec: string -> Exec): (h: Handled<CheckResponse>)
    ensures h.commands == if exec(VersionCommand).Ran? then [VersionCommand]
                          else [VersionCommand, WhichCommand]
    ensures h.response.installed <==>
              || (exec(VersionCommand).Ran?
                  && VersionOutput(exec(VersionCommand).stdout, exec(VersionCommand).stderr) != "")
              || (exec(VersionCommand).Threw? && exec(WhichCommand).Ran?
                  && Trim(exec(WhichCommand).stdout) != "")
    ensures h.response.installed <==> h.response.version.Some?
    ensures h.response.installed == h.response.message.None?
    ensures exec(VersionCommand).Ran? ==>
              var output := VersionOutput(exec(VersionCommand).stdout, exec(VersionCommand).stderr);
              output != "" ==> h.response.version == Some(match ExtractVersion(output)
                                                           case Some(v) => v
                                                           case None => UnknownVersion)
    ensures h.response.version.Some? ==> Trimmed(h.response.version.value)
    ensures exec(VersionCommand).Ran? ==>
              var output := VersionOutput(exec(VersionCommand).stdout, exec(VersionCommand).stderr);
              && (output == "" ==> h.response.message == Some(NoOutputMessage))
              && (output != "" && ExtractVersion(output).None? ==>
                    h.response.details == Some("Output: " + FirstLine(output)))
              && (ExtractVersion(output).Some? ==> h.response.details.None?)
    ensures exec(VersionCommand).Threw? && !h.response.installed ==>
              h.response.message == Some(if exec(WhichCommand).Ran? then NothingFoundMessage
                                         else BothFailedMessage)
    ensures exec(VersionCommand).Threw? && h.response.installed ==>
              && h.response.version == Some(UnknownVersionAfterFailure)
              && h.response.details == Some("turnserver path: " + Trim(exec(WhichCommand).stdout)
                                            + ". 'turnserver -V' error: " + exec(VersionCommand).errorMessage)
  {
    match exec(VersionCommand)
    case Ran(stdout, stderr) =>
      var output := VersionOutput(stdout, stderr);
      if output != "" then
        match ExtractVersion(output)
        case Some(v) =>
          VersionTrimIsIdentity(output);
          Handled(CheckResponse(true, Some(Trim(v)), None, None), [VersionCommand])
        case None =>
          assert Trimmed(UnknownVersion);
          Handled(CheckResponse(true, Some(UnknownVersion), None, Some("Output: " + FirstLine(output))),
                  [VersionCommand])
      else Handled(CheckResponse(false, None, Some(NoOutputMessage), None), [VersionCommand])
    case Threw(error, _, _) =>
      match exec(WhichCommand)
      case Ran(path, _) =>
        if path != "" && Trim(path) != "" then
          assert Trimmed(UnknownVersionAfterFailure);
          Handled(CheckResponse(true, Some(UnknownVersionAfterFailure), None,
                                Some("turnserver path: " + Trim(path) + ". 'turnserver -V' error: " + error)),
                  [VersionCommand, WhichCommand])
        else
          Handled(CheckResponse(false, None, Some(NothingFoundMessage), Some("'turnserver -V' error: " + error)),
                  [VersionCommand, WhichCommand])
      case Threw(whichError, _, _) =>
        Handled(CheckResponse(false, None, Some(BothFailedMessage),
                              Some("'turnserver -V' error: " + error + ". 'which' error: " + whichError)),
                [VersionCommand, WhichCommand])
  }

  /** `which` runs only as the fallback, and a path it prints that is only white space does not
      count as finding the executable. */
  lemma BlankWhichOutputIsNotFound(exec: string -> Exec)
    requires exec(VersionCommand).Threw? && exec(WhichCommand).Ran?
    requires forall k :: 0 <= k < |exec(WhichCommand).stdout| ==> IsSpace(exec(WhichCommand).stdout[k])
    ensures !CoturnCheck(exec).response.installed
    ensures CoturnCheck(exec).response.message == Some(NothingFoundMessage)
  {
  }

}
