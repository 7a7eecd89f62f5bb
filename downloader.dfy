/** The wrapper around KoalaBear84's OpenDirectoryDownloader (ODD): the
    `scanUrl` promise, fed by the child process's stream events, and the
    parser that the `close` event runs over the accumulated standard output.

    A promise settles at most once: the first `resolve` or `reject` decides
    it and later calls are ignored. The file system is a map from path to
    contents; `fs.unlinkSync` and `fs.readFileSync` throw on a missing path,
    and `JSON.parse` is the parameter `parse`. */
module Downloader {
  import opened Basics
  import opened Text

  /** The marker ODD prints when it is done; the misspelling is ODD's. */
  const Marker: string := "Finshed indexing"
  /** The reddit table starts at its first column separator. */
  const RedditStart: string := "|"
  /** The reddit table ends before ODD's credits line. */
  const RedditEnd: string :=
    "^(Created by [KoalaBear84's OpenDirectory Indexer](https://github.com/KoalaBear84/OpenDirectoryDownloader/))"
  /** The credits line handed back with every resolved result. */
  const Credits: string :=
    "^(Created by [KoalaBear84's OpenDirectory Indexer](https://github.com/KoalaBear84/OpenDirectoryDownloader/))"
  const SessionPrefix: string := "Saved session: "
  const UrlListPrefix: string := "Saved URL list to file: "

  const NeverFinished: string := "ODD never finished indexing!"
  const SessionNotFound: string := "JSON session file not found!"
  const UrlListNotFound: string := "URL list file not found!"

  /** The state of a JavaScript promise. */
  datatype Promise<+T> = Pending | Rejected(reason: string) | Resolved(value: T)

  /** Calling `resolve` or `reject` with `q`: only a pending promise changes. */
  function Settle<T>(p: Promise<T>, q: Promise<T>): Promise<T> {
    if p.Pending? then q else p
  }

  /** What a finished scan resolves to. `scan` is absent when the session
      file could not be read, parsed or removed. */
  datatype Indexed<+S> = Indexed(reddit: string, credits: string, scan: Option<S>)

  /** An exception that escapes the `close` handler instead of settling the
      promise. */
  datatype Thrown =
    | SessionMatchNull    // `null.length` on a missing "Saved session" line
    | UrlListMatchNull    // `null.length` on a missing "Saved URL list" line
    | UnlinkFailed(path: string)

  /** The promise, the file system and the escaped exception, if any, after
      the `close` handler has run. */
  datatype Closed<+S> = Closed(promise: Promise<Indexed<S>>, files: map<string, string>, thrown: Option<Thrown>)

  /** A template literal's rendering of the exit code; `null` when the
      process was ended by a signal. */
  function ExitText(code: Option<nat>): string {
    if code.None? then "null" else NatText(code.value)
  }

  function NatText(n: nat): (r: string)
    ensures |r| >= 1 && forall k :: 0 <= k < |r| ==> '0' <= r[k] <= '9'
    decreases n
  {
    if n < 10 then ["0123456789"[n]] else NatText(n / 10) + ["0123456789"[n % 10]]
  }

  /** The number a string of decimal digits spells. */
  function DigitsValue(s: string): int
    decreases |s|
  {
    if s == [] then 0 else DigitsValue(s[..|s| - 1]) * 10 + (s[|s| - 1] as int - '0' as int)
  }

  /** The rendering of an exit code spells that code. */
  lemma {:induction false} NatTextValue(n: nat)
    ensures DigitsValue(NatText(n)) == n
    decreases n
  {
    var d := ["0123456789"[n % 10]];
    if n >= 10 {
      NatTextValue(n / 10);
      var t := NatText(n / 10) + d;
      assert t[..|t| - 1] == NatText(n / 10);
    }
  }

  function ExitMessage(code: Option<nat>, stderr: string): string {
    "ODD exited with code " + ExitText(code) + ": " + stderr
  }

  /** The first statement of the `close` handler: an exit code other than 1
      rejects, and the handler goes on. */
  function ExitCheck<S>(p: Promise<Indexed<S>>, code: Option<nat>, stderr: string): Promise<Indexed<S>> {
    if code != Some(1) then Settle(p, Rejected(ExitMessage(code, stderr))) else p
  }

  /** `output.split(Marker)[1]`: the text between the first and the second
      marker, or after the first marker when there is no second one. */
  function FinalResults(output: string): (r: string)
    requires |Split(output, Marker)| > 1
    ensures IndexOf(output, Marker).Some?
    ensures r == PieceFrom(output, Marker, IndexOf(output, Marker).value + |Marker|)
  {
    SplitSecond(output, Marker);
    Split(output, Marker)[1]
  }

  /** `(start + final.split(start).slice(1).join(start)).split(end).slice(0, -1).join(end)`:
      the text from the first `start` on, cut before the last `end`. */
  function CutTable(final: string, start: string, end: string): string
    requires |start| > 0 && |end| > 0
  {
    var table := start + Join(Split(final, start)[1..], start);
    var parts := Split(table, end);
    Join(parts[..|parts| - 1], end)
  }

  /** The reddit table ODD prints, between its first column separator and
      its last credits line. */
  function RedditOutput(final: string): string {
    CutTable(final, RedditStart, RedditEnd)
  }

  /** The file-system part of the handler, once both file names are known:
      remove the URL list, then read, parse and remove the session file. A
      failure there only loses `scan`: the `catch` resolves first. */
  function Collect<S>(p: Promise<Indexed<S>>, reddit: string, outputDir: string, jsonFile: string,
                      urlFile: string, files: map<string, string>, parse: string -> Option<S>): Closed<S>
  {
    var urlPath := outputDir + urlFile;
    if urlPath !in files then Closed(p, files, Some(UnlinkFailed(urlPath)))
    else
      var rest := files - {urlPath};
      var jsonPath := outputDir + jsonFile;
      if jsonPath !in rest || parse(rest[jsonPath]).None? then
        Closed(Settle(p, Resolved(Indexed(reddit, Credits, None))), rest, None)
      else
        Closed(Settle(p, Resolved(Indexed(reddit, Credits, parse(rest[jsonPath])))), rest - {jsonPath}, None)
  }

  /** What the handler reads off ODD's output: `Unfinished` without a
      marker, and otherwise the reddit table and the results of the two
      `match` calls on the text after the first marker. */
  datatype Report = Unfinished | Finished(reddit: string, session: Match, urlList: Match)

  function ReadReport(output: string): Report {
    var pieces := Split(output, Marker);
    if |pieces| <= 1 then Unfinished
    else
      var final := pieces[1];
      Finished(RedditOutput(final), MatchLineAfter(final, SessionPrefix), MatchLineAfter(final, UrlListPrefix))
  }

  /** The rest of the handler once the output is read, with a missing
      "Saved session" or "Saved URL list" line rejected with the message
      meant for it. */
  function Conclude<S>(p0: Promise<Indexed<S>>, report: Report, outputDir: string,
                       files: map<string, string>, parse: string -> Option<S>): Closed<S>
  {
    match report
    case Unfinished => Closed(Settle(p0, Rejected(NeverFinished)), files, None)
    case Finished(reddit, session, urlList) =>
      if session.Null? || |session.groups| <= 1 then Closed(Settle(p0, Rejected(SessionNotFound)), files, None)
      else if urlList.Null? || |urlList.groups| <= 1 then Closed(Settle(p0, Rejected(UrlListNotFound)), files, None)
      else Collect(p0, reddit, outputDir, session.groups[1], urlList.groups[1], files, parse)
  }

  /** The `close` handler, corrected as `Conclude` says. */
  function Close<S>(p: Promise<Indexed<S>>, output: string, stderr: string, code: Option<nat>,
                    outputDir: string, files: map<string, string>, parse: string -> Option<S>): Closed<S>
  {
    Conclude(ExitCheck(p, code, stderr), ReadReport(output), outputDir, files, parse)
  }

  /** The `close` handler as written: `match` returns null when a line is
      missing, and reading `length` of null throws out of the handler. */
  function CloseAsWritten<S>(p: Promise<Indexed<S>>, output: string, stderr: string, code: Option<nat>,
                             outputDir: string, files: map<string, string>, parse: string -> Option<S>): Closed<S>
  {
    var report := ReadReport(output);
    if report.Finished? && report.session.Null? then
      Closed(ExitCheck(p, code, stderr), files, Some(SessionMatchNull))
    else if report.Finished? && report.urlList.Null? then
      Closed(ExitCheck(p, code, stderr), files, Some(UrlListMatchNull))
    else Close(p, output, stderr, code, outputDir, files, parse)
  }

  /** The promise returned by `scanUrl` together with the text its stream
      handlers have collected. */
  class ScanProcess<S> {
    var output: string
    var error: string
    var promise: Promise<Indexed<S>>

    constructor()
      ensures output == "" && error == "" && promise == Pending
    {
      output := "";
      error := "";
      promise := Pending;
    }

    /** A chunk of standard output. */
    method OnStdout(data: string)
      modifies this
      ensures output == old(output) + data
      ensures error == old(error) && promise == old(promise)
    {
      output := output + data;
    }

    /** A chunk of standard error. */
    method OnStderr(data: string)
      modifies this
      ensures error == old(error) + data
      ensures output == old(output) && promise == old(promise)
    {
      error := error + data;
    }

    /** The process could not be started or killed. */
    method OnError(reason: string)
      modifies this
      ensures promise == Settle(old(promise), Rejected(reason))
      ensures output == old(output) && error == old(error)
    {
      promise := Settle(promise, Rejected(reason));
    }

    /** The process has ended and its streams are closed. */
    method OnClose(code: Option<nat>, outputDir: string, files: map<string, string>, parse: string -> Option<S>)
      returns (files': map<string, string>, thrown: Option<Thrown>)
      modifies this
      ensures var c := Close(old(promise), output, error, code, outputDir, files, parse);
        promise == c.promise && files' == c.files && thrown == c.thrown
      ensures output == old(output) && error == old(error)
    {
      var c := Close(promise, output, error, code, outputDir, files, parse);
      promise, files', thrown := c.promise, c.files, c.thrown;
    }
  }

  // ---------------------------------------------------------------------
  // Properties of the handler.

  /** A promise settled before the output is read stays as it is. */
  lemma {:induction false} ConcludeKeepsSettled<S>(p0: Promise<Indexed<S>>, report: Report, outputDir: string,
      files: map<string, string>, parse: string -> Option<S>)
    requires !p0.Pending?
    ensures Conclude(p0, report, outputDir, files, parse).promise == p0
  {
  }

  /** A pending promise settles unless an exception escapes, and the only
      exception that can escape is the removal of a missing URL list. */
  lemma {:induction false} ConcludeSettles<S>(p0: Promise<Indexed<S>>, report: Report, outputDir: string,
      files: map<string, string>, parse: string -> Option<S>)
    ensures var c := Conclude(p0, report, outputDir, files, parse);
      && (c.thrown.None? ==> !c.promise.Pending?)
      && (c.thrown.Some? ==> c.thrown.value.UnlinkFailed? && c.thrown.value.path !in files)
  {
  }

  /** What the handler settles a pending promise with: one of its three
      messages, or a result with the reddit table and the credits line. */
  lemma {:induction false} ConcludeOutcomes<S>(report: Report, outputDir: string,
      files: map<string, string>, parse: string -> Option<S>)
    ensures var c := Conclude(Pending, report, outputDir, files, parse);
      && (c.promise.Rejected? ==> c.promise.reason in {NeverFinished, SessionNotFound, UrlListNotFound})
      && (c.promise.Resolved? ==>
            report.Finished? && c.promise.value.reddit == report.reddit && c.promise.value.credits == Credits)
  {
  }

  /** A settled promise stays as it is, whatever ODD printed. */
  lemma {:induction false} CloseFirstSettleWins<S>(p: Promise<Indexed<S>>, output: string, stderr: string,
      code: Option<nat>, outputDir: string, files: map<string, string>, parse: string -> Option<S>)
    requires !p.Pending?
    ensures Close(p, output, stderr, code, outputDir, files, parse).promise == p
  {
    ConcludeKeepsSettled(p, ReadReport(output), outputDir, files, parse);
  }

  /** An exit code other than 1 rejects with the exit-code message, even
      though the handler goes on parsing. */
  lemma {:induction false} CloseExitCode<S>(output: string, stderr: string, code: Option<nat>,
      outputDir: string, files: map<string, string>, parse: string -> Option<S>)
    requires code != Some(1)
    ensures Close(Pending, output, stderr, code, outputDir, files, parse).promise ==
      Rejected("ODD exited with code " + ExitText(code) + ": " + stderr)
  {
    ConcludeKeepsSettled(Rejected(ExitMessage(code, stderr)), ReadReport(output), outputDir, files, parse);
  }

  /** Without a marker the promise is rejected as unfinished; nothing else
      happens. */
  lemma {:induction false} CloseNoMarker<S>(p: Promise<Indexed<S>>, output: string, stderr: string,
      code: Option<nat>, outputDir: string, files: map<string, string>, parse: string -> Option<S>)
    requires IndexOf(output, Marker).None?
    ensures var c := Close(p, output, stderr, code, outputDir, files, parse);
      && c.promise == Settle(ExitCheck(p, code, stderr), Rejected(NeverFinished))
      && c.files == files && c.thrown.None?
  {
    assert ReadReport(output) == Unfinished;
  }

  /** A pending promise settles unless the URL list file is missing, and
      that is the only exception that can escape the handler. */
  lemma {:induction false} CloseSettles<S>(p: Promise<Indexed<S>>, output: string, stderr: string,
      code: Option<nat>, outputDir: string, files: map<string, string>, parse: string -> Option<S>)
    ensures var c := Close(p, output, stderr, code, outputDir, files, parse);
      && (c.thrown.None? ==> !c.promise.Pending?)
      && (c.thrown.Some? ==> c.thrown.value.UnlinkFailed? && c.thrown.value.path !in files)
  {
    ConcludeSettles(ExitCheck(p, code, stderr), ReadReport(output), outputDir, files, parse);
  }

  /** Every rejection of a pending promise carries one of the handler's
      four messages, and every resolution follows exit code 1 and carries
      the reddit table and the credits line. */
  lemma {:induction false} CloseMessages<S>(output: string, stderr: string, code: Option<nat>,
      outputDir: string, files: map<string, string>, parse: string -> Option<S>)
    ensures var c := Close(Pending, output, stderr, code, outputDir, files, parse);
      && (c.promise.Rejected? ==>
            c.promise.reason in {ExitMessage(code, stderr), NeverFinished, SessionNotFound, UrlListNotFound})
      && (c.promise.Resolved? ==>
            && code == Some(1) && |Split(output, Marker)| > 1
            && c.promise.value.reddit == RedditOutput(FinalResults(output))
            && c.promise.value.credits == Credits)
  {
    var report := ReadReport(output);
    if code != Some(1) {
      ConcludeKeepsSettled(Rejected(ExitMessage(code, stderr)), report, outputDir, files, parse);
    } else {
      ConcludeOutcomes(report, outputDir, files, parse);
    }
  }

  /** When ODD's output is complete and the process exited with code 1, the
      promise resolves with the reddit table and the credits line; `scan`
      holds the parsed session file exactly when the URL list existed and
      the session file could be read and parsed, and then both files are
      gone. When the URL list is missing the exception escapes and the
      promise stays pending. */
  lemma {:induction false} CloseCompleted<S>(output: string, stderr: string, outputDir: string,
      files: map<string, string>, parse: string -> Option<S>)
    requires |Split(output, Marker)| > 1
    requires MatchLineAfter(FinalResults(output), SessionPrefix).Groups?
    requires MatchLineAfter(FinalResults(output), UrlListPrefix).Groups?
    ensures var final := FinalResults(output);
      var jsonPath := outputDir + MatchLineAfter(final, SessionPrefix).groups[1];
      var urlPath := outputDir + MatchLineAfter(final, UrlListPrefix).groups[1];
      var c := Close(Pending, output, stderr, Some(1), outputDir, files, parse);
      && (urlPath !in files ==> c.promise.Pending? && c.files == files && c.thrown == Some(UnlinkFailed(urlPath)))
      && (urlPath in files ==>
            var rest := files - {urlPath};
            var scan := if jsonPath in rest then parse(rest[jsonPath]) else None;
            && c.thrown.None?
            && c.promise == Resolved(Indexed(RedditOutput(final), Credits, scan))
            && c.files == if scan.Some? then rest - {jsonPath} else rest)
  {
    var final := FinalResults(output);
    assert ReadReport(output) ==
      Finished(RedditOutput(final), MatchLineAfter(final, SessionPrefix), MatchLineAfter(final, UrlListPrefix));
    MatchLineAfterCapture(final, SessionPrefix);
    MatchLineAfterCapture(final, UrlListPrefix);
  }

  /** The table cut: with `table` the text from the first `start` of
      `final` on (just `start` when there is none), the result is the part
      of `table` before the last `end` that `split` cuts at, and the empty
      string when `table` holds no `end`; no `end` starts after the one it
      is cut at. */
  lemma {:induction false} CutTableSpec(final: string, start: string, end: string)
    requires |start| > 0 && |end| > 0
    ensures var at := IndexOf(final, start);
      var table := if at.None? then start else final[at.value..];
      var last := LastSplitFrom(table, end, 0);
      && (last.None? <==> IndexOf(table, end).None?)
      && (last.None? ==> CutTable(final, start, end) == "")
      && (last.Some? ==>
            && CutTable(final, start, end) == table[..last.value]
            && OccursAt(table, end, last.value)
            && forall j: nat :: last.value + |end| <= j ==> !OccursAt(table, end, j))
  {
    var at := IndexOf(final, start);
    var table := if at.None? then start else final[at.value..];
    TableFrom(final, start);
    LastCut(table, end);
  }

  /** `table.split(end).slice(0, -1).join(end)`, stated on its own. */
  lemma {:induction false} LastCut(table: string, end: string)
    requires |end| > 0
    ensures var parts := Split(table, end);
      var last := LastSplitFrom(table, end, 0);
      && (last.None? <==> IndexOf(table, end).None?)
      && (last.None? ==> Join(parts[..|parts| - 1], end) == "")
      && (last.Some? ==>
            && Join(parts[..|parts| - 1], end) == table[..last.value]
            && OccursAt(table, end, last.value)
            && forall j: nat :: last.value + |end| <= j ==> !OccursAt(table, end, j))
  {
    AllButLast(table, end);
    var last := LastSplitFrom(table, end, 0);
    if last.Some? {
      IndexFromIsFirst(table, end, last.value + |end|);
    }
  }

  /** `start` followed by everything after the first `start` is the text
      from the first `start` on. */
  lemma {:induction false} TableFrom(final: string, start: string)
    requires |start| > 0
    ensures var at := IndexOf(final, start);
      start + Join(Split(final, start)[1..], start) == if at.None? then start else final[at.value..]
  {
    AfterFirst(final, start);
    var at := IndexOf(final, start);
    if at.Some? {
      IndexFromOccurs(final, start, 0);
      AroundEnd(final, start, at.value, at.value);
    }
  }

  /** The reddit table is cut from the first `"|"` up to the last credits
      line, and is empty when there is no credits line after the first
      `"|"`. */
  lemma {:induction false} RedditOutputTable(final: string)
    ensures var at := IndexOf(final, RedditStart);
      var table := if at.None? then RedditStart else final[at.value..];
      var last := LastSplitFrom(table, RedditEnd, 0);
      && (last.None? <==> IndexOf(table, RedditEnd).None?)
      && (last.None? ==> RedditOutput(final) == "")
      && (last.Some? ==>
            && RedditOutput(final) == table[..last.value]
            && OccursAt(table, RedditEnd, last.value)
            && forall j: nat :: last.value + |RedditEnd| <= j ==> !OccursAt(table, RedditEnd, j))
  {
    CutTableSpec(final, RedditStart, RedditEnd);
  }

  /** As written, the handler differs only where a line is missing. */
  lemma {:induction false} CloseAsWrittenAgrees<S>(p: Promise<Indexed<S>>, output: string, stderr: string,
      code: Option<nat>, outputDir: string, files: map<string, string>, parse: string -> Option<S>)
    requires |Split(output, Marker)| > 1 ==>
      && MatchLineAfter(FinalResults(output), SessionPrefix).Groups?
      && MatchLineAfter(FinalResults(output), UrlListPrefix).Groups?
    ensures CloseAsWritten(p, output, stderr, code, outputDir, files, parse) ==
      Close(p, output, stderr, code, outputDir, files, parse)
  {
  }

  /** As written: when ODD prints only the marker and exits with code 1,
      the handler throws and the promise never settles. */
  lemma {:induction false} CloseAsWrittenHangs<S>(files: map<string, string>, parse: string -> Option<S>)
    ensures var c := CloseAsWritten(Pending, Marker, "", Some(1), "", files, parse);
      c.promise.Pending? && c.thrown == Some(SessionMatchNull)
  {
    SameFromSuffix(Marker, 0);
    assert Marker[0..] == Marker;
    SplitFromCut(Marker, Marker, 0, 0);
    SplitFromEnd(Marker, Marker, |Marker|);
    assert Split(Marker, Marker)[1] == "";
  }

  lemma {:induction false} SameFromSuffix(s: string, i: nat)
    requires i <= |s|
    ensures SameFrom(s, s[i..], i)
    decreases |s| - i
  {
    if i < |s| {
      SameFromSuffix(s, i + 1);
      assert s[i..][1..] == s[i + 1..];
    }
  }
}
