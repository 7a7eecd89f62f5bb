# odcrawler-scanner core, modelled in Dafny

odcrawler-scanner is a reddit bot. It looks at recent submissions in a few
subreddits and finds the open-directory URLs in them. It scans each URL with
KoalaBear84's OpenDirectoryDownloader (ODD) and replies with the scan
tables. It also thanks users whose inbox comments praise it.

This project models the decision-making part of the bot. That part has
three pieces:

- **bot.js.** Which submissions a refresh hands on for a reply:
  - deduplication by id, a five-day age limit, the author blacklist, and
    the registry `oldIds` of submissions already handled;
  - the `running` flags that stop a timer tick from starting a task that
    is still running;
  - the reply text `generateComment`;
  - the two "already commented" checks;
  - the choice of praising inbox comments to thank.
- **util.js.** How URLs are extracted from a post or comment; which hosts
  count as local; how `scanUrls` gathers per-URL scan outcomes into
  successes and failures, with an immediate full rescan of small
  directories and a `ScanError` when nothing could be scanned.
- **open-directory-downloader.js.** The `scanUrl` promise. Its stream
  handlers collect ODD's output. Its `close` handler parses that output:
  - the exit code;
  - the `Finshed indexing` marker (the misspelling is ODD's);
  - the reddit table between the first `|` and the last credits line;
  - the "Saved session" and "Saved URL list" lines;
  - removing the URL list, then reading, parsing and removing the session
    file.

Modules:

- `Basics` (basics.dfy): shared vocabulary.
  - `Option` and `Result`.
  - `Filter`, the model of `Array.prototype.filter`.
  - `UniqueBy`, first-occurrence deduplication by a key, and `FirstIndex`,
    the index of the first occurrence.
  - The subsequence relation, distinctness, and their lemmas.
- `Text` (text.dfy): the JavaScript string built-ins the output parser
  relies on. These are `indexOf`, `split` and `join` with a non-empty
  separator, `slice`, and a non-global `match` of `/literal(.*)/`. Each
  result is stated as a slice of the input string.
- `Downloader` (downloader.dfy, open-directory-downloader.js).
  - A promise is `Pending`, `Rejected` or `Resolved`. The first `resolve`
    or `reject` decides it.
  - The file system is a map from path to contents.
  - An exception that escapes the `close` handler is recorded in
    `Closed.thrown`.
  - Class `ScanProcess` holds the text the stream handlers accumulate and
    the promise.
- `Util` (util.dfy, util.js).
  - `ExtractUrls` is the loop of `extractUrls`, proved against the
    function `Extracted`.
  - `ScanUrls` is the loop of `scanUrls`, proved against `Successes`,
    `Failures`, `Effects` and `Conclusion`. `Effects` records every
    scanner call and unlink in order.
- `Bot` (bot.dfy, bot.js).
  - The submission filter chain is the function `Pipeline`. The methods
    `DedupById` and `Survivors` are proved against it.
  - Class `Bot` holds `oldIds` and the three `running` flags.
  - Each `async` task is split at its first `await`. `Begin…` is the
    synchronous part: it sets the flag. `Finish…` is the rest and clears
    the flag on both exit paths. `…Tick` is the `setInterval` callback
    and its guard.

Outside services are parameters:

- the reddit listings, with a `Failure` when fetching fails;
- the comment authors under a submission or a comment;
- whether each reply goes through;
- `new URL(u).hostname`, with `None` when the constructor throws;
- the is-local-ip package;
- the markdown link extractor;
- the indexer's `scanUrl`, as a function of the URL and `fastScan`;
- `fs.unlink`;
- `JSON.parse`;
- the current time;
- the numeric value of `ODD_MAX_FILES_SLOW_SCAN`.

Facts about the code that the model keeps:

- Only id dedup, age, blacklist and `oldIds` filter the submissions.
  Hidden, removed or locked submissions are not filtered.
- There is no scan queue. `checkForMentions` only fetches the mentions
  and handles none of them.
- `generateComment` builds one body with no size cap. It does not paginate.
- `oldIds` is an unbounded list.
- `checkForMentions` sets and clears `running.checkInbox`, not its own
  flag, and `running.checkForMentions` is never set (bot.js:314, 326,
  331).

## Model

| member | source | states |
|---|---|---|
| Basics.Filter | bot.js:172-185 | `Array.prototype.filter`: the elements meeting the predicate, in order, never more than the input (FilterMembership and FilterSubseq state what it keeps) |
| Basics.UniqueBy | bot.js:160-169 | the first element with each key, in input order (the UniqueBy lemmas below state it) |
| Basics.FirstIndex | util.js:156-164 | the index of the first occurrence: it holds the element and no earlier index does |
| Basics.FilterMembership | bot.js:172-185 | an element survives a filter exactly when it is in the input and satisfies the predicate |
| Basics.FilterSubseq | bot.js:172-185 | filtering only deletes elements: the result is a subsequence of the input |
| Basics.FilterDistinct | util.js:156-164 | filtering keeps a duplicate-free sequence duplicate-free |
| Basics.UniqueByKeys | bot.js:160-169 | deduplication by key keeps every key of the input and adds none |
| Basics.UniqueByDistinct | bot.js:160-169 | after deduplication no key occurs twice |
| Basics.UniqueBySubseq | bot.js:160-169 | deduplication only deletes elements |
| Basics.UniqueByFirst | bot.js:160-169 | the first element with a given key is kept |
| Basics.UniqueByMembership | bot.js:160-169 | every kept element comes from the input |
| Text.IndexOf | open-directory-downloader.js:43 | `s.indexOf(pat)`: a found index is in range (IndexFromOccurs and IndexFromIsFirst state that it is the first occurrence) |
| Text.Split | open-directory-downloader.js:43-53 | `s.split(sep)` for a non-empty separator: the pieces between the occurrences found from the left (JoinSplit, SplitSecond, AfterFirst and AllButLast state it) |
| Text.Join | open-directory-downloader.js:53 | `parts.join(sep)`, with the empty array joining to the empty string (JoinSplit is its round trip with Split) |
| Text.MatchLineAfter | open-directory-downloader.js:55-65 | a non-global `match(/prefix(.*)/)`: null, or the whole match and its group (MatchLineAfterCapture states it) |
| Text.IndexFromIsFirst | open-directory-downloader.js:43 | `indexOf` finds the first occurrence at or after its start, and reports none only when there is none |
| Text.IndexFromOccurs | open-directory-downloader.js:43 | the index `indexOf` reports is an occurrence of the pattern |
| Text.JoinSplit | open-directory-downloader.js:53 | joining the pieces of a split with the same separator gives back the string |
| Text.SplitSecond | open-directory-downloader.js:47 | the second piece of a split is the text from the end of the first separator up to the next one, or to the end |
| Text.AfterFirst | open-directory-downloader.js:53 | `split(sep).slice(1).join(sep)` is everything after the first separator, and empty when there is none |
| Text.AllButLast | open-directory-downloader.js:53 | `split(sep).slice(0, -1).join(sep)` is the text before the last separator, and empty when there is none; after that separator `sep` does not occur again |
| Text.MatchLineAfterCapture | open-directory-downloader.js:55-65 | a non-global `match(/prefix(.*)/)` is null exactly when `prefix` does not occur; otherwise it has exactly two entries, and the group is the rest of the line after the first `prefix` |
| Downloader.NatText | open-directory-downloader.js:40 | the decimal rendering of an exit code is a non-empty string of digits |
| Downloader.NatTextValue | open-directory-downloader.js:40 | the digits of the rendered exit code spell that very code |
| Downloader.Settle | open-directory-downloader.js:16 | calling `resolve` or `reject` changes only a pending promise (CloseFirstSettleWins and ConcludeKeepsSettled state it for the handler) |
| Downloader.ExitCheck | open-directory-downloader.js:39-41 | an exit code other than 1 rejects with the exit message and the handler goes on (CloseExitCode states it) |
| Downloader.CutTable | open-directory-downloader.js:53 | the split/slice/join expression of the reddit table, for any start and end strings (CutTableSpec states what it cuts) |
| Downloader.RedditOutput | open-directory-downloader.js:49-53 | the reddit table, cut between the first column separator and the last credits line (RedditOutputTable states it) |
| Downloader.ReadReport | open-directory-downloader.js:43-61 | what the handler reads off the output: no marker, or the table and the two matches on the text after the first marker |
| Downloader.Collect | open-directory-downloader.js:66-88 | remove the URL list (throwing when it is missing), then read, parse and remove the session file, resolving with or without the scan (CloseCompleted states it) |
| Downloader.Conclude | open-directory-downloader.js:43-88 | the handler after the exit check, with the missing-line rejections as intended (ConcludeKeepsSettled, ConcludeSettles and ConcludeOutcomes state it) |
| Downloader.Close | open-directory-downloader.js:37-90 | the corrected `close` handler: the exit check, then Conclude on what ReadReport reads (CloseSettles, CloseMessages, CloseCompleted state it) |
| Downloader.CloseAsWritten | open-directory-downloader.js:37-90 | the `close` handler as written: a missing "Saved session" or "Saved URL list" line throws at `null.length` (CloseAsWrittenAgrees and CloseAsWrittenHangs state it) |
| Downloader.FinalResults | open-directory-downloader.js:47 | `output.split(marker)[1]` exists only when the marker occurs, and is the text after its first occurrence up to the next one |
| Downloader.ScanProcess.constructor | open-directory-downloader.js:16-21 | the collected output and error text start empty and the promise pending |
| Downloader.ScanProcess.OnStdout | open-directory-downloader.js:23-26 | a chunk of standard output is appended to the output; the error text and the promise are unchanged |
| Downloader.ScanProcess.OnStderr | open-directory-downloader.js:28-31 | a chunk of standard error is appended to the error text; the output and the promise are unchanged |
| Downloader.ScanProcess.OnError | open-directory-downloader.js:33-35 | a process error rejects the promise unless it has already settled |
| Downloader.ScanProcess.OnClose | open-directory-downloader.js:37-90 | the new promise, file system and escaped exception are those of the corrected close handler applied to the collected output and error text |
| Downloader.ConcludeKeepsSettled | open-directory-downloader.js:43-88 | once the exit check has settled the promise, the rest of the handler cannot change it |
| Downloader.ConcludeSettles | open-directory-downloader.js:43-88 | after the exit check, a pending promise always settles unless an exception escapes; the only exception that can escape is the removal of a URL list that is missing |
| Downloader.ConcludeOutcomes | open-directory-downloader.js:43-88 | a rejection of a pending promise carries one of the three parser messages; a resolution needs a finished report and carries its reddit table and the credits line |
| Downloader.CloseFirstSettleWins | open-directory-downloader.js:37-90 | a promise settled before `close` stays as it is, whatever ODD printed |
| Downloader.CloseExitCode | open-directory-downloader.js:39-41 | an exit code other than 1 (or a signal) rejects with "ODD exited with code …: <stderr>", although the handler goes on |
| Downloader.CloseNoMarker | open-directory-downloader.js:43-45 | without the marker the promise is rejected as never finished, the files are untouched and nothing escapes |
| Downloader.CloseSettles | open-directory-downloader.js:37-90 | the corrected handler settles a pending promise unless the URL list file is missing; that is the only exception that escapes |
| Downloader.CloseMessages | open-directory-downloader.js:37-90 | every rejection carries one of the four messages; every resolution follows exit code 1 and a marker and carries the reddit table of the final results and the credits line |
| Downloader.CloseCompleted | open-directory-downloader.js:61-88 | with the marker, both lines and exit code 1: the handler removes the URL list or throws when it is missing; it resolves with the parsed session exactly when the session file exists and parses, and then removes it too |
| Downloader.CutTableSpec | open-directory-downloader.js:53 | the table cut is the text from the first `start` up to the last `end` that `split` cuts at, and empty when there is no `end` |
| Downloader.LastCut | open-directory-downloader.js:53 | `table.split(end).slice(0, -1).join(end)` is `table` before its last `end` |
| Downloader.TableFrom | open-directory-downloader.js:53 | `start` followed by everything after the first `start` is the text from the first `start` on, or just `start` |
| Downloader.RedditOutputTable | open-directory-downloader.js:49-53 | the reddit table runs from the first `|` up to the last credits line, and is empty when there is no credits line after the first `|` |
| Downloader.CloseAsWrittenAgrees | open-directory-downloader.js:55-65 | as written, the handler behaves like the corrected one whenever both lines are present |
| Downloader.CloseAsWrittenHangs | open-directory-downloader.js:55-59 | as written, output consisting only of the marker with exit code 1 makes the handler throw, and the promise never settles |
| Util.IsLocalIP | util.js:100-112 | a URL that does not parse is not local; a host without a dot is local; otherwise the verdict is the is-local-ip package's |
| Util.Matches | util.js:135-153 | the candidates: a comment's body links, a link post's `[url]`, a self post's text links (LinkPostUrls states the link-post case) |
| Util.Extracted | util.js:155-166 | the first occurrence of each candidate whose host parses and is not excluded, in order (ExtractedProperties states it) |
| Util.ExtractUrls | util.js:129-168 | the call fails with "Invalid URL" exactly when some candidate does not parse; otherwise it returns the first occurrence of each candidate whose host is not excluded, in order |
| Util.ExtractSeen | util.js:158-159 | a candidate kept already has a host and changes nothing |
| Util.ExtractNew | util.js:158-163 | a new candidate with a host is kept exactly when its host is not excluded |
| Util.ExtractStep | util.js:156-164 | one more candidate: one seen before changes nothing; a new one is appended when it is allowed |
| Util.ExtractedProperties | util.js:155-166 | the extracted URLs have no duplicates, are exactly the candidates with an allowed host, and come in the order of their first occurrences among the candidates |
| Util.ExtractedInOrder | util.js:156-164 | the extracted URLs come in the order of their first occurrences among the candidates |
| Util.LinkPostUrls | util.js:141-143 | a link post's only candidate is its link; it is kept when its host is allowed, and dropped otherwise |
| Util.NotAllParse | util.js:160 | one candidate without a host means not every candidate parses |
| Util.ScanUrls | util.js:17-98 | the returned report and the sequence of scanner calls and unlinks are the per-URL successes, failures and effects in URL order, concluded as `scanUrls` concludes |
| Util.Threshold | util.js:52 | `Number(limit)`, with NaN and zero falling back to -1 (NoLimitNoFullScan states the consequence) |
| Util.NeedsFullScan | util.js:52 | file sizes missing and a file count below the threshold, false without `stats` (FullScanIff states when it leads to a full scan) |
| Util.Attempt | util.js:26-82 | one turn of the loop: the local check, the fast scan, the optional unlink and full scan, and the entry it records (LocalNotScanned, FullScanIff, FailureReason state it) |
| Util.Conclusion | util.js:88-96 | the end of `scanUrls`: a `ScanError` when URLs were given and none succeeded, otherwise both lists (ScanErrorIff states it) |
| Util.PartitionCount | util.js:24-84 | every URL ends up in exactly one of the two lists |
| Util.LocalNotScanned | util.js:26-35 | a local URL fails with the fixed reason and `missingFileSizes: false`, and nothing outside is called for it |
| Util.LocalNeverScanned | util.js:26-35 | no local URL of the list is ever handed to the scanner, fast or full |
| Util.FullScanIff | util.js:49-57 | a full scan of a URL happens exactly when it is in the list and not local, its fast scan succeeds with file sizes missing and fewer files than the threshold, and its session file is removed |
| Util.NoLimitNoFullScan | util.js:52 | a missing, zero or non-numeric limit makes the threshold -1, so no full scan is ever done |
| Util.FailureReason | util.js:63-81 | a failed non-local URL carries the indexer's own message or "Internal Error"; for a failed fast scan it is that scan's reason |
| Util.OutOfMemoryIsInternal | util.js:66-78 | a failure that is not an `ODDError` instance, such as an out-of-memory failure, is reported as "Internal Error", never as the out-of-memory reason computed at lines 66-74 |
| Util.NoSuccesses | util.js:88 | the success list is empty exactly when every URL failed |
| Util.ScanErrorIff | util.js:88-96 | a `ScanError` is thrown exactly when URLs were given and all failed; it carries the one failure's reason, or the generic message; an empty list gives two empty lists |
| Bot.Young | bot.js:172-175 | the age filter's comparison, in seconds (YoungIff states it in whole milliseconds) |
| Bot.Pipeline | bot.js:159-185 | the filter chain: dedup by id, then age, blacklist and `oldIds` (PipelineMembership, PipelineKeepsFirst, PipelineNarrows, RerunYieldsNothing state it) |
| Bot.YoungIff | bot.js:172-175 | a submission passes the age filter exactly when it was created at most five days before now, in whole milliseconds |
| Bot.PipelineMembership | bot.js:159-185 | a submission survives exactly when dedup keeps it and it is young, not by a blacklisted author, and not registered; survivors come from the batch |
| Bot.PipelineKeepsFirst | bot.js:159-185 | the first submission with an id that passes the three tests survives |
| Bot.PipelineNarrows | bot.js:159-185 | the survivors are a subsequence of the batch, no longer than its deduplication, with distinct ids, none of them registered |
| Bot.SubseqKeysDistinct | bot.js:160-185 | later filters keep the ids distinct |
| Bot.RerunYieldsNothing | bot.js:183-189 | after the survivors are registered, the same batch at the same time or later yields no survivor |
| Bot.DedupById | bot.js:160-169 | the dedup filter with its `filteredSubmissionIds` list keeps exactly the first submission with each id |
| Bot.Survivors | bot.js:159-185 | the four filters in order compute the filter chain |
| Bot.GenerateComment | bot.js:101-118 | the reply exists exactly when there is a scan result: header, each table after a newline, the first result's credits, and the footer with both links; without results it throws |
| Bot.Tables | bot.js:103-105 | the `reduce` joining the tables, each after a newline (TablesAppend, TablesOne and TableAt state it) |
| Bot.TablesAppend | bot.js:103-105 | the tables of two lists of results are the tables of the first followed by those of the second |
| Bot.TablesOne | bot.js:103-105 | one result contributes a newline and its table |
| Bot.TableAt | bot.js:103-105 | each result's table appears after a newline, right after the tables of the results before it |
| Bot.AnyBy | bot.js:73-75 | the logical-or `reduce` over the authors (AnyByIff states it) |
| Bot.AnyByIff | bot.js:73-75 | the `reduce` over the authors is true exactly when the bot's name is among them |
| Bot.AlreadyCommented | bot.js:69-99 | both checks are true exactly when the fetch succeeded and one author is the bot; a fetch error and an empty list give false |
| Bot.Lower | bot.js:272 | lower-casing keeps the length and lower-cases every character |
| Bot.WasCommentKeepsAll | bot.js:268 | the `was_comment` filter with an async callback keeps every message |
| Bot.Unreplied | bot.js:268-284 | the three filters that choose the comments to thank (UnrepliedIff states it) |
| Bot.UnrepliedIff | bot.js:268-284 | a message is thanked exactly when it is in the inbox, its lower-cased body is a praise, and no reply of the bot was found under it |
| Bot.Bot.constructor | bot.js:8-26 | no registered ids, all three flags clear, and the developer and feedback links set |
| Bot.Bot.BeginRefresh | bot.js:122-123 | a refresh sets its flag; nothing else changes |
| Bot.Bot.FinishRefresh | bot.js:125-251 | on a listing failure nothing is registered; otherwise the survivors of the filter chain are returned and appended to `oldIds`, which stays duplicate-free; the flag is cleared on both paths |
| Bot.Bot.Register | bot.js:186-189 | the survivors' ids are appended to `oldIds` in order; the flags are unchanged |
| Bot.Bot.SubmissionsTick | bot.js:42-49 | a tick starts a refresh exactly when none is running |
| Bot.Bot.BeginInbox | bot.js:257-258 | an inbox check sets its flag |
| Bot.Bot.FinishInbox | bot.js:259-307 | the praising messages without a reply from the bot are collected in order; the answers that went through and those that failed add up to them; the flag is cleared on both paths |
| Bot.Bot.InboxTick | bot.js:51-58 | a tick starts an inbox check exactly when none is running |
| Bot.Bot.BeginMentions | bot.js:313-314 | a mentions check sets the inbox flag, not its own |
| Bot.Bot.FinishMentions | bot.js:318-333 | a mentions check clears the inbox flag on both paths |
| Bot.Bot.MentionsTick | bot.js:60-67 | because nothing sets `running.checkForMentions`, every tick starts a mentions check |

## Left out

- The reddit API (snoowrap) is left out: listings, comment trees, replies,
  moderator lookup, approval and the inbox. Their results are parameters.
- The listing loop of `refreshSubmissions` (bot.js:130-155) is left out.
  This covers the `limit: 10` pages and the sort-mode switch, and is
  modelled as one concatenated listing or a failure. An unknown sort mode
  puts `undefined` into the listing, dedup then throws, and that is a
  failure.
- The reply loop of `refreshSubmissions` (bot.js:195-243) is left out
  because it is API traffic. As written it cannot produce a scan reply:
  - `extractUrls` is `async`, and bot.js:201 does not await it, so
    `odUrls` is a promise.
  - `scanUrls(odUrls)` then rejects at util.js:24, because a promise is
    not iterable. bot.js:235 catches that rejection, so no submission
    ever gets a scan reply.
  - The un-awaited `extractUrls` promise can reject on its own: at
    util.js:131 when `JSON.parse` fails, or at util.js:160 when `new URL`
    is given a relative markdown link. Nothing handles that rejection.
    On Node 15 and later an unhandled rejection ends the process.
- `Bot.Pipeline`, `Bot.YoungIff`: `created_utc` is taken as a whole
  number of seconds, although reddit sends it as a JavaScript number that
  may carry a fraction.
- `Bot.FinishRefresh`: `Date.now()` is read once per refresh. The source
  reads it once per submission.
- `Bot.Lower`: only ASCII letters are lower-cased, while `toLowerCase`
  covers all of Unicode.
- `Bot.GenerateComment`: the `TypeError` message is given as a fixed
  string.
- `Util.ExtractUrls`: the thrown `TypeError` is reduced to its message
  "Invalid URL". `excludedDomains` is the parsed
  `DOMAINS_EXCLUDED_FROM_SCANNING`; reading and parsing it is left out.
- `Util.OutOfMemoryIsInternal`: the model takes `ODDOutOfMemoryError` not
  to be a subclass of `ODDError`. The indexer package that defines both
  classes is not part of this model. If it is a subclass, util.js:78
  reports the error's own message instead of "Internal Error".
- `Util.ScanUrls`: the scanner is a deterministic function of the URL and
  `fastScan`. Calling twice with the same arguments gives the same
  outcome.
- `Util.ScanUrls` treats a failing `fs.unlink` of the fast scan's session
  file as a caught failure with no partial result. Why it fails is not
  modelled.
- `saveScanResults` (util.js:61, 170 on) is fire-and-forget with its own
  error handling, so it is left out.
- The unreachable second `throw` in `scanUrls` (util.js:92-94) is left
  out.
- `Downloader.ScanProcess`: spawning ODD and its command line are left
  out, and so is the environment read in the constructor. Stream chunks
  are strings.
- `Downloader.ScanProcess.OnClose` uses the corrected handler (see
  Findings). The as-written one is `Downloader.CloseAsWritten`.
- `Downloader.Collect`: only a missing path makes `fs.unlinkSync` and
  `fs.readFileSync` throw. `JSON.parse` is a parameter.
- An exception that escapes a handler crashes the Node process. The model
  only records the exception and leaves the promise pending.
- The text model's `split` and `join` assume a non-empty separator. That
  is the only kind the parser uses.
- Timer scheduling (`setInterval`) is left out. The first call of each
  `poll…` function is a start without a guard, so it is `Begin…`.
- The interleaving of several running tasks is left out.
- `startPolling`, `updateLink`, `tryToUploadScansFromDB` and
  `submitScanResults` are left out.
- The dashboard, launcher, private-message and error-class files are left
  out. They are thin wrappers around services.

## Findings

| source | as written | input that shows it | evidently intended | confidence | as-written member | corrected member |
|---|---|---|---|---|---|---|
| open-directory-downloader.js:55-65 | `finalResults.match(...)` returns null when the "Saved session" or "Saved URL list" line is missing, and `null.length` throws out of the `close` handler, so the promise never settles and the rejections at lines 57 and 63 can never happen | ODD's standard output is exactly `Finshed indexing` and the exit code is 1 | reject with "JSON session file not found!" or "URL list file not found!" | high; not executed | Downloader.CloseAsWritten, Downloader.CloseAsWrittenHangs | Downloader.Close, Downloader.CloseSettles |
