/** The scanning utilities: which URLs a post or comment names, which of
    them point at a local host, and how the scans of a list of URLs are
    gathered into successes and failures.

    The services the utilities call are parameters: `new URL(u).hostname`
    (None when the constructor throws), the is-local-ip package, the
    markdown link extractor, the indexer's `scanUrl`, `fs.unlink` and the
    numeric value of the slow-scan file limit. */
module Util {
  import opened Basics

  // ---------------------------------------------------------------------
  // isLocalIP

  /** `isLocalIP(url)`: the host is local, or has no dot in it; a URL that
      does not parse is not local. */
  function IsLocalIP(url: string, hostname: string -> Option<string>, isLocal: string -> bool): (r: bool)
    ensures hostname(url).None? ==> !r
    ensures hostname(url).Some? && '.' !in hostname(url).value ==> r
    ensures hostname(url).Some? && '.' in hostname(url).value ==> (r <==> isLocal(hostname(url).value))
  {
    match hostname(url)
    case None => false
    case Some(host) => isLocal(host) || '.' !in host
  }

  // ---------------------------------------------------------------------
  // extractUrls

  /** What the bot reads URLs from. */
  datatype Post = Comment(body: string) | Submission(isSelf: bool, url: string, selftext: string)

  /** The candidate URLs: the links in a comment's body, the link of a link
      post, or the links in a self post's text. */
  function Matches(post: Post, linksIn: string -> seq<string>): seq<string> {
    match post
    case Comment(body) => linksIn(body)
    case Submission(isSelf, url, selftext) => if !isSelf then [url] else linksIn(selftext)
  }

  /** The message of the `TypeError` that `new URL` throws. */
  const InvalidUrl: string := "Invalid URL"

  function Id(u: string): string { u }

  /** A URL whose host parses and is not excluded. */
  predicate Allowed(u: string, hostname: string -> Option<string>, excluded: seq<string>) {
    hostname(u).Some? && hostname(u).value !in excluded
  }

  function AllowedBy(hostname: string -> Option<string>, excluded: seq<string>): string -> bool {
    u => Allowed(u, hostname, excluded)
  }

  /** The URLs `extractUrls` returns when every candidate parses: the first
      occurrence of each allowed candidate, in order. */
  function Extracted(matches: seq<string>, hostname: string -> Option<string>, excluded: seq<string>): seq<string> {
    Filter(UniqueBy(matches, Id), AllowedBy(hostname, excluded))
  }

  /** `extractUrls(post)`: a candidate is kept when it is not kept already
      and its host is not excluded; the host is only looked up for a
      candidate not kept already, and a candidate that does not parse
      makes the whole call fail. */
  method ExtractUrls(post: Post, linksIn: string -> seq<string>, hostname: string -> Option<string>,
                     excluded: seq<string>) returns (r: Result<seq<string>>)
    ensures r.Success? <==> AllParse(Matches(post, linksIn), hostname)
    ensures r.Failure? ==> r.error == InvalidUrl
    ensures r.Success? ==> r.value == Extracted(Matches(post, linksIn), hostname, excluded)
  {
    var matches := Matches(post, linksIn);
    var filtered: seq<string> := [];
    var i := 0;
    while i < |matches|
      invariant 0 <= i <= |matches|
      invariant forall j :: 0 <= j < i ==> hostname(matches[j]).Some?
      invariant filtered == Extracted(matches[..i], hostname, excluded)
    {
      var url := matches[i];
      assert matches[..i + 1] == matches[..i] + [url];
      if url in filtered {
        ExtractSeen(matches[..i], url, hostname, excluded);
      } else {
        var host := hostname(url);
        if host.None? {
          NotAllParse(matches, hostname, i);
          return Failure(InvalidUrl);
        }
        ExtractNew(matches[..i], url, hostname, excluded);
        if host.value !in excluded {
          filtered := filtered + [url];
        }
      }
      i := i + 1;
    }
    assert matches[..i] == matches;
    return Success(filtered);
  }

  /** Every candidate has a host. */
  predicate AllParse(matches: seq<string>, hostname: string -> Option<string>) {
    forall j :: 0 <= j < |matches| ==> hostname(matches[j]).Some?
  }

  lemma {:induction false} NotAllParse(matches: seq<string>, hostname: string -> Option<string>, i: nat)
    requires i < |matches| && hostname(matches[i]).None?
    ensures !AllParse(matches, hostname)
  {
  }

  lemma {:induction false} KeysId(s: seq<string>)
    ensures Keys(s, Id) == s
  {
  }

  /** A candidate kept already changes nothing. */
  lemma {:induction false} ExtractSeen(prefix: seq<string>, u: string, hostname: string -> Option<string>,
                                       excluded: seq<string>)
    requires u in Extracted(prefix, hostname, excluded)
    ensures hostname(u).Some?
    ensures Extracted(prefix + [u], hostname, excluded) == Extracted(prefix, hostname, excluded)
  {
    ExtractStep(prefix, u, hostname, excluded);
  }

  /** A candidate not kept yet is kept when its host is not excluded. */
  lemma {:induction false} ExtractNew(prefix: seq<string>, u: string, hostname: string -> Option<string>,
                                      excluded: seq<string>)
    requires u !in Extracted(prefix, hostname, excluded) && hostname(u).Some?
    ensures Extracted(prefix + [u], hostname, excluded) ==
      if hostname(u).value in excluded then Extracted(prefix, hostname, excluded)
      else Extracted(prefix, hostname, excluded) + [u]
  {
    ExtractStep(prefix, u, hostname, excluded);
  }

  /** One candidate more: a candidate seen before changes nothing, a new
      one is kept when it is allowed. */
  lemma {:induction false} ExtractStep(prefix: seq<string>, u: string, hostname: string -> Option<string>,
                                       excluded: seq<string>)
    ensures u in Extracted(prefix, hostname, excluded) <==> u in prefix && Allowed(u, hostname, excluded)
    ensures Extracted(prefix + [u], hostname, excluded) ==
      if u in prefix || !Allowed(u, hostname, excluded) then Extracted(prefix, hostname, excluded)
      else Extracted(prefix, hostname, excluded) + [u]
  {
    var allow := AllowedBy(hostname, excluded);
    var unique := UniqueBy(prefix, Id);
    assert (prefix + [u])[..|prefix|] == prefix;
    KeysId(prefix);
    KeysId(unique);
    UniqueByKeys(prefix, Id, u);
    FilterMembership(unique, allow, u);
    assert (unique + [u])[..|unique|] == unique;
  }

  /** What `extractUrls` returns has no duplicates, holds exactly the
      allowed candidates, and keeps their order. */
  lemma {:induction false} ExtractedProperties(matches: seq<string>, hostname: string -> Option<string>,
                                               excluded: seq<string>)
    ensures Distinct(Extracted(matches, hostname, excluded))
    ensures IsSubseq(Extracted(matches, hostname, excluded), matches)
    ensures forall u :: u in Extracted(matches, hostname, excluded) <==>
      u in matches && hostname(u).Some? && hostname(u).value !in excluded
    ensures var r := Extracted(matches, hostname, excluded);
      forall i, j :: 0 <= i < j < |r| ==>
        r[i] in matches && r[j] in matches && FirstIndex(matches, r[i]) < FirstIndex(matches, r[j])
  {
    ExtractedInOrder(matches, hostname, excluded);
    var allow := AllowedBy(hostname, excluded);
    var unique := UniqueBy(matches, Id);
    UniqueByDistinct(matches, Id);
    KeysId(unique);
    FilterDistinct(unique, allow);
    UniqueBySubseq(matches, Id);
    FilterSubseq(unique, allow);
    SubseqTrans(Filter(unique, allow), unique, matches);
    forall u
      ensures u in Filter(unique, allow) <==> u in matches && Allowed(u, hostname, excluded)
    {
      FilterMembership(unique, allow, u);
      UniqueByKeys(matches, Id, u);
      KeysId(matches);
    }
  }

  /** The extracted URLs come in the order in which they first occur among
      the candidates. */
  lemma {:induction false} ExtractedInOrder(matches: seq<string>, hostname: string -> Option<string>,
                                            excluded: seq<string>)
    ensures InOrder(Extracted(matches, hostname, excluded), matches)
    decreases |matches|
  {
    if matches != [] {
      var prefix, u := matches[..|matches| - 1], matches[|matches| - 1];
      assert matches == prefix + [u];
      var p := Extracted(prefix, hostname, excluded);
      ExtractedInOrder(prefix, hostname, excluded);
      forall x | x in p
        ensures x in prefix
      {
        ExtractStep(prefix, x, hostname, excluded);
      }
      ExtractStep(prefix, u, hostname, excluded);
      if u in prefix || !Allowed(u, hostname, excluded) {
        InOrderExtend(p, prefix, u);
      } else {
        InOrderSnoc(p, prefix, u);
      }
    }
  }

  /** A link post yields its one link, nothing when its host is excluded,
      and a failure when it does not parse. */
  lemma {:induction false} LinkPostUrls(url: string, selftext: string, linksIn: string -> seq<string>,
                                        hostname: string -> Option<string>, excluded: seq<string>)
    ensures Matches(Submission(false, url, selftext), linksIn) == [url]
    ensures Extracted([url], hostname, excluded) == if Allowed(url, hostname, excluded) then [url] else []
  {
    ExtractStep([], url, hostname, excluded);
    assert [] + [url] == [url];
  }

  // ---------------------------------------------------------------------
  // scanUrls

  /** The parts of a scan result that `scanUrls` looks at. `totalFiles` is
      absent when the result has no `stats`. */
  datatype Scan = Scan(missingFileSizes: bool, totalFiles: Option<nat>, jsonFile: string, reddit: string)

  /** The first element of the array a failed scan rejects with. */
  datatype Fault = OddFault(message: string) | OutOfMemoryFault | OtherFault

  /** The second element of that array: the partial result, if any. */
  datatype Partial = Partial(reddit: Option<string>, missingFileSizes: Option<bool>)

  datatype Outcome = Scanned(scan: Scan) | Threw(fault: Fault, partial: Option<Partial>)

  /** A JavaScript number, as far as `Number(x) || -1` cares. */
  datatype JsNumber = NaN | Num(value: real)

  /** The services `scanUrls` calls. `scan(u, fast)` is `scanUrl(u, options)`
      with `fastScan` set to `fast`; `unlink(p)` is false when removing `p`
      fails. */
  datatype Services = Services(
    hostname: string -> Option<string>,
    isLocal: string -> bool,
    scan: (string, bool) -> Outcome,
    unlink: string -> bool,
    slowScanLimit: JsNumber)

  datatype Failed = Failed(url: string, reason: string, reddit: Option<string>, missingFileSizes: Option<bool>)

  datatype Entry = Succeeded(scan: Scan) | Failing(failure: Failed)

  /** A call `scanUrls` makes on the outside world. */
  datatype Effect = ScanCall(url: string, fastScan: bool) | Unlink(path: string)

  datatype Attempted = Attempted(entry: Entry, effects: seq<Effect>)

  datatype ScanReport = Report(successful: seq<Scan>, failed: seq<Failed>) | ScanError(message: string)

  const LocalReason: string := "Scans of local IPs or TLD-less domains are not possible"
  const InternalError: string := "Internal Error"
  const OutOfMemoryReason: string := "Scanner ran out of memory"
  const NoneScanned: string := "Couldn't scan any of the provided ODs"

  /** `Number(limit) || -1`: NaN and zero are falsy. */
  function Threshold(limit: JsNumber): real {
    if limit.NaN? || limit.value == 0.0 then -1.0 else limit.value
  }

  /** The condition for a full scan: file sizes are missing and the
      directory is small. `undefined < n` is false. */
  predicate NeedsFullScan(s: Scan, limit: JsNumber) {
    s.missingFileSizes && s.totalFiles.Some? && (s.totalFiles.value as real) < Threshold(limit)
  }

  /** The reason recorded for a failed scan: the indexer's own message, or
      "Internal Error" for anything else. */
  function Reason(f: Fault): string {
    if f.OddFault? then f.message else InternalError
  }

  function FailureOf(url: string, f: Fault, partial: Option<Partial>): Failed {
    Failed(url, Reason(f), if partial.Some? then partial.value.reddit else None,
           if partial.Some? then partial.value.missingFileSizes else None)
  }

  function Finish(url: string, o: Outcome): Entry {
    if o.Threw? then Failing(FailureOf(url, o.fault, o.partial)) else Succeeded(o.scan)
  }

  /** One turn of the loop in `scanUrls`. A failure to remove the session
      file of the fast scan is caught like a scan failure. */
  function Attempt(url: string, sv: Services): Attempted {
    if IsLocalIP(url, sv.hostname, sv.isLocal) then
      Attempted(Failing(Failed(url, LocalReason, None, Some(false))), [])
    else
      var first := sv.scan(url, true);
      if first.Threw? || !NeedsFullScan(first.scan, sv.slowScanLimit) then
        Attempted(Finish(url, first), [ScanCall(url, true)])
      else if !sv.unlink(first.scan.jsonFile) then
        Attempted(Failing(FailureOf(url, OtherFault, None)), [ScanCall(url, true), Unlink(first.scan.jsonFile)])
      else
        Attempted(Finish(url, sv.scan(url, false)),
                  [ScanCall(url, true), Unlink(first.scan.jsonFile), ScanCall(url, false)])
  }

  /** The scans that succeeded, in the order of the URLs. */
  function Successes(urls: seq<string>, sv: Services): seq<Scan>
    decreases |urls|
  {
    if urls == [] then []
    else
      var e := Attempt(urls[|urls| - 1], sv).entry;
      Successes(urls[..|urls| - 1], sv) + if e.Succeeded? then [e.scan] else []
  }

  /** The scans that failed, in the order of the URLs. */
  function Failures(urls: seq<string>, sv: Services): seq<Failed>
    decreases |urls|
  {
    if urls == [] then []
    else
      var e := Attempt(urls[|urls| - 1], sv).entry;
      Failures(urls[..|urls| - 1], sv) + if e.Failing? then [e.failure] else []
  }

  /** Everything the loop does outside, in order. */
  function Effects(urls: seq<string>, sv: Services): seq<Effect>
    decreases |urls|
  {
    if urls == [] then [] else Effects(urls[..|urls| - 1], sv) + Attempt(urls[|urls| - 1], sv).effects
  }

  /** The end of `scanUrls`: with URLs given and none scanned, the
      `ScanError` says why, and otherwise both lists are returned. */
  function Conclusion(urls: seq<string>, sv: Services): ScanReport {
    var successful := Successes(urls, sv);
    var failed := Failures(urls, sv);
    if |successful| == 0 && |urls| > 0 then
      ScanError(if |failed| == 1 then failed[0].reason else NoneScanned)
    else Report(successful, failed)
  }

  /** `scanUrls(urls)`. */
  method ScanUrls(urls: seq<string>, sv: Services) returns (r: ScanReport, effects: seq<Effect>)
    ensures r == Conclusion(urls, sv)
    ensures effects == Effects(urls, sv)
  {
    var successful: seq<Scan> := [];
    var failed: seq<Failed> := [];
    effects := [];
    var i := 0;
    while i < |urls|
      invariant 0 <= i <= |urls|
      invariant successful == Successes(urls[..i], sv)
      invariant failed == Failures(urls[..i], sv)
      invariant effects == Effects(urls[..i], sv)
    {
      var url := urls[i];
      assert urls[..i + 1][..i] == urls[..i];
      assert urls[..i + 1][i] == url;
      if IsLocalIP(url, sv.hostname, sv.isLocal) {
        failed := failed + [Failed(url, LocalReason, None, Some(false))];
      } else {
        var result := sv.scan(url, true);
        effects := effects + [ScanCall(url, true)];
        var entry: Entry;
        if result.Scanned? && NeedsFullScan(result.scan, sv.slowScanLimit) {
          effects := effects + [Unlink(result.scan.jsonFile)];
          if sv.unlink(result.scan.jsonFile) {
            result := sv.scan(url, false);
            effects := effects + [ScanCall(url, false)];
            entry := Finish(url, result);
          } else {
            entry := Failing(FailureOf(url, OtherFault, None));
          }
        } else {
          entry := Finish(url, result);
        }
        if entry.Succeeded? {
          successful := successful + [entry.scan];
        } else {
          failed := failed + [entry.failure];
        }
      }
      i := i + 1;
    }
    assert urls[..i] == urls;
    if |successful| == 0 && |urls| > 0 {
      r := ScanError(if |failed| == 1 then failed[0].reason else NoneScanned);
    } else {
      r := Report(successful, failed);
    }
  }

  // ---------------------------------------------------------------------
  // Properties of scanUrls.

  /** Every URL ends up in exactly one of the two lists. */
  lemma {:induction false} PartitionCount(urls: seq<string>, sv: Services)
    ensures |Successes(urls, sv)| + |Failures(urls, sv)| == |urls|
    decreases |urls|
  {
    if urls != [] {
      PartitionCount(urls[..|urls| - 1], sv);
    }
  }

  /** A local URL is never scanned: it fails with the fixed reason and
      without missing file sizes, and nothing outside is called for it. */
  lemma {:induction false} LocalNotScanned(u: string, sv: Services)
    requires IsLocalIP(u, sv.hostname, sv.isLocal)
    ensures Attempt(u, sv).entry == Failing(Failed(u, LocalReason, None, Some(false)))
    ensures Attempt(u, sv).effects == []
  {
  }

  /** No local URL of the list is ever handed to the scanner. */
  lemma {:induction false} LocalNeverScanned(urls: seq<string>, sv: Services, u: string, fast: bool)
    requires IsLocalIP(u, sv.hostname, sv.isLocal)
    ensures ScanCall(u, fast) !in Effects(urls, sv)
    decreases |urls|
  {
    if urls != [] {
      LocalNeverScanned(urls[..|urls| - 1], sv, u, fast);
    }
  }

  /** A full scan of a URL in the list happens exactly when the URL is not
      local, its fast scan succeeded with file sizes missing and fewer files
      than the threshold, and its session file could be removed. */
  lemma {:induction false} FullScanIff(urls: seq<string>, sv: Services, u: string)
    ensures ScanCall(u, false) in Effects(urls, sv) <==>
      && u in urls
      && !IsLocalIP(u, sv.hostname, sv.isLocal)
      && sv.scan(u, true).Scanned?
      && NeedsFullScan(sv.scan(u, true).scan, sv.slowScanLimit)
      && sv.unlink(sv.scan(u, true).scan.jsonFile)
    decreases |urls|
  {
    if urls != [] {
      var init, last := urls[..|urls| - 1], urls[|urls| - 1];
      assert urls == init + [last];
      FullScanIff(init, sv, u);
    }
  }

  /** A missing, zero or non-numeric threshold is -1, so no directory is
      small enough for a full scan. */
  lemma {:induction false} NoLimitNoFullScan(s: Scan, limit: JsNumber)
    requires limit.NaN? || limit == Num(0.0)
    ensures !NeedsFullScan(s, limit)
  {
  }

  /** The reason of a failed, non-local URL is the indexer's message when
      it rejected with its own error, and "Internal Error" otherwise; the
      out-of-memory reason is never chosen unless the indexer's message is
      that very text. */
  lemma {:induction false} FailureReason(u: string, sv: Services)
    requires !IsLocalIP(u, sv.hostname, sv.isLocal) && Attempt(u, sv).entry.Failing?
    ensures var reason := Attempt(u, sv).entry.failure.reason;
      && (reason == InternalError ||
          exists fast :: sv.scan(u, fast).Threw? && sv.scan(u, fast).fault == OddFault(reason))
      && (sv.scan(u, true).Threw? ==> reason == Reason(sv.scan(u, true).fault))
  {
    var first := sv.scan(u, true);
    if !first.Threw? && NeedsFullScan(first.scan, sv.slowScanLimit) && sv.unlink(first.scan.jsonFile) {
      var second := sv.scan(u, false);
      if second.fault.OddFault? {
        assert sv.scan(u, false).fault == OddFault(Attempt(u, sv).entry.failure.reason);
      }
    } else if first.Threw? && first.fault.OddFault? {
      assert sv.scan(u, true).fault == OddFault(Attempt(u, sv).entry.failure.reason);
    }
  }

  /** The out-of-memory reason is computed by the source but never used. */
  lemma {:induction false} OutOfMemoryIsInternal(u: string, sv: Services)
    requires !IsLocalIP(u, sv.hostname, sv.isLocal) && sv.scan(u, true).Threw?
    requires sv.scan(u, true).fault == OutOfMemoryFault
    ensures Attempt(u, sv).entry.Failing? && Attempt(u, sv).entry.failure.reason == InternalError
    ensures Attempt(u, sv).entry.failure.reason != OutOfMemoryReason
  {
  }

  /** No URL succeeded exactly when the list of successes is empty. */
  lemma {:induction false} NoSuccesses(urls: seq<string>, sv: Services)
    ensures |Successes(urls, sv)| == 0 <==> forall u :: u in urls ==> Attempt(u, sv).entry.Failing?
    decreases |urls|
  {
    if urls != [] {
      var init, last := urls[..|urls| - 1], urls[|urls| - 1];
      assert urls == init + [last];
      NoSuccesses(init, sv);
    }
  }

  /** `scanUrls` throws a `ScanError` exactly when URLs were given and none
      was scanned; its message is the reason of the one URL when there was
      one, and the generic message otherwise. An empty list gives two empty
      lists. */
  lemma {:induction false} ScanErrorIff(urls: seq<string>, sv: Services)
    ensures Conclusion(urls, sv).ScanError? <==>
      |urls| > 0 && forall u :: u in urls ==> Attempt(u, sv).entry.Failing?
    ensures Conclusion(urls, sv).ScanError? ==>
      Conclusion(urls, sv).message ==
        if |urls| == 1 then Attempt(urls[0], sv).entry.failure.reason else NoneScanned
    ensures urls == [] ==> Conclusion(urls, sv) == Report([], [])
  {
    NoSuccesses(urls, sv);
    PartitionCount(urls, sv);
    if |urls| == 1 && Conclusion(urls, sv).ScanError? {
      assert urls[..0] == [];
      assert urls[0] in urls;
    }
  }
}
