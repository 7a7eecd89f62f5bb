/** The reddit bot: which submissions a refresh hands on for a reply, the
    registry of submissions already dealt with, the `running` flags that
    keep a timer tick from starting a task that is still running, the reply
    text, the "already replied" checks and the choice of praising comments
    to thank.

    The reddit API is left out: a listing, the author names of a comment
    tree and the success of a reply are parameters. An `async` task is
    split at its first `await`: `Begin…` is what runs synchronously when
    the task is called, `Finish…` the rest. */
module Bot {
  import opened Basics

  // ---------------------------------------------------------------------
  // The submission pipeline of refreshSubmissions

  /** The fields of a submission the pipeline reads; `author` is
      `author.name`. */
  datatype Submission = Submission(id: string, createdUtc: int, author: string)

  /** Five days, in milliseconds. */
  const FiveDaysMs: int := 1000 * 60 * 60 * 24 * 5

  function IdOf(s: Submission): string { s.id }

  function Ids(s: seq<Submission>): seq<string> { Keys(s, IdOf) }

  /** `created_utc >= (Date.now() - 5 days) / 1000`, in seconds. */
  predicate Young(s: Submission, nowMs: int) {
    (s.createdUtc as real) >= ((nowMs - FiveDaysMs) as real) / 1000.0
  }

  function YoungAt(nowMs: int): Submission -> bool {
    s => Young(s, nowMs)
  }

  function NotBlacklisted(blacklistedUsers: seq<string>): Submission -> bool {
    (s: Submission) => s.author !in blacklistedUsers
  }

  function NotSeen(oldIds: seq<string>): Submission -> bool {
    (s: Submission) => s.id !in oldIds
  }

  /** The filter chain: the first submission with each id, then those
      younger than five days, then those by authors not blacklisted, then
      those whose id is not registered yet. */
  function Pipeline(batch: seq<Submission>, nowMs: int, blacklistedUsers: seq<string>,
                    oldIds: seq<string>): seq<Submission>
  {
    var unique := UniqueBy(batch, IdOf);
    var young := Filter(unique, YoungAt(nowMs));
    var allowed := Filter(young, NotBlacklisted(blacklistedUsers));
    Filter(allowed, NotSeen(oldIds))
  }

  /** The age test in whole numbers: a submission is young when it was
      created at most five days before now. */
  lemma {:induction false} YoungIff(s: Submission, nowMs: int)
    ensures Young(s, nowMs) <==> s.createdUtc * 1000 >= nowMs - FiveDaysMs
  {
    var c, d := s.createdUtc as real, (nowMs - FiveDaysMs) as real;
    assert (s.createdUtc * 1000) as real == c * 1000.0;
    assert c >= d / 1000.0 <==> c * 1000.0 >= d;
  }

  lemma {:induction false} KeysMembership<T, K>(s: seq<T>, key: T -> K, x: T)
    requires x in s
    ensures key(x) in Keys(s, key)
  {
    var i :| 0 <= i < |s| && s[i] == x;
    assert Keys(s, key)[i] == key(x);
  }

  /** A survivor is a submission of the batch kept by deduplication that is
      young, not by a blacklisted author and not registered; every first
      submission with an id that passes the three tests survives. */
  lemma {:induction false} PipelineMembership(batch: seq<Submission>, nowMs: int, blacklistedUsers: seq<string>,
                                              oldIds: seq<string>, x: Submission)
    ensures x in Pipeline(batch, nowMs, blacklistedUsers, oldIds) <==>
      && x in UniqueBy(batch, IdOf)
      && x.createdUtc * 1000 >= nowMs - FiveDaysMs
      && x.author !in blacklistedUsers
      && x.id !in oldIds
    ensures x in Pipeline(batch, nowMs, blacklistedUsers, oldIds) ==> x in batch
  {
    var unique := UniqueBy(batch, IdOf);
    var young := Filter(unique, YoungAt(nowMs));
    var allowed := Filter(young, NotBlacklisted(blacklistedUsers));
    FilterMembership(unique, YoungAt(nowMs), x);
    FilterMembership(young, NotBlacklisted(blacklistedUsers), x);
    FilterMembership(allowed, NotSeen(oldIds), x);
    YoungIff(x, nowMs);
    UniqueByMembership(batch, IdOf, x);
  }

  /** The first submission with each id that passes the three tests
      survives. */
  lemma {:induction false} PipelineKeepsFirst(batch: seq<Submission>, nowMs: int, blacklistedUsers: seq<string>,
                                              oldIds: seq<string>, i: nat)
    requires i < |batch| && batch[i].id !in Ids(batch[..i])
    requires batch[i].createdUtc * 1000 >= nowMs - FiveDaysMs
    requires batch[i].author !in blacklistedUsers && batch[i].id !in oldIds
    ensures batch[i] in Pipeline(batch, nowMs, blacklistedUsers, oldIds)
  {
    UniqueByFirst(batch, IdOf, i);
    PipelineMembership(batch, nowMs, blacklistedUsers, oldIds, batch[i]);
  }

  /** Every filter only deletes: the survivors are a subsequence of the
      batch, with no id twice, and none of them is registered. */
  lemma {:induction false} PipelineNarrows(batch: seq<Submission>, nowMs: int, blacklistedUsers: seq<string>,
                                           oldIds: seq<string>)
    ensures var survivors := Pipeline(batch, nowMs, blacklistedUsers, oldIds);
      && IsSubseq(survivors, batch)
      && |survivors| <= |UniqueBy(batch, IdOf)| <= |batch|
      && Distinct(Ids(survivors))
      && forall k :: k in Ids(survivors) ==> k !in oldIds
  {
    var unique := UniqueBy(batch, IdOf);
    var young := Filter(unique, YoungAt(nowMs));
    var allowed := Filter(young, NotBlacklisted(blacklistedUsers));
    var survivors := Filter(allowed, NotSeen(oldIds));
    UniqueBySubseq(batch, IdOf);
    FilterSubseq(unique, YoungAt(nowMs));
    FilterSubseq(young, NotBlacklisted(blacklistedUsers));
    FilterSubseq(allowed, NotSeen(oldIds));
    SubseqTrans(young, unique, batch);
    SubseqTrans(allowed, young, batch);
    SubseqTrans(survivors, allowed, batch);
    SubseqTrans(allowed, young, unique);
    SubseqTrans(survivors, allowed, unique);
    UniqueByDistinct(batch, IdOf);
    SubseqKeysDistinct(survivors, unique, IdOf);
    forall k | k in Ids(survivors)
      ensures k !in oldIds
    {
      var j :| 0 <= j < |Ids(survivors)| && Ids(survivors)[j] == k;
      FilterMembership(allowed, NotSeen(oldIds), survivors[j]);
    }
  }

  /** A subsequence of a sequence with distinct keys has distinct keys. */
  lemma {:induction false} SubseqKeysDistinct<T, K>(a: seq<T>, b: seq<T>, key: T -> K)
    requires IsSubseq(a, b) && Distinct(Keys(b, key))
    ensures Distinct(Keys(a, key))
    decreases |b|
  {
    if a != [] && b != [] {
      var a', b' := a[..|a| - 1], b[..|b| - 1];
      assert Keys(b', key) == Keys(b, key)[..|b| - 1];
      if a[|a| - 1] == b[|b| - 1] && IsSubseq(a', b') {
        SubseqKeysDistinct(a', b', key);
        assert Keys(a', key) == Keys(a, key)[..|a| - 1];
        forall j | 0 <= j < |a| - 1
          ensures Keys(a, key)[j] != Keys(a, key)[|a| - 1]
        {
          assert a'[j] in a';
          SubseqMembership(a', b', a'[j]);
          KeysMembership(b', key, a'[j]);
        }
      } else {
        SubseqKeysDistinct(a, b', key);
      }
    }
  }

  /** Registering the survivors makes the same batch yield nothing when it
      comes again at the same time or later. */
  lemma {:induction false} RerunYieldsNothing(batch: seq<Submission>, nowMs: int, laterMs: int,
                                              blacklistedUsers: seq<string>, oldIds: seq<string>)
    requires nowMs <= laterMs
    ensures var first := Pipeline(batch, nowMs, blacklistedUsers, oldIds);
      Pipeline(batch, laterMs, blacklistedUsers, oldIds + Ids(first)) == []
  {
    var first := Pipeline(batch, nowMs, blacklistedUsers, oldIds);
    var again := Pipeline(batch, laterMs, blacklistedUsers, oldIds + Ids(first));
    if again != [] {
      var x := again[0];
      PipelineMembership(batch, laterMs, blacklistedUsers, oldIds + Ids(first), x);
      PipelineMembership(batch, nowMs, blacklistedUsers, oldIds, x);
      KeysMembership(first, IdOf, x);
      assert false;
    }
  }

  /** The de-duplication filter of `refreshSubmissions`, remembering the ids
      it has let through in `filteredSubmissionIds`. */
  method DedupById(batch: seq<Submission>) returns (kept: seq<Submission>)
    ensures kept == UniqueBy(batch, IdOf)
  {
    var filteredSubmissionIds: seq<string> := [];
    kept := [];
    for i := 0 to |batch|
      invariant kept == UniqueBy(batch[..i], IdOf)
      invariant filteredSubmissionIds == Ids(kept)
    {
      var s := batch[i];
      assert batch[..i + 1] == batch[..i] + [s];
      assert (batch[..i] + [s])[..i] == batch[..i];
      UniqueByKeys(batch[..i], IdOf, s.id);
      if s.id !in filteredSubmissionIds {
        KeysAppend(kept, s, IdOf);
        filteredSubmissionIds := filteredSubmissionIds + [s.id];
        kept := kept + [s];
      }
    }
    assert batch[..|batch|] == batch;
  }

  /** The four filters of `refreshSubmissions`, in order. */
  method Survivors(batch: seq<Submission>, nowMs: int, blacklistedUsers: seq<string>, oldIds: seq<string>)
    returns (survivors: seq<Submission>)
    ensures survivors == Pipeline(batch, nowMs, blacklistedUsers, oldIds)
  {
    var unique := DedupById(batch);
    var young := Filter(unique, YoungAt(nowMs));
    var allowed := Filter(young, NotBlacklisted(blacklistedUsers));
    survivors := Filter(allowed, NotSeen(oldIds));
  }

  // ---------------------------------------------------------------------
  // The reply text

  /** What `generateComment` reads of a scan result. */
  datatype ScanSummary = ScanSummary(reddit: string, credits: string)

  const DevLink: string := "https://www.reddit.com/message/compose?to=Chaphasilor&subject=[DEV]"
  const FeedbackLink: string := "https://www.reddit.com/message/compose?to=Chaphasilor&subject=[FEEDBACK]"

  const Header: string := "\nHere are the scan results:  \n\n"

  /** The lines after the tables' credits: the sign-off and both links. */
  function Footer(devLink: string, feedbackLink: string): string {
    "\n\nI'm a bot, beep, boop!\n\n^([Contact Developer](" + devLink + ") | [Give Feedback](" + feedbackLink + "))\n    "
  }

  /** The `reduce` that joins the tables: each one after a newline. */
  function Tables(results: seq<ScanSummary>): string
    decreases |results|
  {
    if results == [] then "" else Tables(results[..|results| - 1]) + "\n" + results[|results| - 1].reddit
  }

  /** `generateComment(scanResults, devLink, feedbackLink)`; without results,
      reading `credits` of `scanResults[0]` throws. */
  function GenerateComment(results: seq<ScanSummary>, devLink: string, feedbackLink: string): (r: Result<string>)
    ensures r.Success? <==> |results| > 0
    ensures r.Success? ==>
      r.value == Header + Tables(results) + "  \n" + results[0].credits + Footer(devLink, feedbackLink)
  {
    if |results| == 0 then Failure("Cannot read properties of undefined (reading 'credits')")
    else Success(Header + Tables(results) + "  \n" + results[0].credits + Footer(devLink, feedbackLink))
  }

  /** The tables of two lists of results are the tables of the first
      followed by those of the second: each result contributes a newline and
      its table, in order. */
  lemma {:induction false} TablesAppend(a: seq<ScanSummary>, b: seq<ScanSummary>)
    ensures Tables(a + b) == Tables(a) + Tables(b)
    decreases |b|
  {
    if b != [] {
      var b', last := b[..|b| - 1], b[|b| - 1];
      assert (a + b)[..|a + b| - 1] == a + b';
      TablesAppend(a, b');
    } else {
      assert a + b == a;
    }
  }

  lemma {:induction false} TablesOne(r: ScanSummary)
    ensures Tables([r]) == "\n" + r.reddit
  {
    assert [r][..0] == [];
  }

  /** Result `i`'s table stands after a newline, right after the tables of
      the results before it. */
  lemma {:induction false} TableAt(results: seq<ScanSummary>, i: nat)
    requires i < |results|
    ensures var at := |Tables(results[..i])|;
      at + 1 + |results[i].reddit| <= |Tables(results)| &&
      Tables(results)[at..at + 1 + |results[i].reddit|] == "\n" + results[i].reddit
  {
    assert results == results[..i] + ([results[i]] + results[i + 1..]);
    TablesAppend(results[..i], [results[i]] + results[i + 1..]);
    TablesAppend([results[i]], results[i + 1..]);
    TablesOne(results[i]);
    var s := Tables(results[..i]) + (("\n" + results[i].reddit) + Tables(results[i + 1..]));
    var at := |Tables(results[..i])|;
    assert s[at..at + 1 + |results[i].reddit|] == "\n" + results[i].reddit;
  }

  // ---------------------------------------------------------------------
  // alreadyCommentedSubmission and alreadyCommentedComment

  /** The `reduce` over the fetched comments (or replies): does any have
      the given author? */
  function AnyBy(authors: seq<string>, username: string): bool
    decreases |authors|
  {
    if authors == [] then false else AnyBy(authors[..|authors| - 1], username) || authors[|authors| - 1] == username
  }

  lemma {:induction false} AnyByIff(authors: seq<string>, username: string)
    ensures AnyBy(authors, username) <==> username in authors
    decreases |authors|
  {
    if authors != [] {
      var init := authors[..|authors| - 1];
      assert authors == init + [authors[|authors| - 1]];
      AnyByIff(init, username);
    }
  }

  /** `alreadyCommentedSubmission` and `alreadyCommentedComment`, given the
      author names of the fetched comments (or the expanded replies): true
      exactly when one of them is the bot's; an error while fetching, and an
      empty list, give false. */
  function AlreadyCommented(fetched: Result<seq<string>>, username: string): (r: bool)
    ensures r <==> fetched.Success? && username in fetched.value
  {
    if fetched.Failure? then false
    else if |fetched.value| > 0 then AnyByIff(fetched.value, username); AnyBy(fetched.value, username)
    else false
  }

  // ---------------------------------------------------------------------
  // The praise filter of checkInbox

  /** An inbox message; `was_comment` plays no part, see
      `WasCommentKeepsAll`. */
  datatype Message = Message(id: string, body: string, author: string)

  function LowerChar(c: char): char {
    if 'A' <= c <= 'Z' then (c as int + 32) as char else c
  }

  /** `toLowerCase`, on ASCII letters. */
  function Lower(s: string): (r: string)
    ensures |r| == |s| && forall i :: 0 <= i < |s| ==> r[i] == LowerChar(s[i])
    decreases |s|
  {
    if s == [] then [] else Lower(s[..|s| - 1]) + [LowerChar(s[|s| - 1])]
  }

  /** The callback `async m => …` returns a promise, and a promise is
      truthy whatever it will resolve to. */
  function AsyncCallback(m: Message): bool { true }

  /** The `was_comment` filter keeps every message. */
  lemma {:induction false} WasCommentKeepsAll(messages: seq<Message>)
    ensures Filter(messages, AsyncCallback) == messages
    decreases |messages|
  {
    if messages != [] {
      WasCommentKeepsAll(messages[..|messages| - 1]);
    }
  }

  function PraiseIn(praises: seq<string>): Message -> bool {
    (m: Message) => Lower(m.body) in praises
  }

  function NotAnswered(replies: Message -> Result<seq<string>>, username: string): Message -> bool {
    m => !AlreadyCommented(replies(m), username)
  }

  /** The praising comments without a reply from the bot, in inbox order. */
  function Unreplied(messages: seq<Message>, praises: seq<string>, replies: Message -> Result<seq<string>>,
                     username: string): seq<Message>
  {
    Filter(Filter(Filter(messages, AsyncCallback), PraiseIn(praises)), NotAnswered(replies, username))
  }

  /** The bot thanks a message exactly when it is in the inbox, its
      lower-cased body is one of the praises, and no reply of the bot was
      found under it. */
  lemma {:induction false} UnrepliedIff(messages: seq<Message>, praises: seq<string>,
                                        replies: Message -> Result<seq<string>>, username: string, m: Message)
    ensures m in Unreplied(messages, praises, replies, username) <==>
      && m in messages
      && Lower(m.body) in praises
      && !(replies(m).Success? && username in replies(m).value)
  {
    WasCommentKeepsAll(messages);
    FilterMembership(messages, PraiseIn(praises), m);
    FilterMembership(Filter(messages, PraiseIn(praises)), NotAnswered(replies, username), m);
  }

  // ---------------------------------------------------------------------
  // The bot's state

  class Bot {
    /** Ids of the submissions already handed on for a reply. */
    var oldIds: seq<string>
    /** `running.refreshSubmissions`, `running.checkInbox`,
        `running.checkForMentions`. */
    var refreshing: bool
    var checkingInbox: bool
    var checkingMentions: bool
    const praises: seq<string>
    const blacklistedUsers: seq<string>
    const username: string
    /** The links `generateComment` is called with. */
    const devLink: string
    const feedbackLink: string

    /** No submission is handed on twice, and nothing sets
        `running.checkForMentions`. */
    ghost predicate Valid()
      reads this
    {
      Distinct(oldIds) && !checkingMentions
    }

    constructor(praises: seq<string>, blacklistedUsers: seq<string>, username: string)
      ensures Valid()
      ensures oldIds == [] && !refreshing && !checkingInbox && !checkingMentions
      ensures this.praises == praises && this.blacklistedUsers == blacklistedUsers && this.username == username
      ensures devLink == DevLink && feedbackLink == FeedbackLink
    {
      oldIds := [];
      refreshing := false;
      checkingInbox := false;
      checkingMentions := false;
      this.praises := praises;
      this.blacklistedUsers := blacklistedUsers;
      this.username := username;
      devLink := DevLink;
      feedbackLink := FeedbackLink;
    }

    /** `refreshSubmissions` up to its first `await`. */
    method BeginRefresh()
      modifies this
      ensures refreshing
      ensures oldIds == old(oldIds) && checkingInbox == old(checkingInbox) && checkingMentions == old(checkingMentions)
    {
      refreshing := true;
    }

    /** The rest of `refreshSubmissions`, given the concatenated listings
      (a failure when fetching one failed): the survivors of the pipeline
      are registered and returned for a reply, and the flag is cleared on
      both paths. */
    method FinishRefresh(listing: Result<seq<Submission>>, nowMs: int) returns (survivors: seq<Submission>)
      requires Valid()
      modifies this
      ensures Valid() && !refreshing
      ensures checkingInbox == old(checkingInbox) && checkingMentions == old(checkingMentions)
      ensures listing.Failure? ==> survivors == [] && oldIds == old(oldIds)
      ensures listing.Success? ==>
        && survivors == Pipeline(listing.value, nowMs, blacklistedUsers, old(oldIds))
        && oldIds == old(oldIds) + Ids(survivors)
    {
      if listing.Failure? {
        refreshing := false;
        return [];
      }
      survivors := Survivors(listing.value, nowMs, blacklistedUsers, oldIds);
      PipelineNarrows(listing.value, nowMs, blacklistedUsers, oldIds);
      DistinctAppend(oldIds, Ids(survivors));
      Register(survivors);
      refreshing := false;
    }

    /** The `forEach` that pushes the survivors' ids onto `oldIds`. */
    method Register(survivors: seq<Submission>)
      modifies this
      ensures oldIds == old(oldIds) + Ids(survivors)
      ensures refreshing == old(refreshing) && checkingInbox == old(checkingInbox)
      ensures checkingMentions == old(checkingMentions)
    {
      for k := 0 to |survivors|
        invariant oldIds == old(oldIds) + Ids(survivors[..k])
        invariant refreshing == old(refreshing) && checkingInbox == old(checkingInbox)
        invariant checkingMentions == old(checkingMentions)
      {
        assert survivors[..k + 1] == survivors[..k] + [survivors[k]];
        KeysAppend(survivors[..k], survivors[k], IdOf);
        oldIds := oldIds + [survivors[k].id];
      }
      assert survivors[..|survivors|] == survivors;
    }

    /** The timer callback of `pollSubmissions`: a refresh starts only when
      none is running. */
    method SubmissionsTick() returns (started: bool)
      modifies this
      ensures started <==> !old(refreshing)
      ensures refreshing
      ensures oldIds == old(oldIds) && checkingInbox == old(checkingInbox) && checkingMentions == old(checkingMentions)
    {
      started := !refreshing;
      if started {
        BeginRefresh();
      }
    }

    /** `checkInbox` up to its first `await`. */
    method BeginInbox()
      modifies this
      ensures checkingInbox
      ensures oldIds == old(oldIds) && refreshing == old(refreshing) && checkingMentions == old(checkingMentions)
    {
      checkingInbox := true;
    }

    /** The rest of `checkInbox`, given the inbox (a failure when fetching
      it failed), the author names under each message and whether each
      reply goes through: the praising messages without a reply of the bot
      are collected, each is answered, and the answers that went through
      and those that failed are counted. */
    method FinishInbox(inbox: Result<seq<Message>>, replies: Message -> Result<seq<string>>,
                       replyOk: Message -> bool)
      returns (unreplied: seq<Message>, success: nat, failed: nat)
      modifies this
      ensures !checkingInbox
      ensures oldIds == old(oldIds) && refreshing == old(refreshing) && checkingMentions == old(checkingMentions)
      ensures inbox.Failure? ==> unreplied == [] && success == 0 && failed == 0
      ensures inbox.Success? ==>
        && unreplied == Unreplied(inbox.value, praises, replies, username)
        && success == |Filter(unreplied, replyOk)|
        && success + failed == |unreplied|
    {
      unreplied, success, failed := [], 0, 0;
      if inbox.Failure? {
        checkingInbox := false;
        return;
      }
      var comments := Filter(inbox.value, AsyncCallback);
      var praising := Filter(comments, PraiseIn(praises));
      for k := 0 to |praising|
        invariant unreplied == Filter(praising[..k], NotAnswered(replies, username))
      {
        assert praising[..k + 1] == praising[..k] + [praising[k]];
        assert (praising[..k] + [praising[k]])[..k] == praising[..k];
        if !AlreadyCommented(replies(praising[k]), username) {
          unreplied := unreplied + [praising[k]];
        }
      }
      assert praising[..|praising|] == praising;
      for k := 0 to |unreplied|
        invariant success == |Filter(unreplied[..k], replyOk)|
        invariant success + failed == k
      {
        assert unreplied[..k + 1] == unreplied[..k] + [unreplied[k]];
        assert (unreplied[..k] + [unreplied[k]])[..k] == unreplied[..k];
        if replyOk(unreplied[k]) {
          success := success + 1;
        } else {
          failed := failed + 1;
        }
      }
      assert unreplied[..|unreplied|] == unreplied;
      checkingInbox := false;
    }

    /** The timer callback of `pollInbox`. */
    method InboxTick() returns (started: bool)
      modifies this
      ensures started <==> !old(checkingInbox)
      ensures checkingInbox
      ensures oldIds == old(oldIds) && refreshing == old(refreshing) && checkingMentions == old(checkingMentions)
    {
      started := !checkingInbox;
      if started {
        BeginInbox();
      }
    }

    /** `checkForMentions` up to its first `await`: it sets the inbox flag,
      not its own. */
    method BeginMentions()
      modifies this
      ensures checkingInbox
      ensures oldIds == old(oldIds) && refreshing == old(refreshing) && checkingMentions == old(checkingMentions)
    {
      checkingInbox := true;
    }

    /** The rest of `checkForMentions`: it clears the inbox flag on both
      paths, even while a `checkInbox` run is still going. */
    method FinishMentions()
      modifies this
      ensures !checkingInbox
      ensures oldIds == old(oldIds) && refreshing == old(refreshing) && checkingMentions == old(checkingMentions)
    {
      checkingInbox := false;
    }

    /** The timer callback of `pollMentions`: its flag is never set, so
      every tick starts a run. */
    method MentionsTick() returns (started: bool)
      requires Valid()
      modifies this
      ensures started && Valid() && checkingInbox
      ensures oldIds == old(oldIds) && refreshing == old(refreshing)
    {
      started := !checkingMentions;
      if started {
        BeginMentions();
      }
    }
  }
}
