/** The JavaScript string built-ins that the indexer-output parser relies on:
    `indexOf`, `split` and `join` with a non-empty string separator, and a
    regular expression of the form /literal(.*)/ without the global flag.
    Every function works on positions of one string, so that the pieces it
    produces are slices of that string. The contracts of the functions only
    bound positions; what the characters at them are is stated by lemmas. */
module Text {
  import opened Basics

  /** `pat` occurs in `s` starting at index `i`. */
  predicate OccursAt(s: string, pat: string, i: nat) {
    i + |pat| <= |s| && SameFrom(s, pat, i)
  }

  /** The characters of `pat` are those of `s` from index `i` on. */
  predicate SameFrom(s: string, pat: string, i: nat)
    requires i + |pat| <= |s|
    decreases |pat|
  {
    pat == [] || (s[i] == pat[0] && SameFrom(s, pat[1..], i + 1))
  }

  lemma {:induction false} OccursAtSlice(s: string, pat: string, i: nat)
    requires OccursAt(s, pat, i)
    ensures s[i..i + |pat|] == pat
    decreases |pat|
  {
    if pat != [] {
      OccursAtSlice(s, pat[1..], i + 1);
      assert s[i..i + |pat|] == [s[i]] + s[i + 1..i + |pat|];
    }
  }

  /** `s.indexOf(pat, from)`, with "not found" as None. */
  function IndexFrom(s: string, pat: string, from: nat): (r: Option<nat>)
    ensures r.Some? ==> from <= r.value && r.value + |pat| <= |s|
    decreases |s| - from
  {
    if from + |pat| > |s| then None
    else if OccursAt(s, pat, from) then Some(from)
    else IndexFrom(s, pat, from + 1)
  }

  /** `s.indexOf(pat)`. */
  function IndexOf(s: string, pat: string): Option<nat> {
    IndexFrom(s, pat, 0)
  }

  /** What `IndexFrom` finds is an occurrence. */
  lemma {:induction false} IndexFromOccurs(s: string, pat: string, from: nat)
    requires IndexFrom(s, pat, from).Some?
    ensures OccursAt(s, pat, IndexFrom(s, pat, from).value)
    decreases |s| - from
  {
    if from + |pat| <= |s| && !OccursAt(s, pat, from) {
      IndexFromOccurs(s, pat, from + 1);
    }
  }

  /** `IndexFrom` finds the first occurrence at or after `from`, and finds
      none only when there is none. */
  lemma {:induction false} IndexFromIsFirst(s: string, pat: string, from: nat)
    ensures IndexFrom(s, pat, from).Some? ==>
      forall j: nat :: from <= j < IndexFrom(s, pat, from).value ==> !OccursAt(s, pat, j)
    ensures IndexFrom(s, pat, from).None? ==> forall j: nat :: from <= j ==> !OccursAt(s, pat, j)
    decreases |s| - from
  {
    if from + |pat| <= |s| && !OccursAt(s, pat, from) {
      IndexFromIsFirst(s, pat, from + 1);
    }
  }

  /** The pieces of `s[from..]` between the non-overlapping occurrences of
      `sep` found from left to right. */
  function SplitFrom(s: string, sep: string, from: nat): (r: seq<string>)
    requires |sep| > 0 && from <= |s|
    ensures |r| >= 1
    ensures |r| == 1 <==> IndexFrom(s, sep, from).None?
    decreases |s| - from
  {
    var next := IndexFrom(s, sep, from);
    if next.None? then [s[from..]]
    else [s[from..next.value]] + SplitFrom(s, sep, next.value + |sep|)
  }

  /** `s.split(sep)` for a non-empty separator. */
  function Split(s: string, sep: string): seq<string>
    requires |sep| > 0
  {
    SplitFrom(s, sep, 0)
  }

  /** `parts.join(sep)`; the empty array joins to the empty string. */
  function Join(parts: seq<string>, sep: string): string
    decreases |parts|
  {
    if |parts| == 0 then ""
    else if |parts| == 1 then parts[0]
    else parts[0] + sep + Join(parts[1..], sep)
  }

  /** The text of `s` from `from` up to the next occurrence of `sep`, or to
      the end. */
  function PieceFrom(s: string, sep: string, from: nat): string
    requires from <= |s|
  {
    var next := IndexFrom(s, sep, from);
    if next.None? then s[from..] else s[from..next.value]
  }

  /** The start of the last separator that `SplitFrom(s, sep, from)` cuts at. */
  function LastSplitFrom(s: string, sep: string, from: nat): (r: Option<nat>)
    requires |sep| > 0 && from <= |s|
    ensures r.None? <==> IndexFrom(s, sep, from).None?
    ensures r.Some? ==> from <= r.value && r.value + |sep| <= |s|
    decreases |s| - from
  {
    var next := IndexFrom(s, sep, from);
    if next.None? then None
    else
      var later := LastSplitFrom(s, sep, next.value + |sep|);
      if later.None? then next else later
  }

  /** Where the text kept by `SplitFrom(s, sep, from).slice(0, -1)` ends:
      at the last separator, or at `from` when there is none. */
  function PrefixEnd(s: string, sep: string, from: nat): (r: nat)
    requires |sep| > 0 && from <= |s|
    ensures from <= r <= |s|
  {
    var last := LastSplitFrom(s, sep, from);
    if last.None? then from else last.value
  }

  /** The characters at which the `.` of a regular expression stops. */
  predicate IsLineTerminator(c: char) {
    c == '\n' || c == '\r' || c == '\U{2028}' || c == '\U{2029}'
  }

  /** The end of the greedy match of `(.*)` starting at `from`. */
  function LineEnd(s: string, from: nat): (r: nat)
    requires from <= |s|
    ensures from <= r <= |s|
    ensures forall j :: from <= j < r ==> !IsLineTerminator(s[j])
    ensures r == |s| || IsLineTerminator(s[r])
    decreases |s| - from
  {
    if from == |s| || IsLineTerminator(s[from]) then from
    else LineEnd(s, from + 1)
  }

  /** The result of `s.match(re)` for a regular expression without the
      global flag: null, or the whole match followed by the capture groups. */
  datatype Match = Null | Groups(groups: seq<string>)

  /** `s.match(/<prefix>(.*)/)` for a literal `prefix`. */
  function MatchLineAfter(s: string, prefix: string): Match {
    var at := IndexOf(s, prefix);
    if at.None? then Null
    else
      var start := at.value + |prefix|;
      Groups([s[at.value..LineEnd(s, start)], s[start..LineEnd(s, start)]])
  }

  // ---------------------------------------------------------------------
  // Steps of the functions above, one fact each.

  /** `SplitFrom` when no separator follows `from`. */
  lemma {:induction false} SplitFromEnd(s: string, sep: string, from: nat)
    requires |sep| > 0 && from <= |s| && IndexFrom(s, sep, from).None?
    ensures SplitFrom(s, sep, from) == [s[from..]]
  {
  }

  /** One step of `SplitFrom`: the piece before the next separator, then
      the pieces after it. */
  lemma {:induction false} SplitFromCut(s: string, sep: string, from: nat, i: nat)
    requires |sep| > 0 && from <= |s| && IndexFrom(s, sep, from) == Some(i)
    ensures i + |sep| <= |s|
    ensures SplitFrom(s, sep, from) == [s[from..i]] + SplitFrom(s, sep, i + |sep|)
  {
  }

  /** One step of `LastSplitFrom`: the last separator after this one, if
      any, or this one. */
  lemma {:induction false} LastSplitFromCut(s: string, sep: string, from: nat, i: nat)
    requires |sep| > 0 && from <= |s| && IndexFrom(s, sep, from) == Some(i)
    ensures i + |sep| <= |s|
    ensures LastSplitFrom(s, sep, i + |sep|).None? ==> LastSplitFrom(s, sep, from) == Some(i)
    ensures LastSplitFrom(s, sep, i + |sep|).Some? ==>
      LastSplitFrom(s, sep, from) == LastSplitFrom(s, sep, i + |sep|)
  {
  }

  lemma {:induction false} Tail<T>(x: T, rest: seq<T>)
    ensures ([x] + rest)[1..] == rest
  {
  }

  lemma {:induction false} InitCons<T>(x: T, rest: seq<T>)
    requires |rest| >= 1
    ensures ([x] + rest)[..|rest|] == [x] + rest[..|rest| - 1]
  {
  }

  lemma {:induction false} JoinCons(x: string, rest: seq<string>, sep: string)
    requires |rest| >= 1
    ensures Join([x] + rest, sep) == x + sep + Join(rest, sep)
  {
    Tail(x, rest);
  }

  lemma {:induction false} JoinAllButLastCons(x: string, rest: seq<string>, sep: string)
    requires |rest| >= 2
    ensures var parts := [x] + rest;
      Join(parts[..|parts| - 1], sep) == x + sep + Join(rest[..|rest| - 1], sep)
  {
    InitCons(x, rest);
    JoinCons(x, rest[..|rest| - 1], sep);
  }

  /** Cutting a slice around an occurrence of `sep` and gluing it back. */
  lemma {:induction false} Around(s: string, sep: string, from: nat, i: nat, to: nat)
    requires from <= i && OccursAt(s, sep, i) && i + |sep| <= to <= |s|
    ensures s[from..to] == s[from..i] + sep + s[i + |sep|..to]
  {
    OccursAtSlice(s, sep, i);
    assert s[from..to] == s[from..i] + s[i..i + |sep|] + s[i + |sep|..to];
  }

  lemma {:induction false} AroundEnd(s: string, sep: string, from: nat, i: nat)
    requires from <= i && OccursAt(s, sep, i)
    ensures s[from..] == s[from..i] + sep + s[i + |sep|..]
  {
    Around(s, sep, from, i, |s|);
  }

  // ---------------------------------------------------------------------
  // What `split`, `slice`, `join` and `match` compute.

  /** Joining the pieces of a split with the same separator gives the
      original text back. */
  lemma {:induction false} JoinSplitFrom(s: string, sep: string, from: nat)
    requires |sep| > 0 && from <= |s|
    ensures Join(SplitFrom(s, sep, from), sep) == s[from..]
    decreases |s| - from
  {
    var next := IndexFrom(s, sep, from);
    if next.None? {
      JoinSplitEnd(s, sep, from);
    } else {
      JoinSplitFrom(s, sep, next.value + |sep|);
      JoinSplitStep(s, sep, from, next.value);
    }
  }

  lemma {:induction false} JoinSplitEnd(s: string, sep: string, from: nat)
    requires |sep| > 0 && from <= |s| && IndexFrom(s, sep, from).None?
    ensures Join(SplitFrom(s, sep, from), sep) == s[from..]
  {
    SplitFromEnd(s, sep, from);
  }

  /** The step of `JoinSplitFrom` at a separator. */
  lemma {:induction false} JoinSplitStep(s: string, sep: string, from: nat, i: nat)
    requires |sep| > 0 && from <= |s| && IndexFrom(s, sep, from) == Some(i)
    requires i + |sep| <= |s| && Join(SplitFrom(s, sep, i + |sep|), sep) == s[i + |sep|..]
    ensures Join(SplitFrom(s, sep, from), sep) == s[from..]
  {
    IndexFromOccurs(s, sep, from);
    JoinSplitCut(s, sep, from, i);
    AroundEnd(s, sep, from, i);
  }

  lemma {:induction false} JoinSplitCut(s: string, sep: string, from: nat, i: nat)
    requires |sep| > 0 && from <= |s| && IndexFrom(s, sep, from) == Some(i)
    ensures i + |sep| <= |s|
    ensures Join(SplitFrom(s, sep, from), sep) ==
      s[from..i] + sep + Join(SplitFrom(s, sep, i + |sep|), sep)
  {
    SplitFromCut(s, sep, from, i);
    JoinCons(s[from..i], SplitFrom(s, sep, i + |sep|), sep);
  }

  lemma {:induction false} JoinSplit(s: string, sep: string)
    requires |sep| > 0
    ensures Join(Split(s, sep), sep) == s
  {
    JoinSplitFrom(s, sep, 0);
  }

  /** The second piece of a split is the text between the first and the
      second separator, or between the first separator and the end. */
  lemma {:induction false} SplitSecond(s: string, sep: string)
    requires |sep| > 0 && |Split(s, sep)| > 1
    ensures IndexOf(s, sep).Some?
    ensures Split(s, sep)[1] == PieceFrom(s, sep, IndexOf(s, sep).value + |sep|)
  {
    var i := IndexOf(s, sep).value;
    SplitFromCut(s, sep, 0, i);
    var next := IndexFrom(s, sep, i + |sep|);
    if next.None? {
      SplitFromEnd(s, sep, i + |sep|);
    } else {
      SplitFromCut(s, sep, i + |sep|, next.value);
    }
  }

  /** `s.split(sep).slice(1).join(sep)` is everything after the first
      separator, and the empty string when there is none. */
  lemma {:induction false} AfterFirst(s: string, sep: string)
    requires |sep| > 0
    ensures IndexOf(s, sep).None? ==> Join(Split(s, sep)[1..], sep) == ""
    ensures IndexOf(s, sep).Some? ==>
      Join(Split(s, sep)[1..], sep) == s[IndexOf(s, sep).value + |sep|..]
  {
    if IndexOf(s, sep).None? {
      AfterFirstNone(s, sep);
    } else {
      AfterFirstSome(s, sep, IndexOf(s, sep).value);
    }
  }

  lemma {:induction false} AfterFirstNone(s: string, sep: string)
    requires |sep| > 0 && IndexOf(s, sep).None?
    ensures Join(Split(s, sep)[1..], sep) == ""
  {
    SplitFromEnd(s, sep, 0);
    Tail(s[0..], []);
  }

  lemma {:induction false} AfterFirstSome(s: string, sep: string, i: nat)
    requires |sep| > 0 && IndexOf(s, sep) == Some(i)
    ensures i + |sep| <= |s|
    ensures Join(Split(s, sep)[1..], sep) == s[i + |sep|..]
  {
    SplitTail(s, sep, i);
    JoinSplitFrom(s, sep, i + |sep|);
  }

  /** The pieces after the first one are those of the text after the first
      separator. */
  lemma {:induction false} SplitTail(s: string, sep: string, i: nat)
    requires |sep| > 0 && IndexOf(s, sep) == Some(i)
    ensures i + |sep| <= |s|
    ensures Split(s, sep)[1..] == SplitFrom(s, sep, i + |sep|)
  {
    SplitFromCut(s, sep, 0, i);
    Tail(s[0..i], SplitFrom(s, sep, i + |sep|));
  }

  /** The separator `LastSplitFrom` finds occurs there, and no separator
      follows it. */
  lemma {:induction false} LastSplitFromIsLast(s: string, sep: string, from: nat)
    requires |sep| > 0 && from <= |s| && LastSplitFrom(s, sep, from).Some?
    ensures OccursAt(s, sep, LastSplitFrom(s, sep, from).value)
    ensures IndexFrom(s, sep, LastSplitFrom(s, sep, from).value + |sep|).None?
    decreases |s| - from
  {
    var i := IndexFrom(s, sep, from).value;
    LastSplitFromCut(s, sep, from, i);
    if LastSplitFrom(s, sep, i + |sep|).None? {
      IndexFromOccurs(s, sep, from);
    } else {
      LastSplitFromIsLast(s, sep, i + |sep|);
    }
  }

  /** `SplitFrom(s, sep, from).slice(0, -1).join(sep)` is the text from
      `from` up to the last separator, and the empty string when there is
      none. */
  lemma {:induction false} AllButLastFrom(s: string, sep: string, from: nat)
    requires |sep| > 0 && from <= |s|
    ensures var parts := SplitFrom(s, sep, from);
      Join(parts[..|parts| - 1], sep) == s[from..PrefixEnd(s, sep, from)]
    decreases |s| - from
  {
    var next := IndexFrom(s, sep, from);
    if next.None? {
      AllButLastNone(s, sep, from);
    } else {
      AllButLastFrom(s, sep, next.value + |sep|);
      AllButLastStep(s, sep, from, next.value);
    }
  }

  /** All pieces but the last, when there is only one piece. */
  lemma {:induction false} AllButLastNone(s: string, sep: string, from: nat)
    requires |sep| > 0 && from <= |s| && IndexFrom(s, sep, from).None?
    ensures var parts := SplitFrom(s, sep, from);
      Join(parts[..|parts| - 1], sep) == s[from..PrefixEnd(s, sep, from)]
  {
    SplitFromEnd(s, sep, from);
    assert SplitFrom(s, sep, from)[..0] == [];
    assert s[from..from] == [];
  }

  /** The step of `AllButLastFrom` at a separator. */
  lemma {:induction false} AllButLastStep(s: string, sep: string, from: nat, i: nat)
    requires |sep| > 0 && from <= |s| && IndexFrom(s, sep, from) == Some(i)
    requires i + |sep| <= |s|
    requires var rest := SplitFrom(s, sep, i + |sep|);
      Join(rest[..|rest| - 1], sep) == s[i + |sep|..PrefixEnd(s, sep, i + |sep|)]
    ensures var parts := SplitFrom(s, sep, from);
      Join(parts[..|parts| - 1], sep) == s[from..PrefixEnd(s, sep, from)]
  {
    if IndexFrom(s, sep, i + |sep|).None? {
      AllButLastOne(s, sep, from, i);
    } else {
      AllButLastTwo(s, sep, from, i);
    }
  }

  /** All pieces but the last, when the piece after the next separator is
      the last one. */
  lemma {:induction false} AllButLastOne(s: string, sep: string, from: nat, i: nat)
    requires |sep| > 0 && from <= |s| && IndexFrom(s, sep, from) == Some(i)
    requires i + |sep| <= |s| && IndexFrom(s, sep, i + |sep|).None?
    ensures var parts := SplitFrom(s, sep, from);
      Join(parts[..|parts| - 1], sep) == s[from..PrefixEnd(s, sep, from)]
  {
    LastSplitFromCut(s, sep, from, i);
    SplitFromCut(s, sep, from, i);
    SplitFromEnd(s, sep, i + |sep|);
    InitCons(s[from..i], [s[i + |sep|..]]);
  }

  /** All pieces but the last, when the piece after the next separator is
      not the last one either. */
  lemma {:induction false} AllButLastTwo(s: string, sep: string, from: nat, i: nat)
    requires |sep| > 0 && from <= |s| && IndexFrom(s, sep, from) == Some(i)
    requires i + |sep| <= |s| && IndexFrom(s, sep, i + |sep|).Some?
    requires var rest := SplitFrom(s, sep, i + |sep|);
      Join(rest[..|rest| - 1], sep) == s[i + |sep|..PrefixEnd(s, sep, i + |sep|)]
    ensures var parts := SplitFrom(s, sep, from);
      Join(parts[..|parts| - 1], sep) == s[from..PrefixEnd(s, sep, from)]
  {
    LastSplitFromCut(s, sep, from, i);
    IndexFromOccurs(s, sep, from);
    AllButLastCut(s, sep, from, i);
    Around(s, sep, from, i, PrefixEnd(s, sep, i + |sep|));
  }

  lemma {:induction false} AllButLastCut(s: string, sep: string, from: nat, i: nat)
    requires |sep| > 0 && from <= |s| && IndexFrom(s, sep, from) == Some(i)
    requires i + |sep| <= |s| && IndexFrom(s, sep, i + |sep|).Some?
    ensures var parts := SplitFrom(s, sep, from);
      var rest := SplitFrom(s, sep, i + |sep|);
      Join(parts[..|parts| - 1], sep) == s[from..i] + sep + Join(rest[..|rest| - 1], sep)
  {
    SplitFromCut(s, sep, from, i);
    JoinAllButLastCons(s[from..i], SplitFrom(s, sep, i + |sep|), sep);
  }

  /** `s.split(sep).slice(0, -1).join(sep)` is everything before the last
      separator that `split` cuts at, and the empty string when there is
      none. After that separator, `sep` does not occur again. */
  lemma {:induction false} AllButLast(s: string, sep: string)
    requires |sep| > 0
    ensures var parts := Split(s, sep);
      var last := LastSplitFrom(s, sep, 0);
      && (last.None? <==> IndexOf(s, sep).None?)
      && (last.None? ==> Join(parts[..|parts| - 1], sep) == "")
      && (last.Some? ==>
            && Join(parts[..|parts| - 1], sep) == s[..last.value]
            && OccursAt(s, sep, last.value)
            && IndexFrom(s, sep, last.value + |sep|).None?)
  {
    AllButLastFrom(s, sep, 0);
    assert s[0..PrefixEnd(s, sep, 0)] == s[..PrefixEnd(s, sep, 0)];
    if LastSplitFrom(s, sep, 0).Some? {
      LastSplitFromIsLast(s, sep, 0);
    }
  }

  /** What `s.match(/<prefix>(.*)/)` captures: the rest of the line after the
      first occurrence of `prefix`. The array it returns always has two
      entries. */
  lemma {:induction false} MatchLineAfterCapture(s: string, prefix: string)
    ensures MatchLineAfter(s, prefix).Null? <==> IndexOf(s, prefix).None?
    ensures MatchLineAfter(s, prefix).Groups? ==>
      var start := IndexOf(s, prefix).value + |prefix|;
      var g := MatchLineAfter(s, prefix).groups;
      && |g| == 2
      && g[0] == prefix + g[1]
      && start + |g[1]| <= |s|
      && g[1] == s[start..start + |g[1]|]
      && (forall c :: 0 <= c < |g[1]| ==> !IsLineTerminator(g[1][c]))
      && (start + |g[1]| == |s| || IsLineTerminator(s[start + |g[1]|]))
  {
    if IndexOf(s, prefix).Some? {
      var at := IndexOf(s, prefix).value;
      var start := at + |prefix|;
      var end := LineEnd(s, start);
      IndexFromOccurs(s, prefix, 0);
      Around(s, prefix, at, at, end);
    }
  }
}
