/**
 * The session lister of the API server: `parseZellijSessions`, which turns the
 * text printed by `zellij list-sessions --no-formatting` into session records,
 * and the reply of the `GET /api/sessions` handler, which classifies the
 * outcome of running that command.
 *
 * The regular expression applied to every line,
 *     ^(.+?)\s+\[Created\s+(.+?)\s+ago\](.*)$
 * is given a functional specification: `IsMatch(line, i, k, q)` says that the
 * expression can match with the name group `line[..i]` and the time group
 * `line[k..q]`, and `MatchLine` returns the match a backtracking engine finds
 * first (shortest name, then the longest white-space run before the time, then
 * the shortest time).
 */
module SessionList {
  import opened Base
  import opened Text

  /** One record of the reply: `{name, createdAgo, status, raw}`. */
  datatype Session = Session(name: string, createdAgo: string, status: string, raw: string)

  const CreatedMark: string := "[Created"
  const AgoMark: string := "ago]"
  const ActiveStatus: string := "active"

  /** The end of the white-space run that starts at `i` (a greedy `\s*`). */
  function SpaceRunEnd(s: string, i: nat): (j: nat)
    requires i <= |s|
    ensures i <= j <= |s|
    ensures AllSpace(s[i..j])
    ensures j == |s| || !IsSpace(s[j])
    decreases |s| - i
  {
    if i < |s| && IsSpace(s[i]) then
      var j := SpaceRunEnd(s, i + 1);
      assert s[i..j] == [s[i]] + s[i + 1..j];
      j
    else i
  }

  /** A white-space run that stops at a non-space (or at the end) is the whole run. */
  lemma {:induction false} SpaceRunEndAt(s: string, i: nat, j: nat)
    requires i <= j <= |s|
    requires AllSpace(s[i..j])
    requires j == |s| || !IsSpace(s[j])
    ensures SpaceRunEnd(s, i) == j
    decreases j - i
  {
    if i < j {
      assert s[i] == s[i..j][0];
      assert s[i + 1..j] == s[i..j][1..];
      SpaceRunEndAt(s, i + 1, j);
    }
  }

  /** Every white-space run starting at `i` lies inside the maximal one. */
  lemma {:induction false} SpaceRunWithin(s: string, i: nat, k: nat)
    requires i <= k <= |s|
    requires AllSpace(s[i..k])
    ensures k <= SpaceRunEnd(s, i)
    decreases k - i
  {
    if i < k {
      assert s[i] == s[i..k][0];
      assert s[i + 1..k] == s[i..k][1..];
      SpaceRunWithin(s, i + 1, k);
    }
  }

  /** The start of an all-white-space slice is all white space. */
  lemma AllSpaceWithin(s: string, a: nat, b: nat, c: nat)
    requires a <= b <= c <= |s| && AllSpace(s[a..c])
    ensures AllSpace(s[a..b])
  {
    assert forall n :: 0 <= n < b - a ==> s[a..b][n] == s[a..c][n];
  }

  /** `^(.+?)\s+\[Created` can match with the name group `line[..i]`. */
  predicate NameEndsAt(line: string, i: nat)
  {
    1 <= i <= |line| && NoLineTerminator(line[..i]) &&
    var j := SpaceRunEnd(line, i);
    i < j && j + |CreatedMark| <= |line| && line[j..j + |CreatedMark|] == CreatedMark
  }

  /** The position just after `[Created` once the name group ends at `i`. */
  function AfterCreated(line: string, i: nat): (t: nat)
    requires NameEndsAt(line, i)
    ensures i < t <= |line|
  {
    SpaceRunEnd(line, i) + |CreatedMark|
  }

  /** `(.+?)\s+ago\](.*)$` can match with the time group `line[k..q]`. */
  predicate TimeEndsAt(line: string, k: nat, q: nat)
  {
    k < q <= |line| && NoLineTerminator(line[k..q]) &&
    var m := SpaceRunEnd(line, q);
    q < m && m + |AgoMark| <= |line| && line[m..m + |AgoMark|] == AgoMark &&
    NoLineTerminator(line[m + |AgoMark|..])
  }

  /** The whole expression can match with name group `line[..i]` and time group `line[k..q]`. */
  predicate IsMatch(line: string, i: nat, k: nat, q: nat)
  {
    NameEndsAt(line, i) &&
    var t := AfterCreated(line, i);
    t < k <= SpaceRunEnd(line, t) && TimeEndsAt(line, k, q)
  }

  /** Where the capture groups lie in the line. */
  datatype Span = Span(nameEnd: nat, timeStart: nat, timeEnd: nat)

  /** The order in which a backtracking engine tries the ways to match. */
  predicate TriedBefore(a: Span, b: Span)
  {
    || a.nameEnd < b.nameEnd
    || (a.nameEnd == b.nameEnd && a.timeStart > b.timeStart)
    || (a.nameEnd == b.nameEnd && a.timeStart == b.timeStart && a.timeEnd < b.timeEnd)
  }

  /** The lazy `(.+?)` of the time group: the shortest end from `q` on. */
  function FindTimeEnd(line: string, k: nat, q: nat): (r: Option<nat>)
    ensures r.Some? ==> q <= r.value && TimeEndsAt(line, k, r.value)
    ensures r.Some? ==> forall q': nat :: q <= q' < r.value ==> !TimeEndsAt(line, k, q')
    ensures r.None? ==> forall q': nat :: q <= q' ==> !TimeEndsAt(line, k, q')
    decreases |line| + 1 - q
  {
    if q > |line| then None
    else if TimeEndsAt(line, k, q) then Some(q)
    else FindTimeEnd(line, k, q + 1)
  }

  /**
   * The greedy `\s+` after `[Created` (which starts at `t`) gives back one
   * character at a time: time-group starts are tried from `k` down to `t + 1`.
   */
  function FindTimeStart(line: string, t: nat, k: nat): (r: Option<(nat, nat)>)
    ensures r.Some? ==> t < r.value.0 <= k && TimeEndsAt(line, r.value.0, r.value.1)
    ensures r.Some? ==> forall q': nat :: q' < r.value.1 ==> !TimeEndsAt(line, r.value.0, q')
    ensures r.Some? ==> forall k': nat, q': nat :: r.value.0 < k' <= k ==> !TimeEndsAt(line, k', q')
    ensures r.None? ==> forall k': nat, q': nat :: t < k' <= k ==> !TimeEndsAt(line, k', q')
    decreases k
  {
    if k <= t then None
    else match FindTimeEnd(line, k, k + 1)
      case Some(q) => Some((k, q))
      case None => FindTimeStart(line, t, k - 1)
  }

  /** With the name group ending at `i`, the time search gives the first way to finish the match. */
  lemma NameEndFound(line: string, i: nat, k: nat, q: nat)
    requires NameEndsAt(line, i)
    requires var t := AfterCreated(line, i); FindTimeStart(line, t, SpaceRunEnd(line, t)) == Some((k, q))
    ensures IsMatch(line, i, k, q)
    ensures forall k': nat, q': nat :: IsMatch(line, i, k', q') ==> !TriedBefore(Span(i, k', q'), Span(i, k, q))
  {
  }

  /** With the name group ending at `i`, a failed time search rules that end out. */
  lemma NameEndFails(line: string, i: nat)
    requires NameEndsAt(line, i)
    requires var t := AfterCreated(line, i); FindTimeStart(line, t, SpaceRunEnd(line, t)).None?
    ensures forall k': nat, q': nat :: !IsMatch(line, i, k', q')
  {
  }

  /** The lazy `(.+?)` of the name group: name ends are tried from `i` upwards. */
  function FindName(line: string, i: nat): (r: Option<Span>)
    ensures r.Some? ==> i <= r.value.nameEnd
    ensures r.Some? ==> IsMatch(line, r.value.nameEnd, r.value.timeStart, r.value.timeEnd)
    decreases |line| + 1 - i
  {
    if i > |line| then None
    else if NameEndsAt(line, i) then
      var t := AfterCreated(line, i);
      match FindTimeStart(line, t, SpaceRunEnd(line, t))
      case Some((k, q)) =>
        NameEndFound(line, i, k, q);
        Some(Span(i, k, q))
      case None => FindName(line, i + 1)
    else FindName(line, i + 1)
  }

  /** `FindName` fails only when no match has its name group ending at `i` or later. */
  lemma {:induction false} FindNameNone(line: string, i: nat)
    requires FindName(line, i).None?
    ensures forall i': nat, k': nat, q': nat :: i <= i' ==> !IsMatch(line, i', k', q')
    decreases |line| + 1 - i
  {
    if i <= |line| {
      FindNameSkips(line, i);
      FindNameNone(line, i + 1);
    }
  }

  /** A name group ending at `i` that the time search completes is the one `FindName` returns from `i`. */
  lemma FindNameHere(line: string, i: nat)
    requires NameEndsAt(line, i)
    requires var t := AfterCreated(line, i); FindTimeStart(line, t, SpaceRunEnd(line, t)).Some?
    ensures FindName(line, i).Some?
    ensures forall i': nat, k': nat, q': nat ::
      i <= i' && IsMatch(line, i', k', q') ==> !TriedBefore(Span(i', k', q'), FindName(line, i).value)
  {
    var t := AfterCreated(line, i);
    var (k, q) := FindTimeStart(line, t, SpaceRunEnd(line, t)).value;
    assert FindName(line, i) == Some(Span(i, k, q));
    NameEndFound(line, i, k, q);
  }

  /** When no match has its name group ending at `i`, `FindName` moves on to `i + 1`. */
  lemma FindNameSkips(line: string, i: nat)
    requires i <= |line|
    requires !NameEndsAt(line, i) ||
             var t := AfterCreated(line, i); FindTimeStart(line, t, SpaceRunEnd(line, t)).None?
    ensures FindName(line, i) == FindName(line, i + 1)
    ensures forall k': nat, q': nat :: !IsMatch(line, i, k', q')
  {
    if NameEndsAt(line, i) {
      NameEndFails(line, i);
    }
  }

  /** No match whose name group ends at `i` or later is tried before the one `FindName` returns. */
  lemma {:induction false} FindNameFirst(line: string, i: nat)
    requires FindName(line, i).Some?
    ensures forall i': nat, k': nat, q': nat ::
      i <= i' && IsMatch(line, i', k', q') ==> !TriedBefore(Span(i', k', q'), FindName(line, i).value)
    decreases |line| + 1 - i
  {
    if NameEndsAt(line, i) && FindTimeStart(line, AfterCreated(line, i), SpaceRunEnd(line, AfterCreated(line, i))).Some? {
      FindNameHere(line, i);
    } else {
      FindNameSkips(line, i);
      FindNameFirst(line, i + 1);
      FirstFromNext(line, i, FindName(line, i).value);
    }
  }

  /** What holds of the matches from `i + 1` on holds from `i` on when none has its name group ending at `i`. */
  lemma FirstFromNext(line: string, i: nat, r: Span)
    requires forall k': nat, q': nat :: !IsMatch(line, i, k', q')
    requires forall i': nat, k': nat, q': nat ::
      i + 1 <= i' && IsMatch(line, i', k', q') ==> !TriedBefore(Span(i', k', q'), r)
    ensures forall i': nat, k': nat, q': nat ::
      i <= i' && IsMatch(line, i', k', q') ==> !TriedBefore(Span(i', k', q'), r)
  {
  }

  /** `line.match(regex)`: the first match in backtracking order, if there is one. */
  function MatchLine(line: string): (r: Option<Span>)
    ensures r.Some? ==> IsMatch(line, r.value.nameEnd, r.value.timeStart, r.value.timeEnd)
  {
    FindName(line, 1)
  }

  /** No way to match is tried before the one `MatchLine` returns. */
  lemma MatchLineFirst(line: string)
    requires MatchLine(line).Some?
    ensures forall i': nat, k': nat, q': nat ::
      IsMatch(line, i', k', q') ==> !TriedBefore(Span(i', k', q'), MatchLine(line).value)
  {
    FindNameFirst(line, 1);
  }

  /** `MatchLine` fails only when the expression cannot match at all. */
  lemma MatchLineNone(line: string)
    ensures MatchLine(line).None? <==> forall i': nat, k': nat, q': nat :: !IsMatch(line, i', k', q')
  {
    if MatchLine(line).None? {
      FindNameNone(line, 1);
    }
  }

  /** The three capture groups `match[1]`, `match[2]`, `match[3]`. */
  datatype Groups = Groups(name: string, time: string, tail: string)

  function GroupsOf(line: string, s: Span): Groups
    requires IsMatch(line, s.nameEnd, s.timeStart, s.timeEnd)
  {
    var m := SpaceRunEnd(line, s.timeEnd);
    Groups(line[..s.nameEnd], line[s.timeStart..s.timeEnd], line[m + |AgoMark|..])
  }

  /**
   * `line` reads `name ws "[Created" ws time ws "ago]" tail`: the white-space
   * gaps are non-empty, the two lazy groups are non-empty, and the three
   * groups hold no line terminator (`.` does not match one).
   */
  predicate SplitsAs(line: string, name: string, gap1: string, gap2: string, time: string,
                     gap3: string, tail: string)
  {
    && line == name + gap1 + CreatedMark + gap2 + time + gap3 + AgoMark + tail
    && |name| > 0 && |time| > 0 && |gap1| > 0 && |gap2| > 0 && |gap3| > 0
    && AllSpace(gap1) && AllSpace(gap2) && AllSpace(gap3)
    && NoLineTerminator(name) && NoLineTerminator(time) && NoLineTerminator(tail)
  }

  /** A line is the concatenation of its consecutive slices. */
  lemma SlicesConcat(line: string, i: nat, j: nat, t: nat, k: nat, q: nat, m: nat, a: nat)
    requires i <= j <= t <= k <= q <= m <= a <= |line|
    ensures line == line[..i] + line[i..j] + line[j..t] + line[t..k] + line[k..q] + line[q..m] + line[m..a] + line[a..]
  {
    assert line[..j] == line[..i] + line[i..j];
    assert line[..t] == line[..j] + line[j..t];
    assert line[..k] == line[..t] + line[t..k];
    assert line[..q] == line[..k] + line[k..q];
    assert line[..m] == line[..q] + line[q..m];
    assert line[..a] == line[..m] + line[m..a];
    assert line == line[..a] + line[a..];
  }

  /** Slices of the right kinds at consecutive positions split the line. */
  lemma SlicesSplit(line: string, i: nat, j: nat, t: nat, k: nat, q: nat, m: nat)
    requires 0 < i < j && t == j + |CreatedMark| && t < k < q < m && m + |AgoMark| <= |line|
    requires line[j..t] == CreatedMark && line[m..m + |AgoMark|] == AgoMark
    requires AllSpace(line[i..j]) && AllSpace(line[t..k]) && AllSpace(line[q..m])
    requires NoLineTerminator(line[..i]) && NoLineTerminator(line[k..q]) && NoLineTerminator(line[m + |AgoMark|..])
    ensures SplitsAs(line, line[..i], line[i..j], line[t..k], line[k..q], line[q..m], line[m + |AgoMark|..])
  {
    SlicesConcat(line, i, j, t, k, q, m, m + |AgoMark|);
  }

  /** Every match splits the line as the expression describes, around its groups. */
  lemma MatchSplits(line: string, s: Span)
    requires IsMatch(line, s.nameEnd, s.timeStart, s.timeEnd)
    ensures var g := GroupsOf(line, s);
            exists gap1, gap2, gap3 :: SplitsAs(line, g.name, gap1, gap2, g.time, gap3, g.tail)
  {
    var i, k, q := s.nameEnd, s.timeStart, s.timeEnd;
    var j := SpaceRunEnd(line, i);
    var t := j + |CreatedMark|;
    var m := SpaceRunEnd(line, q);
    var e := SpaceRunEnd(line, t);
    assert t == AfterCreated(line, i) && k <= e;
    AllSpaceWithin(line, t, k, e);
    SlicesSplit(line, i, j, t, k, q, m);
    var g := GroupsOf(line, s);
    assert g == Groups(line[..i], line[k..q], line[m + |AgoMark|..]);
    assert SplitsAs(line, g.name, line[i..j], line[t..k], g.time, line[q..m], g.tail);
  }

  /** Where each piece of a split lies in the line. */
  lemma SplitSlices(line: string, name: string, gap1: string, gap2: string, time: string,
                    gap3: string, tail: string)
    requires line == name + gap1 + CreatedMark + gap2 + time + gap3 + AgoMark + tail
    ensures var j := |name| + |gap1|;
            var k := j + |CreatedMark| + |gap2|;
            var m := k + |time| + |gap3|;
            && line[..|name|] == name && line[|name|..j] == gap1
            && line[j..j + |CreatedMark|] == CreatedMark && line[j + |CreatedMark|..k] == gap2
            && line[k..k + |time|] == time && line[k + |time|..m] == gap3
            && line[m..m + |AgoMark|] == AgoMark && line[m + |AgoMark|..] == tail
  {
    var p1 := name + gap1;
    var p2 := p1 + CreatedMark;
    var p3 := p2 + gap2;
    var p4 := p3 + time;
    var p5 := p4 + gap3;
    var p6 := p5 + AgoMark;
    assert line == p6 + tail;
    assert line[..|p6|] == p6 && line[|p6|..] == tail;
    assert line[..|p5|] == p5 && line[|p5|..|p6|] == AgoMark;
    assert line[..|p4|] == p4 && line[|p4|..|p5|] == gap3;
    assert line[..|p3|] == p3 && line[|p3|..|p4|] == time;
    assert line[..|p2|] == p2 && line[|p2|..|p3|] == gap2;
    assert line[..|p1|] == p1 && line[|p1|..|p2|] == CreatedMark;
    assert line[..|name|] == name && line[|name|..|p1|] == gap1;
  }

  /** A name group, a white-space run and `[Created` at the given positions match the start of the expression. */
  lemma NameEndsAtSplit(line: string, i: nat, j: nat)
    requires 1 <= i < j && j + |CreatedMark| <= |line|
    requires NoLineTerminator(line[..i]) && AllSpace(line[i..j]) && line[j..j + |CreatedMark|] == CreatedMark
    ensures NameEndsAt(line, i) && AfterCreated(line, i) == j + |CreatedMark|
  {
    assert line[j] == line[j..j + |CreatedMark|][0];
    SpaceRunEndAt(line, i, j);
  }

  /** A time group, a white-space run, `ago]` and a tail at the given positions match the end of the expression. */
  lemma TimeEndsAtSplit(line: string, k: nat, q: nat, m: nat)
    requires k < q < m && m + |AgoMark| <= |line|
    requires NoLineTerminator(line[k..q]) && AllSpace(line[q..m]) && line[m..m + |AgoMark|] == AgoMark
    requires NoLineTerminator(line[m + |AgoMark|..])
    ensures TimeEndsAt(line, k, q)
  {
    assert line[m] == line[m..m + |AgoMark|][0];
    SpaceRunEndAt(line, q, m);
  }

  /** The two halves of the expression, and the gap between them, make a match. */
  lemma HalvesMatch(line: string, i: nat, k: nat, q: nat)
    requires NameEndsAt(line, i) && AfterCreated(line, i) < k <= SpaceRunEnd(line, AfterCreated(line, i))
    requires TimeEndsAt(line, k, q)
    ensures IsMatch(line, i, k, q)
  {
  }

  /** Slices of the right kinds at consecutive positions make a match. */
  lemma PositionsMatch(line: string, i: nat, j: nat, k: nat, q: nat, m: nat)
    requires 1 <= i < j && j + |CreatedMark| < k < q < m && m + |AgoMark| <= |line|
    requires NoLineTerminator(line[..i]) && AllSpace(line[i..j]) && line[j..j + |CreatedMark|] == CreatedMark
    requires AllSpace(line[j + |CreatedMark|..k])
    requires NoLineTerminator(line[k..q]) && AllSpace(line[q..m]) && line[m..m + |AgoMark|] == AgoMark
    requires NoLineTerminator(line[m + |AgoMark|..])
    ensures IsMatch(line, i, k, q)
  {
    NameEndsAtSplit(line, i, j);
    SpaceRunWithin(line, j + |CreatedMark|, k);
    TimeEndsAtSplit(line, k, q, m);
    HalvesMatch(line, i, k, q);
  }

  /** Pieces of the right kinds lying one after another in the line make a match. */
  lemma PiecesMatch(line: string, name: string, gap1: string, gap2: string, time: string,
                    gap3: string, tail: string)
    requires |name| > 0 && |time| > 0 && |gap1| > 0 && |gap2| > 0 && |gap3| > 0
    requires AllSpace(gap1) && AllSpace(gap2) && AllSpace(gap3)
    requires NoLineTerminator(name) && NoLineTerminator(time) && NoLineTerminator(tail)
    requires var j := |name| + |gap1|;
             var k := j + |CreatedMark| + |gap2|;
             var m := k + |time| + |gap3|;
             && m + |AgoMark| <= |line|
             && line[..|name|] == name && line[|name|..j] == gap1
             && line[j..j + |CreatedMark|] == CreatedMark && line[j + |CreatedMark|..k] == gap2
             && line[k..k + |time|] == time && line[k + |time|..m] == gap3
             && line[m..m + |AgoMark|] == AgoMark && line[m + |AgoMark|..] == tail
    ensures var k := |name| + |gap1| + |CreatedMark| + |gap2|;
            IsMatch(line, |name|, k, k + |time|)
  {
    var j := |name| + |gap1|;
    var k := j + |CreatedMark| + |gap2|;
    PositionsMatch(line, |name|, j, k, k + |time|, k + |time| + |gap3|);
  }

  /** Conversely, every way of splitting the line is a way for the expression to match. */
  lemma SplitIsMatch(line: string, name: string, gap1: string, gap2: string, time: string,
                     gap3: string, tail: string)
    requires SplitsAs(line, name, gap1, gap2, time, gap3, tail)
    ensures var k := |name| + |gap1| + |CreatedMark| + |gap2|;
            IsMatch(line, |name|, k, k + |time|)
  {
    SplitSlices(line, name, gap1, gap2, time, gap3, tail);
    PiecesMatch(line, name, gap1, gap2, time, gap3, tail);
  }

  /** The name group of the match found ends no later than that of any match. */
  lemma EarliestNameEnd(line: string, i: nat)
    requires exists k: nat, q: nat :: IsMatch(line, i, k, q)
    ensures MatchLine(line).Some? && MatchLine(line).value.nameEnd <= i
    ensures |GroupsOf(line, MatchLine(line).value).name| <= i
  {
    var k: nat, q: nat :| IsMatch(line, i, k, q);
    if MatchLine(line).None? {
      FindNameNone(line, 1);
      assert false;
    }
    MatchLineFirst(line);
    assert !TriedBefore(Span(i, k, q), MatchLine(line).value);
  }

  /**
   * The name group is as short as possible: whatever split of the line one
   * picks, the expression matches and its name group is no longer.
   */
  lemma ShortestName(line: string, name: string, gap1: string, gap2: string, time: string,
                     gap3: string, tail: string)
    requires SplitsAs(line, name, gap1, gap2, time, gap3, tail)
    ensures MatchLine(line).Some?
    ensures |GroupsOf(line, MatchLine(line).value).name| <= |name|
  {
    SplitIsMatch(line, name, gap1, gap2, time, gap3, tail);
    EarliestNameEnd(line, |name|);
  }

  /**
   * Lines of a CRLF listing keep their `\r` after splitting on `\n`, and `.`
   * refuses it: such a line never matches.
   */
  lemma CarriageReturnLineNeverMatches(line: string)
    requires |line| > 0 && line[|line| - 1] == '\r'
    ensures MatchLine(line) == None
  {
  }

  /** A blank line never matches: the expression needs a `[`. */
  lemma BlankLineNeverMatches(line: string)
    requires AllSpace(line)
    ensures MatchLine(line) == None
  {
  }

  /** The record built from one matching line (server.js, inside the loop). */
  function ToSession(line: string, g: Groups): (r: Session)
    ensures r.raw == line && r.status != ""
    ensures Trimmed(r.name) && Trimmed(r.createdAgo) && Trimmed(r.status)
  {
    Session(Trim(g.name), Trim(g.time), StatusOf(g.tail), line)
  }

  /** `additionalInfo || 'active'`: the trimmed tail, or `active` when that is empty. */
  function StatusOf(tail: string): (status: string)
    ensures status != "" && Trimmed(status)
    ensures AllSpace(tail) ==> status == ActiveStatus
    ensures !AllSpace(tail) ==> status == Trim(tail)
  {
    var info := Trim(tail);
    if |info| == 0 then
      assert |ActiveStatus| == 6 && !IsSpace(ActiveStatus[0]) && !IsSpace(ActiveStatus[5]);
      ActiveStatus
    else info
  }

  /** The record a line yields, if it matches. */
  function SessionOf(line: string): (r: Option<Session>)
    ensures r.Some? <==> MatchLine(line).Some?
  {
    match MatchLine(line)
    case None => None
    case Some(s) => Some(ToSession(line, GroupsOf(line, s)))
  }

  /**
   * What a record says about its line: `raw` is the line itself, `name`,
   * `createdAgo` and `status` are trimmed, and `status` is `"active"` exactly
   * when the tail after `ago]` is blank or itself reads `active`.
   */
  lemma SessionFields(line: string)
    requires MatchLine(line).Some?
    ensures var g := GroupsOf(line, MatchLine(line).value);
            var s := SessionOf(line).value;
            && s.raw == line
            && s.name == Trim(g.name) && s.createdAgo == Trim(g.time)
            && s.status != ""
            && (s.status == ActiveStatus <==> AllSpace(g.tail) || Trim(g.tail) == ActiveStatus)
            && (!AllSpace(g.tail) ==> s.status == Trim(g.tail))
  {
  }

  /** The lines of the listing: `output.trim().split('\n').filter(line => line.trim())`. */
  function NonBlankLines(output: string): (lines: seq<string>)
    ensures forall k :: 0 <= k < |lines| ==> '\n' !in lines[k] && !AllSpace(lines[k])
    ensures forall l :: l in lines <==> l in Split(Trim(output), '\n') && !AllSpace(l)
  {
    KeepNonBlank(Split(Trim(output), '\n'))
  }

  function KeepNonBlank(lines: seq<string>): (kept: seq<string>)
    requires forall k :: 0 <= k < |lines| ==> '\n' !in lines[k]
    ensures |kept| <= |lines|
    ensures forall k :: 0 <= k < |kept| ==> '\n' !in kept[k] && !AllSpace(kept[k])
    ensures forall l :: l in lines && !AllSpace(l) ==> l in kept
    ensures forall l :: l in kept ==> l in lines
  {
    if lines == [] then []
    else
      var rest := KeepNonBlank(lines[..|lines| - 1]);
      var last := lines[|lines| - 1];
      assert forall l :: l in lines ==> l in lines[..|lines| - 1] || l == last;
      if Trim(last) == "" then rest else rest + [last]
  }

  /** The filter keeps the lines of a concatenation in order: those of the first part, then those of the second. */
  lemma {:induction false} KeepNonBlankAppend(a: seq<string>, b: seq<string>)
    requires forall k :: 0 <= k < |a| ==> '\n' !in a[k]
    requires forall k :: 0 <= k < |b| ==> '\n' !in b[k]
    ensures KeepNonBlank(a + b) == KeepNonBlank(a) + KeepNonBlank(b)
    decreases |b|
  {
    if b != [] {
      var b' := b[..|b| - 1];
      assert (a + b)[..|a + b| - 1] == a + b';
      assert (a + b)[|a + b| - 1] == b[|b| - 1];
      KeepNonBlankAppend(a, b');
    } else {
      assert a + b == a;
    }
  }

  /** A single line is kept exactly when it is not blank. */
  lemma KeepNonBlankSingle(line: string)
    requires '\n' !in line
    ensures KeepNonBlank([line]) == if AllSpace(line) then [] else [line]
  {
    assert [line][..0] == [];
  }

  /** The records of the lines, in order: one per matching line, nothing for the others. */
  function Parsed(lines: seq<string>): seq<Session>
  {
    if lines == [] then []
    else
      var rest := Parsed(lines[..|lines| - 1]);
      match SessionOf(lines[|lines| - 1])
      case None => rest
      case Some(s) => rest + [s]
  }

  /** One more line adds its record, if it has one, at the end. */
  lemma ParsedStep(lines: seq<string>, n: nat)
    requires n < |lines|
    ensures Parsed(lines[..n + 1]) ==
      Parsed(lines[..n]) + (match SessionOf(lines[n]) case Some(s) => [s] case None => [])
  {
    assert lines[..n + 1][..n] == lines[..n];
    assert lines[..n + 1][n] == lines[n];
  }

  /** `parseZellijSessions`: the loop pushes one record per matching line. */
  method ParseZellijSessions(output: string) returns (sessions: seq<Session>)
    ensures sessions == Parsed(NonBlankLines(output))
  {
    var lines := NonBlankLines(output);
    sessions := [];
    for n := 0 to |lines|
      invariant sessions == Parsed(lines[..n])
    {
      ParsedStep(lines, n);
      var m := MatchLine(lines[n]);
      if m.Some? {
        sessions := sessions + [ToSession(lines[n], GroupsOf(lines[n], m.value))];
      }
    }
    assert lines[..|lines|] == lines;
  }

  /** Records of a concatenation are the records of each part, in order. */
  lemma {:induction false} ParsedAppend(a: seq<string>, b: seq<string>)
    ensures Parsed(a + b) == Parsed(a) + Parsed(b)
    decreases |b|
  {
    if b != [] {
      var b' := b[..|b| - 1];
      assert (a + b)[..|a + b| - 1] == a + b';
      assert (a + b)[|a + b| - 1] == b[|b| - 1];
      ParsedAppend(a, b');
    } else {
      assert a + b == a;
    }
  }

  /** A single line yields its record if it matches, and nothing otherwise. */
  lemma ParsedSingle(line: string)
    ensures Parsed([line]) == if MatchLine(line).Some? then [SessionOf(line).value] else []
  {
    assert [line][..0] == [];
  }

  /** There are never more records than lines. */
  lemma {:induction false} ParsedLength(lines: seq<string>)
    ensures |Parsed(lines)| <= |lines|
  {
    if lines != [] {
      ParsedLength(lines[..|lines| - 1]);
    }
  }

  /** Every record is the record of one of the lines, and that line is its `raw`. */
  lemma {:induction false} ParsedFromLines(lines: seq<string>)
    ensures forall s :: s in Parsed(lines) ==> s.raw in lines && SessionOf(s.raw) == Some(s)
  {
    if lines != [] {
      var init := lines[..|lines| - 1];
      var last := lines[|lines| - 1];
      ParsedFromLines(init);
      assert forall l :: l in init ==> l in lines;
      match SessionOf(last)
      case None =>
        assert Parsed(lines) == Parsed(init);
      case Some(r) =>
        assert r.raw == last;
        assert Parsed(lines) == Parsed(init) + [r];
    }
  }

  /** What running the listing command produced (`execAsync` resolving or rejecting). */
  datatype ExecResult =
    | Exited(stdout: string, stderr: string)
      /** the command failed: `error.code` (absent when it is not a number), `error.stdout`, `error.stderr`, `error.message` */
    | ExecError(code: Option<int>, stdout: string, stderr: string, message: string)

  /** The JSON bodies of `GET /api/sessions`. */
  datatype SessionsReply =
    | Listed(sessions: seq<Session>, count: int)   // 200 {success: true, sessions, count}
    | NoSessions(message: string)                  // 200 {success: true, sessions: [], count: 0, message}
    | Failed(error: string, details: string)       // 500 {success: false, error, details}
  {
    function HttpStatus(): (code: int)
      ensures code == 200 <==> Success()
      ensures code != 200 ==> code == 500
    {
      if Failed? then 500 else 200
    }

    predicate Success() { !Failed? }
  }

  const NoSessionsMessage: string := "No active zellij sessions found"

  /** The `GET /api/sessions` handler, given the outcome of the command. */
  method ListSessions(result: ExecResult) returns (reply: SessionsReply)
    ensures reply.Success() <==> result.Exited? || (result.code == Some(1) && result.stdout == "")
    ensures reply.Success() <==> reply.HttpStatus() == 200
    ensures reply.Listed? ==> reply.count == |reply.sessions|
    ensures result.Exited? ==> reply.Listed? && reply.sessions == Parsed(NonBlankLines(result.stdout))
    ensures result.ExecError? && result.code == Some(1) && result.stdout == "" ==>
      reply == NoSessions(NoSessionsMessage)
    ensures !reply.Success() ==>
      reply.error == result.message &&
      reply.details == (if result.stderr != "" then result.stderr else result.stdout)
  {
    match result
    case Exited(stdout, _) =>
      var sessions := ParseZellijSessions(stdout);
      reply := Listed(sessions, |sessions|);
    case ExecError(code, stdout, stderr, message) =>
      if code == Some(1) && stdout == "" {
        reply := NoSessions(NoSessionsMessage);
      } else {
        reply := Failed(message, if stderr != "" then stderr else stdout);
      }
  }
}
