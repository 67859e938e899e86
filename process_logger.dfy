/**
 * RedisProcessLogger: the audit log, a Redis sorted set of formatted lines scored by their
 * millisecond timestamps. LogAsync adds a line; GetAsync pages through the lines, newest
 * first, optionally keeping only the lines that contain a filter text.
 *
 * The fresh GUID, the clock and the sorted set's order (the members by descending score, as
 * a ZREVRANGE sees them) are parameters.
 */
module ProcessLog {
  import opened Results
  import opened Text

  // ---------------------------------------------------------------------------------------
  // 32-bit arithmetic

  /** The range of C#'s int. */
  predicate IsInt32(x: int)
  {
    -0x8000_0000 <= x < 0x8000_0000
  }

  /** An int result: the mathematical value wrapped into 32 bits (unchecked arithmetic). */
  function Wrap32(x: int): (r: int)
    ensures IsInt32(r) && (r - x) % 0x1_0000_0000 == 0
    ensures IsInt32(x) ==> r == x
  {
    (x + 0x8000_0000) % 0x1_0000_0000 - 0x8000_0000
  }

  // ---------------------------------------------------------------------------------------
  // Entries

  /** The line LogAsync stores: "[<id> <timestamp>] <source> - <message>". */
  function Line(id: string, timestamp: string, source: string, message: string): string
  {
    "[" + id + " " + timestamp + "] " + source + " - " + message
  }

  /** The upper-cased text of a concatenation is the concatenation of the upper-cased texts. */
  lemma UpperAppend(a: string, b: string)
    ensures Upper(a + b) == Upper(a) + Upper(b)
  {
    assert forall k :: 0 <= k < |a + b| ==> Upper(a + b)[k] == (Upper(a) + Upper(b))[k];
  }

  /** A text occurs, ignoring case, in any text it is part of. */
  lemma ContainsIgnoreCaseOfPart(a: string, t: string, b: string)
    ensures ContainsIgnoreCase(a + t + b, t)
  {
    UpperAppend(a, t);
    UpperAppend(a + t, b);
    var u := Upper(a + t + b);
    assert u == Upper(a) + Upper(t) + Upper(b);
    assert u[|a|..|a| + |t|] == Upper(t);
    assert OccursAt(u, Upper(t), |a|);
    ContainsIffOccurs(u, Upper(t));
  }

  /** A logged line is found again by filtering on its source or on its message. */
  lemma LineFoundByFilter(id: string, timestamp: string, source: string, message: string)
    ensures ContainsIgnoreCase(Line(id, timestamp, source, message), source)
    ensures ContainsIgnoreCase(Line(id, timestamp, source, message), message)
  {
    var head := "[" + id + " " + timestamp + "] ";
    assert Line(id, timestamp, source, message) == head + source + (" - " + message);
    ContainsIgnoreCaseOfPart(head, source, " - " + message);
    assert Line(id, timestamp, source, message) == (head + source + " - ") + message + "";
    ContainsIgnoreCaseOfPart(head + source + " - ", message, "");
  }

  // ---------------------------------------------------------------------------------------
  // Paging

  /**
   * ZREVRANGE by rank: negative ranks count from the end, the start is clamped to 0 and the
   * stop to the last rank; an empty range when the start passes the stop or the end.
   */
  function RankRange(ranked: seq<string>, start: int, stop: int): (r: seq<string>)
    ensures |r| <= |ranked|
  {
    var n := |ranked|;
    var s0 := if start < 0 then n + start else start;
    var e0 := if stop < 0 then n + stop else stop;
    var s := if s0 < 0 then 0 else s0;
    if s > e0 || s >= n then []
    else
      var e := if e0 >= n then n - 1 else e0;
      ranked[s..e + 1]
  }

  /** The ranks from start on, for count entries, as far as the set reaches. */
  function Slice(ranked: seq<string>, start: int, count: int): seq<string>
  {
    if start < 0 || count <= 0 || start >= |ranked| then []
    else if start + count >= |ranked| then ranked[start..]
    else ranked[start..start + count]
  }

  /** For ranks that do not wrap, a rank range is the plain slice. */
  lemma RankRangeSlice(ranked: seq<string>, start: nat, count: nat)
    requires count > 0
    ensures RankRange(ranked, start, start + count - 1) == Slice(ranked, start, count)
  {
  }

  /** LINQ Where: the lines that contain the filter, ignoring case, in order. */
  function Matching(lines: seq<string>, filterText: string): (r: seq<string>)
    ensures |r| <= |lines|
    ensures forall k :: 0 <= k < |r| ==> ContainsIgnoreCase(r[k], filterText)
    decreases |lines|
  {
    if lines == [] then []
    else
      var rest := Matching(lines[..|lines| - 1], filterText);
      var last := lines[|lines| - 1];
      if ContainsIgnoreCase(last, filterText) then rest + [last] else rest
  }

  /** LINQ Take: the first count elements, none for a count below one. */
  function Take(s: seq<string>, count: int): (r: seq<string>)
    ensures |r| <= |s| && (count >= 0 ==> |r| <= count)
    ensures |r| == if count <= 0 then 0 else if count < |s| then count else |s|
    ensures r == s[..|r|]
  {
    if count <= 0 then [] else if count >= |s| then s else s[..count]
  }

  /** The first rank of a page: (page - 1) * pageSize, computed in int. */
  function PageStart(page: int, pageSize: int): int
    requires IsInt32(page) && IsInt32(pageSize)
  {
    Wrap32(Wrap32(page - 1) * pageSize)
  }

  /** GetAsync: one page of the log, newest first, optionally filtered. */
  function GetLogs(ranked: seq<string>, page: int, pageSize: int, filterText: Option<string>): seq<string>
    requires IsInt32(page) && IsInt32(pageSize)
  {
    var start := PageStart(page, pageSize);
    var stop := start + pageSize - 1;
    if filterText.None? || IsWhiteSpace(filterText.value) then RankRange(ranked, start, stop)
    else
      var searchStop := start + Wrap32(pageSize * 10) - 1;
      Take(Matching(RankRange(ranked, start, searchStop), filterText.value), pageSize)
  }

  /** The page parameters stay clear of int overflow: both products fit in 32 bits. */
  predicate NoOverflow(page: int, pageSize: int)
  {
    page >= 1 && pageSize >= 1 && IsInt32(page) && IsInt32((page - 1) * pageSize) && IsInt32(pageSize * 10)
  }

  /** Within those bounds the page's first rank is the plain product, and not negative. */
  lemma PageStartExact(page: int, pageSize: int)
    requires NoOverflow(page, pageSize)
    ensures PageStart(page, pageSize) == (page - 1) * pageSize >= 0
  {
    MulNonNegative(page - 1, pageSize);
    var a := page - 1;
    assert Wrap32(a) == a;
    var b := a * pageSize;
    assert Wrap32(b) == b;
  }

  lemma MulNonNegative(a: int, b: int)
    requires a >= 0 && b >= 0
    ensures a * b >= 0
  {
  }

  /** a is b with some elements left out: a strictly increasing choice of b's positions. */
  ghost predicate Subsequence(a: seq<string>, b: seq<string>)
  {
    exists idx: seq<int> ::
      && |idx| == |a|
      && (forall k :: 0 <= k < |idx| ==> 0 <= idx[k] < |b| && a[k] == b[idx[k]])
      && (forall k :: 0 <= k < |idx| - 1 ==> idx[k] < idx[k + 1])
  }

  /** The positions of the lines Where keeps, in increasing order. */
  lemma {:induction false} MatchingPositions(lines: seq<string>, filterText: string) returns (idx: seq<int>)
    ensures |idx| == |Matching(lines, filterText)|
    ensures forall k :: 0 <= k < |idx| ==> 0 <= idx[k] < |lines| && Matching(lines, filterText)[k] == lines[idx[k]]
    ensures forall k :: 0 <= k < |idx| - 1 ==> idx[k] < idx[k + 1]
    ensures forall j :: 0 <= j < |lines| && ContainsIgnoreCase(lines[j], filterText) ==> j in idx
    decreases |lines|
  {
    if lines == [] {
      idx := [];
    } else {
      var init := lines[..|lines| - 1];
      var head := MatchingPositions(init, filterText);
      assert forall j :: 0 <= j < |init| ==> init[j] == lines[j];
      if ContainsIgnoreCase(lines[|lines| - 1], filterText) {
        idx := head + [|lines| - 1];
        assert forall k :: 0 <= k < |head| ==> idx[k] == head[k];
      } else {
        idx := head;
      }
    }
  }

  /** Where keeps exactly the lines that contain the filter text. */
  lemma MatchingMembers(lines: seq<string>, filterText: string)
    ensures forall x :: x in Matching(lines, filterText) <==> x in lines && ContainsIgnoreCase(x, filterText)
  {
    var m := Matching(lines, filterText);
    var idx := MatchingPositions(lines, filterText);
    forall x | x in lines && ContainsIgnoreCase(x, filterText)
      ensures x in m
    {
      var j :| 0 <= j < |lines| && lines[j] == x;
      var k :| 0 <= k < |idx| && idx[k] == j;
      assert m[k] == x;
    }
  }

  /** Every line the filter keeps was in its input, in the same order. */
  lemma MatchingSubsequence(lines: seq<string>, filterText: string, count: int)
    ensures Subsequence(Take(Matching(lines, filterText), count), lines)
  {
    var m := Matching(lines, filterText);
    var idx := MatchingPositions(lines, filterText);
    var t := Take(m, count);
    assert t == m[..|t|];
    var cut := idx[..|t|];
    assert forall k :: 0 <= k < |cut| ==> cut[k] == idx[k] && t[k] == m[k];
    assert forall k :: 0 <= k < |cut| - 1 ==> cut[k] < cut[k + 1];
    SubsequenceWitness(t, lines, cut);
  }

  /** Increasing positions of b that pick out a, in order, make a a subsequence of b. */
  lemma SubsequenceWitness(a: seq<string>, b: seq<string>, idx: seq<int>)
    requires |idx| == |a|
    requires forall k :: 0 <= k < |idx| ==> 0 <= idx[k] < |b| && a[k] == b[idx[k]]
    requires forall k :: 0 <= k < |idx| - 1 ==> idx[k] < idx[k + 1]
    ensures Subsequence(a, b)
  {
  }

  /**
   * Without a filter, page p of size n is the n entries from rank (p - 1) * n, as far as the
   * log reaches: at most n lines.
   */
  lemma UnfilteredPage(ranked: seq<string>, page: int, pageSize: int, filterText: Option<string>)
    requires NoOverflow(page, pageSize)
    requires filterText.None? || IsWhiteSpace(filterText.value)
    ensures GetLogs(ranked, page, pageSize, filterText) == Slice(ranked, (page - 1) * pageSize, pageSize)
    ensures |GetLogs(ranked, page, pageSize, filterText)| <= pageSize
  {
    PageStartExact(page, pageSize);
    RankRangeSlice(ranked, PageStart(page, pageSize), pageSize);
  }

  /**
   * With a filter, the page holds at most n lines, each containing the filter text ignoring
   * case, taken in order from the 10 * n entries that start at the page's first rank.
   */
  lemma FilteredPage(ranked: seq<string>, page: int, pageSize: int, filterText: string)
    requires NoOverflow(page, pageSize)
    requires !IsWhiteSpace(filterText)
    ensures var r := GetLogs(ranked, page, pageSize, Some(filterText));
      && |r| <= pageSize
      && (forall k :: 0 <= k < |r| ==> ContainsIgnoreCase(r[k], filterText))
      && Subsequence(r, Slice(ranked, (page - 1) * pageSize, pageSize * 10))
      && r == Take(Matching(Slice(ranked, (page - 1) * pageSize, pageSize * 10), filterText), pageSize)
      && |r| == if |Matching(Slice(ranked, (page - 1) * pageSize, pageSize * 10), filterText)| < pageSize
                then |Matching(Slice(ranked, (page - 1) * pageSize, pageSize * 10), filterText)| else pageSize
  {
    PageStartExact(page, pageSize);
    var start := PageStart(page, pageSize);
    var width := pageSize * 10;
    assert Wrap32(width) == width;
    RankRangeSlice(ranked, start, width);
    var r := Take(Matching(Slice(ranked, start, width), filterText), pageSize);
    assert GetLogs(ranked, page, pageSize, Some(filterText)) == r;
    MatchingSubsequence(Slice(ranked, start, width), filterText, pageSize);
  }

  /** The sorted set of lines and their scores. */
  class ProcessLogger {
    var scores: map<string, int>

    constructor()
      ensures scores == map[]
    {
      scores := map[];
    }

    /**
     * LogAsync: ZADD the formatted line with its millisecond timestamp as score; true when the
     * line was not in the set before (an existing line only has its score updated).
     */
    method LogAsync(source: string, message: string, id: string, timestamp: string, millis: int)
      returns (added: bool)
      modifies this
      ensures scores == old(scores)[Line(id, timestamp, source, message) := millis]
      ensures added <==> Line(id, timestamp, source, message) !in old(scores)
    {
      var payload := "[" + id + " " + timestamp + "] " + source + " - " + message;
      added := payload !in scores;
      scores := scores[payload := millis];
    }
  }
}
