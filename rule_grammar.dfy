/**
 * The rule-line grammar of Rule.ParseRules, the regular expression
 *   ^(?<name>\w+):\s*(?<property>[\w\.]+)\s*(?<op>[^\d\s"]+)\s*(?<value>(-?[0-9.]+|"[^"]*"))$
 * as a hand-written recognizer.
 *
 * A match is a split of the line into name, ':', spaces, property, spaces, operator, spaces
 * and value. Several splits may exist; a backtracking engine reports the first one it tries,
 * which is the one whose quantifiers are greediest from left to right. `MatchRule` returns
 * exactly that split, or None when the line has no split at all.
 */
module RuleGrammar {
  import opened Results
  import opened Text

  /** [0-9.] */
  predicate IsNumberChar(c: char)
  {
    IsDigit(c) || c == '.'
  }

  /** [0-9.]+ */
  predicate IsNumberBody(b: string)
  {
    |b| > 0 && forall k :: 0 <= k < |b| ==> IsNumberChar(b[k])
  }

  /** -?[0-9.]+ */
  predicate IsNumberToken(t: string)
  {
    IsNumberBody(t) || (|t| > 0 && t[0] == '-' && IsNumberBody(t[1..]))
  }

  /** "[^"]*" */
  predicate IsQuotedToken(t: string)
  {
    |t| >= 2 && t[0] == '"' && t[|t| - 1] == '"' && forall k :: 1 <= k < |t| - 1 ==> t[k] != '"'
  }

  predicate IsValueToken(t: string)
  {
    IsNumberToken(t) || IsQuotedToken(t)
  }

  lemma ValueTokenStartsWithNonSpace(t: string)
    requires IsValueToken(t)
    ensures |t| > 0 && !IsSpace(t[0])
  {
    if IsNumberBody(t) {
      assert IsNumberChar(t[0]);
    }
  }

  /**
   * The positions where a match cuts the line: name = line[..nameEnd],
   * property = line[propStart..propEnd], operator = line[opStart..opEnd],
   * value = line[valueStart..].
   */
  datatype Split = Split(nameEnd: nat, propStart: nat, propEnd: nat, opStart: nat, opEnd: nat, valueStart: nat)

  /** The line matches the regular expression with the groups cut at d. */
  ghost predicate ValidSplit(line: string, d: Split)
  {
    && 0 < d.nameEnd < |line| && AllIn(line, 0, d.nameEnd, Word) && line[d.nameEnd] == ':'
    && d.nameEnd + 1 <= d.propStart < d.propEnd <= d.opStart < d.opEnd <= d.valueStart <= |line|
    && AllIn(line, d.nameEnd + 1, d.propStart, Space)
    && AllIn(line, d.propStart, d.propEnd, PropertyChar)
    && AllIn(line, d.propEnd, d.opStart, Space)
    && AllIn(line, d.opStart, d.opEnd, OperatorChar)
    && AllIn(line, d.opEnd, d.valueStart, Space)
    && IsValueToken(line[d.valueStart..])
  }

  /**
   * A backtracking engine tries a before b: every quantifier is greedy, so the split whose
   * first differing cut lies further right is tried first.
   */
  predicate TriedBefore(a: Split, b: Split)
  {
    a.nameEnd > b.nameEnd || (a.nameEnd == b.nameEnd &&
    (a.propStart > b.propStart || (a.propStart == b.propStart &&
    (a.propEnd > b.propEnd || (a.propEnd == b.propEnd &&
    (a.opStart > b.opStart || (a.opStart == b.opStart &&
    (a.opEnd > b.opEnd || (a.opEnd == b.opEnd && a.valueStart > b.valueStart)))))))))
  }

  /** d is the match the regular expression reports: valid, and no valid split is tried before it. */
  ghost predicate FirstMatch(line: string, d: Split)
  {
    ValidSplit(line, d) && forall e :: ValidSplit(line, e) ==> !TriedBefore(e, d)
  }

  /** The value accepted when the operator ends at o1. */
  predicate ValueAfter(line: string, o1: nat)
    requires o1 <= |line|
  {
    IsValueToken(line[RunEnd(line, o1, Space)..])
  }

  /**
   * The cuts every match has: the name ends at the first non-word character, the property
   * starts after the spaces following ':', the operator starts after the spaces following
   * the property and the value after the spaces following the operator; only the ends of
   * the property and of the operator are free, within their character runs.
   */
  ghost predicate Forced(line: string, e: Split)
  {
    && 0 < e.nameEnd == RunEnd(line, 0, Word) && e.nameEnd < |line| && line[e.nameEnd] == ':'
    && e.propStart == RunEnd(line, e.nameEnd + 1, Space)
    && e.propStart < e.propEnd <= RunEnd(line, e.propStart, PropertyChar)
    && e.opStart == RunEnd(line, e.propEnd, Space)
    && e.opStart < e.opEnd <= RunEnd(line, e.opStart, OperatorChar)
    && e.valueStart == RunEnd(line, e.opEnd, Space)
    && ValueAfter(line, e.opEnd)
  }

  /** The character classes leave every match only the two free cuts of Forced. */
  lemma ForcedCuts(line: string, e: Split)
    requires ValidSplit(line, e)
    ensures Forced(line, e)
  {
    ValueTokenStartsWithNonSpace(line[e.valueStart..]);
    assert line[e.valueStart..][0] == line[e.valueStart];
    RunEndUnique(line, 0, e.nameEnd, Word);
    RunEndUnique(line, e.nameEnd + 1, e.propStart, Space);
    RunEndBound(line, e.propStart, e.propEnd, PropertyChar);
    RunEndUnique(line, e.propEnd, e.opStart, Space);
    RunEndBound(line, e.opStart, e.opEnd, OperatorChar);
    RunEndUnique(line, e.opEnd, e.valueStart, Space);
  }

  /**
   * Backtracking over the operator's end: tries o1, o1 - 1, ..., o0 + 1 and returns the
   * first end after which the rest of the line is a value.
   */
  function SearchOperator(line: string, o0: nat, o1: nat): (r: Option<nat>)
    requires AllIn(line, o0, o1, OperatorChar)
    ensures r.Some? ==> o0 < r.value <= o1 && ValueAfter(line, r.value)
    ensures forall k :: (if r.Some? then r.value else o0) < k <= o1 ==> !ValueAfter(line, k)
    decreases o1
  {
    if o1 <= o0 then None
    else if ValueAfter(line, o1) then Some(o1)
    else SearchOperator(line, o0, o1 - 1)
  }

  /** The regex's fixed prefix holds: the name ends at n with ':' and the property starts at p0. */
  ghost predicate PrefixAt(line: string, n: nat, p0: nat)
  {
    && n == RunEnd(line, 0, Word) && 0 < n < |line| && line[n] == ':'
    && p0 == RunEnd(line, n + 1, Space)
  }

  /** The split that ends the property at p1 and the operator at o1, all other cuts being forced. */
  function SplitAt(line: string, n: nat, p0: nat, p1: nat, o1: nat): Split
    requires p1 <= |line| && o1 <= |line|
  {
    Split(n, p0, p1, RunEnd(line, p1, Space), o1, RunEnd(line, o1, Space))
  }

  /** With the property ending at p1, the operator ending at o1 gives a match. */
  lemma SplitAtValid(line: string, n: nat, p0: nat, p1: nat, o1: nat)
    requires PrefixAt(line, n, p0) && AllIn(line, p0, p1, PropertyChar) && p0 < p1
    requires RunEnd(line, p1, Space) < o1 <= RunEnd(line, RunEnd(line, p1, Space), OperatorChar)
    requires ValueAfter(line, o1)
    ensures ValidSplit(line, SplitAt(line, n, p0, p1, o1))
  {
    var o0 := RunEnd(line, p1, Space);
    assert AllIn(line, o0, o1, OperatorChar);
  }

  /**
   * Backtracking over the property's end: tries p1, p1 - 1, ..., p0 + 1 and, for each,
   * every operator end from the longest down.
   */
  function SearchProperty(line: string, n: nat, p0: nat, p1: nat): (r: Option<Split>)
    requires PrefixAt(line, n, p0) && AllIn(line, p0, p1, PropertyChar)
    ensures r.Some? ==> ValidSplit(line, r.value) && r.value.propEnd <= p1
    decreases p1
  {
    if p1 <= p0 then None
    else
      var o0 := RunEnd(line, p1, Space);
      var found := SearchOperator(line, o0, RunEnd(line, o0, OperatorChar));
      if found.Some? then
        SplitAtValid(line, n, p0, p1, found.value);
        Some(SplitAt(line, n, p0, p1, found.value))
      else SearchProperty(line, n, p0, p1 - 1)
  }

  /** An operator end that admits a value bounds the end the operator search returns. */
  lemma OperatorEndBound(line: string, o0: nat, o1: nat, k: nat)
    requires AllIn(line, o0, o1, OperatorChar) && o0 < k <= o1 && ValueAfter(line, k)
    ensures SearchOperator(line, o0, o1).Some? && k <= SearchOperator(line, o0, o1).value
  {
  }

  /** e is not tried before d when they agree up to a cut where d's cut lies no further left. */
  lemma NotTriedBefore(e: Split, d: Split)
    requires e.nameEnd == d.nameEnd && e.propStart == d.propStart && e.propEnd <= d.propEnd
    requires e.propEnd == d.propEnd ==> e.opStart == d.opStart && e.opEnd <= d.opEnd
    requires e.propEnd == d.propEnd && e.opEnd == d.opEnd ==> e.valueStart == d.valueStart
    ensures !TriedBefore(e, d)
  {
  }

  /**
   * One round of the search at property end p1: either it stops there with a split tried no
   * later than e, or it moves on to p1 - 1 and e ends its property before p1.
   */
  lemma SearchPropertyRound(line: string, n: nat, p0: nat, p1: nat, e: Split) returns (stops: bool)
    requires PrefixAt(line, n, p0) && AllIn(line, p0, p1, PropertyChar)
    requires Forced(line, e) && e.nameEnd == n && e.propEnd <= p1
    ensures stops ==> SearchProperty(line, n, p0, p1).Some?
    ensures stops ==> !TriedBefore(e, SearchProperty(line, n, p0, p1).value)
    ensures !stops ==> e.propEnd < p1 && AllIn(line, p0, p1 - 1, PropertyChar)
    ensures !stops ==> SearchProperty(line, n, p0, p1) == SearchProperty(line, n, p0, p1 - 1)
  {
    var o0 := RunEnd(line, p1, Space);
    var omax := RunEnd(line, o0, OperatorChar);
    if e.propEnd == p1 {
      OperatorEndBound(line, o0, omax, e.opEnd);
    }
    stops := SearchOperator(line, o0, omax).Some?;
    if stops {
      var o1 := SearchOperator(line, o0, omax).value;
      assert SearchProperty(line, n, p0, p1) == Some(SplitAt(line, n, p0, p1, o1));
      NotTriedBefore(e, SplitAt(line, n, p0, p1, o1));
    }
  }

  /**
   * Any match whose property ends by p1 makes the search succeed, and the search's split is
   * tried no later than that match.
   */
  lemma {:induction false} SearchPropertyFirst(line: string, n: nat, p0: nat, p1: nat, e: Split)
    requires PrefixAt(line, n, p0) && AllIn(line, p0, p1, PropertyChar)
    requires Forced(line, e) && e.nameEnd == n && e.propEnd <= p1
    ensures SearchProperty(line, n, p0, p1).Some?
    ensures !TriedBefore(e, SearchProperty(line, n, p0, p1).value)
    decreases p1
  {
    var stops := SearchPropertyRound(line, n, p0, p1, e);
    if !stops {
      // the induction hypothesis, for every property end below p1
      forall p | p < p1 && AllIn(line, p0, p, PropertyChar) && e.propEnd <= p
        ensures SearchProperty(line, n, p0, p).Some? && !TriedBefore(e, SearchProperty(line, n, p0, p).value)
      {
        SearchPropertyFirst(line, n, p0, p, e);
      }
    }
  }

  /**
   * Regex.Match on a trimmed rule line: the split the regular expression reports, or None
   * when the line does not match.
   */
  function MatchRule(line: string): (r: Option<Split>)
    ensures r.Some? ==> ValidSplit(line, r.value)
  {
    var n := RunEnd(line, 0, Word);
    if n == 0 || n >= |line| || line[n] != ':' then None
    else
      var p0 := RunEnd(line, n + 1, Space);
      SearchProperty(line, n, p0, RunEnd(line, p0, PropertyChar))
  }

  /** MatchRule reports the match a backtracking engine finds first, and None only when there is none. */
  lemma MatchRuleFirst(line: string)
    ensures MatchRule(line).Some? ==> FirstMatch(line, MatchRule(line).value)
    ensures MatchRule(line).None? ==> forall e :: !ValidSplit(line, e)
  {
    forall e | ValidSplit(line, e)
      ensures MatchRule(line).Some? && !TriedBefore(e, MatchRule(line).value)
    {
      ForcedCuts(line, e);
      SearchPropertyFirst(line, e.nameEnd, e.propStart, RunEnd(line, e.propStart, PropertyChar), e);
    }
  }

  function TrimQuotesEnd(s: string): (t: string)
    ensures |t| <= |s| && t == s[..|t|]
    decreases |s|
  {
    if |s| > 0 && In(Quote, s[|s| - 1]) then TrimQuotesEnd(s[..|s| - 1]) else s
  }

  /** s.Trim('"'): drop every leading and trailing double quote. */
  function TrimQuotes(s: string): string
  {
    TrimQuotesEnd(s[RunEnd(s, 0, Quote)..])
  }

  /** Trim('"') leaves a number token alone and strips exactly the two quotes of a quoted one. */
  lemma TrimQuotesOfValue(t: string)
    requires IsValueToken(t)
    ensures IsNumberToken(t) ==> TrimQuotes(t) == t
    ensures IsQuotedToken(t) ==> TrimQuotes(t) == t[1..|t| - 1]
  {
    if IsQuotedToken(t) {
      var inner := t[1..|t| - 1];
      if |inner| == 0 {
        assert RunEnd(t, 0, Quote) == 2;
      } else {
        assert !In(Quote, t[1]);
        assert RunEnd(t, 0, Quote) == 1;
        assert t[1..] == inner + ['"'];
        assert TrimQuotesEnd(t[1..]) == TrimQuotesEnd(inner);
      }
    } else {
      assert !In(Quote, t[|t| - 1]) by {
        if IsNumberBody(t) { assert IsNumberChar(t[|t| - 1]); }
        else { assert IsNumberChar(t[1..][|t| - 2]); }
      }
      assert !In(Quote, t[0]) by {
        if IsNumberBody(t) { assert IsNumberChar(t[0]); }
      }
    }
  }

  /** The groups of a match, the value with its quotes trimmed as ParseRules passes it on. */
  datatype Captures = Captures(name: string, property: string, op: string, value: string)

  function CapturesOf(line: string, d: Split): Captures
    requires d.nameEnd <= |line| && d.propStart <= d.propEnd <= |line|
    requires d.opStart <= d.opEnd <= |line| && d.valueStart <= |line|
  {
    Captures(line[..d.nameEnd], line[d.propStart..d.propEnd], line[d.opStart..d.opEnd],
             TrimQuotes(line[d.valueStart..]))
  }
}
