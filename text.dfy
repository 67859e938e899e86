/**
 * Character classes and the string operations of .NET that the routing code relies on:
 * Trim, ordinal case-insensitive comparison and Contains, IsNullOrWhiteSpace.
 * Character classes are the ASCII members of the .NET classes (\s, \w, \d).
 */
module Text {

  /** \s and char.IsWhiteSpace, restricted to ASCII: space, tab, LF, VT, FF, CR. */
  predicate IsSpace(c: char)
  {
    c == ' ' || c == '\t' || c == '\n' || c == '\r' || c == '\U{B}' || c == '\U{C}'
  }

  predicate IsDigit(c: char)
  {
    '0' <= c <= '9'
  }

  predicate IsLetter(c: char)
  {
    'a' <= c <= 'z' || 'A' <= c <= 'Z'
  }

  /** \w: letters, digits and underscore. */
  predicate IsWordChar(c: char)
  {
    IsLetter(c) || IsDigit(c) || c == '_'
  }

  /** The separators of the rule-book split: '\n' and '\r'. */
  predicate IsNewline(c: char)
  {
    c == '\n' || c == '\r'
  }

  function ToUpper(c: char): (u: char)
    ensures 'a' <= c <= 'z' ==> u as int == c as int - 32
    ensures !('a' <= c <= 'z') ==> u == c
  {
    if 'a' <= c <= 'z' then (c as int - 32) as char else c
  }

  function ToLower(c: char): (l: char)
    ensures 'A' <= c <= 'Z' ==> l as int == c as int + 32
    ensures !('A' <= c <= 'Z') ==> l == c
  {
    if 'A' <= c <= 'Z' then (c as int + 32) as char else c
  }

  /** Upper-casing a string, character by character (ToUpperInvariant on ASCII). */
  function Upper(s: string): (u: string)
    ensures |u| == |s|
    ensures forall k :: 0 <= k < |s| ==> u[k] == ToUpper(s[k])
  {
    if s == [] then [] else [ToUpper(s[0])] + Upper(s[1..])
  }

  /** ToLowerInvariant on ASCII. */
  function Lower(s: string): (l: string)
    ensures |l| == |s|
    ensures forall k :: 0 <= k < |s| ==> l[k] == ToLower(s[k])
  {
    if s == [] then [] else [ToLower(s[0])] + Lower(s[1..])
  }

  lemma UpperIdempotent(s: string)
    ensures Upper(Upper(s)) == Upper(s)
  {
    assert forall k :: 0 <= k < |s| ==> Upper(Upper(s))[k] == Upper(s)[k];
  }

  /** string.Equals(a, b, StringComparison.OrdinalIgnoreCase). */
  predicate EqualsIgnoreCase(a: string, b: string)
  {
    Upper(a) == Upper(b)
  }

  predicate StartsWith(s: string, t: string)
  {
    |t| <= |s| && s[..|t|] == t
  }

  /** Ordinal substring test, scanning start positions left to right. */
  predicate Contains(s: string, t: string)
    decreases |s|
  {
    StartsWith(s, t) || (|s| > 0 && Contains(s[1..], t))
  }

  /** t occurs in s starting at position i. */
  predicate OccursAt(s: string, t: string, i: int)
  {
    0 <= i <= |s| - |t| && s[i..i + |t|] == t
  }

  /** Contains holds exactly when t occurs in s at some position. */
  lemma {:induction false} ContainsIffOccurs(s: string, t: string)
    ensures Contains(s, t) <==> exists i :: OccursAt(s, t, i)
    decreases |s|
  {
    if StartsWith(s, t) {
      assert OccursAt(s, t, 0);
    } else if |s| == 0 {
      assert forall i :: !OccursAt(s, t, i);
    } else {
      ContainsIffOccurs(s[1..], t);
      if exists i :: OccursAt(s, t, i) {
        var i :| OccursAt(s, t, i);
        assert i != 0;
        assert OccursAt(s[1..], t, i - 1);
      }
      if exists i :: OccursAt(s[1..], t, i) {
        var i :| OccursAt(s[1..], t, i);
        assert s[1..][i..i + |t|] == s[i + 1..i + 1 + |t|];
        assert OccursAt(s, t, i + 1);
      }
    }
  }

  /** s.Contains(t, StringComparison.OrdinalIgnoreCase). */
  predicate ContainsIgnoreCase(s: string, t: string)
  {
    Contains(Upper(s), Upper(t))
  }

  /** string.IsNullOrWhiteSpace for a non-null string. */
  predicate IsWhiteSpace(s: string)
  {
    forall k :: 0 <= k < |s| ==> IsSpace(s[k])
  }

  /** The character classes the rule grammar and the string helpers scan for. */
  datatype CharClass = Space | Digit | Word | NonNewline | PropertyChar | OperatorChar | Quote

  predicate In(c: CharClass, ch: char)
  {
    match c
    case Space => IsSpace(ch)
    case Digit => IsDigit(ch)
    case Word => IsWordChar(ch)
    case NonNewline => !IsNewline(ch)
    case PropertyChar => IsWordChar(ch) || ch == '.'       // [\w\.]
    case OperatorChar => !IsDigit(ch) && !IsSpace(ch) && ch != '"'  // [^\d\s"]
    case Quote => ch == '"'
  }

  /** Every character of s[lo..hi] is in class c. */
  predicate AllIn(s: string, lo: int, hi: int, c: CharClass)
  {
    0 <= lo <= hi <= |s| && forall k :: lo <= k < hi ==> In(c, s[k])
  }

  /** The end of the longest run of characters satisfying p that starts at i. */
  function RunEnd(s: string, i: nat, c: CharClass): (j: nat)
    requires i <= |s|
    ensures i <= j <= |s|
    ensures forall k :: i <= k < j ==> In(c, s[k])
    ensures j < |s| ==> !In(c, s[j])
    decreases |s| - i
  {
    if i < |s| && In(c, s[i]) then RunEnd(s, i + 1, c) else i
  }

  /** A run that ends where p fails (or at the end) is the longest run. */
  lemma RunEndUnique(s: string, i: nat, j: nat, c: CharClass)
    requires AllIn(s, i, j, c) && (j < |s| ==> !In(c, s[j]))
    ensures RunEnd(s, i, c) == j
  {
  }

  /** Every run of p starting at i lies inside the longest one. */
  lemma RunEndBound(s: string, i: nat, j: nat, c: CharClass)
    requires AllIn(s, i, j, c)
    ensures j <= RunEnd(s, i, c)
  {
  }

  function TrimStart(s: string): (t: string)
    ensures |t| <= |s| && t == s[|s| - |t|..]
    ensures forall k :: 0 <= k < |s| - |t| ==> IsSpace(s[k])
    ensures |t| > 0 ==> !IsSpace(t[0])
  {
    s[RunEnd(s, 0, Space)..]
  }

  function TrimEnd(s: string): (t: string)
    ensures |t| <= |s| && t == s[..|t|]
    ensures forall k :: |t| <= k < |s| ==> IsSpace(s[k])
    ensures |t| > 0 ==> !IsSpace(t[|t| - 1])
    decreases |s|
  {
    if |s| > 0 && IsSpace(s[|s| - 1]) then TrimEnd(s[..|s| - 1]) else s
  }

  /** t is s with a white-space prefix of length a and a white-space suffix removed. */
  predicate TrimmedAt(s: string, t: string, a: int)
  {
    && 0 <= a <= |s| - |t| && t == s[a..a + |t|]
    && (forall k :: 0 <= k < a ==> IsSpace(s[k]))
    && (forall k :: a + |t| <= k < |s| ==> IsSpace(s[k]))
  }

  /** string.Trim(): drop leading and trailing white space. */
  function Trim(s: string): (t: string)
    ensures |t| <= |s|
  {
    TrimStart(TrimEnd(s))
  }

  /** Trim removes a white-space prefix and a white-space suffix and nothing else. */
  lemma TrimSpec(s: string)
    ensures exists a :: TrimmedAt(s, Trim(s), a)
    ensures |Trim(s)| > 0 ==> !IsSpace(Trim(s)[0]) && !IsSpace(Trim(s)[|Trim(s)| - 1])
  {
    var e := TrimEnd(s);
    var t := TrimStart(e);
    var a := |e| - |t|;
    assert t == s[a..a + |t|] by {
      assert e == s[..|e|];
      assert t == e[a..];
    }
    assert forall k :: 0 <= k < a ==> IsSpace(s[k]) by {
      forall k | 0 <= k < a ensures IsSpace(s[k]) {
        assert e[k] == s[k];
      }
    }
    assert t == Trim(s);
    assert TrimmedAt(s, t, a);
  }

  /** A string made only of white space trims to the empty string, and no other does. */
  lemma TrimEmptyIffWhiteSpace(s: string)
    ensures Trim(s) == [] <==> IsWhiteSpace(s)
  {
    TrimSpec(s);
    if Trim(s) != [] {
      var t := Trim(s);
      var a :| TrimmedAt(s, t, a);
      assert s[a] == t[0];
    }
  }

  /** A string that neither starts nor ends with white space is its own trim. */
  lemma TrimOfTrimmed(s: string)
    requires |s| > 0 ==> !IsSpace(s[0]) && !IsSpace(s[|s| - 1])
    ensures Trim(s) == s
  {
    assert TrimEnd(s) == s;
    RunEndUnique(s, 0, 0, Space);
  }
}
