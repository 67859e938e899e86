/**
 * Routing rules (WonderK.RuleChecker/Rule.cs): a rule names a department, a parcel property,
 * an operator and a value. Parsing a rule book builds the rules line by line; evaluating a
 * rule compares one field of a parcel with the rule's value.
 */
module Rules {
  import opened Results
  import opened Text
  import opened Data
  import opened RuleGrammar

  /** The numeric parcel fields a rule can test. */
  datatype NumericField = ValueField | WeightField

  /** The text parcel fields a rule can test. */
  datatype StringField = NameField | CityField

  datatype NumericOp = Greater | GreaterOrEqual | Less | LessOrEqual | Near

  datatype StringOp = Equal | ContainsText

  /** The comparison a constructed rule performs. */
  datatype Test =
    | NumericTest(numericField: NumericField, numericOp: NumericOp, threshold: real)
    | StringTest(stringField: StringField, stringOp: StringOp, text: string)

  /** A constructed rule: the four strings it was built from and the comparison they select. */
  datatype Rule = Rule(name: string, property: string, op: string, value: string, test: Test)

  /** The exceptions rule construction and parsing throw, with what their messages name. */
  datatype RuleError =
    | InvalidRuleFormat(line: string)
    | InvalidNumber(text: string)
    | UnknownOperator(op: string)
    | UnsupportedStringOperator(op: string)
    | UnknownProperty(property: string)

  // ---------------------------------------------------------------------------------------
  // Operators

  /** The operator text each numeric comparison is written with. */
  function NumericSymbol(o: NumericOp): string
  {
    match o
    case Greater => ">"
    case GreaterOrEqual => ">="
    case Less => "<"
    case LessOrEqual => "<="
    case Near => "="
  }

  /** The operator text each string comparison is written with. */
  function StringSymbol(o: StringOp): string
  {
    match o
    case Equal => "="
    case ContainsText => "contains"
  }

  /** BuildNumericOp: the comparison an operator text names, compared ordinally. */
  function BuildNumericOp(op: string): (r: Result<NumericOp, RuleError>)
    ensures r.Ok? ==> NumericSymbol(r.value) == op
    ensures r.Err? ==> r.error == UnknownOperator(op) && forall o :: NumericSymbol(o) != op
  {
    if op == ">" then Ok(Greater)
    else if op == ">=" then Ok(GreaterOrEqual)
    else if op == "<" then Ok(Less)
    else if op == "<=" then Ok(LessOrEqual)
    else if op == "=" then Ok(Near)
    else Err(UnknownOperator(op))
  }

  /** BuildStringOp: "=" and "contains" only, compared ordinally (so "Contains" is refused). */
  function BuildStringOp(op: string): (r: Result<StringOp, RuleError>)
    ensures r.Ok? ==> StringSymbol(r.value) == op
    ensures r.Err? ==> r.error == UnsupportedStringOperator(op) && forall o :: StringSymbol(o) != op
  {
    if op == "=" then Ok(Equal)
    else if op == "contains" then Ok(ContainsText)
    else Err(UnsupportedStringOperator(op))
  }

  /** Every numeric comparison is reachable from its own symbol, and no other. */
  lemma BuildNumericOpOfSymbol(o: NumericOp)
    ensures BuildNumericOp(NumericSymbol(o)) == Ok(o)
  {
  }

  lemma BuildStringOpOfSymbol(o: StringOp)
    ensures BuildStringOp(StringSymbol(o)) == Ok(o)
  {
  }

  // ---------------------------------------------------------------------------------------
  // double.Parse with the invariant culture, for plain decimal notation

  function DigitValue(c: char): nat
    requires IsDigit(c)
  {
    c as int - '0' as int
  }

  predicate AllDigits(s: string)
  {
    forall k :: 0 <= k < |s| ==> IsDigit(s[k])
  }

  /** The number a string of decimal digits denotes, most significant digit first. */
  function DigitsValue(s: string): nat
    requires AllDigits(s)
  {
    if s == [] then 0 else DigitsValue(s[..|s| - 1]) * 10 + DigitValue(s[|s| - 1])
  }

  function Pow10(n: nat): (p: nat)
    ensures p >= 1
  {
    if n == 0 then 1 else 10 * Pow10(n - 1)
  }

  /** The value of a decimal numeral: the whole part plus the fraction digits over 10^digits. */
  function Scaled(whole: nat, fraction: nat, digits: nat): (r: real)
    ensures r >= whole as real
  {
    whole as real + fraction as real / Pow10(digits) as real
  }

  /** digits [ '.' digits ] with at least one digit in all. */
  function ParseUnsigned(s: string): (r: Option<real>)
    ensures r.Some? ==> r.value >= 0.0
  {
    var dot := RunEnd(s, 0, Digit);
    if dot == |s| then
      if |s| > 0 then Some(DigitsValue(s) as real) else None
    else if s[dot] != '.' then None
    else
      var frac := s[dot + 1..];
      if AllDigits(frac) && (dot > 0 || |frac| > 0) then
        Some(Scaled(DigitsValue(s[..dot]), DigitsValue(frac), |frac|))
      else None
  }

  /**
   * double.Parse(text, CultureInfo.InvariantCulture) on decimal notation: surrounding white
   * space, an optional leading sign, digits with at most one '.', and at least one digit.
   * None stands for the FormatException.
   */
  function ParseDouble(text: string): (r: Option<real>)
  {
    var t := Trim(text);
    if |t| > 0 && t[0] == '-' then
      match ParseUnsigned(t[1..])
      case Some(x) => Some(-x)
      case None => None
    else if |t| > 0 && t[0] == '+' then ParseUnsigned(t[1..])
    else ParseUnsigned(t)
  }

  /** The digits of n in decimal, as ToString writes a natural number. */
  function NatText(n: nat): (s: string)
    ensures |s| > 0 && AllDigits(s)
  {
    if n < 10 then [('0' as int + n) as char]
    else NatText(n / 10) + [('0' as int + n % 10) as char]
  }

  lemma {:induction false} DigitsValueOfNatText(n: nat)
    ensures DigitsValue(NatText(n)) == n
  {
    if n >= 10 {
      var s := NatText(n);
      assert s[..|s| - 1] == NatText(n / 10);
      DigitsValueOfNatText(n / 10);
    }
  }

  lemma ParseUnsignedOfNatText(n: nat)
    ensures ParseUnsigned(NatText(n)) == Some(n as real)
  {
    var s := NatText(n);
    DigitsValueOfNatText(n);
    RunEndUnique(s, 0, |s|, Digit);
  }

  /** Parsing reads back every natural number as written in decimal. */
  lemma ParseDoubleOfNatText(n: nat)
    ensures ParseDouble(NatText(n)) == Some(n as real)
  {
    var s := NatText(n);
    ParseUnsignedOfNatText(n);
    assert IsDigit(s[0]) && IsDigit(s[|s| - 1]);
    TrimOfTrimmed(s);
  }

  /** ... and its negation with a leading minus sign. */
  lemma ParseDoubleOfNegatedNatText(n: nat)
    ensures ParseDouble("-" + NatText(n)) == Some(-(n as real))
  {
    ParseUnsignedOfNatText(n);
    ParseDoubleNegated(NatText(n), n as real);
  }

  /** A minus sign before a digit-terminated text negates the value the text reads as. */
  lemma ParseDoubleNegated(s: string, x: real)
    requires |s| > 0 && IsDigit(s[|s| - 1]) && ParseUnsigned(s) == Some(x)
    ensures ParseDouble("-" + s) == Some(-x)
  {
    var m := "-" + s;
    assert m[1..] == s && m[|m| - 1] == s[|s| - 1];
    TrimOfTrimmed(m);
  }

  lemma ParseUnsignedOfDecimal(w: string, d: string)
    requires AllDigits(w) && AllDigits(d) && |w| + |d| > 0
    ensures ParseUnsigned(w + "." + d) == Some(Scaled(DigitsValue(w), DigitsValue(d), |d|))
  {
    var s := w + "." + d;
    assert RunEnd(s, 0, Digit) == |w| by {
      assert s[|w|] == '.';
      assert AllIn(s, 0, |w|, Digit);
      RunEndUnique(s, 0, |w|, Digit);
    }
    assert s[..|w|] == w && s[|w| + 1..] == d;
  }

  /**
   * Digits, a point and digits, with a digit at either end, read back as the decimal they
   * write: the whole part plus the fraction digits over 10^(number of fraction digits).
   */
  lemma ParseDoubleOfDecimal(w: string, d: string)
    requires AllDigits(w) && AllDigits(d) && |w| > 0 && |d| > 0
    ensures ParseDouble(w + "." + d) == Some(Scaled(DigitsValue(w), DigitsValue(d), |d|))
  {
    var s := w + "." + d;
    ParseUnsignedOfDecimal(w, d);
    assert s[0] == w[0] && s[|s| - 1] == d[|d| - 1];
    assert IsDigit(s[0]) && IsDigit(s[|s| - 1]);
    TrimOfTrimmed(s);
  }

  // ---------------------------------------------------------------------------------------
  // Rule construction and evaluation

  /** The kind of field a property names. */
  datatype Field = Numeric(numeric: NumericField) | Text(text: StringField)

  /** The switch on property.ToLowerInvariant() in the Rule constructor. */
  function FieldOf(property: string): (f: Option<Field>)
    ensures f.Some? <==> Lower(property) in {"value", "weight", "receipient.name", "receipient.address.city"}
  {
    var key := Lower(property);
    if key == "value" then Some(Numeric(ValueField))
    else if key == "weight" then Some(Numeric(WeightField))
    else if key == "receipient.name" then Some(Text(NameField))
    else if key == "receipient.address.city" then Some(Text(CityField))
    else None
  }

  lemma LowerOfUpper(s: string)
    ensures Lower(Upper(s)) == Lower(s)
  {
    assert forall k :: 0 <= k < |s| ==> Lower(Upper(s))[k] == Lower(s)[k];
  }

  /** Property names are case-insensitive: "WEIGHT" and "Weight" select the weight. */
  lemma FieldOfIgnoresCase(property: string)
    ensures FieldOf(Upper(property)) == FieldOf(property)
  {
    LowerOfUpper(property);
  }

  /**
   * new Rule(name, property, op, value): the property, lower-cased, selects the field; a
   * numeric field parses the value first and then the operator.
   */
  function NewRule(name: string, property: string, op: string, value: string): (r: Result<Rule, RuleError>)
    ensures r.Ok? ==> r.value.name == name && r.value.property == property && r.value.op == op && r.value.value == value
    ensures r.Err? ==> !r.error.InvalidRuleFormat?
  {
    match FieldOf(property)
    case None => Err(UnknownProperty(property))
    case Some(Numeric(field)) =>
      (match ParseDouble(value)
       case None => Err(InvalidNumber(value))
       case Some(x) =>
         match BuildNumericOp(op)
         case Err(e) => Err(e)
         case Ok(o) => Ok(Rule(name, property, op, value, NumericTest(field, o, x))))
    case Some(Text(field)) =>
      match BuildStringOp(op)
      case Err(e) => Err(e)
      case Ok(o) => Ok(Rule(name, property, op, value, StringTest(field, o, value)))
  }

  /**
   * The outcomes of the Rule constructor: the field and comparison a rule tests, and which
   * exception each kind of bad input raises, checked in the constructor's order.
   */
  lemma NewRuleOutcome(name: string, property: string, op: string, value: string)
    ensures var r := NewRule(name, property, op, value);
      && (r.Ok? && r.value.test.NumericTest? ==>
            && FieldOf(property) == Some(Numeric(r.value.test.numericField))
            && NumericSymbol(r.value.test.numericOp) == op
            && ParseDouble(value) == Some(r.value.test.threshold))
      && (r.Ok? && r.value.test.StringTest? ==>
            && FieldOf(property) == Some(Text(r.value.test.stringField))
            && StringSymbol(r.value.test.stringOp) == op
            && r.value.test.text == value)
      && (FieldOf(property).None? ==> r == Err(UnknownProperty(property)))
      && (FieldOf(property).Some? && FieldOf(property).value.Numeric? && ParseDouble(value).None? ==>
            r == Err(InvalidNumber(value)))
      && (r.Err? && r.error.UnknownOperator? ==>
            r.error.op == op && FieldOf(property).value.Numeric? && ParseDouble(value).Some?)
      && (r.Err? && r.error.UnsupportedStringOperator? ==> r.error.op == op && FieldOf(property).value.Text?)
      && (r.Ok? <==>
            && FieldOf(property).Some?
            && (FieldOf(property).value.Numeric? ==> ParseDouble(value).Some? && exists o :: NumericSymbol(o) == op)
            && (FieldOf(property).value.Text? ==> exists o :: StringSymbol(o) == op))
      && ((&& FieldOf(property).Some? && FieldOf(property).value.Numeric? && ParseDouble(value).Some?
           && forall o :: NumericSymbol(o) != op) ==> r == Err(UnknownOperator(op)))
      && ((&& FieldOf(property).Some? && FieldOf(property).value.Text?
           && forall o :: StringSymbol(o) != op) ==> r == Err(UnsupportedStringOperator(op)))
  {
    match FieldOf(property)
    case None =>
    case Some(Numeric(_)) =>
      var b := BuildNumericOp(op);
      if b.Ok? {
        assert NumericSymbol(b.value) == op;
      }
    case Some(Text(_)) =>
      var b := BuildStringOp(op);
      if b.Ok? {
        assert StringSymbol(b.value) == op;
      }
  }

  /** A known numeric property, a parsable number and a numeric symbol always build their rule. */
  lemma NewRuleBuildsNumeric(name: string, property: string, op: string, value: string,
                             field: NumericField, o: NumericOp, x: real)
    requires FieldOf(property) == Some(Numeric(field)) && ParseDouble(value) == Some(x) && NumericSymbol(o) == op
    ensures NewRule(name, property, op, value) == Ok(Rule(name, property, op, value, NumericTest(field, o, x)))
  {
    BuildNumericOpOfSymbol(o);
  }

  function NumericOf(f: NumericField, p: Parcel): real
  {
    match f
    case ValueField => p.value
    case WeightField => p.weight
  }

  function TextOf(f: StringField, p: Parcel): string
  {
    match f
    case NameField => p.receipient.name
    case CityField => p.receipient.address.city
  }

  /** The tolerance of the "=" comparison on numbers, 1e-6. */
  const Tolerance: real := 0.000001

  function Compare(o: NumericOp, l: real, r: real): bool
  {
    match o
    case Greater => l > r
    case GreaterOrEqual => l >= r
    case Less => l < r
    case LessOrEqual => l <= r
    case Near => -Tolerance < l - r < Tolerance
  }

  function CompareText(o: StringOp, l: string, r: string): bool
  {
    match o
    case Equal => EqualsIgnoreCase(l, r)
    case ContainsText => ContainsIgnoreCase(l, r)
  }

  /** Rule.Evaluate: the parcel's field on the left, the rule's value on the right. */
  function Evaluate(rule: Rule, p: Parcel): bool
  {
    match rule.test
    case NumericTest(f, o, x) => Compare(o, NumericOf(f, p), x)
    case StringTest(f, o, x) => CompareText(o, TextOf(f, p), x)
  }

  // ---------------------------------------------------------------------------------------
  // What an evaluated rule means

  /** A numeric rule compares the parcel's field with its threshold as its operator's symbol says. */
  lemma NumericVerdict(rule: Rule, p: Parcel)
    requires rule.test.NumericTest?
    ensures var l := NumericOf(rule.test.numericField, p);
      var x := rule.test.threshold;
      var symbol := NumericSymbol(rule.test.numericOp);
      && (symbol == ">" ==> (Evaluate(rule, p) <==> l > x))
      && (symbol == ">=" ==> (Evaluate(rule, p) <==> l >= x))
      && (symbol == "<" ==> (Evaluate(rule, p) <==> l < x))
      && (symbol == "<=" ==> (Evaluate(rule, p) <==> l <= x))
      && (symbol == "=" ==> (Evaluate(rule, p) <==> -Tolerance < l - x < Tolerance))
  {
    BuildNumericOpOfSymbol(rule.test.numericOp);
  }

  /** A text rule compares the parcel's field with its text, ignoring case, as its operator's symbol says. */
  lemma StringVerdict(rule: Rule, p: Parcel)
    requires rule.test.StringTest?
    ensures var l := TextOf(rule.test.stringField, p);
      var x := rule.test.text;
      var symbol := StringSymbol(rule.test.stringOp);
      && (symbol == "=" ==> (Evaluate(rule, p) <==> Upper(l) == Upper(x)))
      && (symbol == "contains" ==> (Evaluate(rule, p) <==> exists i :: OccursAt(Upper(l), Upper(x), i)))
  {
    var l := TextOf(rule.test.stringField, p);
    var x := rule.test.text;
    if rule.test.stringOp == ContainsText {
      assert Evaluate(rule, p) == Contains(Upper(l), Upper(x));
      ContainsIffOccurs(Upper(l), Upper(x));
    } else {
      assert StringSymbol(rule.test.stringOp) != "contains";
    }
  }

  /** The "=" comparison on numbers does not depend on the order of its operands. */
  lemma NearIsSymmetric(l: real, r: real)
    ensures Compare(Near, l, r) == Compare(Near, r, l)
  {
  }

  /** A parcel whose text field equals the rule's text, ignoring case, also contains it. */
  lemma EqualImpliesContains(l: string, r: string)
    ensures CompareText(Equal, l, r) ==> CompareText(ContainsText, l, r)
  {
    if EqualsIgnoreCase(l, r) {
      assert StartsWith(Upper(l), Upper(r));
    }
  }

  /** String rules ignore case: upper-casing the parcel's text fields changes no verdict. */
  lemma StringRulesIgnoreCase(rule: Rule, p: Parcel)
    requires rule.test.StringTest?
    ensures var q := p.(receipient := Receipient(Upper(p.receipient.name),
                        p.receipient.address.(city := Upper(p.receipient.address.city))));
      Evaluate(rule, q) == Evaluate(rule, p)
  {
    UpperIdempotent(p.receipient.name);
    UpperIdempotent(p.receipient.address.city);
  }

  // ---------------------------------------------------------------------------------------
  // Parsing a rule book

  /** A piece of a rule book between separators: non-empty and free of '\n' and '\r'. */
  predicate IsLine(l: string)
  {
    |l| > 0 && forall k :: 0 <= k < |l| ==> !IsNewline(l[k])
  }

  /** ruleText.Split(['\n', '\r'], StringSplitOptions.RemoveEmptyEntries). */
  function SplitLines(s: string): (lines: seq<string>)
    ensures forall i :: 0 <= i < |lines| ==> IsLine(lines[i])
    decreases |s|
  {
    if |s| == 0 then []
    else if IsNewline(s[0]) then SplitLines(s[1..])
    else
      var end := RunEnd(s, 0, NonNewline);
      [s[..end]] + SplitLines(s[end..])
  }

  /** Lines joined by separators made of '\n' and '\r'. */
  function JoinLines(lines: seq<string>, sep: string): string
  {
    if |lines| == 0 then "" else if |lines| == 1 then lines[0] else lines[0] + sep + JoinLines(lines[1..], sep)
  }

  predicate IsSeparator(sep: string)
  {
    |sep| > 0 && forall k :: 0 <= k < |sep| ==> IsNewline(sep[k])
  }

  /** Leading separators produce no entry. */
  lemma {:induction false} SplitLinesSkipsSeparator(sep: string, s: string)
    requires forall k :: 0 <= k < |sep| ==> IsNewline(sep[k])
    ensures SplitLines(sep + s) == SplitLines(s)
    decreases |sep|
  {
    if |sep| > 0 {
      assert IsNewline((sep + s)[0]);
      assert SplitLines(sep + s) == SplitLines((sep + s)[1..]);
      assert (sep + s)[1..] == sep[1..] + s;
      SplitLinesSkipsSeparator(sep[1..], s);
    } else {
      assert sep + s == s;
    }
  }

  /** A line followed by a separator and more text splits into that line and the rest's lines. */
  lemma SplitLinesOfLine(l: string, s: string)
    requires IsLine(l)
    requires |s| > 0 ==> IsNewline(s[0])
    ensures SplitLines(l + s) == [l] + SplitLines(s)
  {
    var u := l + s;
    RunEndUnique(u, 0, |l|, NonNewline);
    assert u[..|l|] == l;
    assert u[|l|..] == s;
  }

  /** Splitting undoes joining with any separator of '\n' and '\r', CRLF included. */
  lemma {:induction false} SplitJoin(lines: seq<string>, sep: string)
    requires forall i :: 0 <= i < |lines| ==> IsLine(lines[i])
    requires IsSeparator(sep)
    ensures SplitLines(JoinLines(lines, sep)) == lines
  {
    if |lines| == 1 {
      SplitLinesOfLine(lines[0], "");
      assert lines[0] + "" == lines[0];
    } else if |lines| > 1 {
      var rest := JoinLines(lines[1..], sep);
      SplitJoin(lines[1..], sep);
      SplitLinesSkipsSeparator(sep, rest);
      assert lines[0] + sep + rest == lines[0] + (sep + rest);
      SplitLinesOfLine(lines[0], sep + rest);
      assert lines == [lines[0]] + lines[1..];
    }
  }

  /** The line matches the rule grammar and its captures are well formed. */
  predicate WellFormedCaptures(rule: Rule)
  {
    && |rule.name| > 0 && (forall k :: 0 <= k < |rule.name| ==> IsWordChar(rule.name[k]))
    && |rule.property| > 0 && (forall k :: 0 <= k < |rule.property| ==> In(PropertyChar, rule.property[k]))
    && |rule.op| > 0 && (forall k :: 0 <= k < |rule.op| ==> In(OperatorChar, rule.op[k]))
  }

  /** The groups of a match have the shapes their character classes allow. */
  lemma CapturesWellFormed(t: string, d: Split)
    requires ValidSplit(t, d)
    ensures var c := CapturesOf(t, d);
      && |c.name| > 0 && (forall k :: 0 <= k < |c.name| ==> IsWordChar(c.name[k]))
      && |c.property| > 0 && (forall k :: 0 <= k < |c.property| ==> In(PropertyChar, c.property[k]))
      && |c.op| > 0 && (forall k :: 0 <= k < |c.op| ==> In(OperatorChar, c.op[k]))
  {
    assert AllIn(t, d.propStart, d.propEnd, PropertyChar);
    assert AllIn(t, d.opStart, d.opEnd, OperatorChar);
  }

  /**
   * One iteration of ParseRules: match the trimmed line, then construct the rule from the
   * groups, the value stripped of its double quotes.
   */
  function ParseLine(line: string): (r: Result<Rule, RuleError>)
    ensures r.Err? && r.error.InvalidRuleFormat? ==> r.error.line == line && MatchRule(Trim(line)).None?
    ensures r.Ok? ==> WellFormedCaptures(r.value)
  {
    var t := Trim(line);
    match MatchRule(t)
    case None => Err(InvalidRuleFormat(line))
    case Some(d) =>
      var c := CapturesOf(t, d);
      CapturesWellFormed(t, d);
      NewRule(c.name, c.property, c.op, c.value)
  }

  /**
   * A line is refused as malformed exactly when its trimmed text does not match the grammar;
   * otherwise the rule is built from the match the regular expression reports.
   */
  lemma ParseLineMatches(line: string)
    ensures ParseLine(line) == Err(InvalidRuleFormat(line)) <==> forall e :: !ValidSplit(Trim(line), e)
    ensures (exists d :: ValidSplit(Trim(line), d)) ==>
      exists d :: FirstMatch(Trim(line), d) && ParseLine(line) == NewRule(CapturesOf(Trim(line), d).name,
        CapturesOf(Trim(line), d).property, CapturesOf(Trim(line), d).op, CapturesOf(Trim(line), d).value)
  {
    var t := Trim(line);
    MatchRuleFirst(t);
    var m := MatchRule(t);
    if m.Some? {
      assert FirstMatch(t, m.value);
    }
  }

  /** A line of spaces alone trims to the empty text, which the grammar refuses. */
  lemma BlankLineRefused(line: string)
    requires IsWhiteSpace(line)
    ensures ParseLine(line) == Err(InvalidRuleFormat(line))
  {
    TrimEmptyIffWhiteSpace(line);
  }

  /** The rules of a list of lines: all of them in order, or the first failing line's error. */
  function ParseAll(lines: seq<string>): (r: Result<seq<Rule>, RuleError>)
    ensures r.Ok? ==> |r.value| == |lines|
  {
    var each := Map(ParseLine, lines);
    CollectSpec(each);
    Collect(each)
  }

  /** Line i is the first line that fails, with error e. */
  predicate FailsFirstAt(lines: seq<string>, i: int, e: RuleError)
  {
    && 0 <= i < |lines| && ParseLine(lines[i]) == Err(e)
    && forall j :: 0 <= j < i ==> ParseLine(lines[j]).Ok?
  }

  /**
   * A rule book parses all or nothing: one rule per line, in order, when every line parses;
   * otherwise the exception of the first line that fails.
   */
  lemma ParseAllSpec(lines: seq<string>)
    ensures ParseAll(lines).Ok? <==> forall i :: 0 <= i < |lines| ==> ParseLine(lines[i]).Ok?
    ensures ParseAll(lines).Ok? ==> forall i :: 0 <= i < |lines| ==> ParseLine(lines[i]) == Ok(ParseAll(lines).value[i])
    ensures ParseAll(lines).Err? ==> exists i :: FailsFirstAt(lines, i, ParseAll(lines).error)
  {
    var each := Map(ParseLine, lines);
    CollectSpec(each);
    if ParseAll(lines).Err? {
      var i :| FailsFirst(each, i, ParseAll(lines).error);
      assert FailsFirstAt(lines, i, ParseAll(lines).error);
    }
  }

  /** A rule book of separators alone, the empty text included, holds no rules. */
  lemma SeparatorsOnly(s: string)
    requires forall k :: 0 <= k < |s| ==> IsNewline(s[k])
    ensures ParseAll(SplitLines(s)) == Ok([])
  {
    SplitLinesSkipsSeparator(s, "");
    assert s + "" == s;
  }

  /** The loop of ParseRules: parse each line in turn and stop at the first exception. */
  method ParseLines(lines: seq<string>, parse: string -> Result<Rule, RuleError>) returns (r: Result<seq<Rule>, RuleError>)
    ensures r == Collect(Map(parse, lines))
  {
    ghost var each := Map(parse, lines);
    var rules: seq<Rule> := [];
    var i := 0;
    while i < |lines|
      invariant 0 <= i <= |lines|
      invariant Collect(each[..i]) == Ok(rules)
    {
      var rule := parse(lines[i]);
      CollectAppend(each[..i], each[i]);
      PrefixExtend(each, i);
      if rule.Err? {
        CollectPrefixErr(each, i + 1);
        return Err(rule.error);
      }
      rules := rules + [rule.value];
      i := i + 1;
    }
    assert each[..i] == each;
    r := Ok(rules);
  }

  /** Rule.ParseRules: split the text into non-empty lines and parse them in order. */
  method ParseRules(ruleText: string) returns (r: Result<seq<Rule>, RuleError>)
    ensures r == ParseAll(SplitLines(ruleText))
  {
    var lines := SplitLines(ruleText);
    r := ParseLines(lines, ParseLine);
  }
}
