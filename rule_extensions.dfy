/**
 * RuleExtensions.GetDepartments: the departments a parcel is routed to. Rules are grouped
 * by their exact name; a group's name is a department of the parcel when every rule of the
 * group holds for it.
 *
 * The HashSet the source fills is a duplicate-free sequence here, in insertion order; the
 * order of GroupBy's groups is the order in which the names first appear.
 */
module RuleExtensions {
  import opened Results
  import opened Data
  import opened Rules
  import opened Text

  /** The keys of rules.GroupBy(r => r.Name): every name once, in order of first appearance. */
  function GroupKeys(rules: seq<Rule>): (keys: seq<string>)
    ensures Distinct(keys)
    decreases |rules|
  {
    if |rules| == 0 then []
    else
      var keys := GroupKeys(rules[..|rules| - 1]);
      var last := rules[|rules| - 1].name;
      if last in keys then keys else keys + [last]
  }

  /** The rules of the group with the given key, in list order. */
  function Members(rules: seq<Rule>, key: string): (group: seq<Rule>)
    ensures forall i :: 0 <= i < |group| ==> group[i] in rules && group[i].name == key
    decreases |rules|
  {
    if |rules| == 0 then []
    else
      var group := Members(rules[..|rules| - 1], key);
      var last := rules[|rules| - 1];
      if last.name == key then group + [last] else group
  }

  /** One group of GroupBy: its key and its rules. */
  datatype Group = Group(key: string, members: seq<Rule>)

  function GroupBy(rules: seq<Rule>): seq<Group>
  {
    var keys := GroupKeys(rules);
    seq(|keys|, i requires 0 <= i < |keys| => Group(keys[i], Members(rules, keys[i])))
  }

  /** group.All(rule => rule.Evaluate(item)) */
  predicate AllMatch(group: seq<Rule>, item: Parcel)
  {
    forall i :: 0 <= i < |group| ==> Evaluate(group[i], item)
  }

  /** The keys, in order, whose group in rules matches the parcel. */
  function Matching(keys: seq<string>, rules: seq<Rule>, item: Parcel): (depts: seq<string>)
    ensures forall i :: 0 <= i < |depts| ==> depts[i] in keys
    decreases |keys|
  {
    if |keys| == 0 then []
    else
      var rest := Matching(keys[..|keys| - 1], rules, item);
      if AllMatch(Members(rules, keys[|keys| - 1]), item) then rest + [keys[|keys| - 1]] else rest
  }

  /** The departments GetDepartments reports for a parcel. */
  function Departments(rules: seq<Rule>, item: Parcel): seq<string>
  {
    Matching(GroupKeys(rules), rules, item)
  }

  /** The names GroupBy produces are exactly the names of the rules. */
  lemma {:induction false} GroupKeysSpec(rules: seq<Rule>)
    ensures forall x :: x in GroupKeys(rules) <==> exists i :: 0 <= i < |rules| && rules[i].name == x
    decreases |rules|
  {
    if |rules| > 0 {
      var init := rules[..|rules| - 1];
      GroupKeysSpec(init);
      forall x | exists i :: 0 <= i < |rules| && rules[i].name == x
        ensures x in GroupKeys(rules)
      {
        var i :| 0 <= i < |rules| && rules[i].name == x;
        if i < |rules| - 1 {
          assert init[i].name == x;
        }
      }
      forall x | x in GroupKeys(rules)
        ensures exists i :: 0 <= i < |rules| && rules[i].name == x
      {
        if x in GroupKeys(init) {
          var i :| 0 <= i < |init| && init[i].name == x;
          assert rules[i].name == x;
        }
      }
    }
  }

  /** A group holds exactly the rules carrying its name: none lost, none foreign. */
  lemma {:induction false} MembersSpec(rules: seq<Rule>, key: string)
    ensures forall r :: r in Members(rules, key) <==> r in rules && r.name == key
    decreases |rules|
  {
    if |rules| > 0 {
      var init := rules[..|rules| - 1];
      MembersSpec(init, key);
      assert rules == init + [rules[|rules| - 1]];
    }
  }

  /** A group matches exactly when every rule carrying its name holds. */
  lemma AllMatchOfMembers(rules: seq<Rule>, key: string, item: Parcel)
    ensures AllMatch(Members(rules, key), item) <==>
      forall i :: 0 <= i < |rules| && rules[i].name == key ==> Evaluate(rules[i], item)
  {
    MembersSpec(rules, key);
    var group := Members(rules, key);
    if AllMatch(group, item) {
      forall i | 0 <= i < |rules| && rules[i].name == key
        ensures Evaluate(rules[i], item)
      {
        assert rules[i] in group;
        var j :| 0 <= j < |group| && group[j] == rules[i];
      }
    }
  }

  /** Matching keeps exactly the keys whose group matches. */
  lemma {:induction false} MatchingSpec(keys: seq<string>, rules: seq<Rule>, item: Parcel)
    ensures forall x :: x in Matching(keys, rules, item) <==> x in keys && AllMatch(Members(rules, x), item)
    decreases |keys|
  {
    if |keys| > 0 {
      var init := keys[..|keys| - 1];
      MatchingSpec(init, rules, item);
      assert keys == init + [keys[|keys| - 1]];
    }
  }

  /** Matching keeps the keys in order and so keeps them duplicate-free. */
  lemma {:induction false} MatchingDistinct(keys: seq<string>, rules: seq<Rule>, item: Parcel)
    requires Distinct(keys)
    ensures Distinct(Matching(keys, rules, item))
    decreases |keys|
  {
    if |keys| > 0 {
      var init := keys[..|keys| - 1];
      var last := keys[|keys| - 1];
      var rest := Matching(init, rules, item);
      MatchingDistinct(init, rules, item);
      assert last !in init;
      if AllMatch(Members(rules, last), item) {
        var depts := rest + [last];
        forall i, j | 0 <= i < j < |depts|
          ensures depts[i] != depts[j]
        {
          assert depts[i] == rest[i] && rest[i] in init;
          if j < |rest| {
            assert depts[j] == rest[j];
          }
        }
        assert Matching(keys, rules, item) == depts;
      }
    }
  }

  /**
   * A department is reported exactly when some rule carries its name and every rule carrying
   * its name holds for the parcel; the names are compared exactly, so "Mail" and "mail" are
   * two departments.
   */
  lemma DepartmentsSpec(rules: seq<Rule>, item: Parcel, x: string)
    ensures x in Departments(rules, item) <==>
      && (exists i :: 0 <= i < |rules| && rules[i].name == x)
      && (forall i :: 0 <= i < |rules| && rules[i].name == x ==> Evaluate(rules[i], item))
  {
    GroupKeysSpec(rules);
    MatchingSpec(GroupKeys(rules), rules, item);
    AllMatchOfMembers(rules, x, item);
  }

  /** No department is reported twice: the result is a set. */
  lemma DepartmentsDistinct(rules: seq<Rule>, item: Parcel)
    ensures Distinct(Departments(rules, item))
  {
    MatchingDistinct(GroupKeys(rules), rules, item);
  }

  /** Two rule lists that agree on which keys match give the same departments for those keys. */
  lemma {:induction false} MatchingAgree(keys: seq<string>, rules: seq<Rule>, rules': seq<Rule>, item: Parcel)
    requires forall k :: k in keys ==> AllMatch(Members(rules, k), item) == AllMatch(Members(rules', k), item)
    ensures Matching(keys, rules, item) == Matching(keys, rules', item)
    decreases |keys|
  {
    if |keys| > 0 {
      MatchingAgree(keys[..|keys| - 1], rules, rules', item);
    }
  }

  /** Repeating a rule of the list changes no department, since each group is a conjunction. */
  lemma DuplicateRuleChangesNothing(rules: seq<Rule>, i: nat, item: Parcel)
    requires i < |rules|
    ensures Departments(rules + [rules[i]], item) == Departments(rules, item)
  {
    var more := rules + [rules[i]];
    assert more[..|more| - 1] == rules;
    GroupKeysSpec(rules);
    assert GroupKeys(more) == GroupKeys(rules);
    forall k | k in GroupKeys(rules)
      ensures AllMatch(Members(more, k), item) == AllMatch(Members(rules, k), item)
    {
      AllMatchOfMembers(rules, k, item);
      AllMatchOfMembers(more, k, item);
      assert forall j :: 0 <= j < |rules| ==> more[j] == rules[j];
    }
    MatchingAgree(GroupKeys(rules), more, rules, item);
  }

  lemma MatchingStep(keys: seq<string>, i: nat, rules: seq<Rule>, item: Parcel)
    requires i < |keys|
    ensures Matching(keys[..i + 1], rules, item) ==
      Matching(keys[..i], rules, item) + (if AllMatch(Members(rules, keys[i]), item) then [keys[i]] else [])
  {
    assert keys[..i + 1][..i] == keys[..i];
  }

  /** RuleExtensions.GetDepartments: test each group in turn and add the names that match. */
  method GetDepartments(rules: seq<Rule>, item: Parcel) returns (departments: seq<string>)
    ensures departments == Departments(rules, item)
  {
    var groupedRules := GroupBy(rules);
    ghost var keys := GroupKeys(rules);
    departments := [];
    var i := 0;
    while i < |groupedRules|
      invariant 0 <= i <= |groupedRules| == |keys|
      invariant departments == Matching(keys[..i], rules, item)
    {
      var group := groupedRules[i];
      MatchingStep(keys, i, rules, item);
      var allMatch := AllMatch(group.members, item);
      if allMatch {
        departments := departments + [group.key];
      }
      i := i + 1;
    }
    assert keys[..i] == keys;
  }

  // ---------------------------------------------------------------------------------------
  // The routing table of the rule-book example: Insurance above a value of 1000, Mail below a
  // weight of 0.5, Regular from 0.5 up to 10 and Heavy from 10 up.

  function ExampleRules(): seq<Rule>
  {
    [ Rule("Insurance", "Value", ">", "1000", NumericTest(ValueField, Greater, 1000.0)),
      Rule("Mail", "Weight", "<", "0.5", NumericTest(WeightField, Less, 0.5)),
      Rule("Regular", "Weight", ">=", "0.5", NumericTest(WeightField, GreaterOrEqual, 0.5)),
      Rule("Regular", "Weight", "<", "10", NumericTest(WeightField, Less, 10.0)),
      Rule("Heavy", "Weight", ">=", "10", NumericTest(WeightField, GreaterOrEqual, 10.0)) ]
  }

  lemma ValuePropertyKnown(property: string)
    requires property == "Value"
    ensures FieldOf(property) == Some(Numeric(ValueField))
  {
    assert Lower(property) == "value";
  }

  lemma WeightPropertyKnown(property: string)
    requires property == "Weight"
    ensures FieldOf(property) == Some(Numeric(WeightField))
  {
    assert Lower(property) == "weight";
  }

  lemma ThousandParses(value: string)
    requires value == "1000"
    ensures ParseDouble(value) == Some(1000.0)
  {
    assert NatText(1000) == value;
    ParseDoubleOfNatText(1000);
  }

  lemma TenParses(value: string)
    requires value == "10"
    ensures ParseDouble(value) == Some(10.0)
  {
    assert NatText(10) == value;
    ParseDoubleOfNatText(10);
  }

  lemma HalfDigits()
    ensures AllDigits("0") && AllDigits("5") && DigitsValue("0") == 0 && DigitsValue("5") == 5
  {
  }

  lemma HalfValue()
    ensures ParseDouble("0" + "." + "5") == Some(Scaled(0, 5, 1))
  {
    HalfDigits();
    ParseDoubleOfDecimal("0", "5");
  }

  lemma HalfScaled()
    ensures Scaled(0, 5, 1) == 0.5
  {
    assert Pow10(1) == 10;
  }

  lemma HalfParses(half: string)
    requires half == "0" + "." + "5"
    ensures ParseDouble(half) == Some(0.5)
  {
    HalfValue();
    HalfScaled();
  }

  /** The constructor builds the rule from its own four texts. */
  predicate BuiltFromTexts(r: Rule)
  {
    NewRule(r.name, r.property, r.op, r.value) == Ok(r)
  }

  lemma InsuranceRuleBuilt(r: Rule)
    requires r == ExampleRules()[0]
    ensures BuiltFromTexts(r)
  {
    assert NumericSymbol(Greater) == r.op;
    ValuePropertyKnown(r.property);
    ThousandParses(r.value);
    NewRuleBuildsNumeric(r.name, r.property, r.op, r.value, ValueField, Greater, 1000.0);
  }

  lemma MailRuleBuilt(r: Rule)
    requires r == ExampleRules()[1]
    ensures BuiltFromTexts(r)
  {
    assert NumericSymbol(Less) == r.op;
    WeightPropertyKnown(r.property);
    HalfParses(r.value);
    NewRuleBuildsNumeric(r.name, r.property, r.op, r.value, WeightField, Less, 0.5);
  }

  lemma RegularLowerRuleBuilt(r: Rule)
    requires r == ExampleRules()[2]
    ensures BuiltFromTexts(r)
  {
    assert NumericSymbol(GreaterOrEqual) == r.op;
    WeightPropertyKnown(r.property);
    HalfParses(r.value);
    NewRuleBuildsNumeric(r.name, r.property, r.op, r.value, WeightField, GreaterOrEqual, 0.5);
  }

  lemma RegularUpperRuleBuilt(r: Rule)
    requires r == ExampleRules()[3]
    ensures BuiltFromTexts(r)
  {
    assert NumericSymbol(Less) == r.op;
    WeightPropertyKnown(r.property);
    TenParses(r.value);
    NewRuleBuildsNumeric(r.name, r.property, r.op, r.value, WeightField, Less, 10.0);
  }

  lemma HeavyRuleBuilt(r: Rule)
    requires r == ExampleRules()[4]
    ensures BuiltFromTexts(r)
  {
    assert NumericSymbol(GreaterOrEqual) == r.op;
    WeightPropertyKnown(r.property);
    TenParses(r.value);
    NewRuleBuildsNumeric(r.name, r.property, r.op, r.value, WeightField, GreaterOrEqual, 10.0);
  }

  /** Each rule of the example is exactly what the Rule constructor builds from its four texts. */
  lemma ExampleRulesBuilt(i: nat)
    requires i < |ExampleRules()|
    ensures var r := ExampleRules()[i]; NewRule(r.name, r.property, r.op, r.value) == Ok(r)
  {
    var r := ExampleRules()[i];
    if i == 0 {
      InsuranceRuleBuilt(r);
    } else if i == 1 {
      MailRuleBuilt(r);
    } else if i == 2 {
      RegularLowerRuleBuilt(r);
    } else if i == 3 {
      RegularUpperRuleBuilt(r);
    } else {
      HeavyRuleBuilt(r);
    }
  }

  function ParcelOf(value: real, weight: real): Parcel
  {
    DefaultParcel().(value := value, weight := weight)
  }

  /** The example's rule names, rule by rule. */
  lemma ExampleNames(i: nat)
    requires i < |ExampleRules()|
    ensures ExampleRules()[i].name == ["Insurance", "Mail", "Regular", "Regular", "Heavy"][i]
  {
  }

  /** A department the example reports is one whose rules the parcel satisfies. */
  lemma ExampleReported(item: Parcel, x: string)
    requires x in Departments(ExampleRules(), item)
    ensures || (x == "Insurance" && item.value > 1000.0)
            || (x == "Mail" && item.weight < 0.5)
            || (x == "Regular" && 0.5 <= item.weight < 10.0)
            || (x == "Heavy" && item.weight >= 10.0)
  {
    var rules := ExampleRules();
    DepartmentsSpec(rules, item, x);
    var i :| 0 <= i < |rules| && rules[i].name == x;
    ExampleNames(i);
    assert Evaluate(rules[i], item);
    if i == 2 || i == 3 {
      ExampleNames(2);
      ExampleNames(3);
      assert Evaluate(rules[2], item) && Evaluate(rules[3], item);
      assert x == "Regular";
    } else if i == 0 {
      assert x == "Insurance";
    } else if i == 1 {
      assert x == "Mail";
    } else {
      assert x == "Heavy";
    }
  }

  /** A department whose rules the parcel satisfies is reported by the example. */
  lemma ExampleReports(item: Parcel, x: string)
    requires || (x == "Insurance" && item.value > 1000.0)
             || (x == "Mail" && item.weight < 0.5)
             || (x == "Regular" && 0.5 <= item.weight < 10.0)
             || (x == "Heavy" && item.weight >= 10.0)
    ensures x in Departments(ExampleRules(), item)
  {
    var rules := ExampleRules();
    DepartmentsSpec(rules, item, x);
    forall i | 0 <= i < |rules| && rules[i].name == x
      ensures Evaluate(rules[i], item)
    {
      ExampleNames(i);
      if i == 0 {} else if i == 1 {} else if i == 2 {} else if i == 3 {} else {}
    }
    var w := if x == "Insurance" then 0 else if x == "Mail" then 1 else if x == "Regular" then 2 else 4;
    ExampleNames(w);
  }

  /**
   * The rule-book example, parcel by parcel: a light valuable parcel goes to Insurance and
   * Mail, a light cheap one to Mail, a medium cheap one to Regular, a medium valuable one to
   * Insurance and Regular, a heavy cheap one to Heavy and a heavy valuable one to Insurance
   * and Heavy.
   */
  lemma ExampleRouting(x: string)
    ensures x in Departments(ExampleRules(), ParcelOf(1500.0, 0.4)) <==> x == "Insurance" || x == "Mail"
    ensures x in Departments(ExampleRules(), ParcelOf(500.0, 0.4)) <==> x == "Mail"
    ensures x in Departments(ExampleRules(), ParcelOf(500.0, 5.0)) <==> x == "Regular"
    ensures x in Departments(ExampleRules(), ParcelOf(1500.0, 1.0)) <==> x == "Insurance" || x == "Regular"
    ensures x in Departments(ExampleRules(), ParcelOf(500.0, 15.0)) <==> x == "Heavy"
    ensures x in Departments(ExampleRules(), ParcelOf(2000.0, 15.0)) <==> x == "Insurance" || x == "Heavy"
  {
    var parcels := [ParcelOf(1500.0, 0.4), ParcelOf(500.0, 0.4), ParcelOf(500.0, 5.0),
                    ParcelOf(1500.0, 1.0), ParcelOf(500.0, 15.0), ParcelOf(2000.0, 15.0)];
    forall p | p in parcels
      ensures x in Departments(ExampleRules(), p) <==>
        || (x == "Insurance" && p.value > 1000.0)
        || (x == "Mail" && p.weight < 0.5)
        || (x == "Regular" && 0.5 <= p.weight < 10.0)
        || (x == "Heavy" && p.weight >= 10.0)
    {
      if x in Departments(ExampleRules(), p) { ExampleReported(p, x); }
      if || (x == "Insurance" && p.value > 1000.0)
         || (x == "Mail" && p.weight < 0.5)
         || (x == "Regular" && 0.5 <= p.weight < 10.0)
         || (x == "Heavy" && p.weight >= 10.0) {
        ExampleReports(p, x);
      }
    }
    assert parcels[0] in parcels && parcels[1] in parcels && parcels[2] in parcels;
    assert parcels[3] in parcels && parcels[4] in parcels && parcels[5] in parcels;
  }
}
