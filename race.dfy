/**
 * Race/ethnicity standardisation of a CDC WONDER row (src/analysis.py,
 * `create_race_ethnicity`). The row is reduced to its two text fields:
 * the "Hispanic Origin" column and the "Race" column, each the empty
 * string when the column is absent.
 */
module RaceEthnicity {
  import opened Strings

  const HISPANIC: string := "Hispanic or Latino"
  const BLACK_NH: string := "Black (NH)"
  const WHITE_NH: string := "White (NH)"
  const ASIAN_PI_NH: string := "Asian/PI (NH)"
  const AIAN_NH: string := "AIAN (NH)"
  const MULTIRACIAL_NH: string := "Multiracial (NH)"
  const OTHER_UNKNOWN: string := "Other/Unknown"

  /** The seven documented categories. */
  const Categories: set<string> :=
    {HISPANIC, BLACK_NH, WHITE_NH, ASIAN_PI_NH, AIAN_NH, MULTIRACIAL_NH, OTHER_UNKNOWN}

  /** Hispanic origin overrides race: the origin mentions "Hispanic" and not "Not". */
  predicate HispanicOverride(hispanic: string)
  {
    Contains(hispanic, "Hispanic") && !Contains(hispanic, "Not")
  }

  /** The ordered decision list of `create_race_ethnicity`. */
  function Classify(hispanic: string, race: string): (category: string)
    ensures category in Categories
    ensures HispanicOverride(hispanic) <==> category == HISPANIC
  {
    if HispanicOverride(hispanic) then HISPANIC
    else if Contains(race, "Black") then BLACK_NH
    else if Contains(race, "White") then WHITE_NH
    else if Contains(race, "Asian") then ASIAN_PI_NH
    else if Contains(race, "Indian") || Contains(race, "Alaska") then AIAN_NH
    else if Contains(race, "Hawaiian") || Contains(race, "Pacific") then ASIAN_PI_NH
    else if Contains(race, "More than one") then MULTIRACIAL_NH
    else OTHER_UNKNOWN
  }

  /** A rule fires when the race text contains one of its keywords. */
  datatype Rule = Rule(keywords: seq<string>, category: string)

  /** The race rules as a table, in the order they are tried. */
  const RaceRules: seq<Rule> := [
    Rule(["Black"], BLACK_NH),
    Rule(["White"], WHITE_NH),
    Rule(["Asian"], ASIAN_PI_NH),
    Rule(["Indian", "Alaska"], AIAN_NH),
    Rule(["Hawaiian", "Pacific"], ASIAN_PI_NH),
    Rule(["More than one"], MULTIRACIAL_NH)
  ]

  predicate Fires(rule: Rule, race: string)
  {
    exists k | 0 <= k < |rule.keywords| :: Contains(race, rule.keywords[k])
  }

  /** Reference classifier for non-Hispanic rows: the first rule that fires wins. */
  function FirstMatch(rules: seq<Rule>, race: string): string
  {
    if rules == [] then OTHER_UNKNOWN
    else if Fires(rules[0], race) then rules[0].category
    else FirstMatch(rules[1..], race)
  }

  lemma FiresSingle(rule: Rule, race: string)
    requires |rule.keywords| == 1
    ensures Fires(rule, race) <==> Contains(race, rule.keywords[0])
  {
  }

  lemma FiresPair(rule: Rule, race: string)
    requires |rule.keywords| == 2
    ensures Fires(rule, race) <==> Contains(race, rule.keywords[0]) || Contains(race, rule.keywords[1])
  {
  }

  /** The decision list agrees with the first-match reading of the rule table. */
  lemma ClassifyIsFirstMatch(hispanic: string, race: string)
    ensures Classify(hispanic, race) ==
      if HispanicOverride(hispanic) then HISPANIC else FirstMatch(RaceRules, race)
  {
    var r := RaceRules;
    FiresSingle(r[0], race);
    FiresSingle(r[1], race);
    FiresSingle(r[2], race);
    FiresPair(r[3], race);
    FiresPair(r[4], race);
    FiresSingle(r[5], race);
    var m5 := if Contains(race, "More than one") then MULTIRACIAL_NH else OTHER_UNKNOWN;
    assert FirstMatch(r[5..], race) == m5 by {
      assert r[5..][1..] == [];
    }
    var m4 := if Contains(race, "Hawaiian") || Contains(race, "Pacific") then ASIAN_PI_NH else m5;
    assert FirstMatch(r[4..], race) == m4 by {
      assert r[4..][1..] == r[5..];
    }
    var m3 := if Contains(race, "Indian") || Contains(race, "Alaska") then AIAN_NH else m4;
    assert FirstMatch(r[3..], race) == m3 by {
      assert r[3..][1..] == r[4..];
    }
    var m2 := if Contains(race, "Asian") then ASIAN_PI_NH else m3;
    assert FirstMatch(r[2..], race) == m2 by {
      assert r[2..][1..] == r[3..];
    }
    var m1 := if Contains(race, "White") then WHITE_NH else m2;
    assert FirstMatch(r[1..], race) == m1 by {
      assert r[1..][1..] == r[2..];
    }
  }

  /** When the origin mentions "Not", only the race text matters. */
  lemma NotHispanicRaceDecides(hispanic1: string, hispanic2: string, race: string)
    requires Contains(hispanic1, "Not") && Contains(hispanic2, "Not")
    ensures Classify(hispanic1, race) == Classify(hispanic2, race)
    ensures Classify(hispanic1, race) == FirstMatch(RaceRules, race)
  {
    ClassifyIsFirstMatch(hispanic1, race);
    ClassifyIsFirstMatch(hispanic2, race);
  }

  /** Each non-Hispanic category, stated as the exact condition on the race text. */
  lemma CategoryConditions(hispanic: string, race: string)
    requires !HispanicOverride(hispanic)
    ensures Classify(hispanic, race) == BLACK_NH <==> Contains(race, "Black")
    ensures Classify(hispanic, race) == WHITE_NH <==>
      !Contains(race, "Black") && Contains(race, "White")
    ensures Classify(hispanic, race) == ASIAN_PI_NH <==>
      !Contains(race, "Black") && !Contains(race, "White") &&
      (Contains(race, "Asian") ||
       (!Contains(race, "Indian") && !Contains(race, "Alaska") &&
        (Contains(race, "Hawaiian") || Contains(race, "Pacific"))))
    ensures Classify(hispanic, race) == AIAN_NH <==>
      !Contains(race, "Black") && !Contains(race, "White") && !Contains(race, "Asian") &&
      (Contains(race, "Indian") || Contains(race, "Alaska"))
    ensures Classify(hispanic, race) == MULTIRACIAL_NH <==>
      !Contains(race, "Black") && !Contains(race, "White") && !Contains(race, "Asian") &&
      !Contains(race, "Indian") && !Contains(race, "Alaska") &&
      !Contains(race, "Hawaiian") && !Contains(race, "Pacific") &&
      Contains(race, "More than one")
    ensures Classify(hispanic, race) == OTHER_UNKNOWN <==>
      !Contains(race, "Black") && !Contains(race, "White") && !Contains(race, "Asian") &&
      !Contains(race, "Indian") && !Contains(race, "Alaska") &&
      !Contains(race, "Hawaiian") && !Contains(race, "Pacific") &&
      !Contains(race, "More than one")
  {
  }

  /** Outside the Hispanic override, a race text naming both Black and White is classified Black: the Black test comes first. */
  lemma BlackBeforeWhite(hispanic: string, race: string)
    requires !HispanicOverride(hispanic)
    requires Contains(race, "Black") && Contains(race, "White")
    ensures Classify(hispanic, race) == BLACK_NH
  {
  }

  /** Missing columns (empty text) and pandas' "nan" fall through to Other/Unknown. */
  lemma MissingFieldsAreOtherUnknown()
    ensures Classify("", "") == OTHER_UNKNOWN
    ensures Classify("nan", "nan") == OTHER_UNKNOWN
  {
  }
}
