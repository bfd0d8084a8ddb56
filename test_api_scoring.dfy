/** calculateAISafetyScore from the API test script: the scanner's rules with
    a weighted image formula and the hours taken as given (not truncated). */
module TestApiScoring {
  import opened Basics
  import opened SafetyRules

  /** The script's input. The hours are taken as given: None stands for a
      NaN or missing value, against which both comparisons are false. */
  datatype ScoreInput = ScoreInput(
    imageQuality: real,
    discoloration: bool,
    moistureLevel: real,
    textureScore: real,
    hoursSincePreparation: Hours,
    foodType: string,
    storageCondition: string)

  /** The returned score, status, confidence and the explanation clauses
      (explanations before the join). */
  datatype ScoreReport = ScoreReport(score: int, status: SafetyStatus, confidence: real,
                                     clauses: seq<Clause>)

  /** Reading `rules.maxHours` when the lookup finds nothing throws. */
  datatype ScoreError = NoRuleProfile

  /** Signals in the range the simulated analysis draws them from. */
  predicate SignalsInRange(d: ScoreInput) {
    0.0 <= d.imageQuality <= 100.0 && 0.0 <= d.moistureLevel <= 100.0
    && 0.0 <= d.textureScore <= 100.0
  }

  /** 0.3 * quality + 0.4 * texture + 0.3 * (100 - moisture), less 20 for
      discoloration, times the storage multiplier. */
  function WeightedImageScore(d: ScoreInput): (r: real)
    // Only the discoloration deduction can take it below zero.
    ensures SignalsInRange(d) && !d.discoloration ==> r >= 0.0
  {
    var weighted := d.imageQuality * 0.3 + d.textureScore * 0.4 + (100.0 - d.moistureLevel) * 0.3;
    var deducted := if d.discoloration then weighted - 20.0 else weighted;
    var m := StorageMultiplier(d.storageCondition);
    assert SignalsInRange(d) && !d.discoloration ==> deducted * m >= 0.0 by {
      if SignalsInRange(d) && !d.discoloration {
        assert deducted >= 0.0;
        if m == 1.2 { } else if m == 1.0 { } else if m == 1.1 { } else { assert m == 0.8; }
      }
    }
    deducted * m
  }

  /** With signals in [0, 100] the weighted image score lies in [-24, 120];
      it can be negative, unlike the server's. */
  lemma WeightedImageBounds(d: ScoreInput)
    requires SignalsInRange(d)
    ensures -24.0 <= WeightedImageScore(d) <= 120.0
  {
    var weighted := d.imageQuality * 0.3 + d.textureScore * 0.4 + (100.0 - d.moistureLevel) * 0.3;
    var deducted := if d.discoloration then weighted - 20.0 else weighted;
    assert -20.0 <= deducted <= 100.0;
    var m := StorageMultiplier(d.storageCondition);
    if m == 1.2 { } else if m == 1.0 { } else if m == 1.1 { } else { assert m == 0.8; }
  }

  function TestFinalScore(e: RuleEntry, d: ScoreInput): (r: real)
    requires !e.Missing?
    ensures 0.0 <= r <= 100.0
  {
    FinalScore(EntryTimeScore(e, d.hoursSincePreparation), WeightedImageScore(d))
  }

  function TestClauses(e: RuleEntry, d: ScoreInput): seq<Clause>
    requires !e.Missing?
  {
    EntryClauses(e, d.hoursSincePreparation, d.discoloration, d.moistureLevel,
                 d.textureScore, TestFinalScore(e, d))
  }

  /** calculateAISafetyScore. */
  function CalculateAISafetyScore(d: ScoreInput, draw: real): (r: Result<ScoreReport, ScoreError>)
    // Only a food type the rule table knows nothing about makes it throw.
    ensures r.Failure? <==> LookupRules(d.foodType).Missing?
    ensures r.Success? ==> 0 <= r.value.score <= 100
    ensures r.Success? && 0.0 <= draw < 1.0 ==>
              ConfidenceRange(r.value.status).0 <= r.value.confidence <= ConfidenceRange(r.value.status).1
    ensures r.Success? ==> StrictlyOrdered(r.value.clauses)
    ensures r.Success? ==> (NoSpoilage in r.value.clauses <==> r.value.status == SafeToConsume)
  {
    var e := LookupRules(d.foodType);
    if e.Missing? then Failure(NoRuleProfile)
    else
      var final := TestFinalScore(e, d);
      var status := Classify(final);
      ConfidenceInRange(status, draw);
      Success(ScoreReport(ReportedScore(final), status, Confidence(status, draw), TestClauses(e, d)))
  }

  /** A food type naming an inherited property, such as "toString", scores
      like vegetarian food prepared zero hours ago, whatever the hours. */
  lemma InheritedNameIgnoresHours(d: ScoreInput, draw: real)
    requires d.foodType in InheritedNames
    ensures CalculateAISafetyScore(d, draw)
            == CalculateAISafetyScore(d.(foodType := "veg", hoursSincePreparation := Some(0.0)), draw)
  {
    var asVeg := d.(foodType := "veg", hoursSincePreparation := Some(0.0));
    assert WeightedImageScore(asVeg) == WeightedImageScore(d);
    assert TestFinalScore(Inherited, d) == TestFinalScore(Own(Veg), asVeg);
    assert TestClauses(Inherited, d) == TestClauses(Own(Veg), asVeg);
  }

  /** Unknown hours (NaN or missing) score like food prepared zero hours
      ago: no time clause, time score 100. */
  lemma UnknownHoursScoreAsFresh(d: ScoreInput, draw: real)
    requires d.hoursSincePreparation.None?
    ensures CalculateAISafetyScore(d, draw)
            == CalculateAISafetyScore(d.(hoursSincePreparation := Some(0.0)), draw)
  {
    var known := d.(hoursSincePreparation := Some(0.0));
    assert WeightedImageScore(known) == WeightedImageScore(d);
    var e := LookupRules(d.foodType);
    if !e.Missing? {
      assert TestFinalScore(e, d) == TestFinalScore(e, known);
      assert TestClauses(e, d) == TestClauses(e, known);
    }
  }

  /** Past maxHours, with signals in range, the final score is at most 60 and
      the status is never 'Safe to Consume'. */
  lemma ExceededIsNeverSafe(d: ScoreInput, draw: real)
    requires SignalsInRange(d)
    requires ParseFoodType(d.foodType).Some?
    requires Exceeded(ParseFoodType(d.foodType).value, d.hoursSincePreparation)
    ensures CalculateAISafetyScore(d, draw).value.status != SafeToConsume
    ensures TestFinalScore(Own(ParseFoodType(d.foodType).value), d) <= 60.0
  {
    WeightedImageBounds(d);
  }

  lemma VectorMultiplier()
    ensures StorageMultiplier("refrigerated") == 1.2
    ensures StorageMultiplier("room temperature") == 1.0
  {
    LowerOfLowercase("refrigerated");
    LowerOfLowercase("room temperature");
  }

  /** The script's own input: quality 85, no discoloration, moisture 45,
      texture 78, 3 hours, veg, refrigerated. The image score is 87.84 and the
      final score 93.92, so the score is 94, the status 'Safe to Consume' and
      the explanation 'No visible spoilage indicators'. */
  lemma ScriptVector(draw: real)
    ensures var d := ScoreInput(85.0, false, 45.0, 78.0, Some(3.0), "veg", "refrigerated");
            var r := CalculateAISafetyScore(d, draw);
            WeightedImageScore(d) == 87.84 && TestFinalScore(Own(Veg), d) == 93.92
            && r.Success? && r.value.score == 94 && r.value.status == SafeToConsume
            && r.value.clauses == [NoSpoilage]
            && ExplanationText(r.value.clauses) == "No visible spoilage indicators"
  {
    var d := ScoreInput(85.0, false, 45.0, 78.0, Some(3.0), "veg", "refrigerated");
    VectorMultiplier();
    assert WeightedImageScore(d) == 87.84;
    assert TestFinalScore(Own(Veg), d) == 93.92;
    assert ReportedScore(93.92) == 94;
    var cs := TestClauses(Own(Veg), d);
    assert cs == [NoSpoilage] by {
      assert NoSpoilage in cs;
      forall c | c in cs ensures c == NoSpoilage {
        assert !c.TimeExceeded?;
      }
    }
  }

  /** Unlike the server, the script can report a score of 50 together with
      'Not Safe to Consume': quality 100, texture 98, moisture 0, room
      temperature, 9 hours of veg give a final score of 49.6. */
  lemma ScoreAndStatusCanDisagree(draw: real)
    ensures var d := ScoreInput(100.0, false, 0.0, 98.0, Some(9.0), "veg", "room temperature");
            var r := CalculateAISafetyScore(d, draw);
            r.Success? && r.value.score == 50 && r.value.status == NotSafeToConsume
  {
    var d := ScoreInput(100.0, false, 0.0, 98.0, Some(9.0), "veg", "room temperature");
    VectorMultiplier();
    assert WeightedImageScore(d) == 99.2;
    assert TimeScore(Veg, Some(9.0)) == 0.0;
    assert FinalScore(0.0, 99.2) == 49.6;
    assert TestFinalScore(Own(Veg), d) == 49.6;
    assert ReportedScore(49.6) == 50;
  }

  /** Past maxHours, an image score at or below zero gives a score of 0. */
  lemma ExpiredWithoutImageCreditScoresZero(d: ScoreInput, draw: real)
    requires ParseFoodType(d.foodType).Some?
    requires Exceeded(ParseFoodType(d.foodType).value, d.hoursSincePreparation)
    requires WeightedImageScore(d) <= 0.0
    ensures var r := CalculateAISafetyScore(d, draw);
            r.Success? && r.value.score == 0 && r.value.status == NotSafeToConsume
  {
    assert TestFinalScore(Own(ParseFoodType(d.foodType).value), d) == 0.0;
  }

  /** With quality 0, texture 0, moisture 100 and discoloration only the
      deduction is left. */
  lemma WeightedOfWorstSignals(d: ScoreInput)
    requires d.imageQuality == 0.0 && d.textureScore == 0.0 && d.moistureLevel == 100.0
    requires d.discoloration
    ensures WeightedImageScore(d) == -20.0 * StorageMultiplier(d.storageCondition)
  {
  }

  /** The weighted image score can be negative: quality 0, texture 0,
      moisture 100 and discoloration give -20; with 9 hours of veg food the
      previous lemma then gives a score of 0. */
  lemma NegativeImageScoreReachable(d: ScoreInput)
    requires d == ScoreInput(0.0, true, 100.0, 0.0, Some(9.0), "veg", "room temperature")
    ensures WeightedImageScore(d) == -20.0
    ensures ParseFoodType(d.foodType) == Some(Veg) && Exceeded(Veg, d.hoursSincePreparation)
  {
    assert ParseFoodType(d.foodType) == Some(Veg) && Exceeded(Veg, d.hoursSincePreparation) by {
      assert d.foodType == "veg" && d.hoursSincePreparation == Some(9.0);
    }
    VectorMultiplier();
    assert StorageMultiplier(d.storageCondition) == 1.0;
    WeightedOfWorstSignals(d);
  }
}
