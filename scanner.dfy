/** The server's food-safety scanner, AIFoodSafetyScanner.performAnalysis.
    The four simulated image signals, the elapsed whole hours and the
    uniform draw behind the confidence are inputs; the source draws them
    with Math.random and moment(). */
module Scanner {
  import opened Basics
  import opened SafetyRules

  /** The image signals: overall quality, discoloration, moisture level and
      texture score. */
  datatype Signals = Signals(quality: real, discoloration: bool, moisture: real, texture: real)

  /** Elapsed hours as moment's diff(.., 'hours') reports them: truncated to a
      whole number, or None when the preparation time does not parse (NaN). */
  type WholeHours = Option<int>

  function AsHours(h: WholeHours): Hours {
    match h
    case None => None
    case Some(n) => Some(n as real)
  }

  /** 100 less the fixed deductions: 30 for discoloration, 20 for moisture
      above 80, 25 for texture below 40. */
  function Deducted(s: Signals): (r: real)
    ensures r == 100.0 || r == 70.0 || r == 80.0 || r == 75.0
         || r == 50.0 || r == 55.0 || r == 45.0 || r == 25.0
    // Each signal costs its own fixed amount, independently of the others.
    ensures r == 100.0 - (if s.discoloration then 30.0 else 0.0)
                       - (if s.moisture > 80.0 then 20.0 else 0.0)
                       - (if s.texture < 40.0 then 25.0 else 0.0)
  {
    var afterColour := if s.discoloration then 100.0 - 30.0 else 100.0;
    var afterMoisture := if s.moisture > 80.0 then afterColour - 20.0 else afterColour;
    if s.texture < 40.0 then afterMoisture - 25.0 else afterMoisture
  }

  /** Which signal costs what: discoloration 30, moisture above 80 another
      20, texture below 40 another 25; with none of them the score is 100. */
  lemma SignalDeductions(s: Signals)
    ensures Deducted(s.(discoloration := true)) == Deducted(s.(discoloration := false)) - 30.0
    ensures s.moisture > 80.0 ==> Deducted(s) == Deducted(s.(moisture := 80.0)) - 20.0
    ensures s.texture < 40.0 ==> Deducted(s) == Deducted(s.(texture := 40.0)) - 25.0
    ensures !s.discoloration && s.moisture <= 80.0 && s.texture >= 40.0 ==> Deducted(s) == 100.0
  {
  }

  /** The image score: the deducted score times the storage multiplier. */
  function ImageScore(s: Signals, storage: string): (r: real)
    ensures 20.0 <= r <= 120.0
  {
    var d := Deducted(s);
    var m := StorageMultiplier(storage);
    assert 20.0 <= d * m <= 120.0 by {
      if m == 1.2 { } else if m == 1.0 { } else if m == 1.1 { } else { assert m == 0.8; }
    }
    d * m
  }

  /** The intermediate scores of one analysis. */
  datatype Verdict = Verdict(time: real, image: real, final: real)

  function Evaluate(e: RuleEntry, hours: WholeHours, s: Signals, storage: string): (v: Verdict)
    requires !e.Missing?
    ensures 0.0 <= v.final <= 100.0
  {
    var time := EntryTimeScore(e, AsHours(hours));
    var image := ImageScore(s, storage);
    Verdict(time, image, FinalScore(time, image))
  }

  function ServerClauses(e: RuleEntry, hours: WholeHours, s: Signals, final: real): (r: seq<Clause>)
    requires !e.Missing?
    ensures forall c :: c in r ==> Printable(c)
  {
    var cs := EntryClauses(e, AsHours(hours), s.discoloration, s.moisture, s.texture, final);
    assert forall c :: c in cs && c.TimeExceeded? ==> c.hours == hours.value as real by {
      if e.Own? {
        assert cs == Clauses(e.food, AsHours(hours), s.discoloration, s.moisture, s.texture, final);
      }
    }
    cs
  }

  /** The rounded signals reported back with the analysis. */
  datatype ImageReport = ImageReport(quality: int, discoloration: bool, moisture: int, texture: int)

  datatype Analysis = Analysis(safetyScore: int, status: SafetyStatus, confidence: real,
                               explanation: string, image: ImageReport)

  /** Reading `rules.maxHours` when the lookup finds nothing throws. */
  datatype ScanError = NoRuleProfile

  /** With whole hours, the time score is one of 0, 30, 40 and 100. */
  lemma WholeHoursTimeScore(f: FoodType, hours: WholeHours)
    ensures var t := TimeScore(f, AsHours(hours));
            t == 0.0 || t == 30.0 || t == 40.0 || t == 100.0
  {
    if hours.Some? {
      var n := hours.value;
      var p := ProfileOf(f);
      if p.immediateThreshold < n <= p.maxHours {
        assert n == p.immediateThreshold + 1 || n == p.immediateThreshold + 2;
      }
    }
  }

  /** No sum of a whole-hours time score and an image score falls just
      short of a status threshold. */
  lemma SumAvoidsThresholdGaps(t: real, d: real, m: real)
    requires t == 0.0 || t == 30.0 || t == 40.0 || t == 100.0
    requires d == 100.0 || d == 70.0 || d == 80.0 || d == 75.0
          || d == 50.0 || d == 55.0 || d == 45.0 || d == 25.0
    requires m == 1.2 || m == 1.0 || m == 1.1 || m == 0.8
    ensures !(99.0 <= t + d * m < 100.0)
    ensures !(159.0 <= t + d * m < 160.0)
  {
    if m == 1.2 {
      assert d * m == d * 1.2;
    } else if m == 1.0 {
      assert d * m == d;
    } else if m == 1.1 {
      assert d * m == d * 1.1;
    } else {
      assert d * m == d * 0.8;
    }
  }

  /** In the server the rounded score and the unrounded status agree: the
      score is at least 50 exactly when the status is not 'Not Safe to
      Consume', and at least 80 exactly when it is 'Safe to Consume'. So
      safety_verified (rounded score >= 50) never contradicts the status. */
  lemma RoundedScoreAgreesWithStatus(e: RuleEntry, hours: WholeHours, s: Signals, storage: string)
    requires !e.Missing?
    ensures var v := Evaluate(e, hours, s, storage);
            (ReportedScore(v.final) >= 50 <==> Classify(v.final) != NotSafeToConsume)
            && (ReportedScore(v.final) >= 80 <==> Classify(v.final) == SafeToConsume)
  {
    var v := Evaluate(e, hours, s, storage);
    if e.Own? {
      WholeHoursTimeScore(e.food, hours);
    }
    SumAvoidsThresholdGaps(v.time, Deducted(s), StorageMultiplier(storage));
    assert v.image == Deducted(s) * StorageMultiplier(storage);
  }

  /** Past maxHours the final score is at most 60, so the status is never
      'Safe to Consume' and 'No visible spoilage indicators' never appears,
      while the time clause does. */
  lemma ExceededIsNeverSafe(f: FoodType, hours: WholeHours, s: Signals, storage: string)
    ensures var v := Evaluate(Own(f), hours, s, storage);
            Exceeded(f, AsHours(hours)) ==>
            v.final <= 60.0
            && Classify(v.final) != SafeToConsume
            && NoSpoilage !in ServerClauses(Own(f), hours, s, v.final)
            && TimeExceeded(f, hours.value as real) in ServerClauses(Own(f), hours, s, v.final)
  {
    if Exceeded(f, AsHours(hours)) {
      var v := Evaluate(Own(f), hours, s, storage);
      var cs := ServerClauses(Own(f), hours, s, v.final);
      assert cs == Clauses(f, AsHours(hours), s.discoloration, s.moisture, s.texture, v.final);
      var c :| c in cs && c.TimeExceeded?;
    }
  }

  /** AIFoodSafetyScanner.performAnalysis. */
  function PerformAnalysis(foodType: string, storage: string, hours: WholeHours,
                           s: Signals, draw: real): (r: Result<Analysis, ScanError>)
    // Only a food type the rule table knows nothing about makes the scan throw.
    ensures r.Failure? <==> LookupRules(foodType).Missing?
    ensures r.Success? ==> 0 <= r.value.safetyScore <= 100
    ensures r.Success? ==>
              (r.value.safetyScore >= 50 <==> r.value.status != NotSafeToConsume)
              && (r.value.safetyScore >= 80 <==> r.value.status == SafeToConsume)
    ensures r.Success? && 0.0 <= draw < 1.0 ==>
              ConfidenceRange(r.value.status).0 <= r.value.confidence <= ConfidenceRange(r.value.status).1
    ensures r.Success? && EntryExceeded(LookupRules(foodType), AsHours(hours)) ==>
              r.value.status != SafeToConsume
    // The explanation is empty exactly when no clause fires, and ends with
    // 'No visible spoilage indicators' exactly when the food is safe.
    ensures r.Success? ==>
              (r.value.explanation == "" <==>
                 !EntryExceeded(LookupRules(foodType), AsHours(hours)) && !s.discoloration
                 && s.moisture <= 80.0 && s.texture >= 40.0 && r.value.status != SafeToConsume)
    ensures r.Success? ==>
              (EndsWith(r.value.explanation, "No visible spoilage indicators") <==>
                 r.value.status == SafeToConsume)
  {
    var e := LookupRules(foodType);
    if e.Missing? then Failure(NoRuleProfile)
    else
      var v := Evaluate(e, hours, s, storage);
      var status := Classify(v.final);
      var cs := ServerClauses(e, hours, s, v.final);
      RoundedScoreAgreesWithStatus(e, hours, s, storage);
      ConfidenceInRange(status, draw);
      ExceededIsNeverSafe(if e.Own? then e.food else Veg, hours, s, storage);
      ExplanationSaysNoSpoilage(cs);
      Success(Analysis(
        ReportedScore(v.final),
        status,
        Confidence(status, draw),
        ExplanationText(cs),
        ImageReport(Round(s.quality), s.discoloration, Round(s.moisture), Round(s.texture))))
  }

  /** A food type naming an inherited property, such as "constructor", is
      scanned like vegetarian food prepared zero hours ago: no threshold
      applies and no time clause appears. */
  lemma InheritedNameScoresAsFresh(foodType: string, storage: string, hours: WholeHours,
                                   s: Signals, draw: real)
    requires foodType in InheritedNames
    ensures PerformAnalysis(foodType, storage, hours, s, draw)
            == PerformAnalysis("veg", storage, Some(0), s, draw)
  {
    var v := Evaluate(Inherited, hours, s, storage);
    assert v == Evaluate(Own(Veg), Some(0), s, storage);
    assert ServerClauses(Inherited, hours, s, v.final) == ServerClauses(Own(Veg), Some(0), s, v.final);
  }

  /** Vegetarian food made an hour ago, refrigerated, with clean signals
      (quality 90, no discoloration, moisture 20, texture 90): time score 100,
      image score 120, final score 100, 'Safe to Consume'. */
  lemma FreshRefrigeratedVegIsSafe(draw: real)
    ensures var r := PerformAnalysis("veg", "refrigerated", Some(1), Signals(90.0, false, 20.0, 90.0), draw);
            r.Success? && r.value.safetyScore == 100 && r.value.status == SafeToConsume
            && r.value.explanation == "No visible spoilage indicators"
  {
    var s := Signals(90.0, false, 20.0, 90.0);
    LowerOfLowercase("refrigerated");
    assert Deducted(s) == 100.0;
    assert ImageScore(s, "refrigerated") == 120.0;
    assert TimeScore(Veg, AsHours(Some(1))) == 100.0;
    var v := Evaluate(Own(Veg), Some(1), s, "refrigerated");
    assert v.final == 100.0;
    assert ReportedScore(100.0) == 100;
    var cs := ServerClauses(Own(Veg), Some(1), s, v.final);
    assert cs == [NoSpoilage] by {
      assert NoSpoilage in cs;
      forall c | c in cs ensures c == NoSpoilage {
        assert !c.TimeExceeded?;
      }
      assert StrictlyOrdered(cs);
    }
    assert ExplanationText(cs) == "No visible spoilage indicators";
  }
}
