/** The rule tables and the steps that the server's scanner
    (AIFoodSafetyScanner.performAnalysis) and the test script's
    calculateAISafetyScore share: rule profiles per food type, the piecewise
    time score, storage multipliers, the averaged and clamped final score,
    the status thresholds, the confidence ranges and the explanation clauses.
    Both source functions carry their own copy of these tables; the copies are
    identical, so the model states them once. */
module SafetyRules {
  import opened Basics

  /** The values the food_type column admits. */
  datatype FoodType = Veg | NonVeg

  function FoodTypeName(f: FoodType): string {
    match f
    case Veg => "veg"
    case NonVeg => "non-veg"
  }

  /** Looking a food type up in the rule table by its name: only the two
      exact, case-sensitive keys have a profile. */
  function ParseFoodType(s: string): (r: Option<FoodType>)
    ensures r.Some? <==> s == "veg" || s == "non-veg"
    ensures r.Some? ==> FoodTypeName(r.value) == s
  {
    if s == "veg" then Some(Veg) else if s == "non-veg" then Some(NonVeg) else None
  }

  lemma FoodTypeNameRoundTrip(f: FoodType)
    ensures ParseFoodType(FoodTypeName(f)) == Some(f)
  {
  }

  /** The names every plain object inherits from Object.prototype. Indexing
      the rule table with one of them finds a function (or, for __proto__,
      the prototype itself), not a profile. */
  const InheritedNames: set<string> := {
    "constructor", "__proto__", "__defineGetter__", "__defineSetter__",
    "__lookupGetter__", "__lookupSetter__", "hasOwnProperty", "isPrototypeOf",
    "propertyIsEnumerable", "toLocaleString", "toString", "valueOf"
  }

  /** What `safetyRules[foodType]` finds: one of the table's own profiles, an
      inherited property (which has neither maxHours nor immediateThreshold),
      or undefined. */
  datatype RuleEntry = Own(food: FoodType) | Inherited | Missing

  function LookupRules(key: string): (e: RuleEntry)
    ensures e.Own? <==> ParseFoodType(key).Some?
    ensures e.Own? ==> Some(e.food) == ParseFoodType(key)
    ensures e.Inherited? <==> key in InheritedNames
    ensures e.Missing? <==> ParseFoodType(key).None? && key !in InheritedNames
  {
    match ParseFoodType(key)
    case Some(f) => Own(f)
    case None => if key in InheritedNames then Inherited else Missing
  }

  /** A rule profile: beyond maxHours the time score is 0; beyond
      immediateThreshold it decays linearly. */
  datatype Profile = Profile(maxHours: int, immediateThreshold: int)

  function ProfileOf(f: FoodType): (p: Profile)
    ensures p.maxHours - p.immediateThreshold == 2
  {
    match f
    case Veg => Profile(8, 6)
    case NonVeg => Profile(4, 2)
  }

  /** Elapsed hours since preparation; None stands for NaN (an unparseable
      preparation time), against which every comparison is false. */
  type Hours = Option<real>

  predicate Exceeded(f: FoodType, hours: Hours): (r: bool)
    // More than 8 hours for vegetarian food, more than 4 for the rest.
    ensures r <==> hours.Some? && hours.value > (if f == Veg then 8.0 else 4.0)
  {
    hours.Some? && hours.value > ProfileOf(f).maxHours as real
  }

  /** The time-based safety score. */
  function TimeScore(f: FoodType, hours: Hours): (r: real)
    ensures 0.0 <= r <= 100.0
    ensures r == 100.0 <==> hours.None? || hours.value <= ProfileOf(f).immediateThreshold as real
    ensures r == 0.0 <==> Exceeded(f, hours)
    ensures r == 0.0 || r == 100.0 || 30.0 <= r < 50.0
    // Between the immediate threshold and maxHours it loses ten points an
    // hour, starting from 50.
    ensures hours.Some? && ProfileOf(f).immediateThreshold as real < hours.value <= ProfileOf(f).maxHours as real ==>
              r == 50.0 - (hours.value - ProfileOf(f).immediateThreshold as real) * 10.0
  {
    var p := ProfileOf(f);
    if hours.None? then 100.0
    else if hours.value > p.maxHours as real then 0.0
    else if hours.value > p.immediateThreshold as real then
      50.0 - (hours.value - p.immediateThreshold as real) * 10.0
    else 100.0
  }

  /** The time score never rises as the hours grow. */
  lemma TimeScoreNeverRises(f: FoodType, h1: real, h2: real)
    requires h1 <= h2
    ensures TimeScore(f, Some(h2)) <= TimeScore(f, Some(h1))
  {
    var p := ProfileOf(f);
    if h2 > p.maxHours as real {
    } else if h1 > p.immediateThreshold as real {
      assert TimeScore(f, Some(h2)) == 50.0 - (h2 - p.immediateThreshold as real) * 10.0;
      assert TimeScore(f, Some(h1)) == 50.0 - (h1 - p.immediateThreshold as real) * 10.0;
    }
  }

  /** The time score under an entry the lookup found. An inherited entry's
      thresholds are undefined, every comparison with them is false, and the
      score stays 100. */
  function EntryTimeScore(e: RuleEntry, hours: Hours): (r: real)
    requires !e.Missing?
    ensures 0.0 <= r <= 100.0
    ensures e.Inherited? ==> r == 100.0
    ensures e.Own? ==> r == TimeScore(e.food, hours)
  {
    if e.Own? then TimeScore(e.food, hours) else 100.0
  }

  /** `hoursSincePreparation > rules.maxHours` under an entry. */
  predicate EntryExceeded(e: RuleEntry, hours: Hours) {
    e.Own? && Exceeded(e.food, hours)
  }

  /** The storage multiplier, looked up by the lower-cased condition; an
      unknown condition multiplies by 1.0. */
  function StorageMultiplier(condition: string): (m: real)
    ensures m == 1.2 || m == 1.0 || m == 1.1 || m == 0.8
    ensures 0.8 <= m <= 1.2
    ensures Lower(condition) == "refrigerated" <==> m == 1.2
    ensures Lower(condition) == "covered" <==> m == 1.1
    ensures Lower(condition) == "uncovered" <==> m == 0.8
    ensures Lower(condition) == "room temperature" ==> m == 1.0
    // Any other condition falls back to 1.0.
    ensures m == 1.0 <==> Lower(condition) !in {"refrigerated", "covered", "uncovered"}
  {
    var key := Lower(condition);
    if key == "refrigerated" then 1.2
    else if key == "room temperature" then 1.0
    else if key == "covered" then 1.1
    else if key == "uncovered" then 0.8
    else 1.0
  }

  /** The lookup does not depend on the case of the condition. */
  lemma StorageMultiplierIgnoresCase(condition: string)
    ensures StorageMultiplier(Lower(condition)) == StorageMultiplier(condition)
  {
    LowerIdempotent(condition);
  }

  /** Math.max(0, Math.min(100, (time + image) / 2)). */
  function FinalScore(time: real, image: real): (r: real)
    ensures 0.0 <= r <= 100.0
    ensures 0.0 <= (time + image) / 2.0 <= 100.0 ==> r == (time + image) / 2.0
  {
    Clamp((time + image) / 2.0, 0.0, 100.0)
  }

  /** The reported integer score. */
  function ReportedScore(final: real): (r: int)
    requires 0.0 <= final <= 100.0
    ensures 0 <= r <= 100
    ensures r as real - 0.5 <= final < r as real + 0.5
  {
    Round(final)
  }

  datatype SafetyStatus = SafeToConsume | ConsumeImmediately | NotSafeToConsume

  function StatusText(s: SafetyStatus): string {
    match s
    case SafeToConsume => "Safe to Consume"
    case ConsumeImmediately => "Consume Immediately"
    case NotSafeToConsume => "Not Safe to Consume"
  }

  /** The status, decided on the unrounded final score. */
  function Classify(final: real): (r: SafetyStatus)
    ensures r == SafeToConsume <==> final >= 80.0
    ensures r == ConsumeImmediately <==> 50.0 <= final < 80.0
    ensures r == NotSafeToConsume <==> final < 50.0
  {
    if final >= 80.0 then SafeToConsume
    else if final >= 50.0 then ConsumeImmediately
    else NotSafeToConsume
  }

  /** The confidence, from a uniform draw in [0, 1) scaled into the status's
      range, rounded to two decimals. */
  function Confidence(s: SafetyStatus, draw: real): (r: real)
    ensures IsWhole(r * 100.0)
  {
    match s
    case SafeToConsume => RoundCents(0.85 + draw * 0.1)
    case ConsumeImmediately => RoundCents(0.7 + draw * 0.15)
    case NotSafeToConsume => RoundCents(0.9 + draw * 0.08)
  }

  /** Lowest and highest confidence each status can report. */
  function ConfidenceRange(s: SafetyStatus): (real, real) {
    match s
    case SafeToConsume => (0.85, 0.95)
    case ConsumeImmediately => (0.7, 0.85)
    case NotSafeToConsume => (0.9, 0.98)
  }

  lemma RoundCentsWithin(x: real, lo: int, hi: int)
    requires lo as real / 100.0 <= x < hi as real / 100.0
    ensures lo as real / 100.0 <= RoundCents(x) <= hi as real / 100.0
  {
    var n := Round(x * 100.0);
    assert n as real - 0.5 <= x * 100.0 < n as real + 0.5;
    assert lo as real <= x * 100.0 < hi as real;
    assert lo <= n <= hi;
    assert RoundCents(x) == n as real / 100.0;
  }

  /** With a draw in [0, 1), the reported confidence lies in the status's
      range: Safe [0.85, 0.95], Consume Immediately [0.70, 0.85],
      Not Safe [0.90, 0.98]. */
  lemma ConfidenceInRange(s: SafetyStatus, draw: real)
    ensures 0.0 <= draw < 1.0 ==>
              ConfidenceRange(s).0 <= Confidence(s, draw) <= ConfidenceRange(s).1
  {
    if 0.0 <= draw < 1.0 {
      match s
      case SafeToConsume => RoundCentsWithin(0.85 + draw * 0.1, 85, 95);
      case ConsumeImmediately => RoundCentsWithin(0.7 + draw * 0.15, 70, 85);
      case NotSafeToConsume => RoundCentsWithin(0.9 + draw * 0.08, 90, 98);
    }
  }

  // ---------------------------------------------------------------------
  // Explanations

  datatype Clause =
    | TimeExceeded(food: FoodType, hours: real)
    | Discoloration
    | ExcessMoisture
    | TextureDegradation
    | NoSpoilage

  /** The place of each clause in the explanation. */
  function Rank(c: Clause): nat {
    match c
    case TimeExceeded(_, _) => 0
    case Discoloration => 1
    case ExcessMoisture => 2
    case TextureDegradation => 3
    case NoSpoilage => 4
  }

  predicate StrictlyOrdered(cs: seq<Clause>) {
    forall i, j :: 0 <= i < j < |cs| ==> Rank(cs[i]) < Rank(cs[j])
  }

  /** `c` in front of `s` when `fires`, keeping the order. */
  function PrependIf(fires: bool, c: Clause, s: seq<Clause>): (r: seq<Clause>)
    requires StrictlyOrdered(s)
    requires forall x :: x in s ==> Rank(c) < Rank(x)
    ensures StrictlyOrdered(r)
    ensures forall x :: x in r <==> (fires && x == c) || x in s
    ensures forall x :: x in r ==> Rank(c) <= Rank(x)
  {
    if fires then
      var r := [c] + s;
      assert forall i :: 1 <= i < |r| ==> r[i] == s[i - 1];
      r
    else s
  }

  /** The clauses after the time clause, in their fixed order. */
  function SignalClauses(discoloration: bool, moisture: real, texture: real, final: real)
    : (r: seq<Clause>)
    ensures StrictlyOrdered(r)
    ensures forall c :: c in r ==> !c.TimeExceeded?
    ensures Discoloration in r <==> discoloration
    ensures ExcessMoisture in r <==> moisture > 80.0
    ensures TextureDegradation in r <==> texture < 40.0
    ensures NoSpoilage in r <==> final >= 80.0
  {
    var fromSpoilage := PrependIf(final >= 80.0, NoSpoilage, []);
    var fromTexture := PrependIf(texture < 40.0, TextureDegradation, fromSpoilage);
    var fromMoisture := PrependIf(moisture > 80.0, ExcessMoisture, fromTexture);
    PrependIf(discoloration, Discoloration, fromMoisture)
  }

  /** The clauses that fire, in their fixed order. */
  function Clauses(f: FoodType, hours: Hours, discoloration: bool, moisture: real,
                   texture: real, final: real): (r: seq<Clause>)
    ensures StrictlyOrdered(r)
    ensures (exists c :: c in r && c.TimeExceeded?) <==> Exceeded(f, hours)
    ensures forall c :: c in r && c.TimeExceeded? ==> c == TimeExceeded(f, hours.value)
    ensures Discoloration in r <==> discoloration
    ensures ExcessMoisture in r <==> moisture > 80.0
    ensures TextureDegradation in r <==> texture < 40.0
    ensures NoSpoilage in r <==> final >= 80.0
  {
    var fromColour := SignalClauses(discoloration, moisture, texture, final);
    var exceeded := Exceeded(f, hours);
    var r := PrependIf(exceeded, TimeExceeded(f, if exceeded then hours.value else 0.0), fromColour);
    assert exceeded ==> TimeExceeded(f, hours.value) in r;
    r
  }

  /** The clauses under an entry the lookup found: an inherited entry never
      exceeds its undefined maxHours, so only the signal clauses can fire. */
  function EntryClauses(e: RuleEntry, hours: Hours, discoloration: bool, moisture: real,
                        texture: real, final: real): (r: seq<Clause>)
    requires !e.Missing?
    ensures StrictlyOrdered(r)
    ensures (exists c :: c in r && c.TimeExceeded?) <==> EntryExceeded(e, hours)
    ensures Discoloration in r <==> discoloration
    ensures ExcessMoisture in r <==> moisture > 80.0
    ensures TextureDegradation in r <==> texture < 40.0
    ensures NoSpoilage in r <==> final >= 80.0
    ensures r == [] <==> !EntryExceeded(e, hours) && !discoloration && moisture <= 80.0
                         && texture >= 40.0 && final < 80.0
  {
    var r := if e.Own? then Clauses(e.food, hours, discoloration, moisture, texture, final)
             else SignalClauses(discoloration, moisture, texture, final);
    assert r != [] ==> r[0] in r;
    r
  }

  /** A clause whose text can be rendered here: the hours of a time clause
      are a whole number (the server's always are). */
  predicate Printable(c: Clause) {
    c.TimeExceeded? ==> c.hours >= 0.0 && IsWhole(c.hours)
  }

  function ClauseText(c: Clause): (t: string)
    requires Printable(c)
    ensures |t| > 0
  {
    match c
    case TimeExceeded(f, h) =>
      "Time exceeded for " + FoodTypeName(f) + " food (" + NatText(h.Floor) + " hours)"
    case Discoloration => "Visible discoloration detected"
    case ExcessMoisture => "Excessive moisture visible"
    case TextureDegradation => "Texture degradation observed"
    case NoSpoilage => "No visible spoilage indicators"
  }

  /** explanations.join('; '). */
  function ExplanationText(cs: seq<Clause>): (t: string)
    requires forall c :: c in cs ==> Printable(c)
    ensures t == "" <==> cs == []
    ensures cs != [] ==> |t| >= |ClauseText(cs[0])| && t[..|ClauseText(cs[0])|] == ClauseText(cs[0])
  {
    var texts := ClauseTexts(cs);
    assert cs != [] ==> texts[0] == ClauseText(cs[0]);
    Join(texts, "; ")
  }

  function ClauseTexts(cs: seq<Clause>): (ts: seq<string>)
    requires forall c :: c in cs ==> Printable(c)
    ensures |ts| == |cs|
    ensures forall i :: 0 <= i < |cs| ==> ts[i] == ClauseText(cs[i])
  {
    seq(|cs|, i requires 0 <= i < |cs| => ClauseText(cs[i]))
  }

  /** One more clause adds "; " and its text. */
  lemma ExplanationAppend(cs: seq<Clause>, c: Clause)
    requires forall x :: x in cs ==> Printable(x)
    requires Printable(c) && cs != []
    ensures ExplanationText(cs + [c]) == ExplanationText(cs) + "; " + ClauseText(c)
  {
    var texts := ClauseTexts(cs);
    assert ClauseTexts(cs + [c]) == texts + [ClauseText(c)];
    JoinAppend(texts, ClauseText(c), "; ");
  }

  /** The explanation ends with the last clause's text. */
  lemma ExplanationEndsWithLast(cs: seq<Clause>)
    requires forall x :: x in cs ==> Printable(x)
    requires cs != []
    ensures EndsWith(ExplanationText(cs), ClauseText(cs[|cs| - 1]))
  {
    var n := |cs| - 1;
    if n > 0 {
      assert cs == cs[..n] + [cs[n]];
      ExplanationAppend(cs[..n], cs[n]);
    }
  }

  /** Among the clause texts only 'No visible spoilage indicators' ends in
      the letter s. */
  lemma OnlyNoSpoilageEndsInS(c: Clause)
    requires Printable(c)
    ensures ClauseText(c)[|ClauseText(c)| - 1] == 's' <==> c == NoSpoilage
  {
    if c.TimeExceeded? {
      var t := ClauseText(c);
      assert t == ("Time exceeded for " + FoodTypeName(c.food) + " food (" + NatText(c.hours.Floor)) + " hours)";
    }
  }

  /** In ordered clauses, the explanation ends with 'No visible spoilage
      indicators' exactly when that clause fired. */
  lemma ExplanationSaysNoSpoilage(cs: seq<Clause>)
    requires forall x :: x in cs ==> Printable(x)
    requires StrictlyOrdered(cs)
    ensures EndsWith(ExplanationText(cs), "No visible spoilage indicators") <==> NoSpoilage in cs
  {
    var t := ExplanationText(cs);
    if cs != [] {
      var last := cs[|cs| - 1];
      ExplanationEndsWithLast(cs);
      OnlyNoSpoilageEndsInS(last);
      if NoSpoilage in cs {
        var i :| 0 <= i < |cs| && cs[i] == NoSpoilage;
        assert i == |cs| - 1;
      }
      if EndsWith(t, "No visible spoilage indicators") {
        assert t[|t| - 1] == 's';
        assert t[|t| - 1] == ClauseText(last)[|ClauseText(last)| - 1];
      }
    }
  }
}
