/** The food_donations and donation_claims tables and the handlers that write
    them: POST /api/donations (insert, then record the scanner's assessment),
    POST /api/donations/:id/claim (check, insert a claim, mark the donation
    claimed) and GET /api/analytics (four aggregate queries).

    Each handler is a step function from one table state to the next, and the
    DonationStore class performs the same steps in place. */
module Donations {
  import opened Basics
  import opened SafetyRules
  import opened Scanner

  /** The values the status column of food_donations admits. */
  datatype DonationStatus = Pending | Approved | Claimed | Completed | Rejected

  /** The values the status column of donation_claims admits. */
  datatype ClaimStatus = ClaimPending | Confirmed | PickedUp | ClaimCompleted | Cancelled

  /** The values the role column of users admits. */
  datatype Role = Donor | Ngo | Admin

  /** The ai_* columns written after the scan; ai_status holds the status's
      text. */
  datatype Assessment = Assessment(score: int, status: string, confidence: real,
                                   explanation: string)

  /** A row of food_donations. */
  datatype Donation = Donation(
    id: string,
    donorId: string,
    title: string,
    description: Option<string>,
    foodType: FoodType,
    quantity: int,
    unit: string,
    preparationTime: string,
    storageCondition: string,
    location: string,
    latitude: Option<real>,
    longitude: Option<real>,
    imagePath: string,
    assessment: Option<Assessment>,
    safetyVerified: bool,
    status: DonationStatus)

  /** A row of donation_claims. */
  datatype Claim = Claim(id: string, donationId: string, ngoId: string,
                         pickupTime: Option<string>, status: ClaimStatus)

  /** Both tables, each in insertion order. */
  datatype Db = Db(donations: seq<Donation>, claims: seq<Claim>)

  predicate HasDonation(ds: seq<Donation>, id: string) {
    exists i :: 0 <= i < |ds| && ds[i].id == id
  }

  predicate HasClaim(cs: seq<Claim>, id: string) {
    exists i :: 0 <= i < |cs| && cs[i].id == id
  }

  /** The primary keys are unique and every claim names a donation. */
  ghost predicate WellFormed(db: Db) {
    && (forall i, j :: 0 <= i < j < |db.donations| ==> db.donations[i].id != db.donations[j].id)
    && (forall i, j :: 0 <= i < j < |db.claims| ==> db.claims[i].id != db.claims[j].id)
    && (forall i :: 0 <= i < |db.claims| ==> HasDonation(db.donations, db.claims[i].donationId))
  }

  // ---------------------------------------------------------------------
  // Creating a donation

  /** The multipart form fields; None is a field the form did not send. */
  datatype DonationForm = DonationForm(
    title: Option<string>,
    description: Option<string>,
    foodType: Option<string>,
    quantity: Option<int>,
    unit: Option<string>,
    preparationTime: Option<string>,
    storageCondition: Option<string>,
    location: Option<string>,
    latitude: Option<real>,
    longitude: Option<real>,
    hygieneChecked: Option<string>)

  /** What the scan reads from the clock and the random source. */
  datatype ScanInputs = ScanInputs(hours: WholeHours, signals: Signals, draw: real)

  datatype CreateError = ImageRequired | HygieneRequired | InsertFailed

  /** The payload of the new_donation event. */
  datatype NewDonationEvent = NewDonationEvent(donationId: string, title: string,
                                               location: string, safetyScore: int)

  /** The 201 response's donation and the event emitted, if any. */
  datatype Created = Created(id: string, title: string, imagePath: string, analysis: Analysis,
                             event: Option<NewDonationEvent>)

  datatype CreateStep = CreateStep(db: Db, outcome: Result<Created, CreateError>)

  /** A form string is truthy when it was sent and is not empty. */
  predicate Truthy(field: Option<string>) {
    field.Some? && field.value != ""
  }

  /** The INSERT succeeds: the NOT NULL columns have values, food_type passes
      its CHECK and the id is not taken. */
  predicate Insertable(ds: seq<Donation>, form: DonationForm, id: string): (r: bool)
    // The CHECK admits only the two exact food type names.
    ensures r ==> form.foodType.Some? && (form.foodType.value == "veg" || form.foodType.value == "non-veg")
  {
    && form.title.Some?
    && form.foodType.Some? && ParseFoodType(form.foodType.value).Some?
    && form.quantity.Some?
    && form.preparationTime.Some?
    && form.storageCondition.Some?
    && form.location.Some?
    && !HasDonation(ds, id)
  }

  /** unit || 'plates'. */
  function UnitOrDefault(unit: Option<string>): (u: string)
    ensures Truthy(unit) ==> u == unit.value
    ensures !Truthy(unit) ==> u == "plates"
  {
    if unit.Some? && unit.value != "" then unit.value else "plates"
  }

  /** The inserted row: the columns the INSERT names, the others at their
      defaults (no assessment, safety_verified 0, status 'pending'). */
  function InsertedRow(donorId: string, form: DonationForm, id: string, imagePath: string,
                       f: FoodType): (r: Donation)
    requires form.title.Some? && form.quantity.Some? && form.preparationTime.Some?
    requires form.storageCondition.Some? && form.location.Some?
    ensures r.id == id && r.donorId == donorId && r.foodType == f && r.imagePath == imagePath
    ensures r.unit == UnitOrDefault(form.unit)
    ensures r.status == Pending && r.assessment.None? && !r.safetyVerified
  {
    Donation(id, donorId, form.title.value, form.description, f, form.quantity.value,
             UnitOrDefault(form.unit), form.preparationTime.value, form.storageCondition.value,
             form.location.value, form.latitude, form.longitude, imagePath,
             None, false, Pending)
  }

  /** UPDATE food_donations SET ai_*, safety_verified WHERE id = ?. */
  function WithAssessment(ds: seq<Donation>, id: string, a: Assessment, verified: bool): (r: seq<Donation>)
    ensures |r| == |ds|
    ensures forall i :: 0 <= i < |ds| ==>
              r[i] == if ds[i].id == id then ds[i].(assessment := Some(a), safetyVerified := verified)
                      else ds[i]
  {
    seq(|ds|, i requires 0 <= i < |ds| =>
      if ds[i].id == id then ds[i].(assessment := Some(a), safetyVerified := verified) else ds[i])
  }

  function AssessmentOf(a: Analysis): Assessment {
    Assessment(a.safetyScore, StatusText(a.status), a.confidence, a.explanation)
  }

  /** The scanner's analysis of a row that passed the INSERT. */
  function AnalysisFor(form: DonationForm, scan: ScanInputs): (a: Analysis)
    requires form.foodType.Some? && ParseFoodType(form.foodType.value).Some?
    requires form.storageCondition.Some?
    ensures 0 <= a.safetyScore <= 100
    ensures a.safetyScore >= 50 <==> a.status != NotSafeToConsume
  {
    PerformAnalysis(form.foodType.value, form.storageCondition.value, scan.hours,
                    scan.signals, scan.draw).value
  }

  /** POST /api/donations. `file` is the name the upload was stored under
      (None when the form carried no image) and `id` the fresh uuid. */
  function CreateDonationStep(db: Db, donorId: string, form: DonationForm, file: Option<string>,
                              id: string, scan: ScanInputs): (r: CreateStep)
    // Nothing is written unless an image came with the form, the hygiene box
    // is ticked and the INSERT's constraints hold.
    ensures r.outcome.Failure? <==>
              file.None? || !Truthy(form.hygieneChecked) || !Insertable(db.donations, form, id)
    ensures r.outcome.Failure? ==> r.db == db
    ensures file.None? ==> r.outcome == Failure(ImageRequired)
    ensures file.Some? && !Truthy(form.hygieneChecked) ==> r.outcome == Failure(HygieneRequired)
    // Otherwise exactly one row is appended and nothing else changes.
    ensures r.outcome.Success? ==>
              && r.db.claims == db.claims
              && |r.db.donations| == |db.donations| + 1
              && r.db.donations[..|db.donations|] == db.donations
    // The new row: status 'pending', unit defaulting to 'plates', the
    // assessment recorded, safety_verified set exactly when the score is at
    // least 50, which is also exactly when new_donation is emitted.
    ensures r.outcome.Success? ==>
              var row := r.db.donations[|db.donations|];
              var created := r.outcome.value;
              && row.id == id == created.id
              && row.title == form.title.value == created.title
              && created.imagePath == row.imagePath
              && row.status == Pending
              && row.unit == UnitOrDefault(form.unit)
              && row.imagePath == "/uploads/" + file.value
              && row.donorId == donorId
              && Some(row.foodType) == ParseFoodType(form.foodType.value)
              && row.description == form.description
              && row.quantity == form.quantity.value
              && row.preparationTime == form.preparationTime.value
              && row.storageCondition == form.storageCondition.value
              && row.location == form.location.value
              && row.latitude == form.latitude && row.longitude == form.longitude
              && created.analysis == AnalysisFor(form, scan)
              && row.assessment == Some(AssessmentOf(created.analysis))
              && 0 <= created.analysis.safetyScore <= 100
              && (row.safetyVerified <==> created.analysis.safetyScore >= 50)
              && (row.safetyVerified <==> created.analysis.status != NotSafeToConsume)
              && (created.event.Some? <==> row.safetyVerified)
              && (created.event.Some? ==>
                    created.event.value == NewDonationEvent(id, form.title.value, form.location.value,
                                                            created.analysis.safetyScore))
  {
    if file.None? then CreateStep(db, Failure(ImageRequired))
    else if !Truthy(form.hygieneChecked) then CreateStep(db, Failure(HygieneRequired))
    else if !Insertable(db.donations, form, id) then CreateStep(db, Failure(InsertFailed))
    else
      var imagePath := "/uploads/" + file.value;
      var f := ParseFoodType(form.foodType.value).value;
      var inserted := db.donations + [InsertedRow(donorId, form, id, imagePath, f)];
      var analysis := AnalysisFor(form, scan);
      var verified := analysis.safetyScore >= 50;
      var donations := WithAssessment(inserted, id, AssessmentOf(analysis), verified);
      var event := if verified then
                     Some(NewDonationEvent(id, form.title.value, form.location.value, analysis.safetyScore))
                   else None;
      assert forall i :: 0 <= i < |db.donations| ==> inserted[i].id != id;
      assert donations[..|db.donations|] == db.donations;
      CreateStep(Db(donations, db.claims), Success(Created(id, form.title.value, imagePath, analysis, event)))
  }

  // ---------------------------------------------------------------------
  // Claiming a donation

  datatype ClaimError = OnlyNgos | NotAvailable | ClaimInsertFailed

  /** The payload of the donation_claimed event. */
  datatype ClaimedEvent = DonationClaimed(donationId: string, claimId: string)

  datatype ClaimStep = ClaimStep(db: Db, outcome: Result<ClaimedEvent, ClaimError>)

  /** SELECT * FROM food_donations WHERE id = ? AND status = "approved" finds a row. */
  predicate Available(ds: seq<Donation>, id: string): (r: bool)
    ensures r ==> HasDonation(ds, id)
  {
    exists i :: 0 <= i < |ds| && ds[i].id == id && ds[i].status == Approved
  }

  /** UPDATE food_donations SET status = "claimed" WHERE id = ?. */
  function WithStatus(ds: seq<Donation>, id: string, s: DonationStatus): (r: seq<Donation>)
    ensures |r| == |ds|
    ensures forall i :: 0 <= i < |ds| ==>
              r[i] == if ds[i].id == id then ds[i].(status := s) else ds[i]
  {
    seq(|ds|, i requires 0 <= i < |ds| => if ds[i].id == id then ds[i].(status := s) else ds[i])
  }

  /** POST /api/donations/:id/claim. */
  function ClaimDonationStep(db: Db, role: Role, userId: string, donationId: string,
                             claimId: string, pickupTime: Option<string>): (r: ClaimStep)
    ensures r.outcome.Success? <==>
              role != Donor && Available(db.donations, donationId) && !HasClaim(db.claims, claimId)
    ensures r.outcome.Failure? ==> r.db == db
    ensures role == Donor ==> r.outcome == Failure(OnlyNgos)
    ensures role != Donor && !Available(db.donations, donationId) ==> r.outcome == Failure(NotAvailable)
    // On success one pending claim is appended and only the claimed
    // donation's status changes, to 'claimed'.
    ensures r.outcome.Success? ==>
              && r.outcome.value == DonationClaimed(donationId, claimId)
              && r.db.claims == db.claims + [Claim(claimId, donationId, userId, pickupTime, ClaimPending)]
              && |r.db.donations| == |db.donations|
              && (forall i :: 0 <= i < |db.donations| && db.donations[i].id != donationId ==>
                    r.db.donations[i] == db.donations[i])
              && (forall i :: 0 <= i < |db.donations| && db.donations[i].id == donationId ==>
                    r.db.donations[i] == db.donations[i].(status := Claimed))
  {
    if role == Donor then ClaimStep(db, Failure(OnlyNgos))
    else if !Available(db.donations, donationId) then ClaimStep(db, Failure(NotAvailable))
    else if HasClaim(db.claims, claimId) then ClaimStep(db, Failure(ClaimInsertFailed))
    else
      var claims := db.claims + [Claim(claimId, donationId, userId, pickupTime, ClaimPending)];
      ClaimStep(Db(WithStatus(db.donations, donationId, Claimed), claims),
                Success(DonationClaimed(donationId, claimId)))
  }

  // ---------------------------------------------------------------------
  // Invariants of the two steps

  lemma CreatePreservesWellFormed(db: Db, donorId: string, form: DonationForm, file: Option<string>,
                                  id: string, scan: ScanInputs)
    requires WellFormed(db)
    ensures WellFormed(CreateDonationStep(db, donorId, form, file, id, scan).db)
  {
    var r := CreateDonationStep(db, donorId, form, file, id, scan);
    if r.outcome.Success? {
      var ds := r.db.donations;
      assert forall i :: 0 <= i < |db.donations| ==> ds[i] == db.donations[i];
      assert ds[|db.donations|].id == id;
      forall k | 0 <= k < |db.claims|
        ensures HasDonation(ds, db.claims[k].donationId)
      {
        var j :| 0 <= j < |db.donations| && db.donations[j].id == db.claims[k].donationId;
        assert ds[j].id == db.claims[k].donationId;
      }
    }
  }

  lemma ClaimPreservesWellFormed(db: Db, role: Role, userId: string, donationId: string,
                                 claimId: string, pickupTime: Option<string>)
    requires WellFormed(db)
    ensures WellFormed(ClaimDonationStep(db, role, userId, donationId, claimId, pickupTime).db)
  {
    var r := ClaimDonationStep(db, role, userId, donationId, claimId, pickupTime);
    if r.outcome.Success? {
      var ds := r.db.donations;
      assert forall i :: 0 <= i < |ds| ==> ds[i].id == db.donations[i].id;
      forall k | 0 <= k < |r.db.claims|
        ensures HasDonation(ds, r.db.claims[k].donationId)
      {
        var j :| 0 <= j < |db.donations| && db.donations[j].id == r.db.claims[k].donationId
                 && (k == |db.claims| ==> db.donations[j].status == Approved);
        assert ds[j].id == r.db.claims[k].donationId;
      }
    }
  }

  /** With unique primary keys a claim's UPDATE touches exactly one row: the
      approved donation claimed, now 'claimed'; every other row is unchanged. */
  lemma ClaimUpdatesOneRow(db: Db, role: Role, userId: string, donationId: string,
                           claimId: string, pickupTime: Option<string>)
    requires WellFormed(db)
    ensures var r := ClaimDonationStep(db, role, userId, donationId, claimId, pickupTime);
            r.outcome.Success? ==> OneRowClaimed(db.donations, r.db.donations, donationId)
  {
    var r := ClaimDonationStep(db, role, userId, donationId, claimId, pickupTime);
    if r.outcome.Success? {
      var k :| 0 <= k < |db.donations| && db.donations[k].id == donationId
               && db.donations[k].status == Approved;
      assert forall i :: 0 <= i < |db.donations| && i != k ==> db.donations[i].id != donationId;
      assert r.db.donations == WithStatus(db.donations, donationId, Claimed);
    }
  }

  /** `after` is `before` with row k, an approved row with that id, marked
      'claimed', and nothing else changed. */
  predicate OneRowClaimed(before: seq<Donation>, after: seq<Donation>, id: string) {
    && |after| == |before|
    && exists k :: 0 <= k < |before| && before[k].id == id && before[k].status == Approved
                   && after[k] == before[k].(status := Claimed)
                   && forall i :: 0 <= i < |before| && i != k ==> after[i] == before[i]
  }

  /** No donation has status 'approved'. */
  predicate NoneApproved(db: Db) {
    forall i :: 0 <= i < |db.donations| ==> db.donations[i].status != Approved
  }

  /** Nothing is claimed or completed yet: no claims, and no donation is
      'claimed' or 'completed'. */
  predicate Unclaimed(db: Db) {
    && db.claims == []
    && forall i :: 0 <= i < |db.donations| ==>
         db.donations[i].status != Claimed && db.donations[i].status != Completed
  }

  /** Creation never writes 'approved': it inserts 'pending' and then only sets
      the assessment and safety_verified. */
  lemma CreateKeepsNoneApproved(db: Db, donorId: string, form: DonationForm, file: Option<string>,
                                id: string, scan: ScanInputs)
    requires NoneApproved(db) && Unclaimed(db)
    ensures var after := CreateDonationStep(db, donorId, form, file, id, scan).db;
            NoneApproved(after) && Unclaimed(after)
  {
    var r := CreateDonationStep(db, donorId, form, file, id, scan);
    if r.outcome.Success? {
      assert forall i :: 0 <= i < |db.donations| ==> r.db.donations[i] == db.donations[i];
    }
  }

  /** Without an approved donation every claim fails and changes nothing. */
  lemma ClaimNeedsApproved(db: Db, role: Role, userId: string, donationId: string,
                           claimId: string, pickupTime: Option<string>)
    requires NoneApproved(db)
    ensures var r := ClaimDonationStep(db, role, userId, donationId, claimId, pickupTime);
            r.outcome.Failure? && r.db == db
  {
  }

  /** A request to one of the two writing handlers. */
  datatype Request =
    | CreateRequest(donorId: string, form: DonationForm, file: Option<string>, id: string,
                    scan: ScanInputs)
    | ClaimRequest(role: Role, userId: string, donationId: string, claimId: string,
                   pickupTime: Option<string>)

  function Apply(db: Db, req: Request): Db {
    match req
    case CreateRequest(donorId, form, file, id, scan) =>
      CreateDonationStep(db, donorId, form, file, id, scan).db
    case ClaimRequest(role, userId, donationId, claimId, pickupTime) =>
      ClaimDonationStep(db, role, userId, donationId, claimId, pickupTime).db
  }

  /** The tables after handling the requests in order. */
  function Replay(db: Db, reqs: seq<Request>): Db
    decreases |reqs|
  {
    if reqs == [] then db else Replay(Apply(db, reqs[0]), reqs[1..])
  }

  /** Neither handler makes a donation 'approved', 'claimed' or 'completed'
      from a state where none is approved. */
  lemma ApplyKeepsNoneApproved(db: Db, req: Request)
    requires NoneApproved(db) && Unclaimed(db)
    ensures NoneApproved(Apply(db, req)) && Unclaimed(Apply(db, req))
  {
    match req
    case CreateRequest(donorId, form, file, id, scan) =>
      CreateKeepsNoneApproved(db, donorId, form, file, id, scan);
    case ClaimRequest(role, userId, donationId, claimId, pickupTime) =>
      ClaimNeedsApproved(db, role, userId, donationId, claimId, pickupTime);
  }

  /** As the handlers are written, starting from empty tables no donation ever
      becomes 'approved', so no claim is ever recorded and no donation is ever
      'claimed' or 'completed': the nearby query and the claim handler, which
      both ask for status 'approved', never find a row. */
  lemma {:induction false} NothingIsEverApproved(db: Db, reqs: seq<Request>)
    requires NoneApproved(db) && Unclaimed(db)
    ensures NoneApproved(Replay(db, reqs)) && Unclaimed(Replay(db, reqs))
    decreases |reqs|
  {
    if reqs != [] {
      ApplyKeepsNoneApproved(db, reqs[0]);
      NothingIsEverApproved(Apply(db, reqs[0]), reqs[1..]);
    }
  }

  // ---------------------------------------------------------------------
  // Analytics

  datatype Stats = Stats(totalDonations: nat, safeDonations: nat, totalClaims: nat, mealsSaved: int)

  datatype AnalyticsError = AdminRequired

  /** SELECT COUNT(*) FROM food_donations WHERE safety_verified = 1. */
  function CountVerified(ds: seq<Donation>): (r: nat)
    // When every row is verified, every row is counted.
    ensures (forall i :: 0 <= i < |ds| ==> ds[i].safetyVerified) ==> r == |ds|
  {
    if ds == [] then 0
    else CountVerified(ds[..|ds| - 1]) + (if ds[|ds| - 1].safetyVerified then 1 else 0)
  }

  /** SELECT SUM(quantity) FROM food_donations WHERE status = "completed",
      with the NULL of an empty sum read as 0. */
  function CompletedQuantity(ds: seq<Donation>): (r: int)
    // Quantities that are never negative never sum below zero.
    ensures (forall i :: 0 <= i < |ds| ==> ds[i].quantity >= 0) ==> r >= 0
  {
    if ds == [] then 0
    else CompletedQuantity(ds[..|ds| - 1]) + (if ds[|ds| - 1].status == Completed then ds[|ds| - 1].quantity else 0)
  }

  /** GET /api/analytics. */
  function AnalyticsOf(db: Db, role: Role): (r: Result<Stats, AnalyticsError>)
    ensures r.Failure? <==> role != Admin
    ensures r.Success? ==>
              && r.value.totalDonations == |db.donations|
              && r.value.totalClaims == |db.claims|
              && r.value.safeDonations <= r.value.totalDonations
              && r.value.safeDonations == |set i | 0 <= i < |db.donations| && db.donations[i].safetyVerified|
              && r.value.mealsSaved == CompletedQuantity(db.donations)
  {
    if role != Admin then Failure(AdminRequired)
    else
      VerifiedAtMostTotal(db.donations);
      CountVerifiedIsCardinality(db.donations);
      Success(Stats(|db.donations|, CountVerified(db.donations), |db.claims|,
                    CompletedQuantity(db.donations)))
  }

  /** There are never more safe donations than donations. */
  lemma {:induction false} VerifiedAtMostTotal(ds: seq<Donation>)
    ensures CountVerified(ds) <= |ds|
  {
    if ds != [] {
      VerifiedAtMostTotal(ds[..|ds| - 1]);
    }
  }

  /** The verified count is the number of safety_verified rows. */
  lemma {:induction false} CountVerifiedIsCardinality(ds: seq<Donation>)
    ensures CountVerified(ds) == |set i | 0 <= i < |ds| && ds[i].safetyVerified|
  {
    if ds != [] {
      var n := |ds| - 1;
      CountVerifiedIsCardinality(ds[..n]);
      var before := set i | 0 <= i < n && ds[..n][i].safetyVerified;
      var all := set i | 0 <= i < |ds| && ds[i].safetyVerified;
      assert before == set i | 0 <= i < n && ds[i].safetyVerified;
      if ds[n].safetyVerified {
        assert all == before + {n};
      } else {
        assert all == before;
      }
    }
  }

  /** Without completed donations no meals are counted as saved. */
  lemma {:induction false} NoCompletedNoMeals(ds: seq<Donation>)
    requires forall i :: 0 <= i < |ds| ==> ds[i].status != Completed
    ensures CompletedQuantity(ds) == 0
  {
    if ds != [] {
      NoCompletedNoMeals(ds[..|ds| - 1]);
    }
  }

  /** From empty tables, the analytics always report no claims and no meals
      saved. */
  lemma ReplayedAnalytics(reqs: seq<Request>)
    ensures var db := Replay(Db([], []), reqs);
            var stats := AnalyticsOf(db, Admin).value;
            stats.totalClaims == 0 && stats.mealsSaved == 0
            && stats.safeDonations <= stats.totalDonations
  {
    var db := Replay(Db([], []), reqs);
    NothingIsEverApproved(Db([], []), reqs);
    NoCompletedNoMeals(db.donations);
    VerifiedAtMostTotal(db.donations);
  }

  // ---------------------------------------------------------------------
  // The store

  /** The two tables, updated in place by the handlers. */
  class DonationStore {
    var donations: seq<Donation>
    var claims: seq<Claim>

    function Snapshot(): Db
      reads this
    {
      Db(donations, claims)
    }

    ghost predicate Valid()
      reads this
    {
      WellFormed(Snapshot())
    }

    constructor ()
      ensures Valid() && Snapshot() == Db([], [])
      ensures NoneApproved(Snapshot()) && Unclaimed(Snapshot())
    {
      donations := [];
      claims := [];
    }

    /** POST /api/donations: validate, insert the row with its defaults, scan,
        then record the assessment and safety_verified. */
    method CreateDonation(donorId: string, form: DonationForm, file: Option<string>,
                          id: string, scan: ScanInputs) returns (outcome: Result<Created, CreateError>)
      requires Valid()
      modifies this
      ensures Valid()
      ensures CreateDonationStep(old(Snapshot()), donorId, form, file, id, scan)
              == CreateStep(Snapshot(), outcome)
    {
      CreatePreservesWellFormed(Snapshot(), donorId, form, file, id, scan);
      if file.None? {
        return Failure(ImageRequired);
      }
      if !Truthy(form.hygieneChecked) {
        return Failure(HygieneRequired);
      }
      if !Insertable(donations, form, id) {
        return Failure(InsertFailed);
      }
      var imagePath := "/uploads/" + file.value;
      var f := ParseFoodType(form.foodType.value).value;
      donations := donations + [InsertedRow(donorId, form, id, imagePath, f)];
      var analysis := AnalysisFor(form, scan);
      var verified := analysis.safetyScore >= 50;
      donations := WithAssessment(donations, id, AssessmentOf(analysis), verified);
      var event := None;
      if verified {
        event := Some(NewDonationEvent(id, form.title.value, form.location.value, analysis.safetyScore));
      }
      outcome := Success(Created(id, form.title.value, imagePath, analysis, event));
    }

    /** POST /api/donations/:id/claim: check the role, look the donation up
        among the approved ones, insert the claim, mark the donation claimed. */
    method ClaimDonation(role: Role, userId: string, donationId: string, claimId: string,
                         pickupTime: Option<string>) returns (outcome: Result<ClaimedEvent, ClaimError>)
      requires Valid()
      modifies this
      ensures Valid()
      ensures ClaimDonationStep(old(Snapshot()), role, userId, donationId, claimId, pickupTime)
              == ClaimStep(Snapshot(), outcome)
      // The ids being unique, exactly one row changes.
      ensures outcome.Success? ==> OneRowClaimed(old(donations), donations, donationId)
    {
      ClaimPreservesWellFormed(Snapshot(), role, userId, donationId, claimId, pickupTime);
      ClaimUpdatesOneRow(Snapshot(), role, userId, donationId, claimId, pickupTime);
      if role == Donor {
        return Failure(OnlyNgos);
      }
      if !Available(donations, donationId) {
        return Failure(NotAvailable);
      }
      if HasClaim(claims, claimId) {
        return Failure(ClaimInsertFailed);
      }
      claims := claims + [Claim(claimId, donationId, userId, pickupTime, ClaimPending)];
      donations := WithStatus(donations, donationId, Claimed);
      outcome := Success(DonationClaimed(donationId, claimId));
    }

    /** GET /api/analytics: the four aggregates, the two over food_donations
        computed in one pass. */
    method Analytics(role: Role) returns (r: Result<Stats, AnalyticsError>)
      ensures r == AnalyticsOf(Snapshot(), role)
    {
      if role != Admin {
        return Failure(AdminRequired);
      }
      var safe, meals := 0, 0;
      var i := 0;
      while i < |donations|
        invariant 0 <= i <= |donations|
        invariant safe == CountVerified(donations[..i])
        invariant meals == CompletedQuantity(donations[..i])
      {
        assert donations[..i + 1][..i] == donations[..i];
        if donations[i].safetyVerified {
          safe := safe + 1;
        }
        if donations[i].status == Completed {
          meals := meals + donations[i].quantity;
        }
        i := i + 1;
      }
      assert donations[..i] == donations;
      r := Success(Stats(|donations|, safe, |claims|, meals));
    }
  }
}
