/** GET /api/donations/nearby: the verified, approved donations, each with its
    distance from the caller when the row has coordinates, kept when within
    the radius and sorted nearest first.

    The geodesic distance in metres (geolib's getDistance) is a function
    passed in; only the rounding, filtering and ordering are modelled. */
module Nearby {
  import opened Basics
  import opened Donations

  /** The radius as the comparison `distance <= radius` sees it: a number
      (10 when the query leaves it out) or NaN, against which every
      comparison is false. */
  datatype Radius = Radius(km: real) | RadiusNaN

  datatype NearbyError = CoordinatesRequired

  /** A result row: the donation and, when it has coordinates, its distance
      in kilometres. */
  datatype Located = Located(donation: Donation, distance: Option<real>)

  /** A parsed coordinate is truthy when it is a number other than 0; None
      stands for NaN (and for a NULL column). */
  predicate NonZero(x: Option<real>) {
    x.Some? && x.value != 0.0
  }

  /** WHERE fd.safety_verified = 1 AND fd.status = 'approved'. */
  predicate Listed(d: Donation) {
    d.safetyVerified && d.status == Approved
  }

  /** The rows the query returns, newest first (ORDER BY created_at DESC,
      rows inserted later taken as created later). */
  function Selected(ds: seq<Donation>): (r: seq<Donation>)
    ensures forall d :: d in r <==> d in ds && Listed(d)
    ensures |r| <= |ds|
    // The row inserted last, when listed, comes first.
    ensures ds != [] && Listed(ds[|ds| - 1]) ==> r != [] && r[0] == ds[|ds| - 1]
  {
    if ds == [] then []
    else
      var last := ds[|ds| - 1];
      (if Listed(last) then [last] else []) + Selected(ds[..|ds| - 1])
  }

  /** Math.round((metres / 1000) * 100) / 100: kilometres to two decimals. */
  function DistanceKm(metres: nat): (km: real)
    ensures km >= 0.0
    ensures km - 0.005 <= metres as real / 1000.0 < km + 0.005
    ensures IsWhole(km * 100.0)
  {
    var n := Round(metres as real / 10.0);
    assert n as real - 0.5 <= metres as real / 10.0 < n as real + 0.5;
    n as real / 100.0
  }

  /** The map step: a distance only for a row whose latitude and longitude
      are both truthy. */
  function Attach(d: Donation, metres: (real, real) -> nat): (r: Located)
    ensures r.donation == d
    ensures r.distance.Some? <==> NonZero(d.latitude) && NonZero(d.longitude)
  {
    if NonZero(d.latitude) && NonZero(d.longitude) then
      Located(d, Some(DistanceKm(metres(d.latitude.value, d.longitude.value))))
    else Located(d, None)
  }

  /** The filter step: !distance || distance <= radius. */
  predicate Keep(r: Located, radius: Radius): (b: bool)
    // A row that sorts at distance 0 passes whatever the radius.
    ensures Key(r) == 0.0 ==> b
  {
    r.distance.None? || r.distance.value == 0.0
    || (radius.Radius? && r.distance.value <= radius.km)
  }

  function AttachAll(ds: seq<Donation>, metres: (real, real) -> nat): (r: seq<Located>)
    ensures |r| == |ds|
    ensures forall i :: 0 <= i < |ds| ==> r[i] == Attach(ds[i], metres)
  {
    seq(|ds|, i requires 0 <= i < |ds| => Attach(ds[i], metres))
  }

  function KeepAll(rs: seq<Located>, radius: Radius): (r: seq<Located>)
    ensures forall x :: x in r <==> x in rs && Keep(x, radius)
  {
    if rs == [] then []
    else (if Keep(rs[0], radius) then [rs[0]] else []) + KeepAll(rs[1..], radius)
  }

  /** The sort key: distance || 0. */
  function Key(r: Located): (k: real)
    ensures r.distance.None? ==> k == 0.0
    ensures r.distance.Some? ==> k == r.distance.value
  {
    if r.distance.Some? then r.distance.value else 0.0
  }

  predicate SortedByKey(s: seq<Located>) {
    forall i, j :: 0 <= i < j < |s| ==> Key(s[i]) <= Key(s[j])
  }

  /** `x` placed before the first element whose key is not smaller, so that
      equal keys keep their order. */
  function Insert(x: Located, s: seq<Located>): (r: seq<Located>)
    requires SortedByKey(s)
    ensures SortedByKey(r)
    ensures forall y :: y in r <==> y == x || y in s
    ensures multiset(r) == multiset(s) + multiset{x}
  {
    if s == [] || Key(x) <= Key(s[0]) then [x] + s
    else
      var rest := Insert(x, s[1..]);
      var r := [s[0]] + rest;
      assert s == [s[0]] + s[1..];
      assert forall j :: 1 <= j < |r| ==> r[j] in rest;
      assert forall j :: 0 < j < |r| ==> Key(s[0]) <= Key(r[j]);
      r
  }

  /** Array.prototype.sort with (a, b) => key(a) - key(b). */
  function SortByKey(s: seq<Located>): (r: seq<Located>)
    ensures SortedByKey(r)
    ensures multiset(r) == multiset(s)
  {
    if s == [] then []
    else
      assert s == [s[0]] + s[1..];
      Insert(s[0], SortByKey(s[1..]))
  }

  /** An order-free reference for the result: the listed rows that pass
      the filter, with their distances, in table order. */
  function Matches(ds: seq<Donation>, radius: Radius, metres: (real, real) -> nat): (r: seq<Located>)
    ensures |r| <= |ds|
  {
    if ds == [] then []
    else
      var n := |ds| - 1;
      var x := Attach(ds[n], metres);
      Matches(ds[..n], radius, metres) + (if Listed(ds[n]) && Keep(x, radius) then [x] else [])
  }

  /** The reference holds a located row exactly when some listed row of the
      table, given its distance, passes the filter. */
  lemma {:induction false} MatchesMembers(ds: seq<Donation>, radius: Radius, metres: (real, real) -> nat)
    ensures forall x :: x in Matches(ds, radius, metres) <==>
              exists i :: 0 <= i < |ds| && Listed(ds[i]) && x == Attach(ds[i], metres) && Keep(x, radius)
  {
    if ds != [] {
      var n := |ds| - 1;
      MatchesMembers(ds[..n], radius, metres);
      assert forall i :: 0 <= i < n ==> ds[..n][i] == ds[i];
    }
  }

  /** Without a listed row the reference is empty. */
  lemma {:induction false} UnlistedNoMatches(ds: seq<Donation>, radius: Radius, metres: (real, real) -> nat)
    requires forall i :: 0 <= i < |ds| ==> !Listed(ds[i])
    ensures Matches(ds, radius, metres) == []
  {
    if ds != [] {
      UnlistedNoMatches(ds[..|ds| - 1], radius, metres);
    }
  }

  /** GET /api/donations/nearby over the donations table. */
  function NearbyDonations(ds: seq<Donation>, userLat: Option<real>, userLon: Option<real>,
                           radius: Radius, metres: (real, real) -> nat)
    : (r: Result<seq<Located>, NearbyError>)
    // The request is refused when either coordinate is 0 or not a number.
    ensures r.Failure? <==> !NonZero(userLat) || !NonZero(userLon)
    // Nearest first.
    ensures r.Success? ==> SortedByKey(r.value)
    // Exactly the verified, approved rows within the radius or without a
    // distance come back, each as often as it stands in the table.
    ensures r.Success? ==> multiset(r.value) == multiset(Matches(ds, radius, metres))
    ensures r.Success? ==> forall x :: x in r.value <==>
              exists i :: 0 <= i < |ds| && Listed(ds[i]) && x == Attach(ds[i], metres) && Keep(x, radius)
    ensures r.Success? ==> |r.value| <= |ds|
  {
    if !NonZero(userLat) || !NonZero(userLon) then Failure(CoordinatesRequired)
    else
      var sorted := SortByKey(KeepAll(AttachAll(Selected(ds), metres), radius));
      PipelineMatches(ds, radius, metres);
      MatchesMembers(ds, radius, metres);
      assert forall x :: x in sorted <==> x in Matches(ds, radius, metres) by {
        forall x ensures x in sorted <==> x in Matches(ds, radius, metres) {
          assert x in sorted <==> x in multiset(sorted);
        }
      }
      assert |sorted| == |multiset(sorted)|;
      Success(sorted)
  }

  lemma AttachAllAppend(a: seq<Donation>, b: seq<Donation>, metres: (real, real) -> nat)
    ensures AttachAll(a + b, metres) == AttachAll(a, metres) + AttachAll(b, metres)
  {
  }

  lemma {:induction false} KeepAllAppend(a: seq<Located>, b: seq<Located>, radius: Radius)
    ensures KeepAll(a + b, radius) == KeepAll(a, radius) + KeepAll(b, radius)
  {
    if a != [] {
      assert (a + b)[1..] == a[1..] + b;
      KeepAllAppend(a[1..], b, radius);
    } else {
      assert a + b == b;
    }
  }

  /** Selecting newest first, attaching distances and filtering keeps the
      same rows, as often, as the reference in table order. */
  lemma {:induction false} PipelineMatches(ds: seq<Donation>, radius: Radius, metres: (real, real) -> nat)
    ensures multiset(KeepAll(AttachAll(Selected(ds), metres), radius)) == multiset(Matches(ds, radius, metres))
  {
    if ds != [] {
      var n := |ds| - 1;
      var x := Attach(ds[n], metres);
      var newest := if Listed(ds[n]) && Keep(x, radius) then [x] else [];
      var olderKept := KeepAll(AttachAll(Selected(ds[..n]), metres), radius);
      PipelineStep(ds, radius, metres);
      PipelineMatches(ds[..n], radius, metres);
      assert multiset(newest + olderKept) == multiset(newest) + multiset(olderKept);
    }
  }

  /** One step of that: the newest row, then the older ones. */
  lemma PipelineStep(ds: seq<Donation>, radius: Radius, metres: (real, real) -> nat)
    requires ds != []
    ensures var n := |ds| - 1;
            var x := Attach(ds[n], metres);
            KeepAll(AttachAll(Selected(ds), metres), radius)
            == (if Listed(ds[n]) && Keep(x, radius) then [x] else [])
               + KeepAll(AttachAll(Selected(ds[..n]), metres), radius)
  {
    var n := |ds| - 1;
    var older := Selected(ds[..n]);
    var head: seq<Donation> := if Listed(ds[n]) then [ds[n]] else [];
    assert Selected(ds) == head + older;
    AttachAllAppend(head, older, metres);
    KeepAllAppend(AttachAll(head, metres), AttachAll(older, metres), radius);
    NewestRow(ds[n], radius, metres);
  }

  /** The newest row alone, through the attach and filter steps. */
  lemma NewestRow(d: Donation, radius: Radius, metres: (real, real) -> nat)
    ensures var x := Attach(d, metres);
            KeepAll(AttachAll(if Listed(d) then [d] else [], metres), radius)
            == if Listed(d) && Keep(x, radius) then [x] else []
  {
    var x := Attach(d, metres);
    if Listed(d) {
      assert AttachAll([d], metres) == [x];
      assert KeepAll([x], radius) == (if Keep(x, radius) then [x] else []) + KeepAll([], radius);
    } else {
      assert AttachAll([], metres) == [];
    }
  }

  /** The listed rows in table order, read from the front. */
  function ListedInOrder(ds: seq<Donation>): (r: seq<Donation>)
    ensures |r| <= |ds|
  {
    if ds == [] then []
    else (if Listed(ds[0]) then [ds[0]] else []) + ListedInOrder(ds[1..])
  }

  function Reverse<T>(s: seq<T>): (r: seq<T>)
    ensures |r| == |s|
    ensures forall k :: 0 <= k < |s| ==> r[k] == s[|s| - 1 - k]
  {
    seq(|s|, k requires 0 <= k < |s| => s[|s| - 1 - k])
  }

  lemma {:induction false} ListedInOrderAppend(ds: seq<Donation>, d: Donation)
    ensures ListedInOrder(ds + [d]) == ListedInOrder(ds) + (if Listed(d) then [d] else [])
  {
    if ds == [] {
      assert [] + [d] == [d];
      assert [d][1..] == [];
    } else {
      assert (ds + [d])[0] == ds[0];
      assert (ds + [d])[1..] == ds[1..] + [d];
      ListedInOrderAppend(ds[1..], d);
    }
  }

  /** Newest first: the query returns the listed rows in reverse table
      order, so of two listed rows the one inserted later comes first. */
  lemma {:induction false} SelectedIsReversedListing(ds: seq<Donation>)
    ensures Selected(ds) == Reverse(ListedInOrder(ds))
  {
    if ds != [] {
      var n := |ds| - 1;
      assert ds == ds[..n] + [ds[n]];
      ListedInOrderAppend(ds[..n], ds[n]);
      SelectedIsReversedListing(ds[..n]);
      var before := ListedInOrder(ds[..n]);
      if Listed(ds[n]) {
        assert Reverse(before + [ds[n]]) == [ds[n]] + Reverse(before);
      } else {
        assert before + [] == before;
      }
    }
  }

  /** The radius is inclusive: a row exactly on it is kept. */
  lemma RadiusIsInclusive(d: Donation, metres: (real, real) -> nat, km: real)
    requires NonZero(d.latitude) && NonZero(d.longitude)
    requires DistanceKm(metres(d.latitude.value, d.longitude.value)) == km
    ensures Keep(Attach(d, metres), Radius(km))
  {
  }

  /** Beyond the radius a row with coordinates is dropped, and with a radius
      that is not a number every row with a non-zero distance is. */
  lemma FarRowsAreDropped(d: Donation, metres: (real, real) -> nat, radius: Radius)
    requires NonZero(d.latitude) && NonZero(d.longitude)
    requires DistanceKm(metres(d.latitude.value, d.longitude.value)) > 0.0
    requires radius.Radius? ==> DistanceKm(metres(d.latitude.value, d.longitude.value)) > radius.km
    ensures !Keep(Attach(d, metres), radius)
  {
  }

  /** A row whose latitude or longitude is 0 (or missing) gets no distance,
      sorts as if at distance 0, and is kept whatever the radius. */
  lemma ZeroCoordinateRowIsAlwaysKept(d: Donation, metres: (real, real) -> nat, radius: Radius)
    requires !NonZero(d.latitude) || !NonZero(d.longitude)
    ensures Attach(d, metres).distance.None?
    ensures Key(Attach(d, metres)) == 0.0 && Keep(Attach(d, metres), radius)
  {
  }

  /** A caller on the equator or on the prime meridian is refused: a parsed
      latitude or longitude of 0 counts as missing. */
  lemma ZeroCoordinateRequestIsRefused(ds: seq<Donation>, userLat: real, userLon: real,
                                       radius: Radius, metres: (real, real) -> nat)
    requires userLat == 0.0 || userLon == 0.0
    ensures NearbyDonations(ds, Some(userLat), Some(userLon), radius, metres) == Failure(CoordinatesRequired)
  {
  }

  /** Without an approved donation the list is empty. */
  lemma NothingApprovedNothingNearby(ds: seq<Donation>, userLat: Option<real>, userLon: Option<real>,
                                     radius: Radius, metres: (real, real) -> nat)
    requires forall i :: 0 <= i < |ds| ==> ds[i].status != Approved
    ensures var r := NearbyDonations(ds, userLat, userLon, radius, metres);
            r.Success? ==> r.value == []
  {
    UnlistedNoMatches(ds, radius, metres);
  }

  /** From empty tables, whatever the handlers are asked, the nearby list is
      always empty. */
  lemma NearbyAlwaysEmpty(reqs: seq<Request>, userLat: Option<real>, userLon: Option<real>,
                          radius: Radius, metres: (real, real) -> nat)
    ensures var r := NearbyDonations(Replay(Db([], []), reqs).donations, userLat, userLon, radius, metres);
            r.Success? ==> r.value == []
  {
    NothingIsEverApproved(Db([], []), reqs);
    NothingApprovedNothingNearby(Replay(Db([], []), reqs).donations, userLat, userLon, radius, metres);
  }
}
