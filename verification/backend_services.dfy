/** The back end's user-facing endpoints: sign-up and log-in by e-mail
    domain, the centre search (by city or state text, or the nearest five to
    a position), the list of services and their document checklists. */
module BackendServices {
  import opened Wrappers
  import opened Text
  import opened Seqs

  // ---------------------------------------------------------------- sign-up and log-in

  /** The JSON reply of `/signup` and `/login`. */
  datatype Reply = Reply(success: bool, message: string, role: Option<string>)

  /** The only e-mail domain admitted for administrators. */
  const AdminDomain: string := "@uidai.gov.in"

  /** `signup`: an administrator account needs an address in the official
      domain; any other account type is accepted as it is. */
  function Signup(accountType: string, email: string): (r: Reply)
    ensures !r.success <==> accountType == "admin" && !EndsWith(email, AdminDomain)
    ensures r.role.None?
  {
    if accountType == "admin" && !EndsWith(email, AdminDomain) then
      Reply(false, "Admin signup restricted to @uidai.gov.in", None)
    else
      Reply(true, "Account created successfully! Please login.", None)
  }

  /** `login`: an administrator gets in exactly with an address in the
      official domain, a user always gets in, and no other account type
      does; a successful log-in carries the account type as its role. */
  function Login(accountType: string, email: string): (r: Reply)
    ensures r.success <==> (accountType == "admin" && EndsWith(email, AdminDomain)) || accountType == "user"
    ensures r.success ==> r.role == Some(accountType)
    ensures !r.success ==> r.role.None?
  {
    if accountType == "admin" then
      if EndsWith(email, AdminDomain) then Reply(true, "Admin Login Successful", Some("admin"))
      else Reply(false, "Access Denied: UIDAI Officials Only", None)
    else if accountType == "user" then Reply(true, "User Login Successful", Some("user"))
    else Reply(false, "Invalid login type", None)
  }

  /** Whoever may sign up as an administrator or a user may then log in with
      the same type and address, and the other way round. */
  lemma SignupThenLogin(accountType: string, email: string)
    requires accountType == "admin" || accountType == "user"
    ensures Signup(accountType, email).success <==> Login(accountType, email).success
  {}

  /** Any other account type is accepted at sign-up but never logs in. */
  lemma OtherTypesLockedOut(accountType: string, email: string)
    requires accountType != "admin" && accountType != "user"
    ensures Signup(accountType, email).success
    ensures Login(accountType, email) == Reply(false, "Invalid login type", None)
  {}

  /** The domain test looks at the end of the address only and does not fold
      letter case, so an upper-case domain is turned away. */
  lemma AdminDomainIsCaseSensitive()
    ensures !Login("admin", "officer@UIDAI.GOV.IN").success
    ensures Login("admin", "officer@uidai.gov.in").success
  {
    assert "officer@UIDAI.GOV.IN"[7..] != AdminDomain by {
      assert "officer@UIDAI.GOV.IN"[8] == 'U';
    }
    assert "officer@uidai.gov.in"[7..] == AdminDomain;
  }

  // ---------------------------------------------------------------- the centre search

  /** A centre of `AADHAR_CENTRES`; its position enters only through the
      distance a caller supplies. */
  datatype Centre = Centre(id: int, name: string, address: string, city: string, state: string)

  /** A centre as returned: the copied record, with its `distance` once one
      has been attached. Distances are in hundredths of a kilometre, the
      precision `round(..., 2)` leaves. */
  datatype Located = Located(centre: Centre, distance: Option<nat>)

  /** The text search keeps a centre whose lower-cased city or state contains
      the query. */
  function MatchesQuery(query: string): Centre -> bool {
    (c: Centre) => Contains(Lower(c.city), query) || Contains(Lower(c.state), query)
  }

  /** The copies of the centres, with no distance yet. */
  function Copies(centres: seq<Centre>): (r: seq<Located>)
    ensures |r| == |centres| && forall i :: 0 <= i < |r| ==> r[i] == Located(centres[i], None)
  {
    seq(|centres|, i requires 0 <= i < |centres| => Located(centres[i], None))
  }

  /** The `city` branch: the centres matching the lower-cased, stripped query,
      in their original order. */
  function SearchByText(centres: seq<Centre>, city: string): seq<Located> {
    var query := Trim(Lower(city));
    Copies(Filter(centres, MatchesQuery(query)))
  }

  /** The text search returns, in order, exactly the centres whose lower-cased
      city or state contains the query, whatever its case or surrounding
      whitespace. */
  lemma SearchByTextMeans(centres: seq<Centre>, city: string)
    ensures var r := SearchByText(centres, city);
            && (forall x :: x in r ==> x.distance.None?)
            && (forall c :: (exists x :: x in r && x.centre == c) <==>
                 c in centres && (Contains(Lower(c.city), Trim(Lower(city))) || Contains(Lower(c.state), Trim(Lower(city)))))
            && |r| == Count(centres, MatchesQuery(Trim(Lower(city))))
            && forall b :: 0 <= b <= |centres| ==> Copies(Filter(centres[..b], MatchesQuery(Trim(Lower(city))))) <= r
  {
    var kept := Filter(centres, MatchesQuery(Trim(Lower(city))));
    var r := SearchByText(centres, city);
    FilterPrefixes(centres, MatchesQuery(Trim(Lower(city))));
    forall b | 0 <= b <= |centres|
      ensures Copies(Filter(centres[..b], MatchesQuery(Trim(Lower(city))))) <= r
    {
      CopiesPrefix(Filter(centres[..b], MatchesQuery(Trim(Lower(city)))), kept);
    }
    forall c ensures (exists x :: x in r && x.centre == c) <==> c in kept {
      if c in kept {
        var i :| 0 <= i < |kept| && kept[i] == c;
        assert r[i] in r;
      }
    }
  }

  /** Copying keeps prefixes. */
  lemma CopiesPrefix(a: seq<Centre>, b: seq<Centre>)
    requires a <= b
    ensures Copies(a) <= Copies(b)
  {}

  /** A query of only whitespace matches every centre. */
  lemma BlankQueryKeepsAll(centres: seq<Centre>, city: string)
    requires Blank(city)
    ensures SearchByText(centres, city) == Copies(centres)
  {
    LowerKeepsBlank(city);
    TrimEmptyIffBlank(Lower(city));
    forall c ensures MatchesQuery("")(c) {
      EmptyIsContained(Lower(c.city));
    }
    FilterKeepsAll(centres, MatchesQuery(""));
  }

  /** Order by attached distance; a centre without one counts as distance 0,
      which never happens after the distances are attached. */
  predicate Nearer(a: Located, b: Located) {
    a.distance.GetOr(0) <= b.distance.GetOr(0)
  }

  lemma NearerIsTotalPreorder()
    ensures TotalPreorder(Nearer)
  {}

  /** Each copy with its distance attached. */
  function Measured(centres: seq<Centre>, distanceTo: Centre -> nat): (r: seq<Located>)
    ensures |r| == |centres|
    ensures forall i :: 0 <= i < |r| ==> r[i] == Located(centres[i], Some(distanceTo(centres[i])))
  {
    seq(|centres|, i requires 0 <= i < |centres| => Located(centres[i], Some(distanceTo(centres[i]))))
  }

  /** The geographic branch: every copy gets its distance, the list is
      sorted by distance, stably, and the first five are returned. */
  method Nearest(centres: seq<Centre>, distanceTo: Centre -> nat) returns (top: seq<Located>)
    ensures top == Sort(Measured(centres, distanceTo), Nearer)[..Min(5, |centres|)]
  {
    var results := Copies(centres);
    var i := 0;
    while i < |results|
      invariant i <= |results| == |centres|
      invariant forall j :: 0 <= j < i ==> results[j] == Located(centres[j], Some(distanceTo(centres[j])))
      invariant forall j :: i <= j < |results| ==> results[j] == Located(centres[j], None)
    {
      results := results[i := results[i].(distance := Some(distanceTo(results[i].centre)))];
      i := i + 1;
    }
    assert results == Measured(centres, distanceTo);
    results := Sort(results, Nearer);
    top := results[..Min(5, |results|)];
  }

  function Min(a: int, b: int): int {
    if a <= b then a else b
  }

  /** What is left of a list after its first `n` entries. */
  lemma RestOfPrefix<T>(s: seq<T>, n: nat, y: T)
    requires n <= |s| && y in multiset(s) - multiset(s[..n])
    ensures exists j :: n <= j < |s| && s[j] == y
  {
    assert s == s[..n] + s[n..];
    assert multiset(s) == multiset(s[..n]) + multiset(s[n..]);
    assert y in s[n..];
    var j :| 0 <= j < |s[n..]| && s[n..][j] == y;
    assert s[n + j] == y;
  }

  /** The first `n` of a list sorted by distance: in order, and no farther
      than anything after them. */
  lemma SortedPrefix(sorted: seq<Located>, n: nat)
    requires n <= |sorted| && Sorted(sorted, Nearer)
    ensures forall i, j :: 0 <= i < j < n ==> Nearer(sorted[..n][i], sorted[..n][j])
    ensures forall x, y :: x in sorted[..n] && y in multiset(sorted) - multiset(sorted[..n]) ==> Nearer(x, y)
  {
    forall x, y | x in sorted[..n] && y in multiset(sorted) - multiset(sorted[..n]) ensures Nearer(x, y) {
      RestOfPrefix(sorted, n, y);
      var i :| 0 <= i < n && sorted[..n][i] == x;
      var j :| n <= j < |sorted| && sorted[j] == y;
      assert sorted[i] == x;
    }
  }

  /** Every measured entry is a centre of the list with its own distance. */
  lemma MeasuredEntries(centres: seq<Centre>, distanceTo: Centre -> nat, x: Located)
    requires x in multiset(Measured(centres, distanceTo))
    ensures x.centre in centres && x.distance == Some(distanceTo(x.centre))
  {
    var all := Measured(centres, distanceTo);
    assert x in all;
    var i :| 0 <= i < |all| && all[i] == x;
  }

  /** At most five centres come back, as many as there are up to five, each
      a centre of the list with its own distance, in non-decreasing distance;
      every centre left out is at least as far as every one returned. */
  lemma NearestMeans(centres: seq<Centre>, distanceTo: Centre -> nat)
    ensures var all := Measured(centres, distanceTo);
            var top := Sort(all, Nearer)[..Min(5, |centres|)];
            && |top| == Min(5, |centres|)
            && (forall x :: x in top ==> x.centre in centres && x.distance == Some(distanceTo(x.centre)))
            && (forall i, j :: 0 <= i < j < |top| ==> Nearer(top[i], top[j]))
            && multiset(top) <= multiset(all)
            && (forall x, y :: x in top && y in multiset(all) - multiset(top) ==> Nearer(x, y))
  {
    var all := Measured(centres, distanceTo);
    var sorted := Sort(all, Nearer);
    var n := Min(5, |centres|);
    NearerIsTotalPreorder();
    SortSorted(all, Nearer);
    SortedPrefix(sorted, n);
    assert sorted == sorted[..n] + sorted[n..];
    assert multiset(sorted) == multiset(sorted[..n]) + multiset(sorted[n..]);
    forall x | x in sorted[..n] ensures x.centre in centres && x.distance == Some(distanceTo(x.centre)) {
      assert x in multiset(sorted);
      MeasuredEntries(centres, distanceTo, x);
    }
  }

  /** `get_centers`: a non-empty `city` selects the text search; otherwise a
      supplied position (a distance for every centre) selects the nearest
      five; otherwise every centre is returned. */
  method GetCenters(centres: seq<Centre>, city: Option<string>, distanceTo: Option<Centre -> nat>)
    returns (results: seq<Located>)
    ensures city.Some? && city.value != "" ==> results == SearchByText(centres, city.value)
    ensures (city.None? || city.value == "") && distanceTo.Some? ==>
              results == Sort(Measured(centres, distanceTo.value), Nearer)[..Min(5, |centres|)]
    ensures (city.None? || city.value == "") && distanceTo.None? ==> results == Copies(centres)
  {
    if city.Some? && city.value != "" {
      results := SearchByText(centres, city.value);
      return;
    }
    if distanceTo.Some? {
      results := Nearest(centres, distanceTo.value);
      return;
    }
    results := Copies(centres);
  }

  // ---------------------------------------------------------------- services and documents

  /** `friendly_names`, in insertion order: service id and display name. */
  const FriendlyNames: seq<(string, string)> := [
    ("new_enrollment", "New Aadhar Enrollment"),
    ("address_update", "Address Update"),
    ("biometric_update", "Biometric Update (Photo/Fingerprint/Iris)"),
    ("mobile_update", "Mobile Number Linking/Update"),
    ("dob_update", "Date of Birth Correction")
  ]

  /** `SERVICE_DOCUMENTS`: the checklist of each service. */
  const ServiceDocuments: map<string, seq<string>> := map[
    "new_enrollment" := [
      "Proof of Identity (POI) - e.g., PAN Card, Passport, Voter ID",
      "Proof of Address (POA) - e.g., Passport, Voter ID, Ration Card",
      "Proof of Date of Birth (DOB) - e.g., Birth Certificate, SSLC Book/Certificate"],
    "address_update" := [
      "Proof of Address (POA) - e.g., Rent Agreement, Passport, Voter ID",
      "Registered Mobile Number (for OTP)"],
    "biometric_update" := [
      "Aadhar Letter/Card (Original)",
      "Proof of Identity (optional based on officer discretion)"],
    "mobile_update" := [
      "Aadhar Card",
      "Physical presence for biometric authentication (Iris/Fingerprint)"],
    "dob_update" := [
      "Proof of Date of Birth (DOB) - e.g., Birth Certificate (Mandatory for name/DOB corection)"]
  ]

  /** A service as listed by `/services`. */
  datatype Service = Service(id: string, name: string)

  /** `get_services`: one entry per friendly name, in order. */
  function Services(): (r: seq<Service>)
    ensures |r| == |FriendlyNames|
    ensures forall i :: 0 <= i < |r| ==> r[i].id == FriendlyNames[i].0 && r[i].name == FriendlyNames[i].1
  {
    seq(|FriendlyNames|, i requires 0 <= i < |FriendlyNames| => Service(FriendlyNames[i].0, FriendlyNames[i].1))
  }

  /** Every listed service has a non-empty checklist, and every checklist
      belongs to a listed service. */
  lemma ServicesHaveDocuments()
    ensures forall s :: s in Services() ==> s.id in ServiceDocuments && |ServiceDocuments[s.id]| >= 1
    ensures forall id :: id in ServiceDocuments ==> exists s :: s in Services() && s.id == id
  {
    var r := Services();
    assert r[0].id == "new_enrollment" && r[1].id == "address_update" && r[2].id == "biometric_update";
    assert r[3].id == "mobile_update" && r[4].id == "dob_update";
    forall id | id in ServiceDocuments ensures exists s :: s in r && s.id == id {
      if id == "new_enrollment" { assert r[0] in r; }
      else if id == "address_update" { assert r[1] in r; }
      else if id == "biometric_update" { assert r[2] in r; }
      else if id == "mobile_update" { assert r[3] in r; }
      else { assert r[4] in r; }
    }
  }

  /** The reply of `/documents`. */
  datatype DocumentsReply =
    | Checklist(serviceId: string, documents: seq<string>)
    | Everything(all: map<string, seq<string>>)

  /** `get_documents`: with a non-empty id, that service's checklist, empty
      for an unknown id; with none, the whole table. */
  function Documents(serviceId: Option<string>): (r: DocumentsReply)
    ensures serviceId.Some? && serviceId.value != "" ==>
              r.Checklist? && r.serviceId == serviceId.value &&
              (serviceId.value in ServiceDocuments ==> r.documents == ServiceDocuments[serviceId.value]) &&
              (serviceId.value !in ServiceDocuments ==> r.documents == [])
    ensures serviceId.None? || serviceId.value == "" ==> r == Everything(ServiceDocuments)
  {
    if serviceId.Some? && serviceId.value != "" then
      Checklist(serviceId.value, if serviceId.value in ServiceDocuments then ServiceDocuments[serviceId.value] else [])
    else Everything(ServiceDocuments)
  }
}
