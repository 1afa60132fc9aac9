/** The one-shot location lookup: a permission gate, one request to the platform's
    location service, and exactly one of two callbacks. */
module CurrentLocation {
  import opened Text

  /** A fix as the platform renders its latitude and longitude; the rendering of
      the floating-point coordinates is outside this model. */
  datatype Fix = Fix(latitude: string, longitude: string)

  /** How the platform's request ends: a fix, success without a fix, or failure. */
  datatype Outcome = Located(fix: Fix) | NoFix | Failed(message: Option<string>)

  datatype Callback = OnLocationReady(latLon: string) | OnError(message: string)

  /** Whether the platform was asked, and the one callback that fired. */
  datatype Lookup = Lookup(requested: bool, callback: Callback)

  const PermissionRequired := "Location permission required"
  const NoLocation := "Unable to get location"
  const FailurePrefix := "Location error: "

  /** Without fine or coarse permission nothing is asked and the error names the
      missing permission; with either one the platform is asked, and its answer
      decides the callback: a fix gives "<latitude>,<longitude>", no fix or a
      failure gives an error. */
  function GetCurrentLocation(fineGranted: bool, coarseGranted: bool, outcome: Outcome): (r: Lookup)
    ensures r.requested <==> fineGranted || coarseGranted
    ensures !r.requested ==> r.callback == OnError(PermissionRequired)
    ensures r.callback.OnLocationReady? <==> r.requested && outcome.Located?
    ensures r.callback.OnLocationReady? ==>
      r.callback.latLon == outcome.fix.latitude + "," + outcome.fix.longitude
    ensures r.requested && outcome.NoFix? ==> r.callback == OnError(NoLocation)
    ensures r.requested && outcome.Failed? ==> r.callback == OnError(FailurePrefix + Render(outcome.message))
  {
    if !fineGranted && !coarseGranted then Lookup(false, OnError(PermissionRequired))
    else
      match outcome
      case Located(fix) => Lookup(true, OnLocationReady(fix.latitude + "," + fix.longitude))
      case NoFix => Lookup(true, OnError(NoLocation))
      case Failed(message) => Lookup(true, OnError(FailurePrefix + Render(message)))
  }

  /** Either permission alone is enough, and holding both changes nothing. */
  lemma EitherPermissionSuffices(outcome: Outcome)
    ensures GetCurrentLocation(true, false, outcome) == GetCurrentLocation(false, true, outcome)
    ensures GetCurrentLocation(true, true, outcome) == GetCurrentLocation(true, false, outcome)
  {
  }

  /** The coordinates string has a single separator: a latitude rendering, which
      never contains a comma, and the longitude come back from it intact. */
  lemma LatLonRoundTrip(fix: Fix)
    requires ',' !in fix.latitude
    ensures Cut(GetCurrentLocation(true, false, Located(fix)).callback.latLon, ",") ==
      Some((fix.latitude, fix.longitude))
  {
    CutJoin(fix.latitude, ",", fix.longitude);
  }

  /** The three error messages are told apart by their text: the missing
      permission, the missing fix, and a platform failure (which starts with
      its own prefix). */
  lemma ErrorsDistinguishable(message: Option<string>)
    ensures PermissionRequired != NoLocation
    ensures !StartsWith(PermissionRequired, FailurePrefix)
    ensures !StartsWith(NoLocation, FailurePrefix)
    ensures StartsWith(FailurePrefix + Render(message), FailurePrefix)
  {
    assert PermissionRequired[0] != NoLocation[0];
    assert PermissionRequired[..|FailurePrefix|][9] != FailurePrefix[9];
    assert NoLocation[..|FailurePrefix|][0] != FailurePrefix[0];
    assert (FailurePrefix + Render(message))[..|FailurePrefix|] == FailurePrefix;
  }
}
