// legal-compliance.js: the jurisdiction rule of `isLocationLegal`, the age check of
// `verifyAge` and the decision of the compliance middleware. The geolocation lookup is
// an input: `None` is the `null` it returns when the lookup fails.

module LegalCompliance {
  import opened Common
  import opened JsText
  import opened UserProfile

  /** `this.allowedCountries`. */
  const AllowedCountries: seq<string> :=
    ["US", "CA", "GB", "AU", "NZ", "IE", "SE", "NO", "DK", "FI",
     "DE", "FR", "ES", "IT", "NL", "BE", "AT", "CH", "LU", "MT"]

  /** `this.restrictedStates`: the US states closed to real-money play. */
  const RestrictedStates: seq<string> := ["UT", "HI", "AL", "SC", "TN", "VT", "WA", "ID", "MT", "NV"]

  /** `this.minAge`. */
  const MinAge: int := 18

  /** The part of a geolocation answer the rule reads; a field the answer lacks is "". */
  datatype Location = Location(country: string, state: string, city: string)

  datatype Reason = CountryUnavailable | StateUnavailable

  datatype LocationCheck = LocationCheck(legal: bool, reason: Option<Reason>, location: Location)

  /** Where a failed lookup is taken to be. */
  const DefaultLocation: Location := Location("US", "CA", "San Francisco")

  /** `isLocationLegal` after the lookup: a failed lookup is allowed at the default location;
      the country is checked first, the state only for the US. */
  function IsLocationLegal(lookup: Option<Location>): (c: LocationCheck)
    ensures lookup.None? ==> c == LocationCheck(true, None, DefaultLocation)
    ensures lookup.Some? ==> c.location == lookup.value
    ensures lookup.Some? ==>
              (c.legal <==> lookup.value.country in AllowedCountries
                            && !(lookup.value.country == "US" && lookup.value.state in RestrictedStates))
    ensures c.legal <==> c.reason.None?
  {
    match lookup
    case None => LocationCheck(true, None, DefaultLocation)
    case Some(loc) =>
      if loc.country !in AllowedCountries then LocationCheck(false, Some(CountryUnavailable), loc)
      else if loc.country == "US" && loc.state in RestrictedStates then LocationCheck(false, Some(StateUnavailable), loc)
      else LocationCheck(true, None, loc)
  }

  /** The country check comes first: outside the allowed countries the country is the
      reason, whatever the state says. */
  lemma CountryDecidesFirst(loc: Location)
    requires loc.country !in AllowedCountries
    ensures IsLocationLegal(Some(loc)).reason == Some(CountryUnavailable)
  {
  }

  /** The state list is consulted only for the US: in any other allowed country every state
      is legal, even one whose code is a restricted US state. */
  lemma StatesOnlyMatterInTheUS(loc: Location, state: string)
    requires loc.country in AllowedCountries && loc.country != "US"
    ensures IsLocationLegal(Some(loc)).legal
    ensures IsLocationLegal(Some(loc.(state := state))).legal
  {
  }

  /** A restricted state is refused for the state, and it is the only way a US location is
      refused. */
  lemma RestrictedUSState(loc: Location)
    requires loc.country == "US"
    ensures loc.state in RestrictedStates <==> IsLocationLegal(Some(loc)).reason == Some(StateUnavailable)
    ensures IsLocationLegal(Some(loc)).reason != Some(CountryUnavailable)
  {
    assert "US" in AllowedCountries;
  }

  /** A failed lookup lets everyone in. */
  lemma FailOpen()
    ensures IsLocationLegal(None).legal && IsLocationLegal(None).location.country == "US"
  {
  }

  // ---- age ----

  /** The `verifyAge` result: `age` is `None` for NaN. */
  datatype AgeCheck = AgeCheck(valid: bool, age: Option<int>)

  /** `verifyAge` as written: the `age--` on a `const` throws a TypeError whenever this
      year's birthday is still ahead; an unparsable date gives NaN and fails. */
  function VerifyAgeAsWritten(today: Date, birth: Option<Date>): (r: Result<AgeCheck>)
    ensures birth.Some? && BeforeBirthday(today, birth.value) <==> r.Threw?
  {
    match birth
    case None => Ok(AgeCheck(false, None))
    case Some(b) =>
      var age := today.year - b.year;
      if BeforeBirthday(today, b) then Threw(TypeError("Assignment to constant variable."))
      else Ok(AgeCheck(age >= MinAge, Some(age)))
  }

  /** `verifyAge` with the decrement applied to a mutable age. */
  function VerifyAge(today: Date, birth: Option<Date>): (r: AgeCheck)
    ensures r.valid <==> r.age.Some? && r.age.value >= MinAge
    ensures birth.Some? ==> r.age == Some(CalculateAge(today, birth.value))
    ensures birth.None? ==> r.age.None?
  {
    match birth
    case None => AgeCheck(false, None)
    case Some(b) =>
      var age := today.year - b.year;
      var age' := if BeforeBirthday(today, b) then age - 1 else age;
      AgeCheck(age' >= MinAge, Some(age'))
  }

  /** The as-written check fails to decide on people whose birthday is still to come this
      year: someone who turned 30 last year gets an exception, not a pass. The corrected
      check agrees with the profile's age check everywhere, and with the as-written one
      wherever that returns. */
  lemma VerifyAgeFinding(today: Date, birth: Option<Date>)
    ensures VerifyAge(today, birth).valid == UserProfile.VerifyAge(today, birth)
    ensures VerifyAgeAsWritten(today, birth).Ok? ==> VerifyAgeAsWritten(today, birth).value == VerifyAge(today, birth)
    ensures var b := Date(today.year - 31, if today.month == 12 then 12 else today.month + 1, 1);
            today.month < 12 ==> VerifyAgeAsWritten(today, Some(b)).Threw? && VerifyAge(today, Some(b)).valid
  {
  }

  // ---- middleware ----

  /** Paths the middleware waves through without a location check. */
  predicate SkipsCheck(path: string) {
    path == "/health" || StartsWith(path, "/static/") || path == "/" || StartsWith(path, "/api/")
  }

  datatype Decision = Proceed(userLocation: Option<Location>) | Forbidden(reason: Option<Reason>, location: Location)

  /** The compliance middleware: skipped paths go on untouched; otherwise a legal location
      goes on with the location attached, and an illegal one is answered 403. */
  function Middleware(path: string, lookup: Option<Location>): (d: Decision)
    ensures d.Forbidden? <==> !SkipsCheck(path) && !IsLocationLegal(lookup).legal
    ensures SkipsCheck(path) ==> d == Proceed(None)
    ensures d.Forbidden? ==> lookup.Some? && d.location == lookup.value && d.reason.Some?
    ensures d.Forbidden? ==> d.reason == IsLocationLegal(lookup).reason
    ensures !SkipsCheck(path) && d.Proceed? ==>
              d.userLocation == Some(if lookup.Some? then lookup.value else DefaultLocation)
  {
    if SkipsCheck(path) then Proceed(None)
    else
      var check := IsLocationLegal(lookup);
      if !check.legal then Forbidden(check.reason, check.location)
      else Proceed(Some(check.location))
  }

  /** Everything below `/api/` and `/static/` is exempt, whatever follows the prefix. */
  lemma ExemptPrefixes(rest: string)
    ensures SkipsCheck("/api/" + rest) && SkipsCheck("/static/" + rest)
  {
    assert ("/api/" + rest)[..5] == "/api/";
    assert ("/static/" + rest)[..8] == "/static/";
  }
}
