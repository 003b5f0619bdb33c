// user-profile.js: profile completeness, the setup steps, the age check and the display
// helpers of `UserProfileManager`. A profile is the submitted form; every text field
// that was not filled in is the empty string, which JavaScript treats as falsy.

module UserProfile {
  import opened Common

  /** A calendar day; `month` runs 1..12. */
  datatype Date = Date(year: int, month: int, day: int)

  /** `userData`. `birthDate` is what `new Date(dateOfBirth)` yields: `None` for a date that
      does not parse (an Invalid Date, whose year is NaN). */
  datatype Profile = Profile(
    firstName: string, lastName: string, email: string, dateOfBirth: string,
    phoneNumber: string, address: string, city: string, state: string, zipCode: string,
    country: string, paymentMethod: string, termsAccepted: bool, privacyAccepted: bool,
    birthDate: Option<Date>)

  /** The keys of `userData` the checks look at. */
  datatype FieldName =
    | FirstName | LastName | Email | DateOfBirth | PhoneNumber | Address | City | State
    | ZipCode | Country | PaymentMethod | TermsAccepted | PrivacyAccepted

  /** `this.requiredFields`. */
  const RequiredFields: seq<FieldName> :=
    [FirstName, LastName, Email, DateOfBirth, PhoneNumber, Address, City, State, ZipCode, Country]

  /** `!!userData[field]`: a text field is truthy when not empty. */
  predicate Filled(u: Profile, name: FieldName) {
    match name
    case FirstName => u.firstName != ""
    case LastName => u.lastName != ""
    case Email => u.email != ""
    case DateOfBirth => u.dateOfBirth != ""
    case PhoneNumber => u.phoneNumber != ""
    case Address => u.address != ""
    case City => u.city != ""
    case State => u.state != ""
    case ZipCode => u.zipCode != ""
    case Country => u.country != ""
    case PaymentMethod => u.paymentMethod != ""
    case TermsAccepted => u.termsAccepted
    case PrivacyAccepted => u.privacyAccepted
  }

  /** `fields.filter(field => !userData[field])`. */
  function MissingOf(u: Profile, fields: seq<FieldName>): (missing: seq<FieldName>)
    ensures |missing| <= |fields|
    ensures forall f :: f in missing <==> f in fields && !Filled(u, f)
  {
    if fields == [] then []
    else
      var rest := MissingOf(u, fields[1..]);
      assert forall f :: f in fields <==> f == fields[0] || f in fields[1..];
      if !Filled(u, fields[0]) then [fields[0]] + rest else rest
  }

  /** `fields.every(field => userData[field])`. */
  predicate AllFilled(u: Profile, fields: seq<FieldName>) {
    forall i :: 0 <= i < |fields| ==> Filled(u, fields[i])
  }

  datatype Validation = Validation(valid: bool, missing: seq<FieldName>, completeness: int)

  /** `validateProfile`. The completeness percentage `Math.round((10 - m) / 10 * 100)` is
      the whole number `10 * (10 - m)`. */
  function ValidateProfile(u: Profile): (v: Validation)
    ensures forall f :: f in v.missing <==> f in RequiredFields && !Filled(u, f)
    ensures v.valid <==> v.missing == []
    ensures v.completeness == 10 * (10 - |v.missing|)
    ensures 0 <= v.completeness <= 100
  {
    var missing := MissingOf(u, RequiredFields);
    Validation(missing == [], missing, 10 * (|RequiredFields| - |missing|))
  }

  /** The filter keeps the fields' order: the missing list is the required list with the
      filled fields taken out. */
  lemma {:induction false} MissingInOrder(u: Profile, fields: seq<FieldName>)
    ensures IsSubsequence(MissingOf(u, fields), fields)
  {
    if fields != [] {
      MissingInOrder(u, fields[1..]);
      var rest := MissingOf(u, fields[1..]);
      if !Filled(u, fields[0]) {
        assert ([fields[0]] + rest)[1..] == rest;
      }
    }
  }

  /** `a` is `b` with some elements dropped and the rest in the same order. */
  predicate IsSubsequence(a: seq<FieldName>, b: seq<FieldName>)
    decreases |b|
  {
    if a == [] then true
    else if b == [] then false
    else if a[0] == b[0] then IsSubsequence(a[1..], b[1..])
    else IsSubsequence(a, b[1..])
  }

  /** A profile misses nothing exactly when every required field is filled. */
  lemma {:induction false} MissingEmptyIffAllFilled(u: Profile, fields: seq<FieldName>)
    ensures MissingOf(u, fields) == [] <==> AllFilled(u, fields)
  {
    if fields != [] {
      MissingEmptyIffAllFilled(u, fields[1..]);
      assert AllFilled(u, fields) <==> Filled(u, fields[0]) && AllFilled(u, fields[1..]) by {
        assert forall i :: 1 <= i < |fields| ==> fields[i] == fields[1..][i - 1];
      }
    }
  }

  // ---- age ----

  /** `today` falls before this year's birthday: the month is earlier, or it is the same
      month and the day is earlier. */
  predicate BeforeBirthday(today: Date, birth: Date) {
    today.month - birth.month < 0 || (today.month - birth.month == 0 && today.day < birth.day)
  }

  /** `calculateAge`: the year difference, one less while this year's birthday is still
      ahead. */
  function CalculateAge(today: Date, birth: Date): (age: int)
    ensures BeforeBirthday(today, birth) ==> age == today.year - birth.year - 1
    ensures !BeforeBirthday(today, birth) ==> age == today.year - birth.year
  {
    var age := today.year - birth.year;
    if BeforeBirthday(today, birth) then age - 1 else age
  }

  /** `verifyAge`: an unparsable date compares NaN and fails. */
  function VerifyAge(today: Date, birth: Option<Date>): (ok: bool)
    ensures ok <==> birth.Some? && CalculateAge(today, birth.value) >= 18
  {
    match birth
    case None => false
    case Some(b) =>
      var age := today.year - b.year;
      if BeforeBirthday(today, b) then age - 1 >= 18 else age >= 18
  }

  /** Calendar order on days. */
  predicate OnOrBefore(a: Date, b: Date) {
    a.year < b.year || (a.year == b.year && (a.month < b.month || (a.month == b.month && a.day <= b.day)))
  }

  /** The `n`th birthday. */
  function Anniversary(birth: Date, n: int): Date {
    Date(birth.year + n, birth.month, birth.day)
  }

  /** The age is the number of birthdays that have come: the `age`th birthday is on or
      before today and the next one after it. */
  lemma AgeCountsBirthdays(today: Date, birth: Date)
    ensures OnOrBefore(Anniversary(birth, CalculateAge(today, birth)), today)
    ensures !OnOrBefore(Anniversary(birth, CalculateAge(today, birth) + 1), today)
  {
  }

  /** The age is the largest `n` whose birthday has come. */
  lemma AgeIsLargest(today: Date, birth: Date, n: int)
    requires OnOrBefore(Anniversary(birth, n), today)
    ensures n <= CalculateAge(today, birth)
  {
  }

  /** Adulthood is the eighteenth birthday having come. */
  lemma AdultIffEighteenthBirthday(today: Date, birth: Date)
    ensures VerifyAge(today, Some(birth)) <==> OnOrBefore(Anniversary(birth, 18), today)
  {
    AgeCountsBirthdays(today, birth);
    if OnOrBefore(Anniversary(birth, 18), today) {
      AgeIsLargest(today, birth, 18);
    }
  }

  // ---- display ----

  /** `formatLocation`. */
  function FormatLocation(u: Profile): (r: string) {
    if u.city != "" && u.state != "" then u.city + ", " + u.state
    else if u.city != "" then u.city
    else if u.country != "" then u.country
    else "Not provided"
  }

  /** The location line is never empty, leads with the city when there is one, names the
      country only without a city, and falls back to "Not provided" with neither. */
  lemma FormatLocationPriority(u: Profile)
    ensures FormatLocation(u) != ""
    ensures u.city != "" ==> FormatLocation(u)[..|u.city|] == u.city
    ensures u.city != "" && u.state != "" ==> FormatLocation(u)[|u.city|..] == ", " + u.state
    ensures u.city != "" && u.state == "" ==> FormatLocation(u) == u.city
    ensures u.city == "" && u.country != "" ==> FormatLocation(u) == u.country
    ensures u.city == "" && u.country == "" ==> FormatLocation(u) == "Not provided"
  {
    if u.city != "" && u.state != "" {
      assert (u.city + ", " + u.state)[..|u.city|] == u.city;
      assert (u.city + ", " + u.state)[|u.city|..] == ", " + u.state;
    }
  }

  datatype VerificationStatus = VerificationStatus(email: bool, age: bool, phone: bool, address: bool)

  /** `birthDate` is the parse of `dateOfBirth`: an empty date of birth (or a missing one) is
      an Invalid Date. */
  predicate DateParsed(u: Profile) {
    u.dateOfBirth == "" ==> u.birthDate.None?
  }

  /** `getVerificationStatus`. */
  function GetVerificationStatus(today: Date, u: Profile): (s: VerificationStatus)
    requires DateParsed(u)
    ensures s.age ==> Filled(u, DateOfBirth)
    ensures s.email <==> Filled(u, Email)
    ensures s.phone <==> Filled(u, PhoneNumber)
    ensures s.address <==> Filled(u, Address) && Filled(u, City) && Filled(u, State)
    ensures s.age <==> u.birthDate.Some? && CalculateAge(today, u.birthDate.value) >= 18
  {
    VerificationStatus(u.email != "", VerifyAge(today, u.birthDate), u.phoneNumber != "",
                       u.address != "" && u.city != "" && u.state != "")
  }

  // ---- setup steps ----

  datatype Step = Step(id: string, fields: seq<FieldName>, completed: bool)

  const PersonalFields: seq<FieldName> := [FirstName, LastName, Email]
  const ContactFields: seq<FieldName> := [PhoneNumber, Address, City, State, ZipCode, Country]

  /** `getProfileSteps`: the five steps in their fixed order; only their truthiness of
      `completed` is kept. */
  function ProfileSteps(today: Date, u: Profile): (steps: seq<Step>)
    ensures |steps| == 5
    ensures steps[0].id == "personal" && steps[1].id == "verification" && steps[2].id == "contact"
            && steps[3].id == "payment" && steps[4].id == "terms"
  {
    [Step("personal", PersonalFields, AllFilled(u, PersonalFields)),
     Step("verification", [DateOfBirth], u.dateOfBirth != "" && VerifyAge(today, u.birthDate)),
     Step("contact", ContactFields, AllFilled(u, ContactFields)),
     Step("payment", [PaymentMethod], u.paymentMethod != ""),
     Step("terms", [TermsAccepted, PrivacyAccepted], u.termsAccepted && u.privacyAccepted)]
  }

  /** `steps.find(step => !step.completed) || steps[steps.length - 1]`, as an index. */
  function CurrentStep(steps: seq<Step>): (i: int)
    requires steps != []
    ensures 0 <= i < |steps|
    ensures forall j :: 0 <= j < i ==> steps[j].completed
    ensures !steps[i].completed || (i == |steps| - 1 && forall j :: 0 <= j < |steps| ==> steps[j].completed)
  {
    FirstIncomplete(steps, 0)
  }

  function FirstIncomplete(steps: seq<Step>, from: nat): (i: int)
    requires from < |steps| && forall j :: 0 <= j < from ==> steps[j].completed
    ensures from <= i < |steps|
    ensures forall j :: 0 <= j < i ==> steps[j].completed
    ensures !steps[i].completed || (i == |steps| - 1 && forall j :: 0 <= j < |steps| ==> steps[j].completed)
    decreases |steps| - from
  {
    if !steps[from].completed || from == |steps| - 1 then from
    else FirstIncomplete(steps, from + 1)
  }

  /** The setup steps cover the required fields: the personal and contact steps complete and
      a date of birth given is the same as a valid profile; the first three steps are complete
      exactly when the profile is valid and the person is adult. */
  lemma StepsCoverRequiredFields(today: Date, u: Profile)
    ensures var steps := ProfileSteps(today, u);
            steps[0].completed && steps[2].completed && u.dateOfBirth != "" <==> ValidateProfile(u).valid
    ensures var steps := ProfileSteps(today, u);
            steps[0].completed && steps[1].completed && steps[2].completed <==>
              ValidateProfile(u).valid && VerifyAge(today, u.birthDate)
  {
    MissingEmptyIffAllFilled(u, RequiredFields);
    RequiredSplit(u);
    var steps := ProfileSteps(today, u);
    assert steps[0].completed == AllFilled(u, PersonalFields);
    assert steps[1].completed == (u.dateOfBirth != "" && VerifyAge(today, u.birthDate));
    assert steps[2].completed == AllFilled(u, ContactFields);
  }

  /** The required fields are the personal fields, the date of birth and the contact fields. */
  lemma RequiredSplit(u: Profile)
    ensures AllFilled(u, RequiredFields) <==>
            AllFilled(u, PersonalFields) && u.dateOfBirth != "" && AllFilled(u, ContactFields)
  {
    assert AllFilled(u, PersonalFields) <==> u.firstName != "" && u.lastName != "" && u.email != "" by {
      assert Filled(u, PersonalFields[0]) == (u.firstName != "");
      assert Filled(u, PersonalFields[1]) == (u.lastName != "");
      assert Filled(u, PersonalFields[2]) == (u.email != "");
    }
    assert AllFilled(u, ContactFields) <==>
           u.phoneNumber != "" && u.address != "" && u.city != "" && u.state != "" && u.zipCode != ""
           && u.country != "" by {
      assert Filled(u, ContactFields[0]) == (u.phoneNumber != "");
      assert Filled(u, ContactFields[1]) == (u.address != "");
      assert Filled(u, ContactFields[2]) == (u.city != "");
      assert Filled(u, ContactFields[3]) == (u.state != "");
      assert Filled(u, ContactFields[4]) == (u.zipCode != "");
      assert Filled(u, ContactFields[5]) == (u.country != "");
    }
    assert Filled(u, RequiredFields[0]) == (u.firstName != "");
    assert Filled(u, RequiredFields[1]) == (u.lastName != "");
    assert Filled(u, RequiredFields[2]) == (u.email != "");
    assert Filled(u, RequiredFields[3]) == (u.dateOfBirth != "");
    assert Filled(u, RequiredFields[4]) == (u.phoneNumber != "");
    assert Filled(u, RequiredFields[5]) == (u.address != "");
    assert Filled(u, RequiredFields[6]) == (u.city != "");
    assert Filled(u, RequiredFields[7]) == (u.state != "");
    assert Filled(u, RequiredFields[8]) == (u.zipCode != "");
    assert Filled(u, RequiredFields[9]) == (u.country != "");
  }
}
