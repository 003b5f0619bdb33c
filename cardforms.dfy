// payment-forms.js: the card-number check of ISO/IEC 7812-1 (Annex B, the Luhn
// formula) and the two input formatters of the card form.

module CardForms {
  import opened JsText

  predicate AllDigits(s: string) {
    forall i :: 0 <= i < |s| ==> IsDigit(s[i])
  }

  /** `/^\d{13,19}$/`: 13 to 19 ASCII digits and nothing else. */
  predicate CardShaped(s: string) {
    13 <= |s| <= 19 && AllDigits(s)
  }

  /** What one digit adds to the sum: itself, or its double with 9 taken off a two-digit
      double. */
  function Contribution(d: int, doubled: bool): (c: int)
    requires 0 <= d <= 9
    ensures 0 <= c <= 9
    ensures !doubled ==> c == d
    ensures doubled ==> c == (2 * d) % 10 + (2 * d) / 10
  {
    if doubled then (if 2 * d > 9 then 2 * d - 9 else 2 * d) else d
  }

  /** The Luhn sum of a digit string read from the right: the last digit is doubled iff
      `doubleLast`, and the flag alternates leftward. */
  function Luhn(s: string, doubleLast: bool): (n: int)
    requires AllDigits(s)
    ensures 0 <= n <= 9 * |s|
    decreases |s|
  {
    if s == [] then 0
    else Contribution(DigitValue(s[|s| - 1]), doubleLast) + Luhn(s[..|s| - 1], !doubleLast)
  }

  /** A card number passes the check when its whole Luhn sum, rightmost digit undoubled, is
      a multiple of 10. */
  predicate LuhnValid(s: string)
    requires AllDigits(s)
  {
    Luhn(s, false) % 10 == 0
  }

  /** The verdict of `validateCreditCard`: whitespace stripped, then shape and Luhn sum. */
  predicate CardAccepted(cardNumber: string) {
    var cleaned := RemoveSpaces(cardNumber);
    CardShaped(cleaned) && LuhnValid(cleaned)
  }

  /** `validateCreditCard`: the right-to-left loop over the stripped number, doubling every
      second digit. */
  method ValidateCreditCard(cardNumber: string) returns (valid: bool)
    ensures valid == CardAccepted(cardNumber)
    ensures valid ==> 13 <= |RemoveSpaces(cardNumber)| <= 19
  {
    var cleaned := RemoveSpaces(cardNumber);
    if !(13 <= |cleaned| <= 19 && forall k :: 0 <= k < |cleaned| ==> IsDigit(cleaned[k])) {
      return false;
    }
    var sum := 0;
    var isEven := false;
    var i := |cleaned| - 1;
    assert cleaned[..i + 1] == cleaned;
    while i >= 0
      invariant -1 <= i < |cleaned|
      invariant sum + Luhn(cleaned[..i + 1], isEven) == Luhn(cleaned, false)
      invariant 0 <= sum <= 9 * (|cleaned| - 1 - i)
    {
      assert cleaned[..i + 1][..i] == cleaned[..i];
      var digit := DigitValue(cleaned[i]);
      if isEven {
        digit := digit * 2;
        if digit > 9 {
          digit := digit - 9;
        }
      }
      sum := sum + digit;
      isEven := !isEven;
      i := i - 1;
    }
    assert cleaned[..0] == [];
    valid := sum % 10 == 0;
  }

  // ---- properties of the check ----

  lemma PrefixDigits(s: string, k: nat)
    requires AllDigits(s) && k <= |s|
    ensures AllDigits(s[..k]) && AllDigits(s[k..])
  {
    assert forall i :: 0 <= i < k ==> s[..k][i] == s[i];
    assert forall i :: 0 <= i < |s| - k ==> s[k..][i] == s[k + i];
  }

  /** Splitting a number: the left part is read with the doubling flag it has after the
      right part's digits. */
  lemma {:induction false} LuhnAppend(a: string, q: string, b: bool)
    requires AllDigits(a) && AllDigits(q)
    ensures AllDigits(a + q)
    ensures Luhn(a + q, b) == Luhn(q, b) + Luhn(a, if |q| % 2 == 0 then b else !b)
    decreases |q|
  {
    assert forall i :: 0 <= i < |a + q| ==> (a + q)[i] == if i < |a| then a[i] else q[i - |a|];
    if q == [] {
      assert a + q == a;
    } else {
      var q' := q[..|q| - 1];
      PrefixDigits(q, |q| - 1);
      LuhnAppend(a, q', !b);
      assert (a + q)[..|a + q| - 1] == a + q';
      assert (a + q)[|a + q| - 1] == q[|q| - 1];
    }
  }

  /** The check digit a card issuer appends to a payload: the digit that brings the sum with
      the payload's last digit doubled up to a multiple of 10. */
  function CheckDigit(payload: string): (c: char)
    requires AllDigits(payload)
    ensures IsDigit(c)
  {
    var r := Luhn(payload, true) % 10;
    ('0' as int + (10 - r) % 10) as char
  }

  /** Annex B, generation side: every payload followed by its check digit passes the
      check. */
  lemma CheckDigitMakesValid(payload: string)
    requires AllDigits(payload)
    ensures AllDigits(payload + [CheckDigit(payload)])
    ensures LuhnValid(payload + [CheckDigit(payload)])
  {
    var c := CheckDigit(payload);
    LuhnAppend(payload, [c], false);
    assert Luhn([c], false) == DigitValue(c) by {
      assert [c][..0] == [];
    }
  }

  /** The surviving digit sequence decides: whitespace anywhere in the input never changes
      the verdict. */
  lemma {:induction false} WhitespaceIrrelevant(a: string, c: char, b: string)
    requires IsSpace(c)
    ensures CardAccepted(a + [c] + b) == CardAccepted(a + b)
  {
    RemoveSpacesAppend(a + [c], b);
    RemoveSpacesAppend(a, [c]);
    RemoveSpacesAppend(a, b);
    assert [c][1..] == [];
    assert RemoveSpaces([c]) == [];
    assert RemoveSpaces(a + [c] + b) == RemoveSpaces(a + b);
  }

  /** Doubling with 9 taken off keeps distinct digits distinct. */
  lemma ContributionInjective(x: int, y: int, doubled: bool)
    requires 0 <= x <= 9 && 0 <= y <= 9 && x != y
    ensures Contribution(x, doubled) != Contribution(y, doubled)
  {
  }

  /** The sum of a number with one digit singled out: the digit counts with the doubling
      flag its distance from the right gives it. */
  lemma LuhnSplice(p: string, x: char, q: string)
    requires AllDigits(p) && AllDigits(q) && IsDigit(x)
    ensures AllDigits(p + [x] + q)
    ensures Luhn(p + [x] + q, false) ==
            Luhn(q, false) + Contribution(DigitValue(x), |q| % 2 == 1) + Luhn(p, |q| % 2 == 0)
  {
    var b := |q| % 2 == 1;
    LuhnAppend(p, [x], b);
    assert [x][..0] == [];
    assert Luhn([x], b) == Contribution(DigitValue(x), b);
    LuhnAppend(p + [x], q, false);
  }

  /** Every single mistyped digit is caught: two numbers that differ in exactly one digit
      cannot both pass. */
  lemma SingleDigitErrorDetected(p: string, x: char, y: char, q: string)
    requires AllDigits(p) && AllDigits(q) && IsDigit(x) && IsDigit(y) && x != y
    ensures AllDigits(p + [x] + q) && AllDigits(p + [y] + q)
    ensures !(LuhnValid(p + [x] + q) && LuhnValid(p + [y] + q))
  {
    var b := |q| % 2 == 1;
    LuhnSplice(p, x, q);
    LuhnSplice(p, y, q);
    var dx, dy := Contribution(DigitValue(x), b), Contribution(DigitValue(y), b);
    ContributionInjective(DigitValue(x), DigitValue(y), b);
    var cx := Luhn(p + [x] + q, false);
    var cy := Luhn(p + [y] + q, false);
    assert cx - cy == dx - dy;
    if cx % 10 == 0 && cy % 10 == 0 {
      CloseMultiples(cx, cy);
    }
  }

  /** Two multiples of 10 less than 10 apart are equal. */
  lemma CloseMultiples(a: int, b: int)
    requires a % 10 == 0 && b % 10 == 0 && -9 <= a - b <= 9
    ensures a == b
  {
    var m, n := a / 10, b / 10;
    assert a == 10 * m && b == 10 * n;
    assert -9 <= 10 * (m - n) <= 9;
  }

  // ---- formatting ----

  /** `cleaned.match(/.{1,4}/g)`: consecutive chunks of four characters, the last one of
      one to four; an empty string has no chunks (`match` gives null). */
  function Groups(s: string): (gs: seq<string>)
    ensures s == [] <==> gs == []
    ensures forall i :: 0 <= i < |gs| ==> 1 <= |gs[i]| <= 4
    ensures forall i :: 0 <= i < |gs| - 1 ==> |gs[i]| == 4
    decreases |s|
  {
    if s == [] then []
    else if |s| <= 4 then [s]
    else [s[..4]] + Groups(s[4..])
  }

  /** `groups.join(' ')`. */
  function JoinWithSpaces(gs: seq<string>): string
  {
    if gs == [] then []
    else if |gs| == 1 then gs[0]
    else gs[0] + " " + JoinWithSpaces(gs[1..])
  }

  /** `formatCardNumber`: whitespace stripped, then chunks of four separated by one space. */
  function FormatCardNumber(value: string): string {
    var cleaned := RemoveSpaces(value);
    var groups := Groups(cleaned);
    if groups == [] then cleaned else JoinWithSpaces(groups)
  }

  /** The chunks concatenate back to the string. */
  lemma {:induction false} GroupsConcat(s: string)
    ensures Concat(Groups(s)) == s
    decreases |s|
  {
    if |s| > 4 {
      GroupsConcat(s[4..]);
      assert Groups(s)[1..] == Groups(s[4..]);
      assert s == s[..4] + s[4..];
    }
  }

  function Concat(gs: seq<string>): string {
    if gs == [] then [] else gs[0] + Concat(gs[1..])
  }

  /** Joining space-free chunks and stripping the spaces again gives their concatenation. */
  lemma {:induction false} StripJoin(gs: seq<string>)
    requires forall i :: 0 <= i < |gs| ==> !HasSpace(gs[i])
    ensures RemoveSpaces(JoinWithSpaces(gs)) == Concat(gs)
  {
    if gs != [] {
      RemoveSpacesOfSpaceFree(gs[0]);
      if |gs| == 1 {
        assert Concat(gs) == gs[0] + Concat([]);
        assert gs[0] + [] == gs[0];
      } else {
        StripJoin(gs[1..]);
        RemoveSpacesAppend(gs[0] + " ", JoinWithSpaces(gs[1..]));
        RemoveSpacesAppend(gs[0], " ");
        assert " "[1..] == [];
        assert RemoveSpaces(" ") == [];
      }
    }
  }

  lemma SliceSpaceFree(s: string, i: nat, j: nat)
    requires !HasSpace(s) && i <= j <= |s|
    ensures !HasSpace(s[i..j])
  {
    assert forall k :: 0 <= k < j - i ==> s[i..j][k] == s[i + k];
  }

  lemma {:induction false} GroupsSpaceFree(s: string)
    requires !HasSpace(s)
    ensures forall i :: 0 <= i < |Groups(s)| ==> !HasSpace(Groups(s)[i])
    decreases |s|
  {
    if |s| > 4 {
      SliceSpaceFree(s, 0, 4);
      SliceSpaceFree(s, 4, |s|);
      assert s[4..|s|] == s[4..];
      assert s[0..4] == s[..4];
      GroupsSpaceFree(s[4..]);
      assert Groups(s)[1..] == Groups(s[4..]);
    }
  }

  /** Round trip: stripping the spaces out of the formatted number gives the stripped input. */
  lemma FormatCardNumberRoundTrip(value: string)
    ensures RemoveSpaces(FormatCardNumber(value)) == RemoveSpaces(value)
  {
    var cleaned := RemoveSpaces(value);
    RemoveSpacesNoSpace(value);
    if cleaned == [] {
      RemoveSpacesIdempotent(value);
    } else {
      GroupsSpaceFree(cleaned);
      StripJoin(Groups(cleaned));
      GroupsConcat(cleaned);
    }
  }

  /** Formatting an already formatted number changes nothing. */
  lemma FormatCardNumberIdempotent(value: string)
    ensures FormatCardNumber(FormatCardNumber(value)) == FormatCardNumber(value)
  {
    FormatCardNumberRoundTrip(value);
  }

  /** The output's shape: chunks of four from the left, the last of one to four, joined
      by single spaces; nothing else is added. */
  lemma FormatCardNumberShape(value: string)
    ensures var gs := Groups(RemoveSpaces(value));
            && Concat(gs) == RemoveSpaces(value)
            && (gs != [] ==> FormatCardNumber(value) == JoinWithSpaces(gs))
            && (forall i :: 0 <= i < |gs| ==> 1 <= |gs[i]| <= 4)
            && (forall i :: 0 <= i < |gs| - 1 ==> |gs[i]| == 4)
  {
    GroupsConcat(RemoveSpaces(value));
  }

  /** `formatExpiryDate`: non-digits stripped; with at least two digits, the first two, a
      slash, and up to two more; otherwise the digits as they are. */
  function FormatExpiryDate(value: string): (r: string)
  {
    var cleaned := DigitsOnly(value);
    if |cleaned| >= 2 then cleaned[..2] + "/" + cleaned[2..if |cleaned| < 4 then |cleaned| else 4]
    else cleaned
  }

  lemma {:induction false} DigitsOnlyAllDigits(s: string)
    ensures AllDigits(DigitsOnly(s))
  {
    if s != [] {
      DigitsOnlyAllDigits(s[1..]);
      if IsDigit(s[0]) {
        var t := DigitsOnly(s[1..]);
        assert forall i :: 1 <= i < |[s[0]] + t| ==> ([s[0]] + t)[i] == t[i - 1];
      }
    }
  }

  lemma {:induction false} DigitsOnlyAppend(a: string, b: string)
    ensures DigitsOnly(a + b) == DigitsOnly(a) + DigitsOnly(b)
  {
    if a == [] {
      assert a + b == b;
    } else {
      assert (a + b)[0] == a[0] && (a + b)[1..] == a[1..] + b;
      DigitsOnlyAppend(a[1..], b);
    }
  }

  lemma {:induction false} DigitsOnlyOfDigits(s: string)
    requires AllDigits(s)
    ensures DigitsOnly(s) == s
  {
    if s != [] {
      PrefixDigits(s, 1);
      DigitsOnlyOfDigits(s[1..]);
    }
  }

  /** The expiry text: at most five characters; with two or more digits the slash sits at
      index 2 and is the only non-digit; otherwise only digits. Removing the slash gives the
      first four digits of the input. */
  lemma FormatExpiryDateShape(value: string)
    ensures var r := FormatExpiryDate(value);
            var d := DigitsOnly(value);
            && |r| <= 5
            && (|d| >= 2 ==> |r| >= 3 && r[2] == '/' && AllDigits(r[..2]) && AllDigits(r[3..]))
            && (|d| < 2 ==> r == d && AllDigits(r))
            && DigitsOnly(r) == d[..if |d| < 4 then |d| else 4]
  {
    var d := DigitsOnly(value);
    DigitsOnlyAllDigits(value);
    var r := FormatExpiryDate(value);
    if |d| >= 2 {
      var e := if |d| < 4 then |d| else 4;
      PrefixDigits(d, 2);
      PrefixDigits(d[2..], e - 2);
      assert d[2..e] == d[2..][..e - 2];
      DigitsOnlyAppend(d[..2] + "/", d[2..e]);
      DigitsOnlyAppend(d[..2], "/");
      DigitsOnlyOfDigits(d[..2]);
      DigitsOnlyOfDigits(d[2..e]);
      assert "/"[1..] == [];
      assert DigitsOnly("/") == [];
      assert r[..2] == d[..2] && r[3..] == d[2..e];
      assert d[..e] == d[..2] + d[2..e];
    } else {
      DigitsOnlyOfDigits(d);
    }
  }

  /** Re-formatting the formatted expiry text changes nothing, so the field can format on
      every keystroke. */
  lemma FormatExpiryDateIdempotent(value: string)
    ensures FormatExpiryDate(FormatExpiryDate(value)) == FormatExpiryDate(value)
  {
    var d := DigitsOnly(value);
    FormatExpiryDateShape(value);
    if |d| >= 2 {
      var e := if |d| < 4 then |d| else 4;
      var d' := d[..e];
      assert DigitsOnly(FormatExpiryDate(value)) == d';
      assert d'[..2] == d[..2];
      assert d'[2..if |d'| < 4 then |d'| else 4] == d[2..e];
    }
  }
}
