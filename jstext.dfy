// The pieces of JavaScript string handling the core uses: the `\s` and `\d`
// regular-expression classes, `replace(/\s/g, '')`, `replace(/\s+/g, '-')`,
// `replace(/\D/g, '')` and `toLowerCase`.

module JsText {

  /** The `\s` class of ECMAScript regular expressions: WhiteSpace and LineTerminator code points. */
  predicate IsSpace(c: char) {
    c == '\t' || c == '\n' || c == '\U{000B}' || c == '\U{000C}' || c == '\r' || c == ' ' ||
    c == '\U{00A0}' || c == '\U{1680}' || ('\U{2000}' <= c <= '\U{200A}') ||
    c == '\U{2028}' || c == '\U{2029}' || c == '\U{202F}' || c == '\U{205F}' ||
    c == '\U{3000}' || c == '\U{FEFF}'
  }

  /** The `\d` class (without the `u` flag): ASCII digits only. */
  predicate IsDigit(c: char) {
    '0' <= c <= '9'
  }

  function DigitValue(c: char): (d: int)
    requires IsDigit(c)
    ensures 0 <= d <= 9
  {
    c as int - '0' as int
  }

  /** `s.replace(/\s/g, '')`. */
  function RemoveSpaces(s: string): (r: string)
    ensures |r| <= |s|
  {
    if s == [] then []
    else if IsSpace(s[0]) then RemoveSpaces(s[1..])
    else [s[0]] + RemoveSpaces(s[1..])
  }

  /** `s.replace(/\D/g, '')`. */
  function DigitsOnly(s: string): (r: string)
    ensures |r| <= |s|
  {
    if s == [] then []
    else if IsDigit(s[0]) then [s[0]] + DigitsOnly(s[1..])
    else DigitsOnly(s[1..])
  }

  /** Deletes every occurrence of `c`. */
  function RemoveChar(s: string, c: char): (r: string) {
    if s == [] then []
    else if s[0] == c then RemoveChar(s[1..], c)
    else [s[0]] + RemoveChar(s[1..], c)
  }

  function DropLeadingSpaces(s: string): (r: string)
    ensures |r| <= |s|
  {
    if s != [] && IsSpace(s[0]) then DropLeadingSpaces(s[1..]) else s
  }

  /** `s.replace(/\s+/g, sep)`: every maximal run of whitespace becomes one `sep`. */
  function ReplaceSpaceRuns(s: string, sep: char): string
    decreases |s|
  {
    if s == [] then []
    else if IsSpace(s[0]) then [sep] + ReplaceSpaceRuns(DropLeadingSpaces(s[1..]), sep)
    else [s[0]] + ReplaceSpaceRuns(s[1..], sep)
  }

  /** An upper-case letter of Basic Latin or of the Latin-1 Supplement: A-Z, and U+00C0 to
      U+00DE without the multiplication sign U+00D7. */
  predicate IsUpperLatin(c: char) {
    'A' <= c <= 'Z' || ('\U{00C0}' <= c <= '\U{00DE}' && c != '\U{00D7}')
  }

  /** `toLowerCase` on one character of the Latin-1 range: each upper-case letter there has
      its small letter 32 code points above it ("É" to "é"); every other character is kept. */
  function LowerChar(c: char): (l: char)
    ensures IsUpperLatin(c) ==> l as int == c as int + 32
    ensures !IsUpperLatin(c) ==> l == c
    ensures !IsUpperLatin(l)
  {
    if IsUpperLatin(c) then (c as int + 32) as char else c
  }

  function ToLower(s: string): (r: string)
    ensures |r| == |s|
    ensures forall i :: 0 <= i < |s| ==> r[i] == LowerChar(s[i])
  {
    if s == [] then [] else [LowerChar(s[0])] + ToLower(s[1..])
  }

  /** Accented capitals of the Latin-1 range are lowered too: "CAFÉ" becomes "café". */
  lemma LowerLatinExample()
    ensures ToLower("CAFÉ") == "café"
  {
    assert ToLower("CAFÉ")[3] == LowerChar('\U{00C9}');
  }

  predicate HasSpace(s: string) {
    exists i :: 0 <= i < |s| && IsSpace(s[i])
  }

  function StartsWith(s: string, prefix: string): bool {
    |prefix| <= |s| && s[..|prefix|] == prefix
  }

  // ---- properties ----

  lemma {:induction false} RemoveSpacesNoSpace(s: string)
    ensures !HasSpace(RemoveSpaces(s))
  {
    if s != [] {
      RemoveSpacesNoSpace(s[1..]);
      var t := RemoveSpaces(s[1..]);
      if !IsSpace(s[0]) {
        assert forall i :: 0 < i < |[s[0]] + t| ==> ([s[0]] + t)[i] == t[i - 1];
      }
    }
  }

  /** Stripping whitespace distributes over concatenation. */
  lemma {:induction false} RemoveSpacesAppend(a: string, b: string)
    ensures RemoveSpaces(a + b) == RemoveSpaces(a) + RemoveSpaces(b)
  {
    if a == [] {
      assert a + b == b;
    } else {
      assert (a + b)[0] == a[0] && (a + b)[1..] == a[1..] + b;
      RemoveSpacesAppend(a[1..], b);
    }
  }

  /** Stripping whitespace twice is stripping it once. */
  lemma {:induction false} RemoveSpacesIdempotent(s: string)
    ensures RemoveSpaces(RemoveSpaces(s)) == RemoveSpaces(s)
  {
    if s != [] {
      RemoveSpacesIdempotent(s[1..]);
      if !IsSpace(s[0]) {
        var t := RemoveSpaces(s[1..]);
        assert ([s[0]] + t)[0] == s[0] && ([s[0]] + t)[1..] == t;
      }
    }
  }

  /** A string with no whitespace in it is left alone by the stripping. */
  lemma {:induction false} RemoveSpacesOfSpaceFree(s: string)
    requires !HasSpace(s)
    ensures RemoveSpaces(s) == s
  {
    if s != [] {
      assert !IsSpace(s[0]);
      assert !HasSpace(s[1..]) by {
        forall i | 0 <= i < |s[1..]| ensures !IsSpace(s[1..][i]) { assert s[1..][i] == s[i + 1]; }
      }
      RemoveSpacesOfSpaceFree(s[1..]);
    }
  }

  lemma {:induction false} DropLeadingSpacesInvisible(s: string)
    ensures RemoveSpaces(DropLeadingSpaces(s)) == RemoveSpaces(s)
  {
    if s != [] && IsSpace(s[0]) {
      DropLeadingSpacesInvisible(s[1..]);
    }
  }

  /** The hyphenated spelling has no whitespace left (as long as the separator is not itself whitespace). */
  lemma {:induction false} ReplaceSpaceRunsNoSpace(s: string, sep: char)
    requires !IsSpace(sep)
    ensures !HasSpace(ReplaceSpaceRuns(s, sep))
    decreases |s|
  {
    if s != [] {
      var head: char, rest: string;
      if IsSpace(s[0]) {
        head, rest := sep, DropLeadingSpaces(s[1..]);
      } else {
        head, rest := s[0], s[1..];
      }
      ReplaceSpaceRunsNoSpace(rest, sep);
      var t := ReplaceSpaceRuns(rest, sep);
      assert ReplaceSpaceRuns(s, sep) == [head] + t;
      assert forall i :: 0 < i < |[head] + t| ==> ([head] + t)[i] == t[i - 1];
    }
  }

  /** The two normalised spellings agree: deleting the separators from the hyphenated form
      gives the whitespace-free form, provided the text did not already contain the separator. */
  lemma {:induction false} ReplaceSpaceRunsThenRemove(s: string, sep: char)
    requires sep !in s && !IsSpace(sep)
    ensures RemoveChar(ReplaceSpaceRuns(s, sep), sep) == RemoveSpaces(s)
    decreases |s|
  {
    if s != [] {
      assert s == [s[0]] + s[1..];
      if IsSpace(s[0]) {
        var rest := DropLeadingSpaces(s[1..]);
        DropLeadingSuffix(s[1..]);
        assert sep !in rest;
        ReplaceSpaceRunsThenRemove(rest, sep);
        DropLeadingSpacesInvisible(s[1..]);
        var t := ReplaceSpaceRuns(rest, sep);
        assert ([sep] + t)[0] == sep && ([sep] + t)[1..] == t;
      } else {
        assert sep !in s[1..];
        ReplaceSpaceRunsThenRemove(s[1..], sep);
        var t := ReplaceSpaceRuns(s[1..], sep);
        assert ([s[0]] + t)[0] == s[0] && ([s[0]] + t)[1..] == t;
      }
    }
  }

  lemma {:induction false} DropLeadingSuffix(s: string)
    ensures exists k :: 0 <= k <= |s| && DropLeadingSpaces(s) == s[k..]
  {
    if s != [] && IsSpace(s[0]) {
      DropLeadingSuffix(s[1..]);
      var k :| 0 <= k <= |s[1..]| && DropLeadingSpaces(s[1..]) == s[1..][k..];
      assert s[1..][k..] == s[k + 1..];
    } else {
      assert s == s[0..];
    }
  }

  lemma {:induction false} ReplaceSpaceRunsPrefix(a: string, t: string, sep: char)
    requires !HasSpace(a)
    ensures ReplaceSpaceRuns(a + t, sep) == a + ReplaceSpaceRuns(t, sep)
  {
    if a == [] {
      assert a + t == t;
    } else {
      assert !IsSpace(a[0]);
      assert !HasSpace(a[1..]) by {
        forall i | 0 <= i < |a[1..]| ensures !IsSpace(a[1..][i]) { assert a[1..][i] == a[i + 1]; }
      }
      assert (a + t)[0] == a[0] && (a + t)[1..] == a[1..] + t;
      ReplaceSpaceRunsPrefix(a[1..], t, sep);
    }
  }

  /** Two whitespace-free words joined by one whitespace character: the stripped spelling
      glues the words, the hyphenated spelling puts the separator between them. */
  lemma TwoWordSpellings(a: string, c: char, b: string, sep: char)
    requires !HasSpace(a) && !HasSpace(b) && IsSpace(c)
    ensures RemoveSpaces(a + [c] + b) == a + b
    ensures ReplaceSpaceRuns(a + [c] + b, sep) == a + [sep] + b
  {
    TwoWordStripped(a, c, b);
    TwoWordHyphenated(a, c, b, sep);
  }

  lemma TwoWordStripped(a: string, c: char, b: string)
    requires !HasSpace(a) && !HasSpace(b) && IsSpace(c)
    ensures RemoveSpaces(a + [c] + b) == a + b
  {
    assert [c][1..] == [];
    assert RemoveSpaces([c]) == [];
    calc {
      RemoveSpaces(a + [c] + b);
      { RemoveSpacesAppend(a + [c], b); }
      RemoveSpaces(a + [c]) + RemoveSpaces(b);
      { RemoveSpacesAppend(a, [c]); }
      RemoveSpaces(a) + RemoveSpaces([c]) + RemoveSpaces(b);
      { RemoveSpacesOfSpaceFree(a); RemoveSpacesOfSpaceFree(b); }
      a + [] + b;
    }
    assert a + [] + b == a + b;
  }

  lemma TwoWordHyphenated(a: string, c: char, b: string, sep: char)
    requires !HasSpace(a) && !HasSpace(b) && IsSpace(c)
    ensures ReplaceSpaceRuns(a + [c] + b, sep) == a + [sep] + b
  {
    var cb := [c] + b;
    LeadingSpaceHyphenated(c, b, sep);
    assert a + [c] + b == a + cb;
    ReplaceSpaceRunsPrefix(a, cb, sep);
    assert a + ([sep] + b) == a + [sep] + b;
  }

  /** One whitespace character in front of a whitespace-free word becomes the separator. */
  lemma LeadingSpaceHyphenated(c: char, b: string, sep: char)
    requires !HasSpace(b) && IsSpace(c)
    ensures ReplaceSpaceRuns([c] + b, sep) == [sep] + b
  {
    assert DropLeadingSpaces(b) == b by {
      if b != [] { assert !IsSpace(b[0]); }
    }
    var cb := [c] + b;
    assert cb[0] == c && cb[1..] == b;
    assert ReplaceSpaceRuns(cb, sep) == [sep] + ReplaceSpaceRuns(b, sep);
    ReplaceSpaceRunsPrefix(b, [], sep);
    assert b + [] == b;
  }
}
