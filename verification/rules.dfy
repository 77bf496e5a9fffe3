/**
  The two field validators of the password-update form, as pure functions of
  the field values: `CheckNewPassword` (the ordered, first-failure-wins rule
  chain) and `CheckConfirmPassword` (presence and equality).
 */
module PasswordRules {
  import opened Text

  /** What a validator produces: the text it writes into the field's error
      slot, and the boolean it returns. */
  datatype FieldResult = FieldResult(message: string, valid: bool)

  /** The four one-class patterns the new password is matched against:
      `[A-Z]`, `[a-z]`, `[0-9]` and `[^A-Za-z0-9]`. */
  datatype CharClass = Upper | Lower | Digit | Special

  /** Class membership of one code unit. The patterns carry no `i` or `u`
      flag, so they compare raw code units in the ASCII ranges only. */
  predicate InClass(u: CodeUnit, c: CharClass) {
    match c
    case Upper => IsAsciiUpper(u)
    case Lower => IsAsciiLower(u)
    case Digit => IsAsciiDigit(u)
    case Special => !IsAsciiUpper(u) && !IsAsciiLower(u) && !IsAsciiDigit(u)
  }

  predicate IsAsciiUpper(u: CodeUnit) { 0x41 <= u <= 0x5A }  // 'A'..'Z'
  predicate IsAsciiLower(u: CodeUnit) { 0x61 <= u <= 0x7A }  // 'a'..'z'
  predicate IsAsciiDigit(u: CodeUnit) { 0x30 <= u <= 0x39 }  // '0'..'9'

  ghost predicate HasClass(s: seq<CodeUnit>, c: CharClass) {
    exists i :: 0 <= i < |s| && InClass(s[i], c)
  }

  /** `RegExp.prototype.test` of a single-class pattern: a left-to-right
      scan for a code unit of the class. */
  function Test(c: CharClass, s: seq<CodeUnit>): (found: bool)
    ensures found <==> HasClass(s, c)
  {
    if s == [] then false
    else InClass(s[0], c) || Test(c, s[1..])
  }

  /** The rules of the new-password field, in the order they are checked. */
  datatype Rule = Required | MinLength | HasUppercase | HasLowercase | HasNumber | HasSpecial

  const RuleOrder: seq<Rule> :=
    [Required, MinLength, HasUppercase, HasLowercase, HasNumber, HasSpecial]

  const MinPasswordLength: nat := 8

  /** What each rule demands of the trimmed value, stated independently of
      the rule chain in `CheckNewPassword`. */
  ghost predicate Satisfies(t: seq<CodeUnit>, rule: Rule) {
    match rule
    case Required => |t| > 0
    case MinLength => |t| >= MinPasswordLength
    case HasUppercase => HasClass(t, Upper)
    case HasLowercase => HasClass(t, Lower)
    case HasNumber => HasClass(t, Digit)
    case HasSpecial => HasClass(t, Special)
  }

  ghost predicate SatisfiesAll(t: seq<CodeUnit>) {
    forall k :: 0 <= k < |RuleOrder| ==> Satisfies(t, RuleOrder[k])
  }

  /** Rule `RuleOrder[k]` is the first one the trimmed value violates. */
  ghost predicate FirstViolated(t: seq<CodeUnit>, k: nat) {
    && k < |RuleOrder|
    && !Satisfies(t, RuleOrder[k])
    && forall j :: 0 <= j < k ==> Satisfies(t, RuleOrder[j])
  }

  /** The fixed message of each rule. */
  function RuleMessage(rule: Rule): string {
    match rule
    case Required => "New Password is required."
    case MinLength => "Password must be at least 8 characters long."
    case HasUppercase => "Password must contain at least one uppercase letter."
    case HasLowercase => "Password must contain at least one lowercase letter."
    case HasNumber => "Password must contain at least one number."
    case HasSpecial => "Password must contain at least one special character."
  }

  const ConfirmRequiredMessage: string := "Confirm Password is required."
  const MismatchMessage: string := "Passwords do not match."

  /** Every rule message is non-empty and no two rules share one, so the
      error slot tells exactly which rule failed. */
  lemma RuleMessagesDistinct(a: Rule, b: Rule)
    ensures RuleMessage(a) != ""
    ensures RuleMessage(a) == RuleMessage(b) <==> a == b
  {
    // Only the uppercase and lowercase messages share a length; they differ
    // in their first letter after "Password must contain at least one ".
    assert |RuleMessage(Required)| == 25 && |RuleMessage(MinLength)| == 44;
    assert |RuleMessage(HasUppercase)| == 52 && |RuleMessage(HasLowercase)| == 52;
    assert |RuleMessage(HasNumber)| == 42 && |RuleMessage(HasSpecial)| == 53;
    assert RuleMessage(HasUppercase)[35] != RuleMessage(HasLowercase)[35];
  }

  /** Where a rule stands in `RuleOrder`. */
  function Position(rule: Rule): (k: nat)
    ensures k < |RuleOrder| && RuleOrder[k] == rule
  {
    match rule
    case Required => 0
    case MinLength => 1
    case HasUppercase => 2
    case HasLowercase => 3
    case HasNumber => 4
    case HasSpecial => 5
  }

  datatype Option<T> = None | Some(value: T)

  /** The `if`/`else if` chain of `validateNewPassword` over the trimmed
      value: the first rule whose check fails, or `None` when all pass. */
  function FirstFailingRule(t: seq<CodeUnit>): (r: Option<Rule>)
    ensures r.None? <==> SatisfiesAll(t)
    ensures r.Some? ==> FirstViolated(t, Position(r.value))
  {
    if t == [] then
      assert !Satisfies(t, RuleOrder[0]);
      Some(Required)
    else if |t| < MinPasswordLength then
      assert !Satisfies(t, RuleOrder[1]);
      Some(MinLength)
    else if !Test(Upper, t) then
      assert !Satisfies(t, RuleOrder[2]);
      Some(HasUppercase)
    else if !Test(Lower, t) then
      assert !Satisfies(t, RuleOrder[3]);
      Some(HasLowercase)
    else if !Test(Digit, t) then
      assert !Satisfies(t, RuleOrder[4]);
      Some(HasNumber)
    else if !Test(Special, t) then
      assert !Satisfies(t, RuleOrder[5]);
      Some(HasSpecial)
    else
      assert forall k :: 0 <= k < |RuleOrder| ==> Satisfies(t, RuleOrder[k]) by {
        assert Satisfies(t, RuleOrder[0]) && Satisfies(t, RuleOrder[1]);
        assert Satisfies(t, RuleOrder[2]) && Satisfies(t, RuleOrder[3]);
        assert Satisfies(t, RuleOrder[4]) && Satisfies(t, RuleOrder[5]);
      }
      None
  }

  /** `validateNewPassword`: trim, then the first failing rule of the chain
      decides the message; the result is true exactly when no rule failed. */
  function CheckNewPassword(value: seq<CodeUnit>): (r: FieldResult)
    ensures r.valid <==> r.message == ""
    ensures r.valid <==> SatisfiesAll(Trim(value))
  {
    var failed := FirstFailingRule(Trim(value));
    var message := if failed.Some? then RuleMessage(failed.value) else "";
    assert failed.Some? ==> message != "" by {
      if failed.Some? { RuleMessagesDistinct(failed.value, failed.value); }
    }
    FieldResult(message, message == "")
  }

  /** There is at most one first violated rule. */
  lemma FirstViolatedUnique(t: seq<CodeUnit>, a: nat, b: nat)
    requires FirstViolated(t, a) && FirstViolated(t, b)
    ensures a == b
  {
  }

  /** The first failing rule wins: the message is rule `k`'s exactly when
      rule `k` is the first one in the order the trimmed value violates. */
  lemma FirstViolatedRuleWins(value: seq<CodeUnit>, k: nat)
    requires k < |RuleOrder|
    ensures CheckNewPassword(value).message == RuleMessage(RuleOrder[k])
        <==> FirstViolated(Trim(value), k)
  {
    var t := Trim(value);
    var failed := FirstFailingRule(t);
    RuleMessagesDistinct(RuleOrder[k], RuleOrder[k]);
    if failed.Some? {
      var rule := failed.value;
      RuleMessagesDistinct(rule, RuleOrder[k]);
      assert rule == RuleOrder[k] <==> Position(rule) == k;
      if FirstViolated(t, k) {
        FirstViolatedUnique(t, Position(rule), k);
      }
    }
  }

  /** An all-whitespace new password is reported as missing. */
  lemma EmptyNewPasswordIsRequired(value: seq<CodeUnit>)
    requires AllWhitespace(value)
    ensures CheckNewPassword(value) == FieldResult("New Password is required.", false)
  {
  }

  /** A trimmed value of 1 to 7 code units gets the length message whatever
      code units it holds. */
  lemma ShortNewPasswordIsTooShort(value: seq<CodeUnit>)
    requires 0 < |Trim(value)| < 8
    ensures CheckNewPassword(value)
         == FieldResult("Password must be at least 8 characters long.", false)
  {
  }

  /** A long enough value missing both an uppercase letter and a digit is
      told only about the uppercase letter. */
  lemma UppercaseReportedBeforeDigit(value: seq<CodeUnit>)
    requires |Trim(value)| >= 8
    requires !HasClass(Trim(value), Upper) && !HasClass(Trim(value), Digit)
    ensures CheckNewPassword(value).message
         == "Password must contain at least one uppercase letter."
  {
  }

  /** The accepted new passwords, stated class by class: at least 8 code
      units after trimming, with an ASCII uppercase letter, an ASCII
      lowercase letter, an ASCII digit, and a code unit outside all three. */
  lemma NewPasswordAcceptance(value: seq<CodeUnit>)
    ensures CheckNewPassword(value).valid
        <==> var t := Trim(value);
             && |t| >= 8
             && HasClass(t, Upper) && HasClass(t, Lower)
             && HasClass(t, Digit) && HasClass(t, Special)
  {
    var t := Trim(value);
    if |t| >= 8 && HasClass(t, Upper) && HasClass(t, Lower)
       && HasClass(t, Digit) && HasClass(t, Special)
    {
      forall k | 0 <= k < |RuleOrder| ensures Satisfies(t, RuleOrder[k]) {
      }
    }
  }

  /** Only the trimmed value matters to the new-password check. */
  lemma CheckNewPasswordSeesTrimmedValue(value: seq<CodeUnit>)
    ensures CheckNewPassword(Trim(value)) == CheckNewPassword(value)
  {
    TrimIdempotent(value);
  }

  /** `validateConfirmPassword`: a missing confirmation is reported first,
      then a confirmation different from the trimmed new password. The
      complexity rules are never consulted. */
  function CheckConfirmPassword(newValue: seq<CodeUnit>, confirmValue: seq<CodeUnit>): (r: FieldResult)
    ensures r.valid <==> r.message == ""
    ensures r.valid <==> Trim(confirmValue) != [] && Trim(confirmValue) == Trim(newValue)
    ensures r.message == ConfirmRequiredMessage <==> AllWhitespace(confirmValue)
    ensures r.message == MismatchMessage
        <==> !AllWhitespace(confirmValue) && Trim(confirmValue) != Trim(newValue)
  {
    var c := Trim(confirmValue);
    var n := Trim(newValue);
    if c == [] then FieldResult(ConfirmRequiredMessage, false)
    else if n != c then FieldResult(MismatchMessage, false)
    else FieldResult("", true)
  }

  /** Only the trimmed values matter to the confirmation check. */
  lemma CheckConfirmPasswordSeesTrimmedValues(newValue: seq<CodeUnit>, confirmValue: seq<CodeUnit>)
    ensures CheckConfirmPassword(Trim(newValue), Trim(confirmValue))
         == CheckConfirmPassword(newValue, confirmValue)
  {
    TrimIdempotent(newValue);
    TrimIdempotent(confirmValue);
  }

  /** Any value that is not blank confirms itself, whether or not it passes
      the new-password rules. */
  lemma ConfirmIgnoresComplexity(value: seq<CodeUnit>)
    requires !AllWhitespace(value)
    ensures CheckConfirmPassword(value, value) == FieldResult("", true)
  {
  }

  /** Scenario: "Abc123!@" is exactly 8 code units and has one of each
      class, so it passes. */
  lemma ScenarioStrongPassword(v: seq<CodeUnit>)
    requires Spells(v, "Abc123!@")
    ensures Trim(v) == v
    ensures CheckNewPassword(v) == FieldResult("", true)
  {
    assert v[0] == 0x41 && v[1] == 0x62 && v[3] == 0x31 && v[6] == 0x21 && v[7] == 0x40;
    TrimOfTrimmed(v);
    assert InClass(v[0], Upper) && InClass(v[1], Lower);
    assert InClass(v[3], Digit) && InClass(v[6], Special);
    NewPasswordAcceptance(v);
  }

  /** Scenario: "Password1" has upper, lower and digit but nothing outside
      `[A-Za-z0-9]`, so the last rule rejects it. */
  lemma ScenarioNoSpecial(v: seq<CodeUnit>)
    requires Spells(v, "Password1")
    ensures Trim(v) == v
    ensures CheckNewPassword(v)
         == FieldResult("Password must contain at least one special character.", false)
  {
    assert v[0] == 0x50 && v[1] == 0x61 && v[8] == 0x31;
    TrimOfTrimmed(v);
    assert InClass(v[0], Upper) && InClass(v[1], Lower) && InClass(v[8], Digit);
    forall i | 0 <= i < |v| ensures !InClass(v[i], Special) {
      assert v[i] as int == "Password1"[i] as int;
    }
  }

  /** Scenario: letters outside ASCII do not count as letters. "Ünïcode-42"
      (with U+00DC and U+00EF) has lowercase letters, digits and a hyphen,
      but no code unit in `[A-Z]`, so it fails the uppercase rule. */
  lemma ScenarioNonAsciiUppercase(v: seq<CodeUnit>)
    requires Spells(v, "\U{DC}n\U{EF}code-42")
    ensures CheckNewPassword(v)
         == FieldResult("Password must contain at least one uppercase letter.", false)
  {
    assert v[0] == 0xDC && v[9] == 0x32;
    TrimOfTrimmed(v);
    forall i | 0 <= i < |v| ensures !InClass(v[i], Upper) {
      assert v[i] as int == "\U{DC}n\U{EF}code-42"[i] as int;
    }
  }

  /** Scenario: a letter outside ASCII counts as a special character.
      "passw\U{F6}rD1" has no ASCII punctuation at all, yet passes. */
  lemma ScenarioNonAsciiSpecial(v: seq<CodeUnit>)
    requires Spells(v, "passw\U{F6}rD1")
    ensures CheckNewPassword(v) == FieldResult("", true)
  {
    assert Trim(v) == v by {
      assert v[0] == 0x70 && v[8] == 0x31;
      TrimOfTrimmed(v);
    }
    assert HasClass(v, Upper) && HasClass(v, Lower) by {
      assert v[7] == 0x44 && v[0] == 0x70;
      assert InClass(v[7], Upper) && InClass(v[0], Lower);
    }
    assert HasClass(v, Digit) && HasClass(v, Special) by {
      assert v[8] == 0x31 && v[5] == 0xF6;
      assert InClass(v[8], Digit) && InClass(v[5], Special);
    }
    NewPasswordAcceptance(v);
  }

  /** Scenario: `.length` counts code units, and each half of a surrogate
      pair is a code unit outside `[A-Za-z0-9]`. "Ab1" followed by three
      U+1F600 is six characters but nine code units, so it passes both the
      length rule and the special-character rule. */
  lemma ScenarioSurrogatePairs(v: seq<CodeUnit>)
    requires v == Utf16("Ab1\U{1F600}\U{1F600}\U{1F600}")
    ensures |"Ab1\U{1F600}\U{1F600}\U{1F600}"| == 6 < MinPasswordLength
    ensures CheckNewPassword(v) == FieldResult("", true)
  {
    SurrogatePairUnits(v);
    SurrogatePairPasswordValid(v);
  }

  lemma SurrogatePairUnits(v: seq<CodeUnit>)
    requires v == Utf16("Ab1\U{1F600}\U{1F600}\U{1F600}")
    ensures v == [0x41, 0x62, 0x31, 0xD83D, 0xDE00, 0xD83D, 0xDE00, 0xD83D, 0xDE00]
  {
  }

  lemma SurrogatePairPasswordValid(v: seq<CodeUnit>)
    requires v == [0x41, 0x62, 0x31, 0xD83D, 0xDE00, 0xD83D, 0xDE00, 0xD83D, 0xDE00]
    ensures CheckNewPassword(v) == FieldResult("", true)
  {
    assert Trim(v) == v by { TrimOfTrimmed(v); }
    assert InClass(v[0], Upper) && InClass(v[1], Lower);
    assert InClass(v[2], Digit) && InClass(v[3], Special);
    NewPasswordAcceptance(v);
  }

  /** Scenario: blanks around "Abc123!@" are trimmed away before the rules
      run and before the comparison with the confirmation. */
  lemma ScenarioPaddedPassword(v: seq<CodeUnit>, c: seq<CodeUnit>)
    requires Spells(v, "  Abc123!@\t") && Spells(c, "Abc123!@")
    ensures Trim(v) == c
    ensures CheckNewPassword(v).valid && CheckConfirmPassword(v, c).valid
  {
    PaddedTrim(v, c);
    ScenarioStrongPassword(c);
    CheckNewPasswordSeesTrimmedValue(v);
  }

  lemma PaddedTrim(v: seq<CodeUnit>, c: seq<CodeUnit>)
    requires Spells(v, "  Abc123!@\t") && Spells(c, "Abc123!@")
    ensures Trim(v) == c
  {
    assert v[2..10] == c by {
      forall i | 0 <= i < 8 ensures v[2..10][i] == c[i] {
        assert v[i + 2] as int == "  Abc123!@\t"[i + 2] as int;
        assert c[i] as int == "Abc123!@"[i] as int;
      }
    }
    assert c[0] == 0x41 && c[7] == 0x40;
    assert WhitespaceOutside(v, 2, 10) by {
      assert v[0] == 0x20 && v[1] == 0x20 && v[10] == 0x09;
    }
    TrimUnique(v, 2, 10);
  }
}
