/**
 * The FluentValidation rules the four validators share. Every rule of a chain runs (the default
 * cascade), so a chain reports the message of each check that fails, in declaration order.
 */
module ValidationRules {
  import opened Common

  /** string.Length: UTF-16 code units, two for a character outside the Basic Multilingual Plane. */
  function Utf16Length(s: string): (n: nat)
    ensures |s| <= n <= 2 * |s|
    ensures (forall i :: 0 <= i < |s| ==> s[i] <= '\U{FFFF}') ==> n == |s|
  {
    if s == [] then 0 else (if s[0] <= '\U{FFFF}' then 1 else 2) + Utf16Length(s[1..])
  }

  /** NotEmpty() on a string: not null, not empty and not only white space. */
  predicate NotEmpty(s: string)
  {
    !IsWhiteSpaceOnly(s)
  }

  predicate IsAsciiUpper(c: char) { 'A' <= c <= 'Z' }
  predicate IsAsciiLower(c: char) { 'a' <= c <= 'z' }
  predicate IsAsciiDigit(c: char) { '0' <= c <= '9' }

  /** Matches(pattern) for a one-character-class pattern: some character of the string is in the class. */
  predicate HasUpper(s: string) { exists i :: 0 <= i < |s| && IsAsciiUpper(s[i]) }
  predicate HasLower(s: string) { exists i :: 0 <= i < |s| && IsAsciiLower(s[i]) }
  predicate HasDigit(s: string) { exists i :: 0 <= i < |s| && IsAsciiDigit(s[i]) }
  predicate HasSpecial(s: string)
  {
    exists i :: 0 <= i < |s| && !IsAsciiUpper(s[i]) && !IsAsciiLower(s[i]) && !IsAsciiDigit(s[i])
  }

  /** The password policy of registration and password change. */
  predicate MeetsPasswordPolicy(p: string)
  {
    && NotEmpty(p) && Utf16Length(p) >= 8
    && HasUpper(p) && HasLower(p) && HasDigit(p) && HasSpecial(p)
  }

  /** One failed check of a rule chain; Message gives the text the validator reports for it. */
  datatype Failure =
    | UserNameRequired | UserNameTooShort | UserNameTooLong | UserNameBadCharacters
    | EmailRequired | EmailInvalid
    | PasswordRequired | NewPasswordRequired | PasswordTooShort
    | PasswordNoUpper | PasswordNoLower | PasswordNoDigit | PasswordNoSpecial
    | PasswordsDoNotMatch | NewPasswordSameAsCurrent
    | FirstNameRequired | FirstNameTooLong | LastNameRequired | LastNameTooLong
    | AddressTooLong | UserIdRequired | CurrentPasswordRequired

  function Message(f: Failure): string
  {
    match f
    case UserNameRequired => "Username is required"
    case UserNameTooShort => "Username must be at least 3 characters"
    case UserNameTooLong => "Username must not exceed 50 characters"
    case UserNameBadCharacters => "Username can only contain letters, numbers, and the characters _.-"
    case EmailRequired => "Email is required"
    case EmailInvalid => "A valid email is required"
    case PasswordRequired => "Password is required"
    case NewPasswordRequired => "New password is required"
    case PasswordTooShort => "Password must be at least 8 characters"
    case PasswordNoUpper => "Password must contain at least one uppercase letter"
    case PasswordNoLower => "Password must contain at least one lowercase letter"
    case PasswordNoDigit => "Password must contain at least one number"
    case PasswordNoSpecial => "Password must contain at least one special character"
    case PasswordsDoNotMatch => "Passwords do not match"
    case NewPasswordSameAsCurrent => "New password must be different from current password"
    case FirstNameRequired => "First name is required"
    case FirstNameTooLong => "First name must not exceed 100 characters"
    case LastNameRequired => "Last name is required"
    case LastNameTooLong => "Last name must not exceed 100 characters"
    case AddressTooLong => "Address must not exceed 500 characters"
    case UserIdRequired => "User ID is required"
    case CurrentPasswordRequired => "Current password is required"
  }

  /** ValidationResult.Errors.Select(e => e.ErrorMessage): the texts, in order. */
  function Messages(fs: seq<Failure>): (r: seq<string>)
    ensures |r| == |fs|
    ensures forall i :: 0 <= i < |fs| ==> r[i] == Message(fs[i])
  {
    if fs == [] then [] else [Message(fs[0])] + Messages(fs[1..])
  }

  /** One check of a rule chain: whether the value passes, and the failure reported if not. */
  datatype Rule = Rule(passes: bool, failure: Failure)

  /** The failures of the checks that do not pass, in chain order (every check runs). */
  function Failing(rules: seq<Rule>): (r: seq<Failure>)
    ensures r == [] <==> forall x :: x in rules ==> x.passes
    ensures |r| <= |rules|
  {
    if rules == [] then []
    else
      assert forall x :: x in rules <==> x == rules[0] || x in rules[1..];
      (if rules[0].passes then [] else [rules[0].failure]) + Failing(rules[1..])
  }

  /** A failure is reported exactly when some check with that failure does not pass. */
  lemma {:induction false} FailingMembers(rules: seq<Rule>, f: Failure)
    ensures f in Failing(rules) <==> Rule(false, f) in rules
  {
    if rules != [] {
      FailingMembers(rules[1..], f);
      assert forall x :: x in rules <==> x == rules[0] || x in rules[1..];
    }
  }

  /** Running two chains one after the other reports the first chain's failures, then the second's. */
  lemma {:induction false} FailingAppend(a: seq<Rule>, b: seq<Rule>)
    ensures Failing(a + b) == Failing(a) + Failing(b)
  {
    if a == [] {
      assert a + b == b;
    } else {
      assert (a + b)[0] == a[0] && (a + b)[1..] == a[1..] + b;
      FailingAppend(a[1..], b);
    }
  }

  /** A failure that only one check of the chain can report is reported exactly when that check fails. */
  lemma FailingAt(rules: seq<Rule>, i: nat)
    requires i < |rules|
    requires forall j :: 0 <= j < |rules| && j != i ==> rules[j].failure != rules[i].failure
    ensures rules[i].failure in Failing(rules) <==> !rules[i].passes
  {
    var f := rules[i].failure;
    FailingMembers(rules, f);
    if Rule(false, f) in rules {
      var j :| 0 <= j < |rules| && rules[j] == Rule(false, f);
      assert j == i;
    }
    if !rules[i].passes {
      assert rules[i] == Rule(false, f);
    }
  }

  /** The two first checks a password chain may start with. */
  predicate IsRequiredCheck(f: Failure)
  {
    f == PasswordRequired || f == NewPasswordRequired
  }

  /** The password chain: NotEmpty, MinimumLength(8), then the four character classes. */
  function PasswordChain(p: string, required: Failure): seq<Rule>
  {
    [ Rule(NotEmpty(p), required), Rule(Utf16Length(p) >= 8, PasswordTooShort),
      Rule(HasUpper(p), PasswordNoUpper), Rule(HasLower(p), PasswordNoLower),
      Rule(HasDigit(p), PasswordNoDigit), Rule(HasSpecial(p), PasswordNoSpecial) ]
  }

  /** The password chain's failures: none exactly when the password meets the policy. */
  function PasswordErrors(p: string, required: Failure): (r: seq<Failure>)
    ensures r == [] <==> MeetsPasswordPolicy(p)
  {
    Failing(PasswordChain(p, required))
  }

  /** The NotEmpty and MinimumLength checks of the password chain report their failures exactly when they fail. */
  lemma PasswordLengthFailures(p: string, required: Failure)
    requires IsRequiredCheck(required)
    ensures required in PasswordErrors(p, required) <==> !NotEmpty(p)
    ensures PasswordTooShort in PasswordErrors(p, required) <==> Utf16Length(p) < 8
  {
    var chain := PasswordChain(p, required);
    FailingAt(chain, 0); FailingAt(chain, 1);
  }

  /** The four character-class checks of the password chain report their failures exactly when they fail. */
  lemma PasswordClassFailures(p: string, required: Failure)
    requires IsRequiredCheck(required)
    ensures PasswordNoUpper in PasswordErrors(p, required) <==> !HasUpper(p)
    ensures PasswordNoLower in PasswordErrors(p, required) <==> !HasLower(p)
    ensures PasswordNoDigit in PasswordErrors(p, required) <==> !HasDigit(p)
    ensures PasswordNoSpecial in PasswordErrors(p, required) <==> !HasSpecial(p)
  {
    var chain := PasswordChain(p, required);
    FailingAt(chain, 2); FailingAt(chain, 3); FailingAt(chain, 4); FailingAt(chain, 5);
  }

  /** NotEmpty then MaximumLength(n), as used for the first and the last name. */
  function NameChain(s: string, max: nat, required: Failure, tooLong: Failure): seq<Rule>
  {
    [Rule(NotEmpty(s), required), Rule(Utf16Length(s) <= max, tooLong)]
  }

  /** The name chain's failures: none exactly for a name that is not blank and not too long. */
  function NameErrors(s: string, max: nat, required: Failure, tooLong: Failure): (r: seq<Failure>)
    ensures r == [] <==> NotEmpty(s) && Utf16Length(s) <= max
  {
    Failing(NameChain(s, max, required, tooLong))
  }

  /** Each check of the name chain reports its own failure exactly when it fails. */
  lemma NameFailures(s: string, max: nat, required: Failure, tooLong: Failure)
    requires required != tooLong
    ensures required in NameErrors(s, max, required, tooLong) <==> !NotEmpty(s)
    ensures tooLong in NameErrors(s, max, required, tooLong) <==> Utf16Length(s) > max
  {
    var chain := NameChain(s, max, required, tooLong);
    FailingAt(chain, 0); FailingAt(chain, 1);
  }

  /** MaximumLength(n) on a nullable string: a null value passes. */
  function OptionalLengthChain(s: Option<string>, max: nat, tooLong: Failure): seq<Rule>
  {
    [Rule(s.None? || Utf16Length(s.value) <= max, tooLong)]
  }

  /** The nullable-length chain's failure: reported exactly for a present value that is too long. */
  function OptionalLengthErrors(s: Option<string>, max: nat, tooLong: Failure): (r: seq<Failure>)
    ensures r == [] <==> s.None? || Utf16Length(s.value) <= max
    ensures tooLong in r <==> s.Some? && Utf16Length(s.value) > max
  {
    var chain := OptionalLengthChain(s, max, tooLong);
    FailingAt(chain, 0);
    Failing(chain)
  }

  /** NotEmpty then EmailAddress(); the address check itself is the framework's, a parameter here. */
  function EmailChain(email: string, isEmailAddress: string -> bool): seq<Rule>
  {
    [Rule(NotEmpty(email), EmailRequired), Rule(isEmailAddress(email), EmailInvalid)]
  }

  /** The email chain's failures: none exactly for a non-blank string the email check accepts. */
  function EmailErrors(email: string, isEmailAddress: string -> bool): (r: seq<Failure>)
    ensures r == [] <==> NotEmpty(email) && isEmailAddress(email)
  {
    Failing(EmailChain(email, isEmailAddress))
  }

  /** Each check of the email chain reports its own failure exactly when it fails. */
  lemma EmailFailures(email: string, isEmailAddress: string -> bool)
    ensures EmailRequired in EmailErrors(email, isEmailAddress) <==> !NotEmpty(email)
    ensures EmailInvalid in EmailErrors(email, isEmailAddress) <==> !isEmailAddress(email)
  {
    var chain := EmailChain(email, isEmailAddress);
    FailingAt(chain, 0); FailingAt(chain, 1);
  }

  /** Equal(other) or NotEqual(other) as a one-check chain: `holds` is the comparison's outcome. */
  function ComparisonErrors(holds: bool, failure: Failure): (r: seq<Failure>)
    ensures r == [] <==> holds
    ensures failure in r <==> !holds
  {
    var chain := [Rule(holds, failure)];
    FailingAt(chain, 0);
    Failing(chain)
  }
}

/** RegisterUserDtoValidator, with the user-name pattern as written and as intended. */
module RegisterValidation {
  import opened Common
  import opened Dtos
  import opened ValidationRules

  /** One character of the class [a-zA-Z0-9_.-]. */
  predicate UserNameChar(c: char)
  {
    IsAsciiUpper(c) || IsAsciiLower(c) || IsAsciiDigit(c) || c == '_' || c == '.' || c == '-'
  }

  predicate AllUserNameChars(s: string)
  {
    forall i :: 0 <= i < |s| ==> UserNameChar(s[i])
  }

  /**
   * Regex.IsMatch(s, "^[a-zA-Z0-9_.-]+$") as .NET evaluates it: without RegexOptions.Multiline,
   * `$` matches at the very end and also just before a final "\n".
   */
  predicate MatchesUserNamePatternAsWritten(s: string)
  {
    || (|s| >= 1 && AllUserNameChars(s))
    || (|s| >= 2 && s[|s| - 1] == '\n' && AllUserNameChars(s[..|s| - 1]))
  }

  /** The intended pattern (anchored with \z): one or more characters, every one of the class. */
  predicate MatchesUserNamePattern(s: string)
  {
    |s| >= 1 && AllUserNameChars(s)
  }

  /** The pattern as written lets a trailing line feed through, which the message says is not allowed. */
  lemma UserNamePatternAcceptsTrailingNewline()
    ensures MatchesUserNamePatternAsWritten("abc\n")
    ensures !MatchesUserNamePattern("abc\n")
  {
    assert ("abc\n")[..3] == "abc";
    assert !UserNameChar(("abc\n")[3]);
  }

  /** The intended pattern accepts exactly what the written one does, less the strings ending in a line feed. */
  lemma {:induction false} UserNamePatternDiffersOnlyByNewline(s: string)
    ensures MatchesUserNamePattern(s) <==> MatchesUserNamePatternAsWritten(s) && !(|s| > 0 && s[|s| - 1] == '\n')
  {
    if MatchesUserNamePattern(s) {
      assert !UserNameChar('\n');
      assert UserNameChar(s[|s| - 1]);
    }
    if MatchesUserNamePatternAsWritten(s) && !(|s| > 0 && s[|s| - 1] == '\n') {
      assert |s| >= 1 && AllUserNameChars(s);
    }
  }

  /**
   * How the end of the user-name pattern is anchored: `$` as the validator writes it (the end,
   * or just before a final line feed), or `\z`, the very end, as its message intends.
   */
  datatype Anchor = DollarAnchor | EndAnchor

  /** The user-name pattern under the given anchor. */
  predicate MatchesUserName(s: string, anchor: Anchor)
  {
    match anchor
    case DollarAnchor => MatchesUserNamePatternAsWritten(s)
    case EndAnchor => MatchesUserNamePattern(s)
  }

  /** The user-name chain: NotEmpty, MinimumLength(3), MaximumLength(50), the pattern. */
  function UserNameChain(s: string, anchor: Anchor): seq<Rule>
  {
    [ Rule(NotEmpty(s), UserNameRequired), Rule(Utf16Length(s) >= 3, UserNameTooShort),
      Rule(Utf16Length(s) <= 50, UserNameTooLong), Rule(MatchesUserName(s, anchor), UserNameBadCharacters) ]
  }

  /** The user-name chain's failures: none exactly for a user name of 3 to 50 code units that matches the pattern. */
  function UserNameErrors(s: string, anchor: Anchor): (r: seq<Failure>)
    ensures r == [] <==> NotEmpty(s) && 3 <= Utf16Length(s) <= 50 && MatchesUserName(s, anchor)
  {
    Failing(UserNameChain(s, anchor))
  }

  /** Each check of the user-name chain reports its own failure exactly when it fails. */
  lemma UserNameFailures(s: string, anchor: Anchor)
    ensures UserNameRequired in UserNameErrors(s, anchor) <==> !NotEmpty(s)
    ensures UserNameTooShort in UserNameErrors(s, anchor) <==> Utf16Length(s) < 3
    ensures UserNameTooLong in UserNameErrors(s, anchor) <==> Utf16Length(s) > 50
    ensures UserNameBadCharacters in UserNameErrors(s, anchor) <==> !MatchesUserName(s, anchor)
  {
    var chain := UserNameChain(s, anchor);
    FailingAt(chain, 0); FailingAt(chain, 1); FailingAt(chain, 2); FailingAt(chain, 3);
  }

  /** What a valid registration form is. */
  predicate ValidRegistration(dto: RegisterUserDto, isEmailAddress: string -> bool, anchor: Anchor)
  {
    && NotEmpty(dto.userName) && 3 <= Utf16Length(dto.userName) <= 50 && MatchesUserName(dto.userName, anchor)
    && NotEmpty(dto.email) && isEmailAddress(dto.email)
    && MeetsPasswordPolicy(dto.password)
    && dto.confirmPassword == dto.password
    && NotEmpty(dto.firstName) && Utf16Length(dto.firstName) <= 100
    && NotEmpty(dto.lastName) && Utf16Length(dto.lastName) <= 100
    && (dto.address.None? || Utf16Length(dto.address.value) <= 500)
  }

  /** The rules of RegisterUserDtoValidator, in declaration order. */
  function RegistrationRules(dto: RegisterUserDto, isEmailAddress: string -> bool, anchor: Anchor): seq<Rule>
  {
    UserNameChain(dto.userName, anchor)
    + EmailChain(dto.email, isEmailAddress)
    + PasswordChain(dto.password, PasswordRequired)
    + [Rule(dto.confirmPassword == dto.password, PasswordsDoNotMatch)]
    + NameChain(dto.firstName, 100, FirstNameRequired, FirstNameTooLong)
    + NameChain(dto.lastName, 100, LastNameRequired, LastNameTooLong)
    + OptionalLengthChain(dto.address, 500, AddressTooLong)
  }

  /**
   * RegisterUserDtoValidator: each RuleFor chain runs in turn and all their failures are collected.
   * With DollarAnchor this is the validator as written; with EndAnchor, as its message intends.
   */
  function ValidateRegistration(dto: RegisterUserDto, isEmailAddress: string -> bool, anchor: Anchor): (errors: seq<Failure>)
    ensures errors == [] <==> ValidRegistration(dto, isEmailAddress, anchor)
  {
    var u := UserNameErrors(dto.userName, anchor);
    var e := EmailErrors(dto.email, isEmailAddress);
    var p := PasswordErrors(dto.password, PasswordRequired);
    var c := ComparisonErrors(dto.confirmPassword == dto.password, PasswordsDoNotMatch);
    var f := NameErrors(dto.firstName, 100, FirstNameRequired, FirstNameTooLong);
    var l := NameErrors(dto.lastName, 100, LastNameRequired, LastNameTooLong);
    var a := OptionalLengthErrors(dto.address, 500, AddressTooLong);
    assert |u + e + p + c + f + l + a| == |u| + |e| + |p| + |c| + |f| + |l| + |a|;
    u + e + p + c + f + l + a
  }

  /** The failures are those of the validator's rules, run one after the other in declaration order. */
  lemma RegistrationInRuleOrder(dto: RegisterUserDto, isEmailAddress: string -> bool, anchor: Anchor)
    ensures ValidateRegistration(dto, isEmailAddress, anchor) == Failing(RegistrationRules(dto, isEmailAddress, anchor))
  {
    var u := UserNameChain(dto.userName, anchor);
    var e := EmailChain(dto.email, isEmailAddress);
    var p := PasswordChain(dto.password, PasswordRequired);
    var c := [Rule(dto.confirmPassword == dto.password, PasswordsDoNotMatch)];
    var f := NameChain(dto.firstName, 100, FirstNameRequired, FirstNameTooLong);
    var l := NameChain(dto.lastName, 100, LastNameRequired, LastNameTooLong);
    var ad := OptionalLengthChain(dto.address, 500, AddressTooLong);
    FailingAppend(u, e);
    FailingAppend(u + e, p);
    FailingAppend(u + e + p, c);
    FailingAppend(u + e + p + c, f);
    FailingAppend(u + e + p + c + f, l);
    FailingAppend(u + e + p + c + f + l, ad);
  }

  /** A user-name check that fails is reported by the whole validator. */
  lemma RegistrationReportsUserName(dto: RegisterUserDto, isEmailAddress: string -> bool, anchor: Anchor)
    ensures !NotEmpty(dto.userName) ==> UserNameRequired in ValidateRegistration(dto, isEmailAddress, anchor)
    ensures Utf16Length(dto.userName) < 3 ==> UserNameTooShort in ValidateRegistration(dto, isEmailAddress, anchor)
    ensures Utf16Length(dto.userName) > 50 ==> UserNameTooLong in ValidateRegistration(dto, isEmailAddress, anchor)
    ensures !MatchesUserName(dto.userName, anchor) ==> UserNameBadCharacters in ValidateRegistration(dto, isEmailAddress, anchor)
  {
    UserNameFailures(dto.userName, anchor);
  }

  /** A password check that fails is reported by the whole validator. */
  lemma RegistrationReportsPassword(dto: RegisterUserDto, isEmailAddress: string -> bool, anchor: Anchor)
    ensures !NotEmpty(dto.password) ==> PasswordRequired in ValidateRegistration(dto, isEmailAddress, anchor)
    ensures Utf16Length(dto.password) < 8 ==> PasswordTooShort in ValidateRegistration(dto, isEmailAddress, anchor)
    ensures !HasUpper(dto.password) ==> PasswordNoUpper in ValidateRegistration(dto, isEmailAddress, anchor)
    ensures !HasLower(dto.password) ==> PasswordNoLower in ValidateRegistration(dto, isEmailAddress, anchor)
    ensures !HasDigit(dto.password) ==> PasswordNoDigit in ValidateRegistration(dto, isEmailAddress, anchor)
    ensures !HasSpecial(dto.password) ==> PasswordNoSpecial in ValidateRegistration(dto, isEmailAddress, anchor)
  {
    PasswordLengthFailures(dto.password, PasswordRequired);
    PasswordClassFailures(dto.password, PasswordRequired);
  }

  /** An email, confirmation, name or address check that fails is reported by the whole validator. */
  lemma RegistrationReportsProfile(dto: RegisterUserDto, isEmailAddress: string -> bool, anchor: Anchor)
    ensures !NotEmpty(dto.email) ==> EmailRequired in ValidateRegistration(dto, isEmailAddress, anchor)
    ensures !isEmailAddress(dto.email) ==> EmailInvalid in ValidateRegistration(dto, isEmailAddress, anchor)
    ensures dto.confirmPassword != dto.password ==> PasswordsDoNotMatch in ValidateRegistration(dto, isEmailAddress, anchor)
    ensures !NotEmpty(dto.firstName) ==> FirstNameRequired in ValidateRegistration(dto, isEmailAddress, anchor)
    ensures Utf16Length(dto.firstName) > 100 ==> FirstNameTooLong in ValidateRegistration(dto, isEmailAddress, anchor)
    ensures !NotEmpty(dto.lastName) ==> LastNameRequired in ValidateRegistration(dto, isEmailAddress, anchor)
    ensures Utf16Length(dto.lastName) > 100 ==> LastNameTooLong in ValidateRegistration(dto, isEmailAddress, anchor)
    ensures dto.address.Some? && Utf16Length(dto.address.value) > 500 ==> AddressTooLong in ValidateRegistration(dto, isEmailAddress, anchor)
  {
    EmailFailures(dto.email, isEmailAddress);
    NameFailures(dto.firstName, 100, FirstNameRequired, FirstNameTooLong);
    NameFailures(dto.lastName, 100, LastNameRequired, LastNameTooLong);
  }

  /** The two anchors judge every form alike unless its user name ends in a line feed. */
  lemma AnchorsAgreeWithoutFinalNewline(dto: RegisterUserDto, isEmailAddress: string -> bool)
    requires !(|dto.userName| > 0 && dto.userName[|dto.userName| - 1] == '\n')
    ensures ValidateRegistration(dto, isEmailAddress, DollarAnchor) == ValidateRegistration(dto, isEmailAddress, EndAnchor)
  {
    UserNamePatternDiffersOnlyByNewline(dto.userName);
    assert MatchesUserName(dto.userName, DollarAnchor) == MatchesUserName(dto.userName, EndAnchor);
    assert UserNameErrors(dto.userName, DollarAnchor) == UserNameErrors(dto.userName, EndAnchor);
  }

  /** A final line feed is one more UTF-16 code unit. */
  lemma {:induction false} Utf16LengthSnocNewline(s: string)
    ensures Utf16Length(s + "\n") == Utf16Length(s) + 1
  {
    if s != [] {
      assert (s + "\n")[1..] == s[1..] + "\n";
      Utf16LengthSnocNewline(s[1..]);
    }
  }

  /** A user name failing only the pattern reports only the pattern's message. */
  lemma UserNameOnlyBadCharacters(s: string, anchor: Anchor)
    requires NotEmpty(s) && 3 <= Utf16Length(s) <= 50 && !MatchesUserName(s, anchor)
    ensures UserNameErrors(s, anchor) == [UserNameBadCharacters]
  {
    var c := UserNameChain(s, anchor);
    assert c == c[..3] + [c[3]];
    FailingAppend(c[..3], [c[3]]);
    assert Failing([c[3]]) == [UserNameBadCharacters] + Failing([]);
  }

  /** A user name with a line feed appended, as the two anchors see it. */
  lemma AppendedNewline(s: string)
    requires NotEmpty(s) && 3 <= Utf16Length(s) < 50 && MatchesUserNamePattern(s)
    ensures NotEmpty(s + "\n") && 3 <= Utf16Length(s + "\n") <= 50
    ensures MatchesUserName(s + "\n", DollarAnchor) && !MatchesUserName(s + "\n", EndAnchor)
  {
    var n := s + "\n";
    Utf16LengthSnocNewline(s);
    assert n[..|n| - 1] == s;
    assert !IsWhiteSpaceOnly(n) by {
      var i :| 0 <= i < |s| && !IsWhiteSpace(s[i]);
      assert n[i] == s[i];
    }
    assert !UserNameChar(n[|n| - 1]);
  }

  /**
   * Any form the intended validator accepts, with a line feed appended to a user name shorter than
   * the maximum: the validator as written still accepts it, the intended one reports only the
   * user name's characters.
   */
  lemma TrailingNewlineUserNamePassesValidation(dto: RegisterUserDto, isEmailAddress: string -> bool)
    requires ValidRegistration(dto, isEmailAddress, EndAnchor) && Utf16Length(dto.userName) < 50
    ensures var withNewline := dto.(userName := dto.userName + "\n");
            && ValidateRegistration(withNewline, isEmailAddress, DollarAnchor) == []
            && ValidateRegistration(withNewline, isEmailAddress, EndAnchor) == [UserNameBadCharacters]
  {
    AppendedNewline(dto.userName);
    NewlineFormAcceptedAsWritten(dto, isEmailAddress);
    NewlineFormRefusedAsIntended(dto, isEmailAddress);
  }

  /** The acceptance half of TrailingNewlineUserNamePassesValidation. */
  lemma NewlineFormAcceptedAsWritten(dto: RegisterUserDto, isEmailAddress: string -> bool)
    requires ValidRegistration(dto, isEmailAddress, EndAnchor)
    requires NotEmpty(dto.userName + "\n") && 3 <= Utf16Length(dto.userName + "\n") <= 50
    requires MatchesUserName(dto.userName + "\n", DollarAnchor)
    ensures ValidateRegistration(dto.(userName := dto.userName + "\n"), isEmailAddress, DollarAnchor) == []
  {
    assert ValidRegistration(dto.(userName := dto.userName + "\n"), isEmailAddress, DollarAnchor);
  }

  /** The refusal half of TrailingNewlineUserNamePassesValidation. */
  lemma NewlineFormRefusedAsIntended(dto: RegisterUserDto, isEmailAddress: string -> bool)
    requires ValidRegistration(dto, isEmailAddress, EndAnchor)
    requires NotEmpty(dto.userName + "\n") && 3 <= Utf16Length(dto.userName + "\n") <= 50
    requires !MatchesUserName(dto.userName + "\n", EndAnchor)
    ensures ValidateRegistration(dto.(userName := dto.userName + "\n"), isEmailAddress, EndAnchor) == [UserNameBadCharacters]
  {
    var withNewline := dto.(userName := dto.userName + "\n");
    UserNameOnlyBadCharacters(withNewline.userName, EndAnchor);
    RegistrationParts(dto, isEmailAddress, EndAnchor);
    RegistrationParts(withNewline, isEmailAddress, EndAnchor);
  }

  /** The validator's failures, chain by chain. */
  lemma RegistrationParts(dto: RegisterUserDto, isEmailAddress: string -> bool, anchor: Anchor)
    ensures ValidateRegistration(dto, isEmailAddress, anchor)
            == UserNameErrors(dto.userName, anchor) + EmailErrors(dto.email, isEmailAddress)
               + PasswordErrors(dto.password, PasswordRequired)
               + ComparisonErrors(dto.confirmPassword == dto.password, PasswordsDoNotMatch)
               + NameErrors(dto.firstName, 100, FirstNameRequired, FirstNameTooLong)
               + NameErrors(dto.lastName, 100, LastNameRequired, LastNameTooLong)
               + OptionalLengthErrors(dto.address, 500, AddressTooLong)
  {
  }
}

/** PasswordChangeDtoValidator. */
module PasswordChangeValidation {
  import opened Common
  import opened Dtos
  import opened ValidationRules

  /** What a valid password-change form is. */
  predicate ValidPasswordChange(dto: PasswordChangeDto)
  {
    && NotEmpty(dto.userId) && NotEmpty(dto.currentPassword)
    && MeetsPasswordPolicy(dto.newPassword) && dto.newPassword != dto.currentPassword
    && dto.confirmPassword == dto.newPassword
  }

  /** The rules of PasswordChangeDtoValidator; the new-password chain ends with NotEqual(CurrentPassword). */
  function PasswordChangeRules(dto: PasswordChangeDto): seq<Rule>
  {
    [Rule(NotEmpty(dto.userId), UserIdRequired), Rule(NotEmpty(dto.currentPassword), CurrentPasswordRequired)]
    + PasswordChain(dto.newPassword, NewPasswordRequired)
    + [ Rule(dto.newPassword != dto.currentPassword, NewPasswordSameAsCurrent),
        Rule(dto.confirmPassword == dto.newPassword, PasswordsDoNotMatch) ]
  }

  /** PasswordChangeDtoValidator: each RuleFor chain runs in turn and all their failures are collected. */
  function ValidatePasswordChange(dto: PasswordChangeDto): (errors: seq<Failure>)
    ensures errors == [] <==> ValidPasswordChange(dto)
  {
    var i := ComparisonErrors(NotEmpty(dto.userId), UserIdRequired);
    var c := ComparisonErrors(NotEmpty(dto.currentPassword), CurrentPasswordRequired);
    var p := PasswordErrors(dto.newPassword, NewPasswordRequired);
    var d := ComparisonErrors(dto.newPassword != dto.currentPassword, NewPasswordSameAsCurrent);
    var m := ComparisonErrors(dto.confirmPassword == dto.newPassword, PasswordsDoNotMatch);
    assert |i + c + p + d + m| == |i| + |c| + |p| + |d| + |m|;
    i + c + p + d + m
  }

  /** The failures are those of the validator's rules, run one after the other in declaration order. */
  lemma PasswordChangeInRuleOrder(dto: PasswordChangeDto)
    ensures ValidatePasswordChange(dto) == Failing(PasswordChangeRules(dto))
  {
    var i := [Rule(NotEmpty(dto.userId), UserIdRequired)];
    var c := [Rule(NotEmpty(dto.currentPassword), CurrentPasswordRequired)];
    var p := PasswordChain(dto.newPassword, NewPasswordRequired);
    var d := [Rule(dto.newPassword != dto.currentPassword, NewPasswordSameAsCurrent)];
    var m := [Rule(dto.confirmPassword == dto.newPassword, PasswordsDoNotMatch)];
    assert PasswordChangeRules(dto) == i + c + p + d + m;
    FailingAppend(i, c);
    FailingAppend(i + c, p);
    FailingAppend(i + c + p, d);
    FailingAppend(i + c + p + d, m);
  }

  /** A check that fails is reported by the whole validator. */
  lemma PasswordChangeReports(dto: PasswordChangeDto)
    ensures !NotEmpty(dto.userId) ==> UserIdRequired in ValidatePasswordChange(dto)
    ensures !NotEmpty(dto.currentPassword) ==> CurrentPasswordRequired in ValidatePasswordChange(dto)
    ensures !NotEmpty(dto.newPassword) ==> NewPasswordRequired in ValidatePasswordChange(dto)
    ensures Utf16Length(dto.newPassword) < 8 ==> PasswordTooShort in ValidatePasswordChange(dto)
    ensures !HasUpper(dto.newPassword) ==> PasswordNoUpper in ValidatePasswordChange(dto)
    ensures !HasLower(dto.newPassword) ==> PasswordNoLower in ValidatePasswordChange(dto)
    ensures !HasDigit(dto.newPassword) ==> PasswordNoDigit in ValidatePasswordChange(dto)
    ensures !HasSpecial(dto.newPassword) ==> PasswordNoSpecial in ValidatePasswordChange(dto)
    ensures dto.newPassword == dto.currentPassword ==> NewPasswordSameAsCurrent in ValidatePasswordChange(dto)
    ensures dto.confirmPassword != dto.newPassword ==> PasswordsDoNotMatch in ValidatePasswordChange(dto)
  {
    PasswordLengthFailures(dto.newPassword, NewPasswordRequired);
    PasswordClassFailures(dto.newPassword, NewPasswordRequired);
  }

  /** A new password this validator accepts passes the registration password chain too. */
  lemma AcceptedNewPasswordPassesRegistrationRule(dto: PasswordChangeDto)
    requires ValidatePasswordChange(dto) == []
    ensures PasswordErrors(dto.newPassword, PasswordRequired) == []
  {
  }
}

/** UpdateUserDtoValidator: IsActive has no rule. */
module UpdateUserValidation {
  import opened Common
  import opened Dtos
  import opened ValidationRules

  /** What a valid profile form is; the IsActive flag plays no part. */
  predicate ValidProfile(id: string, firstName: string, lastName: string, email: string, address: Option<string>,
                         isEmailAddress: string -> bool)
  {
    && NotEmpty(id)
    && NotEmpty(firstName) && Utf16Length(firstName) <= 100
    && NotEmpty(lastName) && Utf16Length(lastName) <= 100
    && NotEmpty(email) && isEmailAddress(email)
    && (address.None? || Utf16Length(address.value) <= 500)
  }

  /** The rules of UpdateUserDtoValidator, in declaration order. */
  function UpdateUserRules(dto: UpdateUserDto, isEmailAddress: string -> bool): seq<Rule>
  {
    [Rule(NotEmpty(dto.id), UserIdRequired)]
    + NameChain(dto.firstName, 100, FirstNameRequired, FirstNameTooLong)
    + NameChain(dto.lastName, 100, LastNameRequired, LastNameTooLong)
    + EmailChain(dto.email, isEmailAddress)
    + OptionalLengthChain(dto.address, 500, AddressTooLong)
  }

  /** UpdateUserDtoValidator: each RuleFor chain runs in turn and all their failures are collected. */
  function ValidateUpdateUser(dto: UpdateUserDto, isEmailAddress: string -> bool): (errors: seq<Failure>)
    ensures errors == [] <==> ValidProfile(dto.id, dto.firstName, dto.lastName, dto.email, dto.address, isEmailAddress)
  {
    var i := ComparisonErrors(NotEmpty(dto.id), UserIdRequired);
    var f := NameErrors(dto.firstName, 100, FirstNameRequired, FirstNameTooLong);
    var l := NameErrors(dto.lastName, 100, LastNameRequired, LastNameTooLong);
    var e := EmailErrors(dto.email, isEmailAddress);
    var a := OptionalLengthErrors(dto.address, 500, AddressTooLong);
    assert |i + f + l + e + a| == |i| + |f| + |l| + |e| + |a|;
    i + f + l + e + a
  }

  /** The failures are those of the validator's rules, run one after the other in declaration order. */
  lemma UpdateUserInRuleOrder(dto: UpdateUserDto, isEmailAddress: string -> bool)
    ensures ValidateUpdateUser(dto, isEmailAddress) == Failing(UpdateUserRules(dto, isEmailAddress))
  {
    var i := [Rule(NotEmpty(dto.id), UserIdRequired)];
    var f := NameChain(dto.firstName, 100, FirstNameRequired, FirstNameTooLong);
    var l := NameChain(dto.lastName, 100, LastNameRequired, LastNameTooLong);
    var e := EmailChain(dto.email, isEmailAddress);
    var a := OptionalLengthChain(dto.address, 500, AddressTooLong);
    FailingAppend(i, f);
    FailingAppend(i + f, l);
    FailingAppend(i + f + l, e);
    FailingAppend(i + f + l + e, a);
  }

  /** A check that fails is reported by the whole validator. */
  lemma UpdateUserReports(dto: UpdateUserDto, isEmailAddress: string -> bool)
    ensures !NotEmpty(dto.id) ==> UserIdRequired in ValidateUpdateUser(dto, isEmailAddress)
    ensures !NotEmpty(dto.firstName) ==> FirstNameRequired in ValidateUpdateUser(dto, isEmailAddress)
    ensures Utf16Length(dto.firstName) > 100 ==> FirstNameTooLong in ValidateUpdateUser(dto, isEmailAddress)
    ensures !NotEmpty(dto.lastName) ==> LastNameRequired in ValidateUpdateUser(dto, isEmailAddress)
    ensures Utf16Length(dto.lastName) > 100 ==> LastNameTooLong in ValidateUpdateUser(dto, isEmailAddress)
    ensures !NotEmpty(dto.email) ==> EmailRequired in ValidateUpdateUser(dto, isEmailAddress)
    ensures !isEmailAddress(dto.email) ==> EmailInvalid in ValidateUpdateUser(dto, isEmailAddress)
    ensures dto.address.Some? && Utf16Length(dto.address.value) > 500 ==> AddressTooLong in ValidateUpdateUser(dto, isEmailAddress)
  {
    NameFailures(dto.firstName, 100, FirstNameRequired, FirstNameTooLong);
    NameFailures(dto.lastName, 100, LastNameRequired, LastNameTooLong);
    EmailFailures(dto.email, isEmailAddress);
  }
}

/** LoginDtoValidator: two NotEmpty rules and no password policy. */
module LoginValidation {
  import opened Common
  import opened Dtos
  import opened ValidationRules

  /** LoginDtoValidator; RememberMe is not read. */
  function ValidateLogin(dto: LoginDto): (errors: seq<Failure>)
    ensures errors == [] <==> NotEmpty(dto.userName) && NotEmpty(dto.password)
    ensures UserNameRequired in errors <==> !NotEmpty(dto.userName)
    ensures PasswordRequired in errors <==> !NotEmpty(dto.password)
    ensures forall f :: f in errors ==> f == UserNameRequired || f == PasswordRequired
  {
    var chain := [Rule(NotEmpty(dto.userName), UserNameRequired), Rule(NotEmpty(dto.password), PasswordRequired)];
    FailingAt(chain, 0); FailingAt(chain, 1);
    FailingMembers(chain, UserNameRequired);
    assert forall f :: f in Failing(chain) ==> f == UserNameRequired || f == PasswordRequired by {
      forall f | f in Failing(chain) ensures f == UserNameRequired || f == PasswordRequired {
        FailingMembers(chain, f);
      }
    }
    Failing(chain)
  }

  /**
   * The login form applies no password policy: any non-blank password passes, even one that
   * fails the registration policy, such as "x".
   */
  lemma LoginAppliesNoPolicy(dto: LoginDto)
    requires NotEmpty(dto.userName) && NotEmpty(dto.password)
    ensures ValidateLogin(dto) == []
    ensures ValidateLogin(dto.(password := "x")) == [] && !MeetsPasswordPolicy("x")
  {
    assert !IsWhiteSpace(("x")[0]);
    assert Utf16Length("x") == 1;
  }
}
