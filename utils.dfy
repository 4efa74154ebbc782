/** The validators, formatters and score calculators of utils.py. */
module Utils {
  import opened Results
  import opened Text
  import opened Seqs

  // ---------------------------------------------------------------------
  // SecurityUtils.validate_password_strength
  // ---------------------------------------------------------------------

  /** The 32 characters of Python's `string.punctuation`: the printable
      ASCII characters that are neither letters, digits nor the space. */
  predicate IsPunctuation(c: char) {
    ('!' <= c <= '/') || (':' <= c <= '@') || ('[' <= c <= '`') || ('{' <= c <= '~')
  }

  /** The five things the strength score counts. */
  datatype Criterion = LongEnough | HasUpper | HasLower | HasDigit | HasPunctuation

  const AllCriteria: seq<Criterion> := [LongEnough, HasUpper, HasLower, HasDigit, HasPunctuation]

  /** Whether `password` meets one criterion, each an `any(...)` over its
      characters except the length. */
  predicate Meets(password: string, c: Criterion) {
    match c
    case LongEnough => |password| >= 6
    case HasUpper => exists i :: 0 <= i < |password| && IsUpper(password[i])
    case HasLower => exists i :: 0 <= i < |password| && IsLower(password[i])
    case HasDigit => exists i :: 0 <= i < |password| && IsDigit(password[i])
    case HasPunctuation => exists i :: 0 <= i < |password| && IsPunctuation(password[i])
  }

  /** The strength of a password: how many of the five criteria it meets. */
  function Strength(password: string): nat {
    CountWhere(AllCriteria, (c: Criterion) => Meets(password, c))
  }

  /** The only error the check can report. */
  const PasswordTooShort: string := "Пароль повинен містити мінімум 6 символів"

  datatype PasswordCheck = PasswordCheck(isValid: bool, errors: seq<string>, score: nat)

  /** Whether some character of `s` satisfies `p`, scanning left to right
      like Python's `any`. */
  method Any(s: string, p: char -> bool) returns (found: bool)
    ensures found <==> exists i :: 0 <= i < |s| && p(s[i])
  {
    found := false;
    var i := 0;
    while i < |s| && !found
      invariant 0 <= i <= |s|
      invariant found <==> exists j :: 0 <= j < i && p(s[j])
    {
      found := p(s[i]);
      i := i + 1;
    }
  }

  function Bit(b: bool): nat { if b then 1 else 0 }

  /** The strength is the sum of the five criteria's bits. */
  lemma StrengthUnfold(password: string)
    ensures Strength(password) ==
      Bit(Meets(password, LongEnough)) + Bit(Meets(password, HasUpper)) + Bit(Meets(password, HasLower))
      + Bit(Meets(password, HasDigit)) + Bit(Meets(password, HasPunctuation))
  {
    var p := (c: Criterion) => Meets(password, c);
    assert AllCriteria[1..][1..][1..][1..][1..] == [];
  }

  /** One of the four `any(...)` scans over the characters. */
  method Satisfies(password: string, c: Criterion) returns (met: bool)
    requires c != LongEnough
    ensures met == Meets(password, c)
  {
    match c
    case HasUpper => met := Any(password, IsUpper);
    case HasLower => met := Any(password, IsLower);
    case HasDigit => met := Any(password, IsDigit);
    case HasPunctuation => met := Any(password, IsPunctuation);
  }

  /** `validate_password_strength`: the password is valid exactly when it
      is long enough, the too-short message is the only possible error, and
      the score is the number of criteria met. */
  method ValidatePasswordStrength(password: string) returns (r: PasswordCheck)
    ensures r.isValid <==> |password| >= 6
    ensures r.errors == (if |password| < 6 then [PasswordTooShort] else [])
    ensures r.score == Strength(password)
    ensures r.score <= 5
  {
    var isValid := true;
    var errors: seq<string> := [];
    var score: nat := 0;
    if |password| < 6 {
      errors := errors + [PasswordTooShort];
      isValid := false;
    } else {
      score := score + 1;
    }
    assert score == Bit(|password| >= 6);
    var upper := Satisfies(password, HasUpper);
    if upper {
      score := score + 1;
    }
    assert score == Bit(|password| >= 6) + Bit(upper);
    var lower := Satisfies(password, HasLower);
    if lower {
      score := score + 1;
    }
    assert score == Bit(|password| >= 6) + Bit(upper) + Bit(lower);
    var digit := Satisfies(password, HasDigit);
    if digit {
      score := score + 1;
    }
    assert score == Bit(|password| >= 6) + Bit(upper) + Bit(lower) + Bit(digit);
    var punct := Satisfies(password, HasPunctuation);
    if punct {
      score := score + 1;
    }
    assert score == Bit(|password| >= 6) + Bit(upper) + Bit(lower) + Bit(digit) + Bit(punct);
    StrengthUnfold(password);
    r := PasswordCheck(isValid, errors, score);
  }

  /** A password meets every criterion its prefix meets. */
  lemma MeetsExtend(password: string, more: string, c: Criterion)
    requires Meets(password, c)
    ensures Meets(password + more, c)
  {
    var q := password + more;
    match c
    case LongEnough =>
    case HasUpper =>
      var i :| 0 <= i < |password| && IsUpper(password[i]);
      assert q[i] == password[i];
    case HasLower =>
      var i :| 0 <= i < |password| && IsLower(password[i]);
      assert q[i] == password[i];
    case HasDigit =>
      var i :| 0 <= i < |password| && IsDigit(password[i]);
      assert q[i] == password[i];
    case HasPunctuation =>
      var i :| 0 <= i < |password| && IsPunctuation(password[i]);
      assert q[i] == password[i];
  }

  /** Appending characters never lowers the strength score. */
  lemma StrengthMonotone(password: string, more: string)
    ensures Strength(password) <= Strength(password + more)
  {
    StrengthUnfold(password);
    StrengthUnfold(password + more);
    forall c | Meets(password, c) ensures Meets(password + more, c) {
      MeetsExtend(password, more, c);
    }
  }

  /** The score is 5 exactly when the password meets all five criteria. */
  lemma FullStrength(password: string)
    ensures Strength(password) == 5 <==> forall c :: Meets(password, c)
  {
    StrengthUnfold(password);
    if Strength(password) == 5 {
      forall c ensures Meets(password, c) {
        match c
        case LongEnough =>
        case HasUpper =>
        case HasLower =>
        case HasDigit =>
        case HasPunctuation =>
      }
    }
  }

  // ---------------------------------------------------------------------
  // ValidationUtils.sanitize_input
  // ---------------------------------------------------------------------

  /** `s.replace(c, '')`: `s` with every occurrence of `c` removed. */
  function RemoveChar(s: string, c: char): (r: string)
    ensures |r| <= |s|
    ensures forall x :: x in r <==> x in s && x != c
  {
    if s == [] then []
    else if s[0] == c then RemoveChar(s[1..], c)
    else [s[0]] + RemoveChar(s[1..], c)
  }

  /** Removal keeps every other character, in order and with its
      multiplicity, and drops every `c`. */
  lemma {:induction false} RemoveCharFilter(s: string, c: char)
    ensures RemoveChar(s, c) == Filter(s, (x: char) => x != c)
    ensures multiset(RemoveChar(s, c)) == multiset(s)[c := 0]
  {
    if s != [] {
      assert s == [s[0]] + s[1..];
      RemoveCharFilter(s[1..], c);
    }
  }

  /** Removing a character the string does not hold changes nothing. */
  lemma {:induction false} RemoveAbsent(s: string, c: char)
    requires c !in s
    ensures RemoveChar(s, c) == s
  {
    if s != [] {
      assert s == [s[0]] + s[1..];
      RemoveAbsent(s[1..], c);
    }
  }

  /** The characters `sanitize_input` deletes, in the order it deletes them. */
  const Dangerous: seq<char> := ['<', '>', '"', '\'', '&', ';']

  /** `s` after one `replace(c, '')` for each `c` of `cs` in turn. */
  function RemoveAll(s: string, cs: seq<char>): (r: string)
    ensures forall x :: x in r <==> x in s && x !in cs
  {
    if cs == [] then s
    else
      var init, c := cs[..|cs| - 1], cs[|cs| - 1];
      assert cs == init + [c];
      RemoveChar(RemoveAll(s, init), c)
  }

  /** Removing several characters keeps the others in order and with their
      multiplicity. */
  lemma {:induction false} RemoveAllFilter(s: string, cs: seq<char>)
    ensures RemoveAll(s, cs) == Filter(s, (x: char) => x !in cs)
    ensures forall x :: multiset(RemoveAll(s, cs))[x] == if x in cs then 0 else multiset(s)[x]
  {
    if cs == [] {
      FilterAll(s, (x: char) => x !in cs);
    } else {
      var init, c := cs[..|cs| - 1], cs[|cs| - 1];
      assert cs == init + [c];
      RemoveAllFilter(s, init);
      RemoveCharFilter(RemoveAll(s, init), c);
      FilterFilter(s, (x: char) => x !in init, (x: char) => x != c, (x: char) => x !in cs);
    }
  }

  /** Removing characters none of which occur changes nothing. */
  lemma {:induction false} RemoveAllAbsent(s: string, cs: seq<char>)
    requires forall x :: x in s ==> x !in cs
    ensures RemoveAll(s, cs) == s
  {
    if cs != [] {
      RemoveAllAbsent(s, cs[..|cs| - 1]);
      RemoveAbsent(s, cs[|cs| - 1]);
    }
  }

  /** One more `replace` extends the removed prefix of `cs` by one. */
  lemma RemoveAllStep(s: string, cs: seq<char>, k: nat)
    requires k < |cs|
    ensures RemoveAll(s, cs[..k + 1]) == RemoveChar(RemoveAll(s, cs[..k]), cs[k])
  {
    assert cs[..k + 1][..k] == cs[..k];
  }

  /** What `sanitize_input` returns. */
  function Sanitized(text: string): string {
    Strip(RemoveAll(text, Dangerous))
  }

  /** `sanitize_input`: delete the dangerous characters one kind after the
      other, then strip the ends. */
  method SanitizeInput(text: string) returns (r: string)
    ensures r == Sanitized(text)
  {
    var t := text;
    for k := 0 to |Dangerous|
      invariant t == RemoveAll(text, Dangerous[..k])
    {
      RemoveAllStep(text, Dangerous, k);
      t := RemoveChar(t, Dangerous[k]);
    }
    assert Dangerous[..|Dangerous|] == Dangerous;
    r := Strip(t);
  }

  /** Every character of a stripped string occurs in the original. */
  lemma StripMembers(s: string, x: char)
    requires x in Strip(s)
    ensures x in s
  {
    var lo, hi := StripShape(s);
    var i :| 0 <= i < |s[lo..hi]| && s[lo..hi][i] == x;
    assert s[lo + i] == x;
  }

  /** The sanitized text holds none of the dangerous characters, has no
      whitespace at either end, and holds only characters of the input. */
  lemma SanitizedSafe(text: string)
    ensures forall x :: x in Sanitized(text) ==> x !in Dangerous && x in text
    ensures Trimmed(Sanitized(text))
  {
    forall x | x in Sanitized(text) ensures x !in Dangerous && x in text {
      StripMembers(RemoveAll(text, Dangerous), x);
    }
  }

  /** Sanitizing twice is sanitizing once. */
  lemma SanitizeIdempotent(text: string)
    ensures Sanitized(Sanitized(text)) == Sanitized(text)
  {
    var s := Sanitized(text);
    SanitizedSafe(text);
    RemoveAllAbsent(s, Dangerous);
    StripTrimmed(s);
  }

  // ---------------------------------------------------------------------
  // ValidationUtils.validate_username
  // ---------------------------------------------------------------------

  /** The three reasons a username is refused, in the order they are
      reported. */
  datatype UsernameError = TooShort | TooLong | BadCharacters

  /** The message each error is reported with. */
  function UsernameMessage(e: UsernameError): string {
    match e
    case TooShort => "Ім'я користувача повинно містити мінімум 3 символи"
    case TooLong => "Ім'я користувача не може містити більше 50 символів"
    case BadCharacters => "Ім'я користувача може містити тільки літери, цифри, _ та -"
  }

  function Rank(e: UsernameError): nat {
    match e
    case TooShort => 0
    case TooLong => 1
    case BadCharacters => 2
  }

  datatype UsernameCheck = UsernameCheck(isValid: bool, errors: seq<UsernameError>)

  /** `str.isalnum`: a non-empty string of letters and digits. */
  predicate IsAlnumString(s: string) {
    s != [] && forall i :: 0 <= i < |s| ==> IsAlnum(s[i])
  }

  /** Whether the character test of `validate_username` fails, stated in
      terms of the username itself: it consists of `_` and `-` only (which
      also covers the empty name), or it holds a character that is neither
      a letter, a digit, `_` nor `-`. */
  predicate HasBadCharacters(username: string) {
    (forall i :: 0 <= i < |username| ==> username[i] == '_' || username[i] == '-')
    || (exists i :: 0 <= i < |username| && !IsAlnum(username[i]) && username[i] != '_' && username[i] != '-')
  }

  /** The character test as the code writes it is the rule above. */
  lemma BadCharactersRule(username: string)
    ensures !IsAlnumString(RemoveChar(RemoveChar(username, '_'), '-')) <==> HasBadCharacters(username)
  {
    var t := RemoveChar(RemoveChar(username, '_'), '-');
    assert forall x :: x in t <==> x in username && x != '_' && x != '-';
    if HasBadCharacters(username) {
      if !forall i :: 0 <= i < |username| ==> username[i] == '_' || username[i] == '-' {
        var i :| 0 <= i < |username| && !IsAlnum(username[i]) && username[i] != '_' && username[i] != '-';
        assert username[i] in username;
      }
    } else {
      var i :| 0 <= i < |username| && username[i] != '_' && username[i] != '-';
      assert username[i] in username;
      assert username[i] in t;
      forall j | 0 <= j < |t| ensures IsAlnum(t[j]) {
        assert t[j] in t;
      }
    }
  }

  /** `validate_username`: the three checks in order, each adding its
      error; the name is valid when none fired. */
  method ValidateUsername(username: string) returns (r: UsernameCheck)
    ensures r.isValid <==> r.errors == []
    ensures TooShort in r.errors <==> |username| < 3
    ensures TooLong in r.errors <==> |username| > 50
    ensures BadCharacters in r.errors <==> HasBadCharacters(username)
    ensures forall i, j :: 0 <= i < j < |r.errors| ==> Rank(r.errors[i]) < Rank(r.errors[j])
  {
    var isValid := true;
    var errors: seq<UsernameError> := [];
    if |username| < 3 {
      errors := errors + [TooShort];
      isValid := false;
    }
    if |username| > 50 {
      errors := errors + [TooLong];
      isValid := false;
    }
    BadCharactersRule(username);
    if !IsAlnumString(RemoveChar(RemoveChar(username, '_'), '-')) {
      errors := errors + [BadCharacters];
      isValid := false;
    }
    r := UsernameCheck(isValid, errors);
  }

  // ---------------------------------------------------------------------
  // ValidationUtils.validate_email
  // ---------------------------------------------------------------------

  /** The characters of the class `[a-zA-Z0-9._%+-]` before the `@`. */
  predicate IsLocalChar(c: char) {
    IsAsciiLetter(c) || IsDigit(c) || c == '.' || c == '_' || c == '%' || c == '+' || c == '-'
  }

  /** The characters of the class `[a-zA-Z0-9.-]` after the `@`. */
  predicate IsDomainChar(c: char) {
    IsAsciiLetter(c) || IsDigit(c) || c == '.' || c == '-'
  }

  predicate AllLocal(s: string) { forall i :: 0 <= i < |s| ==> IsLocalChar(s[i]) }
  predicate AllDomain(s: string) { forall i :: 0 <= i < |s| ==> IsDomainChar(s[i]) }
  predicate AllLetters(s: string) { forall i :: 0 <= i < |s| ==> IsAsciiLetter(s[i]) }

  /** The index of the first `c` in `s`, if any. */
  function IndexOf(s: string, c: char): (r: Option<nat>)
    ensures r.None? <==> c !in s
    ensures r.Some? ==> r.value < |s| && s[r.value] == c && c !in s[..r.value]
  {
    if s == [] then None
    else if s[0] == c then Some(0)
    else match IndexOf(s[1..], c)
      case None => None
      case Some(k) =>
        assert s[..k + 1] == [s[0]] + s[1..][..k];
        Some(k + 1)
  }

  /** The index of the last `c` in `s`, if any. */
  function LastIndexOf(s: string, c: char): (r: Option<nat>)
    ensures r.None? <==> c !in s
    ensures r.Some? ==> r.value < |s| && s[r.value] == c && c !in s[r.value + 1..]
  {
    if s == [] then None
    else if s[|s| - 1] == c then Some(|s| - 1)
    else match LastIndexOf(s[..|s| - 1], c)
      case None => None
      case Some(k) =>
        assert s[k + 1..] == s[..|s| - 1][k + 1..] + [s[|s| - 1]];
        Some(k)
  }

  /** The text the regular expression is matched against: `$` also
      matches before one final newline. */
  function WithoutFinalNewline(email: string): string {
    if email != [] && email[|email| - 1] == '\n' then email[..|email| - 1] else email
  }

  /** The part after the `@`: domain characters whose last `.` has
      something before it and at least two ASCII letters after it. */
  predicate DomainOk(d: string) {
    AllDomain(d)
    && match LastIndexOf(d, '.')
       case None => false
       case Some(k) => k >= 1 && |d| - k - 1 >= 2 && AllLetters(d[k + 1..])
  }

  /** `validate_email`, computed by finding the `@` and the last `.`. */
  function ValidateEmail(email: string): bool {
    var e := WithoutFinalNewline(email);
    match IndexOf(e, '@')
    case None => false
    case Some(a) => a >= 1 && AllLocal(e[..a]) && DomainOk(e[a + 1..])
  }

  /** The pattern `^[a-zA-Z0-9._%+-]+@[a-zA-Z0-9.-]+\.[a-zA-Z]{2,}$` read
      as a shape: `e` is a non-empty local part, an `@` at `a`, a non-empty
      domain prefix, a `.` at `k` and at least two letters. */
  predicate EmailShape(e: string, a: nat, k: nat) {
    && 1 <= a && a + 1 < k && k + 3 <= |e|
    && e[a] == '@' && e[k] == '.'
    && AllLocal(e[..a]) && AllDomain(e[a + 1..k]) && AllLetters(e[k + 1..])
  }

  /** What the regular expression accepts with `re.match`: the shape,
      optionally followed by one newline. */
  ghost predicate MatchesEmailPattern(email: string) {
    exists e: string, a: nat, k: nat :: (email == e || email == e + "\n") && EmailShape(e, a, k)
  }

  lemma AllDomainPrefix(s: string, j: nat)
    requires AllDomain(s) && j <= |s|
    ensures AllDomain(s[..j])
  {
    forall i | 0 <= i < j ensures IsDomainChar(s[..j][i]) {
      assert s[..j][i] == s[i];
    }
  }

  /** Dropping one final newline leaves a string that, with or without the
      newline put back, is the original. */
  lemma FinalNewline(email: string)
    ensures var e := WithoutFinalNewline(email); email == e || email == e + "\n"
  {
    if email != [] && email[|email| - 1] == '\n' {
      assert email == email[..|email| - 1] + [email[|email| - 1]];
    }
  }

  /** The pieces the computed check finds make up the pattern's shape,
      with the `.` at the last one in the domain. */
  lemma PiecesMakeShape(e: string, a: nat) returns (k: nat)
    requires 1 <= a < |e| && e[a] == '@' && AllLocal(e[..a]) && DomainOk(e[a + 1..])
    ensures EmailShape(e, a, k)
  {
    var d := e[a + 1..];
    var j := LastIndexOf(d, '.').value;
    k := a + 1 + j;
    assert e[a + 1..k] == d[..j];
    AllDomainPrefix(d, j);
    assert e[k + 1..] == d[j + 1..];
  }

  /** Every address the computed check accepts matches the pattern. */
  lemma ValidateEmailSound(email: string)
    requires ValidateEmail(email)
    ensures MatchesEmailPattern(email)
  {
    var e := WithoutFinalNewline(email);
    var a := IndexOf(e, '@').value;
    var k := PiecesMakeShape(e, a);
    FinalNewline(email);
    assert (email == e || email == e + "\n") && EmailShape(e, a, k);
  }

  /** In an address of the pattern's shape the `@` at `a` is the first. */
  lemma ShapeFirstAt(e: string, a: nat, k: nat)
    requires EmailShape(e, a, k)
    ensures IndexOf(e, '@') == Some(a)
  {
    assert '@' !in e[..a] by {
      forall i | 0 <= i < a ensures e[..a][i] != '@' {
        assert IsLocalChar(e[..a][i]);
      }
    }
    assert e[a] in e;
  }

  /** In an address of the pattern's shape the `.` at `k` is the last one
      after the `@`, and the rest of the domain passes. */
  lemma ShapeDomain(e: string, a: nat, k: nat)
    requires EmailShape(e, a, k)
    ensures DomainOk(e[a + 1..])
  {
    var d := e[a + 1..];
    var j := k - a - 1;
    var tld := e[k + 1..];
    assert d == e[a + 1..k] + ['.'] + tld;
    assert d[j + 1..] == tld;
    forall i | 0 <= i < |d| ensures IsDomainChar(d[i]) {
      if i < j {
        assert d[i] == e[a + 1..k][i];
      } else if i > j {
        assert d[i] == tld[i - j - 1];
      }
    }
    assert '.' !in tld by {
      forall i | 0 <= i < |tld| ensures tld[i] != '.' {
        assert IsAsciiLetter(tld[i]);
      }
    }
    assert d[j] in d;
  }

  /** A string of the pattern's shape ends in a letter, so the newline
      that is dropped is exactly the one that may follow it. */
  lemma ShapeWithoutNewline(email: string, e: string, a: nat, k: nat)
    requires email == e || email == e + "\n"
    requires EmailShape(e, a, k)
    ensures WithoutFinalNewline(email) == e
  {
    if email == e + "\n" {
      assert email[..|email| - 1] == e;
    } else {
      assert e[|e| - 1] == e[k + 1..][|e| - k - 2];
    }
  }

  /** The computed check passes once each of its steps does. */
  lemma PartsPass(email: string, e: string, a: nat)
    requires WithoutFinalNewline(email) == e && IndexOf(e, '@') == Some(a)
    requires 1 <= a && AllLocal(e[..a]) && DomainOk(e[a + 1..])
    ensures ValidateEmail(email)
  {
  }

  /** Every address matching the pattern passes the computed check. */
  lemma ValidateEmailComplete(email: string)
    requires MatchesEmailPattern(email)
    ensures ValidateEmail(email)
  {
    var e: string, a: nat, k: nat :| (email == e || email == e + "\n") && EmailShape(e, a, k);
    ShapeWithoutNewline(email, e, a, k);
    ShapeFirstAt(e, a, k);
    ShapeDomain(e, a, k);
    PartsPass(email, e, a);
  }

  /** The computed check accepts exactly what the pattern matches. */
  lemma ValidateEmailMatchesPattern(email: string)
    ensures ValidateEmail(email) <==> MatchesEmailPattern(email)
  {
    if ValidateEmail(email) {
      ValidateEmailSound(email);
    }
    if MatchesEmailPattern(email) {
      ValidateEmailComplete(email);
    }
  }

  // ---------------------------------------------------------------------
  // TestUtils.get_difficulty_description and TestUtils.format_time
  // ---------------------------------------------------------------------

  const UnknownDifficulty: string := "Невідомий"

  /** `get_difficulty_description`: the name of levels 1 to 3, and
      "Невідомий" for any other number. The three names themselves are
      given by the body below ("Легкий", "Середній", "Важкий"); the
      contract only separates them from the unknown case. */
  function DifficultyDescription(difficulty: int): (r: string)
    ensures r == UnknownDifficulty <==> !(1 <= difficulty <= 3)
  {
    if difficulty == 1 then "Легкий"
    else if difficulty == 2 then "Середній"
    else if difficulty == 3 then "Важкий"
    else UnknownDifficulty
  }

  /** The three levels have three different names. */
  lemma DifficultyNamesDistinct(a: int, b: int)
    requires 1 <= a <= 3 && 1 <= b <= 3 && a != b
    ensures DifficultyDescription(a) != DifficultyDescription(b)
  {
    assert "Легкий"[0] != "Середній"[0] && "Легкий"[0] != "Важкий"[0] && "Середній"[0] != "Важкий"[0];
  }

  /** `format_time`: seconds below a minute as they are (negative ones
      included), then minutes and seconds, then hours and minutes. */
  function FormatTime(seconds: int): (r: string)
    ensures seconds < 60 ==> r == IntToString(seconds) + " сек"
    ensures 60 <= seconds < 3600 ==> exists m: nat, s: nat ::
      s < 60 && m * 60 + s == seconds && r == NatToString(m) + " хв " + NatToString(s) + " сек"
    ensures 3600 <= seconds ==> exists h: nat, m: nat ::
      m < 60 && 0 <= seconds - h * 3600 - m * 60 < 60 && r == NatToString(h) + " год " + NatToString(m) + " хв"
  {
    if seconds < 60 then IntToString(seconds) + " сек"
    else if seconds < 3600 then
      NatToString(seconds / 60) + " хв " + NatToString(seconds % 60) + " сек"
    else
      var r := NatToString(seconds / 3600) + " год " + NatToString(seconds % 3600 / 60) + " хв";
      var h, m := seconds / 3600, seconds % 3600 / 60;
      assert 0 <= seconds - h * 3600 - m * 60 < 60;
      r
  }

  /** Above an hour the seconds are dropped: a time and the same time
      rounded down to the minute print the same. */
  lemma FormatTimeDropsSeconds(seconds: int)
    requires seconds >= 3600
    ensures FormatTime(seconds) == FormatTime(seconds / 60 * 60)
  {
    var t := seconds / 60 * 60;
    assert t / 3600 == seconds / 3600;
    assert t % 3600 / 60 == seconds % 3600 / 60;
  }

  // ---------------------------------------------------------------------
  // DataUtils.calculate_statistics
  // ---------------------------------------------------------------------

  /** One record handed to `calculate_statistics`: each figure may be
      missing from the dictionary. */
  datatype StatsRecord = StatsRecord(totalQuestions: Option<int>, correctAnswers: Option<int>, timeSpent: Option<int>)

  /** `r.get(key, 0)` for the three keys. */
  function QuestionsIn(r: StatsRecord): int { r.totalQuestions.GetOr(0) }
  function CorrectIn(r: StatsRecord): int { r.correctAnswers.GetOr(0) }
  function TimeIn(r: StatsRecord): int { r.timeSpent.GetOr(0) }

  datatype Statistics = Statistics(
    totalTests: nat, totalQuestions: int, totalCorrect: int, averagePercentage: real,
    totalTime: int, averageTimePerQuestion: real)

  /** `calculate_statistics`: nothing for no records; otherwise the totals
      and the pooled averages, which are 0 when there are no questions. */
  function CalculateStatistics(results: seq<StatsRecord>): (r: Option<Statistics>)
    ensures r.None? <==> results == []
    ensures r.Some? ==> (r.value.totalTests == |results|
      && r.value.totalQuestions == SumInt(results, QuestionsIn)
      && r.value.totalCorrect == SumInt(results, CorrectIn)
      && r.value.totalTime == SumInt(results, TimeIn))
    ensures r.Some? && r.value.totalQuestions > 0 ==>
      (r.value.averagePercentage * r.value.totalQuestions as real == r.value.totalCorrect as real * 100.0
      && r.value.averageTimePerQuestion * r.value.totalQuestions as real == r.value.totalTime as real)
    ensures r.Some? && r.value.totalQuestions <= 0 ==>
      (r.value.averagePercentage == 0.0 && r.value.averageTimePerQuestion == 0.0)
  {
    if results == [] then None
    else
      var questions := SumInt(results, QuestionsIn);
      var correct := SumInt(results, CorrectIn);
      var time := SumInt(results, TimeIn);
      var percentage := if questions > 0 then correct as real / questions as real * 100.0 else 0.0;
      var perQuestion := if questions > 0 then time as real / questions as real else 0.0;
      Some(Statistics(|results|, questions, correct, percentage, time, perQuestion))
  }

  /** The totals of two batches of records taken together are the sums of
      their totals. */
  lemma StatisticsOfBatches(a: seq<StatsRecord>, b: seq<StatsRecord>)
    requires a != [] && b != []
    ensures var s, sa, sb := CalculateStatistics(a + b).value, CalculateStatistics(a).value, CalculateStatistics(b).value;
      s.totalTests == sa.totalTests + sb.totalTests
      && s.totalQuestions == sa.totalQuestions + sb.totalQuestions
      && s.totalCorrect == sa.totalCorrect + sb.totalCorrect
      && s.totalTime == sa.totalTime + sb.totalTime
  {
    SumIntConcat(a, b, QuestionsIn);
    SumIntConcat(a, b, CorrectIn);
    SumIntConcat(a, b, TimeIn);
  }

  /** When no record claims more correct answers than questions, the
      average percentage is a percentage. */
  lemma StatisticsPercentageBounds(results: seq<StatsRecord>)
    requires results != []
    requires forall i :: 0 <= i < |results| ==> 0 <= CorrectIn(results[i]) <= QuestionsIn(results[i])
    ensures 0.0 <= CalculateStatistics(results).value.averagePercentage <= 100.0
  {
    var zero := (r: StatsRecord) => 0;
    SumIntLe(results, CorrectIn, QuestionsIn);
    SumIntLe(results, zero, CorrectIn);
    assert SumInt(results, zero) == 0 by {
      SumIntZero(results);
    }
    var s := CalculateStatistics(results).value;
    if s.totalQuestions > 0 {
      RatioPercent(s.totalCorrect as real, s.totalQuestions as real);
    }
  }

  /** A part of a positive whole is between 0% and 100% of it. */
  lemma RatioPercent(part: real, whole: real)
    requires whole > 0.0 && 0.0 <= part <= whole
    ensures 0.0 <= part / whole * 100.0 <= 100.0
  {
    assert (part / whole) * whole == part;
  }

  lemma {:induction false} SumIntZero(s: seq<StatsRecord>)
    ensures SumInt(s, (r: StatsRecord) => 0) == 0
  {
    if s != [] {
      SumIntZero(s[1..]);
    }
  }

  /** The average is pooled over all questions: a perfect one-question test
      and a failed three-question test average 25%, not the 50% a mean of
      the two rates would give. */
  lemma StatisticsArePooled()
    ensures CalculateStatistics([StatsRecord(Some(1), Some(1), None), StatsRecord(Some(3), Some(0), None)]).value.averagePercentage == 25.0
  {
    var rs := [StatsRecord(Some(1), Some(1), None), StatsRecord(Some(3), Some(0), None)];
    assert SumInt(rs, QuestionsIn) == 4 by {
      assert rs[1..][1..] == [];
    }
    assert SumInt(rs, CorrectIn) == 1 by {
      assert rs[1..][1..] == [];
    }
  }

  // ---------------------------------------------------------------------
  // TestUtils.calculate_score
  // ---------------------------------------------------------------------

  function RMin(a: real, b: real): real { if a <= b then a else b }

  /** The speed bonus: up to 10 extra points, a third of a point for each
      second the average time per question stays under 30. */
  function TimeBonus(totalQuestions: int, timeSpent: int): (b: real)
    requires totalQuestions != 0
    ensures 0.0 <= b <= 10.0
    ensures b > 0.0 <==> (timeSpent as real / totalQuestions as real) < 30.0
  {
    var avg := timeSpent as real / totalQuestions as real;
    if avg < 30.0 then RMin(10.0, (30.0 - avg) / 3.0) else 0.0
  }

  /** The base score: the percentage of correct answers. */
  function BaseScore(correct: int, totalQuestions: int): real
    requires totalQuestions != 0
  {
    correct as real / totalQuestions as real * 100.0
  }

  /** `calculate_score`: 0 for a test without questions; otherwise the
      base percentage plus the speed bonus, capped at 100. */
  function CalculateScore(correct: int, totalQuestions: int, timeSpent: int): (r: real)
    ensures totalQuestions == 0 ==> r == 0.0
    ensures r <= 100.0
    ensures totalQuestions != 0 ==>
      RMin(100.0, BaseScore(correct, totalQuestions)) <= r <= BaseScore(correct, totalQuestions) + 10.0
    ensures totalQuestions != 0 && timeSpent as real / totalQuestions as real >= 30.0 ==>
      r == RMin(100.0, BaseScore(correct, totalQuestions))
  {
    if totalQuestions == 0 then 0.0
    else RMin(100.0, BaseScore(correct, totalQuestions) + TimeBonus(totalQuestions, timeSpent))
  }

  /** More correct answers never give a lower score. */
  lemma ScoreMonotoneInCorrect(c1: int, c2: int, totalQuestions: int, timeSpent: int)
    requires c1 <= c2 && totalQuestions > 0
    ensures CalculateScore(c1, totalQuestions, timeSpent) <= CalculateScore(c2, totalQuestions, timeSpent)
  {
    var q := totalQuestions as real;
    assert c1 as real / q <= c2 as real / q;
  }

  /** Taking less time never gives a lower score. */
  lemma ScoreMonotoneInTime(correct: int, totalQuestions: int, t1: int, t2: int)
    requires t1 <= t2 && totalQuestions > 0
    ensures CalculateScore(correct, totalQuestions, t2) <= CalculateScore(correct, totalQuestions, t1)
  {
    var q := totalQuestions as real;
    assert t1 as real / q <= t2 as real / q;
  }
}
