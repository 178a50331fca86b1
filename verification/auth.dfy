/** The account-registration checks of the server (api/hearts/auth_routes.py):
    the username, email and password validators, their regular expressions, and
    the order in which `register` applies them. Request parsing, the database
    and password hashing are outside; the names already taken are parameters. */
module Auth {
  import opened Wrappers
  import opened Text

  const MinPasswordLen := 8
  const UsernameMinLen := 3
  const UsernameMaxLen := 64

  const UsernameRequired := "Username required"
  const UsernameMalformed := "Username must be 3\U{2013}64 characters, letters, numbers, and underscores only"
  const PasswordTooShort := "Password must be at least 8 characters"
  const InvalidEmail := "Invalid email"
  const UsernameTaken := "Username already taken"
  const EmailTaken := "Email already registered"

  /** A missing or falsy field reads as the empty text (`x or ""`). */
  function OrEmpty(x: Option<string>): (s: string)
    ensures x.Some? ==> s == x.value
    ensures x.None? ==> s == ""
  {
    if x.Some? then x.value else ""
  }

  // ---------------------------------------------------------------------------
  // The regular expressions
  // ---------------------------------------------------------------------------

  /** The class `[a-zA-Z0-9_]`. */
  predicate IsWordChar(c: char) {
    ('a' <= c <= 'z') || ('A' <= c <= 'Z') || ('0' <= c <= '9') || c == '_'
  }

  /** The class `[^\s@]`. */
  predicate IsAddressChar(c: char) {
    !IsSpace(c) && c != '@'
  }

  predicate AllWord(s: string) {
    forall i | 0 <= i < |s| :: IsWordChar(s[i])
  }

  predicate AllAddress(s: string) {
    forall i | 0 <= i < |s| :: IsAddressChar(s[i])
  }

  /** Python's `$` after the first `j` characters: the end of the text, or the
      position just before a final newline. */
  predicate EndsAt(s: string, j: nat) {
    j == |s| || (j + 1 == |s| && s[j] == '\n')
  }

  /** What `USERNAME_RE` = `^[a-zA-Z0-9_]{3,64}$` accepts: a run of 3 to 64 word
      characters from the start, followed by `$`. */
  ghost predicate UsernamePattern(s: string) {
    exists j: nat | UsernameMinLen <= j <= UsernameMaxLen && j <= |s| :: AllWord(s[..j]) && EndsAt(s, j)
  }

  /** The length of the longest prefix of word characters. */
  function WordRun(s: string): (n: nat)
    ensures n <= |s|
    ensures AllWord(s[..n])
    ensures n < |s| ==> !IsWordChar(s[n])
  {
    if |s| == 0 || !IsWordChar(s[0]) then 0
    else
      var n := 1 + WordRun(s[1..]);
      assert forall i | 1 <= i < n :: s[..n][i] == s[1..][..n - 1][i - 1];
      n
  }

  /** `USERNAME_RE.match(s)`: the greedy run of word characters, which cannot
      swallow a newline, must stop at `$` after 3 to 64 characters. */
  function MatchUsername(s: string): (ok: bool) {
    var n := WordRun(s);
    UsernameMinLen <= n <= UsernameMaxLen && EndsAt(s, n)
  }

  /** The matcher accepts exactly the texts the pattern describes. */
  lemma MatchUsernameIff(s: string)
    ensures MatchUsername(s) <==> UsernamePattern(s)
  {
    var n := WordRun(s);
    if MatchUsername(s) {
      assert AllWord(s[..n]) && EndsAt(s, n);
    }
    if UsernamePattern(s) {
      var j: nat :| UsernameMinLen <= j <= UsernameMaxLen && j <= |s| && AllWord(s[..j]) && EndsAt(s, j);
      WordPrefix(s, j);
      WordPrefix(s, n);
    }
  }

  lemma WordPrefix(s: string, j: nat)
    requires j <= |s| && AllWord(s[..j])
    ensures forall i | 0 <= i < j :: IsWordChar(s[i])
  {
    forall i | 0 <= i < j
      ensures IsWordChar(s[i])
    {
      assert s[..j][i] == s[i];
    }
  }

  /** Like `$` itself, the pattern lets one trailing newline through. */
  lemma UsernamePatternTrailingNewline()
    ensures MatchUsername("abc\n")
    ensures !MatchUsername("ab") && !MatchUsername("abc!")
  {
    WordRunAbc();
    WordRunAb();
    WordRunBadName();
  }

  lemma WordRunAbc()
    ensures WordRun("abc\n") == 3
  {
    assert "abc\n"[1..] == "bc\n" && "bc\n"[1..] == "c\n" && "c\n"[1..] == "\n";
  }

  lemma WordRunAb()
    ensures WordRun("ab") == 2
  {
    assert "ab"[1..] == "b" && "b"[1..] == "";
  }

  lemma WordRunBadName()
    ensures WordRun("abc!") == 3
  {
    assert "abc!"[1..] == "bc!" && "bc!"[1..] == "c!" && "c!"[1..] == "!";
  }

  /** What `EMAIL_RE` = `^[^\s@]+@[^\s@]+\.[^\s@]+$` demands of a text with
      nothing after it: `local@domain`, the local part non-empty, and a dot in
      the domain that is neither its first nor its last character; no
      whitespace anywhere and no second `@`. */
  ghost predicate EmailShape(e: string) {
    exists at: nat, dot: nat | 0 < at && at + 1 < dot && dot + 1 < |e| ::
      && e[at] == '@' && e[dot] == '.'
      && AllAddress(e[..at]) && AllAddress(e[at + 1..])
  }

  /** What `EMAIL_RE.match(s)` accepts, with Python's `$`. */
  ghost predicate EmailPattern(s: string) {
    EmailShape(s) || (|s| > 0 && s[|s| - 1] == '\n' && EmailShape(s[..|s| - 1]))
  }

  /** The position of the first `c` in `s`, or `|s|`. */
  function IndexOf(s: string, c: char): (k: nat)
    ensures k <= |s|
    ensures forall i | 0 <= i < k :: s[i] != c
    ensures k < |s| ==> s[k] == c
  {
    if |s| == 0 then 0
    else if s[0] == c then 0
    else 1 + IndexOf(s[1..], c)
  }

  /** The email matcher: split at the first `@`, then the local part and the
      domain must be free of whitespace and `@`, and a dot must sit strictly
      inside the domain. */
  function MatchEmailShape(e: string): (ok: bool) {
    var at := IndexOf(e, '@');
    && 0 < at < |e|
    && AllAddress(e[..at])
    && var domain := e[at + 1..];
    && AllAddress(domain)
    && |domain| >= 3
    && '.' in domain[1..|domain| - 1]
  }

  /** The matcher recognises exactly the addresses of the form the pattern
      describes. */
  lemma MatchEmailShapeIff(e: string)
    ensures MatchEmailShape(e) <==> EmailShape(e)
  {
    if MatchEmailShape(e) {
      MatchedEmailHasShape(e);
    }
    if EmailShape(e) {
      var a: nat, dot: nat :| 0 < a && a + 1 < dot && dot + 1 < |e| &&
        e[a] == '@' && e[dot] == '.' && AllAddress(e[..a]) && AllAddress(e[a + 1..]);
      ShapedEmailMatches(e, a, dot);
    }
  }

  lemma MatchedEmailHasShape(e: string)
    requires MatchEmailShape(e)
    ensures EmailShape(e)
  {
    var at := IndexOf(e, '@');
    var domain := e[at + 1..];
    var inner := domain[1..|domain| - 1];
    var k :| 0 <= k < |inner| && inner[k] == '.';
    var dot := at + 2 + k;
    assert e[dot] == domain[k + 1] == '.';
    assert 0 < at && at + 1 < dot && dot + 1 < |e| && e[at] == '@' && AllAddress(e[..at]) && AllAddress(e[at + 1..]);
  }

  lemma ShapedEmailMatches(e: string, a: nat, dot: nat)
    requires 0 < a && a + 1 < dot && dot + 1 < |e|
    requires e[a] == '@' && e[dot] == '.' && AllAddress(e[..a]) && AllAddress(e[a + 1..])
    ensures MatchEmailShape(e)
  {
    var at := IndexOf(e, '@');
    assert forall i | 0 <= i < a :: e[i] != '@' by {
      forall i | 0 <= i < a
        ensures e[i] != '@'
      {
        assert e[..a][i] == e[i];
      }
    }
    assert at == a;
    var domain := e[at + 1..];
    assert domain[1..|domain| - 1][dot - at - 2] == e[dot];
  }

  lemma MatchEmailExamples()
    ensures MatchEmailShape("a@b.co")
    ensures !MatchEmailShape("a.b") && !MatchEmailShape("a@.b") && !MatchEmailShape("a@b.")
  {
    assert IndexOf("a@b.co", '@') == 1;
    assert "a@b.co"[2..] == "b.co" && "b.co"[1..3] == ".c";
    assert IndexOf("a@.b", '@') == 1 && "a@.b"[2..] == ".b";
    assert IndexOf("a@b.", '@') == 1 && "a@b."[2..] == "b.";
    assert "b."[1..1] == [];
    assert IndexOf("a.b", '@') == 3 by {
      assert "a.b"[1..] == ".b" && ".b"[1..] == "b" && "b"[1..] == "";
    }
  }

  // ---------------------------------------------------------------------------
  // The validators
  // ---------------------------------------------------------------------------

  /** A username as the server stores it: 3 to 64 letters, digits and
      underscores. */
  predicate GoodUsername(u: string) {
    UsernameMinLen <= |u| <= UsernameMaxLen && AllWord(u)
  }

  /** `_validate_username`: the stripped name must be non-empty, then match
      `USERNAME_RE`. */
  function ValidateUsername(username: Option<string>): (r: (bool, string))
    ensures r.0 <==> GoodUsername(Strip(OrEmpty(username)))
    ensures r.0 ==> r.1 == ""
    ensures AllSpace(OrEmpty(username)) ==> r == (false, UsernameRequired)
    ensures !r.0 && !AllSpace(OrEmpty(username)) ==> r == (false, UsernameMalformed)
  {
    var u := Strip(OrEmpty(username));
    assert u == [] <==> AllSpace(OrEmpty(username));
    if u == [] then (false, UsernameRequired)
    else if !MatchUsername(u) then (false, UsernameMalformed)
    else
      assert GoodUsername(u) by {
        assert !IsSpace(u[|u| - 1]);
        assert u[..|u|] == u;
      }
      (true, "")
  }

  /** The username validator agrees with the regular expression on the
      stripped name: whatever the pattern's `$` would let through, the strip has
      already removed. */
  lemma ValidateUsernameIsPattern(username: Option<string>)
    ensures ValidateUsername(username).0 <==> UsernamePattern(Strip(OrEmpty(username)))
  {
    var u := Strip(OrEmpty(username));
    MatchUsernameIff(u);
    assert u != [] ==> !IsSpace(u[|u| - 1]);
    if GoodUsername(u) {
      assert u[..|u|] == u;
    }
  }

  /** `_validate_password`: present and at least `MIN_PASSWORD_LEN` characters;
      the password is not stripped. */
  function ValidatePassword(password: Option<string>): (r: (bool, string))
    ensures r.0 <==> password.Some? && |password.value| >= MinPasswordLen
    ensures r.0 ==> r.1 == ""
    ensures !r.0 ==> r.1 == PasswordTooShort
  {
    if OrEmpty(password) == "" || |OrEmpty(password)| < MinPasswordLen then (false, PasswordTooShort)
    else (true, "")
  }

  /** `_validate_email`: present and non-empty, and the stripped text matches
      `EMAIL_RE`. */
  function ValidateEmail(email: Option<string>): (ok: bool)
    ensures ok <==> email.Some? && MatchEmailShape(Strip(email.value))
  {
    email.Some? && email.value != "" && MatchEmailShape(Strip(email.value))
  }

  /** The email validator accepts exactly what the regular expression accepts
      on the stripped text. */
  lemma ValidateEmailIsPattern(email: Option<string>)
    ensures ValidateEmail(email) <==> email.Some? && EmailPattern(Strip(email.value))
  {
    if email.Some? {
      var e := Strip(email.value);
      MatchEmailShapeIff(e);
      assert e != [] ==> !IsSpace(e[|e| - 1]);
    }
  }

  // ---------------------------------------------------------------------------
  // Registration
  // ---------------------------------------------------------------------------

  /** The JSON body of a registration request; a missing or null field is `None`. */
  datatype Form = Form(username: Option<string>, email: Option<string>, password: Option<string>)

  /** The row `register` inserts; the password is what goes to `hash_password`. */
  datatype NewUser = NewUser(username: string, email: string, password: string, emailVerified: bool)

  datatype Reply = Rejected(status: int, error: string) | Created(status: int, user: NewUser)

  /** The stored form of an email address: stripped and lower-cased (ASCII
      letters only, see `Text.Lower`). */
  function NormalEmail(email: Option<string>): (e: string)
    ensures Strip(e) == e
    ensures forall i | 0 <= i < |e| :: !IsUpperAscii(e[i])
  {
    var raw := OrEmpty(email);
    LowerStrip(raw);
    StripIdempotent(Lower(raw));
    Lower(Strip(raw))
  }

  /** `register`: the username is checked first, then the email, then the
      password, and only then are the taken usernames and emails consulted. */
  function Register(form: Form, usernames: set<string>, emails: set<string>): (r: Reply)
    ensures r.Created? ==> && r.status == 201 && r.user.emailVerified
                           && r.user.username == Strip(OrEmpty(form.username))
                           && r.user.email == NormalEmail(form.email)
                           && form.password == Some(r.user.password)
    ensures r.Rejected? ==> r.status in {400, 409}
    ensures r.Rejected? ==> (r.status == 409 <==> r.error in {UsernameTaken, EmailTaken})
  {
    RegisterFields(Strip(OrEmpty(form.username)), NormalEmail(form.email), OrEmpty(form.password), usernames, emails)
  }

  /** The checks of `register` on the fields as read from the request: the
      username stripped, the email stripped and lower-cased. */
  function RegisterFields(username: string, email: string, password: string, usernames: set<string>, emails: set<string>): (r: Reply)
    ensures r.Created? ==> r == Created(201, NewUser(username, email, password, true))
    ensures r.Created? ==> |password| >= MinPasswordLen && username !in usernames && email !in emails
    ensures r.Rejected? ==> r.status in {400, 409}
    ensures r.Rejected? ==> (r.status == 409 <==> r.error in {UsernameTaken, EmailTaken})
  {
    var (userOk, userMsg) := ValidateUsername(Some(username));
    if !userOk then Rejected(400, userMsg)
    else if !ValidateEmail(Some(email)) then Rejected(400, InvalidEmail)
    else
      var (passOk, passMsg) := ValidatePassword(Some(password));
      if !passOk then Rejected(400, passMsg)
      else if username in usernames then Rejected(409, UsernameTaken)
      else if email in emails then Rejected(409, EmailTaken)
      else Created(201, NewUser(username, email, password, true))
  }

  /** An account is created exactly when the stripped username is well formed,
      the normalised email has the shape `EMAIL_RE` describes, the password is
      long enough, and neither name nor address is taken. */
  lemma RegisterCreatedIff(form: Form, usernames: set<string>, emails: set<string>)
    ensures Register(form, usernames, emails).Created? <==>
      && GoodUsername(Strip(OrEmpty(form.username)))
      && EmailShape(NormalEmail(form.email))
      && form.password.Some? && |form.password.value| >= MinPasswordLen
      && Strip(OrEmpty(form.username)) !in usernames
      && NormalEmail(form.email) !in emails
  {
    UsernameRestripped(OrEmpty(form.username));
    EmailRechecked(form.email);
  }

  /** Validating an already stripped name gives the same verdict as validating
      the raw one. */
  lemma UsernameRestripped(u: string)
    ensures ValidateUsername(Some(Strip(u))) == ValidateUsername(Some(u))
  {
    StripIdempotent(u);
    assert AllSpace(Strip(u)) <==> AllSpace(u) by {
      assert AllSpace(Strip(u)) <==> Strip(Strip(u)) == [];
    }
  }

  /** The validator accepts a normalised email exactly when it has the shape. */
  lemma EmailRechecked(email: Option<string>)
    ensures ValidateEmail(Some(NormalEmail(email))) <==> EmailShape(NormalEmail(email))
  {
    EmailStripped(email);
    MatchEmailShapeIff(NormalEmail(email));
  }

  /** The stored email is already stripped, so validating it strips nothing. */
  lemma EmailStripped(email: Option<string>)
    ensures Strip(NormalEmail(email)) == NormalEmail(email)
  {
    var e := OrEmpty(email);
    LowerStrip(e);
    StripIdempotent(Lower(e));
  }

  /** The checks run in order: a bad username is reported whatever the email
      and password; a good username with a bad email reports the email whatever
      the password; the password is reported only after both pass; and a name
      or address already taken is reported only for a request that is otherwise
      valid. */
  lemma RegisterCheckOrder(form: Form, usernames: set<string>, emails: set<string>)
    ensures var r := Register(form, usernames, emails);
      && (!ValidateUsername(form.username).0 ==> r == Rejected(400, ValidateUsername(form.username).1))
      && (ValidateUsername(form.username).0 && !EmailShape(NormalEmail(form.email)) ==> r == Rejected(400, InvalidEmail))
      && ((ValidateUsername(form.username).0 && EmailShape(NormalEmail(form.email)) && !ValidatePassword(form.password).0)
            ==> r == Rejected(400, PasswordTooShort))
      && ((r.Rejected? && r.status == 409) ==>
            ValidateUsername(form.username).0 && ValidateEmail(Some(NormalEmail(form.email))) && ValidatePassword(form.password).0)
  {
    var e := NormalEmail(form.email);
    UsernameRestripped(OrEmpty(form.username));
    EmailRechecked(form.email);
    assert Register(form, usernames, emails) ==
      RegisterFields(Strip(OrEmpty(form.username)), e, OrEmpty(form.password), usernames, emails);
  }

  /** The email is stored lower-cased and stripped, so two requests whose
      emails differ only in case or surrounding whitespace register the same
      address. */
  lemma RegisterEmailNormalised(form: Form, usernames: set<string>, emails: set<string>)
    ensures Register(form.(email := Some(NormalEmail(form.email))), usernames, emails) == Register(form, usernames, emails)
  {
    var e := OrEmpty(form.email);
    EmailStripped(form.email);
    LowerStrip(e);
    LowerIdempotent(Strip(e));
    assert NormalEmail(Some(NormalEmail(form.email))) == NormalEmail(form.email);
  }

  /** A created account's email holds no upper-case ASCII letter and passes the
      email validator again. */
  lemma CreatedEmailCanonical(form: Form, usernames: set<string>, emails: set<string>)
    requires Register(form, usernames, emails).Created?
    ensures var e := Register(form, usernames, emails).user.email;
      (forall i | 0 <= i < |e| :: !IsUpperAscii(e[i])) && ValidateEmail(Some(e))
  {
    var e := NormalEmail(form.email);
    EmailStripped(form.email);
    MatchEmailShapeIff(e);
  }
}
