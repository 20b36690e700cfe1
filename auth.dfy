/** The `/register` and `/login` handlers: an ordered chain of checks on the request
    body, a lookup in the user table, and a token for the stored user. Password hashing,
    password comparison and token signing are foreign calls, given as functions; the
    table is a map from email to user. */
module Auth {
  import opened Optional
  import opened Text

  /** Shortest password `/register` accepts, in UTF-16 code units (`password.length`). */
  const MinPasswordLength: nat := 6

  const RequiredMessage: string := "Email and password are required"
  const ShortPasswordMessage: string := "Password must be at least 6 characters long"
  const InvalidEmailMessage: string := "Invalid email format"
  const UserExistsMessage: string := "User already exists"
  const InvalidCredentialsMessage: string := "Invalid credentials"
  const RegisterFailedMessage: string := "Failed to register user"
  const LoginFailedMessage: string := "Failed to login"

  /** What a handler answers: an error status with its `{ error }` body, or status 200
      with `{ token }`. */
  datatype Response = ErrorReply(status: nat, error: string) | TokenReply(token: string)

  /** The `email` and `password` of the request body; `None` when the field is missing. */
  datatype Credentials = Credentials(email: Option<string>, password: Option<string>)

  /** A stored user: generated id, email, and the stored password hash. */
  datatype User = User(id: nat, email: string, password: string)

  /** The payload of every token the handlers sign. */
  datatype Claims = Claims(userId: nat, email: string)

  /** bcrypt's `hash` and `compare` and jsonwebtoken's `sign`; `None` when the call throws. */
  datatype Crypto = Crypto(
    hash: string -> Option<string>,
    compare: (string, string) -> Option<bool>,
    sign: Claims -> Option<string>)

  /** Whether the table's lookup or save throws during the request being handled. */
  datatype StoreFaults = StoreFaults(findThrows: bool, saveThrows: bool)

  /** The user table as a value: users by email, and the id the next saved user gets. */
  datatype Store = Store(users: map<string, User>, nextId: nat)

  /** A field is given when `!field` is false: present and not the empty string. */
  predicate Given(f: Option<string>) {
    f.Some? && f.value != ""
  }

  /** `s.length` in JavaScript: a character outside the Basic Multilingual Plane takes two
      UTF-16 code units. */
  function Utf16Length(s: string): (n: nat)
    ensures |s| <= n <= 2 * |s|
    ensures (forall i | 0 <= i < |s| :: s[i] as int <= 0xFFFF) ==> n == |s|
  {
    if s == [] then 0 else (if s[0] as int > 0xFFFF then 2 else 1) + Utf16Length(s[1..])
  }

  /** A character of the class `[^\s@]`. */
  predicate EmailChar(c: char) {
    !IsWhitespace(c) && c != '@'
  }

  /** A run of characters of the class `[^\s@]` (possibly empty). */
  predicate EmailChars(s: string) {
    forall i :: 0 <= i < |s| ==> EmailChar(s[i])
  }

  /** `s` matches `^[^\s@]+@[^\s@]+\.[^\s@]+$`: it is a non-empty run, `@`, a non-empty
      run, `.`, and a non-empty run, where no run holds whitespace or `@`. */
  ghost predicate MatchesEmailPattern(s: string) {
    exists at, dot :: 0 < at && at + 1 < dot && dot + 1 < |s|
      && s[at] == '@' && s[dot] == '.'
      && EmailChars(s[..at]) && EmailChars(s[at + 1..dot]) && EmailChars(s[dot + 1..])
  }

  /** The format check of `/register`: no whitespace, exactly one `@`, a non-empty part
      before it, and a `.` after it that is neither the first nor the last character of
      the part after the `@`. `EmailFormatIsPattern` proves it is the regular expression. */
  predicate EmailFormatOk(s: string) {
    (forall i :: 0 <= i < |s| ==> !IsWhitespace(s[i]))
    && multiset(s)['@'] == 1
    && exists at, dot :: 0 < at && at + 1 < dot && dot + 1 < |s| && s[at] == '@' && s[dot] == '.'
  }

  /** A run of `[^\s@]` holds no `@`. */
  lemma EmailCharsNoAt(s: string)
    requires EmailChars(s)
    ensures multiset(s)['@'] == 0
  {
  }

  /** Splitting `s` at `at` splits its characters. */
  lemma MultisetSplit(s: string, at: nat)
    requires at < |s|
    ensures multiset(s) == multiset(s[..at]) + multiset{s[at]} + multiset(s[at + 1..])
  {
    assert s == s[..at] + [s[at]] + s[at + 1..];
  }

  /** A string holding `@` exactly once holds it nowhere but at that position. */
  lemma {:induction false} OnlyAt(s: string, at: nat)
    requires at < |s| && s[at] == '@' && multiset(s)['@'] == 1
    ensures forall i :: 0 <= i < |s| && i != at ==> s[i] != '@'
  {
    MultisetSplit(s, at);
    forall i | 0 <= i < |s| && i != at
      ensures s[i] != '@'
    {
      if i < at {
        assert s[..at][i] == s[i];
        assert s[i] in multiset(s[..at]);
      } else {
        assert s[at + 1..][i - at - 1] == s[i];
        assert s[i] in multiset(s[at + 1..]);
      }
    }
  }

  /** A string that passes the format check matches the regular expression. */
  lemma FormatOkMatchesPattern(s: string)
    requires EmailFormatOk(s)
    ensures MatchesEmailPattern(s)
  {
    var at, dot :| 0 < at && at + 1 < dot && dot + 1 < |s| && s[at] == '@' && s[dot] == '.';
    OnlyAt(s, at);
    assert forall i :: 0 <= i < |s| && i != at ==> EmailChar(s[i]);
    assert EmailChars(s[..at]);
    assert EmailChars(s[at + 1..dot]);
    assert EmailChars(s[dot + 1..]);
  }

  /** A string the regular expression matches passes the format check. */
  lemma PatternPassesFormat(s: string)
    requires MatchesEmailPattern(s)
    ensures EmailFormatOk(s)
  {
    var at, dot :| 0 < at && at + 1 < dot && dot + 1 < |s| && s[at] == '@' && s[dot] == '.'
      && EmailChars(s[..at]) && EmailChars(s[at + 1..dot]) && EmailChars(s[dot + 1..]);
    var after := s[at + 1..];
    assert after == s[at + 1..dot] + [s[dot]] + s[dot + 1..];
    assert EmailChars(after);
    EmailCharsNoAt(s[..at]);
    EmailCharsNoAt(after);
    MultisetSplit(s, at);
    forall i | 0 <= i < |s|
      ensures !IsWhitespace(s[i])
    {
      if i < at {
        assert s[..at][i] == s[i];
      } else if i > at {
        assert after[i - at - 1] == s[i];
      }
    }
  }

  /** The format check accepts exactly the strings the regular expression matches. */
  lemma EmailFormatIsPattern(s: string)
    ensures EmailFormatOk(s) <==> MatchesEmailPattern(s)
  {
    if EmailFormatOk(s) {
      FormatOkMatchesPattern(s);
    }
    if MatchesEmailPattern(s) {
      PatternPassesFormat(s);
    }
  }

  /** The input checks of `/register`, in order: both fields given, then the password's
      length, then the email's format; `None` when all pass. */
  function RegisterInputCheck(c: Credentials): (r: Option<Response>)
    ensures r.None? <==> Given(c.email) && Given(c.password)
                         && Utf16Length(c.password.value) >= MinPasswordLength
                         && EmailFormatOk(c.email.value)
    ensures r.Some? ==> r.value.ErrorReply? && r.value.status == 400
  {
    if !Given(c.email) || !Given(c.password) then Some(ErrorReply(400, RequiredMessage))
    else if Utf16Length(c.password.value) < MinPasswordLength then Some(ErrorReply(400, ShortPasswordMessage))
    else if !EmailFormatOk(c.email.value) then Some(ErrorReply(400, InvalidEmailMessage))
    else None
  }

  /** `/register` on a table holding `st`: the reply and the table afterwards. Every
      thrown exception gives 500 "Failed to register user"; a token that fails to sign
      after the save still leaves the new user in the table. */
  function RegisterSpec(crypto: Crypto, faults: StoreFaults, st: Store, c: Credentials): (Response, Store) {
    match RegisterInputCheck(c)
    case Some(reply) => (reply, st)
    case None =>
      var email, password := c.email.value, c.password.value;
      if faults.findThrows then (ErrorReply(500, RegisterFailedMessage), st)
      else if email in st.users then (ErrorReply(400, UserExistsMessage), st)
      else
        match crypto.hash(password)
        case None => (ErrorReply(500, RegisterFailedMessage), st)
        case Some(hashed) =>
          if faults.saveThrows then (ErrorReply(500, RegisterFailedMessage), st)
          else
            var user := User(st.nextId, email, hashed);
            var st' := Store(st.users[email := user], st.nextId + 1);
            match crypto.sign(Claims(user.id, user.email))
            case None => (ErrorReply(500, RegisterFailedMessage), st')
            case Some(token) => (TokenReply(token), st')
  }

  /** `/login` on a table holding `st`. An unknown email and a wrong password give the
      same reply; every thrown exception gives 500 "Failed to login". */
  function LoginSpec(crypto: Crypto, findThrows: bool, st: Store, c: Credentials): Response {
    if !Given(c.email) || !Given(c.password) then ErrorReply(400, RequiredMessage)
    else if findThrows then ErrorReply(500, LoginFailedMessage)
    else if c.email.value !in st.users then ErrorReply(401, InvalidCredentialsMessage)
    else
      var user := st.users[c.email.value];
      match crypto.compare(c.password.value, user.password)
      case None => ErrorReply(500, LoginFailedMessage)
      case Some(false) => ErrorReply(401, InvalidCredentialsMessage)
      case Some(true) =>
        match crypto.sign(Claims(user.id, user.email))
        case None => ErrorReply(500, LoginFailedMessage)
        case Some(token) => TokenReply(token)
  }

  /** The table is keyed by each user's own email (the column is unique), and every id
      is below the next one to be generated and used once. */
  ghost predicate StoreValid(st: Store) {
    (forall e :: e in st.users ==> st.users[e].email == e && st.users[e].id < st.nextId)
    && (forall e, e' :: e in st.users && e' in st.users && e != e' ==> st.users[e].id != st.users[e'].id)
  }

  /** A missing or empty field is answered first, with 400, and nothing is saved. */
  lemma RegisterRequiresFieldsFirst(crypto: Crypto, faults: StoreFaults, st: Store, c: Credentials)
    requires !Given(c.email) || !Given(c.password)
    ensures RegisterSpec(crypto, faults, st, c) == (ErrorReply(400, RequiredMessage), st)
  {
  }

  /** With both fields given, the short-password reply comes exactly when the password
      has fewer than 6 UTF-16 code units; a password of exactly 6 passes this check. */
  lemma RegisterPasswordLength(crypto: Crypto, faults: StoreFaults, st: Store, c: Credentials)
    requires Given(c.email) && Given(c.password)
    ensures RegisterSpec(crypto, faults, st, c).0 == ErrorReply(400, ShortPasswordMessage)
            <==> Utf16Length(c.password.value) < MinPasswordLength
    ensures RegisterSpec(crypto, faults, st, c).0 == ErrorReply(400, ShortPasswordMessage)
            ==> RegisterSpec(crypto, faults, st, c).1 == st
  {
  }

  /** With both fields given and a long enough password, the invalid-format reply comes
      exactly when the email does not match the regular expression. */
  lemma RegisterEmailFormat(crypto: Crypto, faults: StoreFaults, st: Store, c: Credentials)
    requires Given(c.email) && Given(c.password)
    requires Utf16Length(c.password.value) >= MinPasswordLength
    ensures RegisterSpec(crypto, faults, st, c).0 == ErrorReply(400, InvalidEmailMessage)
            <==> !MatchesEmailPattern(c.email.value)
  {
    EmailFormatIsPattern(c.email.value);
  }

  /** An email already in the table is refused with 400 once the input checks pass, and
      the table is unchanged. */
  lemma RegisterExistingUser(crypto: Crypto, faults: StoreFaults, st: Store, c: Credentials)
    requires RegisterInputCheck(c).None? && !faults.findThrows
    requires c.email.value in st.users
    ensures RegisterSpec(crypto, faults, st, c) == (ErrorReply(400, UserExistsMessage), st)
  {
  }

  /** `/register` changes the table only by adding one user, under the request's email,
      which was not there before, with the next id and the hash of the password, never
      the password itself; a token is issued only for that user. */
  lemma RegisterAddsOneUser(crypto: Crypto, faults: StoreFaults, st: Store, c: Credentials)
    ensures var (reply, st') := RegisterSpec(crypto, faults, st, c);
            st' == st
            || (c.email.Some? && c.password.Some? && c.email.value !in st.users
                && crypto.hash(c.password.value).Some?
                && st' == Store(st.users[c.email.value := User(st.nextId, c.email.value,
                                                                crypto.hash(c.password.value).value)],
                                st.nextId + 1))
    ensures var (reply, st') := RegisterSpec(crypto, faults, st, c);
            reply.TokenReply? ==>
              st' != st && reply.token == crypto.sign(Claims(st.nextId, c.email.value)).value
  {
  }

  /** Every error `/register` answers is 400 with one of its input or duplicate messages,
      or 500 with its fixed failure message. */
  lemma RegisterErrorReplies(crypto: Crypto, faults: StoreFaults, st: Store, c: Credentials)
    ensures var reply := RegisterSpec(crypto, faults, st, c).0;
            reply.ErrorReply? ==>
              (reply.status == 500 && reply.error == RegisterFailedMessage)
              || (reply.status == 400 && reply.error in {RequiredMessage, ShortPasswordMessage,
                                                          InvalidEmailMessage, UserExistsMessage})
  {
  }

  /** Once the input checks pass, every thrown exception is answered 500 "Failed to
      register user": a failing lookup, or for a new email a failing hash, save or sign.
      The table is unchanged, except that a sign failing after the save keeps the new user. */
  lemma RegisterFaultGives500(crypto: Crypto, faults: StoreFaults, st: Store, c: Credentials)
    requires RegisterInputCheck(c).None?
    ensures faults.findThrows ==> RegisterSpec(crypto, faults, st, c) == (ErrorReply(500, RegisterFailedMessage), st)
    ensures !faults.findThrows && c.email.value !in st.users
            && (crypto.hash(c.password.value).None? || faults.saveThrows) ==>
              RegisterSpec(crypto, faults, st, c) == (ErrorReply(500, RegisterFailedMessage), st)
    ensures !faults.findThrows && c.email.value !in st.users && !faults.saveThrows
            && crypto.hash(c.password.value).Some?
            && crypto.sign(Claims(st.nextId, c.email.value)).None? ==>
              var user := User(st.nextId, c.email.value, crypto.hash(c.password.value).value);
              RegisterSpec(crypto, faults, st, c)
              == (ErrorReply(500, RegisterFailedMessage), Store(st.users[c.email.value := user], st.nextId + 1))
  {
  }

  /** Once both fields are given, every thrown exception is answered 500 "Failed to
      login": a failing lookup, or for a stored user a failing compare or sign. */
  lemma LoginFaultGives500(crypto: Crypto, findThrows: bool, st: Store, c: Credentials)
    requires Given(c.email) && Given(c.password)
    ensures findThrows ==> LoginSpec(crypto, findThrows, st, c) == ErrorReply(500, LoginFailedMessage)
    ensures !findThrows && c.email.value in st.users
            && crypto.compare(c.password.value, st.users[c.email.value].password).None? ==>
              LoginSpec(crypto, findThrows, st, c) == ErrorReply(500, LoginFailedMessage)
    ensures !findThrows && c.email.value in st.users
            && crypto.compare(c.password.value, st.users[c.email.value].password) == Some(true)
            && crypto.sign(Claims(st.users[c.email.value].id, st.users[c.email.value].email)).None? ==>
              LoginSpec(crypto, findThrows, st, c) == ErrorReply(500, LoginFailedMessage)
  {
  }

  /** A well-formed registration of a new email, with no call throwing, saves the user
      under that email with the next id and the password's hash, and replies with the
      token signed for that user's id and email. */
  lemma RegisterSucceeds(crypto: Crypto, faults: StoreFaults, st: Store, c: Credentials)
    requires RegisterInputCheck(c).None? && !faults.findThrows && !faults.saveThrows
    requires c.email.value !in st.users && crypto.hash(c.password.value).Some?
    requires crypto.sign(Claims(st.nextId, c.email.value)).Some?
    ensures RegisterSpec(crypto, faults, st, c)
            == (TokenReply(crypto.sign(Claims(st.nextId, c.email.value)).value),
                Store(st.users[c.email.value := User(st.nextId, c.email.value, crypto.hash(c.password.value).value)],
                      st.nextId + 1))
  {
  }

  /** `/register` keeps the table well-formed. */
  lemma RegisterKeepsStoreValid(crypto: Crypto, faults: StoreFaults, st: Store, c: Credentials)
    requires StoreValid(st)
    ensures StoreValid(RegisterSpec(crypto, faults, st, c).1)
  {
    var st' := RegisterSpec(crypto, faults, st, c).1;
    RegisterAddsOneUser(crypto, faults, st, c);
    if st' != st {
      var email := c.email.value;
      forall e, e' | e in st'.users && e' in st'.users && e != e'
        ensures st'.users[e].id != st'.users[e'].id
      {
        if e == email {
          assert st'.users[e'].id == st.users[e'].id < st.nextId;
        } else if e' == email {
          assert st'.users[e].id == st.users[e].id < st.nextId;
        }
      }
    }
  }

  /** A missing or empty field is answered first, with 400, before the table is read. */
  lemma LoginRequiresFieldsFirst(crypto: Crypto, findThrows: bool, st: Store, c: Credentials)
    requires !Given(c.email) || !Given(c.password)
    ensures LoginSpec(crypto, findThrows, st, c) == ErrorReply(400, RequiredMessage)
  {
  }

  /** An email the table does not hold is answered 401 "Invalid credentials", whatever
      the password and however bcrypt and jsonwebtoken behave. */
  lemma LoginUnknownEmail(crypto: Crypto, st: Store, c: Credentials)
    requires Given(c.email) && Given(c.password) && c.email.value !in st.users
    ensures LoginSpec(crypto, false, st, c) == ErrorReply(401, InvalidCredentialsMessage)
  {
  }

  /** A stored email whose hash does not match the password is answered 401
      "Invalid credentials", and no token is signed. */
  lemma LoginWrongPassword(crypto: Crypto, st: Store, c: Credentials)
    requires Given(c.email) && Given(c.password) && c.email.value in st.users
    requires crypto.compare(c.password.value, st.users[c.email.value].password) == Some(false)
    ensures LoginSpec(crypto, false, st, c) == ErrorReply(401, InvalidCredentialsMessage)
  {
  }

  /** An unknown email and a known email with a wrong password get the same reply:
      401 "Invalid credentials". */
  lemma LoginDoesNotRevealUsers(crypto: Crypto, st: Store, unknown: Credentials, wrong: Credentials)
    requires Given(unknown.email) && Given(unknown.password) && unknown.email.value !in st.users
    requires Given(wrong.email) && Given(wrong.password) && wrong.email.value in st.users
    requires crypto.compare(wrong.password.value, st.users[wrong.email.value].password) == Some(false)
    ensures LoginSpec(crypto, false, st, unknown) == LoginSpec(crypto, false, st, wrong)
    ensures LoginSpec(crypto, false, st, unknown) == ErrorReply(401, InvalidCredentialsMessage)
  {
  }

  /** A login token is issued only for a stored user whose hash matches the password,
      and its payload is that user's id and email. */
  lemma LoginTokenClaims(crypto: Crypto, findThrows: bool, st: Store, c: Credentials)
    requires LoginSpec(crypto, findThrows, st, c).TokenReply?
    ensures Given(c.email) && Given(c.password) && !findThrows && c.email.value in st.users
    ensures var user := st.users[c.email.value];
            crypto.compare(c.password.value, user.password) == Some(true)
            && LoginSpec(crypto, findThrows, st, c).token == crypto.sign(Claims(user.id, user.email)).value
  {
  }

  /** A stored user whose hash matches the password, with no call throwing, gets the
      token signed for that user's id and email. */
  lemma LoginSucceeds(crypto: Crypto, findThrows: bool, st: Store, c: Credentials)
    requires Given(c.email) && Given(c.password) && !findThrows && c.email.value in st.users
    requires crypto.compare(c.password.value, st.users[c.email.value].password) == Some(true)
    requires crypto.sign(Claims(st.users[c.email.value].id, st.users[c.email.value].email)).Some?
    ensures LoginSpec(crypto, findThrows, st, c)
            == TokenReply(crypto.sign(Claims(st.users[c.email.value].id, st.users[c.email.value].email)).value)
  {
  }

  /** Every error `/login` answers is 400 for a missing field, 401 "Invalid credentials",
      or 500 with its fixed failure message. */
  lemma LoginErrorReplies(crypto: Crypto, findThrows: bool, st: Store, c: Credentials)
    ensures var reply := LoginSpec(crypto, findThrows, st, c);
            reply.ErrorReply? ==>
              (reply.status == 400 && reply.error == RequiredMessage && (!Given(c.email) || !Given(c.password)))
              || (reply.status == 401 && reply.error == InvalidCredentialsMessage)
              || (reply.status == 500 && reply.error == LoginFailedMessage)
  {
  }

  /** When bcrypt recognises the hash of a password, registering and then logging in
      with the same credentials signs the same payload both times. */
  lemma RegisterThenLogin(crypto: Crypto, faults: StoreFaults, st: Store, c: Credentials)
    requires RegisterSpec(crypto, faults, st, c).0.TokenReply?
    requires crypto.compare(c.password.value, crypto.hash(c.password.value).value) == Some(true)
    ensures LoginSpec(crypto, false, RegisterSpec(crypto, faults, st, c).1, c)
            == RegisterSpec(crypto, faults, st, c).0
  {
    RegisterAddsOneUser(crypto, faults, st, c);
  }

  /** Three characters outside the Basic Multilingual Plane are six UTF-16 code units,
      so such a password is long enough for `/register`. */
  lemma AstralPasswordLongEnough(crypto: Crypto, faults: StoreFaults, st: Store, email: string)
    requires email != ""
    ensures var c := Credentials(Some(email), Some("\U{1F600}\U{1F600}\U{1F600}"));
            RegisterSpec(crypto, faults, st, c).0 != ErrorReply(400, ShortPasswordMessage)
  {
    assert Utf16Length("\U{1F600}\U{1F600}\U{1F600}") == 6;
  }

  /** No visible ASCII character is whitespace. */
  lemma PrintableNotWhitespace()
    ensures forall c: char :: '!' <= c <= '~' ==> !IsWhitespace(c)
  {
  }

  /** A string without `c` counts no `c`. */
  lemma CountAbsent(s: string, c: char)
    requires forall i :: 0 <= i < |s| ==> s[i] != c
    ensures multiset(s)[c] == 0
  {
    assert c !in s;
  }

  /** A string with `@` at two positions holds more than one `@`. */
  lemma TwoAts(s: string, a: nat, b: nat)
    requires a < b < |s| && s[a] == '@' && s[b] == '@'
    ensures multiset(s)['@'] >= 2
  {
    MultisetSplit(s, a);
    assert s[a + 1..][b - a - 1] == '@';
    assert '@' in multiset(s[a + 1..]);
  }

  /** One `@` between two strings without `@` is the only one. */
  lemma CountOne(a: string, b: string)
    requires forall i :: 0 <= i < |a| ==> a[i] != '@'
    requires forall i :: 0 <= i < |b| ==> b[i] != '@'
    ensures multiset(a + ['@'] + b)['@'] == 1
  {
    CountAbsent(a, '@');
    CountAbsent(b, '@');
  }

  /** A visible ASCII character other than `@`. */
  predicate PlainChar(c: char) {
    '!' <= c <= '~' && c != '@'
  }

  /** `local@host.tld` passes the format check whenever its three parts are non-empty
      and made of visible ASCII characters other than `@`. */
  lemma PlainAddressOk(local: string, host: string, tld: string)
    requires local != [] && host != [] && tld != []
    requires forall i :: 0 <= i < |local| ==> PlainChar(local[i])
    requires forall i :: 0 <= i < |host| ==> PlainChar(host[i])
    requires forall i :: 0 <= i < |tld| ==> PlainChar(tld[i])
    ensures EmailFormatOk(local + "@" + host + "." + tld)
  {
    var domain := host + "." + tld;
    var s := local + "@" + domain;
    assert s == local + "@" + host + "." + tld;
    assert forall i :: 0 <= i < |domain| ==> domain[i] != '@' && '!' <= domain[i] <= '~' by {
      forall i | 0 <= i < |domain|
        ensures domain[i] != '@' && '!' <= domain[i] <= '~'
      {
        if i < |host| {
          assert domain[i] == host[i];
        } else if i > |host| {
          assert domain[i] == tld[i - |host| - 1];
        }
      }
    }
    CountOne(local, domain);
    assert s == local + ['@'] + domain;
    PrintableNotWhitespace();
    forall i | 0 <= i < |s|
      ensures !IsWhitespace(s[i])
    {
      if i < |local| {
        assert s[i] == local[i];
      } else if i > |local| {
        assert s[i] == domain[i - |local| - 1];
      }
    }
    assert s[|local|] == '@' && s[|local| + 1 + |host|] == '.';
  }

  /** A domain without a dot, or with the dot right after the `@`, fails the check. */
  lemma EmailFormatNeedsInnerDot()
    ensures !EmailFormatOk("user@acme")
    ensures !EmailFormatOk("user@.io")
  {
    var bare, early := "user@acme", "user@.io";
    assert forall i :: 0 <= i < |bare| ==> bare[i] != '.';
    assert forall i :: 0 <= i < |early| && i != 4 ==> early[i] != '@';
  }

  /** An empty local part fails the check. */
  lemma EmailFormatNeedsLocalPart()
    ensures !EmailFormatOk("@acme.io")
  {
    var lead := "@acme.io";
    assert forall i :: 0 < i < |lead| ==> lead[i] != '@';
  }

  /** A second `@` fails the check. */
  lemma EmailFormatNeedsOneAt()
    ensures !EmailFormatOk("a@b@acme.io")
  {
    TwoAts("a@b@acme.io", 1, 3);
  }

  /** A space fails the check. */
  lemma EmailFormatRejectsSpace()
    ensures !EmailFormatOk("us er@acme.io")
  {
    var spaced := "us er@acme.io";
    assert spaced[2] == ' ';
  }

  /** The users of the `users` table, as the handlers see them. */
  class UserTable {
    var users: map<string, User>
    var nextId: nat

    /** The table's contents as a value. */
    ghost function Contents(): Store
      reads this
    {
      Store(users, nextId)
    }

    constructor ()
      ensures Contents() == Store(map[], 1)
    {
      users, nextId := map[], 1;
    }

    /** `findOne({ where: { email } })`. */
    method FindOne(email: string) returns (user: Option<User>)
      ensures user.Some? <==> email in users
      ensures user.Some? ==> user.value == users[email]
    {
      user := if email in users then Some(users[email]) else None;
    }

    /** `save` of a new user: the table generates its id. */
    method Save(email: string, password: string) returns (user: User)
      modifies this
      ensures user == User(old(nextId), email, password)
      ensures Contents() == Store(old(users)[email := user], old(nextId) + 1)
    {
      user := User(nextId, email, password);
      users := users[email := user];
      nextId := nextId + 1;
    }
  }

  /** The `/register` handler. */
  method Register(table: UserTable, crypto: Crypto, faults: StoreFaults, c: Credentials)
    returns (reply: Response)
    modifies table
    ensures (reply, table.Contents()) == RegisterSpec(crypto, faults, old(table.Contents()), c)
  {
    if !Given(c.email) || !Given(c.password) {
      return ErrorReply(400, RequiredMessage);
    }
    var email, password := c.email.value, c.password.value;
    if Utf16Length(password) < MinPasswordLength {
      return ErrorReply(400, ShortPasswordMessage);
    }
    if !EmailFormatOk(email) {
      return ErrorReply(400, InvalidEmailMessage);
    }
    if faults.findThrows {
      return ErrorReply(500, RegisterFailedMessage);
    }
    var existing := table.FindOne(email);
    if existing.Some? {
      return ErrorReply(400, UserExistsMessage);
    }
    var hashed := crypto.hash(password);
    if hashed.None? || faults.saveThrows {
      return ErrorReply(500, RegisterFailedMessage);
    }
    var user := table.Save(email, hashed.value);
    var token := crypto.sign(Claims(user.id, user.email));
    if token.None? {
      return ErrorReply(500, RegisterFailedMessage);
    }
    reply := TokenReply(token.value);
  }

  /** The `/login` handler; it only reads the table. */
  method Login(table: UserTable, crypto: Crypto, findThrows: bool, c: Credentials)
    returns (reply: Response)
    ensures reply == LoginSpec(crypto, findThrows, table.Contents(), c)
    ensures reply.TokenReply? ==> c.email.Some? && c.email.value in table.users
  {
    if !Given(c.email) || !Given(c.password) {
      return ErrorReply(400, RequiredMessage);
    }
    var email, password := c.email.value, c.password.value;
    if findThrows {
      return ErrorReply(500, LoginFailedMessage);
    }
    var user := table.FindOne(email);
    if user.None? {
      return ErrorReply(401, InvalidCredentialsMessage);
    }
    var valid := crypto.compare(password, user.value.password);
    if valid.None? {
      return ErrorReply(500, LoginFailedMessage);
    }
    if !valid.value {
      return ErrorReply(401, InvalidCredentialsMessage);
    }
    var token := crypto.sign(Claims(user.value.id, user.value.email));
    if token.None? {
      return ErrorReply(500, LoginFailedMessage);
    }
    reply := TokenReply(token.value);
  }
}
