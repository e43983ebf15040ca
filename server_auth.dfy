/** The account routes of the server: registration and login validation
    chains, the profile and stats updates, and the leaderboard limit. The
    users table is a sequence of accounts in the order the database returns
    them; password hashing and comparison are parameters. */
module ServerAuth {
  import opened JsText
  import opened Patterns

  datatype Stats = Stats(totalGames: int, wins: int, losses: int, draws: int, rating: int)

  /** One row of the users table. */
  datatype Account = Account(
    id: nat, name: string, email: string, username: string,
    passwordHash: string, bio: Option<string>, stats: Stats)

  /** The body of a registration request; a missing or null field is None. */
  datatype RegisterRequest = RegisterRequest(
    name: Option<string>, email: Option<string>, username: Option<string>, password: Option<string>)

  /** The failures of registration, in the order they are checked. The
      missing-fields failure says which fields were falsy; a failed INSERT
      is answered with status 500. */
  datatype RegisterError =
    | MissingFields(noName: bool, noEmail: bool, noUsername: bool, noPassword: bool)
    | BadName
    | BadEmail
    | BadUsername
    | ShortPassword
    | Conflict(field: string)
    | InsertFailed

  /** The values registration inserts; the database adds the id and the defaults. */
  datatype NewAccount = NewAccount(name: string, email: string, username: string, passwordHash: string)

  predicate AllPresent(req: RegisterRequest) {
    Truthy(req.name) && Truthy(req.email) && Truthy(req.username) && Truthy(req.password)
  }

  /** The rows of `WHERE email = e OR username = u`, in table order. */
  function Matching(users: seq<Account>, e: string, u: string): (rows: seq<Account>)
    ensures forall a :: a in rows <==> a in users && (a.email == e || a.username == u)
    ensures |rows| <= |users|
  {
    if users == [] then []
    else if users[0].email == e || users[0].username == u then [users[0]] + Matching(users[1..], e, u)
    else Matching(users[1..], e, u)
  }

  /** The field a duplicate is reported on: "email" when the first clashing
      row has that email, otherwise "username". */
  function ConflictField(rows: seq<Account>, email: string): (f: string)
    requires rows != []
    ensures f == "email" <==> rows[0].email == email
    ensures f == "email" || f == "username"
  {
    if rows[0].email == email then "email" else "username"
  }

  /** POST /register: the checks in order, each reported alone (lengths
      in UTF-16 code units, as `length` counts them), then the duplicate
      check on the lower-cased email and username, then the values to
      insert: the trimmed name and the lower-cased, trimmed email and
      username with the hashed password. */
  function Register(users: seq<Account>, req: RegisterRequest, hash: string -> string): (r: Result<NewAccount, RegisterError>)
    ensures !AllPresent(req) <==> r.Err? && r.error.MissingFields?
    ensures !AllPresent(req) ==>
      r == Err(MissingFields(!Truthy(req.name), !Truthy(req.email), !Truthy(req.username), !Truthy(req.password)))
    ensures r == Err(BadName) <==> AllPresent(req) && !(2 <= Utf16Length(req.name.value) <= 100)
    ensures r == Err(BadEmail) <==>
      AllPresent(req) && 2 <= Utf16Length(req.name.value) <= 100 && !IsValidEmail(req.email.value)
    ensures r == Err(BadUsername) <==>
      AllPresent(req) && 2 <= Utf16Length(req.name.value) <= 100 && IsValidEmail(req.email.value)
      && !IsValidUsername(req.username.value)
    ensures r == Err(ShortPassword) <==>
      AllPresent(req) && 2 <= Utf16Length(req.name.value) <= 100 && IsValidEmail(req.email.value)
      && IsValidUsername(req.username.value) && Utf16Length(req.password.value) < 6
    ensures r.Err? && r.error.Conflict? ==>
      exists a :: a in users && (a.email == ToLower(req.email.value) || a.username == ToLower(req.username.value))
    ensures r != Err(InsertFailed)
    ensures r.Ok? ==>
      && AllPresent(req) && 2 <= Utf16Length(req.name.value) <= 100 && IsValidEmail(req.email.value)
      && IsValidUsername(req.username.value) && Utf16Length(req.password.value) >= 6
      && (forall a :: a in users ==> a.email != ToLower(req.email.value) && a.username != ToLower(req.username.value))
      && r.value == NewAccount(Trim(req.name.value), Trim(ToLower(req.email.value)),
                               Trim(ToLower(req.username.value)), hash(req.password.value))
  {
    if !AllPresent(req) then
      Err(MissingFields(!Truthy(req.name), !Truthy(req.email), !Truthy(req.username), !Truthy(req.password)))
    else if Utf16Length(req.name.value) < 2 || Utf16Length(req.name.value) > 100 then Err(BadName)
    else if !IsValidEmail(req.email.value) then Err(BadEmail)
    else if !IsValidUsername(req.username.value) then Err(BadUsername)
    else if Utf16Length(req.password.value) < 6 then Err(ShortPassword)
    else
      var email := ToLower(req.email.value);
      var username := ToLower(req.username.value);
      var rows := Matching(users, email, username);
      if rows != [] then
        Err(Conflict(ConflictField(rows, email)))
      else
        Ok(NewAccount(Trim(req.name.value), Trim(ToLower(req.email.value)),
                      Trim(ToLower(req.username.value)), hash(req.password.value)))
  }

  /** The converse of registration's success clause: a request that passes
      every check and clashes with no row is accepted. */
  lemma RegisterAcceptsValid(users: seq<Account>, req: RegisterRequest, hash: string -> string)
    requires AllPresent(req) && 2 <= Utf16Length(req.name.value) <= 100 && IsValidEmail(req.email.value)
    requires IsValidUsername(req.username.value) && Utf16Length(req.password.value) >= 6
    requires forall a :: a in users ==> a.email != ToLower(req.email.value) && a.username != ToLower(req.username.value)
    ensures Register(users, req, hash).Ok?
  {
    NoClashMatchesNothing(users, ToLower(req.email.value), ToLower(req.username.value));
  }

  /** With no row holding the email or the user name, the query returns no row. */
  lemma {:induction false} NoClashMatchesNothing(users: seq<Account>, e: string, u: string)
    requires forall a :: a in users ==> a.email != e && a.username != u
    ensures Matching(users, e, u) == []
  {
    if users != [] {
      assert users[0] in users;
      NoClashMatchesNothing(users[1..], e, u);
    }
  }

  /** The converse of registration's duplicate clause: a request that passes
      every check and clashes with a row is refused as a duplicate. */
  lemma RegisterConflictsOnClash(users: seq<Account>, req: RegisterRequest, hash: string -> string, a: Account)
    requires AllPresent(req) && 2 <= Utf16Length(req.name.value) <= 100 && IsValidEmail(req.email.value)
    requires IsValidUsername(req.username.value) && Utf16Length(req.password.value) >= 6
    requires a in users && (a.email == ToLower(req.email.value) || a.username == ToLower(req.username.value))
    ensures Register(users, req, hash).Err? && Register(users, req, hash).error.Conflict?
  {
    var rows := Matching(users, ToLower(req.email.value), ToLower(req.username.value));
    assert a in rows;
  }

  /** A duplicate is reported on "email" exactly when the first row the
      query returns has the lower-cased email. */
  lemma ConflictOnFirstRow(users: seq<Account>, req: RegisterRequest, hash: string -> string)
    requires Register(users, req, hash).Err? && Register(users, req, hash).error.Conflict?
    ensures var rows := Matching(users, ToLower(req.email.value), ToLower(req.username.value));
      rows != [] && Register(users, req, hash).error.field == (if rows[0].email == ToLower(req.email.value) then "email" else "username")
  {
  }

  /** Lower-casing keeps a run of [^\s@] such a run. */
  lemma LowerKeepsPlain(s: string, lo: nat, hi: nat)
    requires lo <= hi <= |s| && AllPlain(s[lo..hi])
    ensures AllPlain(ToLower(s)[lo..hi])
  {
    var t := ToLower(s);
    forall k | 0 <= k < hi - lo ensures Plain(t[lo..hi][k]) {
      assert s[lo..hi][k] == s[lo + k];
      assert t[lo..hi][k] == LowerChar(s[lo + k]);
    }
  }

  /** The split of an address into a@b.c at positions i and j. */
  predicate EmailSplit(s: string, i: int, j: int) {
    0 < i && i + 1 < j && j + 1 < |s| && s[i] == '@' && s[j] == '.'
    && AllPlain(s[..i]) && AllPlain(s[i + 1..j]) && AllPlain(s[j + 1..])
  }

  /** Lower-casing keeps the split of an address. */
  lemma LowerKeepsSplit(s: string, i: int, j: int)
    requires EmailSplit(s, i, j)
    ensures EmailSplit(ToLower(s), i, j)
  {
    var t := ToLower(s);
    assert t[i] == LowerChar(s[i]) && t[j] == LowerChar(s[j]);
    assert s[..i] == s[0..i] && t[..i] == t[0..i];
    assert s[j + 1..] == s[j + 1..|s|] && t[j + 1..] == t[j + 1..|t|];
    LowerKeepsPlain(s, 0, i);
    LowerKeepsPlain(s, i + 1, j);
    LowerKeepsPlain(s, j + 1, |s|);
  }

  /** Lower-casing keeps an address matching the email pattern. */
  lemma LowerKeepsEmailValid(s: string)
    requires IsValidEmail(s)
    ensures IsValidEmail(ToLower(s))
  {
    var i, j :| 0 < i && i + 1 < j && j + 1 < |s| && s[i] == '@' && s[j] == '.'
                && AllPlain(s[..i]) && AllPlain(s[i + 1..j]) && AllPlain(s[j + 1..]);
    LowerKeepsSplit(s, i, j);
  }

  /** Lower-casing keeps a user name matching the user-name pattern. */
  lemma LowerKeepsUsernameValid(u: string)
    requires IsValidUsername(u)
    ensures IsValidUsername(ToLower(u))
  {
    var t := ToLower(u);
    forall k | 0 <= k < |t| ensures IsWordChar(t[k]) {
      assert t[k] == LowerChar(u[k]);
    }
  }

  /** What registration stores: the email and user name are exactly the
      lower-cased inputs (trim removes nothing from them), and both still
      match their patterns. */
  lemma StoredAccountIsNormalised(users: seq<Account>, req: RegisterRequest, hash: string -> string)
    requires Register(users, req, hash).Ok?
    ensures var n := Register(users, req, hash).value;
      && n.email == ToLower(req.email.value) && IsValidEmail(n.email)
      && n.username == ToLower(req.username.value) && IsValidUsername(n.username)
      && n.name == Trim(req.name.value)
  {
    ValidEmailTrimsToItself(req.email.value);
    ValidUsernameTrimsToItself(req.username.value);
    LowerKeepsEmailValid(req.email.value);
    LowerKeepsUsernameValid(req.username.value);
  }

  datatype LoginError = MissingCredentials | InvalidCredentials

  /** POST /login: both fields must be truthy; the first row whose email
      or user name equals the lower-cased, trimmed identifier is checked
      against the password with `compare`. */
  function Login(users: seq<Account>, emailOrUsername: Option<string>, password: Option<string>,
                 compare: (string, string) -> bool): (r: Result<Account, LoginError>)
    ensures r == Err(MissingCredentials) <==> !Truthy(emailOrUsername) || !Truthy(password)
    ensures r.Ok? ==>
      var key := Trim(ToLower(emailOrUsername.value));
      && Matching(users, key, key) != [] && r.value == Matching(users, key, key)[0]
      && r.value in users && (r.value.email == key || r.value.username == key)
      && compare(password.value, r.value.passwordHash)
    ensures Truthy(emailOrUsername) && Truthy(password) ==>
      var key := Trim(ToLower(emailOrUsername.value));
      (forall a :: a in users ==> a.email != key && a.username != key) ==> r == Err(InvalidCredentials)
  {
    if !Truthy(emailOrUsername) || !Truthy(password) then Err(MissingCredentials)
    else
      var key := Trim(ToLower(emailOrUsername.value));
      var rows := Matching(users, key, key);
      if rows == [] then Err(InvalidCredentials)
      else if !compare(password.value, rows[0].passwordHash) then Err(InvalidCredentials)
      else Ok(rows[0])
  }

  /** No user name with only word characters can equal an email address. */
  lemma UsernameIsNoEmail(u: string, e: string)
    requires IsValidUsername(u) && IsValidEmail(e)
    ensures u != e
  {
  }

  /** Registration followed by login: once the inserted row is in the
      table, logging in with the same email (any case, any surrounding
      whitespace trimmed away) and password returns that row, provided the
      table's user names match the pattern and the hash verifies. */
  lemma RegisterThenLogin(users: seq<Account>, req: RegisterRequest, hash: string -> string,
                          compare: (string, string) -> bool, id: nat, bio: Option<string>, stats: Stats)
    requires Register(users, req, hash).Ok?
    requires forall a :: a in users ==> IsValidUsername(a.username)
    requires compare(req.password.value, hash(req.password.value))
    ensures var n := Register(users, req, hash).value;
      var a := Account(id, n.name, n.email, n.username, n.passwordHash, bio, stats);
      Login(users + [a], req.email, req.password, compare) == Ok(a)
  {
    var n := Register(users, req, hash).value;
    var a := Account(id, n.name, n.email, n.username, n.passwordHash, bio, stats);
    StoredAccountIsNormalised(users, req, hash);
    NoRowMatches(users, n.email);
    MatchingOnlyLast(users, a, n.email);
    LoginFindsSoleMatch(users + [a], req.email, req.password, compare, a);
  }

  /** A table whose user names match the pattern and that holds no row with
      the address `e` has no row matching `e` on either column. */
  lemma NoRowMatches(users: seq<Account>, e: string)
    requires forall b :: b in users ==> IsValidUsername(b.username) && b.email != e
    requires IsValidEmail(e)
    ensures forall b :: b in users ==> b.email != e && b.username != e
  {
    forall b | b in users
      ensures b.username != e
    {
      UsernameIsNoEmail(b.username, e);
    }
  }

  /** Login succeeds with the one row the identifier matches when its hash verifies. */
  lemma LoginFindsSoleMatch(users: seq<Account>, emailOrUsername: Option<string>, password: Option<string>,
                            compare: (string, string) -> bool, a: Account)
    requires Truthy(emailOrUsername) && Truthy(password)
    requires var key := Trim(ToLower(emailOrUsername.value)); Matching(users, key, key) == [a]
    requires compare(password.value, a.passwordHash)
    ensures Login(users, emailOrUsername, password, compare) == Ok(a)
  {
  }

  /** When no row of `users` matches, the rows matching in `users + [a]` are `a` alone. */
  lemma {:induction false} MatchingOnlyLast(users: seq<Account>, a: Account, key: string)
    requires forall b :: b in users ==> b.email != key && b.username != key
    requires a.email == key
    ensures Matching(users + [a], key, key) == [a]
  {
    if users == [] {
      assert users + [a] == [a];
    } else {
      assert (users + [a])[1..] == users[1..] + [a];
      MatchingOnlyLast(users[1..], a, key);
    }
  }

  datatype ProfileError = BadProfileName | BadBio

  /** PUT /users/profile: a truthy name must have a length of 2..100 and a
      truthy bio at most 500 (UTF-16 code units); a present field is stored trimmed, an absent
      one keeps the stored value. Nothing else of the account changes. */
  function UpdateProfile(a: Account, name: Option<string>, bio: Option<string>): (r: Result<Account, ProfileError>)
    ensures r == Err(BadProfileName) <==> Truthy(name) && !(2 <= Utf16Length(name.value) <= 100)
    ensures r == Err(BadBio) <==>
      !(Truthy(name) && !(2 <= Utf16Length(name.value) <= 100)) && Truthy(bio) && Utf16Length(bio.value) > 500
    ensures r.Ok? ==>
      && r.value.name == (if name.Some? then Trim(name.value) else a.name)
      && r.value.bio == (if bio.Some? then Some(Trim(bio.value)) else a.bio)
      && r.value == a.(name := r.value.name, bio := r.value.bio)
  {
    if Truthy(name) && (Utf16Length(name.value) < 2 || Utf16Length(name.value) > 100) then Err(BadProfileName)
    else if Truthy(bio) && Utf16Length(bio.value) > 500 then Err(BadBio)
    else Ok(a.(name := if name.Some? then Trim(name.value) else a.name,
               bio := if bio.Some? then Some(Trim(bio.value)) else a.bio))
  }

  /** The length check is on the untrimmed name, so a name of three spaces
      passes and the stored name becomes empty. */
  lemma BlankProfileNameIsStored(a: Account)
    ensures UpdateProfile(a, Some("   "), None) == Ok(a.(name := ""))
  {
    var blank := "   ";
    assert blank[0] == ' ' && blank[1..] == "  " && blank[2..] == " " && blank[3..] == "";
    assert TrimStart(blank) == "";
    assert Trim(blank) == "";
    assert Utf16Length(blank) == 3 by {
      Utf16LengthBmp(blank);
    }
  }

  /** The body of a stats update; an absent field is None. */
  datatype StatsUpdate = StatsUpdate(
    totalGames: Option<int>, wins: Option<int>, losses: Option<int>, draws: Option<int>, rating: Option<int>)

  /** PUT /users/stats: every present field replaces the stored one, every
      absent field is kept. */
  function UpdateStats(st: Stats, u: StatsUpdate): (r: Stats)
    ensures u.totalGames.Some? ==> r.totalGames == u.totalGames.value
    ensures u.totalGames.None? ==> r.totalGames == st.totalGames
    ensures u.wins.Some? ==> r.wins == u.wins.value
    ensures u.wins.None? ==> r.wins == st.wins
    ensures u.losses.Some? ==> r.losses == u.losses.value
    ensures u.losses.None? ==> r.losses == st.losses
    ensures u.draws.Some? ==> r.draws == u.draws.value
    ensures u.draws.None? ==> r.draws == st.draws
    ensures u.rating.Some? ==> r.rating == u.rating.value
    ensures u.rating.None? ==> r.rating == st.rating
  {
    Stats(u.totalGames.GetOr(st.totalGames), u.wins.GetOr(st.wins), u.losses.GetOr(st.losses),
          u.draws.GetOr(st.draws), u.rating.GetOr(st.rating))
  }

  /** An empty stats update changes nothing, and applying the same update
      twice is the same as applying it once. */
  lemma UpdateStatsIdempotent(st: Stats, u: StatsUpdate)
    ensures UpdateStats(st, StatsUpdate(None, None, None, None, None)) == st
    ensures UpdateStats(UpdateStats(st, u), u) == UpdateStats(st, u)
  {
  }

  /** The leaderboard size, Math.min(parseInt(limit) || 10, 50), where
      `parsed` is None when parseInt gives NaN: never above 50, 10 for a
      missing, unparsable or zero limit, otherwise the parsed value. */
  function LeaderboardLimit(parsed: Option<int>): (n: int)
    ensures n <= 50
    ensures parsed.None? || parsed == Some(0) ==> n == 10
    ensures parsed.Some? && parsed.value != 0 && parsed.value <= 50 ==> n == parsed.value
    ensures parsed.Some? && parsed.value > 50 ==> n == 50
  {
    var requested := if parsed.None? || parsed.value == 0 then 10 else parsed.value;
    if requested < 50 then requested else 50
  }

  /** The row INSERT creates from registration's values: the next serial
      id, an empty bio and the column defaults (no games, rating 1200). */
  function Inserted(n: NewAccount, id: nat): (a: Account)
    ensures a.id == id && a.name == n.name && a.email == n.email && a.username == n.username
    ensures a.passwordHash == n.passwordHash && a.bio == Some("")
    ensures a.stats == Stats(0, 0, 0, 0, 1200)
  {
    Account(id, n.name, n.email, n.username, n.passwordHash, Some(""), Stats(0, 0, 0, 0, 1200))
  }

  /** The index of the first row with id `id`. */
  function RowOf(rows: seq<Account>, id: nat): (k: Option<nat>)
    ensures k.Some? ==> k.value < |rows| && rows[k.value].id == id
    ensures k.None? ==> forall a :: a in rows ==> a.id != id
  {
    if rows == [] then None
    else if rows[0].id == id then Some(0)
    else match RowOf(rows[1..], id)
      case None => None
      case Some(k) => Some(k + 1)
  }

  /** The VARCHAR widths of the users table's columns, which PostgreSQL
      counts in characters (code points); a longer value makes the INSERT
      fail. */
  predicate FitsColumns(n: NewAccount) {
    |n.name| <= 100 && |n.email| <= 255 && |n.username| <= 50 && |n.passwordHash| <= 255
  }

  /** Of the values an accepted registration inserts, only the email can be
      too wide for its column (given a hash of at most 255 characters, as a
      bcrypt hash of 60 is): registration's checks bound the name and the
      user name but set no upper limit on the address. */
  lemma RegisteredFitsUnlessLongEmail(users: seq<Account>, req: RegisterRequest, hash: string -> string)
    requires Register(users, req, hash).Ok? && |hash(req.password.value)| <= 255
    ensures FitsColumns(Register(users, req, hash).value) <==> |req.email.value| <= 255
  {
    StoredAccountIsNormalised(users, req, hash);
    NewAccountFits(Register(users, req, hash).value, req.name.value, req.email.value);
  }

  lemma NewAccountFits(n: NewAccount, name: string, email: string)
    requires n.name == Trim(name) && Utf16Length(name) <= 100
    requires n.email == ToLower(email) && IsValidUsername(n.username) && |n.passwordHash| <= 255
    ensures FitsColumns(n) <==> |email| <= 255
  {
    assert |n.name| <= |name| <= Utf16Length(name);
    assert |n.email| == |email|;
    assert |n.username| <= 20;
  }

  /** A well-formed address of more than 255 characters passes every check
      of registration and still cannot be stored; LongEmail is one. */
  lemma LongEmailIsNotStored(e: string, hash: string -> string)
    requires IsValidEmail(e) && |e| > 255 && |hash("secret")| <= 255
    ensures var req := RegisterRequest(Some("Al"), Some(e), Some("bob"), Some("secret"));
      && Register([], req, hash).Ok? && !FitsColumns(Register([], req, hash).value)
  {
    var req := RegisterRequest(Some("Al"), Some(e), Some("bob"), Some("secret"));
    BobIsValid();
    RegisterAcceptsValid([], req, hash);
    RegisteredFitsUnlessLongEmail([], req, hash);
  }

  lemma BobIsValid()
    ensures IsValidUsername("bob")
  {
    var u := "bob";
    assert u[0] == 'b' && u[1] == 'o' && u[2] == 'b';
    assert forall k :: 0 <= k < |u| ==> IsWordChar(u[k]);
  }

  /** "a@b.c" preceded by 251 more letters. */
  function LongEmail(): (e: string)
    ensures |e| == 256
  {
    seq(252, _ => 'a') + "@b.c"
  }

  /** The address LongEmail is well formed and 256 characters long. */
  lemma LongEmailIsValid()
    ensures IsValidEmail(LongEmail()) && |LongEmail()| > 255
  {
    var e := LongEmail();
    var a := seq(252, _ => 'a');
    assert e[..252] == a && e[253..254] == "b" && e[255..] == "c";
    assert AllPlain(a) by {
      forall k | 0 <= k < 252 ensures Plain(a[k]) {
        assert a[k] == 'a';
      }
    }
    assert EmailSplit(e, 252, 254);
  }

  /** The table's constraints, plus what registration guarantees of every
      user name it stores. */
  predicate TableInv(rows: seq<Account>, nextId: nat) {
    && (forall i, j :: 0 <= i < j < |rows| ==>
          rows[i].email != rows[j].email && rows[i].username != rows[j].username && rows[i].id != rows[j].id)
    && (forall a :: a in rows ==> IsValidUsername(a.username) && a.id < nextId)
  }

  /** The users table with its UNIQUE email and username columns and its
      serial id. */
  class UsersTable {
    var rows: seq<Account>
    var nextId: nat

    ghost predicate Valid()
      reads this
    {
      TableInv(rows, nextId)
    }

    constructor ()
      ensures Valid() && rows == [] && nextId == 1
    {
      rows, nextId := [], 1;
    }

    /** POST /register against the table: a refused request changes
        nothing; an accepted one whose values fit the columns appends the
        inserted row and returns it; one whose values do not fit fails in
        the INSERT, which adds no row but has drawn the next serial value
        (PostgreSQL does not give sequence values back). */
    method RegisterRoute(req: RegisterRequest, hash: string -> string) returns (r: Result<Account, RegisterError>)
      requires Valid()
      modifies this
      ensures Valid()
      ensures var v := Register(old(rows), req, hash);
        && (v.Err? ==> r == Err(v.error) && rows == old(rows) && nextId == old(nextId))
        && (v.Ok? && !FitsColumns(v.value) ==> r == Err(InsertFailed) && rows == old(rows) && nextId == old(nextId) + 1)
        && (v.Ok? && FitsColumns(v.value) ==>
              r == Ok(Inserted(v.value, old(nextId))) && rows == old(rows) + [r.value] && nextId == old(nextId) + 1)
    {
      var v := Register(rows, req, hash);
      if v.Err? {
        r := Err(v.error);
      } else {
        RegisteredIsNew(rows, req, hash);
        r := Insert(v.value);
      }
    }

    /** The INSERT of registration's values: a row that fits the columns is
        appended under the next serial id; one that does not fit fails.
        Either way the serial value is drawn. */
    method Insert(n: NewAccount) returns (r: Result<Account, RegisterError>)
      requires Valid()
      requires IsValidUsername(n.username)
      requires forall b :: b in rows ==> b.email != n.email && b.username != n.username
      modifies this
      ensures Valid() && nextId == old(nextId) + 1
      ensures !FitsColumns(n) ==> r == Err(InsertFailed) && rows == old(rows)
      ensures FitsColumns(n) ==> r == Ok(Inserted(n, old(nextId))) && rows == old(rows) + [r.value]
    {
      if FitsColumns(n) {
        var a := Inserted(n, nextId);
        AppendKeepsInv(rows, nextId, a);
        rows := rows + [a];
        r := Ok(a);
      } else {
        r := Err(InsertFailed);
      }
      nextId := nextId + 1;
    }

    /** PUT /users/profile for user `userId`: None when no row has that id
        (the reply carries no user), otherwise the profile rules' verdict;
        an accepted update replaces the row. */
    method UpdateProfileRoute(userId: nat, name: Option<string>, bio: Option<string>)
      returns (r: Option<Result<Account, ProfileError>>)
      requires Valid()
      modifies this
      ensures Valid() && nextId == old(nextId) && |rows| == |old(rows)|
      ensures RowOf(old(rows), userId).None? ==> r.None? && rows == old(rows)
      ensures RowOf(old(rows), userId).Some? ==>
        var k := RowOf(old(rows), userId).value;
        && r == Some(UpdateProfile(old(rows)[k], name, bio))
        && rows == (if r.value.Ok? then old(rows)[k := r.value.value] else old(rows))
    {
      var k := RowOf(rows, userId);
      if k.None? {
        return None;
      }
      var v := UpdateProfile(rows[k.value], name, bio);
      r := Some(v);
      if v.Ok? {
        ReplaceRow(k.value, v.value);
      }
    }

    /** Writes back row `k` with its email, user name and id unchanged. */
    method ReplaceRow(k: nat, a: Account)
      requires Valid() && k < |rows|
      requires a.email == rows[k].email && a.username == rows[k].username && a.id == rows[k].id
      modifies this
      ensures Valid() && rows == old(rows)[k := a] && nextId == old(nextId)
    {
      ReplaceKeepsInv(rows, nextId, k, a);
      rows := rows[k := a];
    }

    /** PUT /users/stats for user `userId`: the row's stats take every
        present field; a missing row is left as it is. */
    method UpdateStatsRoute(userId: nat, u: StatsUpdate) returns (r: Option<Account>)
      requires Valid()
      modifies this
      ensures Valid() && nextId == old(nextId)
      ensures RowOf(old(rows), userId).None? ==> r.None? && rows == old(rows)
      ensures RowOf(old(rows), userId).Some? ==>
        var k := RowOf(old(rows), userId).value;
        && r == Some(old(rows)[k].(stats := UpdateStats(old(rows)[k].stats, u)))
        && rows == old(rows)[k := r.value]
    {
      var k := RowOf(rows, userId);
      if k.None? {
        return None;
      }
      var a := rows[k.value].(stats := UpdateStats(rows[k.value].stats, u));
      r := Some(a);
      ReplaceRow(k.value, a);
    }
  }

  /** Appending a row whose email, user name and id no row has keeps the
      columns unique. */
  lemma AppendKeepsUnique(rows: seq<Account>, a: Account)
    requires forall i, j :: 0 <= i < j < |rows| ==>
      rows[i].email != rows[j].email && rows[i].username != rows[j].username && rows[i].id != rows[j].id
    requires forall b :: b in rows ==> b.email != a.email && b.username != a.username && b.id != a.id
    ensures var t := rows + [a];
      forall i, j :: 0 <= i < j < |t| ==> t[i].email != t[j].email && t[i].username != t[j].username && t[i].id != t[j].id
  {
    var t := rows + [a];
    forall i, j | 0 <= i < j < |t|
      ensures t[i].email != t[j].email && t[i].username != t[j].username && t[i].id != t[j].id
    {
      assert t[i] == rows[i];
      if j < |rows| {
        assert t[j] == rows[j];
      } else {
        assert rows[i] in rows;
      }
    }
  }

  /** An accepted registration's row may be appended: its email and user
      name are new and valid, and its id is the next serial. */
  /** The values of an accepted registration carry a valid user name and
      clash with no row. */
  lemma RegisteredIsNew(users: seq<Account>, req: RegisterRequest, hash: string -> string)
    requires Register(users, req, hash).Ok?
    ensures var n := Register(users, req, hash).value;
      && IsValidUsername(n.username)
      && forall b :: b in users ==> b.email != n.email && b.username != n.username
  {
    StoredAccountIsNormalised(users, req, hash);
  }

  lemma InsertKeepsInv(rows: seq<Account>, nextId: nat, req: RegisterRequest, hash: string -> string)
    requires TableInv(rows, nextId) && Register(rows, req, hash).Ok?
    ensures TableInv(rows + [Inserted(Register(rows, req, hash).value, nextId)], nextId + 1)
  {
    var n := Register(rows, req, hash).value;
    StoredAccountIsNormalised(rows, req, hash);
    assert forall b :: b in rows ==> b.email != n.email && b.username != n.username;
    AppendKeepsInv(rows, nextId, Inserted(n, nextId));
  }

  /** Appending a row with a new email, a new valid user name and the next
      id keeps the constraints. */
  lemma AppendKeepsInv(rows: seq<Account>, nextId: nat, a: Account)
    requires TableInv(rows, nextId)
    requires forall b :: b in rows ==> b.email != a.email && b.username != a.username
    requires IsValidUsername(a.username) && a.id == nextId
    ensures TableInv(rows + [a], nextId + 1)
  {
    AppendKeepsUnique(rows, a);
    forall b | b in rows + [a]
      ensures IsValidUsername(b.username) && b.id < nextId + 1
    {
      if b != a {
        assert b in rows;
      }
    }
  }

  /** Replacing a row by one with the same email, user name and id keeps
      the constraints. */
  lemma ReplaceKeepsInv(rows: seq<Account>, nextId: nat, k: nat, a: Account)
    requires TableInv(rows, nextId) && k < |rows|
    requires a.email == rows[k].email && a.username == rows[k].username && a.id == rows[k].id
    ensures TableInv(rows[k := a], nextId)
  {
    var t := rows[k := a];
    forall i, j | 0 <= i < j < |t|
      ensures t[i].email != t[j].email && t[i].username != t[j].username && t[i].id != t[j].id
    {
      assert t[i].email == rows[i].email && t[i].username == rows[i].username && t[i].id == rows[i].id;
      assert t[j].email == rows[j].email && t[j].username == rows[j].username && t[j].id == rows[j].id;
    }
    forall b | b in t
      ensures IsValidUsername(b.username) && b.id < nextId
    {
      var i :| 0 <= i < |t| && t[i] == b;
      assert rows[i] in rows;
    }
  }

  /** Logging in with the identifier an account was registered with finds
      that account in a valid table: registering and then logging in
      through the table returns the inserted row. */
  lemma TableRegisterThenLogin(rows: seq<Account>, req: RegisterRequest, hash: string -> string,
                               compare: (string, string) -> bool, id: nat)
    requires Register(rows, req, hash).Ok?
    requires forall a :: a in rows ==> IsValidUsername(a.username)
    requires compare(req.password.value, hash(req.password.value))
    ensures Login(rows + [Inserted(Register(rows, req, hash).value, id)], req.email, req.password, compare)
      == Ok(Inserted(Register(rows, req, hash).value, id))
  {
    RegisterThenLogin(rows, req, hash, compare, id, Some(""), Stats(0, 0, 0, 0, 1200));
  }
}
