/** The sign-in / sign-up page's form state: which mode it is in, the five
    inputs, the per-field error messages and the banner message. */
module AuthPage {
  import opened JsText
  import opened Patterns
  import ServerAuth

  datatype Field = Name | Email | Username | EmailOrUsername | Password

  datatype FormData = FormData(name: string, email: string, username: string, emailOrUsername: string, password: string) {
    function Get(f: Field): string {
      match f
      case Name => name
      case Email => email
      case Username => username
      case EmailOrUsername => emailOrUsername
      case Password => password
    }

    /** `{ ...prev, [name]: value }` */
    function With(f: Field, v: string): (r: FormData)
      ensures r.Get(f) == v
      ensures forall g :: g != f ==> r.Get(g) == Get(g)
    {
      match f
      case Name => this.(name := v)
      case Email => this.(email := v)
      case Username => this.(username := v)
      case EmailOrUsername => this.(emailOrUsername := v)
      case Password => this.(password := v)
    }
  }

  const EmptyForm := FormData("", "", "", "", "")

  const NameTooShort := "Name must be at least 2 characters"
  const EmailRequired := "Email is required"
  const EmailInvalid := "Please enter a valid email"
  const UsernameRequired := "Username is required"
  const UsernameInvalid := "Username must be 3-20 characters (letters, numbers, underscore only)"
  const EmailOrUsernameRequired := "Email or username is required"
  const PasswordRequired := "Password is required"
  const PasswordTooShort := "Password must be at least 6 characters"

  /** The entries recorded before the password check: never one for the
      password, and in login mode at most the identifier's. */
  function FieldErrors(isLogin: bool, f: FormData): (e: map<Field, string>)
    ensures Password !in e
    ensures isLogin ==> e.Keys <= {EmailOrUsername}
    ensures !isLogin ==> EmailOrUsername !in e
  {
    if !isLogin then
      var e1 := if f.name == "" || Utf16Length(f.name) < 2 then map[Name := NameTooShort] else map[];
      var e2 := if f.email == "" then e1[Email := EmailRequired]
                else if !IsValidEmail(f.email) then e1[Email := EmailInvalid] else e1;
      if f.username == "" then e2[Username := UsernameRequired]
      else if !IsValidUsername(f.username) then e2[Username := UsernameInvalid] else e2
    else if f.emailOrUsername == "" then map[EmailOrUsername := EmailOrUsernameRequired]
    else map[]
  }

  /** The error entries validateForm records for a form in a mode. */
  function FormErrors(isLogin: bool, f: FormData): (e: map<Field, string>)
    ensures !isLogin ==> (Name in e <==> f.name == "" || Utf16Length(f.name) < 2)
    ensures !isLogin && Name in e ==> e[Name] == NameTooShort
    ensures !isLogin ==> (Email in e <==> f.email == "" || !IsValidEmail(f.email))
    ensures !isLogin && f.email == "" ==> e[Email] == EmailRequired
    ensures !isLogin && f.email != "" && !IsValidEmail(f.email) ==> e[Email] == EmailInvalid
    ensures !isLogin ==> (Username in e <==> f.username == "" || !IsValidUsername(f.username))
    ensures !isLogin && f.username == "" ==> e[Username] == UsernameRequired
    ensures !isLogin && f.username != "" && !IsValidUsername(f.username) ==> e[Username] == UsernameInvalid
    ensures isLogin ==> Name !in e && Email !in e && Username !in e
    ensures !isLogin ==> EmailOrUsername !in e
    ensures isLogin ==> (EmailOrUsername in e <==> f.emailOrUsername == "")
    ensures isLogin && EmailOrUsername in e ==> e[EmailOrUsername] == EmailOrUsernameRequired
    ensures Password in e <==> f.password == "" || (!isLogin && Utf16Length(f.password) < 6)
    ensures f.password == "" ==> e[Password] == PasswordRequired
    ensures f.password != "" && !isLogin && Utf16Length(f.password) < 6 ==> e[Password] == PasswordTooShort
  {
    var fieldErrors := FieldErrors(isLogin, f);
    if f.password == "" then fieldErrors[Password := PasswordRequired]
    else if !isLogin && Utf16Length(f.password) < 6 then fieldErrors[Password := PasswordTooShort]
    else fieldErrors
  }

  /** A sign-up form the page accepts, with a name of length at most 100,
      passes the server's presence, length, email, user-name and password
      checks: registration either accepts it or reports a duplicate. An
      accepted one can still fail in the INSERT, exactly when the address
      is wider than its column. */
  lemma AcceptedSignUpPassesServerChecks(f: FormData, users: seq<ServerAuth.Account>, hash: string -> string)
    requires FormErrors(false, f) == map[]
    requires Utf16Length(f.name) <= 100
    ensures var r := ServerAuth.Register(users, ServerAuth.RegisterRequest(Some(f.name), Some(f.email), Some(f.username), Some(f.password)), hash);
      && (r.Ok? || r.error.Conflict?)
      && (r.Ok? && |hash(f.password)| <= 255 ==> (ServerAuth.FitsColumns(r.value) <==> |f.email| <= 255))
  {
    var req := ServerAuth.RegisterRequest(Some(f.name), Some(f.email), Some(f.username), Some(f.password));
    assert Name !in FormErrors(false, f);
    assert Email !in FormErrors(false, f);
    assert Username !in FormErrors(false, f);
    assert Password !in FormErrors(false, f);
    if ServerAuth.Register(users, req, hash).Ok? && |hash(f.password)| <= 255 {
      ServerAuth.RegisteredFitsUnlessLongEmail(users, req, hash);
    }
  }

  /** The page accepts a name of length 101 that the server rejects. */
  lemma LongNamePassesPageOnly(f: FormData)
    requires Utf16Length(f.name) == 101 && IsValidEmail(f.email) && IsValidUsername(f.username)
    requires Utf16Length(f.password) >= 6
    ensures Name !in FormErrors(false, f)
    ensures forall users, hash ::
      ServerAuth.Register(users, ServerAuth.RegisterRequest(Some(f.name), Some(f.email), Some(f.username), Some(f.password)), hash)
      == Err(ServerAuth.BadName)
  {
  }

  class AuthForm {
    var isLogin: bool
    var form: FormData
    var errors: map<Field, string>
    var messageType: string
    var messageText: string

    constructor()
      ensures isLogin && form == EmptyForm && errors == map[] && messageType == "" && messageText == ""
    {
      isLogin := true;
      form := EmptyForm;
      errors := map[];
      messageType := "";
      messageText := "";
    }

    /** validateForm(): fills a fresh error object field by field, stores
        it, and reports whether it has no entries. */
    method ValidateForm() returns (ok: bool)
      modifies this
      ensures errors == FormErrors(isLogin, form)
      ensures ok <==> errors == map[]
      ensures isLogin == old(isLogin) && form == old(form)
      ensures messageType == old(messageType) && messageText == old(messageText)
    {
      var login, f := isLogin, form;
      var newErrors := FieldChecks(login, f);
      if f.password == "" {
        newErrors := newErrors[Password := PasswordRequired];
      } else if !login && Utf16Length(f.password) < 6 {
        newErrors := newErrors[Password := PasswordTooShort];
      }
      assert newErrors == FormErrors(login, f);
      errors := newErrors;
      ok := |newErrors.Keys| == 0;
      if ok {
        assert newErrors.Keys == {};
        assert newErrors == map[];
      }
    }

    /** The checks of validateForm before the password's, in their order. */
    static method FieldChecks(login: bool, f: FormData) returns (newErrors: map<Field, string>)
      ensures newErrors == FieldErrors(login, f)
    {
      newErrors := map[];
      if !login {
        if f.name == "" || Utf16Length(f.name) < 2 {
          newErrors := newErrors[Name := NameTooShort];
        }
        if f.email == "" {
          newErrors := newErrors[Email := EmailRequired];
        } else if !IsValidEmail(f.email) {
          newErrors := newErrors[Email := EmailInvalid];
        }
        if f.username == "" {
          newErrors := newErrors[Username := UsernameRequired];
        } else if !IsValidUsername(f.username) {
          newErrors := newErrors[Username := UsernameInvalid];
        }
      } else {
        if f.emailOrUsername == "" {
          newErrors := newErrors[EmailOrUsername := EmailOrUsernameRequired];
        }
      }
    }

    /** handleInputChange: stores the value; a field with a truthy error
        gets its error set to "", and no other error is touched. */
    method HandleInputChange(name: Field, value: string)
      modifies this
      ensures form == old(form).With(name, value)
      ensures old(name in errors && errors[name] != "") ==> errors == old(errors)[name := ""]
      ensures !old(name in errors && errors[name] != "") ==> errors == old(errors)
      ensures isLogin == old(isLogin) && messageType == old(messageType) && messageText == old(messageText)
    {
      form := form.With(name, value);
      if name in errors && errors[name] != "" {
        errors := errors[name := ""];
      }
    }

    /** switchMode: flips the mode and resets the inputs, the errors and the message. */
    method SwitchMode()
      modifies this
      ensures isLogin == !old(isLogin)
      ensures form == EmptyForm && errors == map[] && messageType == "" && messageText == ""
    {
      isLogin := !isLogin;
      form := EmptyForm;
      errors := map[];
      messageType := "";
      messageText := "";
    }
  }

  /** Editing a field leaves every other field's error as it was. */
  lemma EditClearsOnlyThatError(errors: map<Field, string>, name: Field, g: Field)
    requires g != name
    ensures var after := if name in errors && errors[name] != "" then errors[name := ""] else errors;
      (g in after <==> g in errors) && (g in errors ==> after[g] == errors[g])
      && (name in errors ==> name in after && after[name] == "")
  {
  }

  /** Right after a mode switch the empty form fails validation in either
      mode: the password (and the login identifier or the sign-up fields)
      are required. */
  lemma EmptyFormIsRejected(isLogin: bool)
    ensures Password in FormErrors(isLogin, EmptyForm)
    ensures isLogin ==> FormErrors(isLogin, EmptyForm).Keys == {EmailOrUsername, Password}
    ensures !isLogin ==> FormErrors(isLogin, EmptyForm).Keys == {Name, Email, Username, Password}
  {
  }
}
