/**
 * The sign-in and sign-up page: the form's state, the checks run before anything is sent,
 * and the user record the page keeps after the server answers. The requests themselves and
 * the browser storage are not modelled.
 */
module AuthPage {
  import opened Wrappers
  import opened Text
  import opened Schema
  import opened Views
  import opened AuthRoutes

  /** The `formData` state of the page. */
  datatype FormData = FormData(fullName: string, username: string, email: string, password: string,
                               confirmPassword: string)

  const EmptyForm := FormData("", "", "", "", "")

  /** The `name` attribute of an input of the form. */
  datatype Field = FullNameField | UsernameField | EmailField | PasswordField | ConfirmField

  function Get(f: FormData, field: Field): string {
    match field
    case FullNameField => f.fullName
    case UsernameField => f.username
    case EmailField => f.email
    case PasswordField => f.password
    case ConfirmField => f.confirmPassword
  }

  /** `{...prev, [name]: value}`: the one field replaced, every other field kept. */
  function WithField(f: FormData, field: Field, value: string): (r: FormData)
    ensures Get(r, field) == value
    ensures forall other :: other != field ==> Get(r, other) == Get(f, other)
  {
    match field
    case FullNameField => f.(fullName := value)
    case UsernameField => f.(username := value)
    case EmailField => f.(email := value)
    case PasswordField => f.(password := value)
    case ConfirmField => f.(confirmPassword := value)
  }

  /** The regular expression `/\S+@\S+\.\S+/` matches the piece of `s` around the at sign at
      `a` and the dot at `d`: a non-space character before the at sign, a non-empty run of
      non-space characters up to the dot, and a non-space character after it. */
  predicate LooseEmailAt(s: string, a: int, d: int) {
    && 0 < a && a + 1 < d && d + 1 < |s|
    && s[a] == '@' && s[d] == '.'
    && !IsSpace(s[a - 1]) && NoSpace(s[a + 1..d]) && !IsSpace(s[d + 1])
  }

  /** `/\S+@\S+\.\S+/.test(s)`: the expression is not anchored, so it only needs to match
      somewhere in `s`. */
  predicate LooseEmail(s: string)
    ensures LooseEmail(s) ==> 5 <= |s| && '@' in s
  {
    exists a, d | 0 < a < |s| && 0 < d < |s| :: LooseEmailAt(s, a, d)
  }

  /** The messages `validateForm` can set. */
  const FormMessages := {"Please enter your full name", "Please choose a username", "Please enter your email",
                         "Please enter a valid email address", "Please enter your password",
                         "Password must be at least 6 characters", "Passwords do not match"}

  /** The first check of `validateForm` that fails, in the order the page runs them; the name
      fields and the confirmation are only checked when signing up. */
  function FormProblem(isLogin: bool, f: FormData): (r: Option<string>)
    ensures r.None? <==> && (isLogin || (!IsBlank(f.fullName) && !IsBlank(f.username)))
                         && !IsBlank(f.email) && LooseEmail(f.email) && |f.password| >= 6
                         && (isLogin || f.password == f.confirmPassword)
    ensures r.Some? ==> r.value in FormMessages
  {
    if !isLogin && IsBlank(f.fullName) then Some("Please enter your full name")
    else if !isLogin && IsBlank(f.username) then Some("Please choose a username")
    else if IsBlank(f.email) then Some("Please enter your email")
    else if !LooseEmail(f.email) then Some("Please enter a valid email address")
    else if f.password == [] then Some("Please enter your password")
    else if |f.password| < 6 then Some("Password must be at least 6 characters")
    else if !isLogin && f.password != f.confirmPassword then Some("Passwords do not match")
    else None
  }

  /** Signing in looks at the email and the password only. */
  lemma LoginIgnoresSignupFields(f: FormData, fullName: string, username: string, confirmPassword: string)
    ensures FormProblem(true, f) == FormProblem(true, f.(fullName := fullName, username := username,
                                                         confirmPassword := confirmPassword))
  {
    var g := f.(fullName := fullName, username := username, confirmPassword := confirmPassword);
    assert g.email == f.email && g.password == f.password;
  }

  /** The checks run in order: an empty sign-up form reports the missing name first, an
      empty sign-in form the missing email. */
  lemma EmptyFormProblems()
    ensures FormProblem(false, EmptyForm) == Some("Please enter your full name")
    ensures FormProblem(true, EmptyForm) == Some("Please enter your email")
  {
    var e := EmptyForm;
    assert TrimStart(e.fullName) == [] && TrimEnd([]) == [];
    assert IsBlank(e.fullName) && IsBlank(e.email);
  }

  /** A sign-up form whose only fault is the confirmation reports the mismatch; signing in
      with the same form succeeds. */
  lemma MismatchReported(f: FormData)
    requires !IsBlank(f.fullName) && !IsBlank(f.username) && !IsBlank(f.email) && LooseEmail(f.email)
    requires |f.password| >= 6 && f.password != f.confirmPassword
    ensures FormProblem(false, f) == Some("Passwords do not match")
    ensures FormProblem(true, f) == None
  {
  }

  /** Every address the server's stricter test accepts once trimmed and lower-cased, the page
      accepts as typed, so the page never turns away an address the server would take. */
  lemma FrontendAdmitsServerEmails(email: string)
    requires EmailShaped(Normalize(email))
    ensures LooseEmail(email)
  {
    ShapedIsLoose(Normalize(email));
    LooseEmailUnlowered(Trim(email));
    TrimIsCentralPiece(email);
    var i, j :| 0 <= i <= j <= |email| && Trim(email) == email[i..j] && AllSpace(email[..i]) && AllSpace(email[j..]);
    LooseEmailWithin(email, i, j);
  }

  /** The converse fails: the page accepts an address with a space in it, which the server
      refuses. */
  lemma ServerStricterThanFrontend()
    ensures LooseEmail("a n@x.io") && !EmailShaped(Normalize("a n@x.io"))
  {
    var s := "a n@x.io";
    assert s[4..5] == "x";
    assert LooseEmailAt(s, 3, 5);
    assert Trimmed(s) && Lowered(s);
    NormalizedIff(s);
    assert Normalize(s) == s;
    EmailShapedExamples();
  }

  lemma ShapedIsLoose(s: string)
    requires EmailShaped(s)
    ensures LooseEmail(s)
  {
    var a :| 0 < a < |s| && s[a] == '@' && AllPlain(s[..a]) && AllPlain(s[a + 1..])
             && exists d :: a + 1 < d < |s| - 1 && s[d] == '.';
    var d :| a + 1 < d < |s| - 1 && s[d] == '.';
    assert s[..a][a - 1] == s[a - 1];
    assert s[a + 1..][d - a] == s[d + 1];
    forall k | a < k < d ensures !IsSpace(s[k]) {
      assert s[a + 1..][k - a - 1] == s[k];
    }
    assert LooseEmailAt(s, a, d);
  }

  /** Lower-casing moves no at sign, dot or white space, so a match in the lower-cased text is
      a match in the text. */
  lemma LooseEmailUnlowered(s: string)
    requires LooseEmail(ToLower(s))
    ensures LooseEmail(s)
  {
    var t := ToLower(s);
    var a, d :| 0 < a < |t| && 0 < d < |t| && LooseEmailAt(t, a, d);
    assert |t| == |s|;
    LowerKeepsSpace(s[a - 1]);
    LowerKeepsSpace(s[d + 1]);
    forall k | a < k < d ensures !IsSpace(s[k]) {
      assert t[a + 1..d][k - a - 1] == t[k];
      LowerKeepsSpace(s[k]);
    }
    assert LooseEmailAt(s, a, d);
  }

  /** The expression is unanchored, so a match in a piece of `s` is a match in `s`. */
  lemma LooseEmailWithin(s: string, i: int, j: int)
    requires 0 <= i <= j <= |s| && LooseEmail(s[i..j])
    ensures LooseEmail(s)
  {
    var t := s[i..j];
    var a, d :| 0 < a < |t| && 0 < d < |t| && LooseEmailAt(t, a, d);
    forall k | i + a < k < i + d ensures !IsSpace(s[k]) {
      assert t[k - i] == s[k];
      assert t[a + 1..d][k - i - a - 1] == t[k - i];
    }
    assert LooseEmailAt(s, i + a, i + d);
  }

  /** What the page keeps about the signed-in user. */
  datatype SessionUser = SessionUser(id: int, fullName: string, username: string, email: string, bio: string,
                                     avatar: string)

  /** The record built from the server's user, with the avatar `(full_name || 'U')` upper-cased
      to one character. The server's `bio` is a string, so `bio || ''` keeps it. */
  function SessionUserOf(u: PublicUser): (r: SessionUser)
    ensures r.id == u.id && r.fullName == u.fullName && r.username == u.username && r.email == u.email
            && r.bio == u.bio
    ensures |r.avatar| == 1
  {
    SessionUser(u.id, u.fullName, u.username, u.email, u.bio, Initial(Some(u.fullName)))
  }

  /** The avatar is the first character of the name in upper case, or "U" for an empty name;
      it is never a lower-case letter. */
  lemma AvatarSpec(u: PublicUser)
    ensures SessionUserOf(u).avatar == if u.fullName == [] then "U" else [UpperChar(u.fullName[0])]
    ensures !('a' <= SessionUserOf(u).avatar[0] <= 'z')
  {
  }

  /** After signing up, the avatar is the upper-cased first non-space character the user typed
      as their name, since the server stores the name trimmed and never blank. */
  lemma AvatarOfRegistered(id: int, fullName: string, username: string, email: string, hashed: string, now: int)
    requires !IsBlank(fullName)
    ensures exists i :: 0 <= i < |fullName| && AllSpace(fullName[..i]) && !IsSpace(fullName[i])
              && SessionUserOf(PublicUserOf(id, NewAccount(fullName, username, email, hashed, now))).avatar
                 == [UpperChar(fullName[i])]
  {
    var u := PublicUserOf(id, NewAccount(fullName, username, email, hashed, now));
    assert u.fullName == Trim(fullName);
    InitialOfTrimmed(fullName);
  }

  /** The initial of a name that is not blank, once trimmed, is its first non-space character
      upper-cased. */
  lemma InitialOfTrimmed(fullName: string)
    requires !IsBlank(fullName)
    ensures exists i :: 0 <= i < |fullName| && AllSpace(fullName[..i]) && !IsSpace(fullName[i])
              && Initial(Some(Trim(fullName))) == [UpperChar(fullName[i])]
  {
    var name := Trim(fullName);
    var a := TrimStart(fullName);
    var i := |fullName| - |a|;
    assert name == a[..|name|] && name != [];
    assert a == fullName[i..];
    assert name[0] == a[0] == fullName[i];
    assert AllSpace(fullName[..i]) && !IsSpace(fullName[i]);
    assert OrElse(Some(name), "U") == name;
  }

  /** The page's component state. */
  class AuthForm {
    var isLogin: bool
    var showPassword: bool
    var form: FormData
    var error: string
    var success: string

    /** The page opens in sign-in mode with an empty form. */
    constructor()
      ensures isLogin && !showPassword && form == EmptyForm && error == "" && success == ""
    {
      isLogin, showPassword, form, error, success := true, false, EmptyForm, "", "";
    }

    /** `handleChange`: the edited field takes the value, and both banners are cleared. */
    method HandleChange(field: Field, value: string)
      modifies this`form, this`error, this`success
      ensures form == WithField(old(form), field, value) && error == "" && success == ""
    {
      form := WithField(form, field, value);
      error := "";
      success := "";
    }

    /** `switchMode`: the other mode, an empty form, both banners cleared and the password
        hidden. */
    method SwitchMode()
      modifies this
      ensures isLogin == !old(isLogin) && !showPassword && form == EmptyForm && error == "" && success == ""
    {
      isLogin := !isLogin;
      error := "";
      success := "";
      form := EmptyForm;
      showPassword := false;
    }

    /** `validateForm`: the checks in order; the first that fails sets its message and the
        answer is false; when all pass the error banner is left as it was. */
    method ValidateForm() returns (ok: bool)
      modifies this`error
      ensures ok <==> FormProblem(isLogin, form).None?
      ensures !ok ==> error == FormProblem(isLogin, form).value
      ensures ok ==> error == old(error)
    {
      var f, login := form, isLogin;
      ghost var problem := FormProblem(login, f);
      if !login && IsBlank(f.fullName) {
        error := "Please enter your full name";
        return false;
      }
      if !login && IsBlank(f.username) {
        error := "Please choose a username";
        return false;
      }
      if IsBlank(f.email) {
        error := "Please enter your email";
        return false;
      }
      if !LooseEmail(f.email) {
        error := "Please enter a valid email address";
        return false;
      }
      if f.password == [] {
        error := "Please enter your password";
        return false;
      }
      if |f.password| < 6 {
        error := "Password must be at least 6 characters";
        return false;
      }
      if !login && f.password != f.confirmPassword {
        error := "Passwords do not match";
        return false;
      }
      return true;
    }
  }
}
