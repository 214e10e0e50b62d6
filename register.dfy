/**
 * Sign-up validation: the username, name, email and password rules, checked
 * in a fixed order with the first failure reported, and the body handed on
 * to account creation (email trimmed and lower-cased, confirmation dropped).
 * Account creation itself (hashing, the unique-constraint messages) is not
 * part of this model.
 */
module RegisterController {
  import opened Common
  import opened Text

  /** The sign-up body; an absent field is `None`. */
  datatype RegisterBody = RegisterBody(
    username: Option<string>, firstName: Option<string>, lastName1: Option<string>,
    lastName2: Option<string>, email: Option<string>, password: Option<string>,
    confirmPassword: Option<string>, role: Option<string>)

  /** A string field that is present and non-empty (JavaScript truthiness). */
  predicate Present(f: Option<string>)
  {
    f.Some? && f.value != []
  }

  // --------------------------------------------------------------- patterns

  /** `[a-z0-9_]`. */
  predicate UsernameChar(c: char)
  {
    'a' <= c <= 'z' || IsDigit(c) || c == '_'
  }

  /** `[a-zA-ZÀ-ÿ\s'-]`. */
  predicate NameChar(c: char)
  {
    IsAsciiLetter(c) || ('\U{C0}' <= c <= '\U{FF}') || IsSpace(c) || c == '\'' || c == '-'
  }

  /** `[a-zA-Z0-9._%+-]`. */
  predicate LocalChar(c: char)
  {
    IsAsciiLetter(c) || IsDigit(c) || c == '.' || c == '_' || c == '%' || c == '+' || c == '-'
  }

  /** `[a-zA-Z0-9.-]`. */
  predicate DomainChar(c: char)
  {
    IsAsciiLetter(c) || IsDigit(c) || c == '.' || c == '-'
  }

  /** `^[a-z0-9_]+$`. */
  predicate UsernamePattern(s: string)
  {
    s != [] && forall i :: 0 <= i < |s| ==> UsernameChar(s[i])
  }

  /** `^[a-zA-ZÀ-ÿ\s'-]+$`. */
  predicate NamePattern(s: string)
  {
    s != [] && forall i :: 0 <= i < |s| ==> NameChar(s[i])
  }

  /**
   * The email matches with its `@` at `i` and the dot before its last part at
   * `k`: a local part, `@`, a domain part, `.` and at least two letters.
   */
  predicate EmailSplitAt(s: string, i: int, k: int)
  {
    && 0 < i && i + 1 < k && k + 3 <= |s| && s[i] == '@' && s[k] == '.'
    && (forall j :: 0 <= j < i ==> LocalChar(s[j]))
    && (forall j :: i < j < k ==> DomainChar(s[j]))
    && (forall j :: k < j < |s| ==> IsAsciiLetter(s[j]))
  }

  /** `^[a-zA-Z0-9._%+-]+@[a-zA-Z0-9.-]+\.[a-zA-Z]{2,}$`. */
  predicate EmailPattern(s: string)
  {
    exists i, k :: 0 <= i < |s| && 0 <= k < |s| && EmailSplitAt(s, i, k)
  }

  /** `email.split("@")[1]`: the text between the first and a second `@`, or after the only one. */
  function EmailDomain(s: string): Option<string>
  {
    var parts := Split(s, '@');
    if |parts| >= 2 then Some(parts[1]) else None
  }

  const AllowedDomains: set<string> := {"uc.cl", "estudiante.uc.cl"}

  /** An email that matches the pattern has exactly one `@`, and its domain is the text after it. */
  lemma EmailDomainAfterAt(s: string, i: int, k: int)
    requires EmailSplitAt(s, i, k)
    ensures EmailDomain(s) == Some(s[i + 1..])
  {
    assert '@' !in s[..i] by {
      forall j | 0 <= j < i ensures s[..i][j] != '@' {
        assert LocalChar(s[j]);
      }
    }
    var d := s[i + 1..];
    assert '@' !in d by {
      forall j | 0 <= j < |d| ensures d[j] != '@' {
        if i + 1 + j < k { assert DomainChar(s[i + 1 + j]); }
        else if i + 1 + j > k { assert IsAsciiLetter(s[i + 1 + j]); }
      }
    }
    SplitAtOnly(s, '@', i);
  }

  // ----------------------------------------------------------------- checks

  predicate UsernameOk(u: Option<string>)
  {
    u.Some? && 5 <= |u.value| <= 20 && UsernamePattern(u.value)
  }

  predicate NameOk(n: Option<string>)
  {
    n.Some? && 3 <= |n.value| <= 30 && NamePattern(n.value)
  }

  predicate EmailOk(e: Option<string>)
  {
    && Present(e) && |e.value| <= 60 && EmailPattern(e.value)
    && EmailDomain(e.value).Some? && EmailDomain(e.value).value in AllowedDomains
  }

  predicate PasswordOk(p: Option<string>, confirm: Option<string>)
  {
    Present(p) && |Trim(p.value)| >= 5 && confirm == p
  }

  /** Every rule, stated at once. */
  predicate RegisterBodyOk(b: RegisterBody)
  {
    && UsernameOk(b.username) && NameOk(b.firstName) && NameOk(b.lastName1)
    && (Present(b.lastName2) ==> NameOk(b.lastName2))
    && EmailOk(b.email) && PasswordOk(b.password, b.confirmPassword)
  }

  function Bad(message: string): Outcome
  {
    Fail(HttpError(400, message))
  }

  /** The three checks on one name field, with the field's own messages. */
  function CheckName(n: Option<string>, empty: string, length: string, pattern: string): (o: Outcome)
    ensures o.Pass? <==> NameOk(n)
    ensures o.Fail? ==> o.error.status == 400 && o.error.message in {empty, length, pattern}
  {
    if !Present(n) then Bad(empty)
    else if |n.value| < 3 || |n.value| > 30 then Bad(length)
    else if !NamePattern(n.value) then Bad(pattern)
    else Pass
  }

  /** The ordered checks of the sign-up body: the first failing one answers 400 with its message. */
  function ValidateRegisterBody(b: RegisterBody): (o: Outcome)
    ensures o.Pass? <==> RegisterBodyOk(b)
    ensures o.Fail? ==> o.error.status == 400
    ensures !UsernameOk(b.username) ==> o.Fail? && o.error.message in UsernameMessages
    ensures UsernameOk(b.username) && !NameOk(b.firstName) ==> o.Fail? && o.error.message in FirstNameMessages
    ensures UsernameOk(b.username) && NameOk(b.firstName) && !NameOk(b.lastName1) ==>
      o.Fail? && o.error.message in LastName1Messages
    ensures UsernameOk(b.username) && NameOk(b.firstName) && NameOk(b.lastName1)
      && (Present(b.lastName2) ==> NameOk(b.lastName2)) && !EmailOk(b.email)
      ==> o.Fail? && o.error.message in EmailMessages
  {
    var first := CheckName(b.firstName, FirstNameMessages[0], FirstNameMessages[1], FirstNameMessages[2]);
    var last1 := CheckName(b.lastName1, LastName1Messages[0], LastName1Messages[1], LastName1Messages[2]);
    var last2 := CheckName(b.lastName2, "", LastName2Messages[0], LastName2Messages[1]);
    if !Present(b.username) then Bad(UsernameMessages[0])
    else if |b.username.value| < 5 || |b.username.value| > 20 then Bad(UsernameMessages[1])
    else if !UsernamePattern(b.username.value) then Bad(UsernameMessages[2])
    else if first.Fail? then first
    else if last1.Fail? then last1
    else if Present(b.lastName2) && last2.Fail? then last2
    else if !Present(b.email) then Bad(EmailMessages[0])
    else if |b.email.value| > 60 then Bad(EmailMessages[1])
    else if !EmailPattern(b.email.value) then Bad(EmailMessages[2])
    else if EmailDomain(b.email.value).None? || EmailDomain(b.email.value).value !in AllowedDomains then Bad(EmailMessages[3])
    else if !Present(b.password) then Bad("La contraseña no puede estar vacía.")
    else if |Trim(b.password.value)| < 5 then Bad("La contraseña debe tener al menos 5 caracteres")
    else if b.password != b.confirmPassword then Bad("Las contraseñas no coinciden.")
    else Pass
  }

  const UsernameMessages := [
    "El nombre de usuario no puede estar vacío.",
    "El nombre de usuario debe tener entre 5 y 20 caracteres.",
    "El nombre de usuario solo puede contener minúsculas, números y guiones bajos."]
  const FirstNameMessages := [
    "El nombre no puede estar vacío.",
    "El nombre debe tener entre 3 y 30 caracteres",
    "El nombre solo puede contener letras, espacios, apóstrofes y guiones."]
  const LastName1Messages := [
    "El primer apellido no puede estar vacío.",
    "El primer apellido debe tener entre 3 y 30 caracteres.",
    "El primer apellido solo puede contener letras, espacios, apóstrofes y guiones."]
  const LastName2Messages := [
    "El segundo apellido debe tener entre 3 y 30 caracteres.",
    "El segundo apellido solo puede contener letras, espacios, apóstrofes y guiones."]
  const EmailMessages := [
    "El email no puede estar vacío.",
    "El email no puede tener más de 60 caracteres.",
    "El email no tiene un formato válido.",
    "Para registrarte tu correo debe terminar en @uc.cl o @estudiante.uc.cl."]

  // ---------------------------------------------------------- normalisation

  /** What account creation receives: the body without the confirmation, the email trimmed and lower-cased. */
  datatype Registration = Registration(
    username: string, firstName: string, lastName1: string, lastName2: Option<string>,
    email: string, password: string, role: Option<string>)

  function RegistrationOf(b: RegisterBody): (r: Registration)
    requires RegisterBodyOk(b)
    ensures r.email == ToLower(Trim(b.email.value))
    ensures r.role == b.role && r.username == b.username.value && r.password == b.password.value
  {
    Registration(b.username.value, b.firstName.value, b.lastName1.value, b.lastName2,
                 ToLower(Trim(b.email.value)), b.password.value, b.role)
  }

  /** Lower-casing keeps every character class of the email pattern. */
  lemma LowerKeepsEmailSplit(s: string, i: int, k: int)
    requires EmailSplitAt(s, i, k)
    ensures EmailSplitAt(ToLower(s), i, k)
  {
    var n := ToLower(s);
    forall j | 0 <= j < i ensures LocalChar(n[j]) {
      assert LocalChar(s[j]);
    }
    forall j | i < j < k ensures DomainChar(n[j]) {
      assert DomainChar(s[j]);
    }
    forall j | k < j < |s| ensures IsAsciiLetter(n[j]) {
      assert IsAsciiLetter(s[j]);
    }
  }

  /** Lower-casing leaves a string without capitals as it is. */
  lemma LowerOfLower(d: string)
    requires d in AllowedDomains
    ensures ToLower(d) == d
  {
  }

  /** An email that matches the pattern starts and ends with a non-space character, so trimming keeps it. */
  lemma EmailIsTrimmed(e: string)
    requires EmailPattern(e)
    ensures Trim(e) == e
  {
    var i, k :| 0 <= i < |e| && 0 <= k < |e| && EmailSplitAt(e, i, k);
    assert LocalChar(e[0]);
    assert IsAsciiLetter(e[|e| - 1]);
    TrimNoSurroundingSpace(e);
  }

  /** Lower-casing an email keeps it well-formed, and its domain becomes the lower-cased domain. */
  lemma LowerKeepsEmail(e: string, i: int, k: int)
    requires EmailSplitAt(e, i, k)
    ensures EmailPattern(ToLower(e))
    ensures EmailDomain(ToLower(e)) == Some(ToLower(e[i + 1..]))
  {
    var n := ToLower(e);
    LowerKeepsEmailSplit(e, i, k);
    assert 0 <= i < |n| && 0 <= k < |n|;
    EmailDomainAfterAt(n, i, k);
    assert n[i + 1..] == ToLower(e[i + 1..]);
  }

  /** A short well-formed email on an allowed domain is still valid once lower-cased. */
  lemma LowerEmailOk(e: string, i: int, k: int)
    requires EmailSplitAt(e, i, k) && |e| <= 60 && e[i + 1..] in AllowedDomains
    ensures EmailOk(Some(ToLower(e)))
  {
    LowerOfLower(e[i + 1..]);
    LowerKeepsEmail(e, i, k);
  }

  /** A valid email has no surrounding space, and lower-casing it gives a valid email again. */
  lemma NormalisedEmailIsValid(e: string)
    requires EmailOk(Some(e))
    ensures ToLower(Trim(e)) == ToLower(e)
    ensures EmailOk(Some(ToLower(e)))
  {
    var i, k :| 0 <= i < |e| && 0 <= k < |e| && EmailSplitAt(e, i, k);
    EmailIsTrimmed(e);
    EmailDomainAfterAt(e, i, k);
    LowerEmailOk(e, i, k);
  }

  /** The email account creation receives is the submitted one lower-cased, and still passes every email rule. */
  lemma RegisteredEmailIsValid(b: RegisterBody)
    requires RegisterBodyOk(b)
    ensures RegistrationOf(b).email == ToLower(b.email.value)
    ensures EmailOk(Some(RegistrationOf(b).email))
  {
    NormalisedEmailIsValid(b.email.value);
  }
}
