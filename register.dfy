/**
 * Register.jsx: field-by-field validation of the form, then duplicate checks
 * against the registered accounts (seed accounts are not consulted) and an
 * append of the new account to the `users` key.
 */
module Registration {
  import opened Wrappers
  import opened Entities
  import opened Text
  import Seqs
  import Storage

  datatype RegisterForm = RegisterForm(
    username: string, email: string, password: string, confirmPassword: string, role: string)

  /** A part of an e-mail address in the pattern `^[^\s@]+@[^\s@]+\.[^\s@]+$`: one or more characters, none of them whitespace or `@`. */
  ghost predicate EmailPart(s: string)
  {
    |s| > 0 && forall i :: 0 <= i < |s| ==> !IsSpace(s[i]) && s[i] != '@'
  }

  /** `email` is matched by `^[^\s@]+@[^\s@]+\.[^\s@]+$`. */
  ghost predicate MatchesEmailPattern(email: string)
  {
    exists local: string, host: string, top: string ::
      email == local + "@" + host + "." + top && EmailPart(local) && EmailPart(host) && EmailPart(top)
  }

  /** No whitespace anywhere, exactly one `@`, something before it. */
  predicate OneAt(email: string, at: nat)
  {
    && 0 < at < |email| && email[at] == '@'
    && forall j :: 0 <= j < |email| ==> !IsSpace(email[j]) && (email[j] == '@' ==> j == at)
  }

  /** A `.` with something on both sides, somewhere after the `@` at `at`. */
  predicate DotAfter(email: string, at: nat, dot: nat)
  {
    at + 1 < dot < |email| - 1 && email[dot] == '.'
  }

  /** The regular-expression test, as a direct scan. */
  predicate IsEmailLike(email: string)
  {
    var at := Seqs.IndexOf(email, '@');
    at < |email| && OneAt(email, at) && exists dot :: at + 1 < dot < |email| - 1 && DotAfter(email, at, dot)
  }

  /** What the scan accepts, the regular expression matches. */
  lemma EmailLikeMatchesPattern(email: string)
    requires IsEmailLike(email)
    ensures MatchesEmailPattern(email)
  {
    var at := Seqs.IndexOf(email, '@');
    var dot :| at + 1 < dot < |email| - 1 && DotAfter(email, at, dot);
    var local, host, top := email[..at], email[at + 1..dot], email[dot + 1..];
    assert email == local + "@" + host + "." + top;
    assert EmailPart(local) && EmailPart(host) && EmailPart(top);
  }

  /** What the regular expression matches, the scan accepts. */
  lemma PatternIsEmailLike(email: string, local: string, host: string, top: string)
    requires email == local + "@" + host + "." + top
    requires EmailPart(local) && EmailPart(host) && EmailPart(top)
    ensures IsEmailLike(email)
  {
    var at, dot := |local|, |local| + 1 + |host|;
    assert email[at] == '@';
    assert email[dot] == '.';
    assert forall j :: 0 <= j < at ==> email[j] == local[j];
    assert forall j :: at < j < dot ==> email[j] == host[j - at - 1];
    assert forall j :: dot < j < |email| ==> email[j] == top[j - dot - 1];
    assert OneAt(email, at);
    assert Seqs.IndexOf(email, '@') == at;
    assert DotAfter(email, at, dot);
  }

  /** The scan accepts exactly the strings the regular expression matches. */
  lemma EmailLikeIffPattern(email: string)
    ensures IsEmailLike(email) <==> MatchesEmailPattern(email)
  {
    if IsEmailLike(email) {
      EmailLikeMatchesPattern(email);
    }
    if MatchesEmailPattern(email) {
      var local: string, host: string, top: string :|
        email == local + "@" + host + "." + top && EmailPart(local) && EmailPart(host) && EmailPart(top);
      PatternIsEmailLike(email, local, host, top);
    }
  }

  const UsernameEmpty: string := "用户名不能为空"
  const UsernameShort: string := "用户名至少需要3个字符"
  const EmailEmpty: string := "邮箱不能为空"
  const EmailInvalid: string := "请输入有效的邮箱地址"
  const PasswordEmpty: string := "密码不能为空"
  const PasswordShort: string := "密码至少需要6个字符"
  const PasswordMismatch: string := "两次输入的密码不一致"
  const UsernameTaken: string := "用户名已存在"
  const EmailTaken: string := "邮箱已被注册"

  /** Every rule of `validateForm` holds. */
  predicate FormValid(form: RegisterForm)
  {
    && !IsBlank(form.username) && Utf16Length(form.username) >= 3
    && !IsBlank(form.email) && IsEmailLike(form.email)
    && form.password != "" && Utf16Length(form.password) >= 6
    && form.password == form.confirmPassword
  }

  /** The username rule: blank after trimming, else shorter than three UTF-16 units (untrimmed). */
  function UsernameRule(username: string): (e: Option<string>)
    ensures e.Some? <==> IsBlank(username) || Utf16Length(username) < 3
    ensures IsBlank(username) ==> e == Some(UsernameEmpty)
    ensures !IsBlank(username) && Utf16Length(username) < 3 ==> e == Some(UsernameShort)
  {
    if Trim(username) == "" then Some(UsernameEmpty)
    else if Utf16Length(username) < 3 then Some(UsernameShort)
    else None
  }

  /** The e-mail rule: blank after trimming, else not matched by the pattern. */
  function EmailRule(email: string): (e: Option<string>)
    ensures e.Some? <==> IsBlank(email) || !IsEmailLike(email)
    ensures IsBlank(email) ==> e == Some(EmailEmpty)
    ensures !IsBlank(email) && !IsEmailLike(email) ==> e == Some(EmailInvalid)
  {
    if Trim(email) == "" then Some(EmailEmpty)
    else if !IsEmailLike(email) then Some(EmailInvalid)
    else None
  }

  /** The password rule: empty (not trimmed), else shorter than six UTF-16 units. */
  function PasswordRule(password: string): (e: Option<string>)
    ensures e.Some? <==> Utf16Length(password) < 6
    ensures password == "" ==> e == Some(PasswordEmpty)
    ensures password != "" && Utf16Length(password) < 6 ==> e == Some(PasswordShort)
  {
    if password == "" then Some(PasswordEmpty)
    else if Utf16Length(password) < 6 then Some(PasswordShort)
    else None
  }

  /** Three astral characters are six UTF-16 units, so they make a long enough password. */
  lemma AstralPasswordAccepted()
    ensures |"\U{1F600}\U{1F600}\U{1F600}"| == 3
    ensures PasswordRule("\U{1F600}\U{1F600}\U{1F600}") == None
  {
    var one, two, three := "\U{1F600}", "\U{1F600}\U{1F600}", "\U{1F600}\U{1F600}\U{1F600}";
    assert ('\U{1F600}' as int) == 0x1_F600;
    assert one[..0] == [] && Utf16Length(one) == 2;
    assert two[..1] == one && Utf16Length(two) == 4;
    assert three[..2] == two && Utf16Length(three) == 6;
  }

  /** The `newErrors` object: one optional message per form field. */
  datatype FormErrors = FormErrors(
    username: Option<string>, email: Option<string>, password: Option<string>, confirmPassword: Option<string>)

  const NoErrors: FormErrors := FormErrors(None, None, None, None)

  /** `Object.keys(errors).length`. */
  function KeyCount(errors: FormErrors): (n: nat)
    ensures n == 0 <==> errors == NoErrors
    ensures n <= 4
  {
    (if errors.username.Some? then 1 else 0) + (if errors.email.Some? then 1 else 0)
    + (if errors.password.Some? then 1 else 0) + (if errors.confirmPassword.Some? then 1 else 0)
  }

  /**
   * `validateForm`: fills the error object field by field. The username is
   * checked blank-after-trim first and only then for length (untrimmed); the
   * e-mail likewise for blank and then against the pattern; the password for
   * empty (untrimmed) and then length; the confirmation is compared whatever
   * the other fields hold. The form is valid exactly when no field has a message.
   */
  method ValidateForm(form: RegisterForm) returns (errors: FormErrors, valid: bool)
    ensures errors.username.Some? <==> IsBlank(form.username) || Utf16Length(form.username) < 3
    ensures IsBlank(form.username) ==> errors.username == Some(UsernameEmpty)
    ensures !IsBlank(form.username) && Utf16Length(form.username) < 3 ==> errors.username == Some(UsernameShort)
    ensures errors.email.Some? <==> IsBlank(form.email) || !IsEmailLike(form.email)
    ensures IsBlank(form.email) ==> errors.email == Some(EmailEmpty)
    ensures !IsBlank(form.email) && !IsEmailLike(form.email) ==> errors.email == Some(EmailInvalid)
    ensures errors.password.Some? <==> Utf16Length(form.password) < 6
    ensures form.password == "" ==> errors.password == Some(PasswordEmpty)
    ensures form.password != "" && Utf16Length(form.password) < 6 ==> errors.password == Some(PasswordShort)
    ensures errors.confirmPassword.Some? <==> form.password != form.confirmPassword
    ensures errors.confirmPassword.Some? ==> errors.confirmPassword == Some(PasswordMismatch)
    ensures valid <==> errors == NoErrors
    ensures valid <==> FormValid(form)
  {
    errors := NoErrors;
    errors := errors.(username := UsernameRule(form.username));
    errors := errors.(email := EmailRule(form.email));
    errors := errors.(password := PasswordRule(form.password));
    if form.password != form.confirmPassword {
      errors := errors.(confirmPassword := Some(PasswordMismatch));
    }
    valid := KeyCount(errors) == 0;
  }

  /** The display level a new account gets: student, teacher, and anything else counts as administrator. */
  function LevelFor(role: string): (level: string)
    ensures level == "新学员" <==> role == "student"
    ensures level == "讲师" <==> role == "teacher"
    ensures level == "管理员" <==> role != "student" && role != "teacher"
  {
    if role == "student" then "新学员" else if role == "teacher" then "讲师" else "管理员"
  }

  /** The avatar service a new account's picture comes from, keyed by the username. */
  const AvatarBase: string := "https://api.dicebear.com/7.x/avataaars/svg?seed="

  /** The account `handleSubmit` creates. */
  function NewUser(form: RegisterForm, id: int, joinDate: string): (u: User)
    ensures u.username == form.username && u.email == form.email && u.password == form.password
    ensures u.role == form.role && u.level == LevelFor(form.role)
    ensures u.coursesCompleted == 0 && u.totalScore == 0
    ensures u.id == id && u.joinDate == joinDate
    ensures u.avatar == AvatarBase + form.username
  {
    User(id, form.username, form.email, form.password, form.role,
         AvatarBase + form.username,
         joinDate, 0, 0, LevelFor(form.role))
  }

  /** `users.some(u => u.username === name)`. */
  predicate HasUsername(users: seq<User>, name: string)
  {
    exists i :: 0 <= i < |users| && users[i].username == name
  }

  /** `users.some(u => u.email === email)`. */
  predicate HasEmail(users: seq<User>, email: string)
  {
    exists i :: 0 <= i < |users| && users[i].email == email
  }

  /**
   * `handleSubmit`, with the delayed callback run at once: an invalid form is
   * rejected with the validation errors; then a username already registered,
   * and only after that an e-mail already registered, is rejected; on each
   * rejection `users` is left as it was. Otherwise the new account is
   * appended at the end of the registered accounts.
   */
  method Submit(store: Storage.LocalStore, form: RegisterForm, id: int, joinDate: string)
    returns (errors: FormErrors)
    modifies store`users
    ensures !FormValid(form) ==>
      && errors != NoErrors && store.users == old(store.users)
      && errors.username == UsernameRule(form.username) && errors.email == EmailRule(form.email)
      && errors.password == PasswordRule(form.password)
      && (errors.confirmPassword.Some? <==> form.password != form.confirmPassword)
      && (errors.confirmPassword.Some? ==> errors.confirmPassword == Some(PasswordMismatch))
    ensures FormValid(form) && HasUsername(old(store.RegisteredUsers()), form.username) ==>
      errors == NoErrors.(username := Some(UsernameTaken)) && store.users == old(store.users)
    ensures FormValid(form) && !HasUsername(old(store.RegisteredUsers()), form.username)
            && HasEmail(old(store.RegisteredUsers()), form.email) ==>
      errors == NoErrors.(email := Some(EmailTaken)) && store.users == old(store.users)
    ensures FormValid(form) && !HasUsername(old(store.RegisteredUsers()), form.username)
            && !HasEmail(old(store.RegisteredUsers()), form.email) ==>
      errors == NoErrors && store.users == Some(old(store.RegisteredUsers()) + [NewUser(form, id, joinDate)])
  {
    var valid;
    errors, valid := ValidateForm(form);
    if !valid {
      return;
    }
    var user := NewUser(form, id, joinDate);
    var existing := store.RegisteredUsers();
    if HasUsername(existing, form.username) {
      errors := NoErrors.(username := Some(UsernameTaken));
      return;
    }
    if HasEmail(existing, form.email) {
      errors := NoErrors.(email := Some(EmailTaken));
      return;
    }
    existing := existing + [user];
    store.SetUsers(existing);
    errors := NoErrors;
  }
}
