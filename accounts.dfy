/**
  Users and the checks made before an account is registered.
*/
module Accounts {
  import opened Common

  /** A user as the rest of the model sees one: an id and the organizer flag. */
  datatype User = User(id: UserId, isOrganizer: bool)

  const EmailRequired := "El email es requerido"
  const EmailTaken := "Ya existe un usuario con este email"
  const UsernameRequired := "El username es requerido"
  const UsernameTaken := "Ya existe un usuario con este nombre de usuario"
  const PasswordsRequired := "Las contraseñas son requeridas"
  const PasswordsDiffer := "Las contraseñas no coinciden"

  /** `User.validate_new_user`: email and username must be given and not
      already registered (exact match); both passwords must be given and equal.
      `emails` and `usernames` are the values already in the user table. */
  function ValidateNewUser(email: Option<string>, username: Option<string>,
                           password: Option<string>, passwordConfirm: Option<string>,
                           emails: set<string>, usernames: set<string>): (errors: Errors)
    ensures errors.Keys <= {"email", "username", "password"}
    ensures "email" in errors <==> email.None? || email.value in emails
    ensures "email" in errors ==> errors["email"] == (if email.None? then EmailRequired else EmailTaken)
    ensures "username" in errors <==> username.None? || username.value in usernames
    ensures "username" in errors ==>
      errors["username"] == (if username.None? then UsernameRequired else UsernameTaken)
    ensures "password" in errors <==> password.None? || passwordConfirm.None? || password != passwordConfirm
    ensures "password" in errors ==>
      errors["password"] == (if password.None? || passwordConfirm.None? then PasswordsRequired else PasswordsDiffer)
  {
    var e1 :=
      if email.None? then map["email" := EmailRequired]
      else if email.value in emails then map["email" := EmailTaken]
      else map[];
    var e2 :=
      if username.None? then e1["username" := UsernameRequired]
      else if username.value in usernames then e1["username" := UsernameTaken]
      else e1;
    if password.None? || passwordConfirm.None? then e2["password" := PasswordsRequired]
    else if password != passwordConfirm then e2["password" := PasswordsDiffer]
    else e2
  }
}
