/** The admin checks: a user is an admin exactly when the metadata's `is_admin` is the
    boolean true. */
module Auth {
  import opened Tables

  /** `isAdmin`: false with no user; otherwise `user_metadata?.is_admin === true`. */
  function IsAdmin(user: Option<User>): (admin: bool)
    ensures user.None? ==> !admin
    ensures admin <==> user.Some? && user.value.isAdminFlag == Some(MetaBool(true))
  {
    match user
    case None => false
    case Some(u) => u.isAdminFlag == Some(MetaBool(true))
  }

  /** Strict equality: the string "true", the number 1 and a missing key do not make an admin. */
  lemma OnlyBooleanTrueIsAdmin(u: User)
    ensures !IsAdmin(Some(u.(isAdminFlag := Some(MetaString("true")))))
    ensures !IsAdmin(Some(u.(isAdminFlag := Some(MetaNumber(1)))))
    ensures !IsAdmin(Some(u.(isAdminFlag := None)))
    ensures IsAdmin(Some(u.(isAdminFlag := Some(MetaBool(true)))))
  {
  }

  /** `requireAdmin`: null unless the first lookup is an admin; then the result of a second
      lookup of the session user. */
  function RequireAdmin(first: Option<User>, second: Option<User>): (r: Option<User>)
    ensures !IsAdmin(first) ==> r.None?
    ensures IsAdmin(first) ==> r == second
  {
    if !IsAdmin(first) then None else second
  }

  /** With the same session on both lookups, the result is null iff the user is not an admin,
      and otherwise the admin user. */
  lemma RequireAdminStableSession(user: Option<User>)
    ensures RequireAdmin(user, user).None? <==> !IsAdmin(user)
    ensures IsAdmin(user) ==> RequireAdmin(user, user) == user && IsAdmin(RequireAdmin(user, user))
  {
  }
}
