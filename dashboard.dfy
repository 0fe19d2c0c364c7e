/**
 * dashboard_redirect of inventory/views.py: where a signed-in user is sent
 * after login, chosen from the lower-cased role string.
 */
module Dashboard {
  import opened Text
  import opened Models

  datatype Destination = AdminDashboard | UserDashboard | LoginPage

  /** dashboard_redirect as written: "admin" and "staff" are matched, nothing else. */
  function DashboardRedirect(role: string): Destination {
    var r := Lower(role);
    if r == "admin" then AdminDashboard
    else if r == "staff" then UserDashboard
    else LoginPage
  }

  /** Lower-casing leaves a string without capitals as it is. */
  lemma LowerOfLowercase(s: string)
    requires forall i :: 0 <= i < |s| ==> !('A' <= s[i] <= 'Z')
    ensures Lower(s) == s
  {
  }

  /**
   * The role string is compared without regard to case, so any spelling of
   * "admin" reaches the admin dashboard, any spelling of "staff" the user
   * dashboard, and every other role the login page.
   */
  lemma DashboardRedirectByRole(role: string)
    ensures DashboardRedirect(role) == AdminDashboard <==> Lower(role) == "admin"
    ensures DashboardRedirect(role) == UserDashboard <==> Lower(role) == "staff"
    ensures DashboardRedirect(role) == LoginPage <==> Lower(role) != "admin" && Lower(role) != "staff"
    ensures DashboardRedirect(Lower(role)) == DashboardRedirect(role)
  {
    LowerIdempotent(role);
  }

  /** Every user for whom `is_admin` holds reaches the admin dashboard. */
  lemma AdministratorsReachAdminDashboard(u: CustomUser)
    requires IsAdmin(u)
    ensures DashboardRedirect(u.role) == AdminDashboard
  {
    LowerOfLowercase("admin");
  }

  /**
   * The converse fails: the redirect folds case and `is_admin` does not, so a
   * role stored as "ADMIN" opens the admin dashboard to a user who is not an
   * administrator by `is_admin`.
   */
  lemma UpperCaseAdminIsNotIsAdmin(name: string, staff: bool)
    ensures DashboardRedirect("ADMIN") == AdminDashboard
    ensures !IsAdmin(CustomUser(name, "ADMIN", staff))
  {
    assert Lower("ADMIN") == "admin";
  }

  /**
   * No role of `ROLE_CHOICES` reaches the user dashboard: "staff" is not a
   * choice, and the default role "user" is sent to the login page.
   */
  lemma UserRoleSentToLogin()
    ensures "staff" !in RoleChoices
    ensures DashboardRedirect(DefaultRole) == LoginPage
    ensures forall role :: role in RoleChoices ==> DashboardRedirect(role) != UserDashboard
  {
    LowerOfLowercase("admin");
    LowerOfLowercase("user");
    assert "user" != "staff" && "user" != "admin";
    assert RoleChoices == ["admin", "user"];
  }

  /** dashboard_redirect with its second branch matching the "user" role that `ROLE_CHOICES` defines. */
  function IntendedDashboardRedirect(role: string): Destination {
    var r := Lower(role);
    if r == "admin" then AdminDashboard
    else if r == "user" then UserDashboard
    else LoginPage
  }

  /**
   * With the intended match every role choice has a dashboard: administrators
   * the admin one, the default role the user one; the two versions agree on
   * every role but "user" and "staff" (in any case).
   */
  lemma IntendedDashboardServesEveryChoice(role: string)
    ensures role in RoleChoices ==> IntendedDashboardRedirect(role) != LoginPage
    ensures IntendedDashboardRedirect(DefaultRole) == UserDashboard
    ensures IntendedDashboardRedirect("admin") == AdminDashboard
    ensures Lower(role) != "user" && Lower(role) != "staff" ==>
      IntendedDashboardRedirect(role) == DashboardRedirect(role)
  {
    LowerOfLowercase("admin");
    LowerOfLowercase("user");
  }
}
