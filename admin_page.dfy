/** The gate in front of the admin panel (src/pages/Admin.tsx). */
module AdminPage {
  import opened Wrappers

  /** The part of a user profile the gate reads. */
  datatype Profile = Profile(approved: bool)

  /** What the admin route renders. */
  datatype AdminView = Loading | RedirectToAuth | PendingApproval | Panel

  /**
   * The chain of early returns: any loading first, then no user, then a
   * profile that is not approved. A user whose profile is absent gets the
   * panel, since the pending check needs a profile to look at.
   */
  function View(authLoading: bool, profileLoading: bool, hasUser: bool, profile: Option<Profile>): (v: AdminView)
    ensures v == Loading <==> authLoading || profileLoading
    ensures v == RedirectToAuth <==> !authLoading && !profileLoading && !hasUser
    ensures v == PendingApproval <==>
      !authLoading && !profileLoading && hasUser && profile.Some? && !profile.value.approved
    ensures v == Panel <==>
      !authLoading && !profileLoading && hasUser && (profile.None? || profile.value.approved)
  {
    if authLoading || profileLoading then Loading
    else if !hasUser then RedirectToAuth
    else if profile.Some? && !profile.value.approved then PendingApproval
    else Panel
  }
}
