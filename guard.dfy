/** `src/components/protected-route.tsx`: what a guarded page renders and
    where its effect sends the router, from the loading flag, the user and
    the profile. */
module RouteGuard {
  import opened Wrappers
  import opened Auth

  /** What the guard renders. */
  datatype Render = Spinner | Nothing | Children

  /** The render and the effect's redirect, if any. */
  datatype Decision = Decision(render: Render, redirect: Option<string>)

  const DefaultRedirect := "/login"
  const OnboardingPath := "/onboarding"

  /** `!userProfile?.nickname`. */
  predicate LacksNickname(profile: Option<Profile>) {
    profile.None? || profile.value.nickname == ""
  }

  /** The guard over the state it is given: a spinner while loading, with
      no redirect; a signed-out visitor goes to `redirectTo` ("/login"
      unless given); where a profile is required, a user without a
      nickname goes to onboarding; everyone else sees the page. */
  function Decide(loading: bool, user: Option<AuthUser>, profile: Option<Profile>,
                  requireProfile: bool, redirectTo: Option<string>): (d: Decision)
    ensures loading <==> d.render == Spinner
    ensures loading ==> d.redirect.None?
    ensures !loading && user.None? ==> d == Decision(Nothing, Some(redirectTo.GetOr(DefaultRedirect)))
    ensures !loading && user.Some? && requireProfile && LacksNickname(profile) ==>
      d == Decision(Nothing, Some(OnboardingPath))
    ensures d.render == Children <==>
      !loading && user.Some? && (!requireProfile || !LacksNickname(profile))
    ensures d.render == Children ==> d.redirect.None?
  {
    if loading then Decision(Spinner, None)
    else if user.None? then Decision(Nothing, Some(redirectTo.GetOr(DefaultRedirect)))
    else if requireProfile && LacksNickname(profile) then Decision(Nothing, Some(OnboardingPath))
    else Decision(Children, None)
  }

  /** The guard renders nothing exactly when its effect redirects: a
      visitor is never left on a blank page, and a shown page is never
      navigated away from. */
  lemma NoRenderWithoutRedirect(loading: bool, user: Option<AuthUser>, profile: Option<Profile>,
                                requireProfile: bool, redirectTo: Option<string>)
    ensures var d := Decide(loading, user, profile, requireProfile, redirectTo);
      d.render == Nothing <==> d.redirect.Some?
  {
  }

  /** The guard as the component is wired: it reads the hook of
      `src/hooks/use-auth.ts`, which has no profile to give, so the profile
      it sees is always absent. */
  function ProtectedRouteAsWritten(hook: SessionHook, requireProfile: bool, redirectTo: Option<string>): (d: Decision)
    reads hook
  {
    Decide(hook.loading, hook.user, None, requireProfile, redirectTo)
  }

  /** As wired, a page that requires a profile is never shown to anyone:
      a signed-in user is sent to onboarding whatever their profile. */
  lemma ProfilePagesNeverRenderAsWritten(hook: SessionHook, redirectTo: Option<string>)
    ensures ProtectedRouteAsWritten(hook, true, redirectTo).render != Children
    ensures !hook.loading && hook.user.Some? ==>
      ProtectedRouteAsWritten(hook, true, redirectTo).redirect == Some(OnboardingPath)
  {
  }

  /** The guard fed from the auth provider, whose profile is the one the
      component means to read. */
  function ProtectedRoute(auth: AuthProvider, requireProfile: bool, redirectTo: Option<string>): (d: Decision)
    reads auth
  {
    Decide(auth.loading, auth.user, auth.userProfile, requireProfile, redirectTo)
  }

  /** Fed from the provider, a page that requires a profile is shown
      exactly to a signed-in user whose profile has a nickname, and a
      complete profile always suffices. */
  lemma ProfilePagesRenderForNamedUsers(auth: AuthProvider, redirectTo: Option<string>)
    ensures var d := ProtectedRoute(auth, true, redirectTo);
      d.render == Children <==>
        !auth.loading && auth.user.Some? && auth.userProfile.Some? && auth.userProfile.value.nickname != ""
    ensures !auth.loading && auth.user.Some? && auth.HasProfile() ==>
      ProtectedRoute(auth, true, redirectTo).render == Children
  {
  }
}
