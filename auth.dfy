/** Who is signed in. `src/contexts/auth-context.tsx` keeps the signed-in
    user, their `users` profile row, a loading flag and a mounted flag, and
    creates the profile on the first session; `src/hooks/use-auth.ts` is the
    lighter hook most pages read, which follows the session only. Every
    remote call is given by its outcome: the `users` table the provider
    reads and writes is a field, and each call takes the fault it meets, if
    any. */
module Auth {
  import opened Wrappers
  import opened Records

  /** The session's user: id, e-mail and the provider's metadata
      (`full_name`, `name`, `avatar_url`, `picture`). */
  datatype AuthUser = AuthUser(
    id: UserId,
    email: string,
    fullName: Option<string>,
    name: Option<string>,
    avatarUrl: Option<string>,
    picture: Option<string>)

  /** A `users` row. Its timestamps are not part of this model. */
  datatype Profile = Profile(id: UserId, nickname: string, avatar_url: Option<string>, bio: Option<string>, email: string)

  /** The placeholder nickname that does not count as one. */
  const Anonymous := "익명"

  /** The nickname a new profile gets when the provider gives no name. */
  const DefaultNickname := "사용자"

  /** PostgREST's code for "`.single()` found no row". */
  const NoRowsCode := "PGRST116"

  /** `!!(p?.nickname && p.nickname !== "익명")`: a profile counts once it
      has a real nickname. */
  predicate IsComplete(p: Option<Profile>) {
    p.Some? && p.value.nickname != "" && p.value.nickname != Anonymous
  }

  /** JavaScript's `s || fallback` on an optional string. */
  function OrIfFalsy(s: Option<string>, fallback: Option<string>): (r: Option<string>)
    ensures s.Some? && s.value != "" ==> r == s
    ensures s.None? || s.value == "" ==> r == fallback
  {
    if s.Some? && s.value != "" then s else fallback
  }

  /** The row `createUserProfile` inserts: the provider's full name or
      "사용자", its avatar or none, and no bio. */
  function NewProfile(u: AuthUser): (p: Profile)
    ensures p.id == u.id && p.email == u.email && p.bio.None?
    ensures u.fullName.Some? && u.fullName.value != "" ==> p.nickname == u.fullName.value
    ensures u.fullName.None? || u.fullName.value == "" ==> p.nickname == DefaultNickname
    ensures p.avatar_url == OrIfFalsy(u.avatarUrl, None)
  {
    Profile(u.id, OrIfFalsy(u.fullName, Some(DefaultNickname)).value, OrIfFalsy(u.avatarUrl, None), None, u.email)
  }

  /** A freshly created profile is complete, the default nickname
      included, unless the provider's name is the placeholder itself. */
  lemma NewProfileComplete(u: AuthUser)
    ensures IsComplete(Some(NewProfile(u))) <==> u.fullName != Some(Anonymous)
  {
    if u.fullName.None? || u.fullName.value == "" {
      assert DefaultNickname != Anonymous by {
        assert DefaultNickname[0] != Anonymous[0];
      }
    }
  }

  /** How a remote call can fail: with an error code, or by throwing. */
  datatype Fault = Failed(code: string) | Threw(thrown: Thrown)

  /** What `.from("users").select("*").eq("id", id).single()` yields. */
  datatype Lookup = Row(profile: Profile) | LookupFailed(code: string) | LookupThrew

  function SingleRow(users: map<UserId, Profile>, id: UserId, fault: Option<Fault>): (r: Lookup)
    ensures fault.None? && id in users ==> r == Row(users[id])
    ensures fault.None? && id !in users ==> r == LookupFailed(NoRowsCode)
    ensures fault.Some? && fault.value.Threw? ==> r == LookupThrew
    ensures fault.Some? && fault.value.Failed? ==> r == LookupFailed(fault.value.code)
  {
    match fault
    case Some(Threw(_)) => LookupThrew
    case Some(Failed(code)) => LookupFailed(code)
    case None => if id in users then Row(users[id]) else LookupFailed(NoRowsCode)
  }

  /** `loadUserProfile`: the row, or nothing on any error or exception. */
  function LoadUserProfile(users: map<UserId, Profile>, id: UserId, fault: Option<Fault>): (r: Option<Profile>)
    ensures r.Some? <==> fault.None? && id in users
    ensures r.Some? ==> r.value == users[id]
  {
    match SingleRow(users, id, fault)
    case Row(p) => Some(p)
    case _ => None
  }

  /** The context's `checkUserProfile`: false for an empty id, otherwise
      whether the loaded profile is complete. */
  function ContextCheckUserProfile(users: map<UserId, Profile>, id: UserId, fault: Option<Fault>): (r: bool)
    ensures r <==> id != "" && fault.None? && id in users && IsComplete(Some(users[id]))
  {
    if id == "" then false else IsComplete(LoadUserProfile(users, id, fault))
  }

  /** The hook's `checkUserProfile`: an error other than "no row", or an
      exception, gives false; otherwise whether a complete row exists. */
  function HookCheckUserProfile(users: map<UserId, Profile>, id: UserId, fault: Option<Fault>): (r: bool)
    ensures fault.Some? && fault.value.Threw? ==> !r
    ensures fault.Some? && fault.value.Failed? && fault.value.code != NoRowsCode ==> !r
    ensures r <==> fault.None? && id in users && IsComplete(Some(users[id]))
  {
    match SingleRow(users, id, fault)
    case LookupThrew => false
    case LookupFailed(code) => if code != NoRowsCode then false else IsComplete(None)
    case Row(p) => IsComplete(Some(p))
  }

  /** The two `checkUserProfile`s agree on every non-empty id. */
  lemma CheckUserProfilesAgree(users: map<UserId, Profile>, id: UserId, fault: Option<Fault>)
    requires id != ""
    ensures ContextCheckUserProfile(users, id, fault) == HookCheckUserProfile(users, id, fault)
  {
  }

  /** What `getSession` gives the provider: an error (returned or thrown),
      no session, or a session's user. */
  datatype SessionRead = SessionFailed | NoSession | Session(user: AuthUser)

  /** The events of `onAuthStateChange` the code tells apart. */
  datatype AuthEvent = SignedIn | SignedOut | OtherEvent(name: string)

  const SignedOutToast := "로그아웃되었습니다."
  const SignOutFailedToast := "로그아웃 중 오류가 발생했습니다."
  const SignedInToast := "로그인되었습니다."

  /** `AuthProvider`'s state, with the `users` table it reads and writes and
      the addresses its router has been sent to. */
  /** What `checkAndLoadProfile` leaves: the profile held, the profile
      table, and the addresses the router is sent to. */
  datatype ProfileCheck = ProfileCheck(profile: Option<Profile>, users: map<UserId, Profile>, pushed: seq<string>)

  /** `checkAndLoadProfile` for `u` while mounted, given the profile held
      before: a loaded profile is taken; a missing one is created and the
      new user sent to "/onboarding", keeping the profile held; a failed
      creation changes nothing. */
  function CheckedProfile(users: map<UserId, Profile>, u: AuthUser, held: Option<Profile>,
                          loadFault: Option<Fault>, createFault: Option<Fault>): (c: ProfileCheck)
    ensures LoadUserProfile(users, u.id, loadFault).Some? ==>
      c == ProfileCheck(LoadUserProfile(users, u.id, loadFault), users, [])
    ensures LoadUserProfile(users, u.id, loadFault).None? && (createFault.Some? || u.id in users) ==>
      c == ProfileCheck(held, users, [])
    ensures LoadUserProfile(users, u.id, loadFault).None? && createFault.None? && u.id !in users ==>
      c == ProfileCheck(held, users[u.id := NewProfile(u)], ["/onboarding"])
  {
    var loaded := LoadUserProfile(users, u.id, loadFault);
    if loaded.Some? then ProfileCheck(loaded, users, [])
    else if createFault.Some? || u.id in users then ProfileCheck(held, users, [])
    else ProfileCheck(held, users[u.id := NewProfile(u)], ["/onboarding"])
  }

  /** The check keeps every other user's row, never drops a row, and sends
      to onboarding only a user who had no row; with a working store the
      user has their own row afterwards, and a profile taken is that row. */
  lemma CheckedProfileKeepsRows(users: map<UserId, Profile>, u: AuthUser, held: Option<Profile>,
                                loadFault: Option<Fault>, createFault: Option<Fault>)
    requires forall k :: k in users ==> users[k].id == k
    ensures var c := CheckedProfile(users, u, held, loadFault, createFault);
      && users.Keys <= c.users.Keys
      && (forall k :: k in users ==> c.users[k] == users[k])
      && (forall k :: k in c.users ==> c.users[k].id == k)
      && (c.pushed != [] ==> u.id !in users && c.pushed == ["/onboarding"])
      && (loadFault.None? && createFault.None? ==> u.id in c.users)
      && (c.profile != held ==> c.profile == Some(users[u.id]))
  {
    var c := CheckedProfile(users, u, held, loadFault, createFault);
    if LoadUserProfile(users, u.id, loadFault).None? && createFault.None? && u.id !in users {
      assert c.users == users[u.id := NewProfile(u)];
      assert NewProfile(u).id == u.id;
    }
  }

  class AuthProvider {
    var user: Option<AuthUser>
    var userProfile: Option<Profile>
    var loading: bool
    var isMounted: bool
    var users: map<UserId, Profile>
    var pushed: seq<string>

    /** Rows sit under their own id, and a profile is only held while a
        user is signed in. */
    ghost predicate Valid()
      reads this
    {
      && (forall k :: k in users ==> users[k].id == k)
      && (userProfile.Some? ==> user.Some?)
    }

    constructor (users: map<UserId, Profile>)
      requires forall k :: k in users ==> users[k].id == k
      ensures Valid()
      ensures user.None? && userProfile.None? && loading && !isMounted
      ensures this.users == users && pushed == []
    {
      user := None;
      userProfile := None;
      loading := true;
      isMounted := false;
      this.users := users;
      pushed := [];
    }

    /** `isAuthenticated`. */
    predicate IsAuthenticated()
      reads this
    {
      user.Some?
    }

    /** `hasProfile`. */
    predicate HasProfile()
      reads this
    {
      IsComplete(userProfile)
    }

    /** The mount effect and its cleanup. */
    method SetMounted(mounted: bool)
      modifies this
      ensures isMounted == mounted
      ensures user == old(user) && userProfile == old(userProfile) && loading == old(loading)
      ensures users == old(users) && pushed == old(pushed)
    {
      isMounted := mounted;
    }

    /** `createUserProfile`: inserts `NewProfile(u)`; a fault, or a row
        already under that id, gives nothing. */
    method CreateUserProfile(u: AuthUser, fault: Option<Fault>) returns (r: Option<Profile>)
      requires Valid()
      modifies this
      ensures Valid()
      ensures r.Some? <==> fault.None? && u.id !in old(users)
      ensures r.Some? ==> r.value == NewProfile(u) && users == old(users)[u.id := NewProfile(u)]
      ensures r.None? ==> users == old(users)
      ensures user == old(user) && userProfile == old(userProfile) && loading == old(loading)
      ensures isMounted == old(isMounted) && pushed == old(pushed)
    {
      if fault.Some? || u.id in users {
        return None;
      }
      users := users[u.id := NewProfile(u)];
      r := Some(NewProfile(u));
    }

    /** `checkAndLoadProfile`: nothing once unmounted; an existing profile
        is taken; a missing one is created, and a created one sends the new
        user to onboarding without being taken. */
    method CheckAndLoadProfile(u: AuthUser, loadFault: Option<Fault>, createFault: Option<Fault>)
      requires Valid() && user == Some(u)
      modifies this
      ensures Valid()
      ensures user == old(user) && loading == old(loading) && isMounted == old(isMounted)
      ensures !isMounted ==> userProfile == old(userProfile) && users == old(users) && pushed == old(pushed)
      ensures isMounted && LoadUserProfile(old(users), u.id, loadFault).Some? ==>
        && userProfile == LoadUserProfile(old(users), u.id, loadFault)
        && users == old(users) && pushed == old(pushed)
      ensures isMounted && LoadUserProfile(old(users), u.id, loadFault).None? &&
              (createFault.Some? || u.id in old(users)) ==>
        userProfile == old(userProfile) && users == old(users) && pushed == old(pushed)
      ensures isMounted && LoadUserProfile(old(users), u.id, loadFault).None? &&
              createFault.None? && u.id !in old(users) ==>
        && userProfile == old(userProfile)
        && users == old(users)[u.id := NewProfile(u)]
        && pushed == old(pushed) + ["/onboarding"]
    {
      if !isMounted {
        return;
      }
      var profile := LoadUserProfile(users, u.id, loadFault);
      if profile.None? {
        profile := CreateUserProfile(u, createFault);
        if profile.None? {
          return;
        }
        pushed := pushed + ["/onboarding"];
        return;
      }
      userProfile := profile;
    }

    /** `refreshProfile`: with a user and while mounted, a successful load
        replaces the profile; anything else leaves it. */
    method RefreshProfile(fault: Option<Fault>)
      requires Valid()
      modifies this
      ensures Valid()
      ensures user == old(user) && loading == old(loading) && isMounted == old(isMounted)
      ensures users == old(users) && pushed == old(pushed)
      ensures user.Some? && isMounted && LoadUserProfile(users, user.value.id, fault).Some? ==>
        userProfile == LoadUserProfile(users, user.value.id, fault)
      ensures !(user.Some? && isMounted && LoadUserProfile(users, user.value.id, fault).Some?) ==>
        userProfile == old(userProfile)
    {
      if user.None? || !isMounted {
        return;
      }
      var profile := LoadUserProfile(users, user.value.id, fault);
      if profile.Some? {
        userProfile := profile;
      }
    }

    /** `signOut`: on success no user and no profile remain and the router
        goes home; an exception changes neither; loading ends either way. */
    method SignOut(threw: bool) returns (toast: Toast)
      requires Valid()
      modifies this
      ensures Valid()
      ensures !loading && isMounted == old(isMounted) && users == old(users)
      ensures !threw ==> user.None? && userProfile.None? && pushed == old(pushed) + ["/"]
      ensures !threw ==> !IsAuthenticated()
      ensures !threw ==> toast == Success(SignedOutToast)
      ensures threw ==> user == old(user) && userProfile == old(userProfile) && pushed == old(pushed)
      ensures threw ==> toast == Failure(SignOutFailedToast)
    {
      loading := true;
      if threw {
        toast := Failure(SignOutFailedToast);
      } else {
        user := None;
        userProfile := None;
        pushed := pushed + ["/"];
        toast := Success(SignedOutToast);
      }
      loading := false;
    }

    /** `initializeAuth`, run once mounted: a session's user is taken and
        their profile checked as `CheckedProfile` says; loading ends
        whatever the session read gave. */
    method InitializeAuth(session: SessionRead, loadFault: Option<Fault>, createFault: Option<Fault>)
      requires Valid()
      modifies this
      ensures Valid()
      ensures isMounted == old(isMounted)
      ensures !isMounted ==>
        && user == old(user) && userProfile == old(userProfile) && loading == old(loading)
        && users == old(users) && pushed == old(pushed)
      ensures isMounted ==> !loading
      ensures isMounted && !session.Session? ==>
        user == old(user) && userProfile == old(userProfile) && users == old(users) && pushed == old(pushed)
      ensures isMounted && session.Session? ==> user == Some(session.user)
      ensures isMounted && session.Session? ==>
        var c := CheckedProfile(old(users), session.user, old(userProfile), loadFault, createFault);
        userProfile == c.profile && users == c.users && pushed == old(pushed) + c.pushed
    {
      if !isMounted {
        return;
      }
      if session.Session? {
        user := Some(session.user);
        CheckAndLoadProfile(session.user, loadFault, createFault);
      }
      loading := false;
    }

    /** The `onAuthStateChange` listener: a sign-in takes the user, checks
        their profile and, past the first load, says so; a sign-out drops
        user and profile; loading ends after every event heard while
        mounted. */
    method OnAuthStateChange(event: AuthEvent, session: Option<AuthUser>,
                             loadFault: Option<Fault>, createFault: Option<Fault>) returns (toast: Option<Toast>)
      requires Valid()
      modifies this
      ensures Valid()
      ensures isMounted == old(isMounted)
      ensures !isMounted ==>
        && toast.None? && user == old(user) && userProfile == old(userProfile)
        && loading == old(loading) && users == old(users) && pushed == old(pushed)
      ensures isMounted ==> !loading
      ensures isMounted && event.SignedIn? && session.Some? ==> user == session
      ensures isMounted && event.SignedIn? && session.Some? ==>
        var c := CheckedProfile(old(users), session.value, old(userProfile), loadFault, createFault);
        userProfile == c.profile && users == c.users && pushed == old(pushed) + c.pushed
      ensures isMounted && event.SignedIn? && session.Some? ==>
        toast == (if old(loading) then None else Some(Success(SignedInToast)))
      ensures isMounted && event.SignedOut? ==>
        user.None? && userProfile.None? && users == old(users) && pushed == old(pushed) && toast.None?
      ensures isMounted && !(event.SignedIn? && session.Some?) && !event.SignedOut? ==>
        && user == old(user) && userProfile == old(userProfile) && users == old(users)
        && pushed == old(pushed) && toast.None?
    {
      toast := None;
      if !isMounted {
        return;
      }
      if event.SignedIn? && session.Some? {
        var wasLoading := loading;
        user := session;
        CheckAndLoadProfile(session.value, loadFault, createFault);
        if !wasLoading {
          toast := Some(Success(SignedInToast));
        }
      } else if event.SignedOut? {
        user := None;
        userProfile := None;
      }
      loading := false;
    }
  }

  /** A first sign-in with a working store ends with the profile created
      and the user at onboarding, holding no profile yet; a returning user
      holds their own row. */
  lemma FirstSessionGoesToOnboarding(users: map<UserId, Profile>, u: AuthUser)
    requires forall k :: k in users ==> users[k].id == k
    ensures u.id !in users ==>
      LoadUserProfile(users, u.id, None).None? && LoadUserProfile(users[u.id := NewProfile(u)], u.id, None) == Some(NewProfile(u))
    ensures u.id in users ==> LoadUserProfile(users, u.id, None) == Some(users[u.id]) && users[u.id].id == u.id
  {
  }

  /** The session `useAuth` (the hook) follows: the user, or none, and
      whether the first read is still outstanding. */
  class SessionHook {
    var user: Option<AuthUser>
    var loading: bool

    constructor ()
      ensures user.None? && loading
    {
      user := None;
      loading := true;
    }

    /** `getSession`: the session's user or none; loading ends. */
    method GetSession(session: Option<AuthUser>)
      modifies this
      ensures user == session && !loading
      ensures IsAuthenticated() <==> session.Some?
    {
      user := session;
      loading := false;
    }

    /** The listener: every event takes the session's user, whatever the
        event. */
    method OnAuthStateChange(event: AuthEvent, session: Option<AuthUser>)
      modifies this
      ensures user == session && !loading
      ensures IsAuthenticated() <==> session.Some?
    {
      user := session;
      loading := false;
    }

    /** `isAuthenticated`. */
    predicate IsAuthenticated()
      reads this
    {
      user.Some?
    }
  }

  /** In the provider a complete profile is only held by a signed-in
      user. */
  lemma ProfileMeansAuthenticated(a: AuthProvider)
    requires a.Valid()
    ensures a.HasProfile() ==> a.IsAuthenticated()
  {
  }

  const HookSignOutFailedToast := "로그아웃에 실패했습니다. 다시 시도해주세요."

  /** The hook's `signOut`: a returned error or an exception shows a toast
      and stays; success says so and loads the home page. */
  function HookSignOut(fault: Option<Fault>): (r: (Toast, Option<string>))
    ensures fault.Some? <==> r.1.None?
    ensures fault.Some? ==> r.0 == Failure(HookSignOutFailedToast)
    ensures fault.None? ==> r == (Success(SignedOutToast), Some("/"))
  {
    if fault.Some? then (Failure(HookSignOutFailedToast), None) else (Success(SignedOutToast), Some("/"))
  }
}
