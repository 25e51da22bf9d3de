/** The first-login profile page (`src/app/onboarding/page.tsx`): the
    fields prefilled from the provider's metadata and clamped as typed, the
    avatar picker's checks, and the submission that inserts or updates the
    signed-in user's `users` row. The `users` table is the one the auth
    provider holds; the page's user comes from whichever hook it reads. */
module Onboarding {
  import opened Wrappers
  import opened Text
  import opened Records
  import opened Auth

  const MaxNicknameLength: nat := 20
  const MaxBioLength: nat := 200
  const ImageTypePrefix := "image/"

  const TooLargeToast := "파일 크기는 5MB 이하여야 합니다."
  const NotImageToast := "이미지 파일만 업로드 가능합니다."
  const AvatarReadToast := "이미지가 업로드되었습니다!"
  const AvatarReadFailedToast := "이미지 업로드에 실패했습니다. 다시 시도해주세요."
  const NoUserToast := "사용자 정보를 찾을 수 없습니다."
  const NoNicknameToast := "닉네임을 입력해주세요."
  const SignInRequiredToast := "로그인이 필요합니다."
  const SaveFailedPrefix := "프로필 저장에 실패했습니다: "
  const UnknownError := "알 수 없는 오류"
  const SavedToast := "프로필이 성공적으로 저장되었습니다!"

  /** `full_name || name || ""`. */
  function InitialNickname(u: AuthUser): (r: string)
    ensures u.fullName.Some? && u.fullName.value != "" ==> r == u.fullName.value
    ensures (u.fullName.None? || u.fullName.value == "") && u.name.Some? ==> r == u.name.value
    ensures (u.fullName.None? || u.fullName.value == "") && u.name.None? ==> r == ""
  {
    if u.fullName.Some? && u.fullName.value != "" then u.fullName.value
    else if u.name.Some? then u.name.value
    else ""
  }

  /** `avatar_url || picture || ""`. */
  function InitialAvatar(u: AuthUser): (r: string)
    ensures u.avatarUrl.Some? && u.avatarUrl.value != "" ==> r == u.avatarUrl.value
    ensures (u.avatarUrl.None? || u.avatarUrl.value == "") && u.picture.Some? ==> r == u.picture.value
    ensures (u.avatarUrl.None? || u.avatarUrl.value == "") && u.picture.None? ==> r == ""
  {
    if u.avatarUrl.Some? && u.avatarUrl.value != "" then u.avatarUrl.value
    else if u.picture.Some? then u.picture.value
    else ""
  }

  /** `s || null`. */
  function NullIfEmpty(s: string): (r: Option<string>)
    ensures r.None? <==> s == ""
    ensures r.Some? ==> r.value == s
  {
    if s == "" then None else Some(s)
  }

  /** What `handleFileSelect` makes of the chosen file. */
  datatype FileCheck = NoFile | TooLarge | NotImage | Readable(file: File)

  /** No file does nothing; a file over five megabytes is refused first,
      then one whose type is not an image; the rest are read. */
  function CheckFile(file: Option<File>): (r: FileCheck)
    ensures file.None? <==> r.NoFile?
    ensures file.Some? && file.value.size > MaxImageBytes ==> r == TooLarge
    ensures file.Some? && file.value.size <= MaxImageBytes && !StartsWith(file.value.mimeType, ImageTypePrefix) ==>
      r == NotImage
    ensures r.Readable? <==>
      file.Some? && file.value.size <= MaxImageBytes && StartsWith(file.value.mimeType, ImageTypePrefix)
    ensures r.Readable? ==> r.file == file.value
  {
    if file.None? then NoFile
    else if file.value.size > MaxImageBytes then TooLarge
    else if !StartsWith(file.value.mimeType, ImageTypePrefix) then NotImage
    else Readable(file.value)
  }

  /** Which write the submission makes after its lookup. */
  datatype Write = Insert | Update

  /** Only the "no row" error leads to an insert; a found row, and every
      other error, lead to an update. */
  function ChooseWrite(lookup: Lookup): (w: Write)
    ensures w == Insert <==> lookup == LookupFailed(NoRowsCode)
  {
    if lookup.LookupFailed? && lookup.code == NoRowsCode then Insert else Update
  }

  /** The row an insert writes: the trimmed nickname, and no bio or avatar
      when those are empty. */
  function NewRow(u: AuthUser, nickname: string, bio: string, avatar: string): (p: Profile)
    ensures p.id == u.id && p.email == u.email
    ensures p.nickname == Trim(nickname)
    ensures p.bio == NullIfEmpty(bio) && p.avatar_url == NullIfEmpty(avatar)
  {
    Profile(u.id, Trim(nickname), NullIfEmpty(avatar), NullIfEmpty(bio), u.email)
  }

  /** The `users` table after a successful write: an insert adds the row,
      an update rewrites the three fields of the row under the user's id,
      if there is one. */
  function Saved(users: map<UserId, Profile>, u: AuthUser, nickname: string, bio: string, avatar: string,
                 selectFault: Option<Fault>): map<UserId, Profile>
  {
    if ChooseWrite(SingleRow(users, u.id, selectFault)) == Insert then users[u.id := NewRow(u, nickname, bio, avatar)]
    else if u.id in users then
      users[u.id := users[u.id].(nickname := Trim(nickname), bio := NullIfEmpty(bio), avatar_url := NullIfEmpty(avatar))]
    else users
  }

  /** After a write that met no lookup error, the user's row holds the
      trimmed nickname, which is non-empty when the nickname was not blank;
      every other row is as before. After another lookup error, a user
      without a row still has none: the update finds nothing to change. */
  lemma SavedRowHoldsNickname(users: map<UserId, Profile>, u: AuthUser, nickname: string, bio: string,
                              avatar: string, selectFault: Option<Fault>)
    requires forall k :: k in users ==> users[k].id == k
    ensures selectFault.None? ==>
      var p := LoadUserProfile(Saved(users, u, nickname, bio, avatar, selectFault), u.id, None);
      && p.Some? && p.value.id == u.id && p.value.nickname == Trim(nickname)
      && p.value.bio == NullIfEmpty(bio) && p.value.avatar_url == NullIfEmpty(avatar)
      && (!IsBlank(nickname) ==> p.value.nickname != "")
    ensures forall k :: k != u.id && k in users ==>
      (k in Saved(users, u, nickname, bio, avatar, selectFault) && Saved(users, u, nickname, bio, avatar, selectFault)[k] == users[k])
    ensures selectFault.Some? && selectFault.value.Failed? && selectFault.value.code != NoRowsCode && u.id !in users ==>
      Saved(users, u, nickname, bio, avatar, selectFault) == users
  {
  }

  /** The message a `catch` shows for what was thrown. */
  function ThrownMessage(t: Thrown): (r: string)
    ensures t.ErrorWith? ==> r == t.message
    ensures t.NotAnError? ==> r == UnknownError
  {
    if t.ErrorWith? then t.message else UnknownError
  }

  /** The checks `handleSubmit` makes before it starts: a user, then a
      nickname that is not blank. */
  function SubmitGuard(user: Option<AuthUser>, nickname: string): (r: Option<Toast>)
    ensures user.None? ==> r == Some(Failure(NoUserToast))
    ensures user.Some? && IsBlank(nickname) ==> r == Some(Failure(NoNicknameToast))
    ensures r.None? <==> user.Some? && !IsBlank(nickname)
  {
    if user.None? then Some(Failure(NoUserToast))
    else if IsBlank(nickname) then Some(Failure(NoNicknameToast))
    else None
  }

  /** The profile page's state and the addresses its router has been sent
      to. */
  class OnboardingForm {
    var nickname: string
    var bio: string
    var avatarUrl: string
    var isSubmitting: bool
    var isUploading: bool
    var pushed: seq<string>

    constructor ()
      ensures nickname == "" && bio == "" && avatarUrl == ""
      ensures !isSubmitting && !isUploading && pushed == []
    {
      nickname := "";
      bio := "";
      avatarUrl := "";
      isSubmitting := false;
      isUploading := false;
      pushed := [];
    }

    /** The effect on `user` and `loading`: a settled session without a
        user goes to the login page; a user prefills the form, with an empty
        bio. */
    method Prefill(loading: bool, user: Option<AuthUser>)
      modifies this
      ensures !loading && user.None? ==> pushed == old(pushed) + ["/login"]
      ensures loading || user.Some? ==> pushed == old(pushed)
      ensures user.Some? ==> nickname == InitialNickname(user.value) && bio == "" && avatarUrl == InitialAvatar(user.value)
      ensures user.None? ==> nickname == old(nickname) && bio == old(bio) && avatarUrl == old(avatarUrl)
      ensures isSubmitting == old(isSubmitting) && isUploading == old(isUploading)
    {
      if !loading && user.None? {
        pushed := pushed + ["/login"];
      }
      if user.Some? {
        nickname := InitialNickname(user.value);
        bio := "";
        avatarUrl := InitialAvatar(user.value);
      }
    }

    /** The nickname input keeps the first 20 UTF-16 code units typed. */
    method TypeNickname(text: string)
      modifies this
      ensures nickname == Utf16Take(text, MaxNicknameLength)
      ensures bio == old(bio) && avatarUrl == old(avatarUrl) && pushed == old(pushed)
      ensures isSubmitting == old(isSubmitting) && isUploading == old(isUploading)
    {
      nickname := Utf16Take(text, MaxNicknameLength);
    }

    /** The bio keeps the first 200 UTF-16 code units typed. */
    method TypeBio(text: string)
      modifies this
      ensures bio == Utf16Take(text, MaxBioLength)
      ensures nickname == old(nickname) && avatarUrl == old(avatarUrl) && pushed == old(pushed)
      ensures isSubmitting == old(isSubmitting) && isUploading == old(isUploading)
    {
      bio := Utf16Take(text, MaxBioLength);
    }

    /** `handleFileSelect` and the read it starts, given the read's data
        URL or its failure: a refused file changes nothing; an accepted one
        is read only for a signed-in user, and the upload flag is down once
        the read ends. */
    method HandleFileSelect(file: Option<File>, user: Option<AuthUser>, read: Option<string>)
      returns (toast: Option<Toast>)
      modifies this
      ensures nickname == old(nickname) && bio == old(bio) && pushed == old(pushed)
      ensures isSubmitting == old(isSubmitting)
      ensures CheckFile(file).NoFile? ==> toast.None? && avatarUrl == old(avatarUrl) && isUploading == old(isUploading)
      ensures CheckFile(file).TooLarge? ==>
        toast == Some(Failure(TooLargeToast)) && avatarUrl == old(avatarUrl) && isUploading == old(isUploading)
      ensures CheckFile(file).NotImage? ==>
        toast == Some(Failure(NotImageToast)) && avatarUrl == old(avatarUrl) && isUploading == old(isUploading)
      ensures CheckFile(file).Readable? && user.None? ==>
        toast.None? && avatarUrl == old(avatarUrl) && isUploading == old(isUploading)
      ensures CheckFile(file).Readable? && user.Some? && read.Some? ==>
        toast == Some(Success(AvatarReadToast)) && avatarUrl == read.value && !isUploading
      ensures CheckFile(file).Readable? && user.Some? && read.None? ==>
        toast == Some(Failure(AvatarReadFailedToast)) && avatarUrl == old(avatarUrl) && !isUploading
    {
      var checked := CheckFile(file);
      match checked
      case NoFile => toast := None;
      case TooLarge => toast := Some(Failure(TooLargeToast));
      case NotImage => toast := Some(Failure(NotImageToast));
      case Readable(_) =>
        if user.None? {
          return None;
        }
        isUploading := true;
        if read.Some? {
          avatarUrl := read.value;
          toast := Some(Success(AvatarReadToast));
        } else {
          toast := Some(Failure(AvatarReadFailedToast));
        }
        isUploading := false;
    }

    /** The submit button's `disabled`. */
    predicate SubmitDisabled()
      reads this
    {
      isSubmitting || IsBlank(nickname) || isUploading
    }

    /** The part of `handleSubmit` inside its `try`, up to the write: no
        session sends the visitor to log in; a thrown lookup or a failed
        write is reported; otherwise the table holds the saved profile. */
    method Save(u: AuthUser, session: bool, selectFault: Option<Fault>, writeError: Option<string>,
                auth: AuthProvider) returns (r: Result<(), Toast>)
      requires auth.Valid()
      requires selectFault.Some? && selectFault.value.Failed? ==> selectFault.value.code != NoRowsCode
      modifies this, auth
      ensures auth.Valid()
      ensures nickname == old(nickname) && bio == old(bio) && avatarUrl == old(avatarUrl)
      ensures isSubmitting == old(isSubmitting) && isUploading == old(isUploading)
      ensures auth.user == old(auth.user) && auth.userProfile == old(auth.userProfile)
      ensures auth.loading == old(auth.loading) && auth.isMounted == old(auth.isMounted)
      ensures auth.pushed == old(auth.pushed)
      ensures !session ==> r == Err(Failure(SignInRequiredToast)) && pushed == old(pushed) + ["/login"]
      ensures !session ==> auth.users == old(auth.users)
      ensures session ==> pushed == old(pushed)
      ensures session && selectFault.Some? && selectFault.value.Threw? ==>
        r == Err(Failure(SaveFailedPrefix + ThrownMessage(selectFault.value.thrown))) && auth.users == old(auth.users)
      ensures session && !(selectFault.Some? && selectFault.value.Threw?) && writeError.Some? ==>
        r == Err(Failure(SaveFailedPrefix + writeError.value)) && auth.users == old(auth.users)
      ensures session && !(selectFault.Some? && selectFault.value.Threw?) && writeError.None? ==>
        r == Ok(()) && auth.users == Saved(old(auth.users), u, nickname, bio, avatarUrl, selectFault)
    {
      if !session {
        pushed := pushed + ["/login"];
        return Err(Failure(SignInRequiredToast));
      }
      var lookup := SingleRow(auth.users, u.id, selectFault);
      if lookup.LookupThrew? {
        return Err(Failure(SaveFailedPrefix + ThrownMessage(selectFault.value.thrown)));
      }
      if writeError.Some? {
        return Err(Failure(SaveFailedPrefix + writeError.value));
      }
      auth.users := Saved(auth.users, u, nickname, bio, avatarUrl, selectFault);
      r := Ok(());
    }

    /** `handleSubmit` wired to the auth provider's `refreshProfile`: after
        the write the provider reloads the profile, the page says so and
        goes home; a failed save is reported, changes no row and does not
        go home; the flag is down after every attempt past the guards. */
    method Submit(user: Option<AuthUser>, session: bool, selectFault: Option<Fault>, writeError: Option<string>,
                  refreshFault: Option<Fault>, auth: AuthProvider) returns (toast: Toast)
      requires auth.Valid()
      requires selectFault.Some? && selectFault.value.Failed? ==> selectFault.value.code != NoRowsCode
      modifies this, auth
      ensures auth.Valid()
      ensures nickname == old(nickname) && bio == old(bio) && avatarUrl == old(avatarUrl)
      ensures isUploading == old(isUploading)
      ensures auth.user == old(auth.user) && auth.loading == old(auth.loading)
      ensures SubmitGuard(user, nickname).Some? ==>
        && toast == SubmitGuard(user, nickname).value
        && pushed == old(pushed) && auth.users == old(auth.users)
        && isSubmitting == old(isSubmitting) && auth.userProfile == old(auth.userProfile)
      ensures SubmitGuard(user, nickname).None? ==> !isSubmitting
      ensures SubmitGuard(user, nickname).None? && !session ==>
        && toast == Failure(SignInRequiredToast)
        && pushed == old(pushed) + ["/login"]
        && auth.users == old(auth.users) && auth.userProfile == old(auth.userProfile)
      ensures SubmitGuard(user, nickname).None? && session && selectFault.Some? && selectFault.value.Threw? ==>
        && toast == Failure(SaveFailedPrefix + ThrownMessage(selectFault.value.thrown))
        && pushed == old(pushed)
        && auth.users == old(auth.users) && auth.userProfile == old(auth.userProfile)
      ensures SubmitGuard(user, nickname).None? && session && !(selectFault.Some? && selectFault.value.Threw?) &&
              writeError.Some? ==>
        && toast == Failure(SaveFailedPrefix + writeError.value)
        && pushed == old(pushed)
        && auth.users == old(auth.users) && auth.userProfile == old(auth.userProfile)
      ensures SubmitGuard(user, nickname).None? && session && !(selectFault.Some? && selectFault.value.Threw?) &&
              writeError.None? ==>
        && toast == Success(SavedToast)
        && pushed == old(pushed) + ["/"]
        && auth.users == Saved(old(auth.users), user.value, nickname, bio, avatarUrl, selectFault)
        && (auth.user.Some? && auth.isMounted && LoadUserProfile(auth.users, auth.user.value.id, refreshFault).Some? ==>
              auth.userProfile == LoadUserProfile(auth.users, auth.user.value.id, refreshFault))
    {
      var refused := SubmitGuard(user, nickname);
      if refused.Some? {
        return refused.value;
      }
      isSubmitting := true;
      var saved := Save(user.value, session, selectFault, writeError, auth);
      if saved.Err? {
        toast := saved.error;
      } else {
        auth.RefreshProfile(refreshFault);
        toast := Success(SavedToast);
        pushed := pushed + ["/"];
      }
      isSubmitting := false;
    }

    /** `handleSubmit` as the page is wired: it reads the hook of
        `src/hooks/use-auth.ts`, which has no `refreshProfile`, so the call
        after a successful write throws a `TypeError` with the message given;
        the write stays, but the page reports a failure and stays put. */
    method SubmitAsWritten(user: Option<AuthUser>, session: bool, selectFault: Option<Fault>,
                           writeError: Option<string>, typeError: string, auth: AuthProvider) returns (toast: Toast)
      requires auth.Valid()
      requires selectFault.Some? && selectFault.value.Failed? ==> selectFault.value.code != NoRowsCode
      modifies this, auth
      ensures auth.Valid()
      ensures auth.userProfile == old(auth.userProfile) && auth.user == old(auth.user)
      ensures SubmitGuard(user, nickname).None? && session && !(selectFault.Some? && selectFault.value.Threw?) &&
              writeError.None? ==>
        && toast == Failure(SaveFailedPrefix + typeError)
        && pushed == old(pushed)
        && auth.users == Saved(old(auth.users), user.value, nickname, bio, avatarUrl, selectFault)
    {
      var refused := SubmitGuard(user, nickname);
      if refused.Some? {
        return refused.value;
      }
      isSubmitting := true;
      var saved := Save(user.value, session, selectFault, writeError, auth);
      if saved.Err? {
        toast := saved.error;
      } else {
        toast := Failure(SaveFailedPrefix + typeError);
      }
      isSubmitting := false;
    }
  }

  /** With a signed-in user and nothing in progress, the button is
      disabled exactly when `handleSubmit` would refuse the nickname, so
      an enabled button always passes the checks. */
  lemma SubmitDisabledMatchesGuard(form: OnboardingForm, user: Option<AuthUser>)
    requires user.Some? && !form.isSubmitting && !form.isUploading
    ensures form.SubmitDisabled() <==> SubmitGuard(user, form.nickname).Some?
  {
  }

  /** The typed fields never exceed their limits, and keep what was typed
      up to them. */
  lemma ClampsHold(text: string)
    ensures Utf16Length(Utf16Take(text, MaxNicknameLength)) <= MaxNicknameLength
    ensures Utf16Length(Utf16Take(text, MaxBioLength)) <= MaxBioLength
    ensures Utf16Length(text) <= MaxNicknameLength ==> Utf16Take(text, MaxNicknameLength) == text
    ensures Utf16Length(text) <= MaxBioLength ==> Utf16Take(text, MaxBioLength) == text
    ensures Utf16Take(text, MaxNicknameLength) == text[..|Utf16Take(text, MaxNicknameLength)|]
    ensures Utf16Take(text, MaxBioLength) == text[..|Utf16Take(text, MaxBioLength)|]
  {
    Utf16TakeWhole(text, MaxNicknameLength);
    Utf16TakeWhole(text, MaxBioLength);
  }
}
