/**
 * The profile page and the edit-profile page. Both read the user record
 * that local storage keeps under "user". The edit page changes one field
 * per keystroke and saves the record to the server. The profile page shows
 * the stored record, or a guest record when there is none.
 */
module Profile {
  import opened Wrappers
  import opened Text
  import opened Http
  import opened Initials

  /** The user record as the pages hold it. */
  datatype User = User(
    profileImage: string, fullName: string, email: string, phone: string,
    address: string, dob: string, gender: string, role: string, bio: string)

  /** What local storage holds for the pages: the saved user and the login token. */
  datatype Storage = Storage(user: Option<User>, token: Option<string>)

  /** The edit page's starting record, before the saved one is loaded. */
  function Blank(): (u: User)
    ensures u.profileImage == "" && forall f :: Get(u, f) == ""
  {
    User("", "", "", "", "", "", "", "", "")
  }

  /** The edit page's record once loading ends: the saved user, if any. */
  function LoadUser(saved: Option<User>): (u: User)
    ensures saved.Some? ==> u == saved.value
    ensures saved.None? ==> u == Blank()
  {
    saved.GetOr(Blank())
  }

  // ---------------------------------------------------------------------------
  // Editing
  // ---------------------------------------------------------------------------

  /** The inputs of the edit form, by their `name` attribute. The picture has no input. */
  datatype Field = FullName | Email | Phone | Dob | Gender | Role | Address | Bio

  function Get(u: User, f: Field): string {
    match f
    case FullName => u.fullName
    case Email => u.email
    case Phone => u.phone
    case Dob => u.dob
    case Gender => u.gender
    case Role => u.role
    case Address => u.address
    case Bio => u.bio
  }

  /** `handleChange`: the named field takes the typed value. */
  function HandleChange(u: User, f: Field, value: string): (r: User)
    ensures Get(r, f) == value
    ensures forall g :: g != f ==> Get(r, g) == Get(u, g)
    ensures r.profileImage == u.profileImage
  {
    match f
    case FullName => u.(fullName := value)
    case Email => u.(email := value)
    case Phone => u.(phone := value)
    case Dob => u.(dob := value)
    case Gender => u.(gender := value)
    case Role => u.(role := value)
    case Address => u.(address := value)
    case Bio => u.(bio := value)
  }

  /** Typing back a field's old value restores the record. */
  lemma ChangeBack(u: User, f: Field, value: string)
    ensures HandleChange(HandleChange(u, f, value), f, Get(u, f)) == u
  {
  }

  // ---------------------------------------------------------------------------
  // Saving
  // ---------------------------------------------------------------------------

  /** The PUT request: the bearer token and the whole record as its body. */
  datatype SaveRequest = SaveRequest(bearer: string, body: User)

  /** The request `handleSave` sends, if any: a missing or empty token stops it. */
  function SaveRequestOf(token: Option<string>, u: User): (r: Option<SaveRequest>)
    ensures r.Some? <==> token.Some? && token.value != ""
    ensures r.Some? ==> r.value.bearer == token.value && r.value.body == u
  {
    if token.Some? && token.value != "" then Some(SaveRequest(token.value, u)) else None
  }

  /** The alert shown, the route taken and the storage left by a save. */
  datatype SaveOutcome = SaveOutcome(alert: string, navigate: Option<string>, store: Storage)

  /** `handleSave`, given the server's reply to the request when one was sent.
      Only a successful reply writes the returned user to storage. */
  function HandleSave(store: Storage, u: User, reply: Reply<User>): (o: SaveOutcome)
    ensures SaveRequestOf(store.token, u).None? ==> o == SaveOutcome("Please login first!", None, store)
    ensures o.navigate.Some? <==> SaveRequestOf(store.token, u).Some? && reply.Ok?
    ensures o.navigate.Some? ==> o.navigate.value == "/profile" && o.store == store.(user := Some(reply.data))
    ensures o.navigate.None? ==> o.store == store
    ensures SaveRequestOf(store.token, u).Some? && reply.NotOk? ==> o.alert == MessageOr(reply.message, "\U{274C} Update failed.")
    ensures SaveRequestOf(store.token, u).Some? && reply.Thrown? ==> o.alert == "\U{274C} Something went wrong."
  {
    if SaveRequestOf(store.token, u).None? then SaveOutcome("Please login first!", None, store)
    else
      match reply
      case Ok(saved) => SaveOutcome("\U{2705} Profile updated successfully!", Some("/profile"), store.(user := Some(saved)))
      case NotOk(m) => SaveOutcome(MessageOr(m, "\U{274C} Update failed."), None, store)
      case Thrown => SaveOutcome("\U{274C} Something went wrong.", None, store)
  }

  /** After a successful save, the profile page shows the record the server
      returned and the edit page loads it next time. */
  lemma SaveThenShow(store: Storage, u: User, saved: User)
    requires store.token.Some? && store.token.value != ""
    ensures DisplayedUser(HandleSave(store, u, Ok(saved)).store.user) == saved
    ensures LoadUser(HandleSave(store, u, Ok(saved)).store.user) == saved
  {
  }

  // ---------------------------------------------------------------------------
  // The profile page
  // ---------------------------------------------------------------------------

  /** The record the profile page shows when nothing is stored. */
  function Guest(): (g: User)
    ensures g.fullName == "Guest User" && g.profileImage == "" && g.role == "User"
    ensures g.email == "guest@example.com" && g.phone == "0000000000" && g.address == "Not added yet"
    ensures g.dob == "N/A" && g.gender == "N/A" && g.bio == "No bio added yet."
  {
    User("", "Guest User", "guest@example.com", "0000000000", "Not added yet", "N/A", "N/A", "User", "No bio added yet.")
  }

  function DisplayedUser(stored: Option<User>): (u: User)
    ensures stored.Some? ==> u == stored.value
    ensures stored.None? ==> u == Guest()
  {
    stored.GetOr(Guest())
  }

  /** `handleLogout`: storage is cleared and the welcome page opens. */
  function Logout(store: Storage): (r: (Storage, string))
    ensures r.0.user.None? && r.0.token.None?
    ensures r.1 == "/WelcomePage"
  {
    (Storage(None, None), "/WelcomePage")
  }

  /** After logging out the profile page shows the guest, and saving is refused. */
  lemma LogoutShowsGuest(store: Storage, u: User, reply: Reply<User>)
    ensures DisplayedUser(Logout(store).0.user) == Guest()
    ensures HandleSave(Logout(store).0, u, reply).alert == "Please login first!"
  {
  }

  /** The guest's avatar reads "GU". */
  lemma GuestAvatar()
    ensures AvatarOf(Guest()) == Badge("GU")
  {
    var words := ["Guest", "User"];
    assert Join(words, ' ') == "Guest User";
    ManyWordsInitials(words);
  }

  /** The `Info` card: an empty value reads "Not provided". */
  function Info(value: string): (r: string)
    ensures r != ""
    ensures value != "" ==> r == value
    ensures value == "" ==> r == "Not provided"
  {
    if value != "" then value else "Not provided"
  }

  /** The avatar both pages draw: the picture when there is one, otherwise
      the initials of the full name, whose computation may throw. */
  datatype Avatar = Photo(src: string) | Badge(text: string) | Crash

  function AvatarOf(u: User): (a: Avatar)
    ensures a.Photo? <==> u.profileImage != ""
    ensures a.Photo? ==> a.src == u.profileImage
    ensures a.Badge? ==> GetInitials(Some(u.fullName)) == Letters(a.text)
  {
    if u.profileImage != "" then Photo(u.profileImage)
    else match GetInitials(Some(u.fullName))
      case Letters(t) => Badge(t)
      case Throws => Crash
  }

  /** Rendering fails exactly for a record without a picture whose name is blank. */
  lemma AvatarCrashesIffBlank(u: User)
    ensures AvatarOf(u).Crash? <==> u.profileImage == "" && AllWhitespace(u.fullName)
  {
    ThrowsIffBlank(u.fullName);
  }

  /** The edit page with no saved user renders the blank record, whose empty
      name makes the avatar throw. */
  lemma EditPageWithoutSavedUserCrashes()
    ensures AvatarOf(LoadUser(None)).Crash?
  {
    AvatarCrashesIffBlank(Blank());
  }

  /** The avatar with the evidently intended fallback for a blank name. */
  function SafeAvatarOf(u: User): (a: Avatar)
    ensures !a.Crash?
    ensures !AvatarOf(u).Crash? ==> a == AvatarOf(u)
    ensures AvatarOf(u).Crash? ==> a == Badge("U")
  {
    if u.profileImage != "" then Photo(u.profileImage) else Badge(SafeInitials(Some(u.fullName)))
  }

  /** With the fallback, the edit page without a saved user shows "U". */
  lemma SafeEditPageShowsU()
    ensures SafeAvatarOf(LoadUser(None)) == Badge("U")
  {
    EditPageWithoutSavedUserCrashes();
  }
}
