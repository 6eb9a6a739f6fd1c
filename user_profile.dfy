/** Another user's profile page (src/pages/UserProfile.tsx): which of the
    discovered notes belong to the profile, what a private profile hides,
    and how a note card is drawn and labelled. */
module UserProfile {
  import opened Common
  import opened Types

  /** A note as the discover endpoint returns it to this page: category and
      status are plain strings, and `user` is an id, a profile or missing. */
  datatype ProfileNote = ProfileNote(
    id: string,
    owner: Owner,
    title: string,
    author: string,
    description: string,
    category: string,
    status: string,
    cover: string,
    coverColor: string,
    isPublic: bool,
    createdAt: string)

  // ---------------------------------------------------------------------
  // The owner filter

  /** `typeof n.user === 'string' ? n.user : n.user?._id`. */
  function OwnerIdOf(owner: Owner): (r: Option<string>)
    ensures owner.OwnerId? ==> r == Some(owner.id)
    ensures owner.OwnerProfile? ==> r == Some(owner.user.id)
    ensures owner.NoOwner? ==> r == None
  {
    match owner
    case OwnerId(id) => Some(id)
    case OwnerProfile(u) => Some(u.id)
    case NoOwner => None
  }

  predicate OwnedBy(n: ProfileNote, userId: string) {
    OwnerIdOf(n.owner) == Some(userId)
  }

  /** The notes the page keeps of one discover page. */
  function ProfileNotes(all: seq<ProfileNote>, userId: string): (r: seq<ProfileNote>)
    ensures forall n :: n in r <==> n in all && OwnedBy(n, userId)
    ensures |r| <= |all|
  {
    Filter(all, (n: ProfileNote) => OwnedBy(n, userId))
  }

  /** Each owned note is kept as often as it came, every other note is dropped. */
  lemma ProfileNotesCount(all: seq<ProfileNote>, userId: string, n: ProfileNote)
    ensures multiset(ProfileNotes(all, userId))[n] == if OwnedBy(n, userId) then multiset(all)[n] else 0
  {
    FilterCount(all, (m: ProfileNote) => OwnedBy(m, userId), n);
  }

  /** The filter keeps the order of the notes: it works piece by piece. */
  lemma ProfileNotesAppend(a: seq<ProfileNote>, b: seq<ProfileNote>, userId: string)
    ensures ProfileNotes(a + b, userId) == ProfileNotes(a, userId) + ProfileNotes(b, userId)
  {
    FilterAppend(a, b, (n: ProfileNote) => OwnedBy(n, userId));
  }

  /** Filtering twice is filtering once. */
  lemma ProfileNotesIdempotent(all: seq<ProfileNote>, userId: string)
    ensures ProfileNotes(ProfileNotes(all, userId), userId) == ProfileNotes(all, userId)
  {
    var keep := (n: ProfileNote) => OwnedBy(n, userId);
    FilterNarrow(all, keep, keep);
  }

  /** A page whose notes all belong to the profile is kept whole. */
  lemma ProfileNotesAllOwned(all: seq<ProfileNote>, userId: string)
    requires forall k :: 0 <= k < |all| ==> OwnedBy(all[k], userId)
    ensures ProfileNotes(all, userId) == all
  {
    FilterKeepsAll(all, (n: ProfileNote) => OwnedBy(n, userId));
  }

  // ---------------------------------------------------------------------
  // What a private profile hides

  predicate IsPrivate(profile: User) {
    profile.privacyMode != "public"
  }

  datatype ProfileView = ProfileView(
    bio: Option<string>,
    privateNotice: bool,
    linkedin: Option<string>,
    notesSection: bool,
    lockedVault: bool)

  /** The parts of the profile card and page that are drawn. */
  function View(profile: User): (v: ProfileView)
    ensures v.bio.Some? <==> profile.bio != "" && !IsPrivate(profile)
    ensures v.bio.Some? ==> v.bio.value == profile.bio
    ensures v.linkedin.Some? <==> profile.linkedinUrl != "" && !IsPrivate(profile)
    ensures v.linkedin.Some? ==> v.linkedin.value == profile.linkedinUrl
    ensures v.privateNotice <==> IsPrivate(profile)
    ensures v.notesSection <==> !IsPrivate(profile)
    ensures v.lockedVault <==> IsPrivate(profile)
  {
    var isPrivate := profile.privacyMode != "public";
    ProfileView(
      if profile.bio != "" && !isPrivate then Some(profile.bio) else None,
      isPrivate,
      if profile.linkedinUrl != "" && !isPrivate then Some(profile.linkedinUrl) else None,
      !isPrivate,
      isPrivate)
  }

  /** A private profile shows none of its bio, link or notes, whatever they are. */
  lemma PrivateHidesEverything(profile: User, bio: string, link: string)
    requires IsPrivate(profile)
    ensures View(profile) == View(profile.(bio := bio, linkedinUrl := link))
    ensures View(profile).bio == None && View(profile).linkedin == None && !View(profile).notesSection
  {
  }

  // ---------------------------------------------------------------------
  // A note card

  datatype Cover = Image(file: string) | Plain(background: Option<string>, icon: bool)

  predicate HasCover(n: ProfileNote) {
    n.category != "general" && n.cover != ""
  }

  /** The top of a note card: its cover image, or a plain block that is
      coloured for a general note and carries the category icon otherwise. */
  function CardCover(n: ProfileNote): (c: Cover)
    ensures c.Image? <==> HasCover(n)
    ensures c.Image? ==> c.file == n.cover
    ensures c.Plain? ==> (c.background.Some? <==> n.category == "general") && (c.icon <==> n.category != "general")
    ensures c.Plain? && c.background.Some? ==> c.background.value == n.coverColor
  {
    if n.category != "general" && n.cover != "" then Image(n.cover)
    else Plain(if n.category == "general" then Some(n.coverColor) else None, n.category != "general")
  }

  /** A general note is never drawn with its cover image, even when it has one. */
  lemma GeneralNoteIsColoured(n: ProfileNote)
    requires n.category == "general"
    ensures CardCover(n) == Plain(Some(n.coverColor), false)
  {
  }

  /** `STATUS_LABELS[status] ?? status`. */
  function StatusLabel(status: string): (text: string)
    ensures status == "currently_reading" ==> text == "Reading"
    ensures status == "finished" ==> text == "Finished"
    ensures status == "will_repeat" ==> text == "Will Repeat"
    ensures status == "repeated" ==> text == "Repeated"
    ensures status !in {"currently_reading", "finished", "will_repeat", "repeated"} ==> text == status
  {
    if status == "currently_reading" then "Reading"
    else if status == "finished" then "Finished"
    else if status == "will_repeat" then "Will Repeat"
    else if status == "repeated" then "Repeated"
    else status
  }

  /** Every status the API knows gets a label of its own rather than its raw name. */
  lemma KnownStatusesLabelled(s: Status)
    ensures StatusLabel(StatusName(s)) != StatusName(s)
  {
  }
}
