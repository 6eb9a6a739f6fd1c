/** The entities the client reads from the API (src/types/index.ts).
    Optional string fields of the source are "" when absent. */
module Types {

  datatype Category = Book | Video | Article | Course | General

  datatype Status = CurrentlyReading | Finished | WillRepeat | Repeated

  /** The category as the API and the route spell it. */
  function CategoryName(c: Category): (name: string)
    ensures name != "" && '/' !in name && '-' !in name
  {
    match c
    case Book => "book"
    case Video => "video"
    case Article => "article"
    case Course => "course"
    case General => "general"
  }

  /** The status as the API spells it. */
  function StatusName(s: Status): (name: string)
    ensures name != ""
  {
    match s
    case CurrentlyReading => "currently_reading"
    case Finished => "finished"
    case WillRepeat => "will_repeat"
    case Repeated => "repeated"
  }

  /** Different categories are spelled differently. */
  lemma CategoryNameInjective(c: Category, d: Category)
    ensures CategoryName(c) == CategoryName(d) ==> c == d
  {
  }

  datatype User = User(
    id: string,
    name: string,
    surname: string,
    username: string,
    email: string,
    avatar: string,
    bio: string,
    linkedinUrl: string,
    privacyMode: string)

  /** `note.user`: the populated profile, the bare user id, or nothing. */
  datatype Owner = OwnerId(id: string) | OwnerProfile(user: User) | NoOwner

  datatype Note = Note(
    id: string,
    owner: Owner,
    title: string,
    description: string,
    content: string,
    category: Category,
    cover: string,
    coverColor: string,
    link: string,
    author: string,
    status: Status,
    isPublic: bool,
    order: int,
    createdAt: string)
}
