/** The people directory (src/pages/UsersPage.tsx): pages of 20 users,
    replaced on a new search and appended by "Load more", with the
    `skip`/`hasMore` bookkeeping; and the initials an avatar falls back to. */
module UsersPage {
  import opened Common
  import Api

  datatype DiscoverUser = DiscoverUser(
    id: string,
    name: string,
    surname: string,
    username: string,
    avatar: string,
    bio: string,
    privacyMode: string)

  const Limit := 20

  // ---------------------------------------------------------------------
  // Avatar initials

  /** ASCII `toUpperCase` of one character. */
  function UpperChar(c: char): (u: char)
    ensures 'a' <= c <= 'z' ==> 'A' <= u <= 'Z' && u as int == c as int - 32
    ensures !('a' <= c <= 'z') ==> u == c
  {
    if 'a' <= c <= 'z' then (c as int - 32) as char else c
  }

  function Upper(s: string): (u: string)
    ensures |u| == |s| && forall k :: 0 <= k < |s| ==> u[k] == UpperChar(s[k])
  {
    seq(|s|, k requires 0 <= k < |s| => UpperChar(s[k]))
  }

  /** `parts.map(n => n[0]).join('')`: an empty part gives `undefined`,
      which `join` writes as nothing. */
  function FirstChars(parts: seq<string>): (r: string)
    ensures |r| <= |parts|
  {
    if parts == [] then ""
    else (if parts[0] == "" then "" else [parts[0][0]]) + FirstChars(parts[1..])
  }

  /** `name.split(' ').map(n => n[0]).join('').slice(0, 2).toUpperCase()`. */
  function Initials(name: string): (r: string)
    ensures |r| <= 2
    ensures |r| <= |name|
  {
    var parts := Split(name, ' ');
    var firsts := FirstChars(parts);
    FirstCharsAtMostLetters(parts, ' ');
    JoinSplit(name, ' ');
    Upper(if |firsts| <= 2 then firsts else firsts[..2])
  }

  /** There are never more first characters than characters. */
  lemma {:induction false} FirstCharsAtMostLetters(parts: seq<string>, sep: char)
    requires |parts| >= 1
    ensures |FirstChars(parts)| <= |Join(parts, sep)|
  {
    if |parts| > 1 {
      FirstCharsAtMostLetters(parts[1..], sep);
      assert FirstChars(parts) == (if parts[0] == "" then "" else [parts[0][0]]) + FirstChars(parts[1..]);
    }
  }

  /** The initials of "<name> <surname>" for two single words are their
      upper-cased first letters. */
  lemma InitialsOfFullName(name: string, surname: string)
    requires name != "" && surname != "" && ' ' !in name && ' ' !in surname
    ensures Initials(name + " " + surname) == [UpperChar(name[0]), UpperChar(surname[0])]
  {
    SplitAt(name, ' ', surname);
    SplitWithout(name, ' ');
    SplitWithout(surname, ' ');
    assert Split(name + " " + surname, ' ') == [name, surname];
    assert FirstChars([name, surname]) == [name[0]] + FirstChars([surname]);
    assert FirstChars([surname]) == [surname[0]] + FirstChars([]);
  }

  /** Spaces alone give no initials. */
  lemma {:induction false} InitialsOfSpaces(name: string)
    requires forall k :: 0 <= k < |name| ==> name[k] == ' '
    ensures Initials(name) == ""
  {
    NoFirstCharsOfSpaces(name);
  }

  lemma {:induction false} NoFirstCharsOfSpaces(name: string)
    requires forall k :: 0 <= k < |name| ==> name[k] == ' '
    ensures FirstChars(Split(name, ' ')) == ""
  {
    if name != [] {
      NoFirstCharsOfSpaces(name[1..]);
      assert Split(name, ' ') == [[]] + Split(name[1..], ' ');
      assert Split(name, ' ')[1..] == Split(name[1..], ' ');
    }
  }

  // ---------------------------------------------------------------------
  // A user card's bio line

  datatype BioLine = Bio(text: string) | PrivateNotice | NoBio

  /** The bio shows only on a public profile; any other profile shows the
      private notice instead. */
  function BioView(u: DiscoverUser): (line: BioLine)
    ensures line.Bio? ==> u.privacyMode == "public" && line.text == u.bio && u.bio != ""
    ensures line.PrivateNotice? <==> u.privacyMode != "public"
    ensures line.NoBio? <==> u.privacyMode == "public" && u.bio == ""
  {
    var isPublic := u.privacyMode == "public";
    if isPublic && u.bio != "" then Bio(u.bio)
    else if !isPublic then PrivateNotice
    else NoBio
  }

  // ---------------------------------------------------------------------
  // Pagination

  /** The parameters of one page request: no search for "", always the
      limit and the offset. */
  function DiscoverParams(searchVal: string, skipVal: int): (p: map<string, Api.ParamValue>)
    ensures "search" in p <==> searchVal != ""
    ensures searchVal != "" ==> p["search"] == Api.Str(searchVal)
    ensures "limit" in p && p["limit"] == Api.Num(Limit)
    ensures "skip" in p && p["skip"] == Api.Num(skipVal)
    ensures p.Keys <= {"search", "limit", "skip"}
  {
    var p := map["limit" := Api.Num(Limit), "skip" := Api.Num(skipVal)];
    if searchVal != "" then p["search" := Api.Str(searchVal)] else p
  }

  class Page {
    var users: seq<DiscoverUser>
    var search: string
    var loading: bool
    var loadingMore: bool
    var hasMore: bool
    var skip: int

    /** The offset of the next page is the number of users held. */
    predicate SkipCountsUsers()
      reads this
    {
      skip == |users|
    }

    constructor ()
      ensures users == [] && search == "" && loading && !loadingMore && hasMore && skip == 0
      ensures SkipCountsUsers()
    {
      users := [];
      search := "";
      loading := true;
      loadingMore := false;
      hasMore := true;
      skip := 0;
    }

    /** `fetchUsers(searchVal, skipVal, reset)` up to its await: raises
        `loading` for a reset and `loadingMore` otherwise, and sends the
        request. */
    method StartFetch(searchVal: string, skipVal: int, reset: bool) returns (call: Api.ApiCall)
      modifies this
      ensures call == Api.DiscoverUsers(DiscoverParams(searchVal, skipVal))
      ensures reset ==> loading && loadingMore == old(loadingMore)
      ensures !reset ==> loadingMore && loading == old(loading)
      ensures users == old(users) && skip == old(skip) && hasMore == old(hasMore) && search == old(search)
    {
      if reset {
        loading := true;
      } else {
        loadingMore := true;
      }
      call := Api.DiscoverUsers(DiscoverParams(searchVal, skipVal));
    }

    /** `fetchUsers` after its await. A page replaces the list on a reset and
        is appended otherwise; more pages are expected exactly when this one
        was full; the offset moves past it. A failure keeps the list. Both
        loading flags end false. */
    method FinishFetch(skipVal: int, reset: bool, result: Outcome<seq<DiscoverUser>>)
      modifies this
      ensures !loading && !loadingMore && search == old(search)
      ensures result.Ok? ==>
        users == (if reset then result.value else old(users) + result.value)
        && hasMore == (|result.value| == Limit)
        && skip == skipVal + |result.value|
      ensures result.Failed? ==> users == old(users) && hasMore == old(hasMore) && skip == old(skip)
      ensures old(SkipCountsUsers()) && (if reset then skipVal == 0 else skipVal == old(skip)) ==> SkipCountsUsers()
    {
      match result {
        case Ok(page) =>
          users := if reset then page else users + page;
          hasMore := |page| == Limit;
          skip := skipVal + |page|;
        case Failed(_) =>
      }
      loading := false;
      loadingMore := false;
    }

    /** The "Load more" button: ignored while a page is loading, otherwise
        the next page of the current search from the current offset. */
    method LoadMore() returns (call: Option<Api.ApiCall>)
      modifies this
      ensures old(loadingMore) ==>
        call == None && loading == old(loading) && loadingMore == old(loadingMore)
      ensures !old(loadingMore) ==>
        call == Some(Api.DiscoverUsers(DiscoverParams(search, skip))) && loadingMore && loading == old(loading)
      ensures users == old(users) && skip == old(skip) && hasMore == old(hasMore) && search == old(search)
    {
      if loadingMore {
        call := None;
        return;
      }
      var c := StartFetch(search, skip, false);
      call := Some(c);
    }

    /** `handleSearch(val)`: records the text and, once the typing pauses,
        asks for the first page of that search. */
    method HandleSearch(val: string) returns (call: Api.ApiCall)
      modifies this
      ensures search == val && loading && loadingMore == old(loadingMore)
      ensures call == Api.DiscoverUsers(DiscoverParams(val, 0))
      ensures users == old(users) && skip == old(skip) && hasMore == old(hasMore)
    {
      search := val;
      call := StartFetch(val, 0, true);
    }
  }
}
