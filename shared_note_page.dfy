/** The public page of a shared note (src/pages/SharedNotePage.tsx), reached
    through the route `/:category/:slug` (src/App.tsx): the slug's last
    hyphen-separated segment must be a full 24-character note id, and the
    fetched note is shown only when it is public and of the route's category. */
module SharedNotePage {
  import opened Common
  import opened Types
  import Api
  import Slugify

  /** A comment as the comment endpoints return it. */
  datatype Comment = Comment(id: string, text: string)

  /** The requests the page makes: a call of api.ts, or one of the comment
      calls it imports, which api.ts does not define. */
  datatype Request =
    | Call(call: Api.ApiCall)
    | GetComments(noteId: string)
    | AddComment(noteId: string, text: string)
    | DeleteComment(commentId: string)

  const IdLength := 24

  // ---------------------------------------------------------------------
  // From the URL to a note id

  /** The id the page looks up: the slug's last `-` segment, when it has
      exactly 24 characters. */
  function CandidateId(slug: string): (r: Option<string>)
    ensures r.Some? <==> |LastPart(slug, '-')| == IdLength
    ensures r.Some? ==> r.value == LastPart(slug, '-') && '-' !in r.value
  {
    var last := LastPart(slug, '-');
    if |last| == IdLength then Some(last) else None
  }

  /** A slug ending in a hyphen and a full hyphen-free id resolves to that
      id, whatever precedes it. */
  lemma CandidateIdAfterHyphen(prefix: string, id: string)
    requires |id| == IdLength && '-' !in id
    ensures CandidateId(prefix + "-" + id) == Some(id)
  {
    LastPartAfter(prefix, '-', id);
  }

  /** A slug without any hyphen is its own candidate. */
  lemma CandidateIdWhole(id: string)
    requires |id| == IdLength && '-' !in id
    ensures CandidateId(id) == Some(id)
  {
    SplitWithout(id, '-');
  }

  /** The parameters of the route `/:category/:slug`: exactly two non-empty
      segments, followed by any number of slashes (the router lets a
      pattern end in any run of slashes). */
  function RouteParams(path: string): (r: Option<(string, string)>)
    ensures r.Some? ==> r.value.0 != "" && r.value.1 != "" && '/' !in r.value.0 && '/' !in r.value.1
    ensures r.Some? ==> "/" + r.value.0 + "/" + r.value.1 <= path
    ensures r.Some? ==> forall k :: |"/" + r.value.0 + "/" + r.value.1| <= k < |path| ==> path[k] == '/'
  {
    var parts := Split(path, '/');
    if |parts| >= 3 && parts[0] == "" && parts[1] != "" && parts[2] != ""
       && forall k :: 3 <= k < |parts| ==> parts[k] == ""
    then
      RouteShape(path);
      Some((parts[1], parts[2]))
    else None
  }

  /** A path whose segments are "", a, b and then only empty ones is
      `/a/b` followed by slashes. */
  lemma RouteShape(path: string)
    requires var parts := Split(path, '/');
      |parts| >= 3 && parts[0] == "" && forall k :: 3 <= k < |parts| ==> parts[k] == ""
    ensures var parts := Split(path, '/');
      "/" + parts[1] + "/" + parts[2] <= path
      && forall k :: |"/" + parts[1] + "/" + parts[2]| <= k < |path| ==> path[k] == '/'
  {
    var parts := Split(path, '/');
    JoinSplit(path, '/');
    assert parts[1..][1..] == parts[2..];
    assert path == parts[0] + "/" + Join(parts[1..], '/');
    assert Join(parts[1..], '/') == parts[1] + "/" + Join(parts[2..], '/');
    JoinTrailingEmpty(parts[2..], '/');
    assert path == "/" + parts[1] + "/" + Join(parts[2..], '/');
  }

  /** Joining a part and empty parts appends one separator per empty part. */
  lemma {:induction false} JoinTrailingEmpty(parts: seq<string>, sep: char)
    requires |parts| >= 1 && forall k :: 1 <= k < |parts| ==> parts[k] == ""
    ensures parts[0] <= Join(parts, sep)
    ensures forall k :: |parts[0]| <= k < |Join(parts, sep)| ==> Join(parts, sep)[k] == sep
  {
    if |parts| > 1 {
      JoinTrailingEmpty(parts[1..], sep);
    }
  }

  /** `/category/slug`, with or without trailing slashes, yields its two segments. */
  lemma RouteParamsOf(category: string, slug: string, trailing: string)
    requires category != "" && slug != "" && '/' !in category && '/' !in slug
    requires forall k :: 0 <= k < |trailing| ==> trailing[k] == '/'
    ensures RouteParams("/" + category + "/" + slug + trailing) == Some((category, slug))
  {
    var path := "/" + category + "/" + slug + trailing;
    assert path == [] + ['/'] + (category + ['/'] + (slug + trailing));
    SplitAt([], '/', category + ['/'] + (slug + trailing));
    SplitAt(category, '/', slug + trailing);
    SplitWithout(category, '/');
    SegmentThenSlashes(slug, trailing);
  }

  /** A segment followed by slashes splits into that segment and empty parts. */
  lemma SegmentThenSlashes(slug: string, trailing: string)
    requires '/' !in slug
    requires forall k :: 0 <= k < |trailing| ==> trailing[k] == '/'
    ensures |Split(slug + trailing, '/')| >= 1 && Split(slug + trailing, '/')[0] == slug
    ensures forall k :: 1 <= k < |Split(slug + trailing, '/')| ==> Split(slug + trailing, '/')[k] == ""
  {
    SplitWithout(slug, '/');
    if trailing == [] {
      assert slug + trailing == slug;
    } else {
      assert slug + trailing == slug + ['/'] + trailing[1..];
      SplitAt(slug, '/', trailing[1..]);
      SplitOfSeparators(trailing[1..], '/');
    }
  }

  /** The links `noteSharePath` builds do not reach this page: their
      `/share/` prefix makes three segments where the route has two. */
  lemma ShareLinkMissesRoute(category: string, title: string, id: string)
    requires '/' !in category && '/' !in id
    ensures RouteParams(Slugify.NoteSharePath(category, title, id)) == None
  {
    var six := Slugify.LastSix(id);
    assert forall c :: c in six ==> c in id;
    SlugPathMissesRoute(category, Slugify.Slugify(title), six);
  }

  lemma SlugPathMissesRoute(category: string, slug: string, six: string)
    requires '/' !in category && '/' !in six && Slugify.IsSlug(slug)
    ensures RouteParams("/share/" + category + "/" + slug + "-" + six) == None
  {
    SlugHasNoSlash(slug);
    RestHasNoSlash(slug, six);
    var rest := slug + "-" + six;
    assert "/share/" + category + "/" + slug + "-" + six == "/share/" + category + "/" + rest;
    SharePathSegments(category, rest);
    ThreeSegmentsMissRoute("share", category, rest);
  }

  lemma SlugHasNoSlash(slug: string)
    requires Slugify.IsSlug(slug)
    ensures forall k :: 0 <= k < |slug| ==> slug[k] != '/'
  {
  }

  lemma SharePathSegments(category: string, rest: string)
    ensures "/share/" + category + "/" + rest == "/" + "share" + "/" + category + "/" + rest
  {
  }

  lemma RestHasNoSlash(slug: string, six: string)
    requires forall k :: 0 <= k < |slug| ==> slug[k] != '/'
    requires '/' !in six
    ensures '/' !in slug + "-" + six
  {
  }

  /** A path of three segments, the last non-empty, does not match the route. */
  lemma ThreeSegmentsMissRoute(a: string, b: string, c: string)
    requires '/' !in a && '/' !in b && '/' !in c && c != ""
    ensures RouteParams("/" + a + "/" + b + "/" + c) == None
  {
    ThreeSegments(a, b, c);
    assert Split("/" + a + "/" + b + "/" + c, '/')[3] != "";
  }

  lemma ThreeSegments(a: string, b: string, c: string)
    requires '/' !in a && '/' !in b && '/' !in c
    ensures Split("/" + a + "/" + b + "/" + c, '/') == ["", a, b, c]
  {
    var path := "/" + a + "/" + b + "/" + c;
    assert path == [] + ['/'] + (a + ['/'] + (b + ['/'] + c));
    SplitAt([], '/', a + ['/'] + (b + ['/'] + c));
    SplitAt(a, '/', b + ['/'] + c);
    SplitAt(b, '/', c);
    SplitWithout(a, '/');
    SplitWithout(b, '/');
    SplitWithout(c, '/');
  }

  /** Nor would their slug resolve if it did: its last segment is at most
      the six characters `noteSharePath` keeps of the id. */
  lemma ShareSlugNeverResolves(title: string, id: string)
    ensures CandidateId(Slugify.Slugify(title) + "-" + Slugify.LastSix(id)) == None
  {
    LastPartSuffix(Slugify.Slugify(title), '-', Slugify.LastSix(id));
  }

  // ---------------------------------------------------------------------
  // The gate on a fetched note

  /** The fetched note is shown only when public and of the route's category. */
  predicate Accepts(n: Note, category: string) {
    n.isPublic && CategoryName(n.category) == category
  }

  lemma AcceptsOnlyItsCategory(n: Note, category: string)
    requires Accepts(n, category)
    ensures n.isPublic
    ensures forall other: Category :: CategoryName(other) == category ==> other == n.category
  {
  }

  /** `prev.filter(c => c._id !== commentId)`. */
  function WithoutComment(comments: seq<Comment>, commentId: string): (r: seq<Comment>)
    ensures forall c :: c in r ==> c.id != commentId
  {
    Filter(comments, (c: Comment) => c.id != commentId)
  }

  /** Removing a comment removes every comment with that id and keeps each
      other comment as often as it was there. */
  lemma WithoutCommentKeepsOthers(comments: seq<Comment>, commentId: string, c: Comment)
    ensures multiset(WithoutComment(comments, commentId))[c] ==
      if c.id == commentId then 0 else multiset(comments)[c]
  {
    FilterCount(comments, (c: Comment) => c.id != commentId, c);
  }

  /** Removing works piece by piece, so the comments that stay keep their order. */
  lemma WithoutCommentAppend(a: seq<Comment>, b: seq<Comment>, commentId: string)
    ensures WithoutComment(a + b, commentId) == WithoutComment(a, commentId) + WithoutComment(b, commentId)
  {
    FilterAppend(a, b, (c: Comment) => c.id != commentId);
  }

  /** A list without that id is left exactly as it was, order included. */
  lemma WithoutAbsentComment(comments: seq<Comment>, commentId: string)
    requires forall k :: 0 <= k < |comments| ==> comments[k].id != commentId
    ensures WithoutComment(comments, commentId) == comments
  {
    FilterKeepsAll(comments, (c: Comment) => c.id != commentId);
  }

  // ---------------------------------------------------------------------
  // The page

  datatype Screen = Spinner | NotFoundScreen | NoteScreen(note: Note)

  class Page {
    const category: string
    const slug: string
    var note: Option<Note>
    var loading: bool
    var notFound: bool
    var comments: seq<Comment>
    var commentText: string
    var submittingComment: bool

    /** Only a public note of the route's category is ever held. */
    predicate ShowsOnlyAccepted()
      reads this
    {
      note.Some? ==> Accepts(note.value, category)
    }

    /** What the page renders. */
    function View(): (s: Screen)
      reads this
      ensures s.NoteScreen? ==> !loading && !notFound && note == Some(s.note)
      ensures ShowsOnlyAccepted() && s.NoteScreen? ==> Accepts(s.note, category)
    {
      if loading then Spinner
      else if notFound || note.None? then NotFoundScreen
      else NoteScreen(note.value)
    }

    constructor (category: string, slug: string)
      ensures this.category == category && this.slug == slug
      ensures note == None && loading && !notFound && comments == []
      ensures commentText == "" && !submittingComment
      ensures ShowsOnlyAccepted()
    {
      this.category := category;
      this.slug := slug;
      note := None;
      loading := true;
      notFound := false;
      comments := [];
      commentText := "";
      submittingComment := false;
    }

    /** The effect on `[slug, category]`. `noteResult` is what
        `getSingleNote` produced and `commentsResult` what `getComments`
        produced; each is used only if that request is made. */
    method LoadEffect(noteResult: Outcome<Note>, commentsResult: Outcome<seq<Comment>>)
      returns (requests: seq<Request>)
      requires ShowsOnlyAccepted()
      modifies this
      ensures ShowsOnlyAccepted()
      ensures commentText == old(commentText) && submittingComment == old(submittingComment)
      // An empty slug: nothing at all.
      ensures slug == "" ==>
        requests == [] && note == old(note) && loading == old(loading)
        && notFound == old(notFound) && comments == old(comments)
      // Otherwise loading ends, whatever happened.
      ensures slug != "" ==> !loading
      // No 24-character candidate: not found, without a request.
      ensures slug != "" && CandidateId(slug).None? ==>
        requests == [] && notFound && note == old(note) && comments == old(comments)
      // A candidate: the note is requested by that id.
      ensures slug != "" && CandidateId(slug).Some? ==>
        |requests| >= 1 && requests[0] == Call(Api.GetSingleNote(CandidateId(slug).value))
      // The request failed, or the note is private or of another category.
      ensures slug != "" && CandidateId(slug).Some? && (noteResult.Failed? || !Accepts(noteResult.value, category)) ==>
        |requests| == 1 && notFound && note == old(note) && comments == old(comments)
      // The note is accepted: it is held, and its comments are requested by the same id.
      ensures slug != "" && CandidateId(slug).Some? && noteResult.Ok? && Accepts(noteResult.value, category) ==>
        note == Some(noteResult.value)
        && requests == [Call(Api.GetSingleNote(CandidateId(slug).value)), GetComments(CandidateId(slug).value)]
        && (commentsResult.Ok? ==> comments == commentsResult.value && notFound == old(notFound))
        && (commentsResult.Failed? ==> comments == old(comments) && notFound)
    {
      requests := [];
      if slug == "" {
        return;
      }
      var noteId := CandidateId(slug);
      if noteId.None? {
        notFound := true;
        loading := false;
        return;
      }
      requests := [Call(Api.GetSingleNote(noteId.value))];
      match noteResult {
        case Failed(_) =>
          notFound := true;
        case Ok(n) =>
          if !n.isPublic || CategoryName(n.category) != category {
            notFound := true;
          } else {
            note := Some(n);
            requests := requests + [GetComments(noteId.value)];
            match commentsResult {
              case Ok(cs) =>
                comments := cs;
              case Failed(_) =>
                notFound := true;
            }
          }
      }
      loading := false;
    }

    /** `handleAddComment`: a blank text or no note sends nothing; a posted
        comment goes first and clears the input; `submittingComment` ends false. */
    method HandleAddComment(result: Outcome<Comment>) returns (requests: seq<Request>)
      modifies this
      ensures note == old(note) && loading == old(loading) && notFound == old(notFound)
      ensures !submittingComment || (submittingComment == old(submittingComment) && requests == [])
      ensures IsBlank(old(commentText)) || old(note).None? ==>
        requests == [] && comments == old(comments) && commentText == old(commentText)
        && submittingComment == old(submittingComment)
      ensures !IsBlank(old(commentText)) && old(note).Some? ==>
        requests == [AddComment(old(note).value.id, old(commentText))] && !submittingComment
      ensures !IsBlank(old(commentText)) && old(note).Some? && result.Ok? ==>
        comments == [result.value] + old(comments) && commentText == ""
      ensures !IsBlank(old(commentText)) && old(note).Some? && result.Failed? ==>
        comments == old(comments) && commentText == old(commentText)
    {
      requests := [];
      if IsBlank(commentText) || note.None? {
        return;
      }
      requests := PostComment(result);
    }

    /** The part of `handleAddComment` after its guard. */
    method PostComment(result: Outcome<Comment>) returns (requests: seq<Request>)
      requires note.Some?
      modifies this
      ensures note == old(note) && loading == old(loading) && notFound == old(notFound)
      ensures requests == [AddComment(note.value.id, old(commentText))] && !submittingComment
      ensures result.Ok? ==> comments == [result.value] + old(comments) && commentText == ""
      ensures result.Failed? ==> comments == old(comments) && commentText == old(commentText)
    {
      submittingComment := true;
      requests := [AddComment(note.value.id, commentText)];
      match result {
        case Ok(c) =>
          comments := [c] + comments;
          commentText := "";
        case Failed(_) =>
      }
      submittingComment := false;
    }

    /** `handleDeleteComment(commentId)`: only after the user confirms; once
        the call succeeds, exactly the comments with that id go. */
    method HandleDeleteComment(commentId: string, confirmed: bool, result: Outcome<()>)
      returns (requests: seq<Request>)
      modifies this
      ensures note == old(note) && loading == old(loading) && notFound == old(notFound)
      ensures commentText == old(commentText) && submittingComment == old(submittingComment)
      ensures requests == if confirmed then [DeleteComment(commentId)] else []
      ensures comments == if confirmed && result.Ok? then WithoutComment(old(comments), commentId) else old(comments)
    {
      requests := [];
      if !confirmed {
        return;
      }
      requests := [DeleteComment(commentId)];
      if result.Ok? {
        comments := WithoutComment(comments, commentId);
      }
    }
  }
}
