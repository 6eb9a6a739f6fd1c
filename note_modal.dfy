/** The create/edit note dialog (src/components/NoteModal.tsx): its initial
    field values, the title check, the multipart form it sends and the
    choice between creating and editing. */
module NoteModal {
  import opened Common
  import opened Types
  import Api

  const DefaultCoverColor := "#6c63ff"
  const TitleRequired := "Title is required"
  const SubmitFailed := "Something went wrong"

  /** The six fields every submitted form carries, in the order they are appended. */
  function RequiredEntries(title: string, description: string, category: Category, status: Status,
                           isPublic: bool, coverColor: string): (fd: seq<FormEntry>)
    ensures |fd| == 6
  {
    [FormEntry("title", Text(title)),
     FormEntry("description", Text(description)),
     FormEntry("category", Text(CategoryName(category))),
     FormEntry("status", Text(StatusName(status))),
     FormEntry("isPublic", Text(BoolText(isPublic))),
     FormEntry("coverColor", Text(coverColor))]
  }

  function AuthorEntry(author: string): seq<FormEntry> {
    if author != "" then [FormEntry("author", Text(author))] else []
  }

  function LinkEntry(link: string): seq<FormEntry> {
    if link != "" then [FormEntry("link", Text(link))] else []
  }

  function CoverEntry(coverFile: Option<string>): seq<FormEntry> {
    match coverFile
    case Some(f) => [FormEntry("cover", File(f))]
    case None => []
  }

  /** The form `handleSubmit` sends: the six fields always, then author,
      link and cover file only when there is one. */
  function SubmitForm(title: string, description: string, category: Category, status: Status,
                      isPublic: bool, coverColor: string, author: string, link: string,
                      coverFile: Option<string>): (fd: seq<FormEntry>)
    ensures 6 <= |fd| <= 9
  {
    RequiredEntries(title, description, category, status, isPublic, coverColor)
      + AuthorEntry(author) + LinkEntry(link) + CoverEntry(coverFile)
  }

  /** The server reads every required field back as the dialog held it. */
  lemma SubmitFormRequired(title: string, description: string, category: Category, status: Status,
                           isPublic: bool, coverColor: string, optional: seq<FormEntry>)
    ensures var fd := RequiredEntries(title, description, category, status, isPublic, coverColor) + optional;
      && FormGet(fd, "title") == Some(Text(title))
      && FormGet(fd, "description") == Some(Text(description))
      && FormGet(fd, "category") == Some(Text(CategoryName(category)))
      && FormGet(fd, "status") == Some(Text(StatusName(status)))
      && FormGet(fd, "isPublic") == Some(Text(if isPublic then "true" else "false"))
      && FormGet(fd, "coverColor") == Some(Text(coverColor))
  {
    var fd := RequiredEntries(title, description, category, status, isPublic, coverColor) + optional;
    assert fd[0] == FormEntry("title", Text(title));
    assert fd[1] == FormEntry("description", Text(description));
    assert fd[2] == FormEntry("category", Text(CategoryName(category)));
    assert fd[3] == FormEntry("status", Text(StatusName(status)));
    assert fd[4] == FormEntry("isPublic", Text(BoolText(isPublic)));
    assert fd[5] == FormEntry("coverColor", Text(coverColor));
    assert FormGet(fd, "title") == Some(Text(title)) by {
      FormGetAt(fd, 0);
    }
    assert FormGet(fd, "description") == Some(Text(description)) by {
      FormGetAt(fd, 1);
    }
    assert FormGet(fd, "category") == Some(Text(CategoryName(category))) by {
      FormGetAt(fd, 2);
    }
    assert FormGet(fd, "status") == Some(Text(StatusName(status))) by {
      FormGetAt(fd, 3);
    }
    assert FormGet(fd, "isPublic") == Some(Text(BoolText(isPublic))) by {
      FormGetAt(fd, 4);
    }
    assert FormGet(fd, "coverColor") == Some(Text(coverColor)) by {
      FormGetAt(fd, 5);
    }
  }

  /** Author, link and cover are in the form exactly when they were given. */
  lemma SubmitFormOptional(required: seq<FormEntry>, author: string, link: string, coverFile: Option<string>)
    requires forall k :: 0 <= k < |required| ==> required[k].name !in {"author", "link", "cover"}
    ensures var fd := required + AuthorEntry(author) + LinkEntry(link) + CoverEntry(coverFile);
      && FormGet(fd, "author") == (if author != "" then Some(Text(author)) else None)
      && FormGet(fd, "link") == (if link != "" then Some(Text(link)) else None)
      && FormGet(fd, "cover") == (if coverFile.Some? then Some(File(coverFile.value)) else None)
  {
    OptionalAuthor(required, author, link, coverFile);
    OptionalLink(required, author, link, coverFile);
    OptionalCover(required, author, link, coverFile);
  }

  lemma OptionalAuthor(required: seq<FormEntry>, author: string, link: string, coverFile: Option<string>)
    requires forall k :: 0 <= k < |required| ==> required[k].name !in {"author", "link", "cover"}
    ensures FormGet(required + AuthorEntry(author) + LinkEntry(link) + CoverEntry(coverFile), "author")
      == if author != "" then Some(Text(author)) else None
  {
    var a := AuthorEntry(author);
    var lc := LinkEntry(link) + CoverEntry(coverFile);
    assert required + a + LinkEntry(link) + CoverEntry(coverFile) == required + (a + lc);
    FormGetAfter(required, a + lc, "author");
    if author != "" {
      FormGetAt(a + lc, 0);
    } else {
      assert a + lc == lc;
      FormGetFinds(lc, "author");
    }
  }

  lemma OptionalLink(required: seq<FormEntry>, author: string, link: string, coverFile: Option<string>)
    requires forall k :: 0 <= k < |required| ==> required[k].name !in {"author", "link", "cover"}
    ensures FormGet(required + AuthorEntry(author) + LinkEntry(link) + CoverEntry(coverFile), "link")
      == if link != "" then Some(Text(link)) else None
  {
    var front := required + AuthorEntry(author);
    var l := LinkEntry(link);
    var c := CoverEntry(coverFile);
    assert front + l + c == front + (l + c);
    FormGetAfter(front, l + c, "link");
    if link != "" {
      FormGetAt(l + c, 0);
    } else {
      assert l + c == c;
      FormGetFinds(c, "link");
    }
  }

  lemma OptionalCover(required: seq<FormEntry>, author: string, link: string, coverFile: Option<string>)
    requires forall k :: 0 <= k < |required| ==> required[k].name !in {"author", "link", "cover"}
    ensures FormGet(required + AuthorEntry(author) + LinkEntry(link) + CoverEntry(coverFile), "cover")
      == if coverFile.Some? then Some(File(coverFile.value)) else None
  {
    var front := required + AuthorEntry(author) + LinkEntry(link);
    var c := CoverEntry(coverFile);
    FormGetAfter(front, c, "cover");
    if coverFile.Some? {
      FormGetAt(c, 0);
    }
  }

  /** Every field of a submitted form, as the server reads it. */
  lemma SubmitFormFields(title: string, description: string, category: Category, status: Status,
                         isPublic: bool, coverColor: string, author: string, link: string,
                         coverFile: Option<string>)
    ensures var fd := SubmitForm(title, description, category, status, isPublic, coverColor, author, link, coverFile);
      && FormGet(fd, "title") == Some(Text(title))
      && FormGet(fd, "description") == Some(Text(description))
      && FormGet(fd, "category") == Some(Text(CategoryName(category)))
      && FormGet(fd, "status") == Some(Text(StatusName(status)))
      && FormGet(fd, "coverColor") == Some(Text(coverColor))
      && FormGet(fd, "isPublic") == Some(Text(if isPublic then "true" else "false"))
      && FormGet(fd, "author") == (if author != "" then Some(Text(author)) else None)
      && FormGet(fd, "link") == (if link != "" then Some(Text(link)) else None)
      && FormGet(fd, "cover") == (if coverFile.Some? then Some(File(coverFile.value)) else None)
  {
    var required := RequiredEntries(title, description, category, status, isPublic, coverColor);
    var optional := AuthorEntry(author) + LinkEntry(link) + CoverEntry(coverFile);
    assert SubmitForm(title, description, category, status, isPublic, coverColor, author, link, coverFile)
      == required + optional;
    SubmitFormRequired(title, description, category, status, isPublic, coverColor, optional);
    SubmitFormOptional(required, author, link, coverFile);
  }

  /** Where the dialog sends its form: an edit of the note it was opened
      for, or a new note. */
  function SubmitCall(editingNote: Option<Note>, fd: seq<FormEntry>): (call: Api.ApiCall)
    ensures call.EditNote? <==> editingNote.Some?
    ensures call.CreateNote? <==> editingNote.None?
    ensures call.EditNote? ==> call.id == editingNote.value.id && call.form == fd
    ensures call.CreateNote? ==> call.form == fd
  {
    if editingNote.Some? then Api.EditNote(editingNote.value.id, fd) else Api.CreateNote(fd)
  }

  class Modal {
    const editingNote: Option<Note>
    var category: Category
    var title: string
    var description: string
    var author: string
    var link: string
    var status: Status
    var isPublic: bool
    var coverColor: string
    var coverFile: Option<string>
    var loading: bool
    var error: string

    /** The fields start from the note being edited, each falling back to
        its default when the note's value is empty; a new note starts from
        the defaults. */
    constructor (editingNote: Option<Note>)
      ensures this.editingNote == editingNote
      ensures editingNote.None? ==>
        category == General && title == "" && description == "" && author == "" && link == ""
        && status == CurrentlyReading && !isPublic && coverColor == DefaultCoverColor
      ensures editingNote.Some? ==>
        var n := editingNote.value;
        category == n.category && title == n.title && description == n.description
        && author == n.author && link == n.link && status == n.status && isPublic == n.isPublic
        && coverColor == (if n.coverColor != "" then n.coverColor else DefaultCoverColor)
      ensures coverFile == None && !loading && error == ""
    {
      this.editingNote := editingNote;
      match editingNote {
        case None =>
          category := General;
          title := "";
          description := "";
          author := "";
          link := "";
          status := CurrentlyReading;
          isPublic := false;
          coverColor := DefaultCoverColor;
        case Some(n) =>
          category := n.category;
          title := n.title;
          description := n.description;
          author := n.author;
          link := n.link;
          status := n.status;
          isPublic := n.isPublic;
          coverColor := if n.coverColor != "" then n.coverColor else DefaultCoverColor;
      }
      coverFile := None;
      loading := false;
      error := "";
    }

    /** `handleFile`: a chosen file becomes the cover; no file changes nothing. */
    method HandleFile(chosen: Option<string>)
      modifies this
      ensures coverFile == if chosen.Some? then chosen else old(coverFile)
      ensures title == old(title) && description == old(description) && category == old(category)
        && status == old(status) && isPublic == old(isPublic) && coverColor == old(coverColor)
        && author == old(author) && link == old(link)
      ensures loading == old(loading) && error == old(error)
    {
      if chosen.Some? {
        coverFile := chosen;
      }
    }

    /** The form of `handleSubmit`, appended field by field. */
    method BuildForm() returns (fd: seq<FormEntry>)
      ensures fd == SubmitForm(title, description, category, status, isPublic, coverColor, author, link, coverFile)
    {
      fd := [];
      fd := fd + [FormEntry("title", Text(title))];
      fd := fd + [FormEntry("description", Text(description))];
      fd := fd + [FormEntry("category", Text(CategoryName(category)))];
      fd := fd + [FormEntry("status", Text(StatusName(status)))];
      fd := fd + [FormEntry("isPublic", Text(BoolText(isPublic)))];
      fd := fd + [FormEntry("coverColor", Text(coverColor))];
      assert fd == RequiredEntries(title, description, category, status, isPublic, coverColor);
      if author != "" {
        fd := fd + [FormEntry("author", Text(author))];
      }
      assert fd == RequiredEntries(title, description, category, status, isPublic, coverColor) + AuthorEntry(author);
      if link != "" {
        fd := fd + [FormEntry("link", Text(link))];
      }
      assert fd == RequiredEntries(title, description, category, status, isPublic, coverColor)
        + AuthorEntry(author) + LinkEntry(link);
      if coverFile.Some? {
        fd := fd + [FormEntry("cover", File(coverFile.value))];
      }
    }

    /** The part of `handleSubmit` after the title check: the form goes to
        `editNote` for an edited note and to `createNote` for a new one;
        success calls `onSaved` (`saved`), failure shows the server's
        message or the fallback. `loading` ends false. */
    method Send(result: Outcome<()>) returns (calls: seq<Api.ApiCall>, saved: bool)
      modifies this
      ensures title == old(title) && description == old(description) && category == old(category)
        && status == old(status) && isPublic == old(isPublic) && coverColor == old(coverColor)
        && author == old(author) && link == old(link) && coverFile == old(coverFile)
      ensures calls == [SubmitCall(editingNote,
                                   SubmitForm(title, description, category, status, isPublic, coverColor, author, link, coverFile))]
      ensures !loading && (saved <==> result.Ok?)
      ensures result.Ok? ==> error == ""
      ensures result.Failed? ==> error == ErrorText(result.serverMessage, SubmitFailed)
    {
      var fd := BuildForm();
      calls := [SubmitCall(editingNote, fd)];
      loading := true;
      error := "";
      match result {
        case Ok(_) =>
          saved := true;
        case Failed(message) =>
          error := ErrorText(message, SubmitFailed);
          saved := false;
      }
      loading := false;
    }

    /** `handleSubmit`: a blank title only sets the error; any other title
        is sent. */
    method HandleSubmit(result: Outcome<()>) returns (calls: seq<Api.ApiCall>, saved: bool)
      modifies this
      ensures title == old(title) && description == old(description) && category == old(category)
        && status == old(status) && isPublic == old(isPublic) && coverColor == old(coverColor)
        && author == old(author) && link == old(link) && coverFile == old(coverFile)
      ensures IsBlank(title) ==>
        error == TitleRequired && calls == [] && !saved && loading == old(loading)
      ensures !IsBlank(title) ==>
        calls == [SubmitCall(editingNote,
                             SubmitForm(title, description, category, status, isPublic, coverColor, author, link, coverFile))]
      ensures !IsBlank(title) ==> !loading && (saved <==> result.Ok?)
      ensures !IsBlank(title) && result.Ok? ==> error == ""
      ensures !IsBlank(title) && result.Failed? ==> error == ErrorText(result.serverMessage, SubmitFailed)
    {
      if IsBlank(title) {
        error := TitleRequired;
        calls := [];
        saved := false;
      } else {
        calls, saved := Send(result);
      }
    }
  }
}
