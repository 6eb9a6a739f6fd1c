/** The owner's page for one note (src/pages/NotePage.tsx): loading it,
    editing its content inline with cancel and save, and deleting it. */
module NotePage {
  import opened Common
  import opened Types
  import Api

  const Dashboard := "/dashboard"

  /** The form `handleSaveContent` sends: the edited content and the note's
      current title, category, status and visibility. */
  function SaveForm(content: string, n: Note): (fd: seq<FormEntry>)
    ensures |fd| == 5
  {
    [FormEntry("content", Text(content)),
     FormEntry("title", Text(n.title)),
     FormEntry("category", Text(CategoryName(n.category))),
     FormEntry("status", Text(StatusName(n.status))),
     FormEntry("isPublic", Text(BoolText(n.isPublic)))]
  }

  /** The server reads back the editor's content and the note's own fields. */
  lemma SaveFormFields(content: string, n: Note)
    ensures FormGet(SaveForm(content, n), "content") == Some(Text(content))
    ensures FormGet(SaveForm(content, n), "title") == Some(Text(n.title))
    ensures FormGet(SaveForm(content, n), "category") == Some(Text(CategoryName(n.category)))
    ensures FormGet(SaveForm(content, n), "status") == Some(Text(StatusName(n.status)))
    ensures FormGet(SaveForm(content, n), "isPublic") == Some(Text(if n.isPublic then "true" else "false"))
    ensures FormGet(SaveForm(content, n), "description").None?
  {
    var fd := SaveForm(content, n);
    assert FormGet(fd, "content") == Some(Text(content)) by {
      FormGetAt(fd, 0);
    }
    assert FormGet(fd, "title") == Some(Text(n.title)) by {
      FormGetAt(fd, 1);
    }
    assert FormGet(fd, "category") == Some(Text(CategoryName(n.category))) by {
      FormGetAt(fd, 2);
    }
    assert FormGet(fd, "status") == Some(Text(StatusName(n.status))) by {
      FormGetAt(fd, 3);
    }
    assert FormGet(fd, "isPublic") == Some(Text(BoolText(n.isPublic))) by {
      FormGetAt(fd, 4);
    }
    assert FormGet(fd, "description").None? by {
      FormGetFinds(fd, "description");
    }
  }

  class Page {
    const id: string
    var note: Option<Note>
    var loading: bool
    var editing: bool
    var content: string
    var saving: bool
    /** The last `navigate` target, if any. */
    var navigatedTo: Option<string>

    constructor (id: string)
      ensures this.id == id && note == None && loading && !editing && content == "" && !saving
      ensures navigatedTo == None
    {
      this.id := id;
      note := None;
      loading := true;
      editing := false;
      content := "";
      saving := false;
      navigatedTo := None;
    }

    /** The effect on `[id]`: the note and its content on success, back to
        the dashboard on failure; `loading` ends false. No id: nothing. */
    method LoadEffect(result: Outcome<Note>) returns (calls: seq<Api.ApiCall>)
      modifies this
      ensures editing == old(editing) && saving == old(saving)
      ensures id == "" ==>
        calls == [] && note == old(note) && content == old(content)
        && loading == old(loading) && navigatedTo == old(navigatedTo)
      ensures id != "" ==> calls == [Api.GetSingleNote(id)] && !loading
      ensures id != "" && result.Ok? ==>
        note == Some(result.value) && content == result.value.content && navigatedTo == old(navigatedTo)
      ensures id != "" && result.Failed? ==>
        note == old(note) && content == old(content) && navigatedTo == Some(Dashboard)
    {
      calls := [];
      if id == "" {
        return;
      }
      calls := [Api.GetSingleNote(id)];
      match result {
        case Ok(n) =>
          note := Some(n);
          content := n.content;
        case Failed(_) =>
          navigatedTo := Some(Dashboard);
      }
      loading := false;
    }

    /** The Edit buttons. */
    method StartEdit()
      modifies this
      ensures editing
      ensures note == old(note) && content == old(content) && saving == old(saving)
      ensures loading == old(loading) && navigatedTo == old(navigatedTo)
    {
      editing := true;
    }

    /** Typing in the editor. */
    method EditContent(text: string)
      modifies this
      ensures content == text
      ensures note == old(note) && editing == old(editing) && saving == old(saving)
      ensures loading == old(loading) && navigatedTo == old(navigatedTo)
    {
      content := text;
    }

    /** Cancel: leaves edit mode and throws the typed content away. */
    method CancelEdit()
      requires note.Some?
      modifies this
      ensures note == old(note) && saving == old(saving)
      ensures loading == old(loading) && navigatedTo == old(navigatedTo)
      ensures !editing && content == note.value.content
    {
      editing := false;
      content := note.value.content;
    }

    /** `handleSaveContent`: with a note, sends the content with the note's
        fields; the saved note replaces it and edit mode ends on success,
        edit mode stays on failure. `saving` ends false. */
    method HandleSaveContent(result: Outcome<Note>) returns (calls: seq<Api.ApiCall>)
      modifies this
      ensures content == old(content) && loading == old(loading) && navigatedTo == old(navigatedTo)
      ensures old(note).None? ==>
        calls == [] && note == old(note) && editing == old(editing) && saving == old(saving)
      ensures old(note).Some? ==>
        calls == [Api.EditNote(old(note).value.id, SaveForm(old(content), old(note).value))] && !saving
      ensures old(note).Some? && result.Ok? ==> note == Some(result.value) && !editing
      ensures old(note).Some? && result.Failed? ==> note == old(note) && editing == old(editing)
    {
      calls := [];
      if note.None? {
        return;
      }
      saving := true;
      var fd: seq<FormEntry> := [];
      fd := fd + [FormEntry("content", Text(content))];
      fd := fd + [FormEntry("title", Text(note.value.title))];
      fd := fd + [FormEntry("category", Text(CategoryName(note.value.category)))];
      fd := fd + [FormEntry("status", Text(StatusName(note.value.status)))];
      fd := fd + [FormEntry("isPublic", Text(BoolText(note.value.isPublic)))];
      assert fd == SaveForm(content, note.value);
      calls := [Api.EditNote(note.value.id, fd)];
      match result {
        case Ok(n) =>
          note := Some(n);
          editing := false;
        case Failed(_) =>
      }
      saving := false;
    }

    /** `handleDelete`: only for a loaded note and a confirmed dialog; back
        to the dashboard once the note is deleted. */
    method HandleDelete(confirmed: bool, result: Outcome<()>) returns (calls: seq<Api.ApiCall>)
      modifies this
      ensures note == old(note) && content == old(content) && editing == old(editing) && saving == old(saving)
      ensures loading == old(loading)
      ensures old(note).None? || !confirmed ==> calls == [] && navigatedTo == old(navigatedTo)
      ensures old(note).Some? && confirmed ==>
        calls == [Api.DeleteNote(old(note).value.id)]
        && navigatedTo == (if result.Ok? then Some(Dashboard) else old(navigatedTo))
    {
      calls := [];
      if note.None? || !confirmed {
        return;
      }
      calls := [Api.DeleteNote(note.value.id)];
      if result.Ok? {
        navigatedTo := Some(Dashboard);
      }
    }

    /** The dialog's `onSaved`: the note is fetched again and replaced. */
    method ModalSaved(result: Outcome<Note>) returns (calls: seq<Api.ApiCall>)
      requires note.Some?
      modifies this
      ensures calls == [Api.GetSingleNote(old(note).value.id)]
      ensures note == if result.Ok? then Some(result.value) else old(note)
      ensures content == old(content) && editing == old(editing) && saving == old(saving)
      ensures loading == old(loading) && navigatedTo == old(navigatedTo)
    {
      calls := [Api.GetSingleNote(note.value.id)];
      if result.Ok? {
        note := Some(result.value);
      }
    }
  }
}
