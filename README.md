# notevaultUI client logic in Dafny

notevaultUI is the React client of a note vault. Users keep notes on books, videos,
articles and courses, reorder them by drag and drop, share public notes
through a slug link, comment on shared notes, discover other users and
answer follow requests. Most of the client is markup and axios calls. This
project models the small pieces of logic between those calls and proves what
they promise:

- the slug codec (`slugify`, `noteSharePath`);
- the share-link resolution and its public/category gate;
- the request interceptor, the endpoint paths and `getImageUrl`;
- the session state of `AuthProvider`;
- the list operations of the dashboard, the users page, the profile page and the notifications page;
- the form and validation state machines of the note dialog, the note page and the reset-password page.

Each source file is one module: `Slugify`, `SharedNotePage`, `Api`,
`DashboardPage`, `UsersPage`, `UserProfile`, `NotificationsPage`,
`NoteModal`, `NotePage`, `ResetPasswordPage` and `AuthContext`. Two more
modules support them. `Types` holds the entities of src/types/index.ts.
`Common` holds the JavaScript behaviour the pages depend on:

- the `\s` whitespace class and `trim`;
- `split`/`join` on one character and `Array.prototype.filter`;
- `err.response?.data?.message || fallback`;
- the 60-character link truncation;
- `FormData` and `localStorage`.

Handlers that change React state are methods of a class whose fields are
that state. Each `await`ed request is an `Outcome` parameter: `Ok(value)`, or
`Failed(serverMessage)` for a rejection. Each handler returns the requests it
issued, so "no request is sent" is part of its contract. Pure helpers are
functions, and the lemmas beside them state their properties. `handleDrop`
copies the list into an array and moves the note in place
(`DashboardPage.MoveWithin`). That method is proved against the
specification function `Reposition`.

Where the code and the system's design documentation disagree, the model
follows the code:

- `slugify` has no transliteration table and no 60-character cap. Non-ASCII letters are deleted, because JavaScript's `\w` is ASCII-only.
- `noteSharePath` builds `/share/{category}/{slug}-{last six of id}`, with a `/share/` prefix.
- The shared-note page does not search a listing for a 6-character suffix. It wants a last slug segment of exactly 24 characters, which it fetches as a note id.

The consequence is stated as lemmas, not changed:

- `SharedNotePage.ShareLinkMissesRoute`: a path built by `noteSharePath` never matches the `/:category/:slug` route.
- `SharedNotePage.ShareSlugNeverResolves`: its slug never yields a candidate id.

## Model

| member | source | states |
|---|---|---|
| Common.ErrorText | src/components/NoteModal.tsx:79 | the server's message when there is one, the fallback otherwise; never empty when the fallback is not |
| Common.BoolText | src/components/NoteModal.tsx:66 | `String(b)` is "true" exactly when b holds, "false" otherwise |
| Common.Noun | src/pages/UserProfile.tsx:262 | the noun is the singular exactly when the count is one, and the singular plus "s" otherwise ("note"/"notes" here, "request"/"requests" at src/pages/NotificationsPage.tsx:82) |
| Common.Trim | src/components/NoteModal.tsx:57 | `trim()` is a slice of the input, everything cut off is whitespace, and the result neither starts nor ends with whitespace |
| Common.BlankIffAllSpace | src/pages/SharedNotePage.tsx:77 | `!s.trim()` holds exactly when every character of s is whitespace |
| Common.JoinSplit | src/pages/SharedNotePage.tsx:48 | joining the parts of `split(sep)` with sep gives back the string |
| Common.SplitJoin | src/pages/SharedNotePage.tsx:48 | splitting a join of sep-free parts gives back the parts |
| Common.LastPart | src/pages/SharedNotePage.tsx:50 | the last part of a split contains no separator and is no longer than the string |
| Common.LastPartAfter | src/pages/SharedNotePage.tsx:50 | the last part of `x + sep + y` is y when y has no separator, whatever x is |
| Common.StripPrefix | src/services/api.ts:11 | the rest after a prefix exists exactly when the string starts with it, and prefix + rest is the string |
| Common.Filter | src/pages/DashboardPage.tsx:60 | `filter` keeps an element exactly when it passes the test, and never lengthens the list |
| Common.FilterCount | src/pages/DashboardPage.tsx:60 | each value occurs in the filtered list as often as in the list when it passes the test, and not at all otherwise |
| Common.FilterAppend | src/pages/DashboardPage.tsx:87 | filtering distributes over concatenation, so the relative order is kept |
| Common.ShortLink | src/pages/SharedNotePage.tsx:208 | a link of at most 60 characters is shown unchanged; a longer one as its first 60 characters followed by "..." (src/pages/NotePage.tsx:161 applies the same rule) |
| Common.ShortLinkIdempotent | src/pages/SharedNotePage.tsx:208 | truncating a shown link again changes nothing |
| Common.FormGetFinds | src/components/NoteModal.tsx:61-70 | `FormData.get(name)` finds a value exactly when some entry has that name, and the value found was appended under that name |
| Common.FormGetAt | src/components/NoteModal.tsx:61-70 | the entry at position i is what `get` returns for its name when no earlier entry has that name |
| Common.FormGetAfter | src/components/NoteModal.tsx:68-70 | entries with other names in front of a form do not change what `get` returns for a name |
| Common.LocalStorage.GetItem | src/context/AuthContext.tsx:18 | `getItem` returns the stored value, or null exactly when the key is absent |
| Common.LocalStorage.SetItem | src/context/AuthContext.tsx:35 | `setItem` stores the value under the key and changes no other key |
| Common.LocalStorage.RemoveItem | src/context/AuthContext.tsx:41 | `removeItem` removes exactly that key |
| Types.CategoryName | src/types/index.ts:18 | each category is spelled as the API spells it, a non-empty word with no '/' and no '-' |
| Types.StatusName | src/types/index.ts:19-23 | each status is spelled as the API spells it, non-empty |
| Slugify.Slugify | src/utils/slugify.ts:3-10 | the slug contains only a-z, 0-9 and '-', never starts or ends with '-', and never has two hyphens in a row |
| Slugify.SlugifyFixesSlug | src/utils/slugify.ts:3-10 | a string that already has the slug shape is its own slug |
| Slugify.SlugifyIdempotent | src/utils/slugify.ts:3-10 | slugifying a slug changes nothing |
| Slugify.SlugifyLetters | src/utils/slugify.ts:5-9 | the letters and digits of the slug are those of the text, lower-cased and in the same order; everything else is gone |
| Slugify.SlugifyEmptyIff | src/utils/slugify.ts:2-10 | the slug is empty exactly when the text has no ASCII letter or digit, for example an empty or punctuation-only title |
| Slugify.SlugifyWords | src/utils/slugify.ts:2-10 | words of letters and digits joined by spaces and followed by punctuation become the lower-cased words joined by '-' (the "My Favorite Book!" example) |
| Slugify.LastSix | src/utils/slugify.ts:17 | `id.slice(-6)`: the last six characters, or the whole id when it is shorter |
| Slugify.ShareSuffixRoundTrip | src/utils/slugify.ts:15-19 | the text after the last '-' of a share path is the id's last six characters, whatever the title, when the id has no '-' |
| Api.AuthorizationHeader | src/services/api.ts:10-11 | there is a header exactly when a non-empty token is stored, and it is "Bearer " followed by that token |
| Api.Intercepted | src/services/api.ts:9-13 | the interceptor adds or replaces only `Authorization`; other headers are kept, and without a token the headers are untouched |
| Api.InterceptIdempotent | src/services/api.ts:9-13 | intercepting twice gives the same headers as once |
| Api.BearerRoundTrip | src/services/api.ts:11 | the stored token is recovered from the header it produces |
| Api.Intercept | src/services/api.ts:9-13 | the request config's headers become the intercepted headers for the token read from storage |
| Api.Route | src/services/api.ts:17-88 | every endpoint lies under `/api/v1/` |
| Api.EndpointOf | src/services/api.ts:17-88 | each call has its verb, and its path is the fixed route followed by its path argument (the id or token), if any |
| Api.EndpointKeepsArgument | src/services/api.ts:63-71 | two calls of one route with the same path carry the same argument |
| Api.SingleNoteEndpoint | src/services/api.ts:63 | `getSingleNote(id)` is a GET of `/api/v1/notes/` + id |
| Api.ResetPasswordEndpoint | src/services/api.ts:32-33 | `resetPassword(token, p)` is a POST to `/api/v1/auth/reset-password/` + token |
| Api.GetImageUrl | src/services/api.ts:93-94 | the URL is empty exactly when the filename is, and otherwise is the uploads root followed by the filename unchanged |
| Api.ImageUrlInjective | src/services/api.ts:93-94 | different filenames give different URLs |
| Api.ImageUrlSuffix | src/services/api.ts:93-94 | a non-empty filename appears verbatim as the URL's suffix |
| AuthContext.AuthProvider.constructor | src/context/AuthContext.tsx:17-19 | no user, the token read from `nv_token`, loading |
| AuthContext.AuthProvider.Init | src/context/AuthContext.tsx:21-30 | without a token: no request. With one: `getMe`, then success sets the user and failure logs out. Loading ends false; token and storage stay in step |
| AuthContext.AuthProvider.Login | src/context/AuthContext.tsx:32-38 | one login request. Success stores the returned token under `nv_token` and sets token and user, so the interceptor sends it. Failure changes nothing and is reported to the caller |
| AuthContext.AuthProvider.Logout | src/context/AuthContext.tsx:40-44 | `nv_token` is removed and no other key is; token and user become null; no Authorization header follows |
| AuthContext.AuthProvider.UpdateUser | src/context/AuthContext.tsx:46 | only the user changes; token and storage are unchanged |
| SharedNotePage.CandidateId | src/pages/SharedNotePage.tsx:48-51 | there is a candidate exactly when the slug's last '-' segment has 24 characters, and it is that segment |
| SharedNotePage.CandidateIdAfterHyphen | src/pages/SharedNotePage.tsx:48-51 | a 24-character id after any prefix and '-' is recovered |
| SharedNotePage.CandidateIdWhole | src/pages/SharedNotePage.tsx:48-51 | a slug without '-' is its own candidate when it has 24 characters |
| SharedNotePage.RouteParams | src/App.tsx:58 | `/:category/:slug` matches exactly two non-empty segments without '/', followed by any run of slashes, and yields those segments |
| SharedNotePage.RouteParamsOf | src/App.tsx:58 | a two-segment path, with any number of trailing slashes, yields its two segments |
| SharedNotePage.SlugPathMissesRoute | src/utils/slugify.ts:18 | a path `/share/c/slug-six` has three segments and never matches the route |
| SharedNotePage.ShareLinkMissesRoute | src/utils/slugify.ts:15-19 | no path built by `noteSharePath` matches the `/:category/:slug` route |
| SharedNotePage.ShareSlugNeverResolves | src/pages/SharedNotePage.tsx:51 | the slug part of a share path never has a 24-character last segment, so it never yields a note |
| SharedNotePage.AcceptsOnlyItsCategory | src/pages/SharedNotePage.tsx:63 | an accepted note is public and of the route's category |
| SharedNotePage.WithoutComment | src/pages/SharedNotePage.tsx:94 | no remaining comment has the deleted id |
| SharedNotePage.WithoutCommentKeepsOthers | src/pages/SharedNotePage.tsx:94 | every other comment keeps its number of occurrences |
| SharedNotePage.WithoutCommentAppend | src/pages/SharedNotePage.tsx:94 | removal distributes over concatenation, so the remaining comments keep their order |
| SharedNotePage.WithoutAbsentComment | src/pages/SharedNotePage.tsx:94 | deleting an id no comment has leaves the list unchanged |
| SharedNotePage.Page.View | src/pages/SharedNotePage.tsx:100-107 | the note is shown only when loading is over, nothing is not-found and a note is set, and then it is accepted for the category |
| SharedNotePage.Page.constructor | src/pages/SharedNotePage.tsx:36-41 | no note, loading, not not-found, no comments, an empty comment box |
| SharedNotePage.Page.LoadEffect | src/pages/SharedNotePage.tsx:43-73 | empty slug: nothing happens and nothing is fetched. No 24-character id: not-found, no fetch. Otherwise the note is fetched by that id, and only a public note of the route's category is set, then its comments fetched by the same id. Any failure gives not-found. Loading ends false on every path |
| SharedNotePage.Page.HandleAddComment | src/pages/SharedNotePage.tsx:75-88 | a blank comment or a missing note sends nothing. Otherwise one `addComment` for the note and text; success prepends the comment and clears the box, failure keeps both. Submitting ends false |
| SharedNotePage.Page.PostComment | src/pages/SharedNotePage.tsx:78-87 | the request and its outcome for a note that is loaded, as in HandleAddComment |
| SharedNotePage.Page.HandleDeleteComment | src/pages/SharedNotePage.tsx:90-98 | unconfirmed: nothing. Confirmed: one delete request, and on success exactly the comments with that id leave the list |
| DashboardPage.FetchParams | src/pages/DashboardPage.tsx:40-43 | category and status are sent only when not 'all', search only when non-empty, with their API spellings, and nothing else |
| DashboardPage.FindIndex | src/pages/DashboardPage.tsx:73-74 | `findIndex`: the first note with the id, or -1 exactly when none has it |
| DashboardPage.SpliceStart | src/pages/DashboardPage.tsx:76-77 | where `splice` starts: the index itself when in range, counted from the end when negative |
| DashboardPage.Reposition | src/pages/DashboardPage.tsx:75-77 | removing at one index and inserting at another keeps the length and puts the moved element at the target |
| DashboardPage.DropResult | src/pages/DashboardPage.tsx:73-77 | the two splices of a drop keep the length |
| DashboardPage.RepositionPermutes | src/pages/DashboardPage.tsx:75-77 | the moved list is a permutation of the old one |
| DashboardPage.RepositionKeepsOrder | src/pages/DashboardPage.tsx:75-77 | without the moved element, both lists are the same, so the others keep their relative order |
| DashboardPage.DropMovesDragged | src/pages/DashboardPage.tsx:73-78 | with both ids present, the dragged note ends at the target's old index, the list is a permutation, and the others keep their order |
| DashboardPage.DropOfMissingNote | src/pages/DashboardPage.tsx:73-78 | an absent dragged id makes `splice(-1, 1)` move the last note, and the list is still a permutation |
| DashboardPage.OrderUpdates | src/pages/DashboardPage.tsx:80 | one update per note, with the note's id and `order == i` at position i |
| DashboardPage.DropPayloadCoversNotes | src/pages/DashboardPage.tsx:73-81 | the reorder payload names every note as often as the list did, with strictly increasing orders |
| DashboardPage.CountByCategory | src/pages/DashboardPage.tsx:86-87 | 'all' counts every note; a category counts at most every note |
| DashboardPage.CategoryCountsSum | src/pages/DashboardPage.tsx:86-87 | the five category counts add up to the 'all' count |
| DashboardPage.DropKeepsCounts | src/pages/DashboardPage.tsx:73-87 | a drop does not change any category's count |
| DashboardPage.WithoutNote | src/pages/DashboardPage.tsx:60 | no remaining note has the deleted id |
| DashboardPage.WithoutNoteKeepsOthers | src/pages/DashboardPage.tsx:60 | every other note keeps its number of occurrences |
| DashboardPage.WithoutNoteAppend | src/pages/DashboardPage.tsx:60 | deletion distributes over concatenation, so the remaining notes keep their order |
| DashboardPage.Reorder | src/pages/DashboardPage.tsx:75-77 | copying the list and splicing it in place gives the drop result |
| DashboardPage.MoveWithin | src/pages/DashboardPage.tsx:76-77 | the in-place move of an array element leaves the array equal to `Reposition` of its old contents |
| DashboardPage.Page.constructor | src/pages/DashboardPage.tsx:26-35 | no notes, loading, no filters, no drag in progress |
| DashboardPage.Page.FetchNotes | src/pages/DashboardPage.tsx:37-51 | one `getMyNotes` with the filter parameters; success replaces the notes, failure keeps them; loading ends false; filters and drag state unchanged |
| DashboardPage.Page.HandleDelete | src/pages/DashboardPage.tsx:58-61 | one delete request; only on success do the notes with that id leave the list; loading, the drag state and the search, category and status filters are unchanged |
| DashboardPage.Page.HandleDragStart | src/pages/DashboardPage.tsx:64 | the dragged id is set; the notes, the hovered id, loading and the three filters are unchanged |
| DashboardPage.Page.HandleDragOver | src/pages/DashboardPage.tsx:65-68 | the hovered id is set; the notes, the dragged id, loading and the three filters are unchanged |
| DashboardPage.Page.HandleDrop | src/pages/DashboardPage.tsx:69-84 | no dragged id, or a drop onto itself: nothing happens. Otherwise the list becomes the drop result and one reorder request carries its order updates. The drag state is cleared only after that request succeeds. Loading and the three filters are unchanged in every case |
| DashboardPage.Page.DropAt | src/pages/DashboardPage.tsx:75-83 | with both indices found or -1, the list becomes the drop result and one reorder request carries its order updates; the drag state is cleared exactly on success; loading and the three filters are unchanged |
| UsersPage.Upper | src/pages/UsersPage.tsx:35 | `toUpperCase` maps each ASCII lower-case letter to its capital and keeps every other character |
| UsersPage.Initials | src/pages/UsersPage.tsx:35 | initials have at most two characters, and no more than the name (the avatar of src/pages/UserProfile.tsx:77 uses the same expression) |
| UsersPage.InitialsOfFullName | src/pages/UsersPage.tsx:35 | "Name Surname" gives the two capitalised first letters |
| UsersPage.InitialsOfSpaces | src/pages/UsersPage.tsx:35 | a name of spaces only gives no initials (each `n[0]` is undefined) |
| UsersPage.BioView | src/pages/UsersPage.tsx:65-71 | a bio is shown only for a public profile that has one; a non-public profile always shows the private notice |
| UsersPage.DiscoverParams | src/pages/UsersPage.tsx:114 | search is sent only when non-empty; limit 20 and skip are always sent |
| UsersPage.Page.constructor | src/pages/UsersPage.tsx:102-107 | no users, empty search, loading, more to load, skip 0 |
| UsersPage.Page.StartFetch | src/pages/UsersPage.tsx:112-114 | a reset raises loading, a load-more raises loadingMore; one discover request with the page's parameters; the list is untouched until the answer |
| UsersPage.Page.FinishFetch | src/pages/UsersPage.tsx:115-124 | success replaces the list on reset or appends the page, sets hasMore to (page size == 20) and skip to skipVal + page size. Failure keeps list, skip and hasMore. Both flags end false, and skip keeps counting the listed users |
| UsersPage.Page.LoadMore | src/pages/UsersPage.tsx:190 | while loadingMore, no request and no flag changes; otherwise one request from the current search and skip, with loadingMore raised and loading unchanged; users, skip, hasMore and search unchanged |
| UsersPage.Page.HandleSearch | src/pages/UsersPage.tsx:129-133 | the search text is set and a reset fetch from skip 0 is issued, with loading raised and loadingMore unchanged; users, skip and hasMore unchanged |
| UserProfile.OwnerIdOf | src/pages/UserProfile.tsx:171 | the owner id is the string itself, the populated user's id, or absent |
| UserProfile.ProfileNotes | src/pages/UserProfile.tsx:170-173 | a note is kept exactly when its owner id equals the profile's user id |
| UserProfile.ProfileNotesCount | src/pages/UserProfile.tsx:170-173 | a kept note occurs as often as before, a dropped one not at all |
| UserProfile.ProfileNotesAppend | src/pages/UserProfile.tsx:170-173 | the filter distributes over concatenation, so it keeps the order |
| UserProfile.ProfileNotesIdempotent | src/pages/UserProfile.tsx:170-173 | filtering twice equals filtering once |
| UserProfile.ProfileNotesAllOwned | src/pages/UserProfile.tsx:170-173 | a list of the user's notes only is kept whole |
| UserProfile.View | src/pages/UserProfile.tsx:203-256 | private exactly when the privacy mode is not 'public'. Bio and LinkedIn are shown only when present and not private; the notes section only when not private; the private notice and locked vault only when private |
| UserProfile.PrivateHidesEverything | src/pages/UserProfile.tsx:203-256 | for a private profile the view does not depend on bio or link and shows neither, nor the notes |
| UserProfile.CardCover | src/pages/UserProfile.tsx:92-110 | a cover image exactly when the category is not 'general' and cover is non-empty. Otherwise the plain cover uses the note's colour only for 'general' and the icon only for the others |
| UserProfile.GeneralNoteIsColoured | src/pages/UserProfile.tsx:92-110 | a general note always gets its colour and no image |
| UserProfile.StatusLabel | src/pages/UserProfile.tsx:49-52 | the four known statuses have their labels; any other status is shown as it is (an `Object.prototype` property name is not modelled, see "## Left out") |
| UserProfile.KnownStatusesLabelled | src/pages/UserProfile.tsx:122 | every status of the API gets a label that differs from its raw spelling |
| NotificationsPage.NotificationText | src/pages/NotificationsPage.tsx:44-57 | the fixed sentence for each follow type; `commented on "<title or 'your note'>"` for comments; "" for any other type |
| NotificationsPage.NotificationIcon | src/pages/NotificationsPage.tsx:59-70 | follow_request and follow_accepted share the add icon, follow_removed the remove icon, comment the message icon; all others the bell |
| NotificationsPage.BellIffNoText | src/pages/NotificationsPage.tsx:44-70 | the default bell is drawn exactly for the notifications without text |
| NotificationsPage.NavigationTarget | src/pages/NotificationsPage.tsx:142 | a click navigates exactly when the notification has a note, to `/notes/` + its id |
| NotificationsPage.WithoutRequest | src/pages/NotificationsPage.tsx:38 | a request remains exactly when it was there and has another id |
| NotificationsPage.WithoutRequestKeepsOthers | src/pages/NotificationsPage.tsx:38 | other requests keep their number of occurrences |
| NotificationsPage.WithoutRequestAppend | src/pages/NotificationsPage.tsx:38 | removal distributes over concatenation, so the order is kept |
| NotificationsPage.Page.constructor | src/pages/NotificationsPage.tsx:9-11 | no requests, no notifications, loading |
| NotificationsPage.Page.FetchData | src/pages/NotificationsPage.tsx:17-33 | both lists are requested; only when both arrive are they set and the notifications marked read; loading ends false |
| NotificationsPage.Page.HandleRespond | src/pages/NotificationsPage.tsx:35-42 | one response request; only on success does the request with that id leave the list |
| NoteModal.SubmitForm | src/components/NoteModal.tsx:61-70 | the form holds the six required entries and at most three optional ones |
| NoteModal.SubmitFormRequired | src/components/NoteModal.tsx:62-67 | title, description, category, status, isPublic ("true"/"false") and coverColor are always there with the dialog's values |
| NoteModal.SubmitFormOptional | src/components/NoteModal.tsx:68-70 | author and link are there exactly when non-empty, and cover exactly when a file was chosen, with those values |
| NoteModal.SubmitFormFields | src/components/NoteModal.tsx:61-70 | title, description, category, status, isPublic and coverColor read back as the dialog's values; author, link and cover read back when given and are absent otherwise |
| NoteModal.SubmitCall | src/components/NoteModal.tsx:72-76 | an edit of the editing note's id exactly when there is one, a create otherwise, always with the form |
| NoteModal.Modal.constructor | src/components/NoteModal.tsx:30-41 | with an editing note, its values, its colour falling back to #6c63ff when empty; without one, category general, status currently_reading, not public, colour #6c63ff and empty text; no file, not loading, no error |
| NoteModal.Modal.HandleFile | src/components/NoteModal.tsx:49-54 | a chosen file replaces the cover file; no choice keeps it; every other field of the dialog is unchanged |
| NoteModal.Modal.BuildForm | src/components/NoteModal.tsx:61-70 | the appended entries are the submit form of the dialog's fields |
| NoteModal.Modal.Send | src/components/NoteModal.tsx:58-82 | exactly one create-or-edit request with the form; loading ends false; saved exactly on success; failure shows the server message or "Something went wrong" |
| NoteModal.Modal.HandleSubmit | src/components/NoteModal.tsx:56-83 | a blank title sets "Title is required", sends nothing and leaves loading as it was; otherwise as Send |
| NotePage.SaveForm | src/pages/NotePage.tsx:51-56 | the save form has five entries, one per field appended |
| NotePage.SaveFormFields | src/pages/NotePage.tsx:51-56 | it carries the edited content and the note's title, category, status and visibility with their API spellings, and no description |
| NotePage.Page.constructor | src/pages/NotePage.tsx:29-33 | no note, loading, not editing, empty content, not saving |
| NotePage.Page.LoadEffect | src/pages/NotePage.tsx:36-45 | no id: nothing. Otherwise one fetch of the note. Success sets the note and the editor content to its content; failure navigates to /dashboard. Loading ends false |
| NotePage.Page.StartEdit | src/pages/NotePage.tsx:190 | edit mode starts; note, content, saving, loading and the navigation target unchanged |
| NotePage.Page.EditContent | src/pages/NotePage.tsx:203 | the editor's text becomes the content; note, edit mode, saving, loading and the navigation target unchanged |
| NotePage.Page.CancelEdit | src/pages/NotePage.tsx:173 | edit mode ends and the content is restored to the note's; note, saving, loading and the navigation target unchanged |
| NotePage.Page.HandleSaveContent | src/pages/NotePage.tsx:47-65 | no note: nothing. Otherwise one edit of the note with the save form. Success replaces the note and leaves edit mode; failure keeps note and edit mode. Saving ends false |
| NotePage.Page.HandleDelete | src/pages/NotePage.tsx:67-71 | only with a loaded note and confirmation: one delete, and success navigates to /dashboard; note, content, edit mode, saving and loading unchanged |
| NotePage.Page.ModalSaved | src/pages/NotePage.tsx:229-232 | the note is fetched again by id, and replaced on success; content, edit mode, saving, loading and the navigation target unchanged |
| ResetPasswordPage.Page.constructor | src/pages/ResetPasswordPage.tsx:7-14 | empty passwords, not loading, no success, no error, nothing scheduled |
| ResetPasswordPage.Page.HandleSubmit | src/pages/ResetPasswordPage.tsx:16-35 | mismatched passwords set "Passwords do not match" and send nothing, before the token is looked at. A missing token changes nothing. Otherwise one reset request for the token and password; success sets success and schedules /login after 2000 ms; failure shows the server message or "Failed to reset password". Loading ends false |

## Left out

- Rendering: JSX markup, styling classes, icons and animations. NoteCard.tsx, Layout.tsx, the markup of every page and tailwind.config.js are presentation. Only the conditions deciding what a page shows are modelled, as `View` functions.
- LandingPage.tsx: its counter animation and static markup.
- RichTextEditor.tsx: a wrapper over the tiptap editor that none of the modelled pages uses. The note page edits its content in a plain textarea, whose `onChange` is `NotePage.Page.EditContent`.
- The route table of App.tsx. Only the `/:category/:slug` pattern at line 58 is modelled, by `SharedNotePage.RouteParams`, without URI decoding.
- LoginPage.tsx, RegisterPage.tsx, ProfilePage.tsx and ForgotPasswordPage.tsx. They copy fields into one request and show the server's error, the same pattern as NoteModal. DiscoverPage.tsx is not part of this model.
- The axios transport, HTTP status codes and response parsing. A response is its body or a rejection with the server's message.
- Stale responses and effect re-runs. Each handler runs to completion before the next event, so the model does not capture two overlapping requests answered out of order.
- Debounce timers. The dashboard's 300 ms delay and the users page's 400 ms delay are not modelled: the fetch is issued directly. The reset page's `setTimeout` is recorded in its `scheduled` field rather than run.
- `confirm()` dialogs are a `confirmed` parameter.
- `console.error` is dropped. The handlers that only log a failure are modelled as leaving state unchanged.
- The comment, follow-request and notification endpoints are imported by the pages but api.ts does not define them. They are page-local request constructors, with no path.
- The `coverPreview` object URL in NoteModal, and the body's overflow style.
- UserProfile.tsx fetches the profile and up to 50 discovered notes, and raises loading flags. Those fetches are not modelled; the owner filter they feed is.
- `loading` in NotificationsPage.Page.FetchData is raised and lowered in one step. `markNotificationsRead` is recorded as issued, but its outcome is not a parameter: a failure there only logs, after both lists are set.
- Optional strings of the entity types are "" when absent, so `x || ''` is the identity in the model. The reset page's missing route token is "".
- Upper- and lower-casing are ASCII-only, and lengths count code points, not UTF-16 units. JavaScript's full Unicode case mapping is not modelled. For upper-casing, `ß` becomes `SS`. For lower-casing, the Kelvin sign U+212A becomes `k` and U+0130 becomes `i` plus U+0307. These ASCII letters survive the deletion step, so the program slugifies U+212A to "k" where the model gives "". Slugify.SlugifyLetters and Slugify.SlugifyEmptyIff hold for the model's ASCII casing only.
- DashboardPage.Page.HandleDrop: requires a non-empty list. A drop target is a rendered card, so the list is never empty when a drop happens.
- UserProfile.StatusLabel: `STATUS_LABELS` is a plain object, so a status that names an `Object.prototype` property ("toString", "constructor", "__proto__", ...) finds an inherited value there, which React renders as nothing or rejects. The model shows such a status as it is. The API's statuses are the four of `NoteStatus`, none of which is such a name.
- NoteModal.Modal.HandleFile: the `files?.[0]` lookup is an `Option` of the chosen file's name.
