# Bright Ants admin console — a Dafny model of its decision rules

The Bright Ants admin console is a React single-page application. Through it,
an administrator manages the content of a marketing site: offers, promotional
offers, testimonials, attorneys, blog posts, carousel slides, portfolio works
and one promotional video. Every screen works the same way: it calls a remote
REST API and shows a toast. This project models the pure decision rules under
that plumbing:

- **The session store** (`AuthProvider`). This is the state
  `(isAuthenticated, user, token)`, the `loading` flag and the one persisted
  `adminAuth` entry. Its operations are init (hydrate from storage), login and
  logout. An invariant is proved over every sequence of those operations.
- **The route guard** (`ProtectedRoute`). A total three-way decision:
  placeholder, redirect to `/login`, or the protected outlet.
- **The Offers description codec** (`DescriptionCodec`). Two description parts
  are packed into one field as `d1|||d2`. They are read back with JavaScript's
  `split("|||")` semantics: leftmost, non-overlapping cuts.
- **The entity screens** (`Offers`, `PromotionalOffers`, `Testimonial`,
  `Attorney`, `Blog`, `Carousel`, `Work`, `VideoAdmin`). Each handler is a
  pure function. It takes the screen state, the user's input, and the outcome
  of every request it would send. It returns a `Step`: the next state, the
  requests it sent in order, and the notification it shows. `Protocol` holds
  the vocabulary and the stages the screens share: single-image upload, save,
  confirm-then-delete, and list refresh.

Modelling choices:

- The network, `localStorage` and the dialogs are replaced by values. The
  server's answers are parameters (`Reply`, `UploadReply`, `Listing`). The
  confirmation dialog's answer is a `confirmed: bool` parameter. The
  persisted entry is an `Option<Entry>`.
- The screens keep `isEditing` and `form.id` in two fields. Here they are one
  field, `editing: Option<Id>`, because only `handleEdit` sets both and only
  `resetForm` clears both.

Two places where the code does not do what a reader would expect:

- **A session can be authenticated without a token.** One would expect
  `isAuthenticated` to hold exactly when a token is present. The code does not maintain that. `login` with a null token, or a
  stored record without one, still authenticates. The model follows the code,
  and `AuthProvider.AuthenticatedWithoutToken` states it. The invariant the
  code does keep is `AuthProvider.Consistent`.
- **"Neither part contains `|||`" is not enough for the codec.** That
  condition does not make the codec round-trip. `"a|"` and `"b"` join to
  `"a||||b"`, which splits to `("a", "|b")`. `DescriptionCodec.RoundTrip`
  proves the exact condition: the first part contains no separator and does
  not end in `|`, and the second part contains no separator.

## Model

| member | source | states |
|---|---|---|
| Protocol.NullIfEmpty | src/assets/components/SideBar/SidebarElements/Attorney.jsx:123 | `value \|\| null` on an optional name: null exactly when the value is absent or empty, otherwise the value itself |
| Protocol.SaveRequest | src/assets/components/SideBar/SidebarElements/Attorney.jsx:91-94 | a save is a PATCH of `/{name}/{id}` exactly when editing record `id` and a POST of `/{name}` exactly when creating, carrying the payload either way |
| Protocol.Save | src/assets/components/SideBar/SidebarElements/Attorney.jsx:96-114 | an OK save shows success, moves to the reset state and refetches the list; any other outcome sends no refetch, shows an error and keeps the draft |
| Protocol.FirstName | src/assets/components/SideBar/SidebarElements/Attorney.jsx:79-82 | reading `files[0].name` succeeds exactly when the upload answered with at least one entry, and yields that first name; a refused upload aborts with the upload error |
| Protocol.ResolveImage | src/assets/components/SideBar/SidebarElements/Attorney.jsx:65-83 | without a picked file the existing image reference is used untouched; with one, the save goes ahead exactly when the upload returned a first name, and that name is used |
| Protocol.UploadsFor | src/assets/components/SideBar/SidebarElements/Attorney.jsx:67-77 | an upload request is sent only when a file is picked, and then it carries exactly that file |
| Protocol.Remove | src/assets/components/SideBar/SidebarElements/Attorney.jsx:128-151 | declining sends nothing; once confirmed, DELETE is sent first; any answer, OK or not, reports success and refetches; only a rejected fetch shows an error; the local list is never changed |
| Protocol.Refresh | src/assets/components/SideBar/SidebarElements/Attorney.jsx:22-30 | a list GET stores the body's `data`, or the empty list when it has none; a rejected load keeps the list and shows an error |
| AuthProvider.Initial | src/assets/components/auth/AuthProvider.jsx:8-13 | the store starts unauthenticated, with null user and token, `loading` true and the persisted entry untouched |
| AuthProvider.Init | src/assets/components/auth/AuthProvider.jsx:16-32 | `loading` ends false in every branch; an entry that parses becomes the session verbatim; a corrupt entry is removed and the session left as it was; a missing or empty entry changes nothing |
| AuthProvider.InitOutcome | src/assets/components/auth/AuthProvider.jsx:16-32 | hydrating a fresh store authenticates exactly when the entry parsed; a corrupt entry leaves it signed out with the entry removed |
| AuthProvider.Login | src/assets/components/auth/AuthProvider.jsx:34-45 | login authenticates with exactly the given user and token and persists exactly that pair |
| AuthProvider.Logout | src/assets/components/auth/AuthProvider.jsx:47-54 | logout restores the signed-out session with null user and token and removes the entry |
| AuthProvider.LogoutIdempotent | src/assets/components/auth/AuthProvider.jsx:47-54 | logging out twice leaves the same store as logging out once |
| AuthProvider.LoginThenReload | src/assets/components/auth/AuthProvider.jsx:17-45 | what login persists is read back by the next page load as the same authenticated user and token |
| AuthProvider.AuthenticatedWithoutToken | src/assets/components/auth/AuthProvider.jsx:20-39 | a login with a null token, or a stored record without one, is still authenticated with a null token |
| AuthProvider.ApplyKeepsConsistent | src/assets/components/auth/AuthProvider.jsx:16-54 | each of init, login and logout preserves the invariant: an authenticated session is exactly what is persisted, and a signed-out one holds no user or token |
| AuthProvider.RunKeepsConsistent | src/assets/components/auth/AuthProvider.jsx:16-54 | every sequence of init, login and logout from a consistent store keeps it consistent |
| AuthProvider.InitialConsistent | src/assets/components/auth/AuthProvider.jsx:8-13 | the initial store, whatever is persisted, satisfies the invariant |
| ProtectedRoute.Decide | src/assets/components/auth/ProtectedRoute.jsx:7-20 | the guard has exactly three outcomes: the placeholder while loading; otherwise a replacing redirect to `/login` with neither a session nor a stored entry, and the outlet with either |
| ProtectedRoute.Guard | src/assets/components/auth/ProtectedRoute.jsx:7-20 | the placeholder shows exactly while loading; the outlet shows exactly when loading is over and either the session is authenticated or an entry is stored |
| ProtectedRoute.GuardBeforeInit | src/assets/components/auth/ProtectedRoute.jsx:12-14 | before hydration, whatever is stored, the guard shows only the placeholder |
| ProtectedRoute.GuardAfterReload | src/assets/components/auth/ProtectedRoute.jsx:10-20 | after a page load the guard renders the outlet exactly when the stored entry parsed; a missing, empty or corrupt entry redirects |
| ProtectedRoute.GuardAfterLogout | src/assets/components/auth/ProtectedRoute.jsx:16-18 | after logout a guard that is not loading redirects to `/login` with replace |
| ProtectedRoute.GuardAfterLogin | src/assets/components/auth/ProtectedRoute.jsx:16-20 | after login, both at once and on the next page load, the guard renders the outlet |
| ProtectedRoute.GuardFollowsStorage | src/assets/components/auth/ProtectedRoute.jsx:7-20 | after any run of init, login and logout from a page load, once hydrated, the guard lets the visitor in exactly when a persisted entry is present |
| DescriptionCodec.FindFrom | src/assets/components/SideBar/SidebarElements/Offers.jsx:11 | the scan finds the leftmost occurrence of `\|\|\|` at or after the start index, or reports that there is none |
| DescriptionCodec.Split | src/assets/components/SideBar/SidebarElements/Offers.jsx:11 | `split("\|\|\|")` yields at least one piece, exactly one when there is no separator; the first piece is the text before the leftmost separator (all of it when there is none); no piece contains the separator; every piece but the last ends at the leftmost remaining separator; joining the pieces gives the input back |
| DescriptionCodec.FirstPieceUnique | src/assets/components/SideBar/SidebarElements/Offers.jsx:11 | the piece cut off the front of a string at its leftmost separator is unique |
| DescriptionCodec.SplitUnique | src/assets/components/SideBar/SidebarElements/Offers.jsx:11 | any list of separator-free pieces, each but the last cut at the leftmost separator, that joins back to the string is its split: the split is fully determined |
| DescriptionCodec.LeftmostCut | src/assets/components/SideBar/SidebarElements/Offers.jsx:11 | the split is leftmost: `"\|\|\|\|"` splits into `""` and `"\|"` |
| DescriptionCodec.Combine | src/assets/components/SideBar/SidebarElements/Offers.jsx:67 | the stored description is the first part, then the separator, then the second part, with the separator at the first part's length |
| DescriptionCodec.SplitDescription | src/assets/components/SideBar/SidebarElements/Offers.jsx:9-13 | an absent or empty description gives two empty parts; neither part ever contains the separator; the first part is the text before the leftmost separator, or all of it when there is none, with an empty second part; with a separator, the second part is the piece that leads what follows it |
| DescriptionCodec.PartsArePieces | src/assets/components/SideBar/SidebarElements/Offers.jsx:9-13 | the two parts of a non-empty description are the split's first two pieces, the second empty when there is only one |
| DescriptionCodec.ThirdPieceDropped | src/assets/components/SideBar/SidebarElements/Offers.jsx:9-13 | `"a\|\|\|b\|\|\|c"` splits into three pieces and reads as `("a", "b")`: the third is dropped |
| DescriptionCodec.RoundTrip | src/assets/components/SideBar/SidebarElements/Offers.jsx:9-13 | splitting `d1\|\|\|d2` gives back `(d1, d2)` exactly when `d1` has no separator and does not end in `\|`, and `d2` has no separator |
| DescriptionCodec.NaiveConditionInsufficient | src/assets/components/SideBar/SidebarElements/Offers.jsx:9-13 | parts free of the separator can still fail to round-trip: `("a\|", "b")` reads back as `("a", "\|b")` |
| DescriptionCodec.ResplitUnchanged | src/assets/components/SideBar/SidebarElements/Offers.jsx:9-13 | joining the two parts of a split description reproduces it exactly when it splits into exactly two pieces; with three or more, the rejoined text is a proper prefix of the description, so the later pieces are lost |
| DescriptionCodec.LaterPiecesLost | src/assets/components/SideBar/SidebarElements/Offers.jsx:9-13 | with three or more pieces, the first two joined are shorter than, and a prefix of, all of them joined |
| Offers.Processed | src/assets/components/SideBar/SidebarElements/Offers.jsx:31-34 | each listed record is kept and paired with the two parts of its split description, one entry per record in order |
| Offers.Load | src/assets/components/SideBar/SidebarElements/Offers.jsx:27-39 | a load replaces the list with the processed records (none when `data` is missing); a rejected load keeps the list and shows an error; the draft is untouched |
| Offers.Add | src/assets/components/SideBar/SidebarElements/Offers.jsx:52-88 | an incomplete draft is refused before the cap is looked at; a full list of 3 is refused; only then is `{title, d1\|\|\|d2, Number(price)}` POSTed; success empties the draft and refetches; failure keeps the draft |
| Offers.Edit | src/assets/components/SideBar/SidebarElements/Offers.jsx:91-118 | an edit has no field check and no cap; it PATCHes the offer with the combined description and refetches on success; the screen's state is untouched |
| Offers.SaveEdit | src/assets/components/SideBar/SidebarElements/Offers.jsx:233-240 | an incomplete item form is refused with no request; a complete one is handed to the edit and leaves edit mode whatever the server answers |
| Offers.ItemFor | src/assets/components/SideBar/SidebarElements/Offers.jsx:219-226 | an item starts out of edit mode, and its untouched form saves the offer's title, its two parts rejoined and its price |
| Offers.Delete | src/assets/components/SideBar/SidebarElements/Offers.jsx:121-144 | a confirmed delete reports success and refetches whatever the status; only a rejected fetch shows an error |
| Offers.AddReadsBack | src/assets/components/SideBar/SidebarElements/Offers.jsx:31-82 | an offer added with safe parts is read back by the next load with exactly those parts |
| Offers.UntouchedResave | src/assets/components/SideBar/SidebarElements/Offers.jsx:221-238 | saving an untouched item form sends back the stored description exactly when it held exactly one separator |
| PromotionalOffers.PresentNames | src/assets/components/SideBar/SidebarElements/PromotionalOffers.jsx:88 | `filter(Boolean)` keeps exactly the non-empty names, and a list with no empty name unchanged |
| PromotionalOffers.PresentNamesAppend | src/assets/components/SideBar/SidebarElements/PromotionalOffers.jsx:88 | filtering distributes over concatenation, so slot order is kept |
| PromotionalOffers.AllBlank | src/assets/components/SideBar/SidebarElements/PromotionalOffers.jsx:88 | blank slots contribute no name |
| PromotionalOffers.ChosenFiles | src/assets/components/SideBar/SidebarElements/PromotionalOffers.jsx:93-98 | the upload carries exactly the files of the slots that hold one, at most one per slot, and is empty exactly when no slot does |
| PromotionalOffers.ChosenFilesAppend | src/assets/components/SideBar/SidebarElements/PromotionalOffers.jsx:93-98 | collecting files distributes over concatenation of slots |
| PromotionalOffers.ChosenFilesSingle | src/assets/components/SideBar/SidebarElements/PromotionalOffers.jsx:93-98 | one slot contributes its file if it holds one, and nothing otherwise |
| PromotionalOffers.ChosenFilesInSlotOrder | src/assets/components/SideBar/SidebarElements/PromotionalOffers.jsx:93-98 | the three slots' files go into the one upload in slot order, image1 first |
| PromotionalOffers.SelectFile | src/assets/components/SideBar/SidebarElements/PromotionalOffers.jsx:37-47 | picking a file for a slot replaces only that slot's file and keeps its stored name and every other slot |
| PromotionalOffers.RemoveExistingImage | src/assets/components/SideBar/SidebarElements/PromotionalOffers.jsx:60-71 | removing a slot's image blanks that slot's stored name and file and leaves the other slots and fields unchanged |
| PromotionalOffers.SlotNames | src/assets/components/SideBar/SidebarElements/PromotionalOffers.jsx:154-158 | the loaded slots are always exactly three: the record's first three images, with `""` for each missing one |
| PromotionalOffers.Edit | src/assets/components/SideBar/SidebarElements/PromotionalOffers.jsx:148-161 | an edit loads the record's fields and three slot names, with no picked file, in edit mode for that id; a record without `images` makes the handler throw before any state is set, so nothing changes |
| PromotionalOffers.Reset | src/assets/components/SideBar/SidebarElements/PromotionalOffers.jsx:49-58 | the reset form is empty, not editing, with three blank slots |
| PromotionalOffers.Submit | src/assets/components/SideBar/SidebarElements/PromotionalOffers.jsx:73-146 | creating at 4 offers is refused before the fields are checked; empty fields are refused; the requests are exactly one upload of every picked file, only if there is one, then one save whose images are the stored names in slot order followed by the uploaded ones, then the refetch only on success; a refused upload sends nothing more; success resets; once a request is sent, any failure shows an error and keeps the draft |
| PromotionalOffers.Delete | src/assets/components/SideBar/SidebarElements/PromotionalOffers.jsx:163-186 | a confirmed delete reports success and refetches whatever the status |
| PromotionalOffers.ReplacedSlotSendsBoth | src/assets/components/SideBar/SidebarElements/PromotionalOffers.jsx:42-113 | a slot with a stored name and a newly picked file sends both names |
| PromotionalOffers.EditedResubmit | src/assets/components/SideBar/SidebarElements/PromotionalOffers.jsx:88-161 | re-saving an offer that has `images` without picking files sends its first three images with the empty ones dropped |
| PromotionalOffers.LoadedNames | src/assets/components/SideBar/SidebarElements/PromotionalOffers.jsx:154-158 | the loaded slots send the record's first three images, blanks dropped |
| PromotionalOffers.RemovedImageNotSent | src/assets/components/SideBar/SidebarElements/PromotionalOffers.jsx:60-120 | after removing a slot's image, a save without new files sends every other stored name and not the removed one |
| Testimonial.Reset | src/assets/components/SideBar/SidebarElements/Testimonial.jsx:46-56 | the reset form is empty, with no image, not editing |
| Testimonial.Edit | src/assets/components/SideBar/SidebarElements/Testimonial.jsx:135-145 | an edit loads every field in edit mode for that id; its stored image becomes the slot's value, with no picked file |
| Testimonial.Submit | src/assets/components/SideBar/SidebarElements/Testimonial.jsx:58-133 | empty fields are refused first; then creating at 3 is refused, while editing at the cap goes ahead; the requests are exactly the upload of a picked file, then one save carrying its first name, or `form.image` as it is without a file, then the refetch only on success; a failed upload sends nothing more; success resets; once a request is sent, any failure shows an error and keeps the draft |
| Testimonial.Delete | src/assets/components/SideBar/SidebarElements/Testimonial.jsx:147-170 | a confirmed delete reports success and refetches whatever the status |
| Testimonial.EditKeepsImage | src/assets/components/SideBar/SidebarElements/Testimonial.jsx:80-141 | editing without picking a file PATCHes the record with its stored image unchanged, even at the cap |
| Testimonial.CapScenario | src/assets/components/SideBar/SidebarElements/Testimonial.jsx:69-127 | with three testimonials a new one is refused with no request; with two it is POSTed once and the list refetched |
| Testimonial.DeleteReopensCreate | src/assets/components/SideBar/SidebarElements/Testimonial.jsx:23-170 | at the cap a new testimonial is refused; a confirmed delete refetches the list whatever its status, and once the refetch lists one fewer the same draft goes ahead, starting with its upload or its POST |
| Attorney.Reset | src/assets/components/SideBar/SidebarElements/Attorney.jsx:45-54 | the reset form is empty, with no file and no stored image, not editing |
| Attorney.Edit | src/assets/components/SideBar/SidebarElements/Attorney.jsx:117-126 | an edit loads the fields in edit mode for that id, clears the picked file, and keeps the stored image, with an empty one as null |
| Attorney.Submit | src/assets/components/SideBar/SidebarElements/Attorney.jsx:56-115 | an empty name or designation is refused with no request; there is no cap; the requests are exactly the upload when a file is picked, then one save carrying the first uploaded name, or the stored image without a file, then the refetch only on success; a failed upload sends nothing more; success resets; once a request is sent, any failure shows an error and keeps the draft |
| Attorney.Delete | src/assets/components/SideBar/SidebarElements/Attorney.jsx:128-151 | a confirmed delete reports success and refetches whatever the status |
| Attorney.NoCap | src/assets/components/SideBar/SidebarElements/Attorney.jsx:56-115 | however many attorneys are listed, a complete new form is POSTed |
| Attorney.UploadThenCreate | src/assets/components/SideBar/SidebarElements/Attorney.jsx:65-109 | a new attorney with a picked file sends exactly one upload, one POST naming the uploaded file, and one refetch |
| Attorney.EditKeepsImage | src/assets/components/SideBar/SidebarElements/Attorney.jsx:65-126 | editing without picking a file PATCHes the record with its stored image, an empty one sent as null |
| Blog.Reset | src/assets/components/SideBar/SidebarElements/Blog.jsx:46-56 | the reset form is empty, with no file and no stored image, not editing |
| Blog.Edit | src/assets/components/SideBar/SidebarElements/Blog.jsx:121-131 | an edit copies the fields in edit mode for that id, clears the picked file, and keeps the stored image, with an empty one as null |
| Blog.Submit | src/assets/components/SideBar/SidebarElements/Blog.jsx:58-119 | an empty title, author or content is refused with no request; the requests are exactly the upload when a file is picked, then one save carrying the first uploaded name, or the stored image without a file, then the refetch only on success; a failed upload sends nothing more; success resets; once a request is sent, any failure shows an error and keeps the draft |
| Blog.Delete | src/assets/components/SideBar/SidebarElements/Blog.jsx:133-156 | a confirmed delete reports success and refetches whatever the status |
| Blog.EditKeepsImage | src/assets/components/SideBar/SidebarElements/Blog.jsx:67-131 | editing without picking a file PATCHes the post with its stored image, an empty one sent as null |
| Carousel.WithRow | src/assets/components/SideBar/SidebarElements/Carousel.jsx:78 | writing one row's state leaves the other row unchanged |
| Carousel.MarkUploading | src/assets/components/SideBar/SidebarElements/Carousel.jsx:51 | setting a row's uploading flag changes only that flag of that row |
| Carousel.Rejection | src/assets/components/SideBar/SidebarElements/Carousel.jsx:34-49 | the upload may proceed exactly when a file is selected, its type is one of the five image types and its size is at most 5 MiB; otherwise the first failing check, in the order presence, type, size, names the notice |
| Carousel.Upload | src/assets/components/SideBar/SidebarElements/Carousel.jsx:33-85 | requests are sent exactly when validation passes; the upload comes first and then `{filename, row}` is POSTed; the record POST's status is ignored, but a rejected POST ends the requests there with a request error; success, shown exactly when the upload named a file and the POST was answered, clears that row's file and refetches that row alone; a failed upload sends nothing more; the other row is never touched and the flag ends lowered |
| Carousel.FetchFiles | src/assets/components/SideBar/SidebarElements/Carousel.jsx:17-26 | a row fetch writes list 1 for row 1 and list 2 for any other row, and leaves the other list, both selections and both uploading flags untouched; a missing `data` gives an empty list |
| Carousel.Delete | src/assets/components/SideBar/SidebarElements/Carousel.jsx:87-110 | a confirmed delete reports success and refetches only that row, whatever the status |
| Carousel.SizeBoundary | src/assets/components/SideBar/SidebarElements/Carousel.jsx:46-49 | exactly 5 MiB is accepted and one byte more is rejected as too large |
| Carousel.TypeBeforeSize | src/assets/components/SideBar/SidebarElements/Carousel.jsx:40-49 | an oversized file of the wrong type is reported as the wrong type |
| Carousel.RecordStatusIgnored | src/assets/components/SideBar/SidebarElements/Carousel.jsx:68-77 | success is reported even when the record POST answers with an error status |
| Carousel.BusyRowOnly | src/assets/components/SideBar/SidebarElements/Carousel.jsx:51 | while a row uploads only its own flag is raised and the other row is unchanged |
| Carousel.UploadThenFetch | src/assets/components/SideBar/SidebarElements/Carousel.jsx:17-85 | a successful upload refetches its own row, and applying that refetch replaces exactly that row's slides, with the selection cleared and the flag lowered; the other row is as it was |
| Carousel.DeleteThenFetch | src/assets/components/SideBar/SidebarElements/Carousel.jsx:17-110 | a confirmed delete refetches only its own row whatever the status, and applying that refetch replaces exactly that row's slides; the other row is as it was |
| Work.ReplaceImage | src/assets/components/SideBar/SidebarElements/Work.jsx:110-114 | the local update keeps the list's length, order, ids and titles, and changes the image exactly on the works whose id matches |
| Work.Add | src/assets/components/SideBar/SidebarElements/Work.jsx:29-71 | no file means no request; otherwise exactly the upload, then a POST of title `"work"` with the uploaded name, then the refetch only on success; a failed upload sends nothing more; any failure after a file is picked shows an error; the local list is never changed |
| Work.Edit | src/assets/components/SideBar/SidebarElements/Work.jsx:74-120 | no file means no request; otherwise the upload, then a PATCH with the work's unchanged title and the uploaded name; success, shown exactly when the upload named a file and the PATCH was OK, updates the list locally and never refetches; any failure shows an error and leaves the list as it was |
| Work.Delete | src/assets/components/SideBar/SidebarElements/Work.jsx:123-146 | a confirmed delete reports success and refetches whatever the status; only a rejected fetch shows an error |
| Work.ReplaceImageIdempotent | src/assets/components/SideBar/SidebarElements/Work.jsx:110-114 | applying the same local update twice is applying it once |
| Work.ReplaceAbsentIsIdentity | src/assets/components/SideBar/SidebarElements/Work.jsx:110-114 | an update for an id no longer listed leaves the list unchanged |
| Work.EditShowsUploadedName | src/assets/components/SideBar/SidebarElements/Work.jsx:92-114 | after a successful edit the work keeps its position and title and shows the uploaded name |
| Work.AddThenLoad | src/assets/components/SideBar/SidebarElements/Work.jsx:14-71 | what an add POSTs is what the next load shows: once the refetch lists the created record, the list holds a work titled `"work"` showing the uploaded name |
| VideoAdmin.FileUrlInjective | src/assets/components/SideBar/SidebarElements/VideoAdmin.jsx:54 | distinct stored names give distinct file URLs |
| VideoAdmin.Probe | src/assets/components/SideBar/SidebarElements/VideoAdmin.jsx:13-21 | the mount probe sends one HEAD for `video.mp4`; only an OK answer sets the URL; a rejection changes nothing and shows nothing |
| VideoAdmin.Upload | src/assets/components/SideBar/SidebarElements/VideoAdmin.jsx:28-63 | no file gives a warning and no request; a refused upload gives an error and changes nothing; a returned name shows that file's URL and clears the picked file; an answer without a name changes nothing and shows nothing |
| VideoAdmin.UploadShowsStoredName | src/assets/components/SideBar/SidebarElements/VideoAdmin.jsx:50-56 | the file URL a successful upload shows names exactly the first stored name the server returned |
| VideoAdmin.Remove | src/assets/components/SideBar/SidebarElements/VideoAdmin.jsx:65-79 | a confirmed remove clears only the URL, shows success and sends no request |
| VideoAdmin.RemoveThenUpload | src/assets/components/SideBar/SidebarElements/VideoAdmin.jsx:53-106 | a confirmed remove brings the upload form back, and a successful upload hides it again |
| VideoAdmin.ShowsUploadFormExactly | src/assets/components/SideBar/SidebarElements/VideoAdmin.jsx:86-109 | in every state the screen can reach, the upload form shows exactly when there is no URL, and the player otherwise |
| VideoAdmin.StepsStayReachable | src/assets/components/SideBar/SidebarElements/VideoAdmin.jsx:13-79 | the probe, an upload and a remove each keep the URL either absent or a file URL |

## Left out

- `fetch`, HTTP, multipart `FormData` and JSON encoding are not modelled as
  I/O. Each answer is a parameter, and each request is an entry in the
  returned request sequence. Headers and the bearer token are not modelled.
- `localStorage` is modelled as one optional entry. Parsing is reduced to the
  entry's three shapes: empty, a record, or corrupt.
- SweetAlert dialogs and toasts are reduced to a `Notice` tag and a
  `confirmed` flag. The message texts are not modelled.
- Rendering, styling and the `URL.createObjectURL` previews are left out.
  The one exception is the VideoAdmin form-or-player condition.
- Async interleavings, the `isLoading` flags and stale responses are left
  out. These are timing concerns. Each handler runs to completion on the
  answers it is given.
- Blog date formatting (`toLocaleDateString`) is presentation only.
- `Number(price)` is kept as the text it converts (`NumberOf`). JavaScript's
  numeric conversion is not modelled.
- Protocol.FirstName: a rejected upload, a non-OK one and one whose body does
  not parse are merged into one `UploadRefused` answer, because they differ
  only in the error message.
- Testimonial.Edit: a record's missing image and its null image are the same
  here. The file picker's cancel (`files[0]` is undefined) counts as no file,
  because every check in the source treats both as "no new file".
- Offers.ItemFor: a record's price is kept as text. A numeric price of `0`,
  which is falsy in JavaScript, is not told apart from other prices.
- Carousel.Upload: the row is required to be 1 or 2, the only rows the
  screen renders and uploads to.
- VideoAdmin.ShowsUploadFormExactly: in general the form shows when the URL
  is absent or empty. It shows exactly when the URL is absent only in the
  reachable states, where every URL is a file URL.
- Server-side behaviour is not modelled: whether the API enforces the caps,
  and what it stores.
- The list loads of Testimonial, Attorney, Blog, Work and PromotionalOffers
  (`setX(data.data || [])`) are Protocol.Refresh itself, applied to the
  screen's list. Carousel.FetchFiles wraps Refresh to pick the row's list.
  Offers.Load has its own load, because it also splits each description.
- Dashboard.jsx, Sidebar.jsx, Navbar.jsx and HomePage.jsx are left out. They
  hold static mock data and presentational chrome.
- src/main.jsx is left out. It is router configuration, and it does not
  route the Blog screen.
