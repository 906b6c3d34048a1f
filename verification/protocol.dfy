/** The request/response vocabulary shared by every entity screen of the
    admin console, and the stages of its "upload a file, then save a record
    that references the stored name" protocol.

    The network is replaced by oracle values: a screen handler receives the
    outcome of every request it would send (`Reply`, `UploadReply`,
    `Listing`) and returns the requests it issued, in order, together with
    its next state and the notification it shows. */
module Protocol {
  import opened Wrappers

  /** Server-assigned record identifier, as interpolated into a path. */
  type Id = string

  /** A file picked in a browser file input: its name, MIME type and size in bytes. */
  datatype File = File(name: string, mime: string, size: nat)

  /** The endpoints under the fixed API base URL. */
  datatype Path =
    | Collection(name: string)        // /{name}
    | Item(name: string, id: Id)       // /{name}/{id}
    | Row(name: string, row: int)      // /{name}/row/{row}
    | FileAt(fileName: string)         // /files/{fileName}

  /** One request sent to the remote API; `Upload` is the multipart
      POST /files carrying one `file` field per entry, in order. */
  datatype Request<P> =
    | Get(path: Path)
    | Head(path: Path)
    | Post(path: Path, body: P)
    | Patch(path: Path, body: P)
    | Delete(path: Path)
    | Upload(files: seq<File>)

  /** How a `fetch` promise settles: it rejects, or it resolves with a
      status that is OK or not. */
  datatype Reply = Rejected | Answered(ok: bool)

  predicate Succeeded(r: Reply) {
    r == Answered(true)
  }

  /** Outcome of POST /files: refused (a rejection, a non-OK status or an
      unreadable body), or the `name` of every entry of `files`, in
      response order. */
  datatype UploadReply = UploadRefused | Uploaded(names: seq<string>)

  /** Outcome of a list GET: the fetch or the JSON parse rejects, or a
      body whose `data` field may be missing. */
  datatype Listing<T> = ListRejected | Listed(data: Option<seq<T>>)

  /** Why a notification was shown. */
  datatype Reason =
    | MissingFields
    | LimitReached
    | NoFileSelected
    | UnsupportedType
    | FileTooLarge
    | UploadError      // the upload was refused
    | NoUploadedName   // `files[0]` of the upload response is absent
    | SaveFailed       // a save answered with a non-OK status
    | RequestFailed    // a fetch rejected
    | LoadFailed

  /** The toast or alert a handler ends with: none, a success, a warning
      or an error. */
  datatype Notice = Quiet | Success | Warning(reason: Reason) | Error(reason: Reason)

  /** What a handler did: its next state, the requests it sent in order,
      and the notification it showed. */
  datatype Step<S, P> = Step(state: S, requests: seq<Request<P>>, notice: Notice)

  /** JavaScript truthiness of a string field. */
  predicate Filled(s: string) {
    s != ""
  }

  /** `value || null` for an optional string: the empty string is falsy. */
  function NullIfEmpty(v: Option<string>): (r: Option<string>)
    ensures r.Some? <==> v.Some? && Filled(v.value)
    ensures r.Some? ==> r == v
  {
    if v == Some("") then None else v
  }

  /** The request that saves a draft: PATCH /{name}/{id} while record `id`
      is being edited, POST /{name} otherwise. */
  function SaveRequest<P>(name: string, editing: Option<Id>, body: P): (r: Request<P>)
    ensures r.Patch? <==> editing.Some?
    ensures r.Post? <==> editing.None?
    ensures (r.Post? || r.Patch?) && r.body == body
    ensures r.Patch? ==> r.path == Item(name, editing.value)
    ensures r.Post? ==> r.path == Collection(name)
  {
    match editing
    case Some(id) => Patch(Item(name, id), body)
    case None => Post(Collection(name), body)
  }

  /** The error a failed save shows. */
  function SaveFailure(reply: Reply): Reason {
    if reply.Rejected? then RequestFailed else SaveFailed
  }

  /** Sends `save` after the requests already `issued`. An OK reply shows a
      success, moves to `done` and refetches `refresh`; any other outcome
      shows an error and keeps `draft` so the user can retry. */
  function Save<S, P>(issued: seq<Request<P>>, save: Request<P>, reply: Reply,
                      draft: S, done: S, refresh: Path): (r: Step<S, P>)
    ensures Succeeded(reply) ==> r == Step(done, issued + [save, Get(refresh)], Success)
    ensures !Succeeded(reply) ==> r == Step(draft, issued + [save], Error(SaveFailure(reply)))
  {
    if Succeeded(reply) then Step(done, issued + [save, Get(refresh)], Success)
    else Step(draft, issued + [save], Error(SaveFailure(reply)))
  }

  /** The refetch that follows a save: one GET of `refresh` after an OK
      reply, nothing otherwise. */
  function RefetchOn<P>(reply: Reply, refresh: Path): seq<Request<P>> {
    if Succeeded(reply) then [Get(refresh)] else []
  }

  /** Reading `files[0].name` from a single-file upload response: a
      refused upload, or a response with no first entry, aborts. */
  datatype Attach = Attached(name: string) | NotAttached(reason: Reason)

  function FirstName(reply: UploadReply): (a: Attach)
    ensures a.Attached? <==> reply.Uploaded? && |reply.names| > 0
    ensures a.Attached? ==> a.name == reply.names[0]
    ensures reply.UploadRefused? ==> a == NotAttached(UploadError)
  {
    match reply
    case UploadRefused => NotAttached(UploadError)
    case Uploaded(names) =>
      if |names| == 0 then NotAttached(NoUploadedName) else Attached(names[0])
  }

  /** The image reference of a form with one image input, or why the
      submit aborts. */
  datatype Resolution = Resolved(image: Option<string>) | Aborted(reason: Reason)

  /** With a newly picked file, the upload's first stored name; without
      one, `fallback` untouched and no upload. */
  function ResolveImage(file: Option<File>, fallback: Option<string>, reply: UploadReply): (r: Resolution)
    ensures file.None? ==> r == Resolved(fallback)
    ensures file.Some? ==> (r.Resolved? <==> reply.Uploaded? && |reply.names| > 0)
    ensures file.Some? && r.Resolved? ==> r.image == Some(reply.names[0])
  {
    match file
    case None => Resolved(fallback)
    case Some(_) =>
      match FirstName(reply)
      case Attached(n) => Resolved(Some(n))
      case NotAttached(reason) => Aborted(reason)
  }

  /** The upload requests a one-image form sends before its save. */
  function UploadsFor<P>(file: Option<File>): (r: seq<Request<P>>)
    ensures file.None? ==> r == []
    ensures file.Some? ==> r == [Upload([file.value])]
  {
    match file
    case None => []
    case Some(f) => [Upload([f])]
  }

  /** The confirm-then-DELETE handler every list screen shares. Declining
      sends nothing. Once confirmed, the response status is never checked:
      any answer counts as deleted and refetches `refresh`; only a
      rejected fetch shows an error. The local list is never changed. */
  function Remove<S, P>(s: S, name: string, id: Id, refresh: Path,
                        confirmed: bool, reply: Reply): (r: Step<S, P>)
    ensures r.state == s
    ensures !confirmed ==> r.requests == [] && r.notice == Quiet
    ensures confirmed ==> |r.requests| >= 1 && r.requests[0] == Delete(Item(name, id))
    ensures confirmed && reply.Answered? ==>
              r.requests == [Delete(Item(name, id)), Get(refresh)] && r.notice == Success
    ensures confirmed && reply.Rejected? ==>
              r.requests == [Delete(Item(name, id))] && r.notice == Error(RequestFailed)
  {
    if !confirmed then Step(s, [], Quiet)
    else if reply.Rejected? then Step(s, [Delete(Item(name, id))], Error(RequestFailed))
    else Step(s, [Delete(Item(name, id)), Get(refresh)], Success)
  }

  /** Applying a list GET: the body's `data`, or the empty list when it
      has none; a rejection keeps the current list and shows an error. */
  function Refresh<T>(list: seq<T>, reply: Listing<T>): (r: (seq<T>, Notice))
    ensures reply.ListRejected? ==> r == (list, Error(LoadFailed))
    ensures reply.Listed? && reply.data.Some? ==> r == (reply.data.value, Quiet)
    ensures reply.Listed? && reply.data.None? ==> r == ([], Quiet)
  {
    match reply
    case ListRejected => (list, Error(LoadFailed))
    case Listed(data) => (data.GetOr([]), Quiet)
  }
}
