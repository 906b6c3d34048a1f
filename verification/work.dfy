/** The Work screen: a portfolio of images. Adding uploads a file and
    creates a work titled "work"; editing uploads a replacement and patches
    the image of that one work in the local list, keeping the list's order
    without a refetch. */
module Work {
  import opened Wrappers
  import opened Protocol

  const Name: string := "works"

  /** The title every new work is created with. */
  const DefaultTitle: string := "work"

  datatype WorkItem = WorkItem(id: Id, title: string, image: string)

  /** The body of a work's POST or PATCH. */
  datatype Payload = Payload(title: string, image: string)

  /** The list with the image of every work whose id is `id` set to
      `image`; every other work and field is kept, in order. */
  function ReplaceImage(works: seq<WorkItem>, id: Id, image: string): (r: seq<WorkItem>)
    ensures |r| == |works|
    ensures forall i :: 0 <= i < |r| ==> r[i].id == works[i].id && r[i].title == works[i].title
    ensures forall i :: 0 <= i < |r| ==>
              r[i].image == (if works[i].id == id then image else works[i].image)
    decreases |works|
  {
    if |works| == 0 then []
    else
      var w := works[0];
      [if w.id == id then w.(image := image) else w] + ReplaceImage(works[1..], id, image)
  }

  /** `handleAdd`: no file, no request; otherwise upload it and POST a
      work titled "work" with the stored name; success refetches. The
      local list is never changed here. */
  function Add(works: seq<WorkItem>, file: Option<File>, upload: UploadReply, reply: Reply): (r: Step<seq<WorkItem>, Payload>)
    ensures r.state == works
    ensures file.None? ==> r.requests == [] && r.notice == Quiet
    ensures file.Some? ==> |r.requests| >= 1 && r.requests[0] == Upload([file.value])
    ensures file.Some? && FirstName(upload).NotAttached? ==>
              r.requests == [Upload([file.value])] && r.notice == Error(FirstName(upload).reason)
    ensures file.Some? && FirstName(upload).Attached? ==>
              r.requests == [Upload([file.value]), Post(Collection(Name), Payload(DefaultTitle, upload.names[0]))]
                            + RefetchOn(reply, Collection(Name))
    ensures file.Some? && FirstName(upload).Attached? && Succeeded(reply) ==>
              |r.requests| == 3 && r.requests[2] == Get(Collection(Name)) && r.notice == Success
    ensures file.Some? && !Succeeded(reply) ==> r.notice.Error?
    ensures r.notice == Success <==> Get(Collection(Name)) in r.requests
  {
    match file
    case None => Step(works, [], Quiet)
    case Some(f) =>
      match FirstName(upload)
      case NotAttached(reason) => Step(works, [Upload([f])], Error(reason))
      case Attached(stored) =>
        Save([Upload([f])], Post(Collection(Name), Payload(DefaultTitle, stored)), reply,
             works, works, Collection(Name))
  }

  /** `handleEdit(work, file)`: no file, no request; otherwise upload it and
      PATCH the work with its unchanged title and the stored name; success
      replaces that work's image locally and does not refetch. */
  function Edit(works: seq<WorkItem>, work: WorkItem, file: Option<File>, upload: UploadReply, reply: Reply)
    : (r: Step<seq<WorkItem>, Payload>)
    ensures file.None? ==> r == Step(works, [], Quiet)
    ensures file.Some? ==> |r.requests| >= 1 && r.requests[0] == Upload([file.value])
    ensures file.Some? && FirstName(upload).NotAttached? ==>
              r == Step(works, [Upload([file.value])], Error(FirstName(upload).reason))
    ensures file.Some? && FirstName(upload).Attached? ==>
              r.requests == [Upload([file.value]), Patch(Item(Name, work.id), Payload(work.title, upload.names[0]))]
    ensures file.Some? && FirstName(upload).Attached? && Succeeded(reply) ==>
              r.state == ReplaceImage(works, work.id, upload.names[0]) && r.notice == Success
    ensures !Succeeded(reply) ==> r.state == works
    ensures forall q :: q in r.requests ==> !q.Get?
    ensures file.Some? && !Succeeded(reply) ==> r.notice.Error?
    ensures r.notice == Success <==> file.Some? && FirstName(upload).Attached? && Succeeded(reply)
  {
    match file
    case None => Step(works, [], Quiet)
    case Some(f) =>
      match FirstName(upload)
      case NotAttached(reason) => Step(works, [Upload([f])], Error(reason))
      case Attached(stored) =>
        var patch := Patch(Item(Name, work.id), Payload(work.title, stored));
        if Succeeded(reply) then
          Step(ReplaceImage(works, work.id, stored), [Upload([f]), patch], Success)
        else Step(works, [Upload([f]), patch], Error(SaveFailure(reply)))
  }

  /** `handleDelete`: nothing without confirmation; once confirmed the
      status is not checked, so any answer reports success and refetches. */
  function Delete(works: seq<WorkItem>, id: Id, confirmed: bool, reply: Reply): (r: Step<seq<WorkItem>, Payload>)
    ensures r.state == works
    ensures !confirmed ==> r.requests == [] && r.notice == Quiet
    ensures confirmed && reply.Answered? ==>
              r.requests == [Request.Delete(Item(Name, id)), Get(Collection(Name))] && r.notice == Success
    ensures confirmed && reply.Rejected? ==>
              r.requests == [Request.Delete(Item(Name, id))] && r.notice == Error(RequestFailed)
  {
    Remove(works, Name, id, Collection(Name), confirmed, reply)
  }

  /** Replacing twice with the same name is replacing once. */
  lemma {:induction false} ReplaceImageIdempotent(works: seq<WorkItem>, id: Id, image: string)
    ensures ReplaceImage(ReplaceImage(works, id, image), id, image) == ReplaceImage(works, id, image)
    decreases |works|
  {
    if |works| > 0 {
      ReplaceImageIdempotent(works[1..], id, image);
      assert ReplaceImage(works, id, image)[1..] == ReplaceImage(works[1..], id, image);
    }
  }

  /** An edit for a work no longer in the list leaves the list as it is. */
  lemma {:induction false} ReplaceAbsentIsIdentity(works: seq<WorkItem>, id: Id, image: string)
    requires forall i :: 0 <= i < |works| ==> works[i].id != id
    ensures ReplaceImage(works, id, image) == works
    decreases |works|
  {
    if |works| > 0 {
      ReplaceAbsentIsIdentity(works[1..], id, image);
    }
  }

  /** After a successful edit, the edited work shows the uploaded name
      (never the local file's name) and keeps its title and position. */
  lemma EditShowsUploadedName(works: seq<WorkItem>, i: nat, file: File, stored: string, more: seq<string>)
    requires i < |works|
    ensures var r := Edit(works, works[i], Some(file), Uploaded([stored] + more), Answered(true)).state;
      |r| == |works| && r[i] == works[i].(image := stored)
  {
  }

  /** What an add POSTs is what the next load shows: once the refetch
      lists the created record, the list holds a work titled "work" that
      shows the uploaded name. */
  lemma AddThenLoad(works: seq<WorkItem>, file: File, stored: string, more: seq<string>,
                    id: Id, others: seq<WorkItem>)
    ensures var add := Add(works, Some(file), Uploaded([stored] + more), Answered(true));
      var body := add.requests[1].body;
      var loaded := Refresh(add.state, Listed(Some(others + [WorkItem(id, body.title, body.image)]))).0;
      add.requests[2] == Get(Collection(Name)) && WorkItem(id, DefaultTitle, stored) in loaded
  {
  }
}
