/** The Attorney screen: attorneys with a name, a designation and an
    optional image, with no cap on their number. The form keeps the newly
    picked file apart from the stored name of the record being edited. */
module Attorney {
  import opened Wrappers
  import opened Protocol

  const Name: string := "attorneys"

  datatype AttorneyRecord = AttorneyRecord(id: Id, name: string, designation: string, image: Option<string>)

  datatype Form = Form(editing: Option<Id>, name: string, designation: string,
                       newImage: Option<File>, existingImage: Option<string>)

  datatype Payload = Payload(name: string, designation: string, image: Option<string>)

  const EmptyForm: Form := Form(None, "", "", None, None)

  datatype Screen = Screen(attorneys: seq<AttorneyRecord>, form: Form)

  predicate Complete(f: Form) {
    Filled(f.name) && Filled(f.designation)
  }

  /** `resetForm`: the empty form, not editing. */
  function Reset(s: Screen): (r: Screen)
    ensures r.form.editing.None? && r.form.newImage.None? && r.form.existingImage.None?
    ensures r.form.name == "" && r.form.designation == ""
    ensures r.attorneys == s.attorneys
  {
    s.(form := EmptyForm)
  }

  /** `handleEdit`: load the record in edit mode; its image, or null when
      it has none or an empty one, becomes the stored name; no file is
      picked. */
  function Edit(s: Screen, a: AttorneyRecord): (r: Screen)
    ensures r.form.editing == Some(a.id)
    ensures r.form.name == a.name && r.form.designation == a.designation
    ensures r.form.newImage.None?
    ensures r.form.existingImage == NullIfEmpty(a.image)
    ensures r.attorneys == s.attorneys
  {
    s.(form := Form(Some(a.id), a.name, a.designation, None, NullIfEmpty(a.image)))
  }

  function PayloadOf(f: Form, image: Option<string>): Payload {
    Payload(f.name, f.designation, image)
  }

  /** `handleSubmit`: the two text fields are required; a picked file is
      uploaded and its first stored name sent, otherwise the stored name
      is. Success resets the form and refetches; any failure keeps it. */
  function Submit(s: Screen, upload: UploadReply, reply: Reply): (r: Step<Screen, Payload>)
    ensures !Complete(s.form) ==> r == Step(s, [], Warning(MissingFields))
    ensures r.requests != [] <==> Complete(s.form)
    ensures Complete(s.form) && s.form.newImage.Some? ==> r.requests[0] == Upload([s.form.newImage.value])
    ensures Complete(s.form) && s.form.newImage.Some? && FirstName(upload).NotAttached? ==>
              r == Step(s, [Upload([s.form.newImage.value])], Error(FirstName(upload).reason))
    ensures Complete(s.form) && s.form.newImage.Some? && FirstName(upload).Attached? ==>
              r.requests == [Upload([s.form.newImage.value]),
                             SaveRequest(Name, s.form.editing, PayloadOf(s.form, Some(upload.names[0])))]
                            + RefetchOn(reply, Collection(Name))
    ensures Complete(s.form) && s.form.newImage.None? ==>
              r.requests == [SaveRequest(Name, s.form.editing, PayloadOf(s.form, s.form.existingImage))]
                            + RefetchOn(reply, Collection(Name))
    ensures !Succeeded(reply) ==> r.state == s
    ensures r.requests != [] && !Succeeded(reply) ==> r.notice.Error?
    ensures r.notice == Success <==> Get(Collection(Name)) in r.requests
    ensures Succeeded(reply) && Complete(s.form) && (s.form.newImage.None? || FirstName(upload).Attached?) ==>
              r.state == Reset(s) && r.notice == Success && r.requests[|r.requests| - 1] == Get(Collection(Name))
  {
    var f := s.form;
    if !Complete(f) then Step(s, [], Warning(MissingFields))
    else
      match ResolveImage(f.newImage, f.existingImage, upload)
      case Aborted(reason) => Step(s, UploadsFor(f.newImage), Error(reason))
      case Resolved(image) =>
        Save(UploadsFor(f.newImage), SaveRequest(Name, f.editing, PayloadOf(f, image)), reply,
             s, Reset(s), Collection(Name))
  }

  /** `handleDelete`: the shared confirm-then-DELETE, refetching the list. */
  function Delete(s: Screen, id: Id, confirmed: bool, reply: Reply): (r: Step<Screen, Payload>)
    ensures r.state == s
    ensures !confirmed ==> r.requests == [] && r.notice == Quiet
    ensures confirmed && reply.Answered? ==>
              r.requests == [Request.Delete(Item(Name, id)), Get(Collection(Name))] && r.notice == Success
    ensures confirmed && reply.Rejected? ==>
              r.requests == [Request.Delete(Item(Name, id))] && r.notice == Error(RequestFailed)
  {
    Remove(s, Name, id, Collection(Name), confirmed, reply)
  }

  /** No cap: however many attorneys are listed, a complete new form is
      POSTed. */
  lemma NoCap(s: Screen, upload: UploadReply, reply: Reply)
    requires Complete(s.form) && s.form.editing.None? && s.form.newImage.None?
    ensures Submit(s, upload, reply).requests[0] == Post(Collection(Name), PayloadOf(s.form, s.form.existingImage))
  {
  }

  /** The worked scenario: a new attorney with a picked file sends exactly
      one upload and then one POST whose image is the name the upload
      returned, never the local file's name. */
  lemma UploadThenCreate(s: Screen, file: File, stored: string, more: seq<string>)
    requires Complete(s.form) && s.form.editing.None? && s.form.newImage == Some(file)
    ensures Submit(s, Uploaded([stored] + more), Answered(true)).requests ==
              [Upload([file]), Post(Collection(Name), Payload(s.form.name, s.form.designation, Some(stored))),
               Get(Collection(Name))]
  {
  }

  /** Editing an attorney without picking a file re-sends its stored
      image name (an empty one as null), with no upload. */
  lemma EditKeepsImage(s: Screen, a: AttorneyRecord, upload: UploadReply, reply: Reply)
    requires Filled(a.name) && Filled(a.designation)
    ensures Submit(Edit(s, a), upload, reply).requests[0] ==
              Patch(Item(Name, a.id), Payload(a.name, a.designation, NullIfEmpty(a.image)))
  {
  }
}
