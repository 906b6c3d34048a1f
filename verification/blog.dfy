/** The Blog screen: posts with a title, an author, content and an
    optional image, with no cap on their number. Its shape follows the
    Attorney screen; the router does not mount it. */
module Blog {
  import opened Wrappers
  import opened Protocol

  const Name: string := "blogs"

  datatype BlogRecord = BlogRecord(id: Id, title: string, author: string, content: string, image: Option<string>)

  datatype Form = Form(editing: Option<Id>, title: string, author: string, content: string,
                       newImage: Option<File>, existingImage: Option<string>)

  datatype Payload = Payload(title: string, author: string, content: string, image: Option<string>)

  const EmptyForm: Form := Form(None, "", "", "", None, None)

  datatype Screen = Screen(blogs: seq<BlogRecord>, form: Form)

  predicate Complete(f: Form) {
    Filled(f.title) && Filled(f.author) && Filled(f.content)
  }

  /** `resetForm`: the empty form, not editing. */
  function Reset(s: Screen): (r: Screen)
    ensures r.form.editing.None? && r.form.newImage.None? && r.form.existingImage.None?
    ensures r.form.title == "" && r.form.author == "" && r.form.content == ""
    ensures r.blogs == s.blogs
  {
    s.(form := EmptyForm)
  }

  /** `handleEdit`: copy the fields in edit mode; the post's image, or null
      when it has none or an empty one, becomes the stored name; no file is
      picked. */
  function Edit(s: Screen, b: BlogRecord): (r: Screen)
    ensures r.form.editing == Some(b.id)
    ensures r.form.title == b.title && r.form.author == b.author && r.form.content == b.content
    ensures r.form.newImage.None?
    ensures r.form.existingImage == NullIfEmpty(b.image)
    ensures r.blogs == s.blogs
  {
    s.(form := Form(Some(b.id), b.title, b.author, b.content, None, NullIfEmpty(b.image)))
  }

  function PayloadOf(f: Form, image: Option<string>): Payload {
    Payload(f.title, f.author, f.content, image)
  }

  /** `handleSubmit`: the three text fields are required; a picked file is
      uploaded and its first stored name sent, otherwise the stored name
      is. Success resets the form and refetches; any failure keeps it. */
  function Submit(s: Screen, upload: UploadReply, reply: Reply): (r: Step<Screen, Payload>)
    ensures !Complete(s.form) ==> r == Step(s, [], Warning(MissingFields))
    ensures r.requests != [] <==> Complete(s.form)
    ensures Complete(s.form) && s.form.newImage.Some? ==> r.requests[0] == Upload([s.form.newImage.value])
    ensures Complete(s.form) && s.form.newImage.Some? && FirstName(upload).NotAttached? ==>
              r == Step(s, [Upload([s.form.newImage.value])], Error(FirstName(upload).reason))
    ensures Complete(s.form) && s.form.newImage.Some? && FirstName(upload).Attached? ==>
              r.requests == [Upload([s.form.newImage.value]),
                             SaveRequest(Name, s.form.editing, PayloadOf(s.form, Some(upload.names[0])))]
                            + RefetchOn(reply, Collection(Name))
    ensures Complete(s.form) && s.form.newImage.None? ==>
              r.requests == [SaveRequest(Name, s.form.editing, PayloadOf(s.form, s.form.existingImage))]
                            + RefetchOn(reply, Collection(Name))
    ensures !Succeeded(reply) ==> r.state == s
    ensures r.requests != [] && !Succeeded(reply) ==> r.notice.Error?
    ensures r.notice == Success <==> Get(Collection(Name)) in r.requests
    ensures Succeeded(reply) && Complete(s.form) && (s.form.newImage.None? || FirstName(upload).Attached?) ==>
              r.state == Reset(s) && r.notice == Success && r.requests[|r.requests| - 1] == Get(Collection(Name))
  {
    var f := s.form;
    if !Complete(f) then Step(s, [], Warning(MissingFields))
    else
      match ResolveImage(f.newImage, f.existingImage, upload)
      case Aborted(reason) => Step(s, UploadsFor(f.newImage), Error(reason))
      case Resolved(image) =>
        Save(UploadsFor(f.newImage), SaveRequest(Name, f.editing, PayloadOf(f, image)), reply,
             s, Reset(s), Collection(Name))
  }

  /** `handleDelete`: the shared confirm-then-DELETE, refetching the list. */
  function Delete(s: Screen, id: Id, confirmed: bool, reply: Reply): (r: Step<Screen, Payload>)
    ensures r.state == s
    ensures !confirmed ==> r.requests == [] && r.notice == Quiet
    ensures confirmed && reply.Answered? ==>
              r.requests == [Request.Delete(Item(Name, id)), Get(Collection(Name))] && r.notice == Success
    ensures confirmed && reply.Rejected? ==>
              r.requests == [Request.Delete(Item(Name, id))] && r.notice == Error(RequestFailed)
  {
    Remove(s, Name, id, Collection(Name), confirmed, reply)
  }

  /** Editing a post without picking a file re-sends its stored image name
      (an empty one as null), with no upload. */
  lemma EditKeepsImage(s: Screen, b: BlogRecord, upload: UploadReply, reply: Reply)
    requires Filled(b.title) && Filled(b.author) && Filled(b.content)
    ensures Submit(Edit(s, b), upload, reply).requests[0] ==
              Patch(Item(Name, b.id), Payload(b.title, b.author, b.content, NullIfEmpty(b.image)))
  {
  }
}
