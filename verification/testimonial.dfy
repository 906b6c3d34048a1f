/** The Testimonial screen: at most three testimonials, each with a name,
    designation, company, content and an optional image. The form's one
    image slot holds nothing, a newly picked file, or the stored name of
    the record being edited. */
module Testimonial {
  import opened Wrappers
  import opened Protocol

  const Name: string := "testimonials"

  /** The client-side cap on the number of testimonials, checked on create only. */
  const Cap: nat := 3

  datatype TestimonialRecord = TestimonialRecord(id: Id, name: string, designation: string,
                                                 company: string, image: Option<string>, content: string)

  /** `form.image`: null, a picked `File`, or a stored filename. */
  datatype Picture = NoPicture | Picked(file: File) | Stored(name: string)

  datatype Form = Form(editing: Option<Id>, name: string, designation: string, company: string,
                       image: Picture, content: string)

  datatype Payload = Payload(name: string, designation: string, company: string,
                             image: Option<string>, content: string)

  const EmptyForm: Form := Form(None, "", "", "", NoPicture, "")

  datatype Screen = Screen(testimonials: seq<TestimonialRecord>, form: Form)

  predicate Complete(f: Form) {
    Filled(f.name) && Filled(f.designation) && Filled(f.company) && Filled(f.content)
  }

  /** The picked file, if the slot holds one. */
  function PickedFile(p: Picture): Option<File> {
    if p.Picked? then Some(p.file) else None
  }

  /** The value `form.image` sends when no file is picked: the stored name
      or null. */
  function Unpicked(p: Picture): Option<string> {
    if p.Stored? then Some(p.name) else None
  }

  /** `resetForm`: the empty form, not editing. */
  function Reset(s: Screen): (r: Screen)
    ensures r.form.editing.None? && r.form.image == NoPicture
    ensures r.form.name == "" && r.form.designation == "" && r.form.company == "" && r.form.content == ""
    ensures r.testimonials == s.testimonials
  {
    s.(form := EmptyForm)
  }

  /** `handleEdit`: load the record into the form in edit mode; its stored
      image name (or null) becomes the slot's value. */
  function Edit(s: Screen, t: TestimonialRecord): (r: Screen)
    ensures r.form.editing == Some(t.id)
    ensures r.form.name == t.name && r.form.designation == t.designation
    ensures r.form.company == t.company && r.form.content == t.content
    ensures PickedFile(r.form.image).None? && Unpicked(r.form.image) == t.image
    ensures r.testimonials == s.testimonials
  {
    var image := match t.image case Some(n) => Stored(n) case None => NoPicture;
    s.(form := Form(Some(t.id), t.name, t.designation, t.company, image, t.content))
  }

  function PayloadOf(f: Form, image: Option<string>): Payload {
    Payload(f.name, f.designation, f.company, image, f.content)
  }

  /** `handleSubmit`: the four text fields first, then the cap (create
      only); then the upload of a picked file, whose first stored name is
      sent; without a picked file `form.image` is sent as it is. Success
      resets the form and refetches; any failure keeps the draft. */
  function Submit(s: Screen, upload: UploadReply, reply: Reply): (r: Step<Screen, Payload>)
    ensures !Complete(s.form) ==> r == Step(s, [], Warning(MissingFields))
    ensures Complete(s.form) && s.form.editing.None? && |s.testimonials| >= Cap ==>
              r == Step(s, [], Warning(LimitReached))
    ensures r.requests != [] <==> Complete(s.form) && (s.form.editing.Some? || |s.testimonials| < Cap)
    ensures r.requests != [] && s.form.image.Picked? ==> r.requests[0] == Upload([s.form.image.file])
    ensures r.requests != [] && s.form.image.Picked? && FirstName(upload).NotAttached? ==>
              r == Step(s, [Upload([s.form.image.file])], Error(FirstName(upload).reason))
    ensures r.requests != [] && s.form.image.Picked? && FirstName(upload).Attached? ==>
              r.requests == [Upload([s.form.image.file]),
                             SaveRequest(Name, s.form.editing, PayloadOf(s.form, Some(upload.names[0])))]
                            + RefetchOn(reply, Collection(Name))
    ensures Complete(s.form) && (s.form.editing.Some? || |s.testimonials| < Cap) && !s.form.image.Picked? ==>
              r.requests == [SaveRequest(Name, s.form.editing, PayloadOf(s.form, Unpicked(s.form.image)))]
                            + RefetchOn(reply, Collection(Name))
    ensures !Succeeded(reply) ==> r.state == s
    ensures r.requests != [] && !Succeeded(reply) ==> r.notice.Error?
    ensures r.notice == Success <==> Get(Collection(Name)) in r.requests
    ensures Succeeded(reply) && r.requests != [] && (!s.form.image.Picked? || FirstName(upload).Attached?) ==>
              r.state == Reset(s) && r.notice == Success && r.requests[|r.requests| - 1] == Get(Collection(Name))
  {
    var f := s.form;
    if !Complete(f) then Step(s, [], Warning(MissingFields))
    else if f.editing.None? && |s.testimonials| >= Cap then Step(s, [], Warning(LimitReached))
    else
      var file := PickedFile(f.image);
      match ResolveImage(file, Unpicked(f.image), upload)
      case Aborted(reason) => Step(s, UploadsFor(file), Error(reason))
      case Resolved(image) =>
        Save(UploadsFor(file), SaveRequest(Name, f.editing, PayloadOf(f, image)), reply,
             s, Reset(s), Collection(Name))
  }

  /** `handleDelete`: the shared confirm-then-DELETE, refetching the list. */
  function Delete(s: Screen, id: Id, confirmed: bool, reply: Reply): (r: Step<Screen, Payload>)
    ensures r.state == s
    ensures !confirmed ==> r.requests == [] && r.notice == Quiet
    ensures confirmed && reply.Answered? ==>
              r.requests == [Request.Delete(Item(Name, id)), Get(Collection(Name))] && r.notice == Success
    ensures confirmed && reply.Rejected? ==>
              r.requests == [Request.Delete(Item(Name, id))] && r.notice == Error(RequestFailed)
  {
    Remove(s, Name, id, Collection(Name), confirmed, reply)
  }

  /** Editing a testimonial without picking a file re-sends its stored
      image name unchanged, with no upload, even at the cap. */
  lemma EditKeepsImage(s: Screen, t: TestimonialRecord, upload: UploadReply, reply: Reply)
    requires Filled(t.name) && Filled(t.designation) && Filled(t.company) && Filled(t.content)
    ensures Submit(Edit(s, t), upload, reply).requests[0] ==
              Patch(Item(Name, t.id), Payload(t.name, t.designation, t.company, t.image, t.content))
  {
  }

  /** The worked scenario: three testimonials block a fourth with no
      request and the list unchanged; once one is gone, the same draft is
      POSTed once and the list refetched. */
  lemma CapScenario(s: Screen, upload: UploadReply, three: seq<TestimonialRecord>, two: seq<TestimonialRecord>)
    requires Complete(s.form) && s.form.editing.None? && s.form.image == NoPicture
    requires |three| == 3 && |two| == 2
    ensures var blocked := Submit(s.(testimonials := three), upload, Answered(true));
      blocked.requests == [] && blocked.notice == Warning(LimitReached)
      && blocked.state.testimonials == three
    ensures var added := Submit(s.(testimonials := two), upload, Answered(true));
      added.requests == [Post(Collection(Name), PayloadOf(s.form, None)), Get(Collection(Name))]
      && added.notice == Success
  {
  }

  /** At the cap a new testimonial is refused. A confirmed delete refetches
      the list whatever its status, and once the refetch lists one fewer
      the same draft goes ahead as a create. */
  lemma DeleteReopensCreate(s: Screen, id: Id, status: bool, remaining: seq<TestimonialRecord>,
                            upload: UploadReply, reply: Reply)
    requires Complete(s.form) && s.form.editing.None? && |s.testimonials| == Cap
    requires |remaining| == Cap - 1
    ensures Submit(s, upload, reply).requests == []
    ensures var d := Delete(s, id, true, Answered(status));
      var t := d.state.(testimonials := Refresh(d.state.testimonials, Listed(Some(remaining))).0);
      var again := Submit(t, upload, reply).requests;
      && d.requests[|d.requests| - 1] == Get(Collection(Name))
      && again != []
      && (s.form.image.Picked? ==> again[0] == Upload([s.form.image.file]))
      && (!s.form.image.Picked? ==> again[0] == Post(Collection(Name), PayloadOf(s.form, Unpicked(s.form.image))))
  {
  }
}
