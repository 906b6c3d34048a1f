/** The Promotional Offers screen: at most four offers, each with a title,
    a description and up to three images. The form holds three image
    slots; each slot carries the stored name it was loaded with and,
    separately, a newly picked file. */
module PromotionalOffers {
  import opened Wrappers
  import opened Protocol

  const Name: string := "promotional-offers"

  /** The client-side cap on the number of offers, checked on create only. */
  const Cap: nat := 4

  /** The number of image slots in the form. */
  const Slots: nat := 3

  /** A promotional offer as the API returns it; `images` is absent when
      the record has none. */
  datatype PromoRecord = PromoRecord(id: Id, title: string, description: string, images: Option<seq<string>>)

  /** The JSON body of a save. */
  datatype Payload = Payload(title: string, description: string, images: seq<string>)

  /** The form: the record being edited (none on create), the text fields,
      the picked file of each slot and the stored name of each slot. */
  datatype Form = Form(editing: Option<Id>, title: string, description: string,
                       newFiles: seq<Option<File>>, existing: seq<string>)

  predicate WellFormed(f: Form) {
    |f.newFiles| == Slots && |f.existing| == Slots
  }

  /** The form as first shown and as `resetForm` leaves it. */
  const EmptyForm: Form := Form(None, "", "", [None, None, None], ["", "", ""])

  datatype Screen = Screen(offers: seq<PromoRecord>, form: Form)

  /** `existingImages.filter(Boolean)`: the non-empty names, in slot order. */
  function PresentNames(names: seq<string>): (r: seq<string>)
    ensures |r| <= |names|
    ensures forall k :: 0 <= k < |r| ==> Filled(r[k])
    ensures forall x :: x in r <==> x in names && Filled(x)
    ensures (forall k :: 0 <= k < |names| ==> Filled(names[k])) ==> r == names
    decreases |names|
  {
    if |names| == 0 then []
    else (if Filled(names[0]) then [names[0]] else []) + PresentNames(names[1..])
  }

  lemma {:induction false} PresentNamesAppend(a: seq<string>, b: seq<string>)
    ensures PresentNames(a + b) == PresentNames(a) + PresentNames(b)
    decreases |a|
  {
    if |a| == 0 {
      assert a + b == b;
    } else {
      assert (a + b)[1..] == a[1..] + b;
      PresentNamesAppend(a[1..], b);
    }
  }

  /** The files of the slots that hold one, in slot order. */
  function ChosenFiles(slots: seq<Option<File>>): (r: seq<File>)
    ensures |r| <= |slots|
    ensures forall f :: f in r <==> Some(f) in slots
    ensures r == [] <==> forall k :: 0 <= k < |slots| ==> slots[k].None?
    decreases |slots|
  {
    if |slots| == 0 then []
    else
      var rest := ChosenFiles(slots[1..]);
      assert forall f :: Some(f) in slots <==> slots[0] == Some(f) || Some(f) in slots[1..] by {
        assert slots == [slots[0]] + slots[1..];
      }
      match slots[0]
      case Some(f) => [f] + rest
      case None => rest
  }

  /** Collecting files distributes over concatenation: the files keep
      slot order, one per filled slot. */
  lemma {:induction false} ChosenFilesAppend(a: seq<Option<File>>, b: seq<Option<File>>)
    ensures ChosenFiles(a + b) == ChosenFiles(a) + ChosenFiles(b)
    decreases |a|
  {
    if |a| == 0 {
      assert a + b == b;
    } else {
      assert (a + b)[1..] == a[1..] + b;
      ChosenFilesAppend(a[1..], b);
    }
  }

  /** One slot contributes its file, if it holds one. */
  lemma ChosenFilesSingle(slot: Option<File>)
    ensures ChosenFiles([slot]) == if slot.Some? then [slot.value] else []
  {
    assert [slot][1..] == [];
  }

  /** The three slots' files go into the one upload in slot order. */
  lemma ChosenFilesInSlotOrder(a: Option<File>, b: Option<File>, c: Option<File>)
    ensures ChosenFiles([a, b, c]) ==
              (if a.Some? then [a.value] else []) + (if b.Some? then [b.value] else [])
              + (if c.Some? then [c.value] else [])
  {
    assert [a, b, c] == [a] + [b] + [c];
    ChosenFilesAppend([a] + [b], [c]);
    ChosenFilesAppend([a], [b]);
    ChosenFilesSingle(a);
    ChosenFilesSingle(b);
    ChosenFilesSingle(c);
  }

  /** `handleChange` on slot `i`: the picked file (or none) replaces that
      slot's file; the slot's stored name is kept. */
  function SelectFile(f: Form, i: nat, file: Option<File>): (r: Form)
    requires WellFormed(f) && i < Slots
    ensures WellFormed(r)
    ensures r.newFiles[i] == file
    ensures r.existing == f.existing
    ensures forall j :: 0 <= j < Slots && j != i ==> r.newFiles[j] == f.newFiles[j]
    ensures r.editing == f.editing && r.title == f.title && r.description == f.description
  {
    f.(newFiles := f.newFiles[i := file])
  }

  /** `handleRemoveExistingImage(i)`: slot `i` loses both its stored name
      and its picked file; every other slot and field is unchanged. */
  function RemoveExistingImage(f: Form, i: nat): (r: Form)
    requires WellFormed(f) && i < Slots
    ensures WellFormed(r)
    ensures r.existing[i] == "" && r.newFiles[i].None?
    ensures forall j :: 0 <= j < Slots && j != i ==>
              r.existing[j] == f.existing[j] && r.newFiles[j] == f.newFiles[j]
    ensures r.editing == f.editing && r.title == f.title && r.description == f.description
  {
    f.(existing := f.existing[i := ""], newFiles := f.newFiles[i := None])
  }

  /** The slot names a record loads into the form: kept as they are when
      there are exactly three, else the first three with "" for each
      missing one. */
  function SlotNames(images: seq<string>): (r: seq<string>)
    ensures |r| == Slots
    ensures forall k :: 0 <= k < Slots ==> r[k] == (if k < |images| then images[k] else "")
  {
    if |images| == 3 then images
    else [if 0 < |images| then images[0] else "",
          if 1 < |images| then images[1] else "",
          if 2 < |images| then images[2] else ""]
  }

  /** `handleEdit`: load the record into the form in edit mode, with no
      picked files. A record without `images` makes the handler throw when
      it reads their length, before any state is set: nothing changes. */
  function Edit(s: Screen, o: PromoRecord): (r: Screen)
    ensures o.images.None? ==> r == s
    ensures o.images.Some? ==>
              && WellFormed(r.form)
              && r.form.editing == Some(o.id)
              && r.form.title == o.title && r.form.description == o.description
              && (forall k :: 0 <= k < Slots ==> r.form.newFiles[k].None?)
              && (forall k :: 0 <= k < Slots ==>
                    r.form.existing[k] == (if k < |o.images.value| then o.images.value[k] else ""))
    ensures r.offers == s.offers
  {
    match o.images
    case None => s
    case Some(images) =>
      s.(form := Form(Some(o.id), o.title, o.description, [None, None, None], SlotNames(images)))
  }

  /** `resetForm`: the empty form, not editing. */
  function Reset(s: Screen): (r: Screen)
    ensures r.form.editing.None? && WellFormed(r.form)
    ensures r.form.title == "" && r.form.description == ""
    ensures forall k :: 0 <= k < Slots ==> r.form.newFiles[k].None? && r.form.existing[k] == ""
    ensures r.offers == s.offers
  {
    s.(form := EmptyForm)
  }

  /** The submit passes its guards: editing, or below the cap; and both
      text fields filled. */
  predicate Ready(s: Screen) {
    (s.form.editing.Some? || |s.offers| < Cap) && Filled(s.form.title) && Filled(s.form.description)
  }

  /** The save request for the given image list. */
  function SaveWith(f: Form, images: seq<string>): Request<Payload> {
    SaveRequest(Name, f.editing, Payload(f.title, f.description, images))
  }

  /** `handleSubmit`: the cap (create only), then the two text fields; then
      one upload carrying every picked file, if any; then the save, whose
      images are the stored names in slot order followed by the uploaded
      names in response order. */
  function Submit(s: Screen, upload: UploadReply, reply: Reply): (r: Step<Screen, Payload>)
    ensures s.form.editing.None? && |s.offers| >= Cap ==> r == Step(s, [], Warning(LimitReached))
    ensures (s.form.editing.Some? || |s.offers| < Cap) && !Ready(s) ==>
              r == Step(s, [], Warning(MissingFields))
    ensures r.requests != [] <==> Ready(s)
    ensures Ready(s) ==>
              (r.requests[0].Upload? <==> ChosenFiles(s.form.newFiles) != [])
    ensures Ready(s) && ChosenFiles(s.form.newFiles) != [] ==>
              r.requests[0] == Upload(ChosenFiles(s.form.newFiles))
    ensures Ready(s) && ChosenFiles(s.form.newFiles) != [] && upload.UploadRefused? ==>
              r == Step(s, [Upload(ChosenFiles(s.form.newFiles))], Error(UploadError))
    ensures Ready(s) && ChosenFiles(s.form.newFiles) == [] ==>
              r.requests == [SaveWith(s.form, PresentNames(s.form.existing))] + RefetchOn(reply, Collection(Name))
    ensures Ready(s) && ChosenFiles(s.form.newFiles) != [] && upload.Uploaded? ==>
              r.requests == [Upload(ChosenFiles(s.form.newFiles)),
                             SaveWith(s.form, PresentNames(s.form.existing) + upload.names)]
                            + RefetchOn(reply, Collection(Name))
    ensures !Succeeded(reply) ==> r.state == s
    ensures r.requests != [] && !Succeeded(reply) ==> r.notice.Error?
    ensures r.notice == Success <==> Get(Collection(Name)) in r.requests
    ensures Ready(s) && (ChosenFiles(s.form.newFiles) == [] || upload.Uploaded?) && Succeeded(reply) ==>
              r.state == Reset(s) && r.notice == Success && r.requests[|r.requests| - 1] == Get(Collection(Name))
  {
    var f := s.form;
    if f.editing.None? && |s.offers| >= Cap then Step(s, [], Warning(LimitReached))
    else if !Filled(f.title) || !Filled(f.description) then Step(s, [], Warning(MissingFields))
    else
      var kept := PresentNames(f.existing);
      var files := ChosenFiles(f.newFiles);
      if files == [] then
        Save([], SaveWith(f, kept), reply, s, Reset(s), Collection(Name))
      else
        match upload
        case UploadRefused => Step(s, [Upload(files)], Error(UploadError))
        case Uploaded(names) =>
          Save([Upload(files)], SaveWith(f, kept + names), reply, s, Reset(s), Collection(Name))
  }

  /** `handleDelete`: the shared confirm-then-DELETE, refetching the list. */
  function Delete(s: Screen, id: Id, confirmed: bool, reply: Reply): (r: Step<Screen, Payload>)
    ensures r.state == s
    ensures !confirmed ==> r.requests == [] && r.notice == Quiet
    ensures confirmed && reply.Answered? ==>
              r.requests == [Request.Delete(Item(Name, id)), Get(Collection(Name))] && r.notice == Success
    ensures confirmed && reply.Rejected? ==>
              r.requests == [Request.Delete(Item(Name, id))] && r.notice == Error(RequestFailed)
  {
    Remove(s, Name, id, Collection(Name), confirmed, reply)
  }

  /** A slot with both a stored name and a newly picked file sends both:
      picking a file never clears the stored name. */
  lemma ReplacedSlotSendsBoth(s: Screen, i: nat, file: File, upload: UploadReply, reply: Reply)
    requires WellFormed(s.form) && i < Slots
    requires Filled(s.form.existing[i])
    requires upload.Uploaded?
    requires Ready(s)
    ensures var t := s.(form := SelectFile(s.form, i, Some(file)));
      var sent := Submit(t, upload, reply).requests[1].body.images;
      s.form.existing[i] in sent && forall n :: n in upload.names ==> n in sent
  {
    var t := s.(form := SelectFile(s.form, i, Some(file)));
    assert Some(file) in t.form.newFiles;
    assert file in ChosenFiles(t.form.newFiles);
    assert s.form.existing[i] in PresentNames(t.form.existing);
  }

  /** Opening an offer for edit and saving without picking files sends its
      first three images with the empty names dropped: an offer with more
      than three images loses the rest. */
  lemma {:induction false} EditedResubmit(s: Screen, o: PromoRecord, upload: UploadReply, reply: Reply)
    requires Filled(o.title) && Filled(o.description)
    ensures o.images.Some? ==>
      var images := o.images.value;
      var sent := Submit(Edit(s, o), upload, reply).requests;
      sent[0] == Patch(Item(Name, o.id),
                       Payload(o.title, o.description,
                               PresentNames(if |images| <= Slots then images else images[..Slots])))
  {
    if o.images.Some? {
      var t := Edit(s, o);
      assert ChosenFiles(t.form.newFiles) == [] by {
        assert forall k :: 0 <= k < |t.form.newFiles| ==> t.form.newFiles[k].None?;
      }
      LoadedNames(o.images.value);
    }
  }

  /** The names the loaded slots send: the record's first three, blanks dropped. */
  lemma {:induction false} LoadedNames(images: seq<string>)
    ensures PresentNames(SlotNames(images)) ==
              PresentNames(if |images| <= Slots then images else images[..Slots])
  {
    var names := SlotNames(images);
    if |images| <= Slots {
      var pad := names[|images|..];
      assert names == images + pad;
      assert PresentNames(pad) == [] by {
        AllBlank(pad);
      }
      PresentNamesAppend(images, pad);
    } else {
      assert names == images[..Slots];
    }
  }

  /** A list of empty names contributes nothing. */
  lemma {:induction false} AllBlank(names: seq<string>)
    requires forall k :: 0 <= k < |names| ==> names[k] == ""
    ensures PresentNames(names) == []
    decreases |names|
  {
    if |names| > 0 {
      AllBlank(names[1..]);
    }
  }

  /** Removing a slot's image and saving without new files sends every
      other stored name and not the removed one (when no other slot holds
      the same name). */
  lemma RemovedImageNotSent(s: Screen, i: nat, upload: UploadReply, reply: Reply)
    requires WellFormed(s.form) && i < Slots
    requires forall k :: 0 <= k < Slots ==> s.form.newFiles[k].None?
    requires forall k :: 0 <= k < Slots && k != i ==> s.form.existing[k] != s.form.existing[i]
    requires Ready(s)
    ensures var t := s.(form := RemoveExistingImage(s.form, i));
      var sent := Submit(t, upload, reply).requests[0].body.images;
      && s.form.existing[i] !in sent
      && forall k :: 0 <= k < Slots && k != i && Filled(s.form.existing[k]) ==> s.form.existing[k] in sent
  {
    var t := s.(form := RemoveExistingImage(s.form, i));
    assert ChosenFiles(t.form.newFiles) == [] by {
      assert forall k :: 0 <= k < |t.form.newFiles| ==> t.form.newFiles[k].None?;
    }
    forall k | 0 <= k < Slots && k != i && Filled(s.form.existing[k])
      ensures s.form.existing[k] in PresentNames(t.form.existing)
    {
      assert t.form.existing[k] == s.form.existing[k];
    }
  }
}
