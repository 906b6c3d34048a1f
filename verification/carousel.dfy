/** The Carousel screen: two rows of slide images. Each row has its own
    list, its own picked file and its own uploading flag; an upload is
    validated on the client (presence, image type, at most 5 MiB), stored
    through POST /files, then recorded against its row. */
module Carousel {
  import opened Wrappers
  import opened Protocol

  const Name: string := "carousel-images"

  /** The largest accepted file, in bytes. */
  const MaxSize: nat := 5 * 1024 * 1024

  /** The accepted MIME types. */
  const ValidTypes: seq<string> := ["image/jpeg", "image/png", "image/gif", "image/webp", "image/svg+xml"]

  /** A slide as the API lists it. */
  datatype Slide = Slide(id: Id, filename: string)

  /** The body of POST /carousel-images. */
  datatype Placement = Placement(filename: string, row: int)

  datatype RowState = RowState(files: seq<Slide>, selected: Option<File>, uploading: bool)

  datatype Screen = Screen(row1: RowState, row2: RowState)

  const Mounted: Screen := Screen(RowState([], None, false), RowState([], None, false))

  /** The rows the screen renders and uploads to. */
  predicate IsRow(row: int) {
    row == 1 || row == 2
  }

  function RowAt(s: Screen, row: int): RowState {
    if row == 1 then s.row1 else s.row2
  }

  function WithRow(s: Screen, row: int, rs: RowState): (r: Screen)
    requires IsRow(row)
    ensures RowAt(r, row) == rs
    ensures RowAt(r, 3 - row) == RowAt(s, 3 - row)
  {
    if row == 1 then s.(row1 := rs) else s.(row2 := rs)
  }

  /** Setting the uploading flag of `row`: nothing else changes. */
  function MarkUploading(s: Screen, row: int, busy: bool): (r: Screen)
    requires IsRow(row)
    ensures RowAt(r, row) == RowAt(s, row).(uploading := busy)
    ensures RowAt(r, 3 - row) == RowAt(s, 3 - row)
  {
    WithRow(s, row, RowAt(s, row).(uploading := busy))
  }

  /** A file the screen is willing to upload. */
  predicate Acceptable(f: File) {
    f.mime in ValidTypes && f.size <= MaxSize
  }

  /** The validator, in the order presence, type, size: the notice that
      blocks the upload, or None when it may proceed. */
  function Rejection(selected: Option<File>): (r: Option<Notice>)
    ensures r.None? <==> selected.Some? && Acceptable(selected.value)
    ensures selected.None? ==> r == Some(Warning(NoFileSelected))
    ensures selected.Some? && selected.value.mime !in ValidTypes ==> r == Some(Error(UnsupportedType))
    ensures selected.Some? && selected.value.mime in ValidTypes && selected.value.size > MaxSize ==>
              r == Some(Error(FileTooLarge))
  {
    match selected
    case None => Some(Warning(NoFileSelected))
    case Some(f) =>
      if f.mime !in ValidTypes then Some(Error(UnsupportedType))
      else if f.size > MaxSize then Some(Error(FileTooLarge))
      else None
  }

  /** `handleUpload(row)`: validate the row's file; upload it; record its
      stored name against the row. The record POST's status is not
      checked: only a rejected fetch fails. Success clears the row's file
      and refetches that row alone. The uploading flag is raised for the
      row while requests are in flight and lowered at the end. */
  function Upload(s: Screen, row: int, upload: UploadReply, record: Reply): (r: Step<Screen, Placement>)
    requires IsRow(row)
    ensures RowAt(r.state, 3 - row) == RowAt(s, 3 - row)
    ensures RowAt(r.state, row).files == RowAt(s, row).files
    ensures r.requests != [] <==> Rejection(RowAt(s, row).selected).None?
    ensures Rejection(RowAt(s, row).selected).Some? ==>
              r == Step(s, [], Rejection(RowAt(s, row).selected).value)
    ensures r.requests != [] ==> r.requests[0] == Request.Upload([RowAt(s, row).selected.value])
    ensures r.requests != [] && FirstName(upload).NotAttached? ==>
              |r.requests| == 1 && r.notice == Error(FirstName(upload).reason)
    ensures r.requests != [] && FirstName(upload).Attached? ==>
              |r.requests| >= 2 && r.requests[1] == Post(Collection(Name), Placement(upload.names[0], row))
    ensures r.requests != [] && FirstName(upload).Attached? && record.Rejected? ==>
              && r.requests == [Request.Upload([RowAt(s, row).selected.value]),
                                Post(Collection(Name), Placement(upload.names[0], row))]
              && r.notice == Error(RequestFailed)
    ensures r.requests != [] && FirstName(upload).Attached? && record.Answered? ==>
              && |r.requests| == 3 && r.requests[2] == Get(Row(Name, row))
              && r.notice == Success
              && RowAt(r.state, row) == RowAt(s, row).(selected := None, uploading := false)
    ensures r.notice != Success ==> RowAt(r.state, row).selected == RowAt(s, row).selected
    ensures r.requests != [] ==> (r.notice == Success <==> FirstName(upload).Attached? && record.Answered?)
    ensures r.requests != [] && r.notice != Success ==> r.notice.Error?
    ensures r.notice == Success <==> Get(Row(Name, row)) in r.requests
    ensures r.requests != [] ==> !RowAt(r.state, row).uploading
  {
    match Rejection(RowAt(s, row).selected)
    case Some(notice) => Step(s, [], notice)
    case None =>
      var file := RowAt(s, row).selected.value;
      var busy := MarkUploading(s, row, true);
      var sent := [Request.Upload([file])];
      match FirstName(upload)
      case NotAttached(reason) => Step(MarkUploading(busy, row, false), sent, Error(reason))
      case Attached(stored) =>
        var post := Post(Collection(Name), Placement(stored, row));
        if record.Rejected? then
          Step(MarkUploading(busy, row, false), sent + [post], Error(RequestFailed))
        else
          var cleared := WithRow(busy, row, RowAt(busy, row).(selected := None));
          Step(MarkUploading(cleared, row, false), sent + [post, Get(Row(Name, row))], Success)
  }

  /** `fetchFiles(row)`: GET the row's slides; row 1 writes the first list
      and any other row the second. */
  function FetchFiles(s: Screen, row: int, reply: Listing<Slide>): (r: (Screen, Notice))
    ensures row == 1 ==> r.0.row2 == s.row2
    ensures row != 1 ==> r.0.row1 == s.row1
    ensures r.0.row1.selected == s.row1.selected && r.0.row2.selected == s.row2.selected
    ensures r.0.row1.uploading == s.row1.uploading && r.0.row2.uploading == s.row2.uploading
    ensures reply.ListRejected? ==> r == (s, Error(LoadFailed))
    ensures reply.Listed? ==>
              && r.1 == Quiet
              && (if row == 1 then r.0.row1.files else r.0.row2.files) == reply.data.GetOr([])
  {
    var (files, notice) := Refresh(if row == 1 then s.row1.files else s.row2.files, reply);
    if row == 1 then (s.(row1 := s.row1.(files := files)), notice)
    else (s.(row2 := s.row2.(files := files)), notice)
  }

  /** `handleDelete(id, row)`: the shared confirm-then-DELETE, refetching
      only that row. */
  function Delete(s: Screen, id: Id, row: int, confirmed: bool, reply: Reply): (r: Step<Screen, Placement>)
    ensures r.state == s
    ensures !confirmed ==> r.requests == [] && r.notice == Quiet
    ensures confirmed && reply.Answered? ==>
              r.requests == [Request.Delete(Item(Name, id)), Get(Row(Name, row))] && r.notice == Success
    ensures confirmed && reply.Rejected? ==>
              r.requests == [Request.Delete(Item(Name, id))] && r.notice == Error(RequestFailed)
  {
    Remove(s, Name, id, Row(Name, row), confirmed, reply)
  }

  /** The size bound is inclusive: exactly 5 MiB passes, one byte more does not. */
  lemma SizeBoundary(name: string)
    ensures Rejection(Some(File(name, "image/png", 5242880))).None?
    ensures Rejection(Some(File(name, "image/png", 5242881))) == Some(Error(FileTooLarge))
  {
  }

  /** The type check comes before the size check: an oversized file of the
      wrong type is reported as the wrong type. */
  lemma TypeBeforeSize(name: string, size: nat)
    requires size > MaxSize
    ensures Rejection(Some(File(name, "application/pdf", size))) == Some(Error(UnsupportedType))
  {
  }

  /** Success is reported even when the record POST answers with an error
      status. */
  lemma RecordStatusIgnored(s: Screen, row: int, stored: string)
    requires IsRow(row)
    requires Rejection(RowAt(s, row).selected).None?
    ensures Upload(s, row, Uploaded([stored]), Answered(false)).notice == Success
  {
  }

  /** While a row's upload is in flight only that row's flag is raised. */
  lemma BusyRowOnly(s: Screen, row: int)
    requires IsRow(row)
    ensures RowAt(MarkUploading(s, row, true), row).uploading
    ensures RowAt(MarkUploading(s, row, true), 3 - row) == RowAt(s, 3 - row)
    ensures RowAt(MarkUploading(s, row, true), row).files == RowAt(s, row).files
  {
  }

  /** A successful upload refetches its own row, and applying that
      refetch replaces exactly that row's slides; the other row is
      untouched. */
  lemma UploadThenFetch(s: Screen, row: int, stored: string, more: seq<string>, status: bool, slides: seq<Slide>)
    requires IsRow(row)
    requires Rejection(RowAt(s, row).selected).None?
    ensures var up := Upload(s, row, Uploaded([stored] + more), Answered(status));
      var fetched := FetchFiles(up.state, row, Listed(Some(slides))).0;
      && up.requests[2] == Get(Row(Name, row))
      && RowAt(fetched, row) == RowAt(s, row).(files := slides, selected := None, uploading := false)
      && RowAt(fetched, 3 - row) == RowAt(s, 3 - row)
  {
  }

  /** A confirmed delete refetches only its own row, whatever the status,
      and applying that refetch replaces exactly that row's slides; the
      other row, the selections and the flags are untouched. */
  lemma DeleteThenFetch(s: Screen, id: Id, row: int, status: bool, slides: seq<Slide>)
    requires IsRow(row)
    ensures var d := Delete(s, id, row, true, Answered(status));
      var fetched := FetchFiles(d.state, row, Listed(Some(slides))).0;
      && d.requests[|d.requests| - 1] == Get(Row(Name, row))
      && RowAt(fetched, row) == RowAt(s, row).(files := slides)
      && RowAt(fetched, 3 - row) == RowAt(s, 3 - row)
  {
  }
}
