/** The Video screen: one promotional video. Its presence is probed with a
    HEAD request for a fixed stored name; an upload replaces the shown
    URL; "remove" only clears the URL locally and asks nothing of the
    server. */
module VideoAdmin {
  import opened Wrappers
  import opened Protocol

  /** The API base URL the stored files are served under. */
  const Api: string := "https://bright-ants-backend.onrender.com"

  /** The stored name probed on mount. */
  const ProbeName: string := "video.mp4"

  /** `${API}/files/${name}`. */
  function FileUrl(name: string): string {
    Api + "/files/" + name
  }

  datatype Screen = Screen(videoUrl: Option<string>, videoFile: Option<File>)

  const Mounted: Screen := Screen(None, None)

  /** `!videoUrl`: the upload form is rendered, and the player is not. */
  predicate ShowsUploadForm(s: Screen) {
    s.videoUrl.None? || s.videoUrl == Some("")
  }

  /** Distinct stored names give distinct URLs, so the URL shown names the
      stored file. */
  lemma FileUrlInjective(a: string, b: string)
    requires FileUrl(a) == FileUrl(b)
    ensures a == b
  {
    var n := |Api + "/files/"|;
    assert a == FileUrl(a)[n..];
    assert b == FileUrl(b)[n..];
  }

  /** The mount effect: HEAD the fixed name; only an OK answer sets the
      URL. A rejection goes unhandled: no notice, nothing changes. */
  function Probe(s: Screen, reply: Reply): (r: Step<Screen, ()>)
    ensures r.requests == [Head(FileAt(ProbeName))]
    ensures r.notice == Quiet
    ensures r.state.videoFile == s.videoFile
    ensures Succeeded(reply) ==> r.state.videoUrl == Some(FileUrl(ProbeName))
    ensures !Succeeded(reply) ==> r.state == s
  {
    var probed := if Succeeded(reply) then s.(videoUrl := Some(FileUrl(ProbeName))) else s;
    Step(probed, [Head(FileAt(ProbeName))], Quiet)
  }

  /** `handleUpload`: no file, a warning and no request; a refused upload,
      an error and nothing changes; an answer whose first entry has a
      (non-empty) name shows that stored file and clears the picked one;
      an answer without a name changes nothing and says nothing. */
  function Upload(s: Screen, upload: UploadReply): (r: Step<Screen, ()>)
    ensures s.videoFile.None? ==> r == Step(s, [], Warning(NoFileSelected))
    ensures s.videoFile.Some? ==> r.requests == [Request.Upload([s.videoFile.value])]
    ensures s.videoFile.Some? && upload.UploadRefused? ==> r.state == s && r.notice == Error(UploadError)
    ensures s.videoFile.Some? && upload.Uploaded? && |upload.names| > 0 && Filled(upload.names[0]) ==>
              r.state == Screen(Some(FileUrl(upload.names[0])), None) && r.notice == Success
    ensures upload.Uploaded? && (|upload.names| == 0 || !Filled(upload.names[0])) ==>
              r.state == s
    ensures s.videoFile.Some? && upload.Uploaded? && (|upload.names| == 0 || !Filled(upload.names[0])) ==>
              r.notice == Quiet
    ensures r.notice != Success ==> r.state == s
  {
    match s.videoFile
    case None => Step(s, [], Warning(NoFileSelected))
    case Some(f) =>
      var sent := [Request.Upload([f])];
      match upload
      case UploadRefused => Step(s, sent, Error(UploadError))
      case Uploaded(names) =>
        if |names| > 0 && Filled(names[0]) then
          Step(Screen(Some(FileUrl(names[0])), None), sent, Success)
        else Step(s, sent, Quiet)
  }

  /** `handleDelete`: once confirmed, clear the URL locally; never a request. */
  function Remove(s: Screen, confirmed: bool): (r: Step<Screen, ()>)
    ensures r.requests == []
    ensures confirmed ==> r.state == s.(videoUrl := None) && r.notice == Success
    ensures !confirmed ==> r.state == s && r.notice == Quiet
  {
    if confirmed then Step(s.(videoUrl := None), [], Success) else Step(s, [], Quiet)
  }

  /** The URL a successful upload shows names exactly the stored file the
      server returned. */
  lemma UploadShowsStoredName(s: Screen, upload: UploadReply, name: string)
    requires Upload(s, upload).notice == Success
    requires Upload(s, upload).state.videoUrl == Some(FileUrl(name))
    ensures upload.Uploaded? && |upload.names| > 0 && name == upload.names[0]
  {
    FileUrlInjective(name, upload.names[0]);
  }

  /** A confirmed remove brings back the upload form; a successful upload
      hides it again. */
  lemma RemoveThenUpload(s: Screen, file: File, stored: string, more: seq<string>)
    requires Filled(stored)
    ensures ShowsUploadForm(Remove(s, true).state)
    ensures var t := Remove(s, true).state.(videoFile := Some(file));
      !ShowsUploadForm(Upload(t, Uploaded([stored] + more)).state)
  {
  }

  /** In every state the screen reaches from mount, the upload form shows
      exactly when there is no URL. */
  ghost predicate Reachable(s: Screen) {
    s.videoUrl.None? || exists name :: s.videoUrl == Some(FileUrl(name))
  }

  lemma ShowsUploadFormExactly(s: Screen)
    requires Reachable(s)
    ensures ShowsUploadForm(s) <==> s.videoUrl.None?
  {
    if s.videoUrl.Some? {
      var name :| s.videoUrl == Some(FileUrl(name));
      assert |FileUrl(name)| > 0;
    }
  }

  lemma StepsStayReachable(s: Screen, reply: Reply, upload: UploadReply, confirmed: bool, file: Option<File>)
    requires Reachable(s)
    ensures Reachable(Probe(s, reply).state)
    ensures Reachable(Upload(s.(videoFile := file), upload).state)
    ensures Reachable(Remove(s, confirmed).state)
  {
  }
}
