/** The post composer: its form state, the submit guard, and the
    upload-then-write sequence of each submission.

    The image store and the document store are opaque. Each request the
    composer makes to them is recorded in an exchange log (`Io`), and each
    reply comes back as an event naming the submission it answers. A
    submission that passes the guard gets the next submission number and
    stays pending until its last reply arrives. Several submissions may be
    pending at once, since nothing in the form stops a second click. */
module Composer {
  import opened Wrappers
  import opened Records

  const RequiredMessage: string := "Title and tags are required"
  const CreatedMessage: string := "Post created successfully!"

  /** A file picked in the browser; the upload path uses only its name. */
  datatype ImageFile = ImageFile(name: string)

  /** Where an attached image is uploaded, and where its URL is looked up. */
  function UploadPath(f: ImageFile): string {
    "images/" + f.name
  }

  /** Files with different names are uploaded to different places, so an
      upload never lands on another name's path. */
  lemma UploadPathInjective(f: ImageFile, g: ImageFile)
    ensures UploadPath(f) == UploadPath(g) <==> f == g
  {
    if UploadPath(f) == UploadPath(g) {
      assert f.name == UploadPath(f)[7..] == UploadPath(g)[7..] == g.name;
    }
  }

  /** The composer's state fields. */
  datatype Form = Form(
    postType: PostType,
    title: string,
    description: string,
    abstractText: string,
    articleText: string,
    tags: string,
    image: Option<ImageFile>,
    error: string,
    success: string)

  /** The form when the page opens. */
  function EmptyForm(): Form {
    Form(Question, "", "", "", "", "", None, "", "")
  }

  /** The values a submission captures: the handlers of one click read the
      form as it stood when the click happened. */
  function DraftOf(f: Form): Draft {
    Draft(f.postType, f.title, f.description, f.abstractText, f.articleText, f.tags)
  }

  /** One user edit of the form. `PickFiles` carries the first file of the
      file input's list, if there is one. */
  datatype Edit =
    | SelectPostType(newType: PostType)
    | TypeTitle(text: string)
    | TypeDescription(text: string)
    | TypeAbstract(text: string)
    | TypeArticleText(text: string)
    | TypeTags(text: string)
    | PickFiles(first: Option<ImageFile>)

  /** An edit changes its own field and nothing else; picking no file keeps
      the image chosen before. */
  function ApplyEdit(f: Form, e: Edit): (g: Form)
    ensures g.error == f.error && g.success == f.success
    ensures g.postType == (if e.SelectPostType? then e.newType else f.postType)
    ensures g.title == (if e.TypeTitle? then e.text else f.title)
    ensures g.description == (if e.TypeDescription? then e.text else f.description)
    ensures g.abstractText == (if e.TypeAbstract? then e.text else f.abstractText)
    ensures g.articleText == (if e.TypeArticleText? then e.text else f.articleText)
    ensures g.tags == (if e.TypeTags? then e.text else f.tags)
    ensures g.image == (if e.PickFiles? && e.first.Some? then e.first else f.image)
  {
    match e
    case SelectPostType(t) => f.(postType := t)
    case TypeTitle(s) => f.(title := s)
    case TypeDescription(s) => f.(description := s)
    case TypeAbstract(s) => f.(abstractText := s)
    case TypeArticleText(s) => f.(articleText := s)
    case TypeTags(s) => f.(tags := s)
    case PickFiles(first) => if first.Some? then f.(image := first) else f
  }

  /** The submit guard: JavaScript truthiness of the two strings, so only
      the empty string fails; whitespace passes. */
  predicate CanSubmit(f: Form) {
    f.title != "" && f.tags != ""
  }

  /** What a pending submission waits for. */
  datatype Request =
    | AwaitUpload(draft: Draft, file: ImageFile)
    | AwaitWrite(doc: Doc)

  datatype State = State(form: Form, pending: map<nat, Request>, nextSub: nat)

  function Initial(): State {
    State(EmptyForm(), map[], 0)
  }

  /** One entry of the exchange with the stores: a request the composer
      issues, or a reply it receives, tagged with its submission. */
  datatype Io =
    | Upload(sub: nat, path: string, file: ImageFile)
    | UploadError(sub: nat, message: string)
    | UrlResolved(sub: nat, url: string)
    | UrlError(sub: nat)
    | Write(sub: nat, doc: Doc)
    | WriteOk(sub: nat)
    | WriteError(sub: nat, message: string)

  datatype Stepped = Stepped(state: State, io: seq<Io>)

  /** No request or reply in `io` is a document write. */
  predicate NoWrite(io: seq<Io>) {
    forall i :: 0 <= i < |io| ==> !io[i].Write?
  }

  /** The draft fields are the same in both forms. */
  predicate SameDraft(f: Form, g: Form) {
    DraftOf(f) == DraftOf(g) && f.image == g.image
  }

  /** Clicking Post. A form failing the guard only gets the required-fields
      error and nothing is sent. Otherwise the submission is numbered; with
      an image only the upload is issued, without one the document (with an
      empty image URL) is written at once. The form itself is untouched. */
  function Submit(s: State, now: Timestamp): (t: Stepped)
    ensures !CanSubmit(s.form) ==>
      t.io == [] && t.state == s.(form := s.form.(error := RequiredMessage))
    ensures CanSubmit(s.form) ==>
      && t.state.form == s.form
      && t.state.nextSub == s.nextSub + 1
      && s.nextSub in t.state.pending
      && t.state.pending - {s.nextSub} == s.pending - {s.nextSub}
      && |t.io| == 1 && t.io[0].sub == s.nextSub
    ensures CanSubmit(s.form) && s.form.image.None? ==>
      && t.io[0].Write?
      && t.io[0].doc == Assemble(DraftOf(s.form), "", now)
      && t.io[0].doc["imageUrl"] == Str("")
      && t.state.pending[s.nextSub] == AwaitWrite(t.io[0].doc)
    ensures CanSubmit(s.form) && s.form.image.Some? ==>
      && t.io == [Upload(s.nextSub, UploadPath(s.form.image.value), s.form.image.value)]
      && t.state.pending[s.nextSub] == AwaitUpload(DraftOf(s.form), s.form.image.value)
  {
    if !CanSubmit(s.form) then
      Stepped(s.(form := s.form.(error := RequiredMessage)), [])
    else
      var sub := s.nextSub;
      match s.form.image
      case Some(file) =>
        Stepped(s.(pending := s.pending[sub := AwaitUpload(DraftOf(s.form), file)], nextSub := sub + 1),
                [Upload(sub, UploadPath(file), file)])
      case None =>
        var doc := Assemble(DraftOf(s.form), "", now);
        Stepped(s.(pending := s.pending[sub := AwaitWrite(doc)], nextSub := sub + 1), [Write(sub, doc)])
  }

  predicate AwaitsUpload(s: State, sub: nat) {
    sub in s.pending && s.pending[sub].AwaitUpload?
  }

  predicate AwaitsWrite(s: State, sub: nat) {
    sub in s.pending && s.pending[sub].AwaitWrite?
  }

  /** The upload reported an error: its message is shown, the submission is
      dropped, and no document is written for it. */
  function OnUploadError(s: State, sub: nat, message: string): (t: Stepped)
    ensures NoWrite(t.io)
    ensures SameDraft(t.state.form, s.form) && t.state.form.success == s.form.success
    ensures t.state.nextSub == s.nextSub
    ensures AwaitsUpload(s, sub) ==>
      && t.state.form.error == message
      && t.state.pending == s.pending - {sub}
      && t.io == [UploadError(sub, message)]
    ensures !AwaitsUpload(s, sub) ==> t == Stepped(s, [])
  {
    if AwaitsUpload(s, sub) then
      Stepped(s.(form := s.form.(error := message), pending := s.pending - {sub}), [UploadError(sub, message)])
    else
      Stepped(s, [])
  }

  /** The upload finished and its download URL resolved: the document is
      written from the draft captured at submission, carrying that URL. */
  function OnUploadComplete(s: State, sub: nat, url: string, now: Timestamp): (t: Stepped)
    ensures t.state.form == s.form && t.state.nextSub == s.nextSub
    ensures AwaitsUpload(s, sub) ==>
      && |t.io| == 2
      && t.io[0] == UrlResolved(sub, url)
      && t.io[1].Write? && t.io[1].sub == sub
      && t.io[1].doc == Assemble(s.pending[sub].draft, url, now)
      && t.io[1].doc["imageUrl"] == Str(url)
      && t.state.pending == s.pending[sub := AwaitWrite(t.io[1].doc)]
    ensures !AwaitsUpload(s, sub) ==> t == Stepped(s, [])
  {
    if AwaitsUpload(s, sub) then
      var doc := Assemble(s.pending[sub].draft, url, now);
      Stepped(s.(pending := s.pending[sub := AwaitWrite(doc)]), [UrlResolved(sub, url), Write(sub, doc)])
    else
      Stepped(s, [])
  }

  /** The upload finished but its download URL could not be resolved: the
      failure goes unhandled, so nothing is shown and nothing is written. */
  function OnUrlError(s: State, sub: nat): (t: Stepped)
    ensures NoWrite(t.io)
    ensures t.state.form == s.form && t.state.nextSub == s.nextSub
    ensures AwaitsUpload(s, sub) ==> t.state.pending == s.pending - {sub} && t.io == [UrlError(sub)]
    ensures !AwaitsUpload(s, sub) ==> t == Stepped(s, [])
  {
    if AwaitsUpload(s, sub) then Stepped(s.(pending := s.pending - {sub}), [UrlError(sub)])
    else Stepped(s, [])
  }

  /** The form after a successful write: the success message is set, the
      texts and the image are cleared; the post type and any earlier error
      message stay as they were. */
  function ClearAfterWrite(f: Form): (g: Form)
    ensures g.success == CreatedMessage
    ensures g.title == "" && g.description == "" && g.abstractText == ""
    ensures g.articleText == "" && g.tags == "" && g.image.None?
    ensures g.postType == f.postType && g.error == f.error
    ensures !CanSubmit(g)
  {
    f.(success := CreatedMessage, title := "", description := "", abstractText := "",
       articleText := "", tags := "", image := None)
  }

  /** The store accepted the document. */
  function OnWriteOk(s: State, sub: nat): (t: Stepped)
    ensures t.state.nextSub == s.nextSub
    ensures AwaitsWrite(s, sub) ==>
      && t.state.form == ClearAfterWrite(s.form)
      && t.state.pending == s.pending - {sub}
      && t.io == [WriteOk(sub)]
    ensures !AwaitsWrite(s, sub) ==> t == Stepped(s, [])
  {
    if AwaitsWrite(s, sub) then
      Stepped(s.(form := ClearAfterWrite(s.form), pending := s.pending - {sub}), [WriteOk(sub)])
    else
      Stepped(s, [])
  }

  /** The store rejected the document: its message is shown verbatim and
      every draft field stays for a retry. */
  function OnWriteError(s: State, sub: nat, message: string): (t: Stepped)
    ensures SameDraft(t.state.form, s.form) && t.state.form.success == s.form.success
    ensures t.state.nextSub == s.nextSub
    ensures AwaitsWrite(s, sub) ==>
      && t.state.form.error == message
      && t.state.pending == s.pending - {sub}
      && t.io == [WriteError(sub, message)]
    ensures !AwaitsWrite(s, sub) ==> t == Stepped(s, [])
  {
    if AwaitsWrite(s, sub) then
      Stepped(s.(form := s.form.(error := message), pending := s.pending - {sub}), [WriteError(sub, message)])
    else
      Stepped(s, [])
  }

  /** A rejected write leaves the draft for a retry: clicking Post again
      with the form as it stands submits the same draft afresh, writing its
      document at once without an image or uploading the same file again
      with one. */
  lemma RetryAfterWriteError(s: State, sub: nat, message: string, now: Timestamp)
    requires AwaitsWrite(s, sub)
    ensures var t := OnWriteError(s, sub, message).state;
      var retry := Submit(t, now);
      && SameDraft(t.form, s.form)
      && CanSubmit(t.form) == CanSubmit(s.form)
      && (CanSubmit(s.form) && s.form.image.None? ==>
            retry.io == [Write(t.nextSub, Assemble(DraftOf(s.form), "", now))])
      && (CanSubmit(s.form) && s.form.image.Some? ==>
            retry.io == [Upload(t.nextSub, UploadPath(s.form.image.value), s.form.image.value)])
  {
  }

  /** After a successful write the cleared form fails the guard: clicking
      Post again only shows the required-fields error and sends nothing. */
  lemma NoResubmitAfterWriteOk(s: State, sub: nat, now: Timestamp)
    requires AwaitsWrite(s, sub)
    ensures var t := OnWriteOk(s, sub).state;
      var again := Submit(t, now);
      && again.io == []
      && again.state.form.error == RequiredMessage
      && again.state.pending == t.pending
      && again.state.nextSub == t.nextSub
  {
  }

  /** Everything that can happen to the composer: a user action, or a reply
      from one of the stores. The clock readings are inputs. */
  datatype Event =
    | UserEdit(edit: Edit)
    | ClickPost(now: Timestamp)
    | UploadFailed(sub: nat, message: string)
    | UploadDone(sub: nat, url: string, now: Timestamp)
    | UrlFailed(sub: nat)
    | WriteSucceeded(sub: nat)
    | WriteFailed(sub: nat, message: string)

  function Step(s: State, e: Event): Stepped {
    match e
    case UserEdit(edit) => Stepped(s.(form := ApplyEdit(s.form, edit)), [])
    case ClickPost(now) => Submit(s, now)
    case UploadFailed(sub, message) => OnUploadError(s, sub, message)
    case UploadDone(sub, url, now) => OnUploadComplete(s, sub, url, now)
    case UrlFailed(sub) => OnUrlError(s, sub)
    case WriteSucceeded(sub) => OnWriteOk(s, sub)
    case WriteFailed(sub, message) => OnWriteError(s, sub, message)
  }

  /** Runs the events in order, collecting the exchange they cause. */
  function Run(s: State, events: seq<Event>): Stepped
    decreases |events|
  {
    if events == [] then Stepped(s, [])
    else
      var first := Step(s, events[0]);
      var rest := Run(first.state, events[1..]);
      Stepped(rest.state, first.io + rest.io)
  }

  // ---------------------------------------------------------------------
  // The per-submission protocol

  datatype IoKind = KUpload | KUploadError | KUrlResolved | KUrlError | KWrite | KWriteOk | KWriteError

  function KindOf(x: Io): IoKind {
    match x
    case Upload(_, _, _) => KUpload
    case UploadError(_, _) => KUploadError
    case UrlResolved(_, _) => KUrlResolved
    case UrlError(_) => KUrlError
    case Write(_, _) => KWrite
    case WriteOk(_) => KWriteOk
    case WriteError(_, _) => KWriteError
  }

  /** The kinds of the entries of `log` that belong to submission `sub`, in
      order. */
  function History(log: seq<Io>, sub: nat): seq<IoKind> {
    if log == [] then []
    else History(log[..|log| - 1], sub) + (if log[|log| - 1].sub == sub then [KindOf(log[|log| - 1])] else [])
  }

  lemma {:induction false} HistoryAppend(log: seq<Io>, more: seq<Io>, sub: nat)
    ensures History(log + more, sub) == History(log, sub) + History(more, sub)
    decreases |more|
  {
    if more != [] {
      var last := |more| - 1;
      var whole := log + more;
      assert whole[..|whole| - 1] == log + more[..last];
      assert whole[|whole| - 1] == more[last];
      HistoryAppend(log, more[..last], sub);
      var tail := if more[last].sub == sub then [KindOf(more[last])] else [];
      calc {
        History(whole, sub);
        History(log + more[..last], sub) + tail;
        History(log, sub) + History(more[..last], sub) + tail;
        History(log, sub) + (History(more[..last], sub) + tail);
        History(log, sub) + History(more, sub);
      }
    } else {
      assert log + more == log;
    }
  }

  /** The six ways a numbered submission can end. */
  predicate Settled(h: seq<IoKind>) {
    || h == [KUpload, KUploadError]
    || h == [KUpload, KUrlError]
    || h == [KWrite, KWriteOk]
    || h == [KWrite, KWriteError]
    || h == [KUpload, KUrlResolved, KWrite, KWriteOk]
    || h == [KUpload, KUrlResolved, KWrite, KWriteError]
  }

  /** The exchange of submission `sub` so far matches its state: nothing
      yet for a number not handed out, one of the three in-flight prefixes
      for a pending submission, and a settled history otherwise. */
  ghost predicate Agrees(s: State, log: seq<Io>, sub: nat) {
    var h := History(log, sub);
    if sub >= s.nextSub then sub !in s.pending && h == []
    else if sub in s.pending then
      match s.pending[sub]
      case AwaitUpload(_, _) => h == [KUpload]
      case AwaitWrite(_) => h == [KWrite] || h == [KUpload, KUrlResolved, KWrite]
    else Settled(h)
  }

  /** Every document written in `log` is a well-formed post. */
  ghost predicate WritesPosts(log: seq<Io>) {
    forall i :: 0 <= i < |log| && log[i].Write? ==> Decode(log[i].doc).Some?
  }

  /** Every document waiting for its write is a well-formed post. */
  ghost predicate PendingPosts(s: State) {
    forall sub :: sub in s.pending && s.pending[sub].AwaitWrite? ==> Decode(s.pending[sub].doc).Some?
  }

  ghost predicate WritesWellFormed(s: State, log: seq<Io>) {
    WritesPosts(log) && PendingPosts(s)
  }

  lemma WritesPostsAppend(log: seq<Io>, more: seq<Io>)
    requires WritesPosts(log) && WritesPosts(more)
    ensures WritesPosts(log + more)
  {
    var whole := log + more;
    forall i | 0 <= i < |whole| && whole[i].Write?
      ensures Decode(whole[i].doc).Some?
    {
      if i >= |log| {
        assert whole[i] == more[i - |log|];
      }
    }
  }

  ghost predicate Inv(s: State, log: seq<Io>) {
    && (forall sub: nat :: Agrees(s, log, sub))
    && WritesWellFormed(s, log)
  }

  lemma InitialInv()
    ensures Inv(Initial(), [])
  {
  }

  lemma {:induction false} HistoryOfOne(x: Io, sub: nat)
    ensures History([x], sub) == (if x.sub == sub then [KindOf(x)] else [])
  {
    assert [x][..0] == [];
  }

  lemma {:induction false} HistoryOfTwo(x: Io, y: Io, sub: nat)
    ensures History([x, y], sub) ==
      (if x.sub == sub then [KindOf(x)] else []) + (if y.sub == sub then [KindOf(y)] else [])
  {
    assert [x, y][..1] == [x];
    HistoryOfOne(x, sub);
  }

  /** The history of `sub` after a step that issued at most one entry. */
  lemma HistoryAfterOne(log: seq<Io>, io: seq<Io>, sub: nat)
    requires |io| <= 1
    ensures History(log + io, sub) ==
      History(log, sub) + (if io != [] && io[0].sub == sub then [KindOf(io[0])] else [])
  {
    HistoryAppend(log, io, sub);
    if io != [] {
      HistoryOfOne(io[0], sub);
      assert io == [io[0]];
    }
  }

  lemma SubmitAgrees(s: State, log: seq<Io>, now: Timestamp, sub: nat)
    requires Agrees(s, log, sub)
    ensures Agrees(Submit(s, now).state, log + Submit(s, now).io, sub)
  {
    HistoryAfterOne(log, Submit(s, now).io, sub);
  }

  lemma UploadErrorAgrees(s: State, log: seq<Io>, x: nat, message: string, sub: nat)
    requires Agrees(s, log, sub)
    ensures Agrees(OnUploadError(s, x, message).state, log + OnUploadError(s, x, message).io, sub)
  {
    HistoryAfterOne(log, OnUploadError(s, x, message).io, sub);
  }

  lemma UploadCompleteAgrees(s: State, log: seq<Io>, x: nat, url: string, now: Timestamp, sub: nat)
    requires Agrees(s, log, sub)
    ensures Agrees(OnUploadComplete(s, x, url, now).state, log + OnUploadComplete(s, x, url, now).io, sub)
  {
    var t := OnUploadComplete(s, x, url, now);
    HistoryAppend(log, t.io, sub);
    if AwaitsUpload(s, x) {
      assert t.io == [t.io[0], t.io[1]];
      HistoryOfTwo(t.io[0], t.io[1], sub);
    } else {
      assert log + t.io == log;
    }
  }

  lemma UrlErrorAgrees(s: State, log: seq<Io>, x: nat, sub: nat)
    requires Agrees(s, log, sub)
    ensures Agrees(OnUrlError(s, x).state, log + OnUrlError(s, x).io, sub)
  {
    HistoryAfterOne(log, OnUrlError(s, x).io, sub);
  }

  lemma WriteOkAgrees(s: State, log: seq<Io>, x: nat, sub: nat)
    requires Agrees(s, log, sub)
    ensures Agrees(OnWriteOk(s, x).state, log + OnWriteOk(s, x).io, sub)
  {
    HistoryAfterOne(log, OnWriteOk(s, x).io, sub);
  }

  lemma WriteErrorAgrees(s: State, log: seq<Io>, x: nat, message: string, sub: nat)
    requires Agrees(s, log, sub)
    ensures Agrees(OnWriteError(s, x, message).state, log + OnWriteError(s, x, message).io, sub)
  {
    HistoryAfterOne(log, OnWriteError(s, x, message).io, sub);
  }

  /** One step keeps submission `sub`'s exchange in line with its state. */
  lemma StepAgrees(s: State, log: seq<Io>, e: Event, sub: nat)
    requires Agrees(s, log, sub)
    ensures Agrees(Step(s, e).state, log + Step(s, e).io, sub)
  {
    match e
    case UserEdit(_) => assert log + [] == log;
    case ClickPost(now) => SubmitAgrees(s, log, now, sub);
    case UploadFailed(x, message) => UploadErrorAgrees(s, log, x, message, sub);
    case UploadDone(x, url, now) => UploadCompleteAgrees(s, log, x, url, now, sub);
    case UrlFailed(x) => UrlErrorAgrees(s, log, x, sub);
    case WriteSucceeded(x) => WriteOkAgrees(s, log, x, sub);
    case WriteFailed(x, message) => WriteErrorAgrees(s, log, x, message, sub);
  }

  lemma SubmitPosts(s: State, now: Timestamp)
    requires PendingPosts(s)
    ensures PendingPosts(Submit(s, now).state) && WritesPosts(Submit(s, now).io)
  {
    AssembleIsPost(DraftOf(s.form), "", now);
  }

  lemma UploadCompletePosts(s: State, x: nat, url: string, now: Timestamp)
    requires PendingPosts(s)
    ensures PendingPosts(OnUploadComplete(s, x, url, now).state)
    ensures WritesPosts(OnUploadComplete(s, x, url, now).io)
  {
    if AwaitsUpload(s, x) {
      AssembleIsPost(s.pending[x].draft, url, now);
    }
  }

  /** A step that only drops a pending submission and writes nothing. */
  lemma DropPosts(s: State, t: Stepped)
    requires PendingPosts(s)
    requires t.state.pending.Keys <= s.pending.Keys
    requires forall sub :: sub in t.state.pending ==> t.state.pending[sub] == s.pending[sub]
    requires NoWrite(t.io)
    ensures PendingPosts(t.state) && WritesPosts(t.io)
  {
  }

  /** Every step writes only well-formed posts and keeps only well-formed
      posts waiting for their write. */
  lemma StepPosts(s: State, e: Event)
    requires PendingPosts(s)
    ensures PendingPosts(Step(s, e).state) && WritesPosts(Step(s, e).io)
  {
    match e
    case UserEdit(_) =>
    case ClickPost(now) => SubmitPosts(s, now);
    case UploadFailed(x, message) => DropPosts(s, OnUploadError(s, x, message));
    case UploadDone(x, url, now) => UploadCompletePosts(s, x, url, now);
    case UrlFailed(x) => DropPosts(s, OnUrlError(s, x));
    case WriteSucceeded(x) => DropPosts(s, OnWriteOk(s, x));
    case WriteFailed(x, message) => DropPosts(s, OnWriteError(s, x, message));
  }

  lemma StepWritesWellFormed(s: State, log: seq<Io>, e: Event)
    requires WritesWellFormed(s, log)
    ensures WritesWellFormed(Step(s, e).state, log + Step(s, e).io)
  {
    StepPosts(s, e);
    WritesPostsAppend(log, Step(s, e).io);
  }

  lemma StepInv(s: State, log: seq<Io>, e: Event)
    requires Inv(s, log)
    ensures Inv(Step(s, e).state, log + Step(s, e).io)
  {
    var t := Step(s, e);
    forall sub: nat
      ensures Agrees(t.state, log + t.io, sub)
    {
      StepAgrees(s, log, e, sub);
    }
    StepWritesWellFormed(s, log, e);
  }

  lemma {:induction false} RunInv(s: State, log: seq<Io>, events: seq<Event>)
    requires Inv(s, log)
    ensures Inv(Run(s, events).state, log + Run(s, events).io)
    decreases |events|
  {
    if events == [] {
      assert log + Run(s, events).io == log;
    } else {
      var first := Step(s, events[0]);
      StepInv(s, log, events[0]);
      RunInv(first.state, log + first.io, events[1..]);
      RunUnfold(s, log, events);
    }
  }

  /** Running a non-empty sequence is one step followed by the rest; the
      exchange after the rest is the same whichever way it is grouped. */
  lemma RunUnfold(s: State, log: seq<Io>, events: seq<Event>)
    requires events != []
    ensures var first := Step(s, events[0]);
      var rest := Run(first.state, events[1..]);
      && Run(s, events).state == rest.state
      && log + Run(s, events).io == log + first.io + rest.io
  {
    var first := Step(s, events[0]);
    var rest := Run(first.state, events[1..]);
    assert Run(s, events) == Stepped(rest.state, first.io + rest.io);
  }

  /** The histories a submission can have at any moment. */
  predicate Allowed(h: seq<IoKind>) {
    || h == [] || h == [KUpload] || h == [KWrite] || h == [KUpload, KUrlResolved, KWrite]
    || Settled(h)
  }

  lemma AgreesAllowed(s: State, log: seq<Io>, sub: nat)
    requires Agrees(s, log, sub)
    ensures Allowed(History(log, sub))
  {
  }

  /** A failed upload or an unresolved URL ends the submission before any
      write. */
  lemma AllowedFailureStops(h: seq<IoKind>)
    requires Allowed(h)
    ensures (KUploadError in h || KUrlError in h) ==> KWrite !in h
  {
  }

  /** An upload always comes first, and a write after an upload only once
      the URL resolved. */
  lemma AllowedUploadFirst(h: seq<IoKind>)
    requires Allowed(h)
    ensures KUpload in h ==> h[0] == KUpload
    ensures KUpload in h && KWrite in h ==> |h| >= 3 && h[..3] == [KUpload, KUrlResolved, KWrite]
  {
    if |h| == 4 {
      assert h[..3] == [KUpload, KUrlResolved, KWrite];
    }
  }

  /** How many entries of `h` are of kind `k`. */
  function Occurrences(h: seq<IoKind>, k: IoKind): nat {
    if h == [] then 0 else (if h[0] == k then 1 else 0) + Occurrences(h[1..], k)
  }

  /** At most one upload and at most one write. */
  lemma AllowedOnce(h: seq<IoKind>)
    requires Allowed(h)
    ensures Occurrences(h, KUpload) <= 1 && Occurrences(h, KWrite) <= 1
  {
    if h != [] {
      var t1 := h[1..];
      if t1 != [] {
        var t2 := t1[1..];
        if t2 != [] {
          var t3 := t2[1..];
          if t3 != [] {
            assert t3[1..] == [];
            assert Occurrences(t3, KUpload) == 0 && Occurrences(t3, KWrite) == 0;
          }
          assert Occurrences(t2, KUpload) == 0 && Occurrences(t2, KWrite) <= 1;
        }
      }
    }
  }

  /** The submission protocol, for every run of the composer from an empty
      form and every submission number:
      - a failed upload, or a URL that could not be resolved, means the
        document is never written;
      - when an image is uploaded, the upload is the first request and the
        write is issued only after its URL resolved;
      - there is at most one upload and at most one write per submission. */
  lemma SubmissionProtocol(events: seq<Event>, sub: nat)
    ensures var h := History(Run(Initial(), events).io, sub);
      && ((KUploadError in h || KUrlError in h) ==> KWrite !in h)
      && (KUpload in h ==> h[0] == KUpload)
      && (KUpload in h && KWrite in h ==> |h| >= 3 && h[..3] == [KUpload, KUrlResolved, KWrite])
      && Occurrences(h, KUpload) <= 1
      && Occurrences(h, KWrite) <= 1
  {
    InitialInv();
    RunInv(Initial(), [], events);
    var r := Run(Initial(), events);
    assert [] + r.io == r.io;
    AgreesAllowed(r.state, r.io, sub);
    AllowedFailureStops(History(r.io, sub));
    AllowedUploadFirst(History(r.io, sub));
    AllowedOnce(History(r.io, sub));
  }

  /** Every document the composer ever writes is a well-formed post. */
  lemma WrittenDocumentsArePosts(events: seq<Event>)
    ensures var log := Run(Initial(), events).io;
      forall i :: 0 <= i < |log| && log[i].Write? ==> Decode(log[i].doc).Some?
  {
    InitialInv();
    RunInv(Initial(), [], events);
    assert [] + Run(Initial(), events).io == Run(Initial(), events).io;
  }
}
