/**
 * The upload page's "Upload All Files" action: every entry that was
 * pending when the button was pressed is uploaded in turn and, once
 * stored, becomes a new draft; a failure is reported and the loop moves on.
 */
module UploadPage {
  import opened Wrappers
  import opened Seqs
  import opened Text
  import opened FileUpload

  /** `type.startsWith('image/') ? 'image' : 'video'`. */
  function MediaTypeOf(mimeType: string): (t: string)
    ensures t == "image" <==> StartsWith(mimeType, "image/")
    ensures t == "image" || t == "video"
  {
    if StartsWith(mimeType, "image/") then "image" else "video"
  }

  /** `name.split('.')[0]`. */
  function TitleOf(name: string): (t: string)
    ensures '.' !in t
  {
    Split(name, '.')[0]
  }

  /** The title is the text before the first dot. */
  lemma TitleBeforeFirstDot(name: string, k: nat)
    requires k < |name| && name[k] == '.' && '.' !in name[..k]
    ensures TitleOf(name) == name[..k]
  {
    SplitFirst(name, '.', k);
  }

  /** A name without a dot is its own title. */
  lemma TitleWithoutDot(name: string)
    requires '.' !in name
    ensures TitleOf(name) == name
  {
    SplitNoSeparator(name, '.');
  }

  /** A name that starts with a dot (`.env`, `.hidden.png`) gives an empty title. */
  lemma DotfileUntitled(name: string)
    requires |name| > 0 && name[0] == '.'
    ensures TitleOf(name) == ""
  {
    TitleBeforeFirstDot(name, 0);
  }

  /** What the storage upload yields, with how often the progress interval fired meanwhile. */
  datatype Outcome = Stored(path: string, ticks: nat) | Rejected(ticks: nat)

  /** The `createDraft` input; the status is always `draft`. */
  datatype DraftInput = DraftInput(mediaPath: string, mediaType: string, title: string)

  function IsPending(): UploadFile -> bool {
    (f: UploadFile) => f.status == Pending
  }

  /** `files.filter(f => f.status === 'pending')`. */
  function PendingFiles(q: seq<UploadFile>): (r: seq<UploadFile>)
    ensures forall f :: f in r <==> f in q && f.status == Pending
    ensures Subsequence(r, q)
  {
    FilterIsSubsequence(q, IsPending());
    Filter(q, IsPending())
  }

  function RequestFor(e: UploadFile, path: string): DraftInput {
    DraftInput(path, MediaTypeOf(e.file.mimeType), TitleOf(e.file.name))
  }

  /**
   * The oracles of one run: `stamp` gives the time-and-random part of each
   * entry's object name, `upload` the storage result for an object name,
   * `create` the id of the draft created for an entry, `None` when
   * `createDraft` throws.
   */
  datatype Oracles = Oracles(stamp: string -> string, upload: string -> Outcome, create: string -> Option<string>)

  function UploadOf(e: UploadFile, user: string, o: Oracles): Outcome {
    o.upload(ObjectName(user, o.stamp(e.id), e.file.name))
  }

  /**
   * An entry `f` after the iteration for the pending snapshot `e` with the
   * same id: marked uploading, ticked, then completed or failed, and linked
   * to its draft when one was created.
   */
  function Final(f: UploadFile, e: UploadFile, user: string, o: Oracles): (r: UploadFile)
    ensures r.id == f.id && r.file == f.file
    ensures r.status == Completed <==> UploadOf(e, user, o).Stored?
    ensures r.status == Failed <==> UploadOf(e, user, o).Rejected?
    ensures UploadOf(e, user, o).Stored? ==> r.progress == 100 && r.mediaPath == Some(UploadOf(e, user, o).path)
    ensures UploadOf(e, user, o).Rejected? ==> r.mediaPath == f.mediaPath
    ensures r.draftId == if UploadOf(e, user, o).Stored? && o.create(e.id).Some? then o.create(e.id) else f.draftId
    ensures ProgressOk(f) ==> ProgressOk(r)
  {
    match UploadOf(e, user, o)
    case Rejected(n) => ToFailed()(ToTicked(n)(ToUploading()(f)))
    case Stored(path, n) =>
      var done := ToCompleted(path)(ToTicked(n)(ToUploading()(f)));
      if o.create(e.id).Some? then ToLinked(o.create(e.id).value)(done) else done
  }

  /** A failed upload never raises an entry's progress past 90, and never lowers it. */
  lemma FailureStopsShort(f: UploadFile, e: UploadFile, user: string, o: Oracles)
    requires ProgressOk(f) && UploadOf(e, user, o).Rejected?
    ensures Final(f, e, user, o).progress >= f.progress
    ensures f.progress <= 90 ==> Final(f, e, user, o).progress <= 90
  {
    TickedProgress(f.(status := Uploading), UploadOf(e, user, o).ticks);
  }

  /** One iteration of the loop, as the sequence of queue updates the page and the hook make. */
  function Step(q: seq<UploadFile>, e: UploadFile, user: Option<string>, o: Oracles): seq<UploadFile> {
    // `uploadFile` throws before touching the queue when nobody is signed in
    if user.None? then q
    else
      var uploading := Update(q, e.id, ToUploading());
      match UploadOf(e, user.value, o)
      case Rejected(n) => Update(Update(uploading, e.id, ToTicked(n)), e.id, ToFailed())
      case Stored(path, n) =>
        var done := Update(Update(uploading, e.id, ToTicked(n)), e.id, ToCompleted(path));
        if o.create(e.id).Some? then Update(done, e.id, ToLinked(o.create(e.id).value)) else done
  }

  /** An iteration changes exactly the entries that share the snapshot's id, each to its final form. */
  lemma StepPointwise(q: seq<UploadFile>, e: UploadFile, user: Option<string>, o: Oracles)
    ensures |Step(q, e, user, o)| == |q|
    ensures forall i | 0 <= i < |q| ::
      Step(q, e, user, o)[i] == if user.Some? && q[i].id == e.id then Final(q[i], e, user.value, o) else q[i]
  {
  }

  /** The queue after the iterations for `items`, in order. */
  function Sweep(q: seq<UploadFile>, items: seq<UploadFile>, user: Option<string>, o: Oracles): seq<UploadFile>
    decreases |items|
  {
    if items == [] then q
    else Step(Sweep(q, items[..|items| - 1], user, o), items[|items| - 1], user, o)
  }

  /** The `createDraft` calls the iterations for `items` make, in order. */
  function Requested(items: seq<UploadFile>, user: Option<string>, o: Oracles): (r: seq<DraftInput>)
    ensures |r| <= |items|
    ensures user.None? ==> r == []
    decreases |items|
  {
    if items == [] then []
    else
      var e := items[|items| - 1];
      Requested(items[..|items| - 1], user, o) +
        if user.Some? && UploadOf(e, user.value, o).Stored? then [RequestFor(e, UploadOf(e, user.value, o).path)] else []
  }

  /** A stored last item adds its request at the end. */
  lemma RequestedStoredLast(items: seq<UploadFile>, user: string, o: Oracles)
    requires items != [] && UploadOf(items[|items| - 1], user, o).Stored?
    ensures Requested(items, Some(user), o) ==
      Requested(items[..|items| - 1], Some(user), o) +
      [RequestFor(items[|items| - 1], UploadOf(items[|items| - 1], user, o).path)]
  {
  }

  /** When every upload is stored, one draft is requested per item, in order, with its path, type and title. */
  lemma {:induction false} AllStoredRequestsEach(items: seq<UploadFile>, user: string, o: Oracles)
    requires forall e | e in items :: UploadOf(e, user, o).Stored?
    ensures |Requested(items, Some(user), o)| == |items|
    ensures forall i | 0 <= i < |items| ::
      Requested(items, Some(user), o)[i] == RequestFor(items[i], UploadOf(items[i], user, o).path)
    decreases |items|
  {
    if items != [] {
      var init := items[..|items| - 1];
      var e := items[|items| - 1];
      assert forall x | x in init :: x in items;
      AllStoredRequestsEach(init, user, o);
      var r := Requested(items, Some(user), o);
      RequestedStoredLast(items, user, o);
      forall i | 0 <= i < |items|
        ensures r[i] == RequestFor(items[i], UploadOf(items[i], user, o).path)
      {
        if i < |init| {
          assert items[i] == init[i];
        }
      }
    }
  }

  /** With distinct ids, each entry among `items` ends in its final form and every other entry is untouched. */
  lemma {:induction false} SweepPointwise(q: seq<UploadFile>, items: seq<UploadFile>, user: Option<string>, o: Oracles)
    requires UniqueIds(q)
    requires Distinct(items) && forall e | e in items :: e in q
    ensures |Sweep(q, items, user, o)| == |q|
    ensures forall i | 0 <= i < |q| ::
      Sweep(q, items, user, o)[i] == if user.Some? && q[i] in items then Final(q[i], q[i], user.value, o) else q[i]
    decreases |items|
  {
    if items != [] {
      var init := items[..|items| - 1];
      var e := items[|items| - 1];
      assert items == init + [e];
      assert Distinct(init) by {
        forall i, j | 0 <= i < j < |init| ensures init[i] != init[j] {
          assert init[i] == items[i] && init[j] == items[j];
        }
      }
      assert e !in init by {
        forall i | 0 <= i < |init| ensures init[i] != e {
          assert init[i] == items[i];
        }
      }
      SweepPointwise(q, init, user, o);
      var s := Sweep(q, init, user, o);
      StepPointwise(s, e, user, o);
      assert e in q;
      forall i | 0 <= i < |q|
        ensures Sweep(q, items, user, o)[i] == if user.Some? && q[i] in items then Final(q[i], q[i], user.value, o) else q[i]
      {
        if q[i].id == e.id {
          var j :| 0 <= j < |q| && q[j] == e;
          assert j == i;
        } else {
          assert q[i] in items <==> q[i] in init;
        }
      }
    }
  }

  /** Signed out, the whole run leaves the queue as it was and requests nothing. */
  lemma {:induction false} SignedOutKeepsQueue(q: seq<UploadFile>, items: seq<UploadFile>, o: Oracles)
    ensures Sweep(q, items, None, o) == q && Requested(items, None, o) == []
    decreases |items|
  {
    if items != [] {
      SignedOutKeepsQueue(q, items[..|items| - 1], o);
    }
  }

  /** With distinct ids, a run over the pending entries finalises exactly those and keeps progress within bounds. */
  lemma RunPointwise(q: seq<UploadFile>, user: Option<string>, o: Oracles)
    requires UniqueIds(q)
    ensures var r := Sweep(q, PendingFiles(q), user, o);
      && |r| == |q|
      && (forall i | 0 <= i < |q| ::
            r[i] == if user.Some? && q[i].status == Pending then Final(q[i], q[i], user.value, o) else q[i])
      && (AllProgressOk(q) ==> AllProgressOk(r))
  {
    assert Distinct(q);
    FilterKeepsDistinct(q, IsPending());
    SweepPointwise(q, PendingFiles(q), user, o);
  }

  /** One more item adds one iteration and its request. */
  lemma SweepSnoc(q: seq<UploadFile>, items: seq<UploadFile>, k: nat, user: Option<string>, o: Oracles)
    requires k < |items|
    ensures Sweep(q, items[..k + 1], user, o) == Step(Sweep(q, items[..k], user, o), items[k], user, o)
    ensures Requested(items[..k + 1], user, o) ==
      Requested(items[..k], user, o) +
        if user.Some? && UploadOf(items[k], user.value, o).Stored?
        then [RequestFor(items[k], UploadOf(items[k], user.value, o).path)] else []
  {
    assert items[..k + 1][..k] == items[..k];
  }

  /** `startUpload`. */
  method StartUpload(q: seq<UploadFile>, user: Option<string>, o: Oracles)
    returns (r: seq<UploadFile>, requested: seq<DraftInput>)
    ensures r == Sweep(q, PendingFiles(q), user, o)
    ensures requested == Requested(PendingFiles(q), user, o)
    // with distinct ids: every pending entry reaches its final form, every other entry is untouched
    ensures UniqueIds(q) ==> |r| == |q| && forall i | 0 <= i < |q| ::
      r[i] == if user.Some? && q[i].status == Pending then Final(q[i], q[i], user.value, o) else q[i]
    ensures UniqueIds(q) && AllProgressOk(q) ==> AllProgressOk(r)
  {
    var pending := PendingFiles(q);
    r := q;
    requested := [];
    for k := 0 to |pending|
      invariant r == Sweep(q, pending[..k], user, o)
      invariant requested == Requested(pending[..k], user, o)
    {
      var e := pending[k];
      SweepSnoc(q, pending, k, user, o);
      ghost var before := r;
      if user.Some? {
        r := Update(r, e.id, ToUploading());
        match UploadOf(e, user.value, o)
        case Rejected(n) =>
          r := Update(Update(r, e.id, ToTicked(n)), e.id, ToFailed());
        case Stored(path, n) =>
          r := Update(Update(r, e.id, ToTicked(n)), e.id, ToCompleted(path));
          requested := requested + [RequestFor(e, path)];
          if o.create(e.id).Some? {
            r := Update(r, e.id, ToLinked(o.create(e.id).value));
          }
      }
      assert r == Step(before, e, user, o);
    }
    assert pending[..|pending|] == pending;
    if UniqueIds(q) {
      RunPointwise(q, user, o);
    }
  }
}
