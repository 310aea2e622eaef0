/**
 * The upload queue card: each entry's badge, which controls it shows, and
 * when the two buttons below the list are enabled.
 */
module UploadQueueView {
  import opened Wrappers
  import opened Text
  import opened FileUpload
  import opened UploadPage

  /** The status text shown in the badge. */
  function StatusText(s: UploadStatus): (t: string)
    ensures s == Failed <==> t == "error"
  {
    match s
    case Pending => "pending"
    case Uploading => "uploading"
    case Completed => "completed"
    case Failed => "error"
  }

  /** The badge variant: completed `default`, uploading `secondary`, error `destructive`, otherwise `outline`. */
  function Badge(s: UploadStatus): (v: string)
    ensures v in ["default", "secondary", "destructive", "outline"]
    ensures v == "default" <==> s == Completed
    ensures v == "secondary" <==> s == Uploading
    ensures v == "destructive" <==> s == Failed
    ensures v == "outline" <==> s == Pending
  {
    match s
    case Completed => "default"
    case Uploading => "secondary"
    case Failed => "destructive"
    case Pending => "outline"
  }

  /** Each status has its own badge. */
  lemma BadgeInjective(a: UploadStatus, b: UploadStatus)
    requires Badge(a) == Badge(b)
    ensures a == b
  {
  }

  /** The remove button is shown on pending entries only. */
  predicate ShowsRemove(f: UploadFile) {
    f.status == Pending
  }

  /** The progress bar is shown while uploading only. */
  predicate ShowsProgress(f: UploadFile) {
    f.status == Uploading
  }

  /** Added files show the remove button and no progress bar. */
  lemma AddedShowRemove(q: seq<UploadFile>, files: seq<FileInfo>, ids: seq<string>)
    requires |ids| == |files|
    ensures var r := AddFiles(q, files, ids);
      forall i | |q| <= i < |r| :: ShowsRemove(r[i]) && !ShowsProgress(r[i])
  {
    var r := AddFiles(q, files, ids);
    forall i | |q| <= i < |r|
      ensures ShowsRemove(r[i]) && !ShowsProgress(r[i])
    {
      assert r[|q| + (i - |q|)] == Fresh(files[i - |q|], ids[i - |q|]);
    }
  }

  /** A settled entry shows neither the remove button nor the progress bar. */
  lemma SettledShowsNoControls(f: UploadFile, e: UploadFile, user: string, o: Oracles)
    ensures !ShowsRemove(Final(f, e, user, o)) && !ShowsProgress(Final(f, e, user, o))
  {
  }

  /**
   * Signed in and with distinct ids, after a run the remove button is left on
   * no entry, and the progress bar only on entries that were already uploading.
   */
  lemma RunHidesControls(q: seq<UploadFile>, user: string, o: Oracles)
    requires UniqueIds(q)
    ensures var r := Sweep(q, PendingFiles(q), Some(user), o);
      && |r| == |q|
      && (forall i | 0 <= i < |r| :: !ShowsRemove(r[i]))
      && (forall i | 0 <= i < |r| :: ShowsProgress(r[i]) <==> ShowsProgress(q[i]))
  {
    RunPointwise(q, Some(user), o);
    var r := Sweep(q, PendingFiles(q), Some(user), o);
    forall i | 0 <= i < |r|
      ensures !ShowsRemove(r[i]) && (ShowsProgress(r[i]) <==> ShowsProgress(q[i]))
    {
      if q[i].status == Pending {
        SettledShowsNoControls(q[i], q[i], user, o);
      }
    }
  }

  /** `files.length === 0 || files.every(f => f.status !== 'pending')`. */
  function UploadAllDisabled(q: seq<UploadFile>): (d: bool)
    ensures !d <==> exists i | 0 <= i < |q| :: q[i].status == Pending
    ensures !d <==> PendingFiles(q) != []
  {
    var d := |q| == 0 || forall i | 0 <= i < |q| :: q[i].status != Pending;
    assert !d ==> exists i | 0 <= i < |q| :: q[i] in PendingFiles(q);
    d
  }

  /** `!files.some(f => f.status === 'completed')`. */
  function ViewDraftsDisabled(q: seq<UploadFile>): (d: bool)
    ensures !d <==> exists i | 0 <= i < |q| :: q[i].status == Completed
  {
    !exists i | 0 <= i < |q| :: q[i].status == Completed
  }

  /** Adding at least one file enables "Upload All Files". */
  lemma AddEnablesUpload(q: seq<UploadFile>, files: seq<FileInfo>, ids: seq<string>)
    requires |ids| == |files| && |files| > 0
    ensures !UploadAllDisabled(AddFiles(q, files, ids))
  {
    assert AddFiles(q, files, ids)[|q| + 0].status == Pending;
  }

  /** Signed in and with distinct ids, a run leaves nothing pending, so the button disables itself. */
  lemma RunDisablesUpload(q: seq<UploadFile>, user: string, o: Oracles)
    requires UniqueIds(q)
    ensures UploadAllDisabled(Sweep(q, PendingFiles(q), Some(user), o))
  {
    RunPointwise(q, Some(user), o);
  }

  /** After a signed-in run an entry is completed exactly when it was completed before or was stored now. */
  lemma CompletedAfterRun(q: seq<UploadFile>, user: string, o: Oracles, i: nat)
    requires UniqueIds(q) && i < |q|
    ensures |Sweep(q, PendingFiles(q), Some(user), o)| == |q|
    ensures Sweep(q, PendingFiles(q), Some(user), o)[i].status == Completed <==>
      q[i].status == Completed || (q[i].status == Pending && UploadOf(q[i], user, o).Stored?)
  {
    RunPointwise(q, Some(user), o);
  }

  /** After such a run "View Drafts" is enabled exactly when some entry was completed before or was stored now. */
  lemma RunEnablesViewDrafts(q: seq<UploadFile>, user: string, o: Oracles)
    requires UniqueIds(q)
    ensures !ViewDraftsDisabled(Sweep(q, PendingFiles(q), Some(user), o)) <==>
      exists i | 0 <= i < |q| :: q[i].status == Completed || (q[i].status == Pending && UploadOf(q[i], user, o).Stored?)
  {
    var r := Sweep(q, PendingFiles(q), Some(user), o);
    RunPointwise(q, Some(user), o);
    assert |r| == |q|;
    if exists i | 0 <= i < |q| :: q[i].status == Completed || (q[i].status == Pending && UploadOf(q[i], user, o).Stored?) {
      var i :| 0 <= i < |q| && (q[i].status == Completed || (q[i].status == Pending && UploadOf(q[i], user, o).Stored?));
      CompletedAfterRun(q, user, o, i);
      assert r[i].status == Completed;
    }
    if !ViewDraftsDisabled(r) {
      var i :| 0 <= i < |r| && r[i].status == Completed;
      CompletedAfterRun(q, user, o, i);
    }
  }
}
