/**
 * The client's upload queue: entries added for chosen files, removed by
 * id, and moved through `pending → uploading → completed | error` while
 * simulated progress ticks advance them.
 */
module FileUpload {
  import opened Wrappers
  import opened Seqs
  import opened Text

  /** `error` in the client. */
  datatype UploadStatus = Pending | Uploading | Completed | Failed

  /** What the browser reports about a chosen file. */
  datatype FileInfo = FileInfo(name: string, mimeType: string, size: nat)

  datatype UploadFile = UploadFile(id: string, file: FileInfo, progress: int, status: UploadStatus,
                                   draftId: Option<string>, mediaPath: Option<string>)

  /** No two entries share an id. */
  predicate UniqueIds(q: seq<UploadFile>) {
    forall i, j | 0 <= i < j < |q| :: q[i].id != q[j].id
  }

  /** Progress runs from 0 to 100 in steps of ten. */
  predicate ProgressOk(f: UploadFile) {
    0 <= f.progress <= 100 && f.progress % 10 == 0
  }

  predicate AllProgressOk(q: seq<UploadFile>) {
    forall i | 0 <= i < |q| :: ProgressOk(q[i])
  }

  /** A new entry: `pending`, no progress, no draft, no media path. */
  function Fresh(file: FileInfo, id: string): (f: UploadFile)
    ensures f.id == id && f.file == file && f.status == Pending
    ensures f.progress == 0 && f.draftId.None? && f.mediaPath.None?
    ensures ProgressOk(f)
  {
    UploadFile(id, file, 0, Pending, None, None)
  }

  /** `addFiles`: one fresh entry per file, appended in order; `ids` stands for the random ids drawn. */
  function AddFiles(q: seq<UploadFile>, files: seq<FileInfo>, ids: seq<string>): (r: seq<UploadFile>)
    requires |ids| == |files|
    ensures |r| == |q| + |files| && r[..|q|] == q
    ensures forall i | 0 <= i < |files| :: r[|q| + i] == Fresh(files[i], ids[i])
  {
    q + seq(|files|, i requires 0 <= i < |files| => Fresh(files[i], ids[i]))
  }

  function NotId(id: string): UploadFile -> bool {
    (f: UploadFile) => f.id != id
  }

  /** `removeFile`: every entry with the id goes, the rest keep their order. */
  function RemoveFile(q: seq<UploadFile>, id: string): (r: seq<UploadFile>)
    ensures forall f :: f in r <==> f in q && f.id != id
    ensures Subsequence(r, q)
    ensures forall f :: multiset(r)[f] == if f.id == id then 0 else multiset(q)[f]
  {
    FilterIsSubsequence(q, NotId(id));
    forall f ensures multiset(Filter(q, NotId(id)))[f] == if f.id == id then 0 else multiset(q)[f] {
      FilterMultiset(q, NotId(id), f);
    }
    Filter(q, NotId(id))
  }

  /** `prev.map(f => f.id === id ? g(f) : f)`. */
  function Update(q: seq<UploadFile>, id: string, g: UploadFile -> UploadFile): (r: seq<UploadFile>)
    ensures |r| == |q|
    ensures forall i | 0 <= i < |q| :: r[i] == if q[i].id == id then g(q[i]) else q[i]
  {
    seq(|q|, i requires 0 <= i < |q| => if q[i].id == id then g(q[i]) else q[i])
  }

  /** One firing of the 200 ms progress interval: ten more, unless already at 90 or beyond. */
  function TickOne(f: UploadFile): (g: UploadFile)
    ensures g.(progress := 0) == f.(progress := 0)
    ensures f.progress < 90 ==> g.progress == f.progress + 10
    ensures f.progress >= 90 ==> g.progress == f.progress
    ensures ProgressOk(f) ==> ProgressOk(g)
  {
    if f.progress < 90 then f.(progress := f.progress + 10) else f
  }

  /** `n` firings of the interval. */
  function Ticked(f: UploadFile, n: nat): (g: UploadFile)
    ensures g.(progress := 0) == f.(progress := 0)
    ensures ProgressOk(f) ==> ProgressOk(g)
    decreases n
  {
    if n == 0 then f else Ticked(TickOne(f), n - 1)
  }

  /** However long the upload takes, the simulated progress stops at 90. */
  lemma {:induction false} TickedProgress(f: UploadFile, n: nat)
    requires ProgressOk(f)
    ensures Ticked(f, n).progress ==
      if f.progress >= 90 then f.progress
      else if f.progress + 10 * n <= 90 then f.progress + 10 * n
      else 90
    decreases n
  {
    if n > 0 {
      TickedProgress(TickOne(f), n - 1);
    }
  }

  function ToUploading(): UploadFile -> UploadFile {
    (f: UploadFile) => f.(status := Uploading)
  }

  function ToTicked(n: nat): UploadFile -> UploadFile {
    f => Ticked(f, n)
  }

  function ToCompleted(path: string): UploadFile -> UploadFile {
    (f: UploadFile) => f.(status := Completed, progress := 100, mediaPath := Some(path))
  }

  function ToFailed(): UploadFile -> UploadFile {
    (f: UploadFile) => f.(status := Failed)
  }

  function ToLinked(draftId: string): UploadFile -> UploadFile {
    (f: UploadFile) => f.(draftId := Some(draftId))
  }

  /** Marking an entry as uploading changes that entry's status and nothing else. */
  lemma MarkUploadingOnlyStatus(q: seq<UploadFile>, id: string)
    ensures var r := Update(q, id, ToUploading());
      && |r| == |q|
      && forall i | 0 <= i < |q| ::
           r[i].(status := q[i].status) == q[i] && (q[i].id == id ==> r[i].status == Uploading)
           && (q[i].id != id ==> r[i] == q[i])
  {
  }

  /** A tick moves only the matching entries' progress, and only those below 90. */
  lemma TickOnlyMatching(q: seq<UploadFile>, id: string)
    ensures var r := Update(q, id, ToTicked(1));
      && |r| == |q|
      && forall i | 0 <= i < |q| ::
           r[i].(progress := 0) == q[i].(progress := 0)
           && r[i].progress == if q[i].id == id && q[i].progress < 90 then q[i].progress + 10 else q[i].progress
  {
    forall i | 0 <= i < |q| ensures Ticked(q[i], 1) == TickOne(q[i]) {
      assert Ticked(TickOne(q[i]), 0) == TickOne(q[i]);
    }
  }

  /** Each step the hook takes on an entry keeps its progress within bounds. */
  lemma StepsKeepProgress(f: UploadFile, n: nat, path: string, draftId: string)
    requires ProgressOk(f)
    ensures ProgressOk(ToUploading()(f)) && ProgressOk(ToTicked(n)(f)) && ProgressOk(ToCompleted(path)(f))
    ensures ProgressOk(ToFailed()(f)) && ProgressOk(ToLinked(draftId)(f))
  {
  }

  /** An update whose step keeps progress within bounds keeps the whole queue within bounds. */
  lemma UpdateKeepsProgress(q: seq<UploadFile>, id: string, g: UploadFile -> UploadFile)
    requires AllProgressOk(q)
    requires forall f | ProgressOk(f) :: ProgressOk(g(f))
    ensures AllProgressOk(Update(q, id, g))
  {
  }

  /** Adding fresh entries keeps the queue within bounds. */
  lemma AddKeepsProgress(q: seq<UploadFile>, files: seq<FileInfo>, ids: seq<string>)
    requires |ids| == |files| && AllProgressOk(q)
    ensures AllProgressOk(AddFiles(q, files, ids))
  {
    var r := AddFiles(q, files, ids);
    forall i | 0 <= i < |r| ensures ProgressOk(r[i]) {
      if i < |q| {
        assert r[..|q|][i] == r[i];
      } else {
        assert r[|q| + (i - |q|)] == Fresh(files[i - |q|], ids[i - |q|]);
      }
    }
  }

  /** Removing the entry just added, under an id not used before, restores the queue. */
  lemma AddThenRemove(q: seq<UploadFile>, file: FileInfo, id: string)
    requires forall i | 0 <= i < |q| :: q[i].id != id
    ensures RemoveFile(AddFiles(q, [file], [id]), id) == q
  {
    var added := AddFiles(q, [file], [id]);
    assert added == q + [Fresh(file, id)];
    FilterSnoc(q, Fresh(file, id), NotId(id));
    FilterAll(q, NotId(id));
  }

  /** `name.split('.').pop()`: the text after the last dot, or the whole name when there is none. */
  function FileExt(name: string): (ext: string)
    ensures '.' !in ext
  {
    var parts := Split(name, '.');
    parts[|parts| - 1]
  }

  /** The extension is what follows the last dot. */
  lemma ExtAfterLastDot(name: string, k: nat)
    requires k < |name| && name[k] == '.' && '.' !in name[k + 1..]
    ensures FileExt(name) == name[k + 1..]
  {
    SplitLast(name, '.', k);
  }

  /** A name without a dot is its own extension. */
  lemma ExtWithoutDot(name: string)
    requires '.' !in name
    ensures FileExt(name) == name
  {
    SplitNoSeparator(name, '.');
  }

  /** The storage object name `<user>/<time>-<random>.<ext>`; `stamp` stands for `<time>-<random>`. */
  function ObjectName(user: string, stamp: string, name: string): (o: string)
    ensures |o| == |user| + |stamp| + 2 + |FileExt(name)|
    ensures o[..|user| + 1] == user + "/"
    ensures o[|user| + 1..|user| + 1 + |stamp|] == stamp
    ensures o[|user| + 1 + |stamp|] == '.'
  {
    user + "/" + stamp + "." + FileExt(name)
  }

  /** The object keeps the file's extension. */
  lemma ObjectNameKeepsExt(user: string, stamp: string, name: string)
    ensures FileExt(ObjectName(user, stamp, name)) == FileExt(name)
  {
    var o := ObjectName(user, stamp, name);
    var k := |user| + 1 + |stamp|;
    assert o[k + 1..] == FileExt(name);
    ExtAfterLastDot(o, k);
  }
}
