/** The file-system side of download_videos. The disk is reduced to the set of
    directories that exist and the log of file writes in the order they happen;
    each media download is a write whose content is the URL it came from. */
module Storage {
  import opened Common
  import opened Naming

  type Path = string

  /** `os.path.join(dir, name)` for a relative `name`. */
  function Join(dir: Path, name: string): Path
  {
    dir + "/" + name
  }

  datatype Content = Text(text: string) | Media(url: string)
  datatype FileWrite = FileWrite(path: Path, content: Content)
  datatype DiskState = DiskState(dirs: set<Path>, written: seq<FileWrite>)

  function VideosDir(root: Path): Path
  {
    Join(root, "videos")
  }

  /** The per-user media root, `<root>/videos/<uid>`. */
  function UserDir(root: Path, uid: string): Path
  {
    Join(VideosDir(root), uid)
  }

  /** The directory of one run, named by the formatted clock `stamp`. */
  function RunDir(root: Path, uid: string, stamp: string): Path
  {
    Join(UserDir(root, uid), stamp)
  }

  /** The description file written for `url` into `dir`. */
  function SidecarWrite(dir: Path, url: string, title: string, tags: seq<string>): FileWrite
  {
    FileWrite(Join(dir, SidecarName(MediaName(url))), Text(SidecarText(title, tags)))
  }

  /** The media file downloaded from `url` into `dir`. */
  function MediaWrite(dir: Path, url: string): FileWrite
  {
    FileWrite(Join(dir, MediaName(url)), Media(url))
  }

  /** The index of the first URL whose download fails, or |urls| when none does. */
  function FailedAt(urls: seq<string>, fetchOk: string -> bool): (k: nat)
    ensures k <= |urls|
    ensures forall j :: 0 <= j < k ==> fetchOk(urls[j])
    ensures k < |urls| ==> !fetchOk(urls[k])
  {
    if urls == [] then 0
    else if !fetchOk(urls[0]) then 0
    else 1 + FailedAt(urls[1..], fetchOk)
  }

  /** The actions of the URL loop: per URL, `first` and then `second`, stopping
      after the `first` of the first URL whose download fails. */
  function Interleave<W>(urls: seq<string>, first: string -> W, second: string -> W, fetchOk: string -> bool): seq<W>
  {
    if urls == [] then []
    else [first(urls[0])] + if fetchOk(urls[0]) then [second(urls[0])] + Interleave(urls[1..], first, second, fetchOk) else []
  }

  /** The writes of the URL loop: per URL, its description file and then its
      media file, stopping after the description file of the first URL whose
      download fails. */
  function UrlWrites(dir: Path, urls: seq<string>, title: string, tags: seq<string>, fetchOk: string -> bool): seq<FileWrite>
  {
    Interleave(urls, SidecarsIn(dir, title, tags), MediaIn(dir), fetchOk)
  }

  function SidecarsIn(dir: Path, title: string, tags: seq<string>): string -> FileWrite
  {
    url => SidecarWrite(dir, url, title, tags)
  }

  function MediaIn(dir: Path): string -> FileWrite
  {
    url => MediaWrite(dir, url)
  }

  /** One turn of the URL loop. */
  lemma InterleaveStep<W>(urls: seq<string>, first: string -> W, second: string -> W, fetchOk: string -> bool, i: nat)
    requires i < |urls|
    ensures Interleave(urls[i..], first, second, fetchOk)
            == [first(urls[i])] + if fetchOk(urls[i]) then [second(urls[i])] + Interleave(urls[i + 1..], first, second, fetchOk) else []
    ensures FailedAt(urls[i..], fetchOk) == if fetchOk(urls[i]) then 1 + FailedAt(urls[i + 1..], fetchOk) else 0
  {
    assert urls[i..][0] == urls[i] && urls[i..][1..] == urls[i + 1..];
  }

  lemma {:induction false} InterleaveLength<W>(urls: seq<string>, first: string -> W, second: string -> W, fetchOk: string -> bool)
    ensures |Interleave(urls, first, second, fetchOk)|
            == 2 * FailedAt(urls, fetchOk) + (if FailedAt(urls, fetchOk) < |urls| then 1 else 0)
  {
    if urls != [] && fetchOk(urls[0]) {
      InterleaveLength(urls[1..], first, second, fetchOk);
    }
  }

  /** Each URL before the first failing one has its `first` action immediately
      before its `second` one, in list order. */
  lemma {:induction false} InterleaveAt<W>(urls: seq<string>, first: string -> W, second: string -> W,
                                           fetchOk: string -> bool, i: nat)
    requires i < FailedAt(urls, fetchOk)
    ensures |Interleave(urls, first, second, fetchOk)| > 2 * i + 1
    ensures Interleave(urls, first, second, fetchOk)[2 * i] == first(urls[i])
    ensures Interleave(urls, first, second, fetchOk)[2 * i + 1] == second(urls[i])
  {
    var rest := Interleave(urls[1..], first, second, fetchOk);
    assert Interleave(urls, first, second, fetchOk) == [first(urls[0]), second(urls[0])] + rest;
    if i > 0 {
      InterleaveAt(urls[1..], first, second, fetchOk, i - 1);
      assert urls[1..][i - 1] == urls[i];
    }
  }

  /** The URL whose download fails has its `first` action, last. */
  lemma {:induction false} InterleaveLast<W>(urls: seq<string>, first: string -> W, second: string -> W,
                                             fetchOk: string -> bool)
    requires FailedAt(urls, fetchOk) < |urls|
    ensures var w := Interleave(urls, first, second, fetchOk);
            |w| > 0 && w[|w| - 1] == first(urls[FailedAt(urls, fetchOk)])
  {
    if fetchOk(urls[0]) {
      InterleaveLast(urls[1..], first, second, fetchOk);
      var rest := Interleave(urls[1..], first, second, fetchOk);
      assert Interleave(urls, first, second, fetchOk) == [first(urls[0]), second(urls[0])] + rest;
      assert urls[1..][FailedAt(urls[1..], fetchOk)] == urls[FailedAt(urls, fetchOk)];
    }
  }

  /** The effect of download_videos on the disk, and its result: the run
      directory, or the error raised. */
  function Download(st: DiskState, root: Path, uid: string, stamp: string, urls: seq<string>,
                    title: string, tags: seq<string>, fetchOk: string -> bool): (r: (DiskState, Result<Path>))
    ensures r.1.Ok? ==> r.1.value == RunDir(root, uid, stamp)
    ensures st.dirs <= r.0.dirs
  {
    var dirs := if UserDir(root, uid) in st.dirs then st.dirs else st.dirs + {VideosDir(root), UserDir(root, uid)};
    var run := RunDir(root, uid, stamp);
    if run in dirs then (DiskState(dirs, st.written), Err(RunDirExists(run)))
    else
      var k := FailedAt(urls, fetchOk);
      (DiskState(dirs + {run}, st.written + UrlWrites(run, urls, title, tags, fetchOk)),
       if k < |urls| then Err(FetchFailed(urls[k])) else Ok(run))
  }

  /** A run directory is never reused: the download fails, writing nothing,
      exactly when the run directory already exists. */
  lemma DownloadRefusesExistingRunDir(st: DiskState, root: Path, uid: string, stamp: string, urls: seq<string>,
                                      title: string, tags: seq<string>, fetchOk: string -> bool)
    ensures var (st', r) := Download(st, root, uid, stamp, urls, title, tags, fetchOk);
            (r == Err(RunDirExists(RunDir(root, uid, stamp)))) <==> RunDir(root, uid, stamp) in st.dirs
    ensures var (st', r) := Download(st, root, uid, stamp, urls, title, tags, fetchOk);
            RunDir(root, uid, stamp) in st.dirs ==> st'.written == st.written
  {
    var run := RunDir(root, uid, stamp);
    assert |run| > |UserDir(root, uid)| > |VideosDir(root)|;
    var k := FailedAt(urls, fetchOk);
    if run !in st.dirs && k < |urls| {
      assert Download(st, root, uid, stamp, urls, title, tags, fetchOk).1 == Err(FetchFailed(urls[k]));
    }
  }

  /** A download that succeeds creates its run directory afresh, writes a
      description file and then a media file for every URL in list order, and
      returns that directory. */
  lemma DownloadSucceeds(st: DiskState, root: Path, uid: string, stamp: string, urls: seq<string>,
                         title: string, tags: seq<string>, fetchOk: string -> bool)
    requires Download(st, root, uid, stamp, urls, title, tags, fetchOk).1.Ok?
    ensures var (st', r) := Download(st, root, uid, stamp, urls, title, tags, fetchOk);
            var run := RunDir(root, uid, stamp);
            && r == Ok(run) && run !in st.dirs && run in st'.dirs
            && (forall j :: 0 <= j < |urls| ==> fetchOk(urls[j]))
            && |st'.written| == |st.written| + 2 * |urls|
            && st'.written[..|st.written|] == st.written
            && (forall i :: 0 <= i < |urls| ==>
                  st'.written[|st.written| + 2 * i] == SidecarWrite(run, urls[i], title, tags)
                  && st'.written[|st.written| + 2 * i + 1] == MediaWrite(run, urls[i]))
  {
    var run := RunDir(root, uid, stamp);
    assert |run| > |UserDir(root, uid)| > |VideosDir(root)|;
    var first := SidecarsIn(run, title, tags);
    var second := MediaIn(run);
    InterleaveLength(urls, first, second, fetchOk);
    forall i | 0 <= i < |urls|
      ensures var w := UrlWrites(run, urls, title, tags, fetchOk);
              w[2 * i] == SidecarWrite(run, urls[i], title, tags) && w[2 * i + 1] == MediaWrite(run, urls[i])
    {
      InterleaveAt(urls, first, second, fetchOk, i);
    }
  }

  /** A download that fails on a URL has written the description file of that
      URL, last, and no media file for it. */
  lemma DownloadFetchFailure(st: DiskState, root: Path, uid: string, stamp: string, urls: seq<string>,
                             title: string, tags: seq<string>, fetchOk: string -> bool, k: nat)
    requires RunDir(root, uid, stamp) !in st.dirs
    requires k < |urls| && !fetchOk(urls[k]) && forall j :: 0 <= j < k ==> fetchOk(urls[j])
    ensures var (st', r) := Download(st, root, uid, stamp, urls, title, tags, fetchOk);
            && r == Err(FetchFailed(urls[k]))
            && |st'.written| == |st.written| + 2 * k + 1
            && st'.written[|st'.written| - 1] == SidecarWrite(RunDir(root, uid, stamp), urls[k], title, tags)
  {
    var run := RunDir(root, uid, stamp);
    assert |run| > |UserDir(root, uid)| > |VideosDir(root)|;
    FailedAtUnique(urls, fetchOk, k);
    var first := SidecarsIn(run, title, tags);
    var second := MediaIn(run);
    InterleaveLength(urls, first, second, fetchOk);
    InterleaveLast(urls, first, second, fetchOk);
    var w := st.written + UrlWrites(run, urls, title, tags, fetchOk);
    assert w[|w| - 1] == first(urls[k]);
  }

  lemma FailedAtUnique(urls: seq<string>, fetchOk: string -> bool, k: nat)
    requires k < |urls| && !fetchOk(urls[k]) && forall j :: 0 <= j < k ==> fetchOk(urls[j])
    ensures FailedAt(urls, fetchOk) == k
  {
  }

  /** The disk, reduced to what exists and what was written. */
  class Disk {
    var dirs: set<Path>
    var written: seq<FileWrite>

    constructor (dirs: set<Path>)
      ensures this.dirs == dirs && written == []
    {
      this.dirs := dirs;
      written := [];
    }

    function State(): DiskState
      reads this
    {
      DiskState(dirs, written)
    }

    /** `mkdir(parents=True, exist_ok=True)` on a missing `path` whose parent is `parent`. */
    method EnsureDirs(parent: Path, path: Path)
      modifies this
      ensures dirs == old(dirs) + {parent, path} && written == old(written)
    {
      dirs := dirs + {parent, path};
    }

    /** `os.makedirs(path, exist_ok=False)`: refuses an existing path. */
    method MakeDirs(path: Path) returns (r: Outcome)
      modifies this
      ensures r.Fail? <==> path in old(dirs)
      ensures r.Fail? ==> r.error == RunDirExists(path) && dirs == old(dirs)
      ensures r.Pass? ==> dirs == old(dirs) + {path}
      ensures written == old(written)
    {
      if path in dirs {
        return Fail(RunDirExists(path));
      }
      dirs := dirs + {path};
      r := Pass;
    }

    /** One complete file write, description or media. */
    method Write(f: FileWrite)
      modifies this
      ensures written == old(written) + [f] && dirs == old(dirs)
    {
      written := written + [f];
    }
  }

  /** get_or_create_user_video_dir */
  method GetOrCreateUserVideoDir(disk: Disk, root: Path, uid: string) returns (dir: Path)
    modifies disk
    ensures dir == UserDir(root, uid)
    ensures disk.dirs == if dir in old(disk.dirs) then old(disk.dirs) else old(disk.dirs) + {VideosDir(root), dir}
    ensures disk.written == old(disk.written)
  {
    dir := UserDir(root, uid);
    if dir !in disk.dirs {
      disk.EnsureDirs(VideosDir(root), dir);
    }
  }

  /** The URL loop of download_videos, with the description-file write and
      the media download of each URL given as `sidecar` and `media`: per URL,
      write the description file, then download the media file; the first
      failed download raises. */
  method FetchAll(disk: Disk, urls: seq<string>, sidecar: string -> FileWrite, media: string -> FileWrite,
                  fetchOk: string -> bool) returns (r: Outcome)
    modifies disk
    ensures disk.dirs == old(disk.dirs)
    ensures disk.written == old(disk.written) + Interleave(urls, sidecar, media, fetchOk)
    ensures var k := FailedAt(urls, fetchOk); r == if k < |urls| then Fail(FetchFailed(urls[k])) else Pass
  {
    var i := 0;
    while i < |urls|
      invariant 0 <= i <= |urls|
      invariant disk.dirs == old(disk.dirs)
      invariant disk.written + Interleave(urls[i..], sidecar, media, fetchOk)
                == old(disk.written) + Interleave(urls, sidecar, media, fetchOk)
      invariant FailedAt(urls, fetchOk) == i + FailedAt(urls[i..], fetchOk)
    {
      var url := urls[i];
      InterleaveStep(urls, sidecar, media, fetchOk, i);
      disk.Write(sidecar(url));
      if !fetchOk(url) {
        return Fail(FetchFailed(url));
      }
      disk.Write(media(url));
      i := i + 1;
    }
    assert urls[i..] == [];
    r := Pass;
  }

  /** download_videos: make a fresh run directory, then for each URL write its
      description file and download its media file. `stamp` is the formatted
      clock and `fetchOk` says which media requests succeed. */
  method DownloadVideos(disk: Disk, root: Path, uid: string, stamp: string, urls: seq<string>,
                        title: string, tags: seq<string>, fetchOk: string -> bool) returns (r: Result<Path>)
    modifies disk
    ensures (disk.State(), r) == Download(old(disk.State()), root, uid, stamp, urls, title, tags, fetchOk)
  {
    var userDir := GetOrCreateUserVideoDir(disk, root, uid);
    var save := Join(userDir, stamp);
    var made := disk.MakeDirs(save);
    if made.Fail? {
      return Err(made.error);
    }
    var fetched := FetchAll(disk, urls, SidecarsIn(save, title, tags), MediaIn(save), fetchOk);
    if fetched.Fail? {
      return Err(fetched.error);
    }
    return Ok(save);
  }
}
