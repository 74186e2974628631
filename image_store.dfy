/** The image folder: listing its `.jpg` files newest first (app.py
    `get_image_list`, `get_latest_image`, `api_latest`), evicting the oldest
    when there are more than `MAX_IMAGES` (`cleanup_old_images`), and storing
    an upload under a clock-derived name (`upload`).

    The folder is a map from file name to contents and modification time; the
    clock and the modification time a write gets are parameters. */
module ImageStore {

  import opened Values
  import opened Sorting
  import opened TimestampCodec

  /** `MAX_IMAGES`: the folder keeps at most this many `.jpg` files. */
  const MaxImages: nat := 10000

  /** `AUTOCLEANUP`: `upload` evicts old images after every store. */
  const AutoCleanup: bool := true

  datatype ImageFile = ImageFile(data: seq<byte>, mtime: int)

  /** The images folder, which may have been removed since start-up. */
  datatype Folder = Absent | Present(files: map<string, ImageFile>)

  /** One entry of the listing: file name, display timestamp, modification time. */
  datatype ImageInfo = ImageInfo(filename: string, timestamp: string, mtime: int)

  function Describe(name: string, file: ImageFile): (info: ImageInfo)
    requires EndsWithJpg(name)
    ensures info.filename == name && info.mtime == file.mtime
    ensures info.timestamp == "Unknown" <==> ParseStem(name[..|name| - 4]).None?
  {
    ImageInfo(name, DisplayTimestamp(name), file.mtime)
  }

  ghost function JpgNames(files: map<string, ImageFile>): set<string> {
    set n | n in files && EndsWithJpg(n)
  }

  /** The listing entries of the `.jpg` files among `names`. */
  ghost function EntriesAmong(files: map<string, ImageFile>, names: set<string>): set<ImageInfo> {
    set n | n in names && n in files && EndsWithJpg(n) :: Describe(n, files[n])
  }

  ghost function JpgEntries(files: map<string, ImageFile>): set<ImageInfo> {
    EntriesAmong(files, files.Keys)
  }

  ghost predicate NewestFirst(images: seq<ImageInfo>) {
    forall i, j :: 0 <= i < j < |images| ==> images[i].mtime >= images[j].mtime
  }

  /** What `get_image_list` returns: nothing when the folder is gone, otherwise
      the entry of every `.jpg` file exactly once, newest first. */
  ghost predicate IsImageList(folder: Folder, images: seq<ImageInfo>) {
    match folder
    case Absent => images == []
    case Present(files) => multiset(images) == multiset(JpgEntries(files)) && NewestFirst(images)
  }

  function NewerFirstKey(e: ImageInfo): int {
    -e.mtime
  }

  /** One step of the scan in `get_image_list`: looking at one more file adds
      its entry when it is a `.jpg` file. */
  lemma ScanStep(files: map<string, ImageFile>, done: set<string>, name: string, collected: seq<ImageInfo>)
    requires name in files && name !in done
    requires multiset(collected) == multiset(EntriesAmong(files, done))
    ensures EndsWithJpg(name) ==>
              multiset(collected + [Describe(name, files[name])]) == multiset(EntriesAmong(files, done + {name}))
    ensures !EndsWithJpg(name) ==> multiset(collected) == multiset(EntriesAmong(files, done + {name}))
  {
    if EndsWithJpg(name) {
      var e := Describe(name, files[name]);
      assert e !in EntriesAmong(files, done);
      assert EntriesAmong(files, done + {name}) == EntriesAmong(files, done) + {e};
    } else {
      assert EntriesAmong(files, done + {name}) == EntriesAmong(files, done);
    }
  }

  /** The scan loop of `get_image_list`: the entry of every `.jpg` file, each
      once, in an order the model does not fix (that of `os.listdir`). */
  method ScanFolder(files: map<string, ImageFile>) returns (collected: seq<ImageInfo>)
    ensures multiset(collected) == multiset(JpgEntries(files))
  {
    var pending := files.Keys;
    collected := [];
    while pending != {}
      invariant pending <= files.Keys
      invariant multiset(collected) == multiset(EntriesAmong(files, files.Keys - pending))
      decreases |pending|
    {
      var name :| name in pending;
      ScanStep(files, files.Keys - pending, name, collected);
      if EndsWithJpg(name) {
        collected := collected + [Describe(name, files[name])];
      }
      assert files.Keys - (pending - {name}) == (files.Keys - pending) + {name};
      pending := pending - {name};
    }
    assert files.Keys - pending == files.Keys;
  }

  /** Ascending order of the negated modification time is newest first. */
  lemma NewerFirstKeyOrder(images: seq<ImageInfo>)
    requires SortedBy(images, NewerFirstKey)
    ensures NewestFirst(images)
  {
    forall i, j | 0 <= i < j < |images| ensures images[i].mtime >= images[j].mtime {
      assert NewerFirstKey(images[i]) <= NewerFirstKey(images[j]);
    }
  }

  /** `get_image_list`: the scanned entries sorted by modification time,
      newest first. */
  method GetImageList(folder: Folder) returns (images: seq<ImageInfo>)
    ensures IsImageList(folder, images)
  {
    if folder.Absent? {
      return [];
    }
    var collected := ScanFolder(folder.files);
    images := SortByKey(collected, NewerFirstKey);
    NewerFirstKeyOrder(images);
  }

  /** The listing names every `.jpg` file once, with its own display
      timestamp and modification time, and nothing else. */
  lemma {:induction false} ImageListDescribesFolder(files: map<string, ImageFile>, images: seq<ImageInfo>)
    requires IsImageList(Present(files), images)
    ensures forall i, j :: 0 <= i < j < |images| ==> images[i].filename != images[j].filename
    ensures forall i :: 0 <= i < |images| ==>
              && images[i].filename in files
              && EndsWithJpg(images[i].filename)
              && images[i] == Describe(images[i].filename, files[images[i].filename])
    ensures forall n :: n in files && EndsWithJpg(n) ==> Describe(n, files[n]) in images
  {
    EnumeratesSet(images, JpgEntries(files));
    forall i | 0 <= i < |images|
      ensures images[i].filename in files && EndsWithJpg(images[i].filename)
      ensures images[i] == Describe(images[i].filename, files[images[i].filename])
    {
      assert images[i] in Elems(images);
    }
    forall n | n in files && EndsWithJpg(n) ensures Describe(n, files[n]) in images {
      assert Describe(n, files[n]) in JpgEntries(files);
    }
  }

  /** `get_latest_image`: the first entry of the listing, so the `.jpg` file
      with the greatest modification time, or nothing when there is none. */
  method GetLatestImage(folder: Folder) returns (latest: Option<ImageInfo>)
    ensures latest.None? <==> folder.Absent? || JpgNames(folder.files) == {}
    ensures latest.Some? ==>
              && folder.Present?
              && latest.value.filename in folder.files
              && EndsWithJpg(latest.value.filename)
              && latest.value == Describe(latest.value.filename, folder.files[latest.value.filename])
              && forall n :: n in folder.files && EndsWithJpg(n) ==> folder.files[n].mtime <= latest.value.mtime
  {
    var images := GetImageList(folder);
    if images == [] {
      latest := None;
      if folder.Present? {
        ImageListDescribesFolder(folder.files, images);
        assert forall n :: n in folder.files && EndsWithJpg(n) ==> Describe(n, folder.files[n]) in images;
        assert JpgNames(folder.files) == {};
      }
    } else {
      latest := Some(images[0]);
      ImageListDescribesFolder(folder.files, images);
      forall n | n in folder.files && EndsWithJpg(n)
        ensures folder.files[n].mtime <= images[0].mtime
      {
        var k :| 0 <= k < |images| && images[k] == Describe(n, folder.files[n]);
        assert k == 0 || images[0].mtime >= images[k].mtime;
      }
      assert images[0].filename in JpgNames(folder.files);
    }
  }

  /** The body of `GET /api/latest`. */
  datatype LatestReply = LatestReply(filename: Option<string>, timestamp: Option<string>, mtime: int)

  /** `api_latest`: the newest image's name, display timestamp and
      modification time, or `null`, `null` and `0` when there is no image. */
  method ApiLatest(folder: Folder) returns (reply: LatestReply)
    ensures reply.filename.None? <==> folder.Absent? || JpgNames(folder.files) == {}
    ensures reply.filename.None? ==> reply == LatestReply(None, None, 0)
    ensures reply.filename.Some? ==>
              var name := reply.filename.value;
              && folder.Present? && name in folder.files && EndsWithJpg(name)
              && reply.timestamp == Some(DisplayTimestamp(name))
              && reply.mtime == folder.files[name].mtime
              && forall n :: n in folder.files && EndsWithJpg(n) ==> folder.files[n].mtime <= reply.mtime
  {
    var latest := GetLatestImage(folder);
    match latest
    case None =>
      reply := LatestReply(None, None, 0);
    case Some(info) =>
      reply := LatestReply(Some(info.filename), Some(info.timestamp), info.mtime);
  }

  // ---------------------------------------------------------------------------
  // Eviction

  /** The modification time `os.path.getmtime` reports for a file of the folder. */
  function MtimeOf(files: map<string, ImageFile>, name: string): int {
    if name in files then files[name].mtime else 0
  }

  /** `os.path.getmtime`, the sort key of `cleanup_old_images`. */
  function MtimeKey(files: map<string, ImageFile>): string -> int {
    n => MtimeOf(files, n)
  }

  /** What `cleanup_old_images` does to the folder: it removes only `.jpg`
      files, exactly as many as there are over `MAX_IMAGES`, none newer than
      any `.jpg` file it keeps, and leaves every other file as it was. */
  ghost predicate EvictsOldest(before: map<string, ImageFile>, after: map<string, ImageFile>) {
    var count := |JpgNames(before)|;
    && after.Keys <= before.Keys
    && (forall n :: n in after ==> after[n] == before[n])
    && before.Keys - after.Keys <= JpgNames(before)
    && |before.Keys - after.Keys| == (if count > MaxImages then count - MaxImages else 0)
    && (forall gone, kept :: gone in before.Keys - after.Keys && kept in JpgNames(after) ==>
          before[gone].mtime <= before[kept].mtime)
  }

  /** After an eviction the folder holds `min(count, MAX_IMAGES)` `.jpg` files
      and every file that is not a `.jpg` is still there. */
  lemma {:induction false} EvictionBound(before: map<string, ImageFile>, after: map<string, ImageFile>)
    requires EvictsOldest(before, after)
    ensures |JpgNames(after)| == if |JpgNames(before)| > MaxImages then MaxImages else |JpgNames(before)|
    ensures |JpgNames(after)| <= MaxImages
    ensures forall n :: n in before && !EndsWithJpg(n) ==> n in after
  {
    var removed := before.Keys - after.Keys;
    assert JpgNames(after) == JpgNames(before) - removed;
    RemovalCard(JpgNames(before), removed);
  }

  /** An image strictly newer than every other `.jpg` file survives the
      eviction. */
  lemma {:induction false} NewestSurvivesEviction(before: map<string, ImageFile>, after: map<string, ImageFile>, name: string)
    requires EvictsOldest(before, after)
    requires name in before && EndsWithJpg(name)
    requires forall n :: n in before && EndsWithJpg(n) && n != name ==> before[n].mtime < before[name].mtime
    ensures name in after && after[name] == before[name]
  {
    if name !in after {
      EvictionBound(before, after);
      assert false;
    }
  }

  /** At or below `MAX_IMAGES` `.jpg` files, leaving the folder alone is an
      eviction of the oldest. */
  lemma {:induction false} NothingToEvict(files: map<string, ImageFile>, imageFiles: seq<string>)
    requires multiset(imageFiles) == multiset(JpgNames(files))
    requires |imageFiles| <= MaxImages
    ensures EvictsOldest(files, files)
  {
    EnumeratesSet(imageFiles, JpgNames(files));
    DistinctCard(imageFiles);
    assert files.Keys - files.Keys == {};
  }

  /** Deleting the first `k` names of the oldest-first order of all `.jpg`
      files, `k` being the excess over `MAX_IMAGES`, is an eviction of the
      oldest. */
  lemma {:induction false} PrefixDeletionEvictsOldest(files: map<string, ImageFile>, ordered: seq<string>, k: nat)
    requires multiset(ordered) == multiset(JpgNames(files))
    requires SortedBy(ordered, MtimeKey(files))
    requires |ordered| > MaxImages && k == |ordered| - MaxImages
    ensures EvictsOldest(files, files - Elems(ordered[..k]))
  {
    EnumeratesSet(ordered, JpgNames(files));
    SplitDistinct(ordered, k);
    var removed := Elems(ordered[..k]);
    var after := files - removed;
    assert Distinct(ordered[..k]);
    DistinctCard(ordered[..k]);
    assert files.Keys - after.Keys == removed;
    assert |JpgNames(files)| == |ordered| by {
      DistinctCard(ordered);
    }
    forall gone, kept | gone in removed && kept in JpgNames(after)
      ensures files[gone].mtime <= files[kept].mtime
    {
      var a :| 0 <= a < k && ordered[..k][a] == gone;
      assert kept in Elems(ordered[k..]);
      var b :| 0 <= b < |ordered| - k && ordered[k..][b] == kept;
      assert ordered[a] == gone && ordered[k + b] == kept;
      assert MtimeOf(files, ordered[a]) <= MtimeOf(files, ordered[k + b]);
    }
  }

  /** The list comprehension in `cleanup_old_images`: the `.jpg` names of the
      folder, each once, in the order `os.listdir` gives them. */
  method JpgFilesOf(files: map<string, ImageFile>) returns (names: seq<string>)
    ensures multiset(names) == multiset(JpgNames(files))
  {
    names := [];
    var pending := files.Keys;
    while pending != {}
      invariant pending <= files.Keys
      invariant multiset(names) == multiset(JpgNames(files) - pending)
      decreases |pending|
    {
      var name :| name in pending;
      if EndsWithJpg(name) {
        assert JpgNames(files) - (pending - {name}) == (JpgNames(files) - pending) + {name};
        names := names + [name];
      } else {
        assert JpgNames(files) - (pending - {name}) == JpgNames(files) - pending;
      }
      pending := pending - {name};
    }
    assert JpgNames(files) - pending == JpgNames(files);
  }

  /** The disk's answer to `upload`. */
  datatype UploadReply = UploadReply(status: int, text: string)

  // ---------------------------------------------------------------------------
  // The folder as the backend changes it

  class ImageDirectory {
    var folder: Folder

    constructor (folder: Folder)
      ensures this.folder == folder
    {
      this.folder := folder;
    }

    /** The deletion loop of `cleanup_old_images`: `os.remove` on each of the
        first `count` names. */
    method RemoveFirst(names: seq<string>, count: nat)
      requires folder.Present? && count <= |names|
      modifies this
      ensures folder == Present(old(folder).files - Elems(names[..count]))
    {
      for i := 0 to count
        invariant folder == Present(old(folder).files - Elems(names[..i]))
      {
        assert names[..i + 1] == names[..i] + [names[i]];
        assert Elems(names[..i + 1]) == Elems(names[..i]) + {names[i]};
        folder := Present(folder.files - {names[i]});
      }
    }

    /** `cleanup_old_images`. */
    method CleanupOldImages()
      modifies this
      ensures match old(folder)
              case Absent => folder == Absent
              case Present(before) => folder.Present? && EvictsOldest(before, folder.files)
    {
      if folder.Absent? {
        return;
      }
      var files := folder.files;
      var imageFiles := JpgFilesOf(files);
      if |imageFiles| > MaxImages {
        var ordered := SortByKey(imageFiles, MtimeKey(files));
        var toDelete := |ordered| - MaxImages;
        RemoveFirst(ordered, toDelete);
        PrefixDeletionEvictsOldest(files, ordered, toDelete);
      } else {
        NothingToEvict(files, imageFiles);
      }
    }

    /** `POST /upload`: store the body under the name the clock `now` gives,
        replacing a file of that name, then evict; `mtime` is the modification
        time the write gives the file. With the folder gone, `open` raises and
        Flask answers 500. */
    method Upload(now: DateTime, data: seq<byte>, mtime: int) returns (reply: UploadReply)
      requires ValidDateTime(now)
      modifies this
      ensures match old(folder)
              case Absent => folder == Absent && reply == UploadReply(500, "Internal Server Error")
              case Present(before) =>
                var written := before[UploadFilename(now) := ImageFile(data, mtime)];
                && reply == UploadReply(200, "Image saved")
                && folder.Present?
                && (AutoCleanup ==> EvictsOldest(written, folder.files))
                && (!AutoCleanup ==> folder == Present(written))
    {
      if folder.Absent? {
        return UploadReply(500, "Internal Server Error");
      }
      var filename := UploadFilename(now);
      folder := Present(folder.files[filename := ImageFile(data, mtime)]);
      if AutoCleanup {
        CleanupOldImages();
      }
      reply := UploadReply(200, "Image saved");
    }
  }

  /** With auto-cleanup on, after an upload the folder holds at most
      `MAX_IMAGES` `.jpg` files, and an upload newer than every other image is
      among them with its bytes as sent. */
  lemma {:induction false} UploadKeepsNewest(before: map<string, ImageFile>, now: DateTime, data: seq<byte>,
                                             mtime: int, after: map<string, ImageFile>)
    requires ValidDateTime(now)
    requires EvictsOldest(before[UploadFilename(now) := ImageFile(data, mtime)], after)
    ensures |JpgNames(after)| <= MaxImages
    ensures (forall n :: n in before && EndsWithJpg(n) && n != UploadFilename(now) ==> before[n].mtime < mtime) ==>
              UploadFilename(now) in after && after[UploadFilename(now)] == ImageFile(data, mtime)
  {
    var name := UploadFilename(now);
    var written := before[name := ImageFile(data, mtime)];
    UploadedImageDisplay(now);
    EvictionBound(written, after);
    if forall n :: n in before && EndsWithJpg(n) && n != name ==> before[n].mtime < mtime {
      NewestSurvivesEviction(written, after, name);
    }
  }
}
