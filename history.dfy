/**
 * `HistoryManager`: two history folders, `captures` and `processed`, each a
 * map from file names to entries. Saving copies a file in under a
 * timestamped name with a `.json` metadata companion and then prunes the
 * folder; listing, metadata lookup, deletion and clearing read or change
 * the maps the way the file operations would.
 */
module History {
  import opened Wrappers
  import opened PyText
  import opened Paths
  import opened Sorting
  import opened Retention

  /** The two sub-directories of the history folder. */
  datatype Category = Captures | Processed

  /** A file of the history: its folder and its name. */
  datatype HistoryFile = HistoryFile(category: Category, name: string)

  /** `category in ["all", "captures"]`. */
  predicate IncludesCaptures(category: string) {
    category == "all" || category == "captures"
  }

  /** `category in ["all", "processed"]`. */
  predicate IncludesProcessed(category: string) {
    category == "all" || category == "processed"
  }

  // ---------------------------------------------------------------------------
  // listing

  /** One element of the history list (its `path` is the folder and name). */
  datatype HistoryItem = HistoryItem(
    category: Category, filename: string, size: nat, timestamp: string,
    mode: Option<string>, metadata: Metadata)

  datatype HistoryList = HistoryList(files: seq<HistoryItem>, totalCount: nat, category: string)

  /** The metadata the listing shows: the companion's JSON object, or `{}` when it is missing or unreadable. */
  function MetadataFor(d: Dir, name: string): Metadata {
    var j := JsonOf(name);
    if j in d && d[j].isFile && d[j].json.Some? then d[j].json.value else NoMetadata
  }

  /** The list element for image `name`; processed images also carry a mode, `"unknown"` by default. */
  function ItemFor(d: Dir, name: string, category: Category): (it: HistoryItem)
    ensures it.filename == name && it.category == category
    ensures it.mode.Some? <==> category == Processed
  {
    var m := MetadataFor(d, name);
    HistoryItem(category, name, if name in d then d[name].size else 0, m.timestamp.GetOr(""),
                if category == Processed then Some(m.mode.GetOr("unknown")) else None, m)
  }

  /** The order of the listing: a later or equal timestamp first (`reverse=True`). */
  const NewerOrSame: (HistoryItem, HistoryItem) -> bool := (a: HistoryItem, b: HistoryItem) => StrLe(b.timestamp, a.timestamp)

  lemma NewerOrSameOrders()
    ensures TotalPreorder(NewerOrSame)
  {
    forall a: HistoryItem, b: HistoryItem ensures NewerOrSame(a, b) || NewerOrSame(b, a) {
      StrLeTotal(a.timestamp, b.timestamp);
    }
    forall a: HistoryItem, b: HistoryItem, c: HistoryItem | NewerOrSame(a, b) && NewerOrSame(b, c)
      ensures NewerOrSame(a, c)
    {
      StrLeTrans(c.timestamp, b.timestamp, a.timestamp);
    }
  }

  function JpgNames(d: Dir): set<string> {
    set n | n in d && EndsWith(n, ".jpg")
  }

  function PngNames(d: Dir): set<string> {
    set n | n in d && EndsWith(n, ".png")
  }

  /** `it` belongs in the listing of `category`: a capture `*.jpg` or a processed `*.png`, described as it is on disk. */
  predicate Listed(captures: Dir, processed: Dir, category: string, it: HistoryItem) {
    || (IncludesCaptures(category) && it.category == Captures && it.filename in JpgNames(captures)
        && it == ItemFor(captures, it.filename, Captures))
    || (IncludesProcessed(category) && it.category == Processed && it.filename in PngNames(processed)
        && it == ItemFor(processed, it.filename, Processed))
  }

  /** How many files the listing of `category` holds. */
  function ListedCount(captures: Dir, processed: Dir, category: string): nat {
    (if IncludesCaptures(category) then |JpgNames(captures)| else 0)
    + (if IncludesProcessed(category) then |PngNames(processed)| else 0)
  }

  // ---------------------------------------------------------------------------
  // metadata lookup

  datatype MetadataResult =
    | MetaFound(filename: string, category: Category, metadata: Metadata)
    | MetaNotFound(filename: string)
    | MetaFailed(filename: string)

  function MetaRead(e: Entry, filename: string, category: Category): MetadataResult {
    if e.isFile && e.json.Some? then MetaFound(filename, category, e.json.value) else MetaFailed(filename)
  }

  /**
   * `get_file_metadata`: the first folder, captures before processed, holding
   * both the file and its `.json`; reading that file may fail.
   */
  function FileMetadata(captures: Dir, processed: Dir, filename: string): (r: MetadataResult)
    ensures r.MetaNotFound? <==>
              !(filename in captures && JsonOf(filename) in captures) &&
              !(filename in processed && JsonOf(filename) in processed)
    ensures r.MetaFound? && r.category == Captures ==>
              filename in captures && JsonOf(filename) in captures && captures[JsonOf(filename)].json == Some(r.metadata)
    ensures r.MetaFound? && r.category == Processed ==>
              !(filename in captures && JsonOf(filename) in captures) &&
              filename in processed && JsonOf(filename) in processed && processed[JsonOf(filename)].json == Some(r.metadata)
  {
    var j := JsonOf(filename);
    if filename in captures && j in captures then MetaRead(captures[j], filename, Captures)
    else if filename in processed && j in processed then MetaRead(processed[j], filename, Processed)
    else MetaNotFound(filename)
  }

  // ---------------------------------------------------------------------------
  // deletion

  /** The files `delete_file` tries in each folder: the name, then its `.json`, then its `.txt`. */
  function Candidates(filename: string): seq<string> {
    [filename, JsonOf(filename), TextOf(filename)]
  }

  /** The folder after trying a few unlinks in order, the names removed, and whether one raised. */
  datatype DeleteStep = DeleteStep(dir: Dir, deleted: seq<string>, failed: bool)

  /** Each existing name is unlinked; a directory makes the unlink raise, which ends the deletion. */
  function DeleteNames(d: Dir, names: seq<string>): DeleteStep
    decreases |names|
  {
    if names == [] then DeleteStep(d, [], false)
    else if names[0] !in d then DeleteNames(d, names[1..])
    else if !d[names[0]].isFile then DeleteStep(d, [], true)
    else
      var rest := DeleteNames(d - {names[0]}, names[1..]);
      DeleteStep(rest.dir, [names[0]] + rest.deleted, rest.failed)
  }

  datatype DeleteResult =
    | Deleted(filename: string, deletedFiles: seq<HistoryFile>)
    | DeleteNotFound(filename: string)
    | DeleteFailed(filename: string)

  /** The folders after `delete_file` and its report. */
  datatype DeleteOutcome = DeleteOutcome(captures: Dir, processed: Dir, result: DeleteResult)

  function InFolder(category: Category, names: seq<string>): (files: seq<HistoryFile>)
    ensures |files| == |names|
    ensures forall i :: 0 <= i < |names| ==> files[i] == HistoryFile(category, names[i])
  {
    seq(|names|, i requires 0 <= i < |names| => HistoryFile(category, names[i]))
  }

  lemma InFolderMembers(category: Category, names: seq<string>)
    ensures forall f :: f in InFolder(category, names) <==> f.category == category && f.name in names
  {
    var files := InFolder(category, names);
    forall f ensures f in files <==> f.category == category && f.name in names {
      if f.category == category && f.name in names {
        var i :| 0 <= i < |names| && names[i] == f.name;
        assert files[i] == f;
      }
      if f in files {
        var i :| 0 <= i < |files| && files[i] == f;
        assert f.name == names[i];
      }
    }
  }

  /** `delete_file`: captures first, then processed; an error stops it with what was deleted so far gone. */
  function DeleteEffect(captures: Dir, processed: Dir, filename: string): DeleteOutcome {
    var c := DeleteNames(captures, Candidates(filename));
    if c.failed then DeleteOutcome(c.dir, processed, DeleteFailed(filename))
    else
      var p := DeleteNames(processed, Candidates(filename));
      if p.failed then DeleteOutcome(c.dir, p.dir, DeleteFailed(filename))
      else
        var all := InFolder(Captures, c.deleted) + InFolder(Processed, p.deleted);
        DeleteOutcome(c.dir, p.dir, if all != [] then Deleted(filename, all) else DeleteNotFound(filename))
  }

  /** In a folder of regular files every listed name that exists is removed, and only those. */
  lemma {:induction false} DeleteNamesRegular(d: Dir, names: seq<string>)
    requires AllFiles(d)
    ensures var r := DeleteNames(d, names);
            && !r.failed
            && r.dir == d - (set n | n in names)
            && (forall n :: n in r.deleted <==> n in names && n in d)
    decreases |names|
  {
    if names != [] {
      var n0 := names[0];
      var d' := if n0 in d then d - {n0} else d;
      DeleteNamesRegular(d', names[1..]);
      var r := DeleteNames(d, names);
      var r' := DeleteNames(d', names[1..]);
      assert names == [n0] + names[1..];
      assert forall k :: k in names <==> k == n0 || k in names[1..];
      var lhs := d' - (set n | n in names[1..]);
      var rhs := d - (set n | n in names);
      assert forall k :: k in lhs <==> k in rhs;
      assert forall k :: k in lhs ==> lhs[k] == rhs[k];
      assert lhs == rhs;
    } else {
      assert d - (set n | n in names) == d;
    }
  }

  /** The names of `delete_file` as a set. */
  function CandidateSet(filename: string): set<string> {
    set n | n in Candidates(filename)
  }

  /** For regular files `delete_file` empties both folders of the candidates and never fails. */
  lemma DeleteRegularFolders(captures: Dir, processed: Dir, filename: string)
    requires AllFiles(captures) && AllFiles(processed)
    ensures var out := DeleteEffect(captures, processed, filename);
            && out.captures == captures - CandidateSet(filename)
            && out.processed == processed - CandidateSet(filename)
            && !out.result.DeleteFailed?
            && FileMetadata(out.captures, out.processed, filename).MetaNotFound?
  {
    var cs := Candidates(filename);
    DeleteNamesRegular(captures, cs);
    DeleteNamesRegular(processed, cs);
    assert filename in CandidateSet(filename) by {
      assert cs[0] == filename;
    }
  }

  /** The report built from the names removed in each folder. */
  lemma ReportMembers(captures: Dir, processed: Dir, cDeleted: seq<string>, pDeleted: seq<string>, cs: seq<string>)
    requires forall n :: n in cDeleted <==> n in cs && n in captures
    requires forall n :: n in pDeleted <==> n in cs && n in processed
    ensures var all := InFolder(Captures, cDeleted) + InFolder(Processed, pDeleted);
            && (all != [] <==> exists n :: n in cs && (n in captures || n in processed))
            && forall f :: f in all <==>
                 f.name in cs && (if f.category == Captures then f.name in captures else f.name in processed)
  {
    var all := InFolder(Captures, cDeleted) + InFolder(Processed, pDeleted);
    InFolderMembers(Captures, cDeleted);
    InFolderMembers(Processed, pDeleted);
    assert forall f :: f in all <==> f in InFolder(Captures, cDeleted) || f in InFolder(Processed, pDeleted);
    if all != [] {
      assert all[0] in all;
    }
    if exists n :: n in cs && (n in captures || n in processed) {
      var n :| n in cs && (n in captures || n in processed);
      if n in captures {
        assert HistoryFile(Captures, n) in all;
      } else {
        assert HistoryFile(Processed, n) in all;
      }
    }
  }

  /** For regular files the report lists exactly the candidates that existed, folder by folder. */
  lemma DeleteRegularReport(captures: Dir, processed: Dir, filename: string)
    requires AllFiles(captures) && AllFiles(processed)
    ensures var out := DeleteEffect(captures, processed, filename);
            var cs := Candidates(filename);
            && (out.result.Deleted? <==> exists n :: n in cs && (n in captures || n in processed))
            && (out.result.Deleted? ==>
                  forall f :: f in out.result.deletedFiles <==>
                    f.name in cs && (if f.category == Captures then f.name in captures else f.name in processed))
  {
    var cs := Candidates(filename);
    var c := DeleteNames(captures, cs);
    var p := DeleteNames(processed, cs);
    DeleteNamesRegular(captures, cs);
    DeleteNamesRegular(processed, cs);
    ReportMembers(captures, processed, c.deleted, p.deleted, cs);
  }

  // ---------------------------------------------------------------------------
  // clearing

  /** The regular files of a folder: what `clear_history` unlinks and counts. */
  function RegularFiles(d: Dir): set<string> {
    set n | n in d && d[n].isFile
  }

  /** The folder with its regular files gone and its sub-directories kept. */
  function DirsOnly(d: Dir): (r: Dir)
    ensures RegularFiles(r) == {}
    ensures forall n :: n in r <==> n in d && !d[n].isFile
  {
    map n | n in d && !d[n].isFile :: d[n]
  }

  /** A folder of regular files is left empty, and the count is its size. */
  lemma ClearAllFiles(d: Dir)
    requires AllFiles(d)
    ensures DirsOnly(d) == map[]
    ensures |RegularFiles(d)| == |d|
  {
    assert RegularFiles(d) == d.Keys;
  }

  // ---------------------------------------------------------------------------
  // saving

  datatype SaveResult =
    | Saved(historyFile: HistoryFile, metadataFile: HistoryFile, timestamp: string)
    | SaveFailed

  /** `f"capture_{timestamp}.jpg"`. */
  function CaptureName(stamp: string): string {
    "capture_" + stamp + ".jpg"
  }

  /** `f"{mode}_{timestamp}{source_ext}"`. */
  function ProcessedName(mode: string, stamp: string, ext: string): string {
    mode + "_" + stamp + ext
  }

  /** `metadata.get("mode", "processed")`. */
  function ModeOf(m: Metadata): string {
    m.mode.GetOr("processed")
  }

  /**
   * `shutil.copy2` of a regular file to `name`: the copy keeps the source's
   * times and size; onto an existing sub-directory the file goes inside it,
   * which the folder's own entries do not show.
   */
  function Copy(d: Dir, name: string, source: Entry): Dir {
    if name in d && !d[name].isFile then d else d[name := source]
  }

  /** The `.json` file `json.dump` writes at time `now` (its size is not modelled). */
  function MetadataEntry(meta: Metadata, now: int): Entry {
    Entry(true, now, 0, Some(meta))
  }

  /** A folder after the writes of a save, before pruning, and whether every write succeeded. */
  datatype Staging = Staging(dir: Dir, ok: bool)

  /**
   * The writes of `save_capture`: a missing or non-regular source makes the
   * copy raise; a sub-directory in place of the `.json` makes the metadata
   * write raise after the copy.
   */
  function StageCapture(d: Dir, stamp: string, source: Option<Entry>, meta: Metadata, now: int): Staging {
    if source.None? || !source.value.isFile then Staging(d, false)
    else
      var name := CaptureName(stamp);
      var copied := Copy(d, name, source.value);
      if JsonOf(name) in copied && !copied[JsonOf(name)].isFile then Staging(copied, false)
      else Staging(copied[JsonOf(name) := MetadataEntry(meta, now)], true)
  }

  /**
   * The writes of `save_processed`; `text` is what exists at the metadata's
   * `text_output_path` (None when the key is absent or nothing is there).
   */
  function StageProcessed(d: Dir, stamp: string, sourceName: string, source: Option<Entry>,
                          meta: Metadata, text: Option<Entry>, now: int): Staging {
    if source.None? || !source.value.isFile then Staging(d, false)
    else
      var name := ProcessedName(ModeOf(meta), stamp, Suffix(sourceName));
      var copied := Copy(d, name, source.value);
      if JsonOf(name) in copied && !copied[JsonOf(name)].isFile then Staging(copied, false)
      else
        var written := copied[JsonOf(name) := MetadataEntry(meta, now)];
        if text.None? then Staging(written, true)
        else if !text.value.isFile then Staging(written, false)
        else Staging(Copy(written, TextOf(name), text.value), true)
  }

  /** A capture is a `.jpg` image whose metadata file has the same stem. */
  lemma CaptureNameParts(stamp: string)
    requires '.' !in stamp
    ensures IsImageName(CaptureName(stamp)) && EndsWith(CaptureName(stamp), ".jpg")
    ensures JsonOf(CaptureName(stamp)) == "capture_" + stamp + ".json"
  {
    var x := "capture_" + stamp;
    assert '.' !in x by {
      assert forall i :: 0 <= i < |x| ==> x[i] in "capture_" || x[i] in stamp;
    }
    StemOfJoined(x, ".jpg");
    assert CaptureName(stamp) == x + ".jpg";
    var n := CaptureName(stamp);
    assert n[|n| - 4..] == ".jpg";
  }

  /** A processed file keeps the source's suffix, and its metadata file has the same stem with `.json`. */
  lemma ProcessedNameParts(mode: string, stamp: string, sourceName: string)
    requires '.' !in mode && '.' !in stamp
    ensures var name := ProcessedName(mode, stamp, Suffix(sourceName));
            && Suffix(name) == Suffix(sourceName)
            && Stem(name) == mode + "_" + stamp
            && JsonOf(name) == mode + "_" + stamp + ".json"
  {
    var x := mode + "_" + stamp;
    assert '.' !in x by {
      assert forall i :: 0 <= i < |x| ==> x[i] in mode || x[i] == '_' || x[i] in stamp;
    }
    StemOfJoined(x, Suffix(sourceName));
  }

  /** Into a folder of regular files a regular photo is saved, with its metadata beside it. */
  lemma StageCaptureRegular(d: Dir, stamp: string, source: Entry, meta: Metadata, now: int)
    requires '.' !in stamp && AllFiles(d) && source.isFile
    ensures var name := CaptureName(stamp);
            var st := StageCapture(d, stamp, Some(source), meta, now);
            && st.ok && AllFiles(st.dir)
            && st.dir == d[name := source][JsonOf(name) := MetadataEntry(meta, now)]
            && Images(st.dir) == Images(d) + {name}
  {
    var name := CaptureName(stamp);
    var st := StageCapture(d, stamp, Some(source), meta, now);
    CaptureNameParts(stamp);
    CompanionsNotImages(name);
    assert forall n :: n in Images(st.dir) <==> n in Images(d) + {name};
  }

  /**
   * A capture saved into a folder of regular files that stays within the
   * limit is listed with the metadata it was saved with, and its metadata
   * reads back unchanged.
   */
  lemma SavedCaptureReadsBack(captures: Dir, processed: Dir, stamp: string, source: Entry,
                              meta: Metadata, now: int, listing: seq<string>, maxFiles: int)
    requires '.' !in stamp && AllFiles(captures) && source.isFile
    requires var st := StageCapture(captures, stamp, Some(source), meta, now);
             Enumerates(listing, Images(st.dir)) && |listing| <= maxFiles
    ensures var name := CaptureName(stamp);
            var kept := Cleaned(StageCapture(captures, stamp, Some(source), meta, now).dir, listing, maxFiles);
            && name in JpgNames(kept)
            && MetadataFor(kept, name) == meta
            && FileMetadata(kept, processed, name) == MetaFound(name, Captures, meta)
  {
    var name := CaptureName(stamp);
    var st := StageCapture(captures, stamp, Some(source), meta, now);
    StageCaptureRegular(captures, stamp, source, meta, now);
    CaptureNameParts(stamp);
    CleanedFolder(st.dir, listing, maxFiles);
  }

  /** When the newest image is strictly newer than every other one, a positive limit keeps it. */
  lemma NewestImageKept(d: Dir, listing: seq<string>, maxFiles: int, newest: string)
    requires AllFiles(d) && Enumerates(listing, Images(d)) && maxFiles >= 1
    requires newest in Images(d)
    requires forall n :: n in Images(d) && n != newest ==> d[n].mtime < d[newest].mtime
    ensures newest in Cleaned(d, listing, maxFiles)
  {
    if newest !in Cleaned(d, listing, maxFiles) {
      CleanedWithinLimit(d, listing, maxFiles);
      CleanedFolder(d, listing, maxFiles);
      var r := Cleaned(d, listing, maxFiles);
      assert |listing| >= 1 by {
        assert newest in listing;
      }
      assert |Images(r)| >= 1;
      var kept :| kept in Images(r);
      CleanedOldestFirst(d, listing, maxFiles, newest, kept);
    }
  }

  // ---------------------------------------------------------------------------
  // the manager

  class HistoryManager {
    var captures: Dir
    var processed: Dir
    var maxFiles: int

    /** `__init__`: the folders as found (`mkdir(exist_ok=True)` keeps what is there). */
    constructor(captures: Dir, processed: Dir, maxFiles: int)
      ensures this.captures == captures && this.processed == processed && this.maxFiles == maxFiles
    {
      this.captures := captures;
      this.processed := processed;
      this.maxFiles := maxFiles;
    }

    function Folder(category: Category): Dir
      reads this
    {
      if category == Captures then captures else processed
    }

    /**
     * `_cleanup_old_files`: the listing is the `*.jpg` glob followed by the
     * `*.png` glob, in the order the file system returns; it is sorted by
     * modification time and the oldest are removed while too many remain.
     */
    method CleanupOldFiles(category: Category) returns (ghost listing: seq<string>)
      modifies this
      ensures Enumerates(listing, Images(old(Folder(category))))
      ensures Folder(category) == Cleaned(old(Folder(category)), listing, maxFiles)
      ensures category == Captures ==> processed == old(processed)
      ensures category == Processed ==> captures == old(captures)
      ensures maxFiles == old(maxFiles)
    {
      var d;
      d, listing := PruneFolder(Folder(category), maxFiles);
      if category == Captures {
        captures := d;
      } else {
        processed := d;
      }
    }

    /** `save_capture`: copy the photo in as `capture_<stamp>.jpg`, write its metadata, prune captures. */
    method SaveCapture(stamp: string, source: Option<Entry>, meta: Metadata, now: int)
      returns (res: SaveResult, ghost listing: seq<string>)
      modifies this
      ensures processed == old(processed) && maxFiles == old(maxFiles)
      ensures var st := StageCapture(old(captures), stamp, source, meta, now);
              var name := CaptureName(stamp);
              if st.ok then
                && res == Saved(HistoryFile(Captures, name), HistoryFile(Captures, JsonOf(name)), stamp)
                && Enumerates(listing, Images(st.dir))
                && captures == Cleaned(st.dir, listing, maxFiles)
              else res == SaveFailed && captures == st.dir
    {
      listing := [];
      if source.None? || !source.value.isFile {
        return SaveFailed, listing;
      }
      var filename := CaptureName(stamp);
      captures := Copy(captures, filename, source.value);
      var metadataFile := JsonOf(filename);
      if metadataFile in captures && !captures[metadataFile].isFile {
        return SaveFailed, listing;
      }
      captures := captures[metadataFile := MetadataEntry(meta, now)];
      listing := CleanupOldFiles(Captures);
      res := Saved(HistoryFile(Captures, filename), HistoryFile(Captures, metadataFile), stamp);
    }

    /**
     * `save_processed`: copy the output in as `<mode>_<stamp><suffix>`, write its
     * metadata, copy the ASCII text beside it when there is one, prune processed.
     */
    method SaveProcessed(stamp: string, sourceName: string, source: Option<Entry>, meta: Metadata,
                         text: Option<Entry>, now: int)
      returns (res: SaveResult, ghost listing: seq<string>)
      modifies this
      ensures captures == old(captures) && maxFiles == old(maxFiles)
      ensures var st := StageProcessed(old(processed), stamp, sourceName, source, meta, text, now);
              var name := ProcessedName(ModeOf(meta), stamp, Suffix(sourceName));
              if st.ok then
                && res == Saved(HistoryFile(Processed, name), HistoryFile(Processed, JsonOf(name)), stamp)
                && Enumerates(listing, Images(st.dir))
                && processed == Cleaned(st.dir, listing, maxFiles)
              else res == SaveFailed && processed == st.dir
    {
      listing := [];
      if source.None? || !source.value.isFile {
        return SaveFailed, listing;
      }
      var mode := ModeOf(meta);
      var sourceExt := Suffix(sourceName);
      var filename := ProcessedName(mode, stamp, sourceExt);
      processed := Copy(processed, filename, source.value);
      var metadataFile := JsonOf(filename);
      if metadataFile in processed && !processed[metadataFile].isFile {
        return SaveFailed, listing;
      }
      processed := processed[metadataFile := MetadataEntry(meta, now)];
      if text.Some? {
        if !text.value.isFile {
          return SaveFailed, listing;
        }
        processed := Copy(processed, TextOf(filename), text.value);
      }
      listing := CleanupOldFiles(Processed);
      res := Saved(HistoryFile(Processed, filename), HistoryFile(Processed, metadataFile), stamp);
    }

    /** `get_history_list`: the listed images of the chosen folders, newest first. */
    method GetHistoryList(category: string) returns (res: HistoryList)
      ensures res.category == category && res.totalCount == |res.files|
      ensures forall it :: it in res.files <==> Listed(captures, processed, category, it)
      ensures |res.files| == ListedCount(captures, processed, category)
      ensures SortedBy(res.files, NewerOrSame)
    {
      var caps: seq<HistoryItem> := [];
      if IncludesCaptures(category) {
        caps := ListImages(captures, ".jpg", Captures);
      }
      var procs: seq<HistoryItem> := [];
      if IncludesProcessed(category) {
        procs := ListImages(processed, ".png", Processed);
      }
      var files := caps + procs;
      assert forall it :: it in files <==> Listed(captures, processed, category, it);
      var sorted := SortBy(files, NewerOrSame);
      NewerOrSameOrders();
      SortBySorted(files, NewerOrSame);
      SameMembers(files, sorted);
      res := HistoryList(sorted, |sorted|, category);
    }

    /** `get_file_metadata`. */
    function GetFileMetadata(filename: string): (r: MetadataResult)
      reads this
      ensures r.MetaNotFound? <==> forall c :: !(filename in Folder(c) && JsonOf(filename) in Folder(c))
    {
      var r := FileMetadata(captures, processed, filename);
      assert forall c :: Folder(c) == captures || Folder(c) == processed;
      assert Folder(Captures) == captures && Folder(Processed) == processed;
      r
    }

    /** `delete_file`. */
    method DeleteFile(filename: string) returns (res: DeleteResult)
      modifies this
      ensures DeleteEffect(old(captures), old(processed), filename) == DeleteOutcome(captures, processed, res)
      ensures maxFiles == old(maxFiles)
    {
      var c, cDeleted, cFailed := DeleteCandidates(captures, Candidates(filename));
      captures := c;
      if cFailed {
        return DeleteFailed(filename);
      }
      var p, pDeleted, pFailed := DeleteCandidates(processed, Candidates(filename));
      processed := p;
      if pFailed {
        return DeleteFailed(filename);
      }
      var deletedFiles := InFolder(Captures, cDeleted) + InFolder(Processed, pDeleted);
      if deletedFiles != [] {
        res := Deleted(filename, deletedFiles);
      } else {
        res := DeleteNotFound(filename);
      }
    }

    /** `clear_history`: unlink every regular file of the chosen folders and count them. */
    method ClearHistory(category: string) returns (deletedCount: nat)
      modifies this
      ensures captures == if IncludesCaptures(category) then DirsOnly(old(captures)) else old(captures)
      ensures processed == if IncludesProcessed(category) then DirsOnly(old(processed)) else old(processed)
      ensures deletedCount ==
                (if IncludesCaptures(category) then |RegularFiles(old(captures))| else 0)
                + (if IncludesProcessed(category) then |RegularFiles(old(processed))| else 0)
      ensures maxFiles == old(maxFiles)
    {
      deletedCount := 0;
      if IncludesCaptures(category) {
        var d, n := ClearFolder(captures);
        captures := d;
        deletedCount := deletedCount + n;
      }
      if IncludesProcessed(category) {
        var d, n := ClearFolder(processed);
        processed := d;
        deletedCount := deletedCount + n;
      }
    }
  }

  /** `list(dir_path.glob("*.jpg")) + list(dir_path.glob("*.png"))`: every image once. */
  method ImageGlobs(d: Dir) returns (files: seq<string>)
    ensures Enumerates(files, Images(d))
  {
    var jpgs := Glob(d, ".jpg");
    var pngs := Glob(d, ".png");
    forall x | x in jpgs ensures x !in pngs {
      assert EndsWith(x, ".jpg");
      assert x[|x| - 4..][2] == 'p';
    }
    DistinctConcat(jpgs, pngs);
    files := jpgs + pngs;
  }

  /**
   * The `try` block for one old image: unlink it, then its `.json`, then its
   * `.txt` when present; an unlink that raises ends the block.
   */
  method UnlinkImage(d: Dir, oldFile: string) returns (d': Dir)
    ensures d' == RemoveImage(d, oldFile)
  {
    d' := d;
    if oldFile in d' && d'[oldFile].isFile {
      d' := d' - {oldFile};
      var metadataFile := JsonOf(oldFile);
      if metadataFile in d' {
        if d'[metadataFile].isFile {
          d' := d' - {metadataFile};
        } else {
          return;
        }
      }
      var textFile := TextOf(oldFile);
      if textFile in d' && d'[textFile].isFile {
        d' := d' - {textFile};
      }
    }
  }

  /**
   * The body of `_cleanup_old_files` on one folder: sort the images oldest
   * first and `pop(0)` while more than `maxFiles` remain; popping from an
   * empty list (a negative limit) raises and ends the cleanup.
   */
  method PruneFolder(d0: Dir, maxFiles: int) returns (d: Dir, ghost listing: seq<string>)
    ensures Enumerates(listing, Images(d0))
    ensures d == Cleaned(d0, listing, maxFiles)
  {
    d := d0;
    var files := ImageGlobs(d);
    listing := files;
    files := SortBy(files, OlderOrSame(d));
    ghost var sorted := files;
    ghost var removed := 0;
    while |files| > maxFiles
      invariant 0 <= removed <= |sorted| && files == sorted[removed..]
      invariant d == RemoveAll(d0, sorted[..removed])
      invariant removed <= PruneCount(|sorted|, maxFiles)
      decreases |files|
    {
      if files == [] {
        break;
      }
      var oldFile := files[0];
      files := files[1..];
      ghost var before := d;
      d := UnlinkImage(d, oldFile);
      RemoveAllSnoc(d0, sorted[..removed], oldFile);
      assert sorted[..removed + 1] == sorted[..removed] + [oldFile];
      removed := removed + 1;
    }
    assert removed == PruneCount(|sorted|, maxFiles);
  }

  /** One glob of `get_history_list`: an item for every image of `d` with suffix `ext`, in glob order. */
  method ListImages(d: Dir, ext: string, category: Category) returns (items: seq<HistoryItem>)
    ensures forall it :: it in items <==>
              it.category == category && it.filename in d && EndsWith(it.filename, ext)
              && it == ItemFor(d, it.filename, category)
    ensures |items| == |set n | n in d && EndsWith(n, ext)|
  {
    var names := Glob(d, ext);
    DistinctCard(names);
    assert (set x | x in names) == set n | n in d && EndsWith(n, ext);
    items := [];
    for i := 0 to |names|
      invariant |items| == i
      invariant forall j :: 0 <= j < i ==> items[j] == ItemFor(d, names[j], category)
    {
      items := items + [ItemFor(d, names[i], category)];
    }
    forall it ensures it in items <==> it.category == category && it.filename in d && EndsWith(it.filename, ext)
                                       && it == ItemFor(d, it.filename, category)
    {
      if it in items {
        var j :| 0 <= j < |items| && items[j] == it;
        assert it.filename == names[j];
        assert names[j] in names;
        assert it.filename in (set n | n in d && EndsWith(n, ext));
      }
      if it.category == category && it.filename in d && EndsWith(it.filename, ext) && it == ItemFor(d, it.filename, category) {
        assert it.filename in names;
        var j :| 0 <= j < |names| && names[j] == it.filename;
        assert items[j] == it;
      }
    }
  }

  /** Sequences with the same multiset have the same members. */
  lemma SameMembers<T>(a: seq<T>, b: seq<T>)
    requires multiset(a) == multiset(b)
    ensures forall x :: x in a <==> x in b
  {
    forall x ensures x in a <==> x in b {
      assert x in a <==> x in multiset(a);
      assert x in b <==> x in multiset(b);
    }
  }

  /** The three unlinks of `delete_file` in one folder; an error breaks off. */
  method DeleteCandidates(d: Dir, names: seq<string>) returns (d': Dir, deleted: seq<string>, failed: bool)
    ensures DeleteStep(d', deleted, failed) == DeleteNames(d, names)
  {
    d' := d;
    deleted := [];
    failed := false;
    var i := 0;
    while i < |names|
      invariant 0 <= i <= |names|
      invariant var r := DeleteNames(d', names[i..]);
                DeleteNames(d, names) == DeleteStep(r.dir, deleted + r.deleted, r.failed)
      decreases |names| - i
    {
      var n := names[i];
      assert names[i..][1..] == names[i + 1..];
      if n in d' {
        if !d'[n].isFile {
          failed := true;
          assert DeleteNames(d', names[i..]) == DeleteStep(d', [], true);
          assert deleted + [] == deleted;
          return;
        }
        ghost var r := DeleteNames(d' - {n}, names[i + 1..]);
        assert deleted + ([n] + r.deleted) == (deleted + [n]) + r.deleted;
        d' := d' - {n};
        deleted := deleted + [n];
      }
      i := i + 1;
    }
    assert deleted + [] == deleted;
  }

  /** `for file_path in dir.iterdir(): if file_path.is_file(): unlink; count += 1`. */
  method ClearFolder(d: Dir) returns (d': Dir, count: nat)
    ensures d' == DirsOnly(d)
    ensures count == |RegularFiles(d)|
  {
    d' := d;
    count := 0;
    var rest := d.Keys;
    while rest != {}
      invariant rest <= d.Keys
      invariant d' == map n | n in d && (n in rest || !d[n].isFile) :: d[n]
      invariant count == |set n | n in d && n !in rest && d[n].isFile|
      decreases |rest|
    {
      var n :| n in rest;
      ghost var done := set m | m in d && m !in rest && d[m].isFile;
      if d[n].isFile {
        d' := d' - {n};
        assert (set m | m in d && m !in rest - {n} && d[m].isFile) == done + {n};
        count := count + 1;
      } else {
        assert (set m | m in d && m !in rest - {n} && d[m].isFile) == done;
      }
      rest := rest - {n};
    }
    assert (set n | n in d && n !in rest && d[n].isFile) == RegularFiles(d);
  }
}
