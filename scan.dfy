/**
 * Scanning the `Models_download` folder of the master disk: every sub-folder
 * becomes a model entry, its name split into a manufacturer and a model name.
 */
module Scan {
  import opened Text
  import opened FileSystem

  /** The manufacturer bucket and model name read off a folder name. */
  datatype FolderName = FolderName(manufacturer: string, modelName: string)

  /** One model folder found by a scan (the dictionary `scan_models` appends). */
  datatype ModelEntry = ModelEntry(manufacturer: string, modelName: string, fullName: string, path: string)

  /** The bucket of a folder name without separator. */
  const OthersBucket: string := "Others"

  /** Folder name parsing: split at the first `_` if there is one, else at the first
      `-` if there is one, else the whole name is the model name of bucket `Others`. */
  function ParseFolderName(item: string): (r: FolderName)
    ensures '_' in item ==>
      '_' !in r.manufacturer && r.manufacturer + "_" + r.modelName == item
    ensures '_' !in item && '-' in item ==>
      '-' !in r.manufacturer && r.manufacturer + "-" + r.modelName == item
    ensures '_' !in item && '-' !in item ==>
      r.manufacturer == OthersBucket && r.modelName == item
  {
    if '_' in item then
      var parts := SplitOnce(item, '_');
      FolderName(parts.0, parts.1)
    else if '-' in item then
      var parts := SplitOnce(item, '-');
      FolderName(parts.0, parts.1)
    else
      FolderName(OthersBucket, item)
  }

  /** The three cases above pin the parse down completely: any split of the name at
      its first `_` (or, lacking `_`, its first `-`) is the one the parser makes. */
  lemma ParseFolderNameUnique(item: string, sep: char, a: string, b: string)
    requires sep == '_' || (sep == '-' && '_' !in item)
    requires sep !in a && a + [sep] + b == item
    ensures ParseFolderName(item) == FolderName(a, b)
  {
    SplitOnceUnique(item, sep, a, b);
  }

  /** An underscore wins over a later hyphen. */
  lemma ParseUnderscoreExample()
    ensures ParseFolderName("Qwen_2.5-7B") == FolderName("Qwen", "2.5-7B")
  {
    ParseFolderNameUnique("Qwen_2.5-7B", '_', "Qwen", "2.5-7B");
  }

  /** Without an underscore the first hyphen splits. */
  lemma ParseHyphenExample()
    ensures ParseFolderName("RandomVendor-Tiny") == FolderName("RandomVendor", "Tiny")
  {
    ParseFolderNameUnique("RandomVendor-Tiny", '-', "RandomVendor", "Tiny");
  }

  /** A leading underscore leaves an empty manufacturer. */
  lemma ParseLeadingUnderscoreExample()
    ensures ParseFolderName("_x") == FolderName("", "x")
  {
    ParseFolderNameUnique("_x", '_', "", "x");
  }

  /** The entry recorded for folder `item` under `modelsPath`. */
  function EntryFor(modelsPath: string, item: string): (e: ModelEntry)
    ensures FolderName(e.manufacturer, e.modelName) == ParseFolderName(item)
    ensures e.fullName == item && e.path == Join(modelsPath, item)
  {
    var n := ParseFolderName(item);
    ModelEntry(n.manufacturer, n.modelName, item, Join(modelsPath, item))
  }

  /** The entries a scan records for `listing`, in listing order: one per item that
      is a directory. */
  function Scanned(modelsPath: string, listing: seq<string>, fs: Fs): seq<ModelEntry>
    decreases |listing|
  {
    if listing == [] then []
    else
      var last := listing[|listing| - 1];
      Scanned(modelsPath, listing[..|listing| - 1], fs)
        + (if Join(modelsPath, last) in fs.dirs then [EntryFor(modelsPath, last)] else [])
  }

  /** The names of the items of `listing` that are directories, in order. */
  function DirNames(modelsPath: string, listing: seq<string>, fs: Fs): seq<string>
    decreases |listing|
  {
    if listing == [] then []
    else
      var last := listing[|listing| - 1];
      DirNames(modelsPath, listing[..|listing| - 1], fs)
        + (if Join(modelsPath, last) in fs.dirs then [last] else [])
  }

  /** `idx` lists, in increasing order, exactly the positions of the directory items
      of `listing`. */
  ghost predicate DirPositions(modelsPath: string, listing: seq<string>, fs: Fs, idx: seq<nat>)
  {
    (forall k :: 0 <= k < |idx| ==> idx[k] < |listing| && Join(modelsPath, listing[idx[k]]) in fs.dirs) &&
    (forall k, l :: 0 <= k < l < |idx| ==> idx[k] < idx[l]) &&
    (forall i :: 0 <= i < |listing| && Join(modelsPath, listing[i]) in fs.dirs ==> i in idx)
  }

  /** The directory names are the listing read at the directory positions. */
  lemma {:induction false} DirNamesPicked(modelsPath: string, listing: seq<string>, fs: Fs)
    returns (idx: seq<nat>)
    ensures DirPositions(modelsPath, listing, fs, idx)
    ensures |idx| == |DirNames(modelsPath, listing, fs)|
    ensures forall k :: 0 <= k < |idx| ==> DirNames(modelsPath, listing, fs)[k] == listing[idx[k]]
    decreases |listing|
  {
    if listing == [] {
      idx := [];
    } else {
      var n := |listing| - 1;
      var init := listing[..n];
      var prev := DirNamesPicked(modelsPath, init, fs);
      var sub := DirNames(modelsPath, init, fs);
      assert forall k :: 0 <= k < |prev| ==> prev[k] < n && listing[prev[k]] == init[prev[k]];
      if Join(modelsPath, listing[n]) in fs.dirs {
        idx := prev + [n];
        assert DirNames(modelsPath, listing, fs) == sub + [listing[n]];
      } else {
        idx := prev;
        assert DirNames(modelsPath, listing, fs) == sub;
      }
      forall i | 0 <= i < |listing| && Join(modelsPath, listing[i]) in fs.dirs
        ensures i in idx
      {
        if i < n {
          assert init[i] == listing[i];
        }
      }
    }
  }

  /** The entries of a scan are those of the directory names, one by one. */
  lemma {:induction false} ScannedFollowsDirNames(modelsPath: string, listing: seq<string>, fs: Fs)
    ensures |Scanned(modelsPath, listing, fs)| == |DirNames(modelsPath, listing, fs)|
    ensures forall k :: 0 <= k < |Scanned(modelsPath, listing, fs)| ==>
      Scanned(modelsPath, listing, fs)[k] == EntryFor(modelsPath, DirNames(modelsPath, listing, fs)[k])
    decreases |listing|
  {
    if listing != [] {
      ScannedFollowsDirNames(modelsPath, listing[..|listing| - 1], fs);
    }
  }

  /** `idx` lists, in increasing order, exactly the positions of the directory items
      of `listing`, and `models` holds the entry of each of them, in that order. */
  ghost predicate RecordsDirectories(models: seq<ModelEntry>, modelsPath: string, listing: seq<string>, fs: Fs,
                                     idx: seq<nat>)
  {
    DirPositions(modelsPath, listing, fs, idx) && |idx| == |models| &&
    (forall k :: 0 <= k < |idx| ==> models[k] == EntryFor(modelsPath, listing[idx[k]]))
  }

  /** A scan records exactly the directories of the listing, every one of them, in
      listing order, each parsed from its own name. */
  lemma ScannedIsDirectories(modelsPath: string, listing: seq<string>, fs: Fs) returns (idx: seq<nat>)
    ensures RecordsDirectories(Scanned(modelsPath, listing, fs), modelsPath, listing, fs, idx)
  {
    idx := DirNamesPicked(modelsPath, listing, fs);
    ScannedFollowsDirNames(modelsPath, listing, fs);
  }

  /** Every directory of the listing is recorded, and every record is a directory of
      the listing, parsed from its own name. */
  lemma ScannedSoundComplete(modelsPath: string, listing: seq<string>, fs: Fs)
    ensures forall i :: 0 <= i < |listing| && Join(modelsPath, listing[i]) in fs.dirs ==>
      EntryFor(modelsPath, listing[i]) in Scanned(modelsPath, listing, fs)
    ensures forall e :: e in Scanned(modelsPath, listing, fs) ==>
      e.fullName in listing && e.path == Join(modelsPath, e.fullName) &&
      e.path in fs.dirs && FolderName(e.manufacturer, e.modelName) == ParseFolderName(e.fullName)
  {
    var models := Scanned(modelsPath, listing, fs);
    var idx := ScannedIsDirectories(modelsPath, listing, fs);
    forall i | 0 <= i < |listing| && Join(modelsPath, listing[i]) in fs.dirs
      ensures EntryFor(modelsPath, listing[i]) in models
    {
      var k :| 0 <= k < |idx| && idx[k] == i;
      assert models[k] == EntryFor(modelsPath, listing[i]);
    }
    forall e | e in models
      ensures e.fullName in listing && e.path == Join(modelsPath, e.fullName) && e.path in fs.dirs
    {
      var k :| 0 <= k < |models| && models[k] == e;
      assert listing[idx[k]] == e.fullName;
    }
  }

  /** The loop of `scan_models`: one entry per directory item, in listing order. */
  method ScanListing(modelsPath: string, fs: Fs, listing: seq<string>) returns (models: seq<ModelEntry>)
    ensures models == Scanned(modelsPath, listing, fs)
    ensures exists idx :: RecordsDirectories(models, modelsPath, listing, fs, idx)
  {
    models := [];
    var i := 0;
    while i < |listing|
      invariant 0 <= i <= |listing|
      invariant models == Scanned(modelsPath, listing[..i], fs)
    {
      var item := listing[i];
      var itemPath := Join(modelsPath, item);
      if itemPath in fs.dirs {
        models := models + [EntryFor(modelsPath, item)];
      }
      assert listing[..i + 1][..i] == listing[..i];
      i := i + 1;
    }
    assert listing[..i] == listing;
    var idx := ScannedIsDirectories(modelsPath, listing, fs);
  }

  /** The folder `scan_models` lists. */
  function ModelsPath(basePath: string): string
  {
    Join(basePath, "Models_download")
  }

  /** `scan_models(base_path)`: nothing when `Models_download` is missing; an
      exception, which nothing catches, when it is not a folder; else one entry for
      every sub-folder and for nothing else, in the order the directory listing
      gives. */
  method ScanModels(basePath: string, fs: Fs, listing: seq<string>) returns (r: Ending<seq<ModelEntry>>)
    ensures ModelsPath(basePath) !in fs.existing ==> r == Returned([])
    ensures r.Raised? <==> ModelsPath(basePath) in fs.existing && ModelsPath(basePath) !in fs.dirs
    ensures r.Raised? ==> r.dir == ModelsPath(basePath)
    ensures ModelsPath(basePath) in fs.existing && ModelsPath(basePath) in fs.dirs ==>
      r == Returned(Scanned(ModelsPath(basePath), listing, fs)) &&
      (exists idx :: RecordsDirectories(r.value, ModelsPath(basePath), listing, fs, idx)) &&
      forall i :: 0 <= i < |listing| && Join(ModelsPath(basePath), listing[i]) in fs.dirs ==>
        EntryFor(ModelsPath(basePath), listing[i]) in r.value
    ensures r.Returned? ==> forall e :: e in r.value ==>
      e.fullName in listing && e.path == Join(ModelsPath(basePath), e.fullName) &&
      e.path in fs.dirs && FolderName(e.manufacturer, e.modelName) == ParseFolderName(e.fullName)
  {
    var modelsPath := ModelsPath(basePath);
    if modelsPath !in fs.existing {
      return Returned([]);
    }
    if modelsPath !in fs.dirs {
      return Raised(modelsPath);
    }
    var models := ScanListing(modelsPath, fs, listing);
    var idx := ScannedIsDirectories(modelsPath, listing, fs);
    ScannedSoundComplete(modelsPath, listing, fs);
    r := Returned(models);
  }
}
