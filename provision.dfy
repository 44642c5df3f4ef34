/**
 * The decisions around the copies onto the card: which backend folder is copied for
 * a backend code, what the run does with the backend choice, which platform folder a
 * memory size selects, and when the copies of the dev-mode and fused-MoE
 * configuration files count as a success.
 */
module Provision {
  import opened Wrappers
  import opened Text
  import opened FileSystem
  import opened Mounts

  // ---------------------------------------------------------------------------
  // Backend codes
  // ---------------------------------------------------------------------------

  /** The backends of the run menu, by code. */
  function BackendName(code: string): Option<string>
  {
    if code == "1" then Some("FlashAttention")
    else if code == "2" then Some("FlashInfer")
    else None
  }

  /** The folder under `98autoshell` holding the files of a backend code. */
  function BackendDir(code: string): (d: Option<string>)
    ensures d.Some? <==> BackendName(code).Some?
    ensures d == Some("Attention") <==> BackendName(code) == Some("FlashAttention")
    ensures d == Some("Infer") <==> BackendName(code) == Some("FlashInfer")
  {
    if code == "1" then Some("Attention")
    else if code == "2" then Some("Infer")
    else None
  }

  /** The code copied for a detected backend name; other names copy nothing. */
  function DetectedBackendCode(name: string): (c: Option<string>)
    ensures c.Some? <==> name == "FlashAttention" || name == "FlashInfer"
    ensures c.Some? ==> BackendName(c.value) == Some(name)
  {
    if name == "FlashAttention" then Some("1")
    else if name == "FlashInfer" then Some("2")
    else None
  }

  /** Detection and the menu agree: a detected name selects the code the menu shows
      it under, and only that code. */
  lemma DetectedBackendCodeInvertsName(name: string, code: string)
    ensures DetectedBackendCode(name) == Some(code) <==> BackendName(code) == Some(name)
  {
  }

  /** Why a copy did not take place. */
  datatype CopyError = NoDiskPath | InvalidBackend | SourceMissing | NotMounted | CopyFailed

  /** The outcome of a single copy step. */
  datatype Transfer = Copied(src: string, dst: string) | Failed(reason: CopyError)

  /** Where the backend files go under the root file system partition. */
  const AutoShellTarget: seq<string> := ["home", "rm01", "autoShell"]

  /** `copy_backend(backend_type, config)`: `sda1` is the mount point of the root file
      system partition. The checks come in the source's order: disk path set, known
      code, source folder present, partition mounted; then the copy itself. */
  function CopyBackend(code: string, diskPath: string, fs: Fs, sda1: Option<string>): (r: Transfer)
    ensures diskPath == "" ==> r == Failed(NoDiskPath)
    ensures code != "1" && code != "2" ==> r.Failed?
    ensures r.Copied? ==>
      (code == "1" && r.src == JoinAll(diskPath, ["98autoshell", "Attention"])) ||
      (code == "2" && r.src == JoinAll(diskPath, ["98autoshell", "Infer"]))
    ensures r.Copied? ==>
      diskPath != "" && r.src in fs.existing && Mounted(sda1) &&
      r.dst == JoinAll(sda1.value, AutoShellTarget) && r.dst !in fs.failing
    ensures (diskPath != "" && BackendDir(code).Some? &&
             JoinAll(diskPath, ["98autoshell", BackendDir(code).value]) in fs.existing &&
             Mounted(sda1) && JoinAll(sda1.value, AutoShellTarget) !in fs.failing) ==> r.Copied?
  {
    if diskPath == "" then Failed(NoDiskPath)
    else match BackendDir(code)
      case None => Failed(InvalidBackend)
      case Some(dir) =>
        var src := JoinAll(diskPath, ["98autoshell", dir]);
        if src !in fs.existing then Failed(SourceMissing)
        else if !Mounted(sda1) then Failed(NotMounted)
        else
          var dst := JoinAll(sda1.value, AutoShellTarget);
          if dst in fs.failing then Failed(CopyFailed) else Copied(src, dst)
  }

  // ---------------------------------------------------------------------------
  // The backend step of a run
  // ---------------------------------------------------------------------------

  /** The run menu's backend choice: `1` or `2` for a backend, `3` for automatic
      detection. Exactly the codes with a backend, plus automatic, are accepted. */
  predicate BackendChoiceAccepted(choice: string)
    ensures BackendChoiceAccepted(choice) <==> BackendName(choice).Some? || choice == "3"
  {
    choice == "1" || choice == "2" || choice == "3"
  }

  /** What the run does about the backend: copy a code (and whether a failed copy
      ends the run), copy nothing and go on, or end the run. */
  datatype BackendStep = CopyCode(code: string, stopOnFailure: bool) | SkipBackend | StopRun

  /** The backend step of `run()` for menu choice `choice` (`1`, `2`, or `3` for
      automatic detection, whose result is `detected`). */
  function RunBackendStep(choice: string, detected: Option<string>): (s: BackendStep)
    requires BackendChoiceAccepted(choice)
    ensures choice != "3" ==> s == CopyCode(choice, true)
    ensures choice == "3" ==> (s == StopRun <==> detected.None? || detected.value == "")
    ensures choice == "3" && s.CopyCode? ==> !s.stopOnFailure && BackendName(s.code) == detected
    ensures choice == "3" && s == SkipBackend ==>
      detected.Some? && detected.value != "" && detected.value != "FlashAttention" && detected.value != "FlashInfer"
  {
    if choice == "3" then
      if detected.None? || detected.value == "" then StopRun
      else match DetectedBackendCode(detected.value)
        case Some(code) =>
          DetectedBackendCodeInvertsName(detected.value, code);
          CopyCode(code, false)
        case None => SkipBackend
    else CopyCode(choice, true)
  }

  // ---------------------------------------------------------------------------
  // Dev-mode configuration files
  // ---------------------------------------------------------------------------

  /** The configuration files copied in dev mode and the folder each goes to. */
  const DevConfigFiles: seq<(string, string)> :=
    [("embedding_run.yaml", "embedding"), ("llm_run.yaml", "llm"), ("reranker_run.yaml", "reranker")]

  /** The folder holding a model's dev-mode files for a memory size. */
  function DevConfigFolder(diskPath: string, vram: string, model: string): string
  {
    JoinAll(diskPath, ["Model_dev_yaml", vram, model])
  }

  /** The checks before any file is copied: the three source folders exist and the
      models partition (`sda2`) is mounted. */
  predicate DevConfigReady(diskPath: string, vram: string, model: string, fs: Fs, sda2: Option<string>)
  {
    JoinAll(diskPath, ["Model_dev_yaml"]) in fs.existing &&
    JoinAll(diskPath, ["Model_dev_yaml", vram]) in fs.existing &&
    DevConfigFolder(diskPath, vram, model) in fs.existing &&
    Mounted(sda2)
  }

  /** File `f` is copied: it exists in the source folder and its copy does not raise. */
  predicate DevFileCopied(folder: string, mount: string, fs: Fs, f: (string, string))
  {
    Join(folder, f.0) in fs.existing && Join(JoinAll(mount, ["dev", f.1]), f.0) !in fs.failing
  }

  /** Which of `files` are copied, file by file. */
  function CopiedFlags(folder: string, mount: string, fs: Fs, files: seq<(string, string)>): (flags: seq<bool>)
    ensures |flags| == |files|
    ensures forall k :: 0 <= k < |files| ==> flags[k] == DevFileCopied(folder, mount, fs, files[k])
  {
    seq(|files|, k requires 0 <= k < |files| => DevFileCopied(folder, mount, fs, files[k]))
  }

  /** How many flags are set. */
  function CountTrue(flags: seq<bool>): nat
    decreases |flags|
  {
    if flags == [] then 0
    else CountTrue(flags[..|flags| - 1]) + (if flags[|flags| - 1] then 1 else 0)
  }

  /** The count is at most the number of flags. */
  lemma {:induction false} CountTrueBound(flags: seq<bool>)
    ensures CountTrue(flags) <= |flags|
    decreases |flags|
  {
    if flags != [] {
      CountTrueBound(flags[..|flags| - 1]);
    }
  }

  /** The count is zero exactly when no flag is set. */
  lemma {:induction false} CountTrueZero(flags: seq<bool>)
    ensures CountTrue(flags) == 0 <==> forall k :: 0 <= k < |flags| ==> !flags[k]
    decreases |flags|
  {
    if flags != [] {
      var init := flags[..|flags| - 1];
      CountTrueZero(init);
      assert forall k :: 0 <= k < |init| ==> init[k] == flags[k];
    }
  }

  /** The count is full exactly when every flag is set. */
  lemma {:induction false} CountTrueFull(flags: seq<bool>)
    ensures CountTrue(flags) == |flags| <==> forall k :: 0 <= k < |flags| ==> flags[k]
    decreases |flags|
  {
    if flags != [] {
      var init := flags[..|flags| - 1];
      CountTrueFull(init);
      CountTrueBound(init);
      assert forall k :: 0 <= k < |init| ==> init[k] == flags[k];
    }
  }

  /** Creating the destination folder of file `f` raises: the source file exists, so
      its folder under `dev` is created, and that creation fails. */
  predicate DevDirRaises(folder: string, mount: string, fs: Fs, f: (string, string))
  {
    Join(folder, f.0) in fs.existing && JoinAll(mount, ["dev", f.1]) in fs.mkdirFailing
  }

  /** File `k` is the first of `files` whose destination folder cannot be created. */
  ghost predicate IsFirstRaise(folder: string, mount: string, fs: Fs, files: seq<(string, string)>, k: int)
  {
    0 <= k < |files| && DevDirRaises(folder, mount, fs, files[k]) &&
    forall j :: 0 <= j < k ==> !DevDirRaises(folder, mount, fs, files[j])
  }

  /** What `copy_dev_config_files` returns, with the number of files it copied. */
  datatype DevCopy = DevCopy(ok: bool, successCount: nat)

  /** `copy_dev_config_files(disk_path, vram, model_full_name)`: the result is true
      iff at least one of the three files is copied; a partial copy is a success.
      Creating a destination folder is not guarded, so the first failure there ends
      the routine with an exception. */
  method CopyDevConfigFiles(diskPath: string, vram: string, model: string, fs: Fs, sda2: Option<string>)
    returns (r: Ending<DevCopy>)
    ensures !DevConfigReady(diskPath, vram, model, fs, sda2) ==> r == Returned(DevCopy(false, 0))
    ensures r.Raised? <==> (DevConfigReady(diskPath, vram, model, fs, sda2) &&
      exists k :: 0 <= k < |DevConfigFiles| &&
        DevDirRaises(DevConfigFolder(diskPath, vram, model), sda2.value, fs, DevConfigFiles[k]))
    ensures r.Raised? ==> exists k ::
      IsFirstRaise(DevConfigFolder(diskPath, vram, model), sda2.value, fs, DevConfigFiles, k) &&
      r.dir == JoinAll(sda2.value, ["dev", DevConfigFiles[k].1])
    ensures r.Returned? ==> r.value.successCount <= |DevConfigFiles| && (r.value.ok <==> r.value.successCount > 0)
    ensures r.Returned? && DevConfigReady(diskPath, vram, model, fs, sda2) ==>
      r.value.successCount ==
        CountTrue(CopiedFlags(DevConfigFolder(diskPath, vram, model), sda2.value, fs, DevConfigFiles))
    ensures r.Returned? ==> (r.value.ok <==> (DevConfigReady(diskPath, vram, model, fs, sda2) &&
      exists k :: 0 <= k < |DevConfigFiles| &&
        DevFileCopied(DevConfigFolder(diskPath, vram, model), sda2.value, fs, DevConfigFiles[k])))
    ensures r.Returned? ==> (r.value.successCount == |DevConfigFiles| <==>
      (DevConfigReady(diskPath, vram, model, fs, sda2) &&
       forall k :: 0 <= k < |DevConfigFiles| ==>
         DevFileCopied(DevConfigFolder(diskPath, vram, model), sda2.value, fs, DevConfigFiles[k])))
  {
    if !DevConfigReady(diskPath, vram, model, fs, sda2) {
      return Returned(DevCopy(false, 0));
    }
    var folder := DevConfigFolder(diskPath, vram, model);
    var mount := sda2.value;
    ghost var flags := CopiedFlags(folder, mount, fs, DevConfigFiles);
    var successCount := 0;
    for i := 0 to |DevConfigFiles|
      invariant successCount == CountTrue(flags[..i])
      invariant forall j :: 0 <= j < i ==> !DevDirRaises(folder, mount, fs, DevConfigFiles[j])
    {
      var (filename, targetDir) := DevConfigFiles[i];
      var srcFile := Join(folder, filename);
      assert flags[..i + 1][..i] == flags[..i];
      if srcFile !in fs.existing {
        continue;
      }
      var dstDir := JoinAll(mount, ["dev", targetDir]);
      if dstDir in fs.mkdirFailing {
        assert IsFirstRaise(folder, mount, fs, DevConfigFiles, i);
        return Raised(dstDir);
      }
      var dstFile := Join(dstDir, filename);
      if dstFile !in fs.failing {
        successCount := successCount + 1;
      }
    }
    assert flags[..|DevConfigFiles|] == flags;
    CountTrueBound(flags);
    CountTrueZero(flags);
    CountTrueFull(flags);
    r := Returned(DevCopy(successCount > 0, successCount));
  }

  // ---------------------------------------------------------------------------
  // Fused-MoE configuration files
  // ---------------------------------------------------------------------------

  /** The platform folder for a memory size: `Thor` for 128G, `Orin` for any other. */
  function PlatformFolder(vram: string): (p: string)
    ensures p == "Thor" <==> vram == "128G"
    ensures p == "Orin" <==> vram != "128G"
  {
    if vram == "128G" then "Thor" else "Orin"
  }

  /** Where the fused-MoE files go under the root file system partition. */
  const FusedMoeTarget: seq<string> := ["home", "rm01", "miniconda3", "envs", "vllm", "lib", "python3.12",
    "site-packages", "vllm", "model_executor", "layers", "fused_moe", "configs"]

  /** The folder holding a model's fused-MoE files for a memory size. */
  function FusedMoeFolder(diskPath: string, vram: string, model: string): string
  {
    JoinAll(diskPath, ["fused_moe", PlatformFolder(vram), model])
  }

  /** The checks before any item is copied: the three source folders exist and the
      root file system partition (`sda1`) is mounted. */
  predicate FusedMoeReady(diskPath: string, vram: string, model: string, fs: Fs, sda1: Option<string>)
  {
    JoinAll(diskPath, ["fused_moe"]) in fs.existing &&
    JoinAll(diskPath, ["fused_moe", PlatformFolder(vram)]) in fs.existing &&
    FusedMoeFolder(diskPath, vram, model) in fs.existing &&
    Mounted(sda1)
  }

  /** What happens to one item of the source folder: a file is recorded under its
      name, a directory under its name with a trailing `/`, anything else is
      skipped. */
  datatype ItemResult = ItemCopied(entry: string) | ItemFailed(entry: string) | ItemSkipped

  /** The outcome of item `item`: skipped iff it is neither a file nor a directory,
      copied or failed according to its destination, and labelled by its name, with a
      trailing `/` when it is a directory and not a file. */
  function ItemOutcome(folder: string, target: string, fs: Fs, item: string): (o: ItemResult)
    ensures o.ItemSkipped? <==> Join(folder, item) !in fs.files && Join(folder, item) !in fs.dirs
    ensures o.ItemCopied? ==> Join(target, item) !in fs.failing
    ensures o.ItemFailed? ==> Join(target, item) in fs.failing
    ensures !o.ItemSkipped? ==> o.entry == if Join(folder, item) in fs.files then item else item + "/"
  {
    var src := Join(folder, item);
    var dst := Join(target, item);
    if src in fs.files then
      if dst in fs.failing then ItemFailed(item) else ItemCopied(item)
    else if src in fs.dirs then
      if dst in fs.failing then ItemFailed(item + "/") else ItemCopied(item + "/")
    else ItemSkipped
  }

  /** The labels of the copied items, in listing order. */
  function CopiedLabels(folder: string, target: string, fs: Fs, listing: seq<string>): seq<string>
    decreases |listing|
  {
    if listing == [] then []
    else
      var o := ItemOutcome(folder, target, fs, listing[|listing| - 1]);
      CopiedLabels(folder, target, fs, listing[..|listing| - 1]) + (if o.ItemCopied? then [o.entry] else [])
  }

  /** The labels of the items whose copy raised, in listing order. */
  function FailedLabels(folder: string, target: string, fs: Fs, listing: seq<string>): seq<string>
    decreases |listing|
  {
    if listing == [] then []
    else
      var o := ItemOutcome(folder, target, fs, listing[|listing| - 1]);
      FailedLabels(folder, target, fs, listing[..|listing| - 1]) + (if o.ItemFailed? then [o.entry] else [])
  }

  /** Every item is accounted for at most once: copied, failed or skipped; and some
      label is copied exactly when some item is copied. */
  lemma {:induction false} LabelsAccount(folder: string, target: string, fs: Fs, listing: seq<string>)
    ensures |CopiedLabels(folder, target, fs, listing)| + |FailedLabels(folder, target, fs, listing)| <= |listing|
    ensures CopiedLabels(folder, target, fs, listing) != [] <==>
      exists k :: 0 <= k < |listing| && ItemOutcome(folder, target, fs, listing[k]).ItemCopied?
    decreases |listing|
  {
    if listing != [] {
      var init := listing[..|listing| - 1];
      LabelsAccount(folder, target, fs, init);
      assert forall k :: 0 <= k < |init| ==> init[k] == listing[k];
    }
  }

  /** Outcome `o` is a copy (when `copiedSide`) or a failed copy (otherwise). */
  predicate OnSide(o: ItemResult, copiedSide: bool)
  {
    if copiedSide then o.ItemCopied? else o.ItemFailed?
  }

  /** The labels recorded on one side: the copied ones or the failed ones. */
  function SideLabels(folder: string, target: string, fs: Fs, listing: seq<string>, copiedSide: bool): seq<string>
  {
    if copiedSide then CopiedLabels(folder, target, fs, listing) else FailedLabels(folder, target, fs, listing)
  }

  /** `idx` lists, in increasing order, exactly the positions of `listing` whose item
      ends on the given side, and `labels[k]` is the label of the item at `idx[k]`. */
  ghost predicate LabelledAt(labels: seq<string>, folder: string, target: string, fs: Fs, listing: seq<string>,
                             copiedSide: bool, idx: seq<nat>)
  {
    |idx| == |labels| &&
    (forall k :: 0 <= k < |idx| ==>
      idx[k] < |listing| && OnSide(ItemOutcome(folder, target, fs, listing[idx[k]]), copiedSide) &&
      ItemOutcome(folder, target, fs, listing[idx[k]]).entry == labels[k]) &&
    (forall k, l :: 0 <= k < l < |idx| ==> idx[k] < idx[l]) &&
    (forall i :: 0 <= i < |listing| && OnSide(ItemOutcome(folder, target, fs, listing[i]), copiedSide) ==> i in idx)
  }

  /** The labels of one side are read off the items of that side, one per item, in
      listing order. */
  lemma {:induction false} SideLabelsAt(folder: string, target: string, fs: Fs, listing: seq<string>,
                                        copiedSide: bool)
    returns (idx: seq<nat>)
    ensures LabelledAt(SideLabels(folder, target, fs, listing, copiedSide), folder, target, fs, listing,
                       copiedSide, idx)
    decreases |listing|
  {
    if listing == [] {
      idx := [];
    } else {
      var n := |listing| - 1;
      var init := listing[..n];
      var prev := SideLabelsAt(folder, target, fs, init, copiedSide);
      var sub := SideLabels(folder, target, fs, init, copiedSide);
      var o := ItemOutcome(folder, target, fs, listing[n]);
      var labels := SideLabels(folder, target, fs, listing, copiedSide);
      if OnSide(o, copiedSide) {
        idx := prev + [n];
        assert labels == sub + [o.entry];
      } else {
        idx := prev;
        assert labels == sub;
      }
      forall k | 0 <= k < |idx|
        ensures idx[k] < |listing| && OnSide(ItemOutcome(folder, target, fs, listing[idx[k]]), copiedSide) &&
          ItemOutcome(folder, target, fs, listing[idx[k]]).entry == labels[k]
      {
        if k < |prev| {
          assert listing[prev[k]] == init[prev[k]];
        }
      }
      forall i | 0 <= i < |listing| && OnSide(ItemOutcome(folder, target, fs, listing[i]), copiedSide)
        ensures i in idx
      {
        if i < n {
          assert init[i] == listing[i];
        }
      }
    }
  }

  /** Each copied or failed label is the label of its own item, the items keep
      listing order, every copied or failed item is recorded, and no item is both
      copied and failed. */
  lemma LabelsFromOwnItems(folder: string, target: string, fs: Fs, listing: seq<string>)
    returns (copiedAt: seq<nat>, failedAt: seq<nat>)
    ensures LabelledAt(CopiedLabels(folder, target, fs, listing), folder, target, fs, listing, true, copiedAt)
    ensures LabelledAt(FailedLabels(folder, target, fs, listing), folder, target, fs, listing, false, failedAt)
    ensures forall k, l :: 0 <= k < |copiedAt| && 0 <= l < |failedAt| ==> copiedAt[k] != failedAt[l]
  {
    copiedAt := SideLabelsAt(folder, target, fs, listing, true);
    failedAt := SideLabelsAt(folder, target, fs, listing, false);
  }

  /** The copying loop of `copy_fused_moe_config`: each item of `listing`, in order. */
  method CopyItems(folder: string, target: string, fs: Fs, listing: seq<string>)
    returns (copied: seq<string>, failed: seq<string>)
    ensures copied == CopiedLabels(folder, target, fs, listing)
    ensures failed == FailedLabels(folder, target, fs, listing)
    ensures |copied| + |failed| <= |listing|
    ensures copied != [] <==> exists k :: 0 <= k < |listing| && ItemOutcome(folder, target, fs, listing[k]).ItemCopied?
  {
    copied, failed := [], [];
    for i := 0 to |listing|
      invariant copied == CopiedLabels(folder, target, fs, listing[..i])
      invariant failed == FailedLabels(folder, target, fs, listing[..i])
    {
      var item := listing[i];
      var srcItem := Join(folder, item);
      var dstItem := Join(target, item);
      assert listing[..i + 1][..i] == listing[..i];
      ghost var outcome := ItemOutcome(folder, target, fs, item);
      if srcItem in fs.files {
        if dstItem in fs.failing {
          failed := failed + [item];
          assert outcome == ItemFailed(item);
        } else {
          copied := copied + [item];
          assert outcome == ItemCopied(item);
        }
      } else if srcItem in fs.dirs {
        if dstItem in fs.failing {
          failed := failed + [item + "/"];
          assert outcome == ItemFailed(item + "/");
        } else {
          copied := copied + [item + "/"];
          assert outcome == ItemCopied(item + "/");
        }
      } else {
        assert outcome == ItemSkipped;
      }
    }
    assert listing[..|listing|] == listing;
    LabelsAccount(folder, target, fs, listing);
  }

  /** What `copy_fused_moe_config` returns, with the labels of the items it copied and
      of those whose copy raised. */
  datatype FusedMoeCopy = FusedMoeCopy(ok: bool, copied: seq<string>, failed: seq<string>)

  /** `copy_fused_moe_config(disk_path, vram, model_full_name)`: every file and every
      directory of the model's folder is copied; the result is true iff at least one
      item was copied. Creating the target folder is not guarded, so its failure ends
      the routine with an exception. */
  method CopyFusedMoeConfig(diskPath: string, vram: string, model: string, fs: Fs, sda1: Option<string>,
                            listing: seq<string>)
    returns (r: Ending<FusedMoeCopy>)
    ensures !FusedMoeReady(diskPath, vram, model, fs, sda1) ==> r == Returned(FusedMoeCopy(false, [], []))
    ensures r.Raised? <==>
      (FusedMoeReady(diskPath, vram, model, fs, sda1) && JoinAll(sda1.value, FusedMoeTarget) in fs.mkdirFailing)
    ensures r.Raised? ==> r.dir == JoinAll(sda1.value, FusedMoeTarget)
    ensures r.Returned? && FusedMoeReady(diskPath, vram, model, fs, sda1) ==>
      r.value.copied ==
        CopiedLabels(FusedMoeFolder(diskPath, vram, model), JoinAll(sda1.value, FusedMoeTarget), fs, listing) &&
      r.value.failed ==
        FailedLabels(FusedMoeFolder(diskPath, vram, model), JoinAll(sda1.value, FusedMoeTarget), fs, listing)
    ensures r.Returned? ==>
      (r.value.ok <==> r.value.copied != []) && |r.value.copied| + |r.value.failed| <= |listing|
    ensures r.Returned? ==> (r.value.ok <==> (FusedMoeReady(diskPath, vram, model, fs, sda1) &&
      exists k :: 0 <= k < |listing| &&
        ItemOutcome(FusedMoeFolder(diskPath, vram, model), JoinAll(sda1.value, FusedMoeTarget), fs, listing[k])
          .ItemCopied?))
  {
    if !FusedMoeReady(diskPath, vram, model, fs, sda1) {
      return Returned(FusedMoeCopy(false, [], []));
    }
    var folder := FusedMoeFolder(diskPath, vram, model);
    var target := JoinAll(sda1.value, FusedMoeTarget);
    if target in fs.mkdirFailing {
      return Raised(target);
    }
    var copied, failed := CopyItems(folder, target, fs, listing);
    r := Returned(FusedMoeCopy(copied != [], copied, failed));
  }
}
