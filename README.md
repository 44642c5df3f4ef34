# CFe-B card maker: decision rules, in Dafny

The RM-01 CFe-B card maker (`main.py`) writes a model onto a removable card. It
copies the model folder, a runtime backend and some configuration files from a
master disk. Most of the program is menus, subprocess calls and byte copying.
This project models the decision rules inside it and proves their properties:

- **Folder-name parsing** (`Scan`). A folder under `Models_download` is split at its
  first `_`. Without a `_`, it is split at its first `-`. With neither, it goes to the
  `Others` bucket and keeps its whole name. `scan_models` records one entry per
  sub-folder, in listing order.
- **Manufacturer filter** (`Filter`). A menu choice keeps the models with exactly that
  manufacturer. `Others` keeps every model whose manufacturer is not Qwen, GPT, Llama,
  DeepSeek or Gemma.
- **Backend auto-detection** (`Backend`). The parsed `backend_list.yaml` is an ordered
  list of entries `(backend, value)`. The value is a list of patterns or a string of
  patterns. A string is split at runs of `,`, full-width `，` or whitespace, and empty
  pieces are dropped. A pattern matches when it equals the model name, contains it, or
  is contained in it. The first entry with a matching pattern wins. No match gives no
  backend; there is no default.
- **Mount-point lookup** (`Mounts`). The trimmed output of `findmnt` is used when that
  command succeeds. Otherwise the lookup takes the second field of the first
  `/proc/mounts` line whose first field is the device.
- **Copy decisions** (`Provision`):
  - backend code `1` copies `98autoshell/Attention` and code `2` copies
    `98autoshell/Infer`;
  - what `run()` does with a manual or detected backend;
  - memory size `128G` selects the `Thor` platform folder and any other size `Orin`;
  - copying dev-mode files succeeds when at least one of the three files is copied;
  - copying fused-MoE files succeeds when at least one item is copied;
  - in both, a destination folder that cannot be created raises an exception that
    is not caught, so the program ends with status 1 (`FileSystem.Ending`).
- **Menu tables** (`Menus`): the answers each prompt accepts.

Shared pieces:

- `Text` models the Python string operations used:
  - `in` on strings;
  - `split(c, 1)`;
  - `split()`;
  - `re.split` followed by dropping empty pieces;
  - `strip()`;
  - `os.path.join`.
- `FileSystem.Fs` is a snapshot of the file system: which paths exist, which are
  directories and which are files, which copy destinations raise, and which folders
  cannot be created. `FileSystem.Ending` is the outcome of a routine that may raise an
  exception it does not catch.
- Mount points are the `Option<string>` that `get_mount_point` returns.

The loops of the source are methods with loop invariants: `scan_models`,
`filter_models_by_manufacturer`, the nested loops of `auto_detect_backend`, the
`/proc/mounts` scan, and the counting loops of the two configuration copies. The
loops of `scan_models`, `filter_models_by_manufacturer`, the outer loop of
`auto_detect_backend` and the two copies are proved equal to recursive specification
functions, and the properties are proved as lemmas about those functions. The inner
pattern loop, the `/proc/mounts` scan and the methods without a loop
(`get_mount_point`, `auto_detect_backend`) are proved directly against the conditions
they test.

## Model

| member | source | states |
|---|---|---|
| `Text.IsSubstringIff` | main.py:312 | The recursive substring test used for Python's `in` holds iff the pattern occurs at some position of the string. |
| `Text.SplitOnce` | main.py:82 | `s.split(c, 1)` for a `c` that occurs in `s`: the left part holds no `c`, and left + `c` + right is `s`. |
| `Text.SplitOnceUnique` | main.py:84 | No other split has those two properties, so they fix the result. |
| `Text.Tokens` | main.py:316-317 | The tokens of a string (`line.split()`, or `re.split` with the empty pieces dropped) are each non-empty and contain no separator character. |
| `Text.TokensOfWord` | main.py:316-317 | A non-empty string without separators is exactly one token. |
| `Text.TokensSplit` | main.py:316-317 | A separator splits a string into two halves that are tokenized independently, and the token lists concatenate. |
| `Text.TokensDropSeparator` | main.py:316-317 | A separator at either end of a string adds no token. |
| `Text.StripLeft` | main.py:316 | `lstrip()` removes exactly the leading run of whitespace: what remains is a suffix that does not start with whitespace. |
| `Text.StripRight` | main.py:176 | `rstrip()` removes exactly the trailing run of whitespace: what remains is a prefix that does not end with whitespace. |
| `Text.Strip` | main.py:176 | The result of `strip()` is a slice of the string preceded only by whitespace and followed only by whitespace. It is empty, or starts and ends with a non-whitespace character, so it is the string without its leading and trailing whitespace. |
| `Text.TokensIgnoreStrip` | main.py:316 | When whitespace counts as a separator, stripping the string first does not change its tokens. |
| `Text.Join` | main.py:77 | `os.path.join` returns an absolute second part unchanged. A first part that is empty or ends in `/` is followed directly by the second part. Otherwise the two parts are joined with one `/`. |
| `Scan.ParseFolderName` | main.py:79-95 | If the name has a `_`, the manufacturer has no `_` and manufacturer + `_` + model name is the name. If it has only a `-`, the same holds for `-`. If it has neither, the manufacturer is `Others` and the model name is the whole name. |
| `Scan.ParseFolderNameUnique` | main.py:81-91 | A split at the first `_` (or, when there is no `_`, at the first `-`) is the parse. |
| `Scan.ParseUnderscoreExample` | main.py:81-82 | `Qwen_2.5-7B` parses as manufacturer `Qwen`, model `2.5-7B`: the underscore wins over the later hyphen. |
| `Scan.ParseHyphenExample` | main.py:83-84 | `RandomVendor-Tiny` parses as manufacturer `RandomVendor`, model `Tiny`. |
| `Scan.ParseLeadingUnderscoreExample` | main.py:89-91 | `_x` parses as an empty manufacturer and model `x`. The split still yields two parts, so the name is not sent to `Others`. |
| `Scan.EntryFor` | main.py:97-102 | The recorded entry carries the parsed manufacturer and model name, the folder name, and the joined path. |
| `Scan.ScannedIsDirectories` | main.py:76-102 | The scan records the entry of every directory item of the listing and of nothing else. The entries keep listing order: they sit at strictly increasing positions of the listing, and those are all its directory positions. |
| `Scan.ScannedSoundComplete` | main.py:76-102 | Every directory of the listing has its entry in the scan. Every entry is a directory item of the listing, at the joined path, parsed from its own name. |
| `Scan.ScanListing` | main.py:76-102 | The loop computes the scan of the listing: one entry for every directory item and for nothing else, in listing order. |
| `Scan.ScanModels` | main.py:64-105 | Without `Models_download` the result is empty. When `Models_download` exists but is not a folder, `os.listdir` raises and the exception is not caught. Otherwise there is one entry for every directory item of the listing and for nothing else, in listing order. Each entry lies inside `Models_download` and is parsed from its name. |
| `Filter.FilteredSound` | main.py:347-352 | Every listed model has the requested manufacturer. For `Others`, every listed manufacturer is none of the five known vendors. |
| `Filter.FilteredCounts` | main.py:341-354 | Every kept model appears as often in the output as in the input. Every other model does not appear. |
| `Filter.FilteredSubsequence` | main.py:343-353 | The output is an order-preserving subsequence of the input, picked at the positions of every kept model. |
| `Filter.FilterByManufacturer` | main.py:341-354 | The loop computes the filtered list. It is sound, complete with multiplicities, and an ordered subsequence of the input. |
| `Backend.Patterns` | main.py:309-317 | A list value contributes its elements. A string value contributes only non-empty patterns free of `,`, `，` and whitespace. Any other value contributes nothing. |
| `Backend.PatternTextTokens` | main.py:314-317 | The patterns of a string value are the tokens of that string, with or without stripping. Each is non-empty and free of `,`, `，` and whitespace. |
| `Backend.MatchesIff` | main.py:312 | The three-way test is symmetric. It holds iff either string occurs inside the other. |
| `Backend.FirstMatchIsFirstHit` | main.py:308-322 | A returned backend belongs to the earliest entry with a matching pattern. No backend is returned iff no entry has one. |
| `Backend.OtherValueSkipped` | main.py:308-314 | An entry whose value is neither a list nor a string never changes the result. |
| `Backend.FirstMatchExamples` | main.py:308-322 | `Qwen2.5-7B-Instruct` selects the backend listing `Qwen2.5-7B`, by containment. An empty list selects no backend. |
| `Backend.AnyPatternMatches` | main.py:311-313 | The inner loop finds a match iff some pattern of the entry matches the model name. |
| `Backend.DetectBackend` | main.py:308-322 | The nested loops return the first match. The result is the earliest matching entry's backend, and is `None` iff no entry matches. |
| `Backend.AutoDetectBackend` | main.py:287-325 | A backend is returned only when the models partition is mounted, the backend list exists and it parsed. In that case the result is the first match. |
| `Mounts.Fields` | main.py:184 | `line.split()` yields only non-empty fields without whitespace. |
| `Mounts.LookupProcMounts` | main.py:181-188 | The scan returns the second field of the first line whose first field is the device. The result is `None` iff no line of at least two fields starts with the device. |
| `Mounts.GetMountPoint` | main.py:170-190 | A successful `findmnt` gives its trimmed output. Otherwise the result is the `/proc/mounts` lookup, or `None` when the file cannot be read. |
| `Provision.BackendDir` | main.py:247-253 | Only codes `1` and `2` have a folder: `Attention` for FlashAttention and `Infer` for FlashInfer. |
| `Provision.DetectedBackendCode` | main.py:575-578 | Exactly the names `FlashAttention` and `FlashInfer` have a code to copy, and that code's menu name is the detected name. |
| `Provision.DetectedBackendCodeInvertsName` | main.py:575-578 | A detected backend name selects the code the run menu lists it under, and only that code. |
| `Provision.CopyBackend` | main.py:239-284 | An empty disk path fails first. Codes other than `1` and `2` fail. A copy takes place only from the code's folder under `98autoshell`, which must exist, to `home/rm01/autoShell` on the mounted root partition. When every check passes, the copy happens. |
| `Provision.BackendChoiceAccepted` | main.py:546-550 | The run menu accepts exactly the codes that name a backend, `1` and `2`, plus `3` for automatic detection. |
| `Provision.RunBackendStep` | main.py:569-585 | A manual choice copies that code and ends the run if the copy fails. In automatic mode, an absent or empty detection ends the run. A detected FlashAttention or FlashInfer copies its code, and a failed copy does not end the run. Any other detected name copies nothing. |
| `Provision.CountTrueBound` | main.py:487-506 | The success count never exceeds the number of configuration files. |
| `Provision.CountTrueZero` | main.py:515-520 | The count is zero iff no file is copied. That is the only outcome reported as a failure. |
| `Provision.CountTrueFull` | main.py:512-514 | The count equals the number of files iff every file is copied. |
| `Provision.CopyDevConfigFiles` | main.py:439-520 | A failed check returns false with count 0. Creating the destination folder of a present file is outside the `try`, so the first such folder that cannot be created raises, and nothing is returned. Otherwise the count is at most 3 and counts the copied files. The result is true iff at least one file is copied. The count is 3 iff all three files are copied. |
| `Provision.PlatformFolder` | main.py:671-674 | The platform is `Thor` iff the memory size is `128G`. Otherwise it is `Orin`. |
| `Provision.ItemOutcome` | main.py:715-732 | An item is skipped iff it is neither a file nor a directory. It is copied or failed according to whether its destination raises. Its label is its name, with a trailing `/` when it is a directory and not a file. |
| `Provision.LabelsAccount` | main.py:706-742 | There are at most as many copied and failed labels together as items. Something is copied iff some item's copy succeeds. |
| `Provision.LabelsFromOwnItems` | main.py:710-733 | Each copied or failed label is the label of its own item, at strictly increasing positions of the listing. Every copied or failed item is recorded. No item is both copied and failed. |
| `Provision.CopyItems` | main.py:710-733 | Files are recorded under their name and directories with a trailing `/`. Each item counts as copied or failed according to its copy, and anything else is skipped, in listing order. |
| `Provision.CopyFusedMoeConfig` | main.py:650-748 | A failed check returns false with nothing copied. When the target folder cannot be created (main.py:704, outside the `try`), the routine raises. Otherwise the copied and failed lists are those of the item loop, and the result is true iff at least one item was copied. |
| `Menus.ManufacturerChoice` | main.py:21-28 | Exactly keys `1` to `6` are accepted. Each names a known vendor or `Others`. |
| `Menus.ManufacturerMenuCoversKnown` | main.py:21-28 | The menu offers exactly the five vendors that the `Others` filter excludes, plus `Others`. |
| `Menus.DevConfigAnswer` | main.py:412-416 | `y`, `yes` and `是` mean yes. `n`, `no` and `否` mean no. Any other answer is asked again. |
| `Menus.VramChoice` | main.py:425-435 | Exactly keys `1` to `4` are accepted. |
| `Menus.VramChoicePlatform` | main.py:425-430 | Of the offered memory sizes, only key `4` (128G) selects the Thor platform. The others select Orin. |
| `Menus.OptimizationAnswer` | main.py:641-647 | Exactly `1` (yes) and `2` (no) are accepted. |

## Left out

- Subprocess calls (`lsblk`, `findmnt`, `umount`, `udisksctl`): these are external tools. `findmnt`'s output is a parameter of `Mounts.GetMountPoint`. `show_lsblk` and `unmount_sda` are not modelled.
- File system effects (`os.listdir`, `os.path.exists`, `isdir`, `isfile`, `makedirs`, `rmtree`, and the chunked copy with a progress bar in `copy_with_progress`): these are inputs, a listing plus an `Fs` snapshot. A copy inside a `try` succeeds unless its destination is in `Fs.failing`. A folder creation outside any `try` raises when the folder is in `Fs.mkdirFailing`. The bytes are not modelled.
- `copy_model`: a mount check followed by one copy. It contains no decision rule beyond those modelled in `Provision.CopyBackend`, so it is not modelled.
- YAML and JSON parsing (`yaml.safe_load`, `load_config`, `save_config`): the backend list comes in already parsed, as an ordered list of entries, or `None` when it could not be read as a mapping.
- `Scan.ScanModels`: an `os.listdir` failure on a `Models_download` folder that cannot be read is not modelled. The model raises only when the path is not a folder, and otherwise takes the listing as given.
- `Backend.DetectBackend`: a list element that is not a string raises `TypeError` in the source, and the error is caught (main.py:323). List values are modelled as lists of strings only.
- `Backend.AutoDetectBackend`: a file-read error is folded into `parsed == None`.
- `Provision.CopyFusedMoeConfig`: an exception from listing the model's folder, caught at main.py:744-748, is not modelled. The model treats the listing as given. The failure to create the target folder (main.py:704) is modelled, as `Raised`.
- Interactive loops (`select_manufacturer`, `select_model`, `ask_dev_config`, `ask_optimization_config`, `system_settings`, `main`): only their tables of accepted answers are modelled, in `Menus`. The prompts strip their answer. Of the modelled tables, only `ask_dev_config`'s answer is also lower-cased (main.py:412), and `Menus.DevConfigAnswer` takes the answer after both. Neither step is modelled.
- The rest of `run()`: the configuration check and the order of copy steps are not modelled. Only the backend step is (`Provision.RunBackendStep`).
- `check_partitions`, `check_root_permission`, `sys.exit` and all console output: these are reporting only.
- Behaviour that main.py does not have, and that is therefore not modelled:
  - discovery of the master disk or the target card by volume label;
  - a `GLM` to `ZhipuAI` override;
  - prefix matching of folder names against the manufacturer table;
  - a default backend when nothing matches. The code returns `None`, and `run()` then stops.
