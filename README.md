# vaimm in Dafny

vaimm is the model manager for Topaz Video AI. It reads the metadata records of the installed
models. For a chosen backend it works out which model files that backend needs. It lists them,
finds the ones missing from the model data directory and downloads those from the Topaz CDN.

This project models the data work behind that, and proves what it promises:

- **Vai** (`vai.dfy`) expands a metadata record into file names. The expansion runs over
  scales, then nets, then (width, height) block pairs, then capability pairs. Each name is the
  net template with its `[H]`, `[W]`, `[S]`, `[R]` and `[C]` placeholders replaced. Vai also
  builds `Model` values from records and applies the comma-separated include filter.
- **Templates** (`templates.dfy`) reads a net template as literal characters and placeholders.
  It proves that the five chained replace-alls amount to putting each value in its place, for
  templates whose literal text, and a scale label, hold no `[`.
- **Net** (`net.dfy`) covers:
  - the download jobs (URL prefix plus base name);
  - the unit `scale_unit` picks;
  - the `retry` loop, as a method over the sequence of attempt outcomes;
  - one `download_file` attempt, as a method of a `FileStore` class: a temporary file, the
    content-length check, then the rename;
  - the byte total over completed downloads.
- **TensorRT** (`tensorrt.dfy`) covers the GPU and OS code tables, the engine lookup and the
  classification of a graphics-card description.
- **Cli** (`cli.dfy`) covers:
  - the sorted backend listing;
  - the sort orders of the model and file listings;
  - the missing-file diff under the data directory;
  - the tie between missing files and download jobs.
- **Strings**, **Sorting** and **Wrappers** model the Python built-ins the code relies on:
  - `str()` on integers, `in` on strings, `str.replace`, `str.split` and `str.strip`;
  - string ordering and the stable `sorted`;
  - `Optional`.

JSON objects are kept as sequences of (key, value) entries, so their insertion order, which the
expansion follows, is part of the value. A record's version is kept as the text `str()` gives
for it.

Things outside the program are inputs:

- the adapter description and the OS name;
- the set of paths that exist on disk;
- the outcome of each network attempt;
- the response body, as a sequence of chunks;
- the order in which downloads complete.

Behaviours of the code that the model follows:

- The code has no capability gating. Every capability pair of a backend yields a file, and
  `[R]`/`[C]` are always replaced: by the pair, or by 0 when the backend lists no capabilities.
  There is no hardware-family filter.
- The first element of each block pair is bound to `width` and fills `[W]`, because the loop at
  `vaimm/vai.py:47` reads `for width, height`. The comment at `vaimm/vai.py:19` calls the pairs
  (height, width).
- Only `HTTPError` and `ContentTooShortError` are caught. A 4xx other than 408 and 429 is final,
  so 423 is not retried. Transport errors such as `URLError` are not retried either. There is no
  `Retry-After` handling: every wait is the geometric schedule.
- The five replace-alls at `vaimm/vai.py:26-30` run one after another, so a later one rewrites
  placeholder text that an earlier value brought in. With the scale label `[R]` and the template
  `[S]`, the name ends in the row, not in the label.

## Model

| member | source | states |
|---|---|---|
| Vai.Lookup | vaimm/vai.py:35-36 | `dict.get`: absent exactly when no entry has the key; otherwise the value of an entry with that key |
| Vai.Permute | vaimm/vai.py:18-22 | exactly ⌊n/2⌋ pairs; pair i is (xs[2i], xs[2i+1]); an odd last element is dropped |
| Vai.Substitutions | vaimm/vai.py:26-31 | the five replacements in the order the code applies them, each placeholder a non-empty pattern |
| Vai.DeriveFilename | vaimm/vai.py:24-32 | every derived name starts with `id-v<version>-` |
| Templates.ReplaceFills | vaimm/vai.py:26-31 | on a template whose literal characters hold no `[`, one `str.replace(token, value)` with a `[`-free value fills exactly that placeholder, and the result is again such a template |
| Templates.DeriveFilenameRenders | vaimm/vai.py:24-32 | for such a template and a `[`-free scale label, the name is the prefix and then the template with height, width, scale, row and column each put in place of its own placeholder |
| Templates.PlainTemplateVerbatim | vaimm/vai.py:24-32 | a template without placeholders (no `[`) is used verbatim after the prefix |
| Templates.ExampleFilename | vaimm/vai.py:24-32 | `derive_filename` on template `[H]x[W]` for record `m` v1 with width 3 and height 2 gives `m-v1-2x3` |
| Templates.ScaleLabelSteps | vaimm/vai.py:26-29 | on the text `[S]`, the `[H]` and `[W]` replaces change nothing, the `[S]` replace gives the label `[R]`, and the `[R]` replace then gives the row's text |
| Templates.ScaleLabelChain | vaimm/vai.py:26-30 | the five replaces in sequence turn `[S]` into the row's text when the label is `[R]` and that text has no `[` |
| Templates.ScaleLabelRewritten | vaimm/vai.py:24-32 | with the scale label `[R]`, the template `[S]` gives the prefix followed by the row, since the `[R]` replace runs after the `[S]` one |
| Templates.ExampleBlockFiles | vaimm/vai.py:44-55 | a net with blocks [3, 2] and a backend without capabilities yields exactly `m-v1-2x3`: the first block value fills `[W]`, the second `[H]` |
| Vai.CapFiles | vaimm/vai.py:49-52 | one name per capability pair |
| Vai.CapFilesAt | vaimm/vai.py:49-52 | name j uses capability pair j as (row, column) |
| Vai.PairFiles | vaimm/vai.py:48-55 | a block pair gives one file when the backend lists no capabilities, else ⌊capabilities/2⌋ files, all with the record prefix |
| Vai.PairFilesAt | vaimm/vai.py:36-52 | with capabilities, file j of a block pair uses capabilities[2j] as row and capabilities[2j+1] as column |
| Vai.BlockFiles | vaimm/vai.py:46-55 | every name of the block loop has the record prefix |
| Vai.BlockFilesCount | vaimm/vai.py:46-55 | the block loop gives block pairs × files-per-pair names |
| Vai.UngatedBlockFilesCount | vaimm/vai.py:53-55 | without capabilities, one name per block pair |
| Vai.NetBlockFiles | vaimm/vai.py:44-47 | one net's names: none when its scale has no blocks, else the block loop over the paired blocks; all with the record prefix |
| Vai.NetBlockFilesCount | vaimm/vai.py:44-55 | one net gives ⌊blocks/2⌋ × files-per-pair names |
| Vai.NetFiles | vaimm/vai.py:43-55 | every name of the net loop has the record prefix |
| Vai.NetFilesCount | vaimm/vai.py:43-55 | the net loop gives nets × ⌊blocks/2⌋ × files-per-pair names; an empty block list gives none |
| Vai.ScaleFiles | vaimm/vai.py:41-55 | every name of the scale loop has the record prefix |
| Vai.ModelFiles | vaimm/vai.py:34-55 | every name of `find_model_files_for_backend` has the record prefix |
| Vai.ScaleFilesCount | vaimm/vai.py:41-55 | the scale loop's file count is the sum over scales of nets × block pairs × files-per-pair |
| Vai.ModelFilesCount | vaimm/vai.py:34-55 | an unknown backend gives no file; a known one gives that count |
| Vai.SingleCapabilityYieldsNothing | vaimm/vai.py:36-37 | a capability list of one entry makes every per-scale count zero |
| Vai.NoBlockPairsYieldNothing | vaimm/vai.py:44-47 | scales whose block lists are missing, empty or of one entry give no file |
| Vai.BlockFilesPairAt | vaimm/vai.py:46-52 | block-major order: after the files of the block pairs before i come block pair i's own files, in their order |
| Vai.BlockFilesAt | vaimm/vai.py:46-52 | the file at offset n + j, n the number of files of the block pairs before i (i·k by Vai.BlockFilesCount), is block pair i with capability pair j |
| Vai.BlockFilesUngatedAt | vaimm/vai.py:53-55 | without capabilities, file i is block pair i with `[R]` and `[C]` rendered as 0 |
| Vai.BlockFilesAppend | vaimm/vai.py:46-47 | the block expansion distributes over concatenation of block pairs: it follows their order |
| Vai.NetFilesAppend | vaimm/vai.py:43 | the expansion follows the order of the nets |
| Vai.ScaleFilesAppend | vaimm/vai.py:42 | the expansion follows the order of the scales |
| Vai.BlockFilesMember | vaimm/vai.py:46-55 | a name is produced by the block loop exactly when some block pair produces it |
| Vai.NetFilesMember | vaimm/vai.py:43-47 | a name is produced by the net loop exactly when the blocks are non-empty and some net's block loop produces it |
| Vai.ScaleFilesMember | vaimm/vai.py:42-43 | a name is produced exactly when some scale's net loop produces it |
| Vai.ParseModel | vaimm/vai.py:57-69 | the id and version come from the record; the name is the first non-empty of gui.name and displayName, else shortName; desc defaults to the fixed text; files are the backend's files |
| Vai.ParseAll | vaimm/vai.py:71-72 | one parsed model per record, in record order |
| Vai.WithFiles | vaimm/vai.py:73-74 | exactly the models with files are kept, no more of them than given |
| Vai.WithFilesAppend | vaimm/vai.py:71-74 | the file filter keeps the models' order |
| Vai.ParseModelsMetadata | vaimm/vai.py:71-74 | no more models than records; no model without files |
| Vai.ParseModelsMember | vaimm/vai.py:71-74 | a model is yielded exactly when some record parses to it and it has files |
| Vai.ParseModelsAppend | vaimm/vai.py:71-74 | models keep the order of their records |
| Strings.ReplaceAll | vaimm/vai.py:26-31 | `str.replace` leaves a text without the pattern unchanged |
| Strings.ContainsAt | vaimm/tensorrt.py:34-39 | `sub in s` holds exactly when `sub` occurs at some position of `s` |
| Strings.IntToStringRoundTrip | vaimm/vai.py:27-31 | `int(str(n)) == n` for the integers put into names |
| Strings.Split | vaimm/vai.py:91 | `split(',')` gives at least one part; no part holds a comma; joining the parts with commas gives back the text |
| Strings.FirstSep | vaimm/vai.py:91 | the index of the first separator is within the text |
| Strings.FirstSepSkip | vaimm/vai.py:91 | a separator-free text in front moves the first separator by its length |
| Strings.JoinFirstPart | vaimm/vai.py:91 | a join begins with its first part up to the first separator, and after it comes the join of the rest |
| Strings.JoinInjective | vaimm/vai.py:91 | separator-free parts are fixed by their join |
| Strings.SplitJoin | vaimm/vai.py:91 | `sep.join(parts).split(sep) == parts` when no part holds the separator |
| Strings.SplitCount | vaimm/vai.py:91 | the number of parts is one more than the number of commas |
| Strings.Strip | vaimm/vai.py:91 | `strip()` cuts a blank run at each end and nothing else: everything cut is blank, and the result is empty or starts and ends with a non-blank |
| Strings.StripKeepsNonBlank | vaimm/vai.py:91 | an item holding a non-blank character never strips to empty |
| Vai.WantSet | vaimm/vai.py:91 | every wanted token is non-empty, has no comma and no blank at either end |
| Vai.WantSetOfJoin | vaimm/vai.py:91 | a filter `t1,t2,...` of non-empty tokens without commas or blank ends wants exactly those tokens |
| Vai.BlankFilterWantsNothing | vaimm/vai.py:91 | a filter of only commas and blanks wants nothing |
| Vai.Selected | vaimm/vai.py:94 | the selection test: no wanted tokens, or the model's `id-version` among them |
| Vai.SelectModels | vaimm/vai.py:93-94 | a model is kept exactly when the filter is empty or wants its `id-version`; an empty filter keeps all, in order |
| Vai.SelectModelsAppend | vaimm/vai.py:93-94 | the filter works model by model, so the kept models stay in their order, repeats included |
| Vai.AllFiles | vaimm/vai.py:95 | a file is listed exactly when one of the models has it |
| Vai.AllFilesAppend | vaimm/vai.py:95 | the files are the models' file lists one after another, in model order |
| Vai.FindBackendFiles | vaimm/vai.py:90-96 | without a filter, the files of every parsed model in record order |
| Vai.SelectOne | vaimm/vai.py:93-95 | one model contributes its files, in their order, when it has files and is selected, else nothing |
| Vai.FindBackendFilesOne | vaimm/vai.py:90-96 | one record contributes its files, in their order, when it has files and is selected, else nothing |
| Vai.FindBackendFilesAppend | vaimm/vai.py:90-96 | the files of `a + b` are those of `a` then those of `b`; with Vai.FindBackendFilesOne this fixes the whole listing |
| Vai.FindBackendFilesMember | vaimm/vai.py:90-96 | a file is listed exactly when some record parses to a selected model with that file |
| Vai.NoFilterKeepsAll | vaimm/vai.py:91-96 | an absent or blank filter lists the files of every parsed model, in record order |
| Net.NameStart | vaimm/net.py:34 | the base name starts after the last `/`: no `/` follows that point, and a `/` precedes it unless it is 0 |
| Net.Basename | vaimm/net.py:34 | `basename` is the suffix after the last `/` and contains no `/` |
| Net.DownloadJobs | vaimm/net.py:34 | one job per file, in order: the URL prefix plus the file's base name, paired with the file |
| Net.JobUrlIsOneSegment | vaimm/net.py:13-34 | every job URL is the fixed CDN prefix followed by one path segment |
| Net.ScaleUnit | vaimm/net.py:25-32 | strict thresholds: a unit other than bytes only for counts above its divisor, and a unit other than GiB only for counts up to 1024 times its divisor, so the unit is fixed by the count |
| Net.ByteText | vaimm/net.py:32 | below the KiB threshold the text is the count, read back exactly by `int()`, followed by ` B` |
| Net.ScaleUnitMonotone | vaimm/net.py:25-32 | a larger count never gets a smaller unit |
| Net.ScaleUnitAt1024 | vaimm/net.py:30-32 | exactly 1024 is shown as `1024 B` |
| Net.Caught | vaimm/net.py:73 | the retry loop catches `HTTPError` and `ContentTooShortError` only |
| Net.Terminal | vaimm/net.py:74-75 | an HTTP status from 400 to 499 other than 408 and 429 is re-raised without retrying |
| Net.Retry | vaimm/net.py:65-82 | at most max_tries calls, or none and `None` when max_tries ≤ 0; wait k is initial·backoff^k; every attempt before the last was retriable; the result is the last attempt's value or error; stopping early means that attempt returned, raised a terminal 4xx or raised something uncaught |
| Net.DownloadFileSchedule | vaimm/net.py:86 | `download_file`'s policy waits 1, 3, 9 and 27 seconds |
| Net.StreamBody | vaimm/net.py:101-104 | the chunks read are the prefix before the first empty read, all non-empty |
| Net.StreamBodyIsPrefix | vaimm/net.py:101-104 | a loop stopping at the first empty read, or at the end, has read exactly the stream body |
| Net.FlattenLength | vaimm/net.py:105-106 | the bytes written are the sum of the chunk lengths |
| Net.FileStore.WriteStream | vaimm/net.py:95-106 | the temporary file ends up holding exactly the chunks before the first empty read; the count is their total length; a read failure after the last chunk is reported |
| Net.FileStore.DownloadFile | vaimm/net.py:95-116 | a refused request changes nothing; a failed read or a length mismatch leaves only the temporary file with what was read; otherwise the temporary file is renamed to `filename` with the whole body and its length is returned |
| Net.FirstFailure | vaimm/net.py:16-23 | the index of the first failed download, every earlier one succeeded |
| Net.DownloadModelFiles | vaimm/net.py:38-49 | no jobs reports nothing to download; otherwise the report is the first failure in completion order, or the sum of all bytes written |
| Net.SumBytesPermutation | vaimm/net.py:48-49 | the byte total does not depend on the order in which downloads complete |
| TensorRT.Get | vaimm/tensorrt.py:23-26 | `dict.get`: present exactly for keys of the table, with their value |
| TensorRT.FindTensorrtEngine | vaimm/tensorrt.py:22-29 | an engine exactly when the family and OS are known, made of their two codes, gpu code in {705, 806, 809}, OS code in {8500, 8517} |
| TensorRT.FindGraphicsCardFamily | vaimm/tensorrt.py:32-40 | "RTX20" exactly when the text names "RTX 20", else "RTX30" for "RTX 30", else "RTX40" for "RTX 40", else ""; the result is "" or a key of the GPU table |
| TensorRT.DetectedFamilyHasEngine | vaimm/tensorrt.py:22-40 | a classified card has an engine on every supported OS |
| TensorRT.Rtx30OnLinux | vaimm/tensorrt.py:22-40 | a card naming "RTX 30" and not "RTX 20" is RTX30 and gets (8517, 806) on Linux |
| TensorRT.ExampleRtx3080OnLinux | vaimm/tensorrt.py:22-40 | "GeForce RTX 3080" is RTX30, and RTX30 on Linux is (8517, 806) |
| Sorting.LessEqTotal | vaimm/cli.py:97 | Python's string order is total |
| Sorting.LessEqTrans | vaimm/cli.py:97 | and transitive |
| Sorting.LessEqAntisym | vaimm/cli.py:97 | and antisymmetric |
| Sorting.SortBy | vaimm/cli.py:97 | `sorted` with a key gives an ascending permutation of its input |
| Sorting.SortByStable | vaimm/cli.py:97 | `sorted` keeps the relative order of elements with equal keys |
| Sorting.SortedUnique | vaimm/cli.py:91 | `sorted(set(...))` is strictly increasing with exactly the input's elements |
| Sorting.StrictlySortedUnique | vaimm/cli.py:91 | there is only one strictly increasing listing of a set of strings |
| Cli.BackendNames | vaimm/cli.py:91 | a name is collected exactly when some record lists it as a backend |
| Cli.ListBackends | vaimm/cli.py:90-92 | strictly increasing, no repeats, exactly the union of the records' backend keys |
| Cli.ListBackendsCanonical | vaimm/cli.py:91 | the listing depends only on which backends occur |
| Cli.ListModels | vaimm/cli.py:95-97 | the parsed models as a permutation ascending by `id + version` |
| Cli.ListModelsStable | vaimm/cli.py:97 | models with equal keys keep their record order |
| Cli.ListBackendFiles | vaimm/cli.py:106-107 | the selected files ascending, repeats kept (a permutation) |
| Cli.ListBackendFilesCanonical | vaimm/cli.py:107 | any ascending permutation of the selected files is that listing |
| Cli.SortedPermutationsEqual | vaimm/cli.py:107 | two ascending permutations of each other are equal |
| Cli.PathJoin | vaimm/cli.py:121 | an absolute file wins; otherwise the path starts with the directory and ends with the file |
| Cli.BasenameAfterSlash | vaimm/cli.py:121 | whatever precedes a `/` does not change the base name |
| Cli.JoinKeepsBasename | vaimm/cli.py:121 | a joined path has the file's base name |
| Cli.TargetPaths | vaimm/cli.py:121 | one target per backend file, in order: the file joined under the data directory |
| Cli.MissingPaths | vaimm/cli.py:122 | no more missing paths than targets, and none of them exists |
| Cli.MissingPathsMultiplicity | vaimm/cli.py:122 | an existing path is dropped entirely; any other occurs as often as in the targets |
| Cli.MissingPathsAppend | vaimm/cli.py:122 | missing paths keep the targets' order |
| Cli.FindMissingFiles | vaimm/cli.py:119-123 | at most one missing path per selected file, and none of them exists |
| Cli.FindMissingFilesMember | vaimm/cli.py:119-123 | a path is reported exactly when it is a selected file joined under the data directory and does not exist |
| Cli.AllExistNothingMissing | vaimm/cli.py:122 | when every target exists, nothing is missing |
| Cli.NothingExistsAllMissing | vaimm/cli.py:122 | when nothing exists, every target is missing, in order |
| Cli.DownloadJobsForMissing | vaimm/cli.py:113-116 | every download job writes a missing target path of a selected file and fetches that file's base name from the CDN |

## Left out

- `find_graphics_card` (`vaimm/tensorrt.py:43-111`) is a Direct3D call through ctypes. The card description it returns is a parameter here.
- `find_models_metadata` and `find_models_json_dir` are not modelled. They glob, parse JSON and probe the disk. The model starts from loaded records.
- `main`, `parser_args` and `__main__` are not modelled. They are argparse, environment variables and process wiring.
- All printing is left out: the listings' text layout, `fill`/`indent` wrapping, the `id-version` label, the estimated total size (a float), and the progress bar.
- The thread pool, `as_completed`, cancellation and the KeyboardInterrupt path are left out. `sys.exit(1)` at `vaimm/net.py:23` runs inside the executor's `with` block, whose exit waits for every submitted download, so downloads already started still finish and rename their files; the model gives only the report, not those late files. The completion order is an input of `DownloadModelFiles`, and `SumBytesPermutation` shows the total does not depend on it.
- `time.sleep`, `time.time` and the throughput figure are left out. The waits are recorded in `Retry`'s `sleeps` output instead of being slept.
- Net.ScaleUnit: returns only the unit chosen. The `:.2f` float text for KiB, MiB and GiB is not modelled; only the exact `N B` text is (`ByteText`).
- Net.Retry: the message printed before each wait is not modelled.
- Net.FileStore.DownloadFile: the request headers and cookie are not modelled. The content-length is taken as already parsed by `int()`, so a malformed header is not modelled. Disk write errors are not modelled, and the 8 KiB chunk size is folded into the given chunk sequence.
- Cli.FindMissingFilesMember: existence is one snapshot, given as a set. Files created by downloads that run while the job list is still being consumed are not modelled.
- Vai.Lookup: a dict loaded by `json.load` has distinct keys (it keeps the last of a repeated key), but the entry sequences of the model can repeat one. Lookup reads the first entry with a key while the scale loop visits every entry, so a record with a repeated key has no `dict` counterpart. Distinct keys are not required of a record.
- Vai.ParseModel: `shortName` and `version` are mandatory fields of `Vai.ModelMeta`. The code indexes them directly (`vaimm/vai.py:38-39`, `58`, `61`), so a record missing either raises `KeyError` and aborts the listing and the download. The model cannot represent such a record, so that error path is not modelled.
- Cli.PathJoin and Net.Basename follow POSIX path rules. Windows drive letters and `\` separators are not modelled.
- Strings.Strip: Python's whitespace set is modelled as the code points `str.isspace` accepts. Strings are sequences of code points; no normalisation is modelled.
