# Image converter: rule engine and batch pipeline

A Dafny model of the logic inside `ImageConverterApp` of `src/script.py`, a desktop tool
that converts a list of raster images to other formats. The model covers:

- the static format catalogue: `conversion_map`, `format_map`, `SUPPORTED_EXTENSIONS` and
  the default destination `jpg`;
- the rule table that maps a source extension to a destination extension, as edited by the
  rule editor's add and delete buttons and kept in `config.json`;
- the per-item planner of `convert_images`, which works out:
  - the rule key (the lower-cased extension found by `os.path.splitext`);
  - the destination extension and the encoder name;
  - the destination path;
  - the quality options handed to the image library;
- the candidate list, which gets files from drag-and-drop and from the file dialog;
- the conversion loop, which attempts every candidate in order, logs one outcome per item,
  and goes on after a failure.

Modules, in dependency order:

| module | contents |
|---|---|
| `Wrappers` | `Option` and `Result` |
| `Text` | the Python string operations used: `lower`, `upper`, `strip`, `endswith`, `rfind` |
| `PathOps` | `os.path.basename`, `os.path.splitext` and `os.path.join` (POSIX flavour) |
| `PathFacts` | what `splitext` and `basename` give on the path shapes the planner meets |
| `Catalog` | the format tables and the supported endings |
| `Rules` | the rule table, its normal form, look-up, add and delete |
| `Config` | the preferences record, `load_config` defaults and the save/load round trip |
| `Planner` | the per-item plan and its properties |
| `Candidates` | the append-if-new-and-supported loop of `handle_drop` and `add_files` |
| `Batch` | the run: one log entry per path, in order |
| `App` | the class `ImageConverterApp`, whose fields the UI actions update in place |

The pure parts are functions and lemmas. The parts of the source that update object state
are methods of the class `App.ImageConverterApp`:

- its fields are the candidate list, the output directory, the quality, the rule table,
  the stored configuration file and the conversion log;
- each method's `modifies` clause names the fields it changes;
- its `ensures` clauses tie the new state to the specification functions above.

Outside effects are parameters:

- the file-system test `os.path.isfile` is `isFile: string -> bool`;
- the decode/convert/save calls of the image library are `encode: Job -> SaveOutcome`, which
  either saves or raises with a message;
- the configuration file on disk is a `ConfigFile` value: missing, unreadable, or present
  with a decoded record.

Three points where the code behaves differently from what one might expect:

- `load_config` (src/script.py:47-52) falls back to defaults only when the file does not
  exist. A file that exists but cannot be read or decoded makes the call raise, so start-up
  fails; it does not fall back to the defaults. `Config.LoadConfig` returns a `Failure` for
  it, and the constructor requires a loadable file.
- The quality options are attached according to the destination extension
  (src/script.py:258), not according to the encoder name. `Planner.LossyByEncoder` proves
  that the two choices agree for every lower-case destination, which covers every
  destination the rule editor can add.
- A quality read from the configuration file is not checked by `__init__` itself
  (src/script.py:71). The slider built right after it (src/script.py:108) is linked to the
  same variable, and a Tk scale moves the value into its range 10 to 100 and writes it back.
  So the quality the run uses is always within 10 to 100 (`App.SliderValue`).

Two consequences of the code, proved rather than assumed:

- A file whose name is only leading dots plus an ending, such as `.png`, passes the
  `endswith` filter. `splitext` finds no extension in it, so its rule key is empty and it
  converts to `jpg` (`Planner.KeyOfUndottedFile`).
- Two sources with the same file name in different folders are planned to the same
  destination path, so the later one overwrites the earlier one's output
  (`Planner.SameNameSameDestination`).

## Model

| member | source | states |
|---|---|---|
| Text.Strip | src/script.py:174-175 | `strip()` gives a slice `s[i..j]` of the input with only white space before `i` and after `j`, and the slice neither starts nor ends with a character Python counts as white space |
| Text.Lower | src/script.py:174-175 | `lower()` keeps the length and maps each character by its own case mapping (ASCII letters only, see Left out) |
| Text.Upper | src/script.py:250 | `upper()` keeps the length and maps each character by its own case mapping (ASCII letters only, see Left out) |
| Text.EndsWith | src/script.py:208 | `endswith`: the last characters of the string are the suffix; a definition, used by `Catalog.IsSupported` and `Text.LowerEndsWithDotted` |
| Text.LastIndexOf | src/script.py:252 | `rfind`, as used inside `basename` and `splitext`: the index holds the character and no later index does, or -1 when none does; `Text.LastIndexOfAt` shows it is the only such index |
| Text.StripLowerOfTrimmed | src/script.py:174-175 | lower-casing a stripped string leaves it stripped, so `strip().lower()` has no white space at its ends |
| Text.LowerEndsWithDotted | src/script.py:208 | when `path.lower()` ends with a dot and lower-case letters, the path itself has that dot at the same place, no dot or separator after it, and its tail lower-cases to the letters |
| PathOps.Basename | src/script.py:252 | `basename` contains no separator |
| PathOps.SplitExt | src/script.py:248 | `splitext` splits the path into root and extension that concatenate back to it; the extension is empty or a dot followed by neither dot nor separator |
| PathOps.Join | src/script.py:253 | `os.path.join(a, b)`: an absolute `b` replaces `a`; otherwise `a`, a separator when `a` does not end in one, then `b`; its contract for relative names is `PathOps.JoinRelative` |
| PathOps.JoinRelative | src/script.py:253 | `join(dir, name)` for a relative name is the directory, a separator when it does not already end in one, then the name |
| PathOps.JoinNamed | src/script.py:253 | joining the output folder with `stem.ext` gives the folder prefix followed by `stem.ext` |
| PathFacts.BasenameIsLastComponent | src/script.py:252 | the base name is a suffix of the path, preceded by a separator unless it is the whole path |
| PathFacts.SplitExtAt | src/script.py:248 | a path whose last dot is at n, with no separator after it and a non-dot before it in the file name, splits exactly at n |
| PathFacts.SplitExtOfNamed | src/script.py:248 | `dir/stem.e` (a non-dot in stem, no dot in e) splits into `dir/stem` and `.e`, and its base name is `stem.e` |
| PathFacts.SplitExtOfUndotted | src/script.py:248 | a file name whose only dots are leading ones has no extension and is its own base name |
| Catalog.AllowedDestinations | src/script.py:160-165 | a known source (after `lower()`) gets its `conversion_map` list and an unknown one gets `[jpg]`; the list is never empty, and each entry has an encoder name and differs from the source |
| Catalog.IsSupported | src/script.py:208 | the `endswith(SUPPORTED_EXTENSIONS)` filter on the lower-cased path; a definition, whose consequences are `Planner.KeyOfSupportedPath` and `Candidates.AppendAllMembers` |
| Catalog.EncoderName | src/script.py:250 | the encoder name is `JPEG` for `jpg` and the upper-cased extension for every other string, so the look-up never fails |
| Catalog.CatalogCoversSupported | src/script.py:16-41 | an extension is a source of `conversion_map` exactly when its dotted form is a supported ending |
| Catalog.SupportedSourceListed | src/script.py:16-41 | every source of `conversion_map` has its dotted form among the supported endings |
| Catalog.SupportedExtensionShape | src/script.py:41 | every supported ending is a dot followed by at least one lower-case letter |
| Catalog.SupportedEndingIsSource | src/script.py:16-41 | every supported ending without its dot is a source of `conversion_map` |
| Rules.Normalize | src/script.py:174-175 | an editor entry after `strip().lower()` is the lower-cased slice `s[i..j]` of the entry with only white space outside it; it is lower-case and has no white space at either end |
| Rules.NormalizeIdempotent | src/script.py:174-175 | normalizing an entry twice gives the same as normalizing once |
| Rules.Resolve | src/script.py:249 | the destination is the rule for the key when there is one, `jpg` otherwise; never an error |
| Rules.WithRule | src/script.py:173-181 | add: with an empty normalized entry the table is unchanged; otherwise the keys gain the source, the source maps to the destination, and every other key keeps its value |
| Rules.WithoutRule | src/script.py:184-192 | delete: the key set loses the source, the other entries keep their values, and deleting an absent source changes nothing |
| Rules.ResolveAfterAdd | src/script.py:177 | after an add, the source resolves to the new destination and every other key resolves as before |
| Rules.ResolveAfterDelete | src/script.py:189-190 | after a delete, the source resolves to `jpg` and every other key resolves as before |
| Rules.WithRuleOfNormalized | src/script.py:173-177 | adding already-normalized entries adds the same rule as adding the raw entries |
| Rules.WithRuleKeepsNormalized | src/script.py:173-177 | adding a rule keeps every key and value of a normalized table non-empty and normalized |
| Rules.WithoutRuleKeepsNormalized | src/script.py:189-190 | deleting a rule keeps a normalized table normalized |
| Config.LoadConfig | src/script.py:47-52 | a missing file reads as the defaults `""`, 85 and `{}`; an unreadable file is exactly the failing case; a present file gives its record |
| Config.Settings | src/script.py:69-72 | each field the record holds is taken as stored, and each field it lacks takes its default: `""`, 85, `{}` |
| Config.Snapshot | src/script.py:197-203 | the saved record has all three fields, and loading it back gives the same preferences |
| Planner.ExtensionKey | src/script.py:248 | the rule key is lower-case and contains neither dot nor separator |
| Planner.Stem | src/script.py:252 | the base name without extension contains no separator |
| Planner.DestinationPath | src/script.py:252-253 | the destination is the output folder's prefix followed by `stem.ext`; it lies directly inside the output folder exactly when the destination extension has no `/` (a rule value such as `x/y` leads into a sub-folder) |
| Planner.PlanItem | src/script.py:248-260 | the plan of one item, built from the rule key, the resolved destination, the encoder name, the destination path and the options; its contract is `Planner.PlanItemFacts` |
| Planner.SaveOptionsFor | src/script.py:257-260 | quality and `optimize=True` are passed exactly for jpg, jpeg and webp, and no option otherwise |
| Planner.PlanItemFacts | src/script.py:248-260 | an item's plan: the rule or `jpg` as destination, `JPEG` or the upper-cased extension as encoder, the joined destination path, and options exactly for the lossy extensions |
| Planner.KeyOfNamedFile | src/script.py:248-252 | for `dir/stem.e` the rule key is `e` lower-cased and the base name is `stem` |
| Planner.KeyOfUndottedFile | src/script.py:248-252 | a file name with only leading dots has the empty rule key and is its own base name |
| Planner.StemOfJoined | src/script.py:252 | the base name of `dir/name` depends on the file name only |
| Planner.SameNameSameDestination | src/script.py:252-253 | two sources with the same file name in different folders get the same destination path |
| Planner.DestinationRoundTrip | src/script.py:248-253 | the destination path has the chosen extension as its rule key and the source's base name as its own, when that base name is not all dots |
| Planner.KeyAfterDot | src/script.py:248 | the rule key of a path is the lower-cased text after its last dot when that dot is in the file name after a non-dot |
| Planner.KeyOfDottedEnding | src/script.py:248 | a path whose lower-cased form ends in a dot and lower-case letters has those letters as rule key |
| Planner.KeyOfSupportedPath | src/script.py:248 | a path admitted for a supported ending is planned under that ending's extension, which is a catalogue source |
| Planner.LossyByEncoder | src/script.py:250-260 | for lower-case destinations, choosing options by extension equals choosing them by encoder: exactly JPEG and WEBP get quality |
| Candidates.Admit | src/script.py:208-210 | one step of the append loop: the file is appended when it exists, has a supported ending and is not listed yet; `Candidates.AppendAll` and `Candidates.AppendAllMembers` state what the loop of such steps gives |
| Candidates.AppendAll | src/script.py:207-210 | offering files keeps the old list as a prefix and never introduces a duplicate |
| Candidates.AppendAllMembers | src/script.py:207-210 | a path is listed afterwards exactly when it was listed before or was offered, exists and has a supported ending |
| Candidates.AppendAllConcat | src/script.py:205-219 | offering two batches one after the other equals offering them together |
| Candidates.AppendAllAgain | src/script.py:207-210 | offering the same files a second time adds nothing |
| Candidates.AppendAllKnown | src/script.py:207-210 | offering only files that are listed already or rejected leaves the list as it was |
| Batch.Attempt | src/script.py:255-265 | an item's log entry names its source; it records a conversion to the planned path exactly when the encode step succeeds, and otherwise the error message |
| Batch.ItemOutcome | src/script.py:246-265 | the log entry of one path: the `Batch.Attempt` of that path's `Planner.PlanItem` plan |
| Batch.Run | src/script.py:246-265 | a run logs exactly one entry per path, in path order, and each entry is the step's outcome for that path (the step sees only its path, see Left out) |
| Batch.RunConcat | src/script.py:246-265 | running over two lists logs the first list's outcomes followed by the second's |
| Batch.OneFailureDoesNotStopRun | src/script.py:246-265 | when one item's encode raises and the others succeed, that item is logged as failed, all others are converted to their planned paths, and the count of conversions is one less than the number of items |
| App.SliderValue | src/script.py:108 | the value the 10-100 slider gives its linked variable: always within 10 to 100, equal to the input when that is in range, and the nearer end otherwise |
| App.ImageConverterApp.constructor | src/script.py:69-74 | start-up takes the preferences from the loaded record with per-field defaults, the quality brought into 10 to 100 by the slider, with an empty candidate list and log, and a valid state |
| App.ImageConverterApp.SaveCurrentConfig | src/script.py:197-203 | the stored file then holds the current preferences, and reading it back gives them exactly |
| App.ImageConverterApp.AddRule | src/script.py:173-181 | the table becomes the `WithRule` table; it is saved exactly when both entries are non-empty, and a normalized table stays normalized |
| App.ImageConverterApp.DeleteRule | src/script.py:184-192 | with a selection, the table becomes the `WithoutRule` table and is saved even if the key was absent; without one, nothing changes |
| App.ImageConverterApp.SelectOutputDir | src/script.py:221-225 | a chosen folder becomes the output directory and is saved; a cancelled dialog changes nothing |
| App.ImageConverterApp.ReleaseQualitySlider | src/script.py:105-110 | the released slider value becomes the quality and is saved, and a valid state stays valid |
| App.ImageConverterApp.AddCandidates | src/script.py:205-219 | the list becomes the `AppendAll` list of the offered files, and a valid list stays valid |
| App.ImageConverterApp.LogOutcomes | src/script.py:246-265 | the loop appends the run's entries to the log, one per path in order |
| App.ImageConverterApp.ConvertImages | src/script.py:234-265 | an empty list or an empty output folder ends the call with its own status and no log entry; otherwise the log gains the run over all candidates with the current rules, folder and quality |

## Left out

- The tkinter window, widgets, message boxes, key bindings and the Treeview rows of the
  rule editor are user interface only. So is the file name added to the list box.
- The drag-and-drop event parsing (`splitlist`) and the file dialogs are left out. The
  model receives the list of offered paths, the chosen folder or the selected rule
  instead.
- `os.path.isfile` queries the file system. It is the parameter `isFile`.
- The image library calls (`Image.open`, `convert("RGB")`, `save`) are left out. They are
  the parameter `encode`, which either saves or raises with a message. The model does not
  say what gets written to disk.
- JSON text, file encodings and the write of `config.json` are left out. The file is a
  value holding the decoded record, and a failing write is not modelled.
- The logging module's timestamps, levels and line format are left out. The log is the
  sequence of outcomes.
- Paths follow POSIX `os.path` (`/` as the only separator). The Windows flavour, with `\`
  and drive letters, is not modelled.
- Text.Lower: maps ASCII letters only. Python's `lower()` also maps non-ASCII letters.
- Text.Upper: maps ASCII letters only. Python's `upper()` also maps non-ASCII letters,
  sometimes to longer strings.
- App.ImageConverterApp.constructor: requires a configuration file that loads. The source
  raises out of `__init__` for an existing file that cannot be read or decoded, and
  `Config.LoadConfig` models that failure.
- The assignments at src/script.py:242-243 are dead code: `dst_ext` is reassigned for
  every item before use.
- The method `update_dst_options` at src/script.py:227-232 is left out. It is registered
  on `src_format` (src/script.py:123), which nothing writes, so it never runs. It also names
  a widget, `dst_menu`, that does not exist. The rule editor's own version is
  `Catalog.AllowedDestinations`.
- An item's outcome is a function of its own job only. The model does not capture that
  items share the file system: a save at src/script.py:261 can create or overwrite the file
  a later item opens at src/script.py:255, and disk space runs out across items. So
  `Batch.Run` states that each entry is the step's outcome for its path, not that items
  are independent of each other on a real disk.
- The log file `conversion.log` is opened in append mode (src/script.py:10), so it keeps
  the entries of earlier sessions. The field `conversionLog` holds this session's entries
  only, and starts empty.
- `StoredConfig` assumes each decoded JSON field is either absent or of the expected type.
  A field present as `null` (then `config.get` returns `None`, not the default), a field of
  another type, and a document that is not a JSON object (then `.get` raises in
  `__init__`) are not modelled.
- App.SliderValue: the Tk scale is not modelled. Its keeping the linked variable within
  `from_` and `to` is taken as a function of the stored value. Its rounding to the
  resolution changes nothing for the integer quality.
- Quality values are unbounded integers. Only the class invariant `Valid()` keeps them
  within 10 to 100; the planner accepts any integer.
