# comfyui_AcademiaSD in Dafny

A model of the decision logic of the AcademiaSD custom nodes for ComfyUI, with proofs of what
each node promises. The model covers these parts:

- **The persisted loop counter.** `LoopCounter` and `ResetCounter` read and rewrite `loops.json`
  in the output folder. The file is an abstract store, and each write meets an outcome the
  environment chooses.
- **The padded file name.** `PaddedFileName` (and `File_name` in the root `LoopCounter.py`)
  builds `prefix_NNNNN_.png`.
- **The prompt batch selector.** `PromptBatchSelector` picks the `batch_index`-th line of a
  text block and joins it to a common prompt.
- **The caption saver.** `SaveCaption` composes a caption with an extra text and works out
  where the `.txt` file goes.
- **The batch loader.** `BatchLoader` filters the sorted folder listing by extension and by
  substring, then picks a file by circular index.
- **The Gemini node.** The model covers the API-key rule, the model choice, and the rule that
  every failure after `genai.configure` comes back as the node's text result, while a failure of
  `genai.configure` itself escapes the node.
- **The IntegerBypasser front end** (`js/integer_bypasser.js`). The model covers the control
  slots, the next `in<n>` input name, node modes, the `active_count` widget and the toggles it
  drives, and the pruning of stale toggle widgets.
- **The package entry point** (`__init__.py`). It finds every `.py` file under `nodes`, loads
  the files in order of relative path, and merges their `NODE_CLASS_MAPPINGS` and
  `NODE_DISPLAY_NAME_MAPPINGS`.

Each module matches one source file and takes its form:

- Objects whose state the source updates become classes with `modifies` clauses: the counter
  file, the toggle bank, the bypasser node and the registry.
- Loops become methods with invariants, proved against a specification function.
- Straight-line string code becomes functions.

Shared helper modules:

- `Text` models Python `str` operations: `strip`, `split`, `in`, `str(n)`, `f"{n:05d}"` and
  ASCII `lower`.
- `JsText` models JavaScript `parseInt` and `split("_").pop()`.
- `PosixPath` models `splitext`, `join` and `basename`.
- `Sorting` models `sorted` on strings: code-point order, proved to give sorted output that is
  a permutation of the input and does not depend on input order.

I/O and calls into code that is not visible become parameters:

- Whether a path exists, and the result of each file write.
- The folder listing.
- What loading each module gives.
- The Gemini service's answer.

## Model

| member | source | states |
|---|---|---|
| `LoopCounter.CounterFile.constructor` | nodes/Loop_Counter.py:6-7 | the shared counter file starts with the given contents |
| `LoopCounter.CounterFile.Count` | nodes/Loop_Counter.py:27-43 | returns the stored `loop_count` (0 for a missing file, bad JSON or a missing key) and persists its successor; a failed open leaves the file alone; a failed dump leaves unreadable text; any other read error, and a JSON non-object, raise and leave the file alone |
| `LoopCounter.CounterFile.Reset` | nodes/Loop_Counter.py:58-67 | writes `{"loop_count": 0}` whatever `trigger_reset` is, subject to the write outcome |
| `LoopCounter.DefaultsToZero` | nodes/Loop_Counter.py:28-34 | a missing file, bad JSON and a missing key all read as 0 and leave 1 behind |
| `LoopCounter.RaisesOnlyOnUncaughtErrors` | nodes/Loop_Counter.py:28-32 | the node raises exactly on a read error other than a missing file or bad JSON, and on JSON that is not an object; the read error is told apart; a raising run leaves the file as it was |
| `LoopCounter.OutputIgnoresWrite` | nodes/Loop_Counter.py:36-43 | the value returned is the value read, whatever happens to the write |
| `LoopCounter.NextRunSeesSuccessor` | nodes/Loop_Counter.py:36-42 | after a successful write the next run returns the successor; after a failed open it returns the same value; after a failed dump it returns 0 |
| `LoopCounter.ResetProperties` | nodes/Loop_Counter.py:60-63 | reset leaves `{"loop_count": 0}`, resetting twice is resetting once, and the next count returns 0 |
| `LoopCounter.ConsecutiveRuns` | nodes/Loop_Counter.py:27-43 | from a file that reads `v`, n successful runs return `v, v+1, ..., v+n-1` and leave `v+n` stored |
| `LoopCounter.RunsFromMissingFile` | LoopCounter.py:14-18 | from a missing file the runs return the documented sequence 0, 1, 2, ... |
| `LoopCounter.CountFromMissingFile` | LoopCounter.py:34-60 | n calls to the counter node on a fresh file return 0 .. n-1 |
| `PaddedFileName.FilenameRoundTrip` | nodes/Loop_Counter.py:76-91 | within the declared bounds the name is the prefix, `_`, the product in at least five digits (never truncated) and `_.png`, and the number reads back |
| `PaddedFileName.PaddedNameRoundTrip` | LoopCounter.py:116-121 | the same name shape and read-back for any natural number, as `File_name` builds it |
| `PaddedFileName.FormatFilenameExample` | nodes/Loop_Counter.py:88-91 | `(3, 10, "frame")` gives `frame_00030_.png` |
| `PaddedFileName.FormatFilenameZeroExample` | nodes/Loop_Counter.py:88-91 | `(0, 1, "x")` gives `x_00000_.png` |
| `PaddedFileName.FormatFilenameWideExample` | nodes/Loop_Counter.py:88-91 | a six-digit product is printed in full |
| `PaddedFileName.NegativeProductKeepsSign` | nodes/Loop_Counter.py:89-90 | outside the declared bounds a negative product keeps its sign inside the width and no longer reads back |
| `PromptBatchSelector.LinesShape` | nodes/Loop_Counter.py:123 | the split yields at least one line, no line holds a newline, and the lines rejoin to the stripped block |
| `PromptBatchSelector.CombineStripped` | nodes/Loop_Counter.py:131 | stripping `f"{a} {b}"` after stripping both sides joins them with one space, or none when either is empty, and the result is stripped |
| `PromptBatchSelector.CombinePromptInRange` | nodes/Loop_Counter.py:122-131 | a 1-based index naming a line gives the stripped common text joined with that stripped line |
| `PromptBatchSelector.CombinePromptOutOfRange` | nodes/Loop_Counter.py:124-131 | any other index (0, negative, past the end) gives the stripped common text alone |
| `PromptBatchSelector.CommonAlone` | nodes/Loop_Counter.py:125-131 | with an empty extra prompt the join is the stripped common text |
| `SaveCaption.RecoverComposed` | nodes/save_captions.py:27-38 | the trimmed caption is always recoverable from the composed text and the trimmed extra text |
| `SaveCaption.RecoverJoined` | nodes/save_captions.py:32-38 | the prefix/suffix join is inverted by `RecoverCaption` for any caption and extra text |
| `SaveCaption.ComposeCaptionLength` | nodes/save_captions.py:32-38 | the composed text holds the trimmed caption, plus the verbatim separator and the trimmed extra text exactly when the latter is not empty |
| `SaveCaption.ComposeCaptionTrimsInputs` | nodes/save_captions.py:28-29 | trimming the inputs beforehand changes nothing |
| `SaveCaption.CaptionPathReplacesExtension` | nodes/save_captions.py:46-47 | the caption path is the image path with its last extension replaced by `.txt` |
| `SaveCaption.CaptionPathExamples` | nodes/save_captions.py:46-47 | `dir/img.png` gives `dir/img.txt`; the hidden file `dir/.hidden` gives `dir/.hidden.txt` |
| `SaveCaption.SaveDatasetCaption` | nodes/save_captions.py:26-57 | the same composed text on every path; nothing is written for an empty or missing image path; otherwise that text goes to the caption path, or the write fails there |
| `PosixPath.Basename` | nodes/batch_loader.py:72 | the basename holds no `/`, is a suffix of the path, and is preceded by a `/` unless it is the whole path |
| `PosixPath.SplitExt` | nodes/batch_loader.py:42 | stem + extension is the path; a non-empty extension is a dot followed by no dot or `/`, within the final component and not after leading dots only; an empty extension means every dot of the final component follows dots only |
| `PosixPath.JoinPath` | nodes/batch_loader.py:47 | joining a folder and a file name gives a path whose basename is that file name |
| `PosixPath.SplitExtOfAppended` | nodes/save_captions.py:46-47 | `splitext` of a stem with an extension appended gives back that stem and extension |
| `PosixPath.SplitExtExamples` | nodes/save_captions.py:46 | `dir/img.png` splits at `.png`; `dir/.hidden` has no extension |
| `Sorting.Sort` | nodes/batch_loader.py:41 | `sorted` returns the same strings in code-point order |
| `Sorting.SortedUnique` | __init__.py:48 | two sorted arrangements of the same strings are identical |
| `Sorting.SortIgnoresOrder` | nodes/batch_loader.py:41 | the sorted listing does not depend on the order the listing came in |
| `Sorting.LexLeTotal` | nodes/batch_loader.py:41 | any two strings are comparable |
| `Sorting.LexLeTransitive` | nodes/batch_loader.py:41 | string order is transitive |
| `Sorting.LexLeAntisymmetric` | nodes/batch_loader.py:41 | string order is antisymmetric |
| `BatchLoader.SelectedFileName` | nodes/batch_loader.py:47-72 | for listing entries without `/`, the base name of the selected path (the `filename_text` output) is the kept name at the chosen index |
| `BatchLoader.LoadBatchImages` | nodes/batch_loader.py:29-55 | the loop and the selection compute `Select`: the placeholder for the default folder, the missing-folder error, the no-images error, or the file at `image_index % count` |
| `BatchLoader.KeptPathsStep` | nodes/batch_loader.py:41-47 | each name of the listing appends its path exactly when it is kept |
| `BatchLoader.KeptNamesMembership` | nodes/batch_loader.py:42-46 | a name is kept iff it is in the listing, its lower-cased extension is in the allow-list, and the filter is empty or occurs in it |
| `BatchLoader.KeptNamesSorted` | nodes/batch_loader.py:41-47 | the kept files keep the sorted order of the listing |
| `BatchLoader.SelectedIsKeptImage` | nodes/batch_loader.py:53-55 | the chosen index lies in `[0, count)` and the chosen path is the folder joined with a kept name of the listing |
| `BatchLoader.NoValidImagesIff` | nodes/batch_loader.py:49-50 | "no valid images" is raised iff no entry passes both tests |
| `BatchLoader.CongruentIndicesSelectSameFile` | nodes/batch_loader.py:53-55 | indices congruent modulo the count select the same file |
| `BatchLoader.SelectIsByRemainder` | nodes/batch_loader.py:52-55 | with at least one kept file the result is the file at the remainder |
| `BatchLoader.ListingOrderIrrelevant` | nodes/batch_loader.py:41 | the result does not depend on the order `os.listdir` returns |
| `JsText.TrimStartJs` | js/integer_bypasser.js:267 | `parseInt` skips exactly the leading JavaScript whitespace |
| `JsText.ParseIntOfDigits` | js/integer_bypasser.js:62 | `parseInt` of a non-empty digit string is the number it denotes |
| `JsText.ParseIntDecimal` | js/integer_bypasser.js:267 | `parseInt(String(n))` is `n` for every natural number |
| `JsText.LastUnderscorePart` | js/integer_bypasser.js:267 | `split("_").pop()` is the suffix after the last underscore, or the whole name when there is none |
| `IntegerBypasser.SafeInt` | js/integer_bypasser.js:8-12 | on integers the result is `max(0, v)` |
| `IntegerBypasser.SetNodeMode` | js/integer_bypasser.js:29-41 | an existing node ends in ALWAYS (0) when enabled and BYPASS (4) when disabled; it is written only when its mode differed; a missing node is ignored |
| `IntegerBypasser.ControlSlotsSpec` | js/integer_bypasser.js:45-55 | the slots are exactly the indices of present inputs not named `active_count`, in strictly ascending order |
| `IntegerBypasser.GetControlSlots` | js/integer_bypasser.js:45-55 | the loop computes those slots |
| `IntegerBypasser.UsedNumbersMembership` | js/integer_bypasser.js:57-63 | every input named `in<digits>` (either case) contributes its number |
| `IntegerBypasser.CollectUsedNumbers` | js/integer_bypasser.js:58-63 | the scan of the inputs collects exactly the numbers of the inputs named `in<digits>` (either case), read with `parseInt` |
| `IntegerBypasser.GetNextInName` | js/integer_bypasser.js:57-67 | the result is `in<n>` with n the least positive number no `in<digits>` input uses |
| `IntegerBypasser.NextInNameIsFresh` | js/integer_bypasser.js:57-67 | the new name collides with no existing input |
| `IntegerBypasser.LeadingOnIsLongestPrefix` | js/integer_bypasser.js:149-153 | the count is the length of the longest all-on prefix |
| `IntegerBypasser.CountLeadingOn` | js/integer_bypasser.js:149-153 | the counting loop with its `break` computes that length |
| `IntegerBypasser.ClampIsNearest` | js/integer_bypasser.js:174 | the clamped count is the number in `[0, number of toggles]` nearest to the requested count |
| `IntegerBypasser.CountOfTarget` | js/integer_bypasser.js:139-182 | counting the toggles `applyActiveCount(c)` leaves gives back the clamped c |
| `IntegerBypasser.ModeAfterSingleSlot` | js/integer_bypasser.js:176-182 | a node wired to a single toggle ends in the mode of that toggle's target value when the toggle had to change, and keeps its mode otherwise |
| `IntegerBypasser.ModeAfterUntouched` | js/integer_bypasser.js:176-182 | a node on no visited slot keeps its mode |
| `IntegerBypasser.ToggleBank.UpdateActiveCount` | js/integer_bypasser.js:139-162 | the `active_count` widget, when present, shows the number of leading toggles that are on |
| `IntegerBypasser.ToggleBank.ApplyActiveCount` | js/integer_bypasser.js:164-186 | afterwards toggle i is on iff `i < clamp(count)`; only changed toggles set the upstream mode; `active_count` is refreshed only when something changed |
| `IntegerBypasser.FilterWidgetsMembership` | js/integer_bypasser.js:265-272 | a widget survives the filter iff it was there and passes it |
| `IntegerBypasser.FilterWidgetsIdempotent` | js/integer_bypasser.js:265-272 | filtering twice is filtering once |
| `IntegerBypasser.PruneWidgetsMembership` | js/integer_bypasser.js:264-272 | non-toggle widgets are all kept; a toggle is kept iff its suffix is a number at most `max(0, slots - 1)` |
| `IntegerBypasser.PruneWidgetsIdempotent` | js/integer_bypasser.js:264-272 | pruning twice prunes nothing more |
| `IntegerBypasser.ToggleNameSuffix` | js/integer_bypasser.js:267 | the suffix of `bypass_toggle_<k>` is k's digits |
| `IntegerBypasser.CanonicalToggleKept` | js/integer_bypasser.js:264-272 | `bypass_toggle_<k>` survives pruning iff `k <= maxToggleIndex` |
| `IntegerBypasser.BypasserNode.PruneToggles` | js/integer_bypasser.js:257-272 | the widgets become the pruned list for the node's current control slots; the inputs are unchanged |
| `NodeRegistry.WithoutSuffix` | __init__.py:23 | dropping the suffix leaves a prefix of the name |
| `NodeRegistry.PyFileComponent` | __init__.py:23 | `stem.py` loses exactly `.py` |
| `NodeRegistry.ModuleNameOfParts` | __init__.py:22-24 | the module name of joined components is read from those components |
| `NodeRegistry.ModuleNameOfFile` | __init__.py:20-24 | `d1/.../dn/stem.py` is the module `nodes.d1. ... .dn.stem` |
| `NodeRegistry.ModuleNameExample` | __init__.py:20-24 | `a/b/c.py` is `nodes.a.b.c` |
| `NodeRegistry.PyFilesMembership` | __init__.py:39-45 | every found file is loaded except the root `__init__.py`; sub-package `__init__.py` files are loaded |
| `NodeRegistry.CollectPyFiles` | __init__.py:41-45 | the scan loop computes that list |
| `NodeRegistry.LoadOrder` | __init__.py:48 | modules load in ascending order of relative path, each found file once |
| `NodeRegistry.MergeAllAppend` | __init__.py:50-71 | the merge is a left fold of dict update |
| `NodeRegistry.NothingFromNonDict` | __init__.py:56-57 | a missing, empty or non-dict attribute contributes nothing |
| `NodeRegistry.MergeAllKeys` | __init__.py:56-71 | a key is registered iff it was there before or some merged dict defines it |
| `NodeRegistry.MergeAllLastWins` | __init__.py:59-63 | on a collision the last module defining the key wins |
| `NodeRegistry.FailedLoadContributesNothing` | __init__.py:50-75 | a module that raises while loading adds nothing and does not stop the later modules |
| `NodeRegistry.MergeStep` | __init__.py:56-71 | one more module updates each mapping with that module's attribute |
| `NodeRegistry.Registry.constructor` | __init__.py:6-7 | both mappings start empty |
| `NodeRegistry.Registry.MergeModules` | __init__.py:50-75 | the loop leaves each mapping equal to the fold of its module attributes over the files |
| `NodeRegistry.Registry.LoadNodes` | __init__.py:26-75 | a missing folder changes nothing; otherwise both mappings become the fold over the files in load order |
| `NodeRegistry.ImportPackage` | __init__.py:6-7 | importing the package with no `nodes` folder leaves both mappings empty; otherwise they hold the fold from empty |
| `GeminiNode.GetApiKey` | nodes/google_gemini.py:102-126 | the trimmed typed key if it contains `AIza`; else the trimmed key file if it contains `AIza`; else none |
| `GeminiNode.ApiKeyIsTrimmed` | nodes/google_gemini.py:108-122 | the key used has no surrounding whitespace |
| `GeminiNode.ApiKeyIgnoresSurroundingSpace` | nodes/google_gemini.py:108 | whitespace around the typed key makes no difference |
| `GeminiNode.ChooseModel` | nodes/google_gemini.py:142-148 | a trimmed manual name that is non-empty, at most 100 characters long and free of `ERROR` overrides the selector; otherwise the selector is used |
| `GeminiNode.ChosenModelIsSelectorOrAcceptable` | nodes/google_gemini.py:142-148 | any model other than the selector is an acceptable, trimmed manual name |
| `GeminiNode.ChooseModelIgnoresSurroundingSpace` | nodes/google_gemini.py:142 | trimming the manual name beforehand changes nothing |
| `GeminiNode.Diagnosis` | nodes/google_gemini.py:178-181 | the error text starts with the marker and the model name and ends with the exception message |
| `GeminiNode.GenerateContent` | nodes/google_gemini.py:128-181 | the node raises exactly when the library is there, a key was found and `genai.configure` fails; otherwise it answers one string, identical in `ui` and `result`: the missing-library message, the missing-key message, the model's text, or the diagnosis naming the chosen model |
| `GeminiNode.ServiceNotAskedWithoutKey` | nodes/google_gemini.py:128-139 | without the library or a valid key the service is neither configured nor asked: its behaviour plays no part |
| `GeminiNode.OnlyTheChosenCallMatters` | nodes/google_gemini.py:141-176 | the service is configured with the found key and asked once, with that key, the chosen model and the prompt as given: services that agree on that call give the same result |
| `GeminiNode.FailureTextsDistinct` | nodes/google_gemini.py:130-181 | the three kinds of failure text differ from each other |
| `Text.StripIsTrimmedSlice` | nodes/save_captions.py:28-29 | `strip` returns the slice between the leading and the trailing whitespace |
| `Text.StripIdempotent` | nodes/google_gemini.py:108 | stripping twice is stripping once |
| `Text.StripSpaceJoin` | nodes/Loop_Counter.py:131 | stripping two stripped strings joined with a space gives the space-join |
| `Text.SplitJoin` | nodes/Loop_Counter.py:123 | splitting undoes joining when no piece holds the separator |
| `Text.ContainsIsOccurrence` | nodes/batch_loader.py:45 | `t in s` iff t occurs in s at some index |
| `Text.Decimal` | js/integer_bypasser.js:66 | `str(n)` is a non-empty digit string denoting n, without a leading zero unless n is 0 |
| `Text.Format05dValue` | nodes/Loop_Counter.py:90 | `f"{n:05d}"` of a natural number has at least five digits, all of n's digits, and denotes n |
| `Text.LowerAsciiIdempotent` | nodes/batch_loader.py:42 | lower-casing leaves no ASCII capital, keeps every other character, and a second pass changes nothing |
| `Text.LastIndexOf` | nodes/batch_loader.py:42 | the index of the last occurrence, or -1 when there is none |

## Left out

- File and console I/O: `print` diagnostics, JSON formatting (`indent=4`), `folder_paths`, and the text of the printed errors. The results of `open`, `write`, `os.path.exists`, `os.path.isdir` and `os.listdir` are parameters.
- `IS_CHANGED` returning `random.random()`: the host's re-run decision is not part of the model.
- Concurrent runs on `loops.json`, which has no locking: the model is single-threaded.
- Counter values other than integers in `loops.json` are out of scope (`Contents` holds `int` members only).
- `CLIPTextEncode` (nodes/Loop_Counter.py:133-135): the model stops at the final prompt string.
- Image decoding in the batch loader (nodes/batch_loader.py:56-76): PIL, EXIF transposition, float tensors, the alpha mask, the basename returned as `filename_text`, and the `"error"` result when an image fails to open. These are foreign libraries and floating point.
- The Gemini service itself (nodes/google_gemini.py:94-100, 151-176): `genai.configure`, `GenerativeModel`, the safety and temperature settings, and `tensor_to_pil`. `genai.configure` is one function parameter, which says whether it returns or raises. Building the model and generating are a second parameter, which answers with the text or with the exception's message. The images sent with the prompt are not modelled.
- The key file's location (`os.path.realpath(__file__)`): the model takes what reading it gives.
- `importlib` loading, `sys.modules` and `exec_module` (__init__.py:9-18): each file's load is a function parameter giving the two attributes or a failure. The collision warnings (__init__.py:58-62, 67-70) only print.
- `rglob`'s traversal and the paths' own sort key: `found` is the list of relative POSIX paths `rglob` yields, and `RootInit` marks the root `__init__.py`.
- JavaScript browser plumbing: `getUpstreamNode`'s graph lookup, `setTimeout`/`setInterval` polling, canvas redraws, `handleActiveCountInput` and the `registerExtension` hooks (js/integer_bypasser.js:14-27, 190-255, 281-412). Upstream nodes are `GraphNode?` values given with the toggles.
- `ensureToggleForSlot` and toggle creation in `refreshInputsAndToggles` (js/integer_bypasser.js:69-103, 257-262): only the pruning step is modelled.
- Sorting the toggle widgets by their numeric suffix (js/integer_bypasser.js:141-147, 166-172): `ToggleBank` holds the toggles already in that order, with toggle i named `bypass_toggle_<i>`. `CanonicalToggleKept` ties those names to the pruning.
- `onToggleChanged`'s lookup of a toggle with no `slotIndex` through `getControlSlots` (js/integer_bypasser.js:116-125): every toggle of the bank already has its slot.
- `safeInt` on non-integer or non-finite numbers: floating point. `parseInt` is modelled on exact integers, without the precision loss of JavaScript numbers on very long digit strings. JavaScript strings are UTF-16; the model uses code points.
- nodes/integer_bypasser.py: its `execute` only prints and returns `{}`. js/gemini_feedback.js only styles the page.
- The root `LoopCounter.py` is not in the `nodes` folder, so `__init__.py` never loads it. Its nodes share the counter model, and `File_name` the file-name model, because that logic is the same.
- Dictionary insertion order of the merged mappings is not modelled: the mappings are Dafny maps.
- `LoopCounter.CounterFile.Count`: a JSON document that is not an object makes `data.get` raise an `AttributeError` that the node does not catch. The model returns `RaisedAttributeError` for it and leaves the file alone.
- `BatchLoader.Select`, `BatchLoader.LoadBatchImages`, `SaveCaption.CaptionPath` and `SaveCaption.SaveDatasetCaption` use `posixpath` semantics only: `/` is the one separator and there are no drive letters. The default folder `C:\Ruta\A\Tus\Imagenes` (nodes/batch_loader.py:32) shows the nodes also run on Windows. There `ntpath` joins with `\`, takes the base name after `\` or `/`, and looks for the extension after the last of either. The model does not cover those paths.
- `BatchLoader.LoadBatchImages`: `image_index % count` uses Dafny's Euclidean `%`. This agrees with Python's floored `%` because the count is positive.
- `BatchLoader.HasImageExtension` lower-cases ASCII letters only. For this allow-list that decides the same as Python's full `str.lower`, except for characters whose lower case is ASCII (such as the Kelvin sign).
- `NodeRegistry.ModuleName`: when all of a relative path's parts are dropped, the source answers `nodes` alone. No relative path of a found file has that shape, so the model does not reproduce that branch.
- `NodeRegistry.WithoutSuffix`: its contract says only that the result is a prefix. `PyFileComponent` states the exact result for `.py` files, which are the only files loaded.
