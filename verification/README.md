# webpack-recompilation-simulator: the file-substitution layer

`WebpackRecompilationHelper` (src/index.js) lets a test suite pretend to edit
source files between webpack compile runs. It keeps two tables. `mappings.files`
maps each registered test file to a temporary copy. `mappings.folders` maps each
temporary folder back to the folder of the test file copied into it. A
`runCount` freezes registration once the first run has started.
`simulateFileChange` writes the edited text into the temporary copy only, and
the `beforeResolve` hook (`_resolveDependency`) rewrites webpack's module
requests so that a registered file is read from its copy.

The model is in three modules:

- `RequestChain` (request_chain.dfy): JavaScript's `split("!")` and
  `join("!")` on loader-chain requests, as pure functions. It proves that the
  two are inverse, and it describes exactly what "pop the last segment, push
  another, join" does to the request text.
- `FileEdit` (file_edit.dfy): the text an edit produces, which is either
  `content` or `banner + original + footer`. It also proves when that text
  is a refused no-op.
- `Recompilation` (recompilation_helper.dfy): the helper as a class. The map
  fields `files` and `folders` and the counter `runCount` are updated in place
  by `AddTestFile`, `SimulateFileChange` and `Run`. `ResolveDependency`
  changes webpack's `data` object in place. The disk is a `FileSystem` object
  holding a map from path to text. Node's `path.resolve`, `path.dirname`,
  `path.basename` and `path.join` are the uninterpreted function fields of
  `PathOps`. The directory that `temp-fs` creates is the `tmpFolder`
  parameter of `AddTestFile`, and `FreshTmpFolder` states what a freshly
  created directory guarantees.

The object invariant `Valid()` says that every temporary copy has a non-empty
path, exists on disk, differs from the file it stands for, and belongs to one
test file only. Every state-changing method keeps it. Because of it,
`SimulateFileChange` never writes to the edited file's own original, nor to
another test file's copy. The code does not stop a temporary copy from being
registered as a test file itself; an edit of the first file then rewrites a
file that is also registered as an original, as it does in the code.

In this revision `addTestFile` returns nothing and does not back-date the
copy's modification time. The request rewrite replaces the last segment of
the request and does not inject the loader of src/loader.js. The integration tests in test/index.js call
`simulateFileChange` on files they never registered. With this revision of
src/index.js those calls end in the "There is no mapping" error, so the tests
describe an earlier revision. They are used only as evidence of the intended
edit rules, for example that `{banner: ''}` counts as a no-op.

JavaScript truthiness is kept where the code relies on it. `!tmpFile` and
`folders[context] || context` treat a missing entry and an empty-string entry
alike, and `options.banner || ""` treats an omitted banner and an empty one
alike.

## Model

| member | source | states |
|---|---|---|
| `RequestChain.Split` | src/index.js:91 | `request.split("!")` always yields at least one segment, and no segment contains the separator |
| `RequestChain.Join` | src/index.js:95 | `requestParts.join("!")` starts with the first segment, followed by `!` when there is more than one segment; `JoinSplit` and `SplitJoin` prove it the inverse of `Split` on `!`-free segments |
| `RequestChain.LastSegment` | src/index.js:91-92 | the popped last segment contains no `!`, and the request ends with it |
| `RequestChain.SplitLastIsSuffix` | src/index.js:91-92 | the last segment of `split` is a suffix of the string, and a single segment is the whole string |
| `RequestChain.LeadingSegments` | src/index.js:91-92 | after the pop, one segment fewer remains, none of them containing `!` |
| `RequestChain.JoinSplit` | src/index.js:91-95 | joining the split segments with `!` gives back the original request |
| `RequestChain.JoinExtendFirst` | src/index.js:95 | a character put in front of the first segment ends up in front of the joined text |
| `RequestChain.SplitJoin` | src/index.js:91-95 | splitting a join of `!`-free segments gives back exactly those segments |
| `RequestChain.SplitWithoutSeparator` | src/index.js:91 | a request without `!` splits into one segment, itself |
| `RequestChain.SplitAfterSegment` | src/index.js:91 | splitting `a!b` with `a` free of `!` gives `a` followed by the segments of `b` |
| `RequestChain.JoinPush` | src/index.js:94-95 | pushing a segment onto a non-empty array and joining appends `!` and that segment to the old join |
| `RequestChain.ReplaceLastSegment` | src/index.js:91-95 | the request ends with its last segment; pop, push `x` and join keep every character before that segment and put `x` in its place; if `x` has no `!`, the result splits into the old leading segments followed by `x` |
| `FileEdit.NewContent` | src/index.js:47-53 | a given `content` (even `""`) is the new text; otherwise the new text is the banner, then the ORIGINAL file's text, then the footer, with omitted or empty banner and footer adding nothing |
| `FileEdit.NoOpEditExactly` | src/index.js:47-56 | the edit equals the original text (and is refused) exactly when `content` is the original text, or when there is no `content` and neither a banner nor a footer |
| `Recompilation.RemappedContext` | src/index.js:89 | the context becomes its folder-table entry when that entry exists and is non-empty, and otherwise stays as it is |
| `Recompilation.RewrittenRequest` | src/index.js:91-96 | when the last segment, resolved against the context, is not a registered file with a non-empty copy, the request is unchanged; otherwise the text before the last segment is kept and the temporary path replaces that segment |
| `Recompilation.RewrittenRequestShape` | src/index.js:89-97 | when the last segment, resolved against the remapped context, is not registered, the request is left exactly as it was; when it is registered, the text before the last segment is kept and the temporary path takes that segment's place, with the same leading segments and the same segment count when the path has no `!` |
| `Recompilation.WebpackRecompilationHelper.constructor` | src/index.js:7-13 | the helper starts with both tables empty and `runCount` 0 |
| `Recompilation.WebpackRecompilationHelper.AddTestFile` | src/index.js:64-80 | it fails with `RegistrationAfterRun` whenever `runCount != 0`, and with `FileNotFound` when the original does not exist, changing nothing in either case; otherwise it maps the resolved file to a new temporary path whose content equals the original's, maps the temporary folder to the file's `dirname`, and changes no other entry, file or counter |
| `Recompilation.WebpackRecompilationHelper.SimulateFileChange` | src/index.js:40-58 | it fails with `NoMapping(resolved)` for an unregistered file, with `FileNotFound` when the original is missing, and with `FileNotChanged` when the computed text equals the original, changing nothing in each case; otherwise it writes `NewContent(options, original)` to the mapped temporary file only; the original file, all other files, both tables and `runCount` stay the same |
| `Recompilation.WebpackRecompilationHelper.ResolveDependency` | src/index.js:87-98 | it sets `data.context` to `RemappedContext` of the old context and `data.request` to `RewrittenRequest` against that new context, and returns the same object |
| `Recompilation.WebpackRecompilationHelper.Run` | src/index.js:103-104 | each run increments `runCount`, so after the first run it is non-zero |
| `Recompilation.RegistrationFrozenAfterRun` | src/index.js:64-67 | after `run`, `addTestFile` is refused with "only be added before the first run" and leaves both tables and the disk unchanged |
| `Recompilation.EditsRebaseOnOriginal` | src/index.js:47-57 | of two successive edits, the second is computed from the original file and not from the copy the first one wrote; the original file is never touched |

## Left out

- Webpack hook registration (`normalModuleFactory`, `beforeResolve` and `done` taps, src/index.js:16-30) is not modelled. It only connects the helper to webpack's plugin API; `ResolveDependency` models the work the `beforeResolve` callback does.
- The asynchronous part of `run` is not modelled: the 10 ms `setTimeout`, `compiler.run`, the error checks and the `process.nextTick` resolution (src/index.js:105-122). These are timers and calls into webpack. Line 114 also rejects with an undefined `errors` variable. Only `runCount++` is modelled.
- `temp-fs`, `fs.realpathSync`, `readFileSync` and `writeFileSync` are replaced by the `tmpFolder` parameter and the `FileSystem` map. File contents are text, not bytes. The empty temporary directory that `addTestFile` leaves behind when the original file is missing is not modelled. The `options.tmpDirectory` setting is not modelled either, because it only tells `temp-fs` where to create that directory.
- Node's `path` semantics are not modelled. The model assumes nothing about `resolve`, `dirname`, `basename` or `join` beyond what `FreshTmpFolder` requires of a new directory.
- Non-string option values are not modelled: `EditOptions` holds optional strings only. A `null` or numeric `content`, or a number as banner, is outside the model.
- `mappings` are JavaScript objects, so a key such as `__proto__` or `constructor` would behave differently from a map entry. The model treats them as plain maps.
- src/loader.js and test/loader/index.js are not part of this model. The first only strips a leading `?` and reads a file; the second is a test double.
- test/index.js and test/index.es5.js are not part of this model. These are end-to-end webpack runs (dependency sets, hashes, loader caching) that depend on webpack itself.
