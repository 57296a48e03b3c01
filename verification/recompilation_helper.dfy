/**
 The file-substitution layer of `WebpackRecompilationHelper`: a registry that
 maps each test file to a temporary copy (and each temporary folder back to
 the test file's folder), frozen by the first compile run; simulated edits
 that rewrite only the temporary copy; and the `beforeResolve` rewrite that
 sends webpack's requests for a registered file to its copy.

 Node's `path` functions are uninterpreted (fields of `PathOps`), the disk is
 a `FileSystem` object holding a map from path to text, and the directory
 that `temp-fs` creates is a parameter of `AddTestFile`.
 */
module Recompilation {
  import opened FileEdit
  import opened RequestChain

  type Path = string

  /** The separator of webpack's loader chain. */
  const LoaderSeparator: char := '!'

  /** Node's `path.resolve`, `path.dirname`, `path.basename` and `path.join`. */
  datatype PathOps = PathOps(
    resolve: (Path, Path) -> Path,
    dirname: Path -> Path,
    basename: Path -> Path,
    join: (Path, Path) -> Path)

  /** The errors the helper throws. `FileNotFound` is what `readFileSync`
      throws for a file that does not exist. */
  datatype HelperError =
    | NoMapping(file: Path)
    | FileNotChanged
    | RegistrationAfterRun
    | FileNotFound(file: Path)

  /** Normal return, or the error thrown. */
  datatype Outcome = Done | Failed(error: HelperError)

  /** The files on disk: each existing file's path and its text. */
  class FileSystem {
    var contents: map<Path, string>

    constructor (contents: map<Path, string>)
      ensures this.contents == contents
    {
      this.contents := contents;
    }
  }

  /** The `data` object webpack passes to `beforeResolve`, changed in place. */
  class ResolveData {
    var context: Path
    var request: string

    constructor (context: Path, request: string)
      ensures this.context == context && this.request == request
    {
      this.context := context;
      this.request := request;
    }
  }

  /** `folders[context] || context`: a context that is a temporary folder
      becomes the folder of the test file copied there. */
  function RemappedContext(folders: map<Path, Path>, context: Path): (r: Path)
    ensures context in folders && folders[context] != "" ==> r == folders[context]
    ensures !(context in folders && folders[context] != "") ==> r == context
  {
    if context in folders && folders[context] != "" then folders[context] else context
  }

  /** The request after `_resolveDependency`, given the already remapped
      context: when the last segment, resolved against the context, is a
      registered file, that segment is replaced by its temporary copy. */
  function RewrittenRequest(files: map<Path, Path>, resolve: (Path, Path) -> Path,
                            context: Path, request: string): (r: string)
    ensures var last := LastSegment(request, LoaderSeparator);
      var target := resolve(context, last);
      && (!(target in files && files[target] != "") ==> r == request)
      && (target in files && files[target] != "" ==>
            |last| <= |request| && r == request[..|request| - |last|] + files[target])
  {
    var target := resolve(context, LastSegment(request, LoaderSeparator));
    if target in files && files[target] != "" then
      ReplaceLastSegment(request, LoaderSeparator, files[target]);
      Join(LeadingSegments(request, LoaderSeparator) + [files[target]], LoaderSeparator)
    else
      request
  }

  /** What the rewrite does to the request text: an unregistered target
      leaves the request exactly as it was; a registered one keeps every
      character before the last segment and puts the temporary path in place
      of that segment, so that (for a path without `!`) the leading segments
      and the number of segments stay the same. */
  lemma RewrittenRequestShape(files: map<Path, Path>, resolve: (Path, Path) -> Path,
                              context: Path, request: string)
    ensures var last := LastSegment(request, LoaderSeparator);
      var target := resolve(context, last);
      var r := RewrittenRequest(files, resolve, context, request);
      && (!(target in files && files[target] != "") ==> r == request)
      && (target in files && files[target] != "" ==>
            && |last| <= |request|
            && request[|request| - |last|..] == last
            && r == request[..|request| - |last|] + files[target]
            && (LoaderSeparator !in files[target] ==>
                  && Split(r, LoaderSeparator) == LeadingSegments(request, LoaderSeparator) + [files[target]]
                  && |Split(r, LoaderSeparator)| == |Split(request, LoaderSeparator)|))
  {
    var last := LastSegment(request, LoaderSeparator);
    var target := resolve(context, last);
    if target in files && files[target] != "" {
      ReplaceLastSegment(request, LoaderSeparator, files[target]);
    }
  }

  class WebpackRecompilationHelper {
    /** `compiler.context`, the folder relative file names are resolved in. */
    const context: Path
    const ops: PathOps
    const fs: FileSystem
    /** `mappings.files`: test file -> its temporary copy. */
    var files: map<Path, Path>
    /** `mappings.folders`: temporary folder -> the test file's folder. */
    var folders: map<Path, Path>
    var runCount: nat

    /** Every temporary copy is a non-empty path, exists on disk, is not the
        file it stands for, and belongs to one test file only. */
    ghost predicate Valid()
      reads this, fs
    {
      && (forall k | k in files :: files[k] != "" && files[k] != k && files[k] in fs.contents)
      && (forall k1, k2 | k1 in files && k2 in files && k1 != k2 :: files[k1] != files[k2])
    }

    constructor (context: Path, ops: PathOps, fs: FileSystem)
      ensures Valid()
      ensures this.context == context && this.ops == ops && this.fs == fs
      ensures files == map[] && folders == map[] && runCount == 0
    {
      this.context := context;
      this.ops := ops;
      this.fs := fs;
      files := map[];
      folders := map[];
      runCount := 0;
    }

    /** The absolute path of a file name given by the test. */
    function Resolved(filename: Path): (resolved: Path)
      reads this
    {
      ops.resolve(context, filename)
    }

    /** Where `addTestFile` puts the copy of `filename` inside `tmpFolder`. */
    function TmpFileFor(filename: Path, tmpFolder: Path): (tmpFile: Path)
      reads this
    {
      ops.join(tmpFolder, ops.basename(Resolved(filename)))
    }

    /** What `temp-fs` guarantees of a directory it has just created: no
        mapping knows it yet, and the copy's path inside it is a new file. */
    predicate FreshTmpFolder(filename: Path, tmpFolder: Path)
      reads this, fs
    {
      && tmpFolder !in folders
      && TmpFileFor(filename, tmpFolder) != ""
      && TmpFileFor(filename, tmpFolder) !in fs.contents
    }

    /** `addTestFile`: only before the first run, copy the test file into the
        fresh temporary folder and record both mappings. Nothing else changes;
        when it fails, nothing changes at all. */
    method AddTestFile(filename: Path, tmpFolder: Path) returns (r: Outcome)
      requires Valid()
      requires runCount == 0 ==> FreshTmpFolder(filename, tmpFolder)
      modifies this`files, this`folders, fs
      ensures Valid()
      ensures runCount == old(runCount)
      ensures old(runCount) != 0 ==>
        r == Failed(RegistrationAfterRun) && unchanged(this, fs)
      ensures old(runCount) == 0 && Resolved(filename) !in old(fs.contents) ==>
        r == Failed(FileNotFound(Resolved(filename))) && unchanged(this, fs)
      ensures old(runCount) == 0 && Resolved(filename) in old(fs.contents) ==>
        var tmpFile := TmpFileFor(filename, tmpFolder);
        && r == Done
        && files == old(files)[Resolved(filename) := tmpFile]
        && folders == old(folders)[tmpFolder := ops.dirname(Resolved(filename))]
        && fs.contents == old(fs.contents)[tmpFile := old(fs.contents)[Resolved(filename)]]
        && tmpFile !in old(fs.contents)
        && fs.contents[tmpFile] == fs.contents[Resolved(filename)]
    {
      if runCount != 0 {
        return Failed(RegistrationAfterRun);
      }
      var resolvedFilename := ops.resolve(context, filename);
      if resolvedFilename !in fs.contents {
        return Failed(FileNotFound(resolvedFilename));
      }
      var originalFileContent := fs.contents[resolvedFilename];
      var tmpFile := ops.join(tmpFolder, ops.basename(resolvedFilename));
      fs.contents := fs.contents[tmpFile := originalFileContent];
      files := files[resolvedFilename := tmpFile];
      folders := folders[tmpFolder := ops.dirname(resolvedFilename)];
      r := Done;
    }

    /** `simulateFileChange`: compute the new text from the ORIGINAL file and
        write it to the test file's temporary copy. A missing mapping, a
        missing original and a no-op edit are refused and change nothing; a
        successful edit changes that one copy and no other file. */
    method SimulateFileChange(filename: Path, opts: EditOptions) returns (r: Outcome)
      requires Valid()
      modifies fs
      ensures Valid()
      ensures unchanged(this)
      ensures Resolved(filename) in old(fs.contents) ==>
        Resolved(filename) in fs.contents && fs.contents[Resolved(filename)] == old(fs.contents)[Resolved(filename)]
      ensures Resolved(filename) !in files ==>
        r == Failed(NoMapping(Resolved(filename))) && unchanged(fs)
      ensures Resolved(filename) in files && Resolved(filename) !in old(fs.contents) ==>
        r == Failed(FileNotFound(Resolved(filename))) && unchanged(fs)
      ensures Resolved(filename) in files && Resolved(filename) in old(fs.contents) ==>
        var original := old(fs.contents)[Resolved(filename)];
        var content := NewContent(opts, original);
        && (content == original ==> r == Failed(FileNotChanged) && unchanged(fs))
        && (content != original ==>
              && r == Done
              && fs.contents == old(fs.contents)[files[Resolved(filename)] := content])
    {
      var resolvedFilename := ops.resolve(context, filename);
      if resolvedFilename !in files || files[resolvedFilename] == "" {
        return Failed(NoMapping(resolvedFilename));
      }
      var tmpFile := files[resolvedFilename];
      if resolvedFilename !in fs.contents {
        return Failed(FileNotFound(resolvedFilename));
      }
      var originalFileContent := fs.contents[resolvedFilename];
      var banner := opts.banner.GetOr("");
      var footer := opts.footer.GetOr("");
      var content;
      if opts.content.None? {
        content := banner + originalFileContent + footer;
      } else {
        content := opts.content.value;
      }
      if content == originalFileContent {
        return Failed(FileNotChanged);
      }
      fs.contents := fs.contents[tmpFile := content];
      r := Done;
    }

    /** `_resolveDependency`: remap the context through the folder table,
        then, if the request's last segment resolved against that context is
        a registered file, replace the segment by the temporary copy. The
        same object is handed back. */
    method ResolveDependency(data: ResolveData) returns (result: ResolveData)
      modifies data
      ensures result == data
      ensures data.context == RemappedContext(folders, old(data.context))
      ensures data.request == RewrittenRequest(files, ops.resolve, data.context, old(data.request))
    {
      if data.context in folders && folders[data.context] != "" {
        data.context := folders[data.context];
      }
      var requestParts := Split(data.request, LoaderSeparator);
      var popped := requestParts[|requestParts| - 1];
      requestParts := requestParts[..|requestParts| - 1];
      var requestedFile := ops.resolve(data.context, popped);
      if requestedFile in files && files[requestedFile] != "" {
        requestParts := requestParts + [files[requestedFile]];
        data.request := Join(requestParts, LoaderSeparator);
      }
      result := data;
    }

    /** The bookkeeping part of `run`: count the run, which freezes the
        registry. */
    method Run()
      requires Valid()
      modifies this`runCount
      ensures Valid()
      ensures runCount == old(runCount) + 1
    {
      runCount := runCount + 1;
    }
  }

  /** Once a run has been counted, a registration is refused and leaves the
      registry and the disk as they were. */
  method RegistrationFrozenAfterRun(h: WebpackRecompilationHelper, filename: Path, tmpFolder: Path)
    returns (r: Outcome)
    requires h.Valid()
    modifies h, h.fs
    ensures r == Failed(RegistrationAfterRun)
    ensures h.files == old(h.files) && h.folders == old(h.folders)
    ensures h.fs.contents == old(h.fs.contents)
  {
    h.Run();
    r := h.AddTestFile(filename, tmpFolder);
  }

  /** Two edits in a row: the second is computed from the original file, not
      from the copy the first one wrote, so the copy ends up holding exactly
      what the second edit alone would give. */
  method EditsRebaseOnOriginal(h: WebpackRecompilationHelper, filename: Path,
                               first: EditOptions, second: EditOptions)
    returns (r1: Outcome, r2: Outcome)
    requires h.Valid()
    requires h.Resolved(filename) in h.files && h.Resolved(filename) in h.fs.contents
    modifies h.fs
    ensures var original := old(h.fs.contents)[h.Resolved(filename)];
      && h.Resolved(filename) in h.fs.contents
      && h.fs.contents[h.Resolved(filename)] == original
      && (NewContent(second, original) != original ==>
            && r2 == Done
            && h.Resolved(filename) in h.files
            && h.files[h.Resolved(filename)] in h.fs.contents
            && h.fs.contents[h.files[h.Resolved(filename)]] == NewContent(second, original))
  {
    r1 := h.SimulateFileChange(filename, first);
    r2 := h.SimulateFileChange(filename, second);
  }
}
