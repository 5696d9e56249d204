/**
 The save driver of ProjectSaver: it writes the project file, then the JUCE
 wrapper files, then hands each exporter its list of wrapper files and lets it
 create its build project. Every failure appends one message to an error log;
 each phase runs only while the log is empty; any error rolls the project's
 file back; the first message is the result.

 The file system is an abstract map from files to the document they hold, with
 a set of read-only files and a set of folders that cannot be created. The
 text of the generated documents is named, not rendered.
 */
module ProjectSaving {
  import opened JuceText
  import opened Optional
  import opened ArtifactPlan

  /** What a file holds: one of the documents the saver generates, or text it did not write. */
  datatype Document =
    | ProjectXml
    | AppConfigHeader
    | PluginCharacteristicsHeader
    | SourceWrapper(fileNumber: nat)
    | AppHeader
    | BinaryData(isHeader: bool)
    | Foreign(text: string)

  datatype Disk = Disk(files: map<FilePath, Document>, readOnly: set<FilePath>, lockedFolders: set<string>)

  /**
   FileHelpers::overwriteFileWithNewDataIfDifferent: succeeds without writing when
   the file already holds the document, otherwise writes it unless the file is read-only.
   */
  function WriteIfDifferent(d: Disk, f: FilePath, doc: Document): (r: (bool, Disk))
    ensures r.0 <==> (f in d.files && d.files[f] == doc) || f !in d.readOnly
    ensures r.0 ==> r.1.files == d.files[f := doc]
    ensures !r.0 ==> r.1 == d
    ensures r.1.readOnly == d.readOnly && r.1.lockedFolders == d.lockedFolders
  {
    if f in d.files && d.files[f] == doc then (true, d)
    else if f in d.readOnly then (false, d)
    else (true, d.(files := d.files[f := doc]))
  }

  /** File::deleteFile, whose outcome the saver ignores: a read-only file stays. */
  function DeleteFile(d: Disk, f: FilePath): (r: Disk)
    ensures f !in d.readOnly ==> f !in r.files
    ensures OnlyRemoves(d, r)
    ensures forall g :: g != f ==> (g in r.files <==> g in d.files) && (g in r.files ==> r.files[g] == d.files[g])
    ensures r.readOnly == d.readOnly && r.lockedFolders == d.lockedFolders
  {
    if f in d.readOnly then d else d.(files := d.files - {f})
  }

  /** Every file on `after` is on `before` with the same document: nothing was written. */
  predicate OnlyRemoves(before: Disk, after: Disk) {
    forall f :: f in after.files ==> f in before.files && after.files[f] == before.files[f]
  }

  /** File::createDirectory: fails for a folder that cannot be created, changes nothing otherwise. */
  predicate CreateDirectory(d: Disk, folder: string) {
    folder !in d.lockedFolders
  }

  /** ResourceFile::write: writes the binary-data header and code, and fails if either write does. */
  function WriteResources(d: Disk, cpp: FilePath, h: FilePath): (r: (bool, Disk))
    ensures r.1.readOnly == d.readOnly && r.1.lockedFolders == d.lockedFolders
    ensures cpp != h ==> (r.0 <==> (Holds(d, h, BinaryData(true)) || h !in d.readOnly)
                                   && (Holds(d, cpp, BinaryData(false)) || cpp !in d.readOnly))
    ensures r.0 && cpp != h ==> Holds(r.1, h, BinaryData(true)) && Holds(r.1, cpp, BinaryData(false))
    ensures forall g :: g != cpp && g != h ==> SameAt(d, r.1, g)
  {
    var (okHeader, d1) := WriteIfDifferent(d, h, BinaryData(true));
    var (okCode, d2) := WriteIfDifferent(d1, cpp, BinaryData(false));
    (okHeader && okCode, d2)
  }

  /** An exporter: where it writes its build project, whether it compiles .mm wrappers, and what create() throws. */
  datatype Exporter = Exporter(targetFolder: string, usesMMFiles: bool, saveError: Option<string>)

  /** The project settings the saver reads. */
  datatype Project = Project(
    mode: LinkageMode,
    isLibrary: bool,
    isAudioPlugin: bool,
    numSeparateAmalgamatedFiles: int,
    numResourceFiles: int,
    wrapperFolder: string,
    appConfigFilename: string,
    pluginCharacteristicsFilename: string,
    appIncludeFile: FilePath,
    juceSourceFilenameRoot: string,
    exporters: seq<Exporter>)

  function PlanOf(p: Project): Plan {
    PlanArtifacts(p.mode, p.isLibrary, p.numSeparateAmalgamatedFiles, p.numResourceFiles)
  }

  function AppConfigFile(p: Project): FilePath { FilePath(p.wrapperFolder, p.appConfigFilename) }
  function PluginCharacteristicsFile(p: Project): FilePath { FilePath(p.wrapperFolder, p.pluginCharacteristicsFilename) }
  function BinaryDataCpp(p: Project): FilePath { FilePath(p.wrapperFolder, "BinaryData.cpp") }
  function BinaryDataH(p: Project): FilePath { WithFileExtension(BinaryDataCpp(p), "h") }

  /** The binary-data header is BinaryData.h beside BinaryData.cpp, so the two never coincide. */
  lemma {:induction false} BinaryDataNames(p: Project)
    ensures BinaryDataH(p) == FilePath(p.wrapperFolder, "BinaryData.h")
    ensures BinaryDataCpp(p) != BinaryDataH(p)
  {
    LastDotOf("BinaryData", "cpp");
    assert "BinaryData" + "." + "cpp" == "BinaryData.cpp";
    assert "BinaryData.cpp"[..10] == "BinaryData";
    assert "BinaryData" + "." + "h" == "BinaryData.h";
  }
  function WrapperCpp(p: Project, i: nat): FilePath { SourceWrapperCpp(p.wrapperFolder, p.juceSourceFilenameRoot, i) }
  function WrapperMM(p: Project, i: nat): FilePath { SourceWrapperMM(p.wrapperFolder, p.juceSourceFilenameRoot, i) }

  /** The wrapper files one exporter was given before its create() was called. */
  datatype Handover = Handover(exporter: nat, wrapperFiles: seq<FilePath>)

  /** The saver's running state: the disk, the error log and the hand-overs made so far. */
  datatype SaverState = SaverState(disk: Disk, errors: seq<string>, handovers: seq<Handover>)

  /** No message in the log is the empty string. */
  predicate NoBlankMessages(errors: seq<string>) {
    forall k :: 0 <= k < |errors| ==> errors[k] != ""
  }

  function AddError(s: SaverState, message: string): (r: SaverState)
    ensures r.errors == s.errors + [message] && r.disk == s.disk && r.handovers == s.handovers
  {
    s.(errors := s.errors + [message])
  }

  function Delete(s: SaverState, f: FilePath): (r: SaverState)
    ensures r.errors == s.errors && r.handovers == s.handovers
  {
    s.(disk := DeleteFile(s.disk, f))
  }

  /**
   replaceFileIfDifferent: writes the document, and when the write fails logs
   exactly one message naming the file and reports failure.
   */
  function ReplaceFileIfDifferent(s: SaverState, f: FilePath, doc: Document): (r: (bool, SaverState))
    ensures NoBlankMessages(s.errors) ==> NoBlankMessages(r.1.errors)
    ensures r.0 <==> (f in s.disk.files && s.disk.files[f] == doc) || f !in s.disk.readOnly
    ensures r.1.errors == s.errors + (if r.0 then [] else ["Can't write to file: " + FullPathName(f)])
    ensures r.0 ==> r.1.disk.files == s.disk.files[f := doc]
    ensures !r.0 ==> r.1.disk == s.disk
    ensures r.1.disk.readOnly == s.disk.readOnly && r.1.disk.lockedFolders == s.disk.lockedFolders
    ensures r.1.handovers == s.handovers
  {
    var (ok, d) := WriteIfDifferent(s.disk, f, doc);
    if ok then (true, s.(disk := d)) else (false, AddError(s, "Can't write to file: " + FullPathName(f)))
  }

  function Replace(s: SaverState, f: FilePath, doc: Document): SaverState {
    ReplaceFileIfDifferent(s, f, doc).1
  }

  /** Replacing a file with what a successful replacement just put there succeeds and changes nothing. */
  lemma {:induction false} ReplaceFileIfDifferentIdempotent(s: SaverState, f: FilePath, doc: Document)
    requires ReplaceFileIfDifferent(s, f, doc).0
    ensures var t := ReplaceFileIfDifferent(s, f, doc).1;
            ReplaceFileIfDifferent(t, f, doc) == (true, t)
  {
  }

  /** writeMainProjectFile: the project's XML goes to the target file; a failed write logs one message. */
  function WriteMainProjectFile(projectFile: FilePath, s: SaverState): (r: SaverState)
    ensures NoBlankMessages(s.errors) ==> NoBlankMessages(r.errors)
    ensures r.handovers == s.handovers
    ensures (projectFile in s.disk.files && s.disk.files[projectFile] == ProjectXml) || projectFile !in s.disk.readOnly
            ==> r.errors == s.errors && r.disk.files == s.disk.files[projectFile := ProjectXml]
    ensures !((projectFile in s.disk.files && s.disk.files[projectFile] == ProjectXml) || projectFile !in s.disk.readOnly)
            ==> r.errors == s.errors + ["Couldn't write to the target file!"] && r.disk == s.disk
  {
    var (ok, d) := WriteIfDifferent(s.disk, projectFile, ProjectXml);
    if ok then s.(disk := d) else AddError(s, "Couldn't write to the target file!")
  }

  /**
   The binary-resources step at the start of writeJuceSourceWrappers. With
   resources it needs the wrapper folder (and stops the whole step without it)
   and writes BinaryData.cpp and .h; without resources it deletes both.
   The boolean says whether writeJuceSourceWrappers returns at this point.
   */
  function ResourcesStep(p: Project, s: SaverState): (r: (bool, SaverState))
    ensures NoBlankMessages(s.errors) ==> NoBlankMessages(r.1.errors)
    ensures s.errors <= r.1.errors && r.1.handovers == s.handovers
    ensures r.0 <==> PlanOf(p).hasResources && !CreateDirectory(s.disk, p.wrapperFolder)
    ensures r.0 ==> r.1 == AddError(s, "Couldn't create folder: " + p.wrapperFolder)
    ensures r.1.disk.readOnly == s.disk.readOnly && r.1.disk.lockedFolders == s.disk.lockedFolders
    ensures !PlanOf(p).hasResources ==> r.1.errors == s.errors && OnlyRemoves(s.disk, r.1.disk)
    ensures !PlanOf(p).hasResources ==> FileSettled(r.1.disk, BinaryDataCpp(p), BinaryData(false), false)
                                        && FileSettled(r.1.disk, BinaryDataH(p), BinaryData(true), false)
    ensures PlanOf(p).hasResources && CreateDirectory(s.disk, p.wrapperFolder)
            ==> !r.0 && (r.1.errors == s.errors
                         || r.1.errors == s.errors + ["Can't create binary resources file: " + FullPathName(BinaryDataCpp(p))])
    ensures PlanOf(p).hasResources && r.1.errors == s.errors
            ==> Holds(r.1.disk, BinaryDataCpp(p), BinaryData(false)) && Holds(r.1.disk, BinaryDataH(p), BinaryData(true))
    ensures forall f :: f != BinaryDataCpp(p) && f != BinaryDataH(p) ==> SameAt(s.disk, r.1.disk, f)
  {
    BinaryDataNames(p);
    if PlanOf(p).hasResources then
      if !CreateDirectory(s.disk, p.wrapperFolder) then
        (true, AddError(s, "Couldn't create folder: " + p.wrapperFolder))
      else
        var (ok, d) := WriteResources(s.disk, BinaryDataCpp(p), BinaryDataH(p));
        var t := s.(disk := d);
        (false, if ok then t else AddError(t, "Can't create binary resources file: " + FullPathName(BinaryDataCpp(p))))
    else
      (false, Delete(Delete(s, BinaryDataCpp(p)), BinaryDataH(p)))
  }

  /** One turn of the wrapper loop: write wrapper i as .cpp and .mm when it applies, else delete both. */
  function WrapperStep(p: Project, i: nat, s: SaverState): (r: SaverState)
    ensures NoBlankMessages(s.errors) ==> NoBlankMessages(r.errors)
    ensures s.errors <= r.errors && r.handovers == s.handovers
    ensures r.disk.readOnly == s.disk.readOnly && r.disk.lockedFolders == s.disk.lockedFolders
  {
    if WrapperApplies(PlanOf(p).numJuceSourceFiles, i) then
      Replace(Replace(s, WrapperCpp(p, i), SourceWrapper(i)), WrapperMM(p, i), SourceWrapper(i))
    else
      Delete(Delete(s, WrapperMM(p, i)), WrapperCpp(p, i))
  }

  /** The wrapper loop from index i up to and including the number of separate amalgamated files. */
  function WrapperLoop(p: Project, i: nat, s: SaverState): (r: SaverState)
    ensures NoBlankMessages(s.errors) ==> NoBlankMessages(r.errors)
    ensures s.errors <= r.errors && r.handovers == s.handovers
    ensures r.disk.readOnly == s.disk.readOnly && r.disk.lockedFolders == s.disk.lockedFolders
    decreases p.numSeparateAmalgamatedFiles + 1 - i
  {
    if i > p.numSeparateAmalgamatedFiles then s
    else WrapperLoop(p, i + 1, WrapperStep(p, i, s))
  }

  /**
   `f` is as a step that writes `doc` when `wanted`, and deletes `f` otherwise,
   must leave it. A read-only file is exempt, as the write to it fails (and is
   logged) and its deletion is ignored.
   */
  predicate FileSettled(d: Disk, f: FilePath, doc: Document, wanted: bool) {
    f !in d.readOnly ==> if wanted then Holds(d, f, doc) else f !in d.files
  }

  /** AppConfig.h is written when the plan wants one and deleted otherwise; nothing else changes. */
  function ConfigStep(p: Project, s: SaverState): (r: SaverState)
    ensures NoBlankMessages(s.errors) ==> NoBlankMessages(r.errors)
    ensures s.errors <= r.errors && r.handovers == s.handovers
    ensures r.disk.readOnly == s.disk.readOnly && r.disk.lockedFolders == s.disk.lockedFolders
    ensures FileSettled(r.disk, AppConfigFile(p), AppConfigHeader, PlanOf(p).hasAppConfigFile)
    ensures PlanOf(p).hasAppConfigFile && r.errors == s.errors ==> Holds(r.disk, AppConfigFile(p), AppConfigHeader)
    ensures forall f :: f != AppConfigFile(p) ==> SameAt(s.disk, r.disk, f)
  {
    if PlanOf(p).hasAppConfigFile then Replace(s, AppConfigFile(p), AppConfigHeader)
    else Delete(s, AppConfigFile(p))
  }

  /** The plugin-characteristics header is written for an audio plug-in; otherwise nothing happens. */
  function PluginStep(p: Project, s: SaverState): (r: SaverState)
    ensures NoBlankMessages(s.errors) ==> NoBlankMessages(r.errors)
    ensures s.errors <= r.errors && r.handovers == s.handovers
    ensures r.disk.readOnly == s.disk.readOnly && r.disk.lockedFolders == s.disk.lockedFolders
    ensures !p.isAudioPlugin ==> r == s
    ensures p.isAudioPlugin ==> FileSettled(r.disk, PluginCharacteristicsFile(p), PluginCharacteristicsHeader, true)
    ensures p.isAudioPlugin && r.errors == s.errors
            ==> Holds(r.disk, PluginCharacteristicsFile(p), PluginCharacteristicsHeader)
    ensures forall f :: f != PluginCharacteristicsFile(p) ==> SameAt(s.disk, r.disk, f)
  {
    if p.isAudioPlugin then Replace(s, PluginCharacteristicsFile(p), PluginCharacteristicsHeader)
    else s
  }

  /** The app header is written when the plan wants one and deleted otherwise; nothing else changes. */
  function AppHeaderStep(p: Project, s: SaverState): (r: SaverState)
    ensures NoBlankMessages(s.errors) ==> NoBlankMessages(r.errors)
    ensures s.errors <= r.errors && r.handovers == s.handovers
    ensures r.disk.readOnly == s.disk.readOnly && r.disk.lockedFolders == s.disk.lockedFolders
    ensures FileSettled(r.disk, p.appIncludeFile, AppHeader, PlanOf(p).hasAppHeaderFile)
    ensures PlanOf(p).hasAppHeaderFile && r.errors == s.errors ==> Holds(r.disk, p.appIncludeFile, AppHeader)
    ensures forall f :: f != p.appIncludeFile ==> SameAt(s.disk, r.disk, f)
  {
    if PlanOf(p).hasAppHeaderFile then Replace(s, p.appIncludeFile, AppHeader)
    else Delete(s, p.appIncludeFile)
  }

  /** The steps of writeJuceSourceWrappers after the wrapper folder has been created. */
  function WriteWrapperFolderContents(p: Project, s: SaverState): (r: SaverState)
    ensures NoBlankMessages(s.errors) ==> NoBlankMessages(r.errors)
    ensures s.errors <= r.errors && r.handovers == s.handovers
  {
    AppHeaderStep(p, WrapperLoop(p, 0, PluginStep(p, ConfigStep(p, s))))
  }

  /**
   writeJuceSourceWrappers: resources first; a library project stops there;
   otherwise the wrapper folder must be created, and then the config header,
   the plugin header, the source wrappers and the app header follow.
   */
  function WriteJuceSourceWrappers(p: Project, s: SaverState): (r: SaverState)
    ensures NoBlankMessages(s.errors) ==> NoBlankMessages(r.errors)
    ensures s.errors <= r.errors && r.handovers == s.handovers
    ensures PlanOf(p).hasResources && !CreateDirectory(s.disk, p.wrapperFolder)
            ==> r == AddError(s, "Couldn't create folder: " + p.wrapperFolder)
    ensures p.isLibrary ==> r == ResourcesStep(p, s).1
    ensures !p.isLibrary && !CreateDirectory(s.disk, p.wrapperFolder)
            ==> r.errors == s.errors + ["Couldn't create folder: " + p.wrapperFolder] && OnlyRemoves(s.disk, r.disk)
  {
    var (stopped, afterResources) := ResourcesStep(p, s);
    if stopped || p.isLibrary then afterResources
    else if !CreateDirectory(afterResources.disk, p.wrapperFolder) then
      AddError(afterResources, "Couldn't create folder: " + p.wrapperFolder)
    else WriteWrapperFolderContents(p, afterResources)
  }

  /** Wrapper files i, i+1, … up to the number of separate amalgamated files, as one exporter is given them. */
  function WrapperFileList(p: Project, usesMMFiles: bool, i: nat): (files: seq<FilePath>)
    decreases p.numSeparateAmalgamatedFiles + 1 - i
  {
    if i > p.numSeparateAmalgamatedFiles then []
    else
      var n := PlanOf(p).numJuceSourceFiles;
      var here := if (i == 0 && n == 1) || (i != 0 && n > 1)
                  then [if usesMMFiles then WrapperMM(p, i) else WrapperCpp(p, i)] else [];
      here + WrapperFileList(p, usesMMFiles, i + 1)
  }

  /** The list writeProjects builds for one exporter before calling its create(). */
  function WrapperFilesFor(p: Project, e: Exporter): (files: seq<FilePath>)
    ensures PlanOf(p).hasAppConfigFile ==> AppConfigFile(p) in files
    ensures PlanOf(p).hasAppHeaderFile ==> p.appIncludeFile in files
    ensures PlanOf(p).hasResources ==> BinaryDataCpp(p) in files && BinaryDataH(p) in files
    ensures p.isAudioPlugin ==> PluginCharacteristicsFile(p) in files
  {
    var plan := PlanOf(p);
    (if plan.hasAppConfigFile then [AppConfigFile(p)] else [])
    + (if plan.hasAppHeaderFile then [p.appIncludeFile] else [])
    + (if plan.hasResources then [BinaryDataCpp(p), BinaryDataH(p)] else [])
    + (if plan.numJuceSourceFiles > 0 then WrapperFileList(p, e.usesMMFiles, 0) else [])
    + (if p.isAudioPlugin then [PluginCharacteristicsFile(p)] else [])
  }

  /** The list holds nothing but the files the plan asks for and the applying wrappers' .cpp or .mm. */
  lemma {:induction false} WrapperFilesForOnly(p: Project, e: Exporter, f: FilePath)
    requires f in WrapperFilesFor(p, e)
    ensures || (PlanOf(p).numJuceSourceFiles > 0 && f in WrapperFileList(p, e.usesMMFiles, 0))
            || (PlanOf(p).hasAppConfigFile && f == AppConfigFile(p))
            || (PlanOf(p).hasAppHeaderFile && f == p.appIncludeFile)
            || (PlanOf(p).hasResources && (f == BinaryDataCpp(p) || f == BinaryDataH(p)))
            || (p.isAudioPlugin && f == PluginCharacteristicsFile(p))
  {
  }

  /** The messages exporter k adds: one if its folder cannot be created or create() throws, none otherwise. */
  function ExporterMessages(p: Project, d: Disk, k: nat): (ms: seq<string>)
    requires k < |p.exporters|
    ensures |ms| <= 1
    ensures |ms| == 0 <==> CreateDirectory(d, p.exporters[k].targetFolder) && p.exporters[k].saveError.None?
  {
    var e := p.exporters[k];
    if !CreateDirectory(d, e.targetFolder) then ["Can't create folder: " + e.targetFolder]
    else match e.saveError
      case Some(m) => [m]
      case None => []
  }

  /** The hand-over exporter k receives: present exactly when its target folder can be created. */
  function ExporterHandovers(p: Project, d: Disk, k: nat): seq<Handover>
    requires k < |p.exporters|
  {
    if CreateDirectory(d, p.exporters[k].targetFolder) then [Handover(k, WrapperFilesFor(p, p.exporters[k]))] else []
  }

  /** All messages of exporters n-1 down to 0, each exporter's judged on its own. */
  function ExportMessages(p: Project, d: Disk, n: nat): seq<string>
    requires n <= |p.exporters|
  {
    if n == 0 then [] else ExporterMessages(p, d, n - 1) + ExportMessages(p, d, n - 1)
  }

  /** All hand-overs of exporters n-1 down to 0. */
  function ExportHandovers(p: Project, d: Disk, n: nat): seq<Handover>
    requires n <= |p.exporters|
  {
    if n == 0 then [] else ExporterHandovers(p, d, n - 1) + ExportHandovers(p, d, n - 1)
  }

  /** True when `f` sits on the disk with document `doc`. */
  predicate Holds(d: Disk, f: FilePath, doc: Document) {
    f in d.files && d.files[f] == doc
  }

  /** `f` has the same presence and content on both disks. */
  predicate SameAt(d1: Disk, d2: Disk, f: FilePath) {
    (f in d1.files <==> f in d2.files) && (f in d1.files ==> d1.files[f] == d2.files[f])
  }

  /**
   The state wrapper j must be left in: when it applies, both its .cpp and its
   .mm hold the wrapper document; otherwise neither exists. A read-only file
   is exempt, as the write to it fails (and is logged) and its deletion is ignored.
   */
  predicate WrapperSettled(p: Project, d: Disk, j: nat) {
    var applies := WrapperApplies(PlanOf(p).numJuceSourceFiles, j);
    FileSettled(d, WrapperCpp(p, j), SourceWrapper(j), applies) && FileSettled(d, WrapperMM(p, j), SourceWrapper(j), applies)
  }

  /** A root without '.' gives every wrapper file its own name. */
  predicate DotFreeRoot(p: Project) {
    forall k :: 0 <= k < |p.juceSourceFilenameRoot| ==> p.juceSourceFilenameRoot[k] != '.'
  }

  /** `f` is not the .cpp or .mm of any wrapper from index i on. */
  predicate NotAWrapperFrom(p: Project, f: FilePath, i: nat) {
    forall j: nat :: i <= j <= p.numSeparateAmalgamatedFiles ==> f != WrapperCpp(p, j) && f != WrapperMM(p, j)
  }

  /** One turn of the loop changes no file but wrapper i's .cpp and .mm. */
  lemma {:induction false} WrapperStepFrame(p: Project, i: nat, s: SaverState, f: FilePath)
    requires f != WrapperCpp(p, i) && f != WrapperMM(p, i)
    ensures SameAt(s.disk, WrapperStep(p, i, s).disk, f)
  {
  }

  /** One turn of the loop settles wrapper i and leaves every other file alone. */
  lemma {:induction false} WrapperStepSettles(p: Project, i: nat, s: SaverState)
    requires DotFreeRoot(p)
    ensures WrapperSettled(p, WrapperStep(p, i, s).disk, i)
    ensures forall f :: f != WrapperCpp(p, i) && f != WrapperMM(p, i) ==> SameAt(s.disk, WrapperStep(p, i, s).disk, f)
    ensures WrapperApplies(PlanOf(p).numJuceSourceFiles, i) && WrapperStep(p, i, s).errors == s.errors
            ==> Holds(WrapperStep(p, i, s).disk, WrapperCpp(p, i), SourceWrapper(i))
                && Holds(WrapperStep(p, i, s).disk, WrapperMM(p, i), SourceWrapper(i))
  {
    WrapperNamesDistinct(p.wrapperFolder, p.juceSourceFilenameRoot, i, i);
  }

  /** The loop from index i on touches only the wrappers from index i on. */
  lemma {:induction false} WrapperLoopFrame(p: Project, i: nat, s: SaverState, f: FilePath)
    requires NotAWrapperFrom(p, f, i)
    ensures SameAt(s.disk, WrapperLoop(p, i, s).disk, f)
    decreases p.numSeparateAmalgamatedFiles + 1 - i
  {
    if i <= p.numSeparateAmalgamatedFiles {
      var t := WrapperStep(p, i, s);
      WrapperStepFrame(p, i, s, f);
      assert NotAWrapperFrom(p, f, i + 1);
      WrapperLoopFrame(p, i + 1, t, f);
    }
  }

  /** After the loop from index i, every wrapper j with i <= j <= n is settled. */
  lemma {:induction false} WrapperLoopSettles(p: Project, i: nat, s: SaverState, j: nat)
    requires DotFreeRoot(p)
    requires i <= j <= p.numSeparateAmalgamatedFiles
    ensures WrapperSettled(p, WrapperLoop(p, i, s).disk, j)
    decreases p.numSeparateAmalgamatedFiles + 1 - i
  {
    var t := WrapperStep(p, i, s);
    assert WrapperLoop(p, i, s) == WrapperLoop(p, i + 1, t);
    if i == j {
      StepThenKeepSettled(p, i, s);
    } else {
      WrapperLoopSettles(p, i + 1, t, j);
    }
  }

  /** The turn for wrapper i settles it, and the turns after it keep it settled. */
  lemma {:induction false} StepThenKeepSettled(p: Project, i: nat, s: SaverState)
    requires DotFreeRoot(p)
    ensures WrapperSettled(p, WrapperLoop(p, i + 1, WrapperStep(p, i, s)).disk, i)
  {
    WrapperStepSettles(p, i, s);
    LaterWrappersKeepSettled(p, i, WrapperStep(p, i, s));
  }

  /** Once wrapper j is settled, the rest of the loop (indices above j) leaves it so. */
  lemma {:induction false} LaterWrappersKeepSettled(p: Project, j: nat, t: SaverState)
    requires DotFreeRoot(p)
    requires WrapperSettled(p, t.disk, j)
    ensures WrapperSettled(p, WrapperLoop(p, j + 1, t).disk, j)
  {
    NotALaterWrapper(p, j, WrapperCpp(p, j));
    NotALaterWrapper(p, j, WrapperMM(p, j));
    WrapperLoopFrame(p, j + 1, t, WrapperCpp(p, j));
    WrapperLoopFrame(p, j + 1, t, WrapperMM(p, j));
  }

  lemma {:induction false} NotALaterWrapper(p: Project, j: nat, f: FilePath)
    requires DotFreeRoot(p)
    requires f == WrapperCpp(p, j) || f == WrapperMM(p, j)
    ensures NotAWrapperFrom(p, f, j + 1)
  {
    forall k: nat | j + 1 <= k <= p.numSeparateAmalgamatedFiles
      ensures f != WrapperCpp(p, k) && f != WrapperMM(p, k)
    {
      WrapperNamesDistinct(p.wrapperFolder, p.juceSourceFilenameRoot, j, k);
      WrapperNamesDistinct(p.wrapperFolder, p.juceSourceFilenameRoot, k, j);
    }
  }

  /**
   For a program project whose wrapper folder can be created, writeJuceSourceWrappers
   leaves every wrapper 0..n settled: written as .cpp and .mm exactly when
   it applies, deleted otherwise. The app header must not share a name with a wrapper.
   */
  lemma {:induction false} WrappersWrittenOrDeleted(p: Project, s: SaverState, j: nat)
    requires DotFreeRoot(p)
    requires !p.isLibrary && CreateDirectory(s.disk, p.wrapperFolder)
    requires NotAWrapperFrom(p, p.appIncludeFile, 0)
    requires j <= p.numSeparateAmalgamatedFiles
    ensures WrapperSettled(p, WriteJuceSourceWrappers(p, s).disk, j)
  {
    var afterResources := ResourcesStep(p, s).1;
    assert WriteJuceSourceWrappers(p, s) == WriteWrapperFolderContents(p, afterResources);
    FolderContentsSettle(p, afterResources, j);
  }

  /** Inside the wrapper folder, the loop settles wrapper j and the app-header step leaves it settled. */
  lemma {:induction false} FolderContentsSettle(p: Project, s: SaverState, j: nat)
    requires DotFreeRoot(p)
    requires NotAWrapperFrom(p, p.appIncludeFile, 0)
    requires j <= p.numSeparateAmalgamatedFiles
    ensures WrapperSettled(p, WriteWrapperFolderContents(p, s).disk, j)
  {
    var withWrappers := WrapperLoop(p, 0, PluginStep(p, ConfigStep(p, s)));
    WrapperLoopSettles(p, 0, PluginStep(p, ConfigStep(p, s)), j);
    assert p.appIncludeFile != WrapperCpp(p, j) && p.appIncludeFile != WrapperMM(p, j);
    assert SameAt(withWrappers.disk, AppHeaderStep(p, withWrappers).disk, WrapperCpp(p, j));
    assert SameAt(withWrappers.disk, AppHeaderStep(p, withWrappers).disk, WrapperMM(p, j));
  }

  /**
   For a program project whose wrapper folder can be created, AppConfig.h ends up
   written when the plan wants one and deleted otherwise. No later step may write
   a file of the same name.
   */
  lemma {:induction false} AppConfigWrittenOrDeleted(p: Project, s: SaverState)
    requires !p.isLibrary && CreateDirectory(s.disk, p.wrapperFolder)
    requires NotAWrapperFrom(p, AppConfigFile(p), 0) && AppConfigFile(p) != p.appIncludeFile
    requires p.isAudioPlugin ==> AppConfigFile(p) != PluginCharacteristicsFile(p)
    ensures FileSettled(WriteJuceSourceWrappers(p, s).disk, AppConfigFile(p), AppConfigHeader, PlanOf(p).hasAppConfigFile)
  {
    var f := AppConfigFile(p);
    var configured := ConfigStep(p, ResourcesStep(p, s).1);
    var withPlugin := PluginStep(p, configured);
    var withWrappers := WrapperLoop(p, 0, withPlugin);
    assert WriteJuceSourceWrappers(p, s) == AppHeaderStep(p, withWrappers);
    assert SameAt(configured.disk, withPlugin.disk, f);
    WrapperLoopFrame(p, 0, withPlugin, f);
    assert SameAt(withWrappers.disk, AppHeaderStep(p, withWrappers).disk, f);
  }

  /**
   Without resources, BinaryData.cpp and BinaryData.h end up deleted (read-only
   files excepted), whatever kind of project it is and whether or not the
   wrapper folder can be created.
   */
  lemma {:induction false} BinaryDataDeleted(p: Project, s: SaverState)
    requires DistinctOutputs(p)
    requires !PlanOf(p).hasResources
    ensures FileSettled(WriteJuceSourceWrappers(p, s).disk, BinaryDataCpp(p), BinaryData(false), false)
    ensures FileSettled(WriteJuceSourceWrappers(p, s).disk, BinaryDataH(p), BinaryData(true), false)
  {
    var afterResources := ResourcesStep(p, s).1;
    if !p.isLibrary && CreateDirectory(s.disk, p.wrapperFolder) {
      assert WriteJuceSourceWrappers(p, s) == WriteWrapperFolderContents(p, afterResources);
      FolderKeepsBinaryData(p, afterResources, BinaryDataCpp(p));
      FolderKeepsBinaryData(p, afterResources, BinaryDataH(p));
    }
  }

  /**
   For a program project whose wrapper folder can be created, the plug-in header
   ends up written for an audio plug-in. For any other project it is neither
   written nor deleted: a stale one stays.
   */
  lemma {:induction false} PluginHeaderWrittenOrKept(p: Project, s: SaverState)
    requires DistinctOutputs(p)
    requires !p.isLibrary && CreateDirectory(s.disk, p.wrapperFolder)
    ensures var d := WriteJuceSourceWrappers(p, s).disk;
            p.isAudioPlugin ==> FileSettled(d, PluginCharacteristicsFile(p), PluginCharacteristicsHeader, true)
    ensures !p.isAudioPlugin ==> SameAt(s.disk, WriteJuceSourceWrappers(p, s).disk, PluginCharacteristicsFile(p))
  {
    var afterResources := ResourcesStep(p, s).1;
    assert WriteJuceSourceWrappers(p, s) == WriteWrapperFolderContents(p, afterResources);
    assert SameAt(s.disk, afterResources.disk, PluginCharacteristicsFile(p));
    FolderPluginHeader(p, afterResources);
  }

  /** Inside the wrapper folder the plug-in header is written for a plug-in and left alone otherwise. */
  lemma {:induction false} FolderPluginHeader(p: Project, t: SaverState)
    requires DistinctOutputs(p)
    ensures var d := WriteWrapperFolderContents(p, t).disk;
            p.isAudioPlugin ==> FileSettled(d, PluginCharacteristicsFile(p), PluginCharacteristicsHeader, true)
    ensures !p.isAudioPlugin ==> SameAt(t.disk, WriteWrapperFolderContents(p, t).disk, PluginCharacteristicsFile(p))
  {
    var f := PluginCharacteristicsFile(p);
    var configured := ConfigStep(p, t);
    var withPlugin := PluginStep(p, configured);
    var withWrappers := WrapperLoop(p, 0, withPlugin);
    assert SameAt(t.disk, configured.disk, f);
    WrapperLoopFrame(p, 0, withPlugin, f);
    assert SameAt(withWrappers.disk, AppHeaderStep(p, withWrappers).disk, f);
  }

  /**
   For a program project whose wrapper folder can be created, the app header
   ends up written when the plan wants one and deleted otherwise.
   */
  lemma {:induction false} AppHeaderWrittenOrDeleted(p: Project, s: SaverState)
    requires !p.isLibrary && CreateDirectory(s.disk, p.wrapperFolder)
    ensures FileSettled(WriteJuceSourceWrappers(p, s).disk, p.appIncludeFile, AppHeader, PlanOf(p).hasAppHeaderFile)
  {
    var withWrappers := WrapperLoop(p, 0, PluginStep(p, ConfigStep(p, ResourcesStep(p, s).1)));
    assert WriteJuceSourceWrappers(p, s) == AppHeaderStep(p, withWrappers);
  }

  /** The wrapper file an exporter is given for index j: the .mm twin if it compiles those, else the .cpp. */
  function WrapperFor(p: Project, usesMMFiles: bool, j: nat): FilePath {
    if usesMMFiles then WrapperMM(p, j) else WrapperCpp(p, j)
  }

  /** The exporter's list from index i on names wrapper j exactly when i <= j <= n and wrapper j applies. */
  lemma {:induction false} WrapperFileListMembers(p: Project, usesMMFiles: bool, i: nat, j: nat)
    requires DotFreeRoot(p)
    ensures WrapperFor(p, usesMMFiles, j) in WrapperFileList(p, usesMMFiles, i)
            <==> i <= j <= p.numSeparateAmalgamatedFiles && WrapperApplies(PlanOf(p).numJuceSourceFiles, j)
    decreases p.numSeparateAmalgamatedFiles + 1 - i
  {
    if i <= p.numSeparateAmalgamatedFiles {
      WrapperNamesDistinct(p.wrapperFolder, p.juceSourceFilenameRoot, i, j);
      WrapperFileListMembers(p, usesMMFiles, i + 1, j);
      var n := PlanOf(p).numJuceSourceFiles;
      if n <= 0 {
        NoWrappersListed(p, usesMMFiles, i);
      }
    }
  }

  lemma {:induction false} NoWrappersListed(p: Project, usesMMFiles: bool, i: nat)
    requires PlanOf(p).numJuceSourceFiles <= 0
    ensures WrapperFileList(p, usesMMFiles, i) == []
    decreases p.numSeparateAmalgamatedFiles + 1 - i
  {
    if i <= p.numSeparateAmalgamatedFiles {
      assert PlanOf(p).numJuceSourceFiles == 0;
      NoWrappersListed(p, usesMMFiles, i + 1);
    }
  }

  /**
   Each exporter is handed exactly the wrappers the wrapper loop writes: wrapper j
   (as .mm or .cpp, per the exporter) is in its list exactly when wrapper j
   applies. The other files in the list must not share a name with a wrapper.
   */
  lemma {:induction false} HandedOverWrappersMatchWritten(p: Project, e: Exporter, j: nat)
    requires DotFreeRoot(p)
    requires j <= p.numSeparateAmalgamatedFiles
    requires var f := WrapperFor(p, e.usesMMFiles, j);
             f != AppConfigFile(p) && f != p.appIncludeFile && f != BinaryDataCpp(p)
             && f != BinaryDataH(p) && f != PluginCharacteristicsFile(p)
    ensures WrapperFor(p, e.usesMMFiles, j) in WrapperFilesFor(p, e) <==> WrapperApplies(PlanOf(p).numJuceSourceFiles, j)
  {
    WrapperFileListMembers(p, e.usesMMFiles, 0, j);
  }

  /**
   The named files of the wrapper folder have pairwise different names, and none
   of them is a numbered wrapper.
   */
  predicate DistinctOutputs(p: Project) {
    var config := AppConfigFile(p);
    var plugin := PluginCharacteristicsFile(p);
    var cpp := BinaryDataCpp(p);
    var h := BinaryDataH(p);
    var app := p.appIncludeFile;
    && config != plugin && config != app && plugin != app
    && cpp != config && cpp != plugin && cpp != app
    && h != config && h != plugin && h != app
    && NotAWrapperFrom(p, config, 0) && NotAWrapperFrom(p, plugin, 0) && NotAWrapperFrom(p, app, 0)
    && NotAWrapperFrom(p, cpp, 0) && NotAWrapperFrom(p, h, 0)
  }

  /** Every file in the exporter's wrapper list from index i is an applying wrapper j from index i on. */
  lemma {:induction false} WrapperFileListIndex(p: Project, usesMMFiles: bool, i: nat, f: FilePath) returns (j: nat)
    requires f in WrapperFileList(p, usesMMFiles, i)
    ensures i <= j <= p.numSeparateAmalgamatedFiles && WrapperApplies(PlanOf(p).numJuceSourceFiles, j)
    ensures f == WrapperFor(p, usesMMFiles, j)
    decreases p.numSeparateAmalgamatedFiles + 1 - i
  {
    var n := PlanOf(p).numJuceSourceFiles;
    if f in (if (i == 0 && n == 1) || (i != 0 && n > 1) then [WrapperFor(p, usesMMFiles, i)] else []) {
      j := i;
    } else {
      j := WrapperFileListIndex(p, usesMMFiles, i + 1, f);
    }
  }

  /** A loop from index i that logs nothing leaves every applying wrapper j >= i written as .cpp and .mm. */
  lemma {:induction false} CleanLoopWritesWrappers(p: Project, i: nat, s: SaverState, j: nat)
    requires DotFreeRoot(p)
    requires i <= j <= p.numSeparateAmalgamatedFiles && WrapperApplies(PlanOf(p).numJuceSourceFiles, j)
    requires WrapperLoop(p, i, s).errors == s.errors
    ensures Holds(WrapperLoop(p, i, s).disk, WrapperCpp(p, j), SourceWrapper(j))
    ensures Holds(WrapperLoop(p, i, s).disk, WrapperMM(p, j), SourceWrapper(j))
    decreases p.numSeparateAmalgamatedFiles + 1 - i
  {
    var t := WrapperStep(p, i, s);
    assert WrapperLoop(p, i, s) == WrapperLoop(p, i + 1, t);
    assert t.errors == s.errors;
    if i == j {
      WrapperStepSettles(p, i, s);
      NotALaterWrapper(p, i, WrapperCpp(p, i));
      NotALaterWrapper(p, i, WrapperMM(p, i));
      WrapperLoopFrame(p, i + 1, t, WrapperCpp(p, i));
      WrapperLoopFrame(p, i + 1, t, WrapperMM(p, i));
    } else {
      CleanLoopWritesWrappers(p, i + 1, t, j);
    }
  }

  /**
   When writeJuceSourceWrappers logs nothing for a program project, every file
   any exporter is then handed is on the disk.
   */
  lemma {:induction false} CleanWrappersHoldHandedFiles(p: Project, s: SaverState, e: Exporter)
    requires DistinctOutputs(p) && DotFreeRoot(p)
    requires !p.isLibrary
    requires WriteJuceSourceWrappers(p, s).errors == s.errors
    ensures forall f :: f in WrapperFilesFor(p, e) ==> f in WriteJuceSourceWrappers(p, s).disk.files
  {
    var (stopped, afterResources) := ResourcesStep(p, s);
    assert !stopped && CreateDirectory(s.disk, p.wrapperFolder);
    assert WriteJuceSourceWrappers(p, s) == WriteWrapperFolderContents(p, afterResources);
    forall f | f in WrapperFilesFor(p, e) ensures f in WriteWrapperFolderContents(p, afterResources).disk.files {
      FolderHoldsListed(p, afterResources, e, f);
    }
  }

  /**
   Inside the wrapper folder: when the steps log nothing and the binary data is
   already there, every listed file is on the disk afterwards.
   */
  lemma {:induction false} FolderHoldsListed(p: Project, t: SaverState, e: Exporter, f: FilePath)
    requires DistinctOutputs(p) && DotFreeRoot(p)
    requires WriteWrapperFolderContents(p, t).errors == t.errors
    requires PlanOf(p).hasResources ==> BinaryDataCpp(p) in t.disk.files && BinaryDataH(p) in t.disk.files
    requires f in WrapperFilesFor(p, e)
    ensures f in WriteWrapperFolderContents(p, t).disk.files
  {
    var plan := PlanOf(p);
    WrapperFilesForOnly(p, e, f);
    if f in WrapperFileList(p, e.usesMMFiles, 0) {
      var j := WrapperFileListIndex(p, e.usesMMFiles, 0, f);
      CleanFolderHoldsWrapper(p, t, j);
    } else if f == p.appIncludeFile {
      assert plan.hasAppHeaderFile;
    } else if f == AppConfigFile(p) {
      CleanFolderHoldsConfig(p, t);
    } else if f == PluginCharacteristicsFile(p) {
      CleanFolderHoldsPlugin(p, t);
    } else {
      assert plan.hasResources && (f == BinaryDataCpp(p) || f == BinaryDataH(p));
      FolderKeepsBinaryData(p, t, f);
    }
  }

  /** When the steps inside the wrapper folder log nothing, neither does any one of them. */
  lemma {:induction false} CleanFolderSteps(p: Project, t: SaverState)
    requires WriteWrapperFolderContents(p, t).errors == t.errors
    ensures var configured := ConfigStep(p, t);
            var withPlugin := PluginStep(p, configured);
            var withWrappers := WrapperLoop(p, 0, withPlugin);
            && configured.errors == t.errors && withPlugin.errors == t.errors && withWrappers.errors == t.errors
            && AppHeaderStep(p, withWrappers).errors == t.errors
  {
  }

  lemma {:induction false} CleanFolderHoldsConfig(p: Project, t: SaverState)
    requires DistinctOutputs(p) && PlanOf(p).hasAppConfigFile
    requires WriteWrapperFolderContents(p, t).errors == t.errors
    ensures AppConfigFile(p) in WriteWrapperFolderContents(p, t).disk.files
  {
    var f := AppConfigFile(p);
    var configured := ConfigStep(p, t);
    var withPlugin := PluginStep(p, configured);
    var withWrappers := WrapperLoop(p, 0, withPlugin);
    CleanFolderSteps(p, t);
    assert SameAt(configured.disk, withPlugin.disk, f);
    WrapperLoopFrame(p, 0, withPlugin, f);
    assert SameAt(withWrappers.disk, AppHeaderStep(p, withWrappers).disk, f);
  }

  lemma {:induction false} CleanFolderHoldsPlugin(p: Project, t: SaverState)
    requires DistinctOutputs(p) && p.isAudioPlugin
    requires WriteWrapperFolderContents(p, t).errors == t.errors
    ensures PluginCharacteristicsFile(p) in WriteWrapperFolderContents(p, t).disk.files
  {
    var f := PluginCharacteristicsFile(p);
    var withPlugin := PluginStep(p, ConfigStep(p, t));
    var withWrappers := WrapperLoop(p, 0, withPlugin);
    CleanFolderSteps(p, t);
    WrapperLoopFrame(p, 0, withPlugin, f);
    assert SameAt(withWrappers.disk, AppHeaderStep(p, withWrappers).disk, f);
  }

  lemma {:induction false} CleanFolderHoldsWrapper(p: Project, t: SaverState, j: nat)
    requires DistinctOutputs(p) && DotFreeRoot(p)
    requires j <= p.numSeparateAmalgamatedFiles && WrapperApplies(PlanOf(p).numJuceSourceFiles, j)
    requires WriteWrapperFolderContents(p, t).errors == t.errors
    ensures WrapperCpp(p, j) in WriteWrapperFolderContents(p, t).disk.files
    ensures WrapperMM(p, j) in WriteWrapperFolderContents(p, t).disk.files
  {
    var withPlugin := PluginStep(p, ConfigStep(p, t));
    var withWrappers := WrapperLoop(p, 0, withPlugin);
    CleanFolderSteps(p, t);
    CleanLoopWritesWrappers(p, 0, withPlugin, j);
    assert p.appIncludeFile != WrapperCpp(p, j) && p.appIncludeFile != WrapperMM(p, j);
    assert SameAt(withWrappers.disk, AppHeaderStep(p, withWrappers).disk, WrapperCpp(p, j));
    assert SameAt(withWrappers.disk, AppHeaderStep(p, withWrappers).disk, WrapperMM(p, j));
  }

  /** The steps inside the wrapper folder leave the binary-data files alone. */
  lemma {:induction false} FolderKeepsBinaryData(p: Project, t: SaverState, f: FilePath)
    requires DistinctOutputs(p)
    requires f == BinaryDataCpp(p) || f == BinaryDataH(p)
    ensures SameAt(t.disk, WriteWrapperFolderContents(p, t).disk, f)
  {
    var configured := ConfigStep(p, t);
    var withPlugin := PluginStep(p, configured);
    var withWrappers := WrapperLoop(p, 0, withPlugin);
    assert SameAt(t.disk, configured.disk, f) && SameAt(configured.disk, withPlugin.disk, f);
    WrapperLoopFrame(p, 0, withPlugin, f);
    assert SameAt(withWrappers.disk, AppHeaderStep(p, withWrappers).disk, f);
  }

  /**
   A library project stops writeJuceSourceWrappers after the resources step, yet
   the exporters are still handed AppConfig.h: with no resources and no config
   header on the disk, the step logs nothing and the listed file is missing.
   */
  lemma {:induction false} LibraryHandsOverUnwrittenConfig(p: Project, s: SaverState, e: Exporter)
    requires p.isLibrary && p.mode != NotLinkedToJuce && p.numResourceFiles <= 0
    requires AppConfigFile(p) !in s.disk.files
    ensures WriteJuceSourceWrappers(p, s).errors == s.errors
    ensures AppConfigFile(p) in WrapperFilesFor(p, e)
    ensures AppConfigFile(p) !in WriteJuceSourceWrappers(p, s).disk.files
  {
    assert WrapperFilesFor(p, e)[0] == AppConfigFile(p);
  }

  /** Every hand-over of the first n exporters is one exporter's index with the list built for it. */
  lemma {:induction false} HandoversAreExporterLists(p: Project, d: Disk, n: nat, h: Handover)
    requires n <= |p.exporters|
    requires h in ExportHandovers(p, d, n)
    ensures h.exporter < n && h.wrapperFiles == WrapperFilesFor(p, p.exporters[h.exporter])
  {
    if h in ExporterHandovers(p, d, n - 1) {
      ExporterHandoverShape(p, d, n - 1, h);
    } else {
      HandoversAreExporterLists(p, d, n - 1, h);
    }
  }

  lemma {:induction false} ExporterHandoverShape(p: Project, d: Disk, k: nat, h: Handover)
    requires k < |p.exporters|
    requires h in ExporterHandovers(p, d, k)
    ensures h.exporter == k && h.wrapperFiles == WrapperFilesFor(p, p.exporters[k])
  {
  }

  /** The exporters judged failing among the first n. */
  function FailingExporters(p: Project, d: Disk, n: nat): set<nat>
    requires n <= |p.exporters|
  {
    set k: nat | k < n && !(CreateDirectory(d, p.exporters[k].targetFolder) && p.exporters[k].saveError.None?)
  }

  /**
   Failures are isolated: the export phase logs exactly one message per failing
   exporter, so one broken exporter costs one message and the others still run.
   */
  lemma {:induction false} OneMessagePerFailingExporter(p: Project, d: Disk, n: nat)
    requires n <= |p.exporters|
    ensures |ExportMessages(p, d, n)| == |FailingExporters(p, d, n)|
  {
    if n > 0 {
      OneMessagePerFailingExporter(p, d, n - 1);
      var before := FailingExporters(p, d, n - 1);
      var after := FailingExporters(p, d, n);
      if |ExporterMessages(p, d, n - 1)| == 0 {
        assert after == before;
      } else {
        assert after == before + {n - 1};
        assert n - 1 !in before;
      }
    }
  }

  /**
   Every exporter whose target folder can be created is handed its wrapper files
   and run, whatever the others do; no other exporter is.
   */
  lemma {:induction false} EveryReachableExporterRuns(p: Project, d: Disk, n: nat, k: nat)
    requires n <= |p.exporters| && k < |p.exporters|
    ensures Handover(k, WrapperFilesFor(p, p.exporters[k])) in ExportHandovers(p, d, n)
            <==> k < n && CreateDirectory(d, p.exporters[k].targetFolder)
  {
    if n > 0 {
      EveryReachableExporterRuns(p, d, n - 1, k);
    }
  }

  /** When no exporter throws an empty message, every message the export phase logs is non-empty. */
  lemma {:induction false} ExportMessagesNotBlank(p: Project, d: Disk, n: nat)
    requires n <= |p.exporters|
    requires forall k :: 0 <= k < |p.exporters| ==> p.exporters[k].saveError != Some("")
    ensures NoBlankMessages(ExportMessages(p, d, n))
  {
    if n > 0 {
      ExportMessagesNotBlank(p, d, n - 1);
      var ms := ExporterMessages(p, d, n - 1);
      assert NoBlankMessages(ms);
    }
  }

  /**
   writeProjects: every exporter, from the last to the first, gets its target
   folder created, its wrapper files and a create() call. A failure is logged
   and the loop goes on with the next exporter; the disk is not changed here.
   */
  method WriteProjects(p: Project, s: SaverState) returns (r: SaverState)
    ensures r.disk == s.disk
    ensures r.errors == s.errors + ExportMessages(p, s.disk, |p.exporters|)
    ensures r.handovers == s.handovers + ExportHandovers(p, s.disk, |p.exporters|)
  {
    r := s;
    var i := |p.exporters|;
    while i > 0
      invariant 0 <= i <= |p.exporters|
      invariant r.disk == s.disk
      invariant r.errors + ExportMessages(p, s.disk, i) == s.errors + ExportMessages(p, s.disk, |p.exporters|)
      invariant r.handovers + ExportHandovers(p, s.disk, i) == s.handovers + ExportHandovers(p, s.disk, |p.exporters|)
    {
      i := i - 1;
      var before := r;
      assert ExportMessages(p, s.disk, i + 1) == ExporterMessages(p, s.disk, i) + ExportMessages(p, s.disk, i);
      assert ExportHandovers(p, s.disk, i + 1) == ExporterHandovers(p, s.disk, i) + ExportHandovers(p, s.disk, i);
      r := WriteProject(p, i, r);
      ConcatAssoc(before.errors, ExporterMessages(p, s.disk, i), ExportMessages(p, s.disk, i));
      ConcatAssoc(before.handovers, ExporterHandovers(p, s.disk, i), ExportHandovers(p, s.disk, i));
    }
  }

  lemma {:induction false} ConcatAssoc<T>(a: seq<T>, b: seq<T>, c: seq<T>)
    ensures (a + b) + c == a + (b + c)
  {
  }

  /** The body of the writeProjects loop for exporter k. */
  method WriteProject(p: Project, k: nat, s: SaverState) returns (r: SaverState)
    requires k < |p.exporters|
    ensures r.disk == s.disk
    ensures r.errors == s.errors + ExporterMessages(p, s.disk, k)
    ensures r.handovers == s.handovers + ExporterHandovers(p, s.disk, k)
  {
    var e := p.exporters[k];
    r := s;
    if CreateDirectory(r.disk, e.targetFolder) {
      r := r.(handovers := r.handovers + [Handover(k, WrapperFilesFor(p, e))]);
      match e.saveError {
        case Some(m) => r := AddError(r, m);
        case None =>
      }
    } else {
      r := AddError(r, "Can't create folder: " + e.targetFolder);
    }
  }

  /**
   The save driver. The project's file is set to the target for the duration;
   the wrappers are written only if the project file was, the exporters run
   only if the wrappers were written without error, any error restores the
   project's previous file, and the result is the first message or "".
   */
  method Save(p: Project, projectFile: FilePath, oldFile: FilePath, disk: Disk)
    returns (result: string, fileAfter: FilePath, state: SaverState)
    ensures var main := WriteMainProjectFile(projectFile, SaverState(disk, [], []));
            var wrappers := WriteJuceSourceWrappers(p, main);
            && (|main.errors| > 0 ==> state == main)
            && (|main.errors| == 0 && |wrappers.errors| > 0 ==> state == wrappers)
            && (|main.errors| == 0 && |wrappers.errors| == 0 ==>
                  state.disk == wrappers.disk
                  && state.errors == ExportMessages(p, wrappers.disk, |p.exporters|)
                  && state.handovers == ExportHandovers(p, wrappers.disk, |p.exporters|))
    ensures fileAfter == (if |state.errors| > 0 then oldFile else projectFile)
    ensures |state.errors| == 0 ==> result == ""
    ensures |state.errors| > 0 ==> result == state.errors[0]
    ensures !Holds(disk, projectFile, ProjectXml) && projectFile in disk.readOnly
            ==> result == "Couldn't write to the target file!" && fileAfter == oldFile
                && state.disk == disk && state.handovers == []
    ensures (forall k :: 0 <= k < |p.exporters| ==> p.exporters[k].saveError != Some(""))
            ==> (result == "" <==> |state.errors| == 0)
    ensures !p.isLibrary && DistinctOutputs(p) && DotFreeRoot(p) && |state.errors| == 0
            ==> forall h :: h in state.handovers ==> forall f :: f in h.wrapperFiles ==> f in state.disk.files
  {
    var currentFile := projectFile;
    state := SaverState(disk, [], []);
    state := WriteMainProjectFile(projectFile, state);
    ghost var main := state;
    if |state.errors| == 0 {
      state := WriteJuceSourceWrappers(p, state);
    }
    if |state.errors| == 0 {
      ghost var before := state;
      state := WriteProjects(p, state);
      if forall k :: 0 <= k < |p.exporters| ==> p.exporters[k].saveError != Some("") {
        ExportMessagesNotBlank(p, before.disk, |p.exporters|);
      }
      if !p.isLibrary && DistinctOutputs(p) && DotFreeRoot(p) {
        forall h | h in state.handovers ensures forall f :: f in h.wrapperFiles ==> f in state.disk.files {
          HandoversAreExporterLists(p, before.disk, |p.exporters|, h);
          CleanWrappersHoldHandedFiles(p, main, p.exporters[h.exporter]);
        }
      }
    }
    if |state.errors| > 0 {
      currentFile := oldFile;
    }
    result := At(state.errors, 0);
    fileAfter := currentFile;
  }
}
