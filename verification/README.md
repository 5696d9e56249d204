# ProjectSaver, modelled in Dafny

This project models `ProjectSaver`, the Introjucer component that saves a JUCE
project. Saving has three phases:

1. Write the project file.
2. Generate the JUCE "wrapper" files: the AppConfig.h config header, the app
   header, the plugin-characteristics header, the binary-resource files and the
   numbered source wrappers that compile JUCE's amalgamated source.
3. Hand every exporter (an IDE or build-system target) its list of wrapper
   files and let it create its build project.

Every failure is collected in an error log. The first message is what `save`
returns.

Modules, one per file:

- `JuceText` (juce_text.dfy): the parts of JUCE's `String` behaviour the saver
  relies on. These are trimming, `getIntValue`, the decimal text of an `int` and
  `toHexString`, plus `StringArray` indexing, where an index out of range gives "".
- `StringArray` (string_array.dfy): `addTokens`, `trim`, `removeEmptyStrings`,
  and `removeDuplicates`, which keeps the first occurrence.
- `Encoders` (encoders.dfy): `createVersionCode` and `countMaxPluginChannels`.
- `ArtifactPlan` (artifact_plan.dfy):
  - the JUCE linkage mode, and the decisions `save` takes from it;
  - which numbered source wrappers apply;
  - the wrappers' file names (`getSourceWrapperCpp`, `File::withFileExtension`);
  - the JUCE file each wrapper includes.
- `AppConfig` (app_config.dfy): the config-flag section of AppConfig.h.
- `IncludeResolver` (include_resolver.dfy): `writeInclude`, the `#if`/`#elif`
  chain that picks each exporter's include path.
- `ProjectSaving` (project_saving.dfy): `replaceFileIfDifferent`,
  `writeMainProjectFile`, `writeJuceSourceWrappers`, `writeProjects` and `save`.
  It works over an abstract disk, and the file-system calls are oracles that can fail.
- `Optional` (optional.dfy): an option type.

The file system is a map from files to the document each one holds, a set of
read-only files and a set of folders that cannot be created. A generated
document is identified by its kind, and its text is not rendered. The exceptions
are the two texts modelled in full: the config-flag section and the include
lines of `writeInclude`.

JUCE library calls are modelled on JUCE's documented behaviour, because their
source is not part of this model:

- `getIntValue` reads an optional '-' and leading digits after whitespace, and
  gives 0 for anything else.
- `toHexString` prints the unsigned 32-bit pattern in lower case.
- `removeDuplicates` keeps first occurrences.
- `withFileExtension` replaces everything after the last '.' of the file name. A
  file is a folder plus a name, and the name is one path component (see "## Left out").
- `overwriteFileWithNewDataIfDifferent` succeeds without writing when the
  content is already there.

The values "enabled" and "disabled" of `Project::configFlagEnabled` and
`Project::configFlagDisabled` come from jucer_Project.cpp, which is not part of
this model.

Three behaviours of the code that the model keeps as written:

- **Zero exporters.** When a project has no exporters, `writeInclude` emits a lone `#endif`
  (`IncludeResolver.NoExportersGivesBareEndif`).
- **Library projects.** A library project returns from writeJuceSourceWrappers right after the resources step, but writeProjects still hands every exporter AppConfig.h, the app header and the wrappers the plan names. These files are not written, and a stale copy is not refreshed (`ProjectSaving.LibraryHandsOverUnwrittenConfig`). The lemma that every handed-over file is on the disk is therefore stated for program projects only.
- **Dotted filename root.** When the JUCE source filename root is a plain file
  name containing a '.', such as "Juce.Code", `withFileExtension` cuts every
  numbered wrapper name at that dot, so all the wrappers land on one file
  (`ArtifactPlan.DottedRootCollides`). The lemmas about the numbered wrappers
  therefore require a root without '.'. So does the promise that a clean save
  leaves every handed-over file on the disk: with one JUCE source file, wrapper
  0 is written and the later, non-applying wrappers then delete that same file.

## Model

All source cells refer to `extras/Introjucer/Source/Project/jucer_ProjectSaver.h`.

| member | source | states |
|---|---|---|
| ArtifactPlan.PlanArtifacts | extras/Introjucer/Source/Project/jucer_ProjectSaver.h:44-76 | A config header exists iff JUCE is linked at all. An app header exists iff JUCE is linked or the project is not a library. Only amalgamated modes have JUCE source files: one for the single-file modes, the separate-file count for the multiple-template mode. Resources exist iff the resource count is positive. |
| ArtifactPlan.WrapperApplies | extras/Introjucer/Source/Project/jucer_ProjectSaver.h:445-446 | With no JUCE source files no wrapper is written. With one, exactly wrapper 0 is. With several, every wrapper except 0 is. |
| ArtifactPlan.WrittenWrappers | extras/Introjucer/Source/Project/jucer_ProjectSaver.h:440-446 | For each mode, the wrapper indices 0..n that are written. The single-file modes write wrapper 0 only. The multiple-template mode writes wrapper 0 when n = 1 and wrappers 1..n when n > 1. The non-amalgamated modes write none. |
| ArtifactPlan.ReplaceExtensionTwice | extras/Introjucer/Source/Project/jucer_ProjectSaver.h:442-443 | Changing a one-dot extension such as ".cpp" to ".mm" gives the same file as putting ".mm" on the original name. |
| ArtifactPlan.SourceWrapperCpp | extras/Introjucer/Source/Project/jucer_ProjectSaver.h:533-538 | Wrapper i lies in the wrapper folder. When its base name (the root, then i unless i is 0) has no '.', the file is that base name plus ".cpp". |
| ArtifactPlan.WrapperNames | extras/Introjucer/Source/Project/jucer_ProjectSaver.h:534-538 | With a root free of '.', wrapper i is root + i + ".cpp", with no number for i = 0, and its twin is the same name with ".mm". |
| ArtifactPlan.WrapperNamesDistinct | extras/Introjucer/Source/Project/jucer_ProjectSaver.h:534-538 | With a root free of '.', different indices give different .cpp files and different .mm files, and no .cpp file is ever a .mm file. |
| ArtifactPlan.DottedRootCollides | extras/Introjucer/Source/Project/jucer_ProjectSaver.h:534-538 | With root "Juce.Code", wrappers 1 and 2 both become "Juce.cpp". |
| ArtifactPlan.WrapperIncludeTarget | extras/Introjucer/Source/Project/jucer_ProjectSaver.h:196-201 | Every wrapper includes a .cpp file. Wrapper 0 of a fully amalgamated build includes "juce_amalgamated.cpp"; every other wrapper includes a file in the "amalgamation/" folder. |
| ArtifactPlan.WrapperIncludeTargetsDistinct | extras/Introjucer/Source/Project/jucer_ProjectSaver.h:196-201 | Different wrapper indices include different JUCE files. |
| AppConfig.SettingOf | extras/Introjucer/Source/Project/jucer_ProjectSaver.h:163-176 | A flag is switched on iff its value is "enabled" and off iff it is "disabled". Any other value means JUCE's default. |
| AppConfig.FlagLine | extras/Introjucer/Source/Project/jucer_ProjectSaver.h:165-177 | The symbol starts at column 11 of the line. The line is commented out iff the flag is left at its default. |
| AppConfig.FlagLineRoundTrip | extras/Introjucer/Source/Project/jucer_ProjectSaver.h:160-178 | Reading a flag line back gives its symbol and whether it is defined to 1, to 0, or left commented out. |
| AppConfig.ConfigFlagSectionShape | extras/Introjucer/Source/Project/jucer_ProjectSaver.h:150-181 | The section has one line per flag, in order, each reading back as that flag. For linked or unlinked JUCE it is wrapped in a comment with six extra lines: it opens with "/*" and ends with "*/". |
| IncludeResolver.Candidates | extras/Introjucer/Source/Project/jucer_ProjectSaver.h:248-257 | The candidate list has one (path, "defined (" + macro + ")") entry per exporter, the last exporter first. |
| IncludeResolver.RemoveLaterDuplicates | extras/Introjucer/Source/Project/jucer_ProjectSaver.h:268-279 | The backward nested loop leaves exactly the first occurrence of every (path, guard) pair, in order. |
| IncludeResolver.RemoveIfRepeated | extras/Introjucer/Source/Project/jucer_ProjectSaver.h:271-278 | One inner pass removes entry i exactly when an earlier entry equals it. What slides into position i never matches afterwards. |
| IncludeResolver.WriteInclude | extras/Introjucer/Source/Project/jucer_ProjectSaver.h:244-289 | The emitted lines are one plain #include when the paths reduce to one distinct path. Otherwise they are the #if/#elif chain over the deduplicated pairs, closed by #endif. |
| IncludeResolver.ArmsUpTo | extras/Introjucer/Source/Project/jucer_ProjectSaver.h:281-285 | Arm k is two lines. The first is "#if " plus the guard for k = 0 and "#elif " plus the guard after that. The second is " #include " plus the path. |
| IncludeResolver.SharedPathIsPlainInclude | extras/Introjucer/Source/Project/jucer_ProjectSaver.h:259-265 | When every exporter gives the same path, the output is exactly one unguarded "#include path", whatever the guards are. |
| IncludeResolver.DisagreeingPathsGiveOneArmPerExporter | extras/Introjucer/Source/Project/jucer_ProjectSaver.h:266-288 | When the paths differ, the output is the chain. Every exporter's pair is one of its arms, no pair is repeated, and the first arm is the last exporter's. |
| IncludeResolver.NoExportersGivesBareEndif | extras/Introjucer/Source/Project/jucer_ProjectSaver.h:259-288 | With no exporters the output is the single line "#endif". |
| StringArray.SplitRejoin | extras/Introjucer/Source/Project/jucer_ProjectSaver.h:294 | Split, which is what addTokens without quote characters returns for non-empty text, loses nothing: there is one more piece than break characters, and putting the breaks back between the pieces gives the text again. Empty text gives no pieces at all. |
| StringArray.SplitAtBreak | extras/Introjucer/Source/Project/jucer_ProjectSaver.h:294 | Text on either side of a break character is split independently, and the two piece lists are concatenated. |
| StringArray.Tokenise | extras/Introjucer/Source/Project/jucer_ProjectSaver.h:308-311 | Every token is non-empty, trimmed and free of separators. |
| StringArray.DedupFirstOccurrenceOrder | extras/Introjucer/Source/Project/jucer_ProjectSaver.h:259-260 | removeDuplicates keeps elements in the order of their first occurrence and never repeats one. |
| StringArray.DedupMembers | extras/Introjucer/Source/Project/jucer_ProjectSaver.h:259-260 | removeDuplicates keeps every element and adds none. |
| StringArray.DedupSingleton | extras/Introjucer/Source/Project/jucer_ProjectSaver.h:259-262 | One unique path is left iff there is at least one path and all paths are equal. |
| JuceText.IntValueOfDecimal | extras/Introjucer/Source/Project/jucer_ProjectSaver.h:313-316 | getIntValue reads the decimal text of n back as n, and "-" followed by it as -n. |
| JuceText.IntValueNonNumeric | extras/Introjucer/Source/Project/jucer_ProjectSaver.h:313-316 | Text that does not start with a digit or '-' after whitespace reads as 0, which is also what a missing token reads as. |
| Encoders.HexLiteral | extras/Introjucer/Source/Project/jucer_ProjectSaver.h:318 | The text is "0x" followed by lower-case hex digits with no leading zero. Read back, the digits give the value modulo 2^32, as toHexString of a 32-bit int prints it. |
| Encoders.VersionCode | extras/Introjucer/Source/Project/jucer_ProjectSaver.h:305-316 | When the first four components are bytes (0 to 255), the code fits in 32 unsigned bits. If the first component is also below 128, it fits in the signed `int` and nothing overflows. With fewer than four tokens and three byte components it fits in 24 bits. |
| Encoders.VersionCodePastIntMax | extras/Introjucer/Source/Project/jucer_ProjectSaver.h:313-316 | "128.0.0.0" gives 0x80000000, which is past the largest signed 32-bit `int`: the C++ code overflows its `int` there. |
| Encoders.VersionCodeText | extras/Introjucer/Source/Project/jucer_ProjectSaver.h:305-319 | The text is "0x" followed by hex digits that read back as the version code modulo 2^32. |
| Encoders.VersionCodeOfDotted | extras/Introjucer/Source/Project/jucer_ProjectSaver.h:306-319 | For "a.b.c…", missing parts count as 0. Fewer than four parts give a·2^16 + b·2^8 + c. Four or more give (a·2^16 + b·2^8 + c)·2^8 + d, and later parts are ignored. |
| Encoders.VersionCodeThreePartExample | extras/Introjucer/Source/Project/jucer_ProjectSaver.h:306-319 | "1.2.3" gives "0x10203". |
| Encoders.VersionCodeFourPartExample | extras/Introjucer/Source/Project/jucer_ProjectSaver.h:306-319 | "1.2.3.4" gives "0x1020304". |
| Encoders.MaxEveryOther | extras/Introjucer/Source/Project/jucer_ProjectSaver.h:299-303 | The loop's result is at least the start value and every visited value, and it equals the start value or one of them. |
| Encoders.MaxAtParity | extras/Introjucer/Source/Project/jucer_ProjectSaver.h:298-302 | Starting at index 0 or 1 with maximum 0, the loop returns at least 0 and at least every value at that parity, and it returns 0 or one of those values. |
| Encoders.MaxPluginChannels | extras/Introjucer/Source/Project/jucer_ProjectSaver.h:291-304 | The result is at least 0 and at least every even-indexed value (inputs) or odd-indexed value (outputs), and it is 0 or one of them. |
| Encoders.ChannelValuesOfPairs | extras/Introjucer/Source/Project/jucer_ProjectSaver.h:293-296 | "{a,b},{c,d},…" is read as the values a, b, c, d, … in order. |
| Encoders.PairsTextIsPaired | extras/Introjucer/Source/Project/jucer_ProjectSaver.h:293-296 | A well-formed "{a,b},{c,d},…" configuration passes the debug check: its token count is even. |
| Encoders.ChannelExample | extras/Introjucer/Source/Project/jucer_ProjectSaver.h:291-304 | "{1,2},{3,4}" gives 3 for inputs and 4 for outputs. |
| ProjectSaving.ReplaceFileIfDifferent | extras/Introjucer/Source/Project/jucer_ProjectSaver.h:372-381 | Reports failure iff the file differs and is read-only. It logs exactly one message, "Can't write to file: " plus the path, iff it fails. On success the file holds the document and nothing else changes. |
| ProjectSaving.ReplaceFileIfDifferentIdempotent | extras/Introjucer/Source/Project/jucer_ProjectSaver.h:372-381 | Repeating a successful replacement succeeds and changes nothing. |
| ProjectSaving.WriteMainProjectFile | extras/Introjucer/Source/Project/jucer_ProjectSaver.h:123-128 | The project file gets the project XML, or the one message "Couldn't write to the target file!" is logged and the disk is untouched. |
| ProjectSaving.ResourcesStep | extras/Introjucer/Source/Project/jucer_ProjectSaver.h:393-411 | The step stops writeJuceSourceWrappers iff there are resources and the wrapper folder cannot be created. It then logs exactly "Couldn't create folder: " plus the folder. With resources and a folder that can be created, it logs nothing or exactly "Can't create binary resources file: " plus the path. A step with resources that logs nothing leaves BinaryData.cpp and BinaryData.h on the disk. Without resources it logs nothing, only deletes, and leaves neither BinaryData.cpp nor BinaryData.h on the disk unless that file is read-only. |
| ProjectSaving.WriteJuceSourceWrappers | extras/Introjucer/Source/Project/jucer_ProjectSaver.h:383-470 | The error log only grows. With resources and a wrapper folder that cannot be created, the only effect is one "Couldn't create folder" message. A library project stops right after the resources step. For a program project whose wrapper folder cannot be created, exactly that one message is logged and nothing is written (at most the binary-data files are deleted). |
| ProjectSaving.ConfigStep | extras/Introjucer/Source/Project/jucer_ProjectSaver.h:422-431 | AppConfig.h holds the config header if the plan wants one and is deleted otherwise (read-only files excepted). If the step logs nothing and the plan wants it, it holds the header. No other file changes. |
| ProjectSaving.PluginStep | extras/Introjucer/Source/Project/jucer_ProjectSaver.h:433-438 | For an audio plug-in the plug-in header is written (read-only files excepted). For any other project nothing changes. No other file changes. |
| ProjectSaving.AppHeaderStep | extras/Introjucer/Source/Project/jucer_ProjectSaver.h:460-469 | The app header holds its document if the plan wants one and is deleted otherwise (read-only files excepted). No other file changes. |
| ProjectSaving.AppConfigWrittenOrDeleted | extras/Introjucer/Source/Project/jucer_ProjectSaver.h:413-469 | For a program project whose wrapper folder can be created, AppConfig.h ends up written iff the plan wants a config header and deleted otherwise, as long as no later step writes a file of the same name. |
| ProjectSaving.BinaryDataDeleted | extras/Introjucer/Source/Project/jucer_ProjectSaver.h:407-414 | For a library or program project without resources and with distinct output names, BinaryData.cpp and BinaryData.h are gone from the disk after writeJuceSourceWrappers, read-only files excepted. The later steps do not bring them back. |
| ProjectSaving.PluginHeaderWrittenOrKept | extras/Introjucer/Source/Project/jucer_ProjectSaver.h:413-469 | For a program project whose wrapper folder can be created, the plug-in header ends up written for an audio plug-in. For other projects it is neither written nor deleted. |
| ProjectSaving.AppHeaderWrittenOrDeleted | extras/Introjucer/Source/Project/jucer_ProjectSaver.h:413-469 | For a program project whose wrapper folder can be created, the app header ends up written iff the plan wants one and deleted otherwise. |
| ProjectSaving.BinaryDataNames | extras/Introjucer/Source/Project/jucer_ProjectSaver.h:391-410 | The binary-data header is BinaryData.h in the wrapper folder, a different file from BinaryData.cpp. |
| ProjectSaving.WrapperLoopSettles | extras/Introjucer/Source/Project/jucer_ProjectSaver.h:440-458 | After the loop, each wrapper j holds its document as .cpp and .mm if it applies, and is deleted otherwise (read-only files excepted). |
| ProjectSaving.WrapperLoopFrame | extras/Introjucer/Source/Project/jucer_ProjectSaver.h:440-458 | The loop from index i changes no file other than the wrappers from index i on. |
| ProjectSaving.WrappersWrittenOrDeleted | extras/Introjucer/Source/Project/jucer_ProjectSaver.h:413-469 | For a program project whose wrapper folder can be created, every wrapper 0..n ends up written iff it applies and deleted otherwise. |
| ProjectSaving.WrapperFilesFor | extras/Introjucer/Source/Project/jucer_ProjectSaver.h:485-516 | The list names the config header, the app header, both binary-data files and the plug-in header whenever the plan or project calls for each. |
| ProjectSaving.WrapperFilesForOnly | extras/Introjucer/Source/Project/jucer_ProjectSaver.h:485-516 | The list names nothing else: each entry is one of those files, for a plan that calls for it, or a wrapper from the wrapper list. |
| ProjectSaving.WrapperFileListMembers | extras/Introjucer/Source/Project/jucer_ProjectSaver.h:500-512 | An exporter's list names wrapper j exactly when j is in range and wrapper j applies. |
| ProjectSaving.HandedOverWrappersMatchWritten | extras/Introjucer/Source/Project/jucer_ProjectSaver.h:498-513 | An exporter is handed wrapper j (.mm or .cpp per exporter) iff wrapper j applies, which is the index set the wrapper loop writes. |
| ProjectSaving.CleanWrappersHoldHandedFiles | extras/Introjucer/Source/Project/jucer_ProjectSaver.h:383-516 | When writeJuceSourceWrappers logs nothing for a program project with distinct output names and a filename root without '.', every file any exporter is then handed is on the disk. |
| ProjectSaving.CleanLoopWritesWrappers | extras/Introjucer/Source/Project/jucer_ProjectSaver.h:440-458 | A wrapper loop that logs nothing leaves every applying wrapper written as .cpp and .mm, read-only files included. |
| ProjectSaving.LibraryHandsOverUnwrittenConfig | extras/Introjucer/Source/Project/jucer_ProjectSaver.h:413-414 | A library project with a config header and no resources finishes writeJuceSourceWrappers with no error and no AppConfig.h on the disk, yet AppConfig.h is in every exporter's list. |
| ProjectSaving.ExporterMessages | extras/Introjucer/Source/Project/jucer_ProjectSaver.h:483-530 | An exporter adds at most one message. It adds none iff its target folder can be created and create() throws nothing. |
| ProjectSaving.WriteProject | extras/Introjucer/Source/Project/jucer_ProjectSaver.h:476-530 | One exporter: the disk is unchanged, and its messages and its hand-over are appended. |
| ProjectSaving.WriteProjects | extras/Introjucer/Source/Project/jucer_ProjectSaver.h:472-531 | All exporters, last first. Each is judged on its own, the messages and hand-overs are appended in that order, and the disk is untouched. |
| ProjectSaving.OneMessagePerFailingExporter | extras/Introjucer/Source/Project/jucer_ProjectSaver.h:474-531 | The export phase logs exactly as many messages as there are failing exporters. |
| ProjectSaving.EveryReachableExporterRuns | extras/Introjucer/Source/Project/jucer_ProjectSaver.h:474-531 | Exporter k is handed its files and run iff its target folder can be created, whatever the other exporters do. |
| ProjectSaving.ExportMessagesNotBlank | extras/Introjucer/Source/Project/jucer_ProjectSaver.h:518-529 | When no exporter throws an empty message, no export message is empty. |
| ProjectSaving.Save | extras/Introjucer/Source/Project/jucer_ProjectSaver.h:39-90 | Wrappers are written only after a clean project-file write, and exporters run only after clean wrappers. Any error restores the old file, and the result is the first message or "". A failed project-file write leaves the disk untouched and returns "Couldn't write to the target file!". The result is "" iff the save succeeded, unless an exporter throws an empty message. After a clean save of a program project with distinct output names and a filename root without '.', every file in every hand-over is on the disk. |

## Left out

- XML and ValueTree serialisation and the debug-only round-trip check in `writeMainProjectFile` (lines 102-121): the model keeps only "the write may fail, and that logs one message".
- The text of the comment banners, of `writeAppHeader` and of `writePluginCharacteristics` (lines 131-148, 204-242, 321-370): fixed formatting. Generated documents are named by kind (`ProjectSaving.Document`) and not rendered.
- The `hashCode`-based header guards (lines 214, 323): the hash is a foreign function.
- The plugin tail length, printed as a `double` (line 350): floating point.
- The `std::cout` progress line in `writeProjects` (line 477): output only.
- Path separators inside the JUCE source filename root. `getChildFile` accepts a root such as "v1.2/Juce", and JUCE's `withFileExtension` then cuts only after the last separator ("v1.2/Juce.cpp", "v1.2/Juce1.cpp"). The model treats the root as a plain file name and would cut at the '.' in "v1.2". Its statements about dotted roots hold only for roots without a separator.
- `RelativePath`: exporters are handed the wrapper files as plain paths, not paths relative to their target folder.
- The `juceWrapperFolder` each exporter is given (line 483): the wrapper folder relative to the exporter's target folder is an input to `create()`, which is not modelled.
- Output names that coincide. The lemmas that follow a file through writeJuceSourceWrappers require that the config header, plug-in header, app header and binary-data files have different names and that none is a numbered wrapper (`ProjectSaving.DistinctOutputs`). Otherwise a later step may overwrite or delete an earlier step's file, and the model computes that but proves nothing about it. Only the lemmas about the numbered wrappers and the hand-over promise also require a filename root without '.' (`ProjectSaving.DotFreeRoot`); the dotted-root case is described above.
- `ProjectExporter::create` and `getIncludePathForFileInJuceFolder` are external. An exporter is modelled by:
  - its target folder;
  - whether it uses .mm files;
  - the message its `create()` throws, if any;
  - for `writeInclude`, the include path it gives and its identifier macro.

  Files the exporters write are not modelled.
- `createExporter` returning null. `writeInclude` skips such exporters, so its input is the list of exporters that exist. `writeProjects` does not check for null, and the model assumes there are none.
- `File::createDirectory` changes no modelled state: the model only records which folders cannot be created. `ResourceFile::write` is an oracle that writes BinaryData.h and BinaryData.cpp and fails if either write fails.
- An unknown linkage-mode string, which stops `save` at an assertion: the linkage mode is a closed datatype.
- JuceText.IntValue: does not model the wrap-around of `getIntValue` on digit runs beyond 32 bits.
- Encoders.VersionCode: computes on unbounded integers. The 32-bit wrap of the C++ code's shifts and additions is applied once, when the code is printed (`Encoders.HexLiteral` takes the value modulo 2^32). This agrees with two's-complement arithmetic. With four parts and a first part of 128 or more, the signed `int` overflows (`Encoders.VersionCodePastIntMax`); the printed hex hides this, since it shows the same bit pattern.
- Encoders.ChannelConfigsPaired: the debug assertion that channel tokens come in pairs is stated as a predicate and proved for well-formed input (`Encoders.PairsTextIsPaired`). It does not affect the result.
