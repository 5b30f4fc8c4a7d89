# Verification of the Ipê tool-chain

A Dafny 4.11 model of eleven components of the Ipê compiler's tool-chain, with proofs of what each of them
promises over all inputs, all runs or all reachable states. `dafny verify dfyconfig.toml` checks the whole project.

| files | component |
|---|---|
| `Framing`, `Keys`, `BuildCache`, `CacheGate`, `CacheRuns`, `CacheExactness`, `CacheCompilers` | the two-tier build cache: the hashed byte streams, the disk, what each tier answers and refuses, whole runs of builds, and exactly when a run can tell |
| `TreeHash` | the source-tree hash: a budgeted walk, a sort, a length-framed stream |
| `Lettering`, `Signature`, `SignatureOrder`, `SignatureReading`, `SignatureMeaning`, `SignatureLists` | the canonical text of a constructor argument's type, and of an argument list |
| `LayoutScanner` | the external layout scanner and its growable column stack |
| `Sidecar`, `SidecarEntries`, `SidecarLoss` | the hand-written reader of the FFI wrapper sidecar: what it accepts, which entries it reads, and what its splitter drops |
| `Delivery`, `DeliverySet` | the delivery grammar, declared delivery sets, and the release loop |
| `FormatFlags`, `CommandLine`, `CommandMeaning`, `CommandTails`, `CommandPeek`, `CommandAsks`, `CommandExact` | the argument parsers, exactly which tails they accept, and the early format peek |
| `ShardCover` | the shard plan's key check and the partition check |
| `Durations` | the duration redactor |
| `ContainedPath`, `LaterPaths` | the contained-path walk, and what an accepted path means once its tail exists |
| `Prelude`, `Orders`, `Decimal`, `Text` | options and results, the library sort, decimal numerals, character classes |

Code that the repository writes as loops over mutable state is written here as methods and classes (`Hasher`,
`CacheDir`, `CtorVars`, `Scanner`, the parsers and scanners), each proved equal to a function or to a declarative
condition; the theorems are about those. Every lemma turns Dafny's automatic induction off, so a proof recurses only
where its body says so.

## What is assumed

- SHA-256 (FIPS 180-4) is a function to hexadecimal strings. The theorems about one run ask only that it tells
  apart the streams that run hashes; `CacheCompilers.TransparencyExactly`, about every run, that it never collides.
- Damage to the cache leaves bytes that do not decode. `CacheExactness` also asks for two byte strings that fit the
  cache and that no damage of the run leaves behind; its compilers encode with them.
- A read of an open file yields at least one byte until its end.
- A serializer reads back what it wrote. Lowering, the pipeline after lowering, and the backend call of the IR tier
  are arbitrary functions.
- In the injectivity theorems, the lengths written as eight bytes are below 2^64; past that the conversion saturates, as in the code.
- The Unicode character tables agree with ASCII below 128, where blank, tab, newline and carriage return are white
  space, and no character is both alphanumeric and white space.
- In `CacheGate.DebugIsNeverReleased`, the pipeline after lowering refuses a program that uses `Debug.*` in a release
  build, as the database's own gate does; the gate of the IR tier is proved.
- `canonicalize` is one function for the duration of a check, answers resolved paths, and refuses the empty path.
- In `LaterPaths`, resolution goes name by name and follows a number of links; the target of a link, joined to the
  link's directory, is an absolute path of plain names.

## Where the code and its documentation differ

- **Build cache.** The module promises that a cached build is the uncached one. It is not in general: the package
  name, the hydrate mode and the widget files reach emission but are not hashed, and the IR tier emits the unfolded
  program as one file with the desktop window set, which the pipeline never does. The exact conditions:
  - for given compilers and a given run, `CacheRuns.FreshRunTransparentExactly`: each build that finds a project finds
    its own, and where a build finds only a program the IR tier agrees on it;
  - for a given run under all compilers of a kind, `CacheExactness.HiddenExactly` (their projects fit the cache),
    `CacheExactness.ConsistentExactly` (their IR tier agrees on the run's requests) and
    `CacheExactness.HiddenFromAllExactly` (any);
  - for given compilers over all runs, `CacheCompilers.TransparencyExactly`.

  A warm rebuild is hidden whatever the IR tier would emit (`CacheRuns.WarmRebuildIsHidden`);
  `CacheCompilers.RenameServesOldName` and `CacheCompilers.WindowOnlyOnFastPath` are two kinds of run in which this
  compiler's cache is visible.
- **Sidecar.** "Never a vacuous clean" (audit_native.rs:1242-1245) fails for text whose braces never close an
  object: `{"wrappers":[x]}` reads as no wrappers. `Sidecar.AcceptsAsEmptyExactly` says which texts do. More
  generally the splitter drops whatever follows the last closed object, an object left open included:
  `SidecarLoss.NothingDroppedExactly`, `SidecarLoss.OpenObjectIsDropped`. And an entry is accepted with noise around
  it, such as `"generic":truex`: `SidecarLoss.NoiseIsAccepted`.
- **Growing files.** A file that grows between `stat` and the last read is documented as refused (cache.rs:372-375).
  The reader is limited to the length taken before, so its first bytes are hashed and it is accepted
  (`TreeHash.GrownFileIsHashed`); a changed size is refused exactly when the file shrank
  (`TreeHash.OnlyShrinkingIsRefused`).
- **Layout scanner.** Columns are cut to 16 bits when a block opens, so nesting can break past column 65535:
  `LayoutScanner.OpenKeepsNestingExactly`, `LayoutScanner.WideColumnBreaksNesting`.
- **Type signatures.** The namer is documented as shared across one constructor's argument list; each argument starts
  a fresh one (api_surface.rs:273-276, 320-330). So `C a b` and `C a a` list the same signatures
  (`SignatureLists.SharingIsLost`). `SignatureLists.ListsAlikeExactly` says when two lists are equal,
  `SignatureLists.SharedExactly` when one renaming serves the whole list, and `SignatureLists.ApartListsShare` that it
  always does when no variable occurs in two arguments.
- **Format peek.** It is documented to agree with the parse on every tail the parsers accept
  (cli_args.rs:183-188). Option values and forwarded arguments can be format flags themselves
  (`CommandPeek.PeekCanDisagree`). `CommandPeek.BuildPeekAgreesExactly` and `CommandPeek.RunPeekAgreesExactly` give
  the exact condition on the tail's tokens, `CommandPeek.PeekAgreesOnPlainTails` one that is easy to check.
- **Contained paths.** A value is documented as strictly inside the root; the root itself is accepted
  (`ContainedPath.RootResolvesToItself`), and `ContainedPath.StrictlyInsideExactly` says when the result is strict. The
  missing tail is documented as unable to leave the root through a symbolic link; a link that dangles at the check is
  part of that tail. `LaterPaths.StaysUnderRootExactly` says, by the file system and the links at the check, when the
  path still resolves under the root once its tail exists; `LaterPaths.DanglingLinkEscapes` is a path that does not.

## Model

| member | source | states |
|---|---|---|
| Framing.FrameCancel | src/ipe-cli/src/cache.rs:131-139 | a length-prefixed item and what follows it are recoverable from the stream |
| Framing.ListCancel | src/ipe-cli/src/cache.rs:571-575 | a counted list of prefixed items and what follows it are recoverable |
| Framing.LittleEndianInjective | src/ipe-cli/src/cache.rs:136-137 | a fixed number of little-endian bytes determines the number below the bound |
| Framing.Hasher.UpdateLenPrefixed | src/ipe-cli/src/cache.rs:135-139 | the hasher's stream grows by exactly one frame |
| Framing.Hasher.UpdateList | src/ipe-cli/src/cache.rs:571-575 | the loop appends exactly the counted, framed list |
| Keys.ProjectStreamInjective | src/ipe-cli/src/cache.rs:509-608 | equal project-key streams mean equal target, flags, window, intent, entry, driver, public environment, module paths, texts and origins |
| Keys.IrStreamInjective | src/ipe-cli/src/cache.rs:628-661 | equal IR-key streams mean equal target, entry and modules |
| Keys.ProjectStreamDeterminesIrStream | src/ipe-cli/src/cache.rs:509-661 | equal project-key streams imply equal IR-key streams |
| Keys.DomainsDisjoint | src/ipe-cli/src/cache.rs:126-147 | project, IR, tree and epoch streams never coincide |
| Keys.EpochStreamInjective | src/ipe-cli/src/cache.rs:718-726 | an epoch stream determines the compiler revision and the toolchain |
| Keys.FileNamesJointlyInjective | src/ipe-cli/src/cache.rs:1071-1152 | for hex keys, a file name determines its key and its tier |
| Keys.SourcesCancel | src/ipe-cli/src/cache.rs:592-605 | the stream of a module map, taken in path order, determines the map |
| Keys.UpdateSources | src/ipe-cli/src/cache.rs:592-605 | iterating a map in key order hashes the one stream of the tagged module map, whatever the on-disk paths |
| Keys.ComputeProjectKey | src/ipe-cli/src/cache.rs:509-608 | the key is the digest of the project stream of the inputs |
| Keys.ComputeIrKey | src/ipe-cli/src/cache.rs:628-661 | the key is the digest of the IR stream of the inputs |
| CacheExactness.HiddenExactly | src/ipe-cli/src/driver/build_pipeline.rs:962-1210 | a run is indistinguishable from uncached compiles under every lawful compiler whose projects fit the cache if and only if no build finds a project stored under its hashed inputs but with other unhashed ones, and no build misses the project tier and finds a program |
| CacheExactness.HiddenFromAllExactly | src/ipe-cli/src/driver/build_pipeline.rs:962-1210 | under every lawful compiler, if and only if the first holds and no build would miss the project tier and find a program even if no project fitted |
| CacheExactness.ConsistentExactly | src/ipe-cli/src/driver/build_pipeline.rs:962-1210 | under every lawful compiler whose IR tier answers as the pipeline does on the run's own requests, if and only if the first of the two holds |
| CacheExactness.ConsistentIsTransparent | src/ipe-cli/src/driver/build_pipeline.rs:962-1210 | whatever the compilers, a run that meets the first is transparent if the IR tier agrees on its requests, or its projects fit and it meets the second, or no build would find only a program even if no project fitted |
| CacheCompilers.TransparencyExactly | src/ipe-cli/src/driver/build_pipeline.rs:962-1210 | every run of builds, deletions and damage is transparent if and only if, in every epoch, cacheable emission ignores the unhashed inputs and the IR fast path answers as the pipeline does |
| CacheRuns.FreshRunTransparentExactly | src/ipe-cli/src/driver/build_pipeline.rs:962-1210 | for any lawful compilers and any run of builds, deletions and damage, every build yields the uncached result if and only if each that finds a project finds one its own inputs would give, and the IR tier agrees wherever a build finds only a program |
| CacheRuns.RunTransparentExactly | src/ipe-cli/src/driver/build_pipeline.rs:962-1210 | the same for the rest of a run, from any disk that holds what its history says |
| CacheRuns.WarmRebuildIsHidden | src/ipe-cli/src/driver/build_pipeline.rs:1023-1050 | building twice what the cache can hold is transparent, whatever the IR tier would answer |
| CacheRuns.BuildIsUnobservableExactly | src/ipe-cli/src/driver/build_pipeline.rs:1023-1130 | on such a disk one build answers as an uncached compile exactly when what it finds is harmless |
| CacheRuns.BuildKeepsSound | src/ipe-cli/src/driver/build_pipeline.rs:1023-1209 | after a build that answered as an uncached compile, both tiers load for every key exactly what the history of the run says |
| CacheRuns.LossKeepsSound | src/ipe-cli/src/cache.rs:1076-1084 | after an entry was deleted or made undecodable, they still do |
| CacheRuns.StoreExactly | src/ipe-cli/src/cache.rs:1102-1107 | a project store changes what one set of inputs loads, exactly when the write lands and fits, and no program |
| CacheRuns.StoreIrExactly | src/ipe-cli/src/cache.rs:1179-1194 | a program store changes what the inputs of one program load, exactly when the write lands and fits, and no project |
| BuildCache.StoreEffect | src/ipe-cli/src/cache.rs:1081-1107 | a project store changes the lookup of one address of one tier in one epoch and no other |
| BuildCache.StoreIrEffect | src/ipe-cli/src/cache.rs:1162-1194 | a program store changes the lookup of one address of the other tier and no other |
| CacheCompilers.SensitivityIsObserved | src/ipe-cli/src/driver/build_pipeline.rs:1023-1050 | if emission reads an unhashed input, some valid run exposes it |
| CacheCompilers.DisagreementIsObserved | src/compiler/db/src/lib.rs:1207-1668 | if the fast path disagrees with the pipeline on a storable program, some valid run exposes it |
| CacheCompilers.RenameServesOldName | src/ipe-cli/src/driver/build_pipeline.rs:1150-1163 | for any compiler and any input whose emission reads the package name, renaming the package between two builds serves the old name |
| CacheCompilers.WindowOnlyOnFastPath | src/ipe-cli/src/driver/build_pipeline.rs:1090-1107 | for any compiler whose pipeline ignores the desktop window and whose IR tier sets it, a build, a lost entry and a build show the window |
| BuildCache.CacheDir.WriteEntry | src/ipe-cli/src/cache.rs:819-838 | a write lands only within the cap and under one-component names, and is otherwise dropped |
| BuildCache.OnlyHoldableEntries | src/ipe-cli/src/cache.rs:790-838 | an entry past the cap, or under a name of several components, is neither read nor written |
| BuildCache.CacheDir.StoreProject | src/ipe-cli/src/cache.rs:1102-1107 | the disk after an advisory project store |
| BuildCache.CacheDir.StoreProgram | src/ipe-cli/src/cache.rs:1179-1194 | the disk after an advisory program store |
| BuildCache.CacheDir.CompileModules | src/ipe-cli/src/driver/build_pipeline.rs:962-1210 | the driver's new disk and result are the specified ones: project hit, else program hit and emit, else compile and store both |
| CacheGate.OutsideTheIrTier | src/ipe-cli/src/driver/build_pipeline.rs:1023-1050 | a build that is not cacheable is an uncached compile, and one that finds its project answers it; neither changes the disk |
| CacheGate.ReleaseRefusesDebug | src/ipe-cli/src/driver/build_pipeline.rs:1060-1089 | a cacheable release build that misses the project tier and finds a program using `Debug.*` fails and leaves the disk as it was, whatever the IR tier would emit |
| CacheGate.IrTierEmits | src/ipe-cli/src/driver/build_pipeline.rs:1090-1130 | where a program is found, not refused and emitted, that emission is the answer; its project is stored and the program entry kept |
| CacheGate.PipelineAnswers | src/ipe-cli/src/driver/build_pipeline.rs:1023-1209 | where no program is found, or the one found is not refused but not emitted, the answer is the uncached compile's |
| CacheGate.PipelineStores | src/ipe-cli/src/driver/build_pipeline.rs:1130-1209 | and then its project and its program are what later builds load, as far as the writes land and fit |
| CacheGate.ReleaseAfterDevelopment | src/ipe-cli/src/driver/build_pipeline.rs:1066-1087 | on an empty cache, a development build followed by a release build of the same sources, if those use `Debug.*`: the release build finds the stored program, fails, and leaves the disk as it was |
| CacheGate.DebugIsNeverReleased | src/ipe-cli/src/driver/build_pipeline.rs:1066-1087 | over any run of builds, deletions and damage, no cacheable release build of sources that use `Debug.*` yields a project from either tier |
| TreeHash.StreamIsVisibleFiles | src/ipe-cli/src/cache.rs:329-366 | two accepted trees feed the hasher the same bytes exactly when they have the same files outside hidden directories |
| TreeHash.ListingOrderIsInvisible | src/ipe-cli/src/cache.rs:340-342 | however the listings of the tree are reordered, each directory in any order at any depth, acceptance and the stream are the same |
| TreeHash.RearrangedIsRelisted | src/ipe-cli/src/cache.rs:471-494 | every rearrangement of a listing is a reordering in the sense of that theorem |
| TreeHash.RelistingKeepsClean | src/ipe-cli/src/cache.rs:471-494 | reordering neither causes nor hides a refusal |
| TreeHash.RelistingKeepsFiles | src/ipe-cli/src/cache.rs:471-494 | reordering keeps exactly the visible files |
| TreeHash.RelistingKeepsDistinct | src/ipe-cli/src/cache.rs:471-494 | reordering keeps every name of a directory distinct |
| TreeHash.WalkSucceedsExactly | src/ipe-cli/src/cache.rs:455-496 | the walk succeeds exactly when no visited entry is a symlink, special or badly named, no visited directory is too deep, and the visited count fits |
| TreeHash.WalkRefusedFor | src/ipe-cli/src/cache.rs:455-496 | a refused walk met an entry that its error names: a symlink, a special file, a bad name, one level too many or one entry too many |
| TreeHash.HashingSucceedsExactly | src/ipe-cli/src/cache.rs:382-433 | hashing the collected files succeeds exactly when each file and the byte total fit |
| TreeHash.JoinedInjective | src/ipe-cli/src/cache.rs:204-225 | joined relative paths of valid components are distinct |
| TreeHash.TreeStreamInjective | src/ipe-cli/src/cache.rs:344-364 | the tree stream determines the sorted list of paths and contents |
| TreeHash.SortedFilesFacts | src/ipe-cli/src/cache.rs:340-342 | sorting by path alone yields one strictly ordered listing of the collected files |
| TreeHash.CollectFiles | src/ipe-cli/src/cache.rs:455-496 | the walk that pushes to one list and bumps one counter collects what the specified walk does, or fails as it does |
| TreeHash.HashOneFile | src/ipe-cli/src/cache.rs:382-433 | whatever the reads: too many bytes when a ceiling is passed, else a changed size when fewer bytes arrive than were declared, else the frame appended is that length and those bytes |
| TreeHash.StreamChunks | src/ipe-cli/src/cache.rs:403-417 | the read loop feeds what a reader limited to the declared length receives, up to the first empty read |
| TreeHash.ReceivedIsTheFront | src/ipe-cli/src/cache.rs:401-417 | a limited reader receives the front of the file |
| TreeHash.OnlyShrinkingIsRefused | src/ipe-cli/src/cache.rs:372-433 | within the ceilings a file is hashed exactly when at least the declared bytes are there, as its first bytes, and refused for its size exactly when it shrank |
| TreeHash.GrownFileIsHashed | src/ipe-cli/src/cache.rs:372-375 | a file of one declared byte that delivers two is hashed as its first |
| TreeHash.HashFiles | src/ipe-cli/src/cache.rs:353-364 | the file loop appends the stream of all files, or reports that they do not fit |
| TreeHash.TreeHasherWithin | src/ipe-cli/src/cache.rs:329-366 | the whole hash is accepted exactly when the tree is, and then feeds the stream of its sorted files |
| Signature.CtorVars.NameOf | src/ipe-cli/src/api_surface.rs:297-316 | a variable is named by its place of first sight, and later sights repeat the name |
| Signature.CanonTypeToString | src/ipe-cli/src/api_surface.rs:328-406 | the recursive renderer prints the shape the specified naming gives, and leaves the namer as it says |
| Signature.CanonTypeArg | src/ipe-cli/src/api_surface.rs:408-424 | the same in argument position |
| Signature.RenderSignature | src/ipe-cli/src/api_surface.rs:320-326 | rendering one argument starts from no names |
| Signature.EveryForm | src/ipe-cli/src/api_surface.rs:346-424 | the text of each form of type: variable, unit, constructor, arrow, tuple, closed and open record, bare and in argument position |
| SignatureOrder.NamedInOrder | src/ipe-cli/src/api_surface.rs:297-406 | the namer ends with the variables in the order in which they first occur in the type |
| SignatureOrder.SignatureIsInOrder | src/ipe-cli/src/api_surface.rs:320-406 | a type has a signature exactly when the interner knows its names, and it is the text of the type with each variable lettered by its place among first occurrences |
| Lettering.LettersInjective | src/compiler/types/src/doc.rs:52-62 | different indices have different letters |
| Lettering.LettersInOrder | src/compiler/types/src/doc.rs:52-62 | the first 26 letters are a to z, and later ones repeat them with the count of rounds behind |
| SignatureReading.TypeReading | src/ipe-cli/src/api_surface.rs:346-424 | the tokens of a type, followed by anything that may follow one, are read in one way only |
| SignatureReading.FlatInjective | src/ipe-cli/src/api_surface.rs:346-424 | the text of a lexical shape determines the shape |
| SignatureMeaning.PrintsAlikeExactly | src/ipe-cli/src/api_surface.rs:346-424 | two lexical shapes print alike exactly when they agree up to record-entry order |
| SignatureMeaning.RenamingIsInvisible | src/ipe-cli/src/api_surface.rs:297-326 | injectively renaming type and row variables leaves the signature unchanged |
| SignatureMeaning.SameTextSameType | src/ipe-cli/src/api_surface.rs:320-424 | equal signatures mean the types are equal up to an injective variable renaming and record-field order |
| SignatureLists.SameTextExactly | src/ipe-cli/src/api_surface.rs:320-424 | two argument types have one signature exactly when they are equal up to record-field order and the renaming that pairs their variables in first-seen order |
| SignatureLists.RenderArgSignatures | src/ipe-cli/src/api_surface.rs:271-276 | the loop over a constructor's arguments lists their signatures, or stops at the first refusal |
| SignatureLists.ListsAlikeExactly | src/ipe-cli/src/api_surface.rs:271-276 | two constructors list the same signatures exactly when they have as many arguments and each pair matches under a renaming of its own |
| SignatureLists.SharedExactly | src/ipe-cli/src/api_surface.rs:328-330 | one injective renaming serves the whole list exactly when the arguments' own renamings agree on every variable that occurs in two of them |
| SignatureLists.ApartListsShare | src/ipe-cli/src/api_surface.rs:328-330 | where no variable occurs in two arguments, equal lists mean the argument lists are equal under one shared renaming |
| SignatureLists.SharingIsLost | src/ipe-cli/src/api_surface.rs:328-330 | `C a b` and `C a a` list the same signatures, and no shared renaming takes one to the other |
| LayoutScanner.ScanKeepsNesting | editors/tree-sitter-ipe/src/scanner.c:158-279 | every scan at a 16-bit column keeps 1 at the bottom and the stack strictly increasing |
| LayoutScanner.RunKeepsNesting | editors/tree-sitter-ipe/src/scanner.c:158-279 | so does every run of scans at such columns |
| LayoutScanner.ScanExactly | editors/tree-sitter-ipe/src/scanner.c:158-279 | for every stack, position and choice of accepted tokens: which token comes, and that an open pushes the truncated column, a close pops one and nothing else changes the stack |
| LayoutScanner.KeywordInExactly | editors/tree-sitter-ipe/src/scanner.c:229-243 | the keyword is ahead exactly when the text starts with `in` and no word character follows |
| LayoutScanner.OpenKeepsNestingExactly | editors/tree-sitter-ipe/src/scanner.c:247-255 | opening a block keeps the nesting exactly when its truncated column is still above the top |
| LayoutScanner.WideColumnBreaksNesting | editors/tree-sitter-ipe/src/scanner.c:251 | column 65537 opens a block at column 1 |
| LayoutScanner.StackIsUnmatchedOpens | editors/tree-sitter-ipe/src/scanner.c:158-279 | after any run of scans, at any columns, no close lacks an open, and the stack is the base followed by the truncated columns of the opens no close has matched |
| LayoutScanner.DedentIsExact | editors/tree-sitter-ipe/src/scanner.c:257-278 | rescanning one dedented position closes each deeper block once, then continues a sibling if and only if the top is that column |
| LayoutScanner.StopsAtSibling | editors/tree-sitter-ipe/src/scanner.c:257-278 | the dedent ends on a sibling exactly when some open block has that column |
| LayoutScanner.EofClosesEverything | editors/tree-sitter-ipe/src/scanner.c:170-178 | at end of input rescanning emits exactly depth minus one closes |
| LayoutScanner.InlineTerminatorIsExact | editors/tree-sitter-ipe/src/scanner.c:199-243 | where a line and a close are accepted and a delimiter or the keyword `in` is ahead, rescanning closes down to the block at this column, else to the base, then emits a line exactly when there is such a block |
| LayoutScanner.ForcedCloseIsExact | editors/tree-sitter-ipe/src/scanner.c:180-197 | where only a close is accepted, rescanning closes down to the block at this column, else to the base, and emits no line |
| LayoutScanner.SaveRestoreExactly | editors/tree-sitter-ipe/src/scanner.c:80-112 | saving then restoring gives the stack back up to the buffer's capacity, else its outermost prefix |
| LayoutScanner.CallsKeepNesting | editors/tree-sitter-ipe/src/scanner.c:80-279 | scans, saves and restores in any order keep the nesting |
| LayoutScanner.StackIsOpenBlocks | editors/tree-sitter-ipe/src/scanner.c:80-279 | over any run of scans, saves and restores the stack is the base and the truncated columns of the blocks open by the tokens seen, a restore reopening those of its save, as far as they fitted the buffer |
| LayoutScanner.Scanner.Push | editors/tree-sitter-ipe/src/scanner.c:41-52 | growing the array refines appending to a sequence |
| LayoutScanner.Scanner.Serialize | editors/tree-sitter-ipe/src/scanner.c:80-96 | the buffer holds the saved bytes, never past its capacity |
| LayoutScanner.Scanner.Deserialize | editors/tree-sitter-ipe/src/scanner.c:98-112 | the stack becomes what the bytes restore, and is never left empty |
| LayoutScanner.Scanner.ScanAt | editors/tree-sitter-ipe/src/scanner.c:158-279 | the in-place scan emits the specified token and leaves the specified stack |
| Sidecar.RoundTrip | src/ipe-cli/src/audit_native.rs:1260-1314 | any list of well-pathed entries printed in the documented shape, with white space around it, parses back to the list |
| Sidecar.Parse | src/ipe-cli/src/audit_native.rs:1299-1311 | on arbitrary text every accepted entry satisfies the path rule |
| Sidecar.NoEnvelopeExactly | src/ipe-cli/src/audit_native.rs:1260-1282 | a text is refused for its envelope exactly when it is not white space, the opening, some inner text, one of the endings and white space |
| Sidecar.EnvelopeExactly | src/ipe-cli/src/audit_native.rs:1274-1282 | and otherwise that inner text is what is read |
| SidecarEntries.ParseExactly | src/ipe-cli/src/audit_native.rs:1260-1314 | a text reads as a list of wrappers exactly when it has the envelope and each object of the inner text gives the wrapper at its place |
| SidecarEntries.EntryExactly | src/ipe-cli/src/audit_native.rs:1289-1311 | an object gives a wrapper exactly when, stripped of its braces, its first quoted path is well formed and its first generic word is `true` or `false` |
| SidecarEntries.ExtractStringExactly | src/ipe-cli/src/audit_native.rs:1365-1372 | the string read for a key is the text between its first occurrence and the next quote |
| SidecarEntries.ExtractBoolExactly | src/ipe-cli/src/audit_native.rs:1385-1396 | the boolean read for a key is the word behind its first occurrence and any white space |
| Sidecar.AcceptsAsEmptyExactly | src/ipe-cli/src/audit_native.rs:1242-1285 | a text reads as no wrappers exactly when it is white space, the opening, an inner text whose braces never close an object, an ending and white space |
| Sidecar.GarbageReadsAsEmpty | src/ipe-cli/src/audit_native.rs:1242-1245 | one such text is not a wrapper array |
| Sidecar.SplitsToNothing | src/ipe-cli/src/audit_native.rs:1329-1351 | the splitter finds no object exactly when depth never returns to zero at a closing brace |
| SidecarLoss.SplitDropsOnlyTheTail | src/ipe-cli/src/audit_native.rs:1329-1351 | the objects, the separators skipped after them and the text after the last closed object are the whole text again |
| SidecarLoss.NothingDroppedExactly | src/ipe-cli/src/audit_native.rs:1329-1351 | objects and separators alone are the whole text exactly when it is empty or ends with a brace that closes an outermost object, with at most one comma after it |
| SidecarLoss.OpenObjectIsDropped | src/ipe-cli/src/audit_native.rs:1329-1351 | after any closed object, an object left open is dropped |
| SidecarLoss.NoiseIsAccepted | src/ipe-cli/src/audit_native.rs:1260-1314 | an entry is read back with any text without braces or quotes before its object and behind its last value |
| Sidecar.SplitJsonObjects | src/ipe-cli/src/audit_native.rs:1329-1351 | the index loop splits as specified, every slice in range |
| Sidecar.ParseSidecar | src/ipe-cli/src/audit_native.rs:1260-1314 | the reading loop returns the specified list or refusal |
| Delivery.WordsParseBack | src/ipe-cli/src/delivery.rs:49-72 | every written shape, host and target word parses back to itself |
| Delivery.WordsExactly | src/ipe-cli/src/delivery.rs:49-72 | a word is read as a shape, host or target exactly when it is the word that one is written as |
| Delivery.TokensRoundTrip | src/ipe-cli/src/delivery.rs:716-749 | every writable runtime and host tail parses back to itself |
| Delivery.ParsedTailIsWritable | src/ipe-cli/src/delivery.rs:716-749 | no accepted tail holds the served runtime |
| Delivery.ParseTokensExactly | src/ipe-cli/src/delivery.rs:716-749 | a tail is accepted exactly when each word is `solo` or a host and none repeats a kind; the runtime and the host are then what the words say, in either order; otherwise the error is that of the first wrong word |
| Delivery.InOrderExactly | src/ipe-cli/src/delivery.rs:716-749 | so the accepted tails have at most one `solo` and at most one host word, and no other word |
| Delivery.ResolveDeliveryExactly | src/ipe-cli/src/delivery.rs:385-423 | the axes resolve exactly to the delivery that has them, served where the web is given no runtime |
| Delivery.StaticExactly | src/ipe-cli/src/delivery.rs:361-373 | of the deliveries there are, those written as their bare shape are the ones that may be static |
| Delivery.ReadTokens | src/ipe-cli/src/delivery.rs:716-749 | the word loop computes the specified tail or refusal |
| DeliverySet.Resolve | src/ipe-cli/src/delivery_set.rs:154-178 | a non-empty list resolves exactly when it has no repeat and is all binaries or on a web program, in order, with pairwise distinct directories; otherwise the error is that of the first entry that cannot join |
| DeliverySet.ResolvesExactly | src/ipe-cli/src/delivery_set.rs:181-214 | one entry resolves exactly when it is a binary or the program is a web one |
| DeliverySet.PlansItsWords | src/ipe-cli/src/delivery_set.rs:181-214 | an entry that resolves is planned on the program's shape as the delivery its own words name, for its own target |
| DeliverySet.SlugsAreDistinct | src/ipe-cli/src/delivery_set.rs:109-125 | entries of one program with one output directory are one entry |
| DeliverySet.ReleaseEach | src/ipe-cli/src/delivery_set.rs:241-264 | a packager with any state is called once for each member, in order, whatever it answers; what it packaged and what failed are returned, and all released means nothing failed |
| DeliverySet.AttemptIs | src/ipe-cli/src/delivery_set.rs:241-264 | each attempt is the packager's answer in the state its predecessors left |
| DeliverySet.EachIsRecorded | src/ipe-cli/src/delivery_set.rs:233-264 | a member's answer is recorded at the place its predecessors' answers leave for it |
| DeliverySet.PartitionInOrder | src/ipe-cli/src/delivery_set.rs:233-264 | built and failed are the one pair of lists that share the attempts out between them, each in declared order and with the answer its member was given |
| DeliverySet.NoFailureMeansAllPackaged | src/ipe-cli/src/delivery_set.rs:259-263 | nothing failed exactly when every member was packaged |
| FormatFlags.PeekOutputFormat | src/ipe-cli/src/cli_args.rs:190-204 | the peek finds a JSON flag anywhere, else a plain flag anywhere, else none |
| FormatFlags.TrackStep | src/ipe-cli/src/cli_args.rs:221-242 | the shared slot holds the one format flag seen so far, or the tail has two |
| FormatFlags.SplitFormat | src/ipe-cli/src/cli_args.rs:256-273 | accepted exactly when no flag is unknown and at most one is a format; the format is the peek's and the positionals keep their order |
| FormatFlags.SinglePositionalWithFormat | src/ipe-cli/src/cli_args.rs:307-317 | accepted exactly when, besides, there is at most one positional, which is returned with the peek's format |
| FormatFlags.ParseTypeCheck | src/ipe-cli/src/cli_args.rs:1331-1347 | accepted exactly with no unknown flag, at most one format flag and at most one positional; the format is the peek's |
| FormatFlags.ParseHealth | src/ipe-cli/src/cli_args.rs:1369-1391 | accepted exactly when only format and consent flags appear and consent never meets a data form; the format is the peek's |
| FormatFlags.ParseFmt | src/ipe-cli/src/cli_args.rs:1430-1476 | accepted exactly on compatible tails, and the mode says what the tail asked for |
| CommandLine.SpellingReadsBack | src/ipe-cli/src/cli_args.rs:505-519 | every flag's spelling is recognised as that flag and no other |
| CommandLine.ReadFlags | src/ipe-cli/src/cli_args.rs:672-706 | the flag loop over the shared iterator leaves the specified slots or refusal |
| CommandLine.TakeDeliveryWords | src/ipe-cli/src/cli_args.rs:432-442 | the words taken are exactly the tokens before the first flag |
| CommandLine.ReadLead | src/ipe-cli/src/cli_args.rs:409-427 | the entry, the delivery positionals and what is left are the specified ones |
| CommandMeaning.FlagsRoundTrip | src/ipe-cli/src/cli_args.rs:499-536 | any printable settings, printed as flags, are read back by the loop |
| CommandAsks.FlagOfExactly | src/ipe-cli/src/cli_args.rs:505-519 | a token is a flag exactly when it is the flag's spelling, or `-q` for quiet |
| CommandAsks.LoopExactly | src/ipe-cli/src/cli_args.rs:672-706 | the flag loop accepts exactly the flags of the command with their values in place, from their vocabularies, each value option at most once, one format and one session at most; each slot is then what its own flag says, and a refusal names what is wrong with the first flag that is |
| CommandTails.LeadRoundTrip | src/ipe-cli/src/cli_args.rs:51-64 | a printed entry and delivery read back, whatever flags follow |
| CommandExact.LeadExactly | src/ipe-cli/src/cli_args.rs:409-442 | a lead is read exactly when the tokens are its entry, its shape, accepted runtime and host words, and a rest that is empty or starts with a flag |
| CommandExact.LeadRefused | src/ipe-cli/src/cli_args.rs:409-442 | a refused lead has a first wrong delivery word, and the error is that word's |
| CommandTails.BuildRoundTrip | src/ipe-cli/src/cli_args.rs:657-769 | every representable build reads back from its printed tail |
| CommandTails.BuildIsRepresentable | src/ipe-cli/src/cli_args.rs:657-769 | every accepted tail parses to a representable build, so the accepted values are exactly those |
| CommandTails.RunRoundTrip | src/ipe-cli/src/cli_args.rs:863-967 | every representable run reads back, session mode and forwarded arguments included |
| CommandTails.RunIsRepresentable | src/ipe-cli/src/cli_args.rs:863-967 | every accepted tail parses to a representable run |
| CommandExact.BuildExactly | src/ipe-cli/src/cli_args.rs:657-769 | a build tail is accepted as a build exactly when it has a lead, its flags are in order, the target, static and `--emit-ir` exclusions hold, and each field is what its own flag says |
| CommandExact.BuildRefusedFor | src/ipe-cli/src/cli_args.rs:657-769 | otherwise the refusal is the lead's, that of the first wrong flag, or an exclusion that the flags break |
| CommandExact.RunExactly | src/ipe-cli/src/cli_args.rs:863-967 | the same exact acceptance for a run, on the tokens before the first separator, with the session and the forwarded arguments |
| CommandExact.RunRefusedFor | src/ipe-cli/src/cli_args.rs:863-967 | and the same refusals |
| CommandExact.DividedExactly | src/ipe-cli/src/cli_args.rs:864-874 | the run's own tokens end at the first separator, and what follows it is forwarded |
| CommandPeek.PeekSeesBoth | src/ipe-cli/src/cli_args.rs:190-204 | the peek is the louder of the format among the option values and the format among the other tokens |
| CommandPeek.BuildFormat | src/ipe-cli/src/cli_args.rs:657-769 | the format of an accepted build tail is the peek at the tokens that are no option's value |
| CommandPeek.RunFormat | src/ipe-cli/src/cli_args.rs:863-967 | the format of an accepted run tail is the same of the tokens before the first separator |
| CommandPeek.BuildPeekAgreesExactly | src/ipe-cli/src/cli_args.rs:183-204 | on an accepted build tail the peek and the parse agree exactly when the tokens that follow value options hold no louder format flag than the others |
| CommandPeek.RunPeekAgreesExactly | src/ipe-cli/src/cli_args.rs:183-204 | on an accepted run tail, exactly when those tokens and the forwarded arguments hold no louder one than the other tokens before the separator |
| CommandPeek.PeekAgreesOnPlainTails | src/ipe-cli/src/cli_args.rs:183-204 | they agree wherever no format flag stands directly after a value option, nor, for a run, among the forwarded arguments |
| CommandPeek.PeekCanDisagree | src/ipe-cli/src/cli_args.rs:183-204 | `--out --json` is accepted, renders for humans, and is peeked as JSON |
| CommandPeek.OutTakesAnything | src/ipe-cli/src/cli_args.rs:351-359 | a value option takes whatever token follows |
| CommandPeek.ParseBuild | src/ipe-cli/src/cli_args.rs:657-769 | the parser as it runs: its results are representable, and their format is the peek at the tokens that are no option's value |
| CommandPeek.ParseRun | src/ipe-cli/src/cli_args.rs:863-967 | the same for run, split at the first separator |
| ShardCover.NumeralOrder | tools/scripts/e2e-shard-cover.py:46-48 | length-then-text order on canonical decimal numerals is numeric order |
| ShardCover.KeyCheckExactly | tools/scripts/e2e-shard-cover.py:46-48 | the sorted keys are the expected listing exactly when the key set is {"1", …, "n"} |
| ShardCover.ParsePlan | tools/scripts/e2e-shard-cover.py:42-56 | accepted exactly for 1 to 256 canonical keys with valid selections, and then shard k is the entry of numeral k; otherwise the error says which of them failed |
| ShardCover.PartitionErrors | tools/scripts/e2e-shard-cover.py:84-106 | every error that holds is reported and no other; none exactly when the shards partition the archive |
| ShardCover.PartitionExactly | tools/scripts/e2e-shard-cover.py:84-106 | no error holds exactly when the archive is non-empty and duplicate-free, the shards are 1 to a positive count, and their multiset union is the archive |
| ShardCover.OwnersIsUnion | tools/scripts/e2e-shard-cover.py:94-99 | counting shard by shard counts the multiset union, whatever the order |
| ShardCover.DistinctBySize | tools/scripts/e2e-shard-cover.py:91-93 | a listing is as long as its set of members exactly when it repeats nothing |
| Durations.RunExactly | src/ipe-cli/src/cli_transcript.rs:243-274 | the finder answers n exactly when the first n characters are a number and a unit that no letter or digit follows |
| Durations.DurationRun | src/ipe-cli/src/cli_transcript.rs:243-274 | the index loops compute that answer |
| Durations.RedactDurations | src/ipe-cli/src/cli_transcript.rs:218-239 | the scanning loop writes the specified text |
| Durations.PiecesExactly | src/ipe-cli/src/cli_transcript.rs:218-239 | left to right, each piece is a duration if and only if one stands there at a boundary, and then the whole of it |
| Durations.RedactIsComplete | src/ipe-cli/src/cli_transcript.rs:218-239 | no boundary-started duration is left in the output |
| Durations.RedactIsIdempotent | src/ipe-cli/src/cli_transcript.rs:218-239 | redacting twice is redacting once |
| Durations.PiecesAreTheInput | src/ipe-cli/src/cli_transcript.rs:218-239 | the durations and kept characters, in order, are the input |
| Durations.PiecesAreTheOutput | src/ipe-cli/src/cli_transcript.rs:218-239 | the output is the same pieces with one placeholder for each duration |
| Durations.ReplacedAreDurations | src/ipe-cli/src/cli_transcript.rs:218-239 | only durations are replaced |
| ContainedPath.CheckComponents | src/ipe-cli/src/contained_path.rs:80-91 | the first component that is not plain is refused with its own reason |
| ContainedPath.NamesExactly | src/ipe-cli/src/contained_path.rs:93 | the names a path joins are its components other than `.`, in order |
| ContainedPath.DeepestAncestor | src/ipe-cli/src/contained_path.rs:120-135 | where the root resolves, the walk ends at the deepest existing ancestor at or below it, never fails closed, and keeps ancestor and tail joined to the path |
| ContainedPath.Parse | src/ipe-cli/src/contained_path.rs:77-142 | each refusal is the right one, and the accepted path is where the deepest existing ancestor resolves, under the root, with the rest appended |
| ContainedPath.ResultIsUnderRoot | src/ipe-cli/src/contained_path.rs:137-141 | the resolved root is a component prefix of the result, and no dotted component follows |
| ContainedPath.StrictlyInsideExactly | src/ipe-cli/src/contained_path.rs:1-9 | the result is strictly inside the root exactly when the joined path does not itself resolve to the root |
| ContainedPath.RootResolvesToItself | src/ipe-cli/src/contained_path.rs:101-106 | an empty candidate or `.` is accepted and resolves to the root |
| ContainedPath.ResolvesToOne | src/ipe-cli/src/contained_path.rs:101-141 | on one file system a candidate resolves to one path at most |
| LaterPaths.OnlyTheFirstDangles | src/ipe-cli/src/contained_path.rs:110-141 | of the missing names only the first can be a link |
| LaterPaths.LaterResolution | src/ipe-cli/src/contained_path.rs:70-76 | once its missing tail has been created, an accepted path resolves to itself, or, if its first missing name was a dangling link, to what that link leads to |
| LaterPaths.LinkReplaced | src/ipe-cli/src/contained_path.rs:70-76 | replacing a dangling link by its target leads to the same place along fewer links |
| LaterPaths.ExistingSettles | src/ipe-cli/src/contained_path.rs:110-141 | once the path exists, that repeated walk ends, where the path resolves |
| LaterPaths.SettledIsLater | src/ipe-cli/src/contained_path.rs:110-141 | wherever the repeated walk ends is where the path resolves |
| LaterPaths.StaysUnderRootExactly | src/ipe-cli/src/contained_path.rs:70-76 | it then resolves under the root exactly when the check's own walk, taken again from the top for each dangling link it meets, settles under the root; the file system and links at the check decide that |
| LaterPaths.DanglingLinkEscapes | src/ipe-cli/src/contained_path.rs:70-76 | one link, dangling at the check, for which it does not |

## Left out

- The file system, processes and threads: the disk is a map, a read is any sequence of chunks, a write may be lost, and a directory listing is a value. Held directory handles, salts and markers are not part of this model.
- Races with the outside: a path check sees one state of the file system throughout, and `LaterPaths` lets later states only add entries that are no links.
- SHA-256, JSON, TOML and serde internals, the symbol interner's relocation, and the shard listing's JSON.
- Message text, rendering and diagnostics: an error carries a tag, and a note printed for a shadowed delivery word is not modelled.
- `skip_trivia_to_next_token` in the scanner: the column and the text ahead are inputs.
- Allocation failure and 32-bit overflow of the scanner's array length.
- I/O errors while walking or hashing a tree: a listing and a file that can be opened are read whole.
- `cargo_step.rs`: each reader is one loop with one bound, and none shares state with another.
- `admit_triple`, `resolve_checked` and the control-model tables: finite tables that a case split settles.
- `parse_release`, `parse_watch`, `parse_eject` and `parse_fix`: the same flag loop with other slots.
- The volatile-path prefixes and the version text of a transcript: plain substring replacement.
- The 64 KiB limit on the plan's text: it is checked before decoding.
- `canon_type_to_doc` and value signatures: other renderers of the same types.
