# Models of Trilinos tooling and of two PyTrilinos bridge components

This project models the parts of Trilinos that surround its numerics and that carry intricate logic
of their own, and proves what each of them promises.

* **Package dependencies** (`DependencyLabels`, `DependencyChains`, `DependencyRows`, `DependencyTable`).
  A recursive walk over dependency lists fills a table of labels in place. The walk is shown to visit
  exactly the dependency chains, so that the table holds the strongest label over all of them.
* **File ownership** (`FilePaths`). From modified files to the packages that own them.
* **The check-in test** (`CheckinState`, `CheckinSafety`, `CheckinProgress`, `CheckinTest`). Success marker files survive
  invocations of the script. `CheckinState` gives one invocation as a function of its options and of the
  results of the commands it runs; `CheckinTest` is the script as a class that touches and removes the
  files, and refines that function; `CheckinSafety` proves what holds over all sequences of invocations
  and what a push implies; `CheckinProgress` proves the other direction, which markers an invocation earns
  and exactly what it pushes.
* **The amended commit message** (`CommitLog`, `TextLines`). Reading a message back without its
  test summary, and appending a new summary, over any number of rounds.
* **Python dictionaries and Teuchos parameter lists** (`ParameterValues`, `ParameterSync`). The two
  recursive in-place updates compute a deep merge in which the list wins.
* **Text scanners** (`BlockGrammar`, `TemplateArgs`, `PyStrings`, `RepoVersions`, `AsciiTables`,
  `RstDocs`, `RstPrinting`, `RstTemplates`). Delimited blocks, comments, RepoVersion files, text tables,
  documentation blocks and templates.
* **The stream buffer over a C file** (`FileStream`). One byte buffer as get area or as put area.
* **Relative paths** (`RelativePath`).
* **The package database** (`PackageIds`, `PackageDatabase`). In-place passes that end in referential integrity.

Python strings are sequences of characters, Python exceptions are error values, and everything that the
outside world decides (exit codes, file reads, repository states) is an input over which the results are
universally quantified. Markers record the position in the command history at which they were touched.
`Option`, `Result` and the like are in `Wrappers`.

## Where the code does not do what it is meant to

Each of these is a lemma with a concrete input, or one half of an exact condition.

* The raw dependency table raises when a package reaches itself through a test dependency, although the
  libraries are acyclic: the diagonal mark has one character and the merge indexes the second
  (`TestCycleHasSelfChain`; `CreateRawTable` raises iff there is such a chain).
* An unforced push does not always mean that something was tested: a case without enabled packages touches
  the test marker, and a later invocation that only pushes counts it (`SkippedCaseIsPushedLater`,
  `UnforcedPushTestedIff`).
* Amending drops blank lines at the end of the original message (`StrippingUndoesAppending`).
* Synchronisation can succeed without equivalence, because Python integers are cast to `int` and strings end
  at their first NUL (`SynchronizeParameters`); a nested dictionary that cannot be converted makes
  `setPythonParameter` dereference a null pointer (`SetPythonParameter`).
* `underflow` copies bytes from before the buffer if the first fill was not empty but shorter than the
  put-back area (`ReadAll`), and `overflow` ignores the result of its flush (`Overflow`, `WriteOps`).
* The package found for a file is the innermost one only if nested packages are listed first
  (`OwnerIsInnermostIffNestedFirst`).

## Model

| member | source | states |
|---|---|---|
| DependencyLabels.UpdatePackageDepJoins | cmake/tribits/ci_support/TribitsDependencies.py:143-192 | On printed labels the merge never hits its assertion and returns the stronger one: required over optional, then direct over indirect, then library over test |
| DependencyLabels.WeakerIsTotalOrder | cmake/tribits/ci_support/TribitsDependencies.py:143-192 | That strength is a total order, so the order in which labels collide does not matter |
| DependencyLabels.PrioritiesOfLetters | cmake/tribits/ci_support/TribitsDependencies.py:143-192 | On the letters: R beats O whatever the rest, then no leading I beats I, then L beats T, in either order of the arguments |
| DependencyLabels.LabelTextsAreShown | cmake/tribits/ci_support/TribitsDependencies.py:292-311 | The label texts are exactly an optional I, then L or T, then R or O |
| DependencyLabels.ShowIndexed | cmake/tribits/ci_support/TribitsDependencies.py:124-140 | The character positions that the label tests look at are where the printed label has its required, direct and library letters |
| DependencyLabels.ShowIsInjective | cmake/tribits/ci_support/TribitsDependencies.py:124-140 | Two labels that print alike are the same label |
| DependencyLabels.NewDepNameShows | cmake/tribits/ci_support/TribitsDependencies.py:292-311 | The text built for a new cell is the label of the edge just taken in the current walk state |
| DependencyLabels.UpdatePackageDepRejectsDiagonal | cmake/tribits/ci_support/TribitsDependencies.py:143-192 | Merging into the diagonal mark raises for every text: the mark is too short to be indexed |
| DependencyChains.VisitHasChain | cmake/tribits/ci_support/TribitsDependencies.py:318-370 | Every cell the recursive walk reaches comes from a dependency chain with that end and that label |
| DependencyChains.ChainIsVisited | cmake/tribits/ci_support/TribitsDependencies.py:318-370 | Every dependency chain is reached by the walk, with its end and its label |
| DependencyRows.ApplyIsMaximum | cmake/tribits/ci_support/TribitsDependencies.py:292-315 | A cell ends up with its own label or one of those merged into it, and is at least as strong as all of them |
| DependencyRows.WalkGivesStrongest | cmake/tribits/ci_support/TribitsDependencies.py:318-396 | The walk from a package leaves in every cell the strongest label over all chains, and nothing iff there is no chain |
| DependencyRows.StrongestCellIsUnique | cmake/tribits/ci_support/TribitsDependencies.py:373-396 | That description fixes every cell |
| DependencyRows.SelfVisitIffSelfChain | cmake/tribits/ci_support/TribitsDependencies.py:350-396 | The walk comes back to its own diagonal cell iff some chain leads from the package to itself |
| DependencyRows.TestCycleHasSelfChain | cmake/tribits/ci_support/TribitsDependencies.py:373-396 | Two packages whose libraries are acyclic, but one of which tests itself with the other, make the full table raise |
| DependencyRows.LibsOnlyHasNoSelfChain | cmake/tribits/ci_support/TribitsDependencies.py:373-396 | The libs-only table of a project with acyclic libraries never raises |
| DependencyRows.FullyOrderedHasNoSelfChain | cmake/tribits/ci_support/TribitsDependencies.py:373-396 | Nor does the full table if some order of the packages also covers test dependencies |
| DependencyRows.ListOrderIsIrrelevant | cmake/tribits/ci_support/TribitsDependencies.py:318-396 | Permuting or repeating entries of any dependency list leaves every cell as it is |
| DependencyRows.FullTableRefinesLibsOnlyTable | cmake/tribits/ci_support/TribitsDependencies.py:350-396 | A full-table cell is at least as strong as the libs-only cell, and equal to it when it carries a library label; the libs-only cell is empty iff all chains start with a test edge |
| DependencyTable.TableIgnoresListOrder | cmake/tribits/ci_support/TribitsDependencies.py:373-396 | The printed rows are determined by which dependencies are listed, not by their order |
| DependencyTable.WalkLeavesTableTexts | cmake/tribits/ci_support/TribitsDependencies.py:350-396 | A walk over a fresh row raises iff the package has a chain to itself, and otherwise leaves exactly the row's specified texts |
| DependencyTable.CellTellsChains | cmake/tribits/ci_support/TribitsDependencies.py:318-396 | What a finished cell says, letter by letter: empty iff there is no chain; R iff some chain is all required; no I iff some such chain has one edge; L iff some such chain starts with a library edge |
| DependencyTable.EdgesComeFromLists | cmake/tribits/ci_support/TribitsDependencies.py:318-370 | Which of the four lists of a package gives which edges of the graph |
| DependencyTable.TagReadsBack | cmake/tribits/ci_support/TribitsDependencies.py:381-386 | Reading the digits of a package tag from left to right gives the package number; there are at least two digits, with a leading zero only below ten |
| DependencyTable.TribitsDependencies.AddPackageDependencies | cmake/tribits/ci_support/TribitsDependencies.py:223-229 | Adding appends to the list, sets the ID and updates both indexes, and keeps them consistent with the list |
| DependencyTable.TribitsDependencies.GetPackageByName | cmake/tribits/ci_support/TribitsDependencies.py:244-245 | Gives the package that the index records for the name |
| DependencyTable.TribitsDependencies.UpdateDepCell | cmake/tribits/ci_support/TribitsDependencies.py:292-315 | One cell update in place: it raises iff the cell is the row's own, otherwise it merges one label into that cell and leaves the others |
| DependencyTable.TribitsDependencies.UpdatePackageDepsCategory | cmake/tribits/ci_support/TribitsDependencies.py:318-347 | The loop over one dependency list leaves the row as the visits of that list leave it |
| DependencyTable.TribitsDependencies.UpdatePackageDeps | cmake/tribits/ci_support/TribitsDependencies.py:350-370 | The recursion over the lists leaves the row as all visits from the package leave it |
| DependencyTable.TribitsDependencies.CreateRawTable | cmake/tribits/ci_support/TribitsDependencies.py:373-396 | Terminates on acyclic libraries; raises iff some package has a chain to itself; otherwise X stands on the diagonal and every other cell is the strongest label over all chains; the top row holds a tag for every package whose number can be read from it, so all tags differ, and every row starts with its tag and its package's name |
| FilePaths.GetPackageNameFromPath | cmake/tribits/ci_support/TribitsDependencies.py:256-266 | Gives the first listed package whose directory the file lies below, or the empty name |
| FilePaths.OwnerIsInnermostIffNestedFirst | cmake/tribits/ci_support/TribitsDependencies.py:256-266 | Every file goes to the longest matching directory if and only if nested directories are listed before the ones around them, as the comment in the source assumes |
| FilePaths.GetPackagesListFromFilePathsList | cmake/tribits/ci_support/TribitsPackageFilePathUtils.py:132-145 | The loop with its flag computes the list that the next two lemmas describe |
| FilePaths.ListHoldsExactlyTheOwners | cmake/tribits/ci_support/TribitsPackageFilePathUtils.py:132-145 | The list names exactly the owning packages, without duplicates, and ALL_PACKAGES iff it is asked for and some file is global |
| FilePaths.MoreFilesOnlyAppend | cmake/tribits/ci_support/TribitsPackageFilePathUtils.py:132-145 | Further files only append: names stand in first-seen order |
| FilePaths.GlobalFilesAre | cmake/tribits/ci_support/TribitsPackageFilePathUtils.py:87-108 | Which paths are global: CMakeLists.txt and other CMake files at the top except two lists, and CMake files below cmake except the list of repositories and those for ctest, libraries and unit tests |
| FilePaths.OneFileIsListed | cmake/tribits/ci_support/TribitsPackageFilePathUtils.py:132-145 | An owner is listed by its name without the space around it, and ALL_PACKAGES behind it if the same file is global |
| CheckinSafety.InvokeKeepsWorldOk | cmake/tribits/ci_support/CheckinTest.py:2005-2785 | One invocation with any options and any command results keeps: make marker implies configure marker, test marker implies make marker unless it came from the no-enables path, every marker is the trace of the command that earned it, and none predates a pull attempt that selected its case |
| CheckinSafety.AllRunsKeepWorldOk | cmake/tribits/ci_support/CheckinTest.py:2005-2785 | So does every sequence of invocations from an empty directory |
| CheckinSafety.SameSelectionKeepsMarkersNew | cmake/tribits/ci_support/CheckinTest.py:1662-1689 | If the selected cases stay the same, no success marker of a selected case predates the latest initial pull attempt |
| CheckinSafety.UnforcedPushMeansTested | cmake/tribits/ci_support/CheckinTest.py:2463-2785 | In an invocation that pulls, configures, builds or tests, an unforced push implies: some selected, not skipped case had ctest return 0 in it, every other selected one did or was skipped for lack of enabled packages, the pull marker exists, the final pulls and requested amends passed |
| CheckinSafety.NoRunNoUnforcedPush | cmake/tribits/ci_support/CheckinTest.py:2378-2420 | A graceful abort, or any other reason not to run the build cases, never leads to an unforced push |
| CheckinSafety.UnforcedPushReliesOnMarkers | cmake/tribits/ci_support/CheckinTest.py:2463-2558 | Whatever is requested, an unforced push relies on markers newer than every pull attempt that selected the case |
| CheckinSafety.SkippedCaseIsPushedLater | cmake/tribits/ci_support/CheckinTest.py:1626-1634 | Two invocations after which something has been pushed unforced although no configure, build or test ever ran: the marker touched on the no-enables path counts in a later push-only invocation |
| CheckinSafety.UnforcedPushTestedIff | cmake/tribits/ci_support/CheckinTest.py:2463-2785 | Exactly when an unforced push means that some selected case was tested: the pushing invocation performs an action, or before it some selected case had a marker that does not come from the no-enables path |
| CheckinProgress.PassingRunPushes | cmake/tribits/ci_support/CheckinTest.py:2005-2785 | If every step is requested and every command returns 0, each selected case ends with configure, make and test markers touched in this order in this invocation, and every repository with commits is pushed, unforced |
| CheckinProgress.FullRunPushesExactly | cmake/tribits/ci_support/CheckinTest.py:2005-2785 | For an invocation that configures, builds and tests, whatever the results: the markers of all passing cases, the pull marker, and exactly which pushes happen, unforced and forced, repository by repository |
| CheckinProgress.LocalRunNeedsPullToPush | cmake/tribits/ci_support/CheckinTest.py:2345-2356 | A local run earns its markers without a pull, but pushes only if an earlier pull is current |
| CheckinProgress.FailingRunPushesIffForced | cmake/tribits/ci_support/CheckinTest.py:2519-2530 | If some selected case fails, all repositories with commits are pushed iff forcing is requested, and then only forced |
| CheckinProgress.PushOnlyPushesExactly | cmake/tribits/ci_support/CheckinTest.py:2463-2785 | An invocation that only pushes leaves all markers alone, and exactly what it pushes given the markers it finds |
| CheckinProgress.CaseIsTestedIff | cmake/tribits/ci_support/CheckinTest.py:1519-1638 | Exactly when a selected case's tests are run with success, whatever steps are requested: its own configure and build passed, or were not requested and their markers survived the cleaning |
| CheckinProgress.NoBuildCommandUnlessRun | cmake/tribits/ci_support/CheckinTest.py:2378-2420 | Without build actions, after a graceful abort, a failed pull or an exception no case is configured, built or tested |
| CheckinProgress.UnselectedDirsStay | cmake/tribits/ci_support/CheckinTest.py:1692-1717 | An invocation leaves the build directories of cases that are not selected alone |
| CheckinProgress.CleaningRemovesExactly | cmake/tribits/ci_support/CheckinTest.py:1662-1689 | Which markers of a selected case cleaning removes and which it keeps |
| CheckinProgress.ReadyIff | cmake/tribits/ci_support/CheckinTest.py:2465-2512 | All cases run from clean directories are ready to push iff none failed and one passed |
| CheckinProgress.PushesAre | cmake/tribits/ci_support/CheckinTest.py:2737-2778 | Each repository with commits is pushed until a push fails |
| CheckinProgress.FinalPullsAre | cmake/tribits/ci_support/CheckinTest.py:2610-2632 | Each repository is pulled before the push until a pull fails |
| CheckinProgress.AmendsAre | cmake/tribits/ci_support/CheckinTest.py:2651-2698 | Each repository with commits is amended until an amend fails; one that raises does not end the amends |
| CheckinProgress.InitialPullIs | cmake/tribits/ci_support/CheckinTest.py:2192-2357 | When an invocation attempts the initial pull, whether it passes, and the marker that is left |
| CheckinProgress.EmailMarkerIff | cmake/tribits/ci_support/CheckinTest.py:1646-1659 | The e-mail marker exists after a case iff it was there or the analysis touched it |
| CheckinTest.CheckinDirectory.CleanBuildTestCaseOutputFiles | cmake/tribits/ci_support/CheckinTest.py:1662-1689 | Which markers of a case's directory are removed in place, or the directory with them |
| CheckinTest.CheckinDirectory.DoInitialPull | cmake/tribits/ci_support/CheckinTest.py:2192-2357 | The pull step: marker touched iff the pull passed, and what counts as a passed pull without pulling |
| CheckinTest.CheckinDirectory.DoConfigure | cmake/tribits/ci_support/CheckinTest.py:1519-1560 | The configure step with its skip flag, marker and exception |
| CheckinTest.CheckinDirectory.DoBuild | cmake/tribits/ci_support/CheckinTest.py:1563-1599 | The build step with its marker and exception |
| CheckinTest.CheckinDirectory.DoTest | cmake/tribits/ci_support/CheckinTest.py:1601-1638 | The test step, including the marker touched when the case is skipped |
| CheckinTest.CheckinDirectory.RunBuildTestCase | cmake/tribits/ci_support/CheckinTest.py:1424-1659 | One case from start to analysis, as the step functions compose |
| CheckinTest.CheckinDirectory.RunBuildTestCaseDriver | cmake/tribits/ci_support/CheckinTest.py:1692-1717 | Cases that are not selected change nothing; exceptions become failures |
| CheckinTest.CheckinDirectory.CheckBuildTestCaseStatus | cmake/tribits/ci_support/CheckinTest.py:1720-1775 | What a case's status says about the actions and about pushing |
| CheckinTest.CheckinDirectory.DecideToRun | cmake/tribits/ci_support/CheckinTest.py:2378-2420 | Whether the build cases run, with both graceful aborts |
| CheckinTest.CheckinDirectory.PushReadinessCheck | cmake/tribits/ci_support/CheckinTest.py:2465-2558 | Ready iff nothing failed, every selected case allows it, and at least one was not skipped |
| CheckinTest.CheckinDirectory.DoFinalPush | cmake/tribits/ci_support/CheckinTest.py:2572-2785 | Final pull, amend and push in this order, each only if the ones before passed |
| CheckinTest.CheckinDirectory.CheckinTest | cmake/tribits/ci_support/CheckinTest.py:2005-2785 | The whole imperative script refines the state function over which the safety lemmas and the lemmas about what an invocation achieves speak |
| CommitLog.GetLastCommitMessageStrFromRawCommitLogStr | cmake/tribits/ci_support/CheckinTest.py:1829-1865 | The loop over counters refines the description by key line and trailing blanks, including the failure without a blank line before the key |
| CommitLog.FindSummary | cmake/tribits/ci_support/CheckinTest.py:1829-1865 | The loop stops at the first key line, and the counted run of blanks is the one right before it |
| CommitLog.ReadBackPlain | cmake/tribits/ci_support/CheckinTest.py:1829-1865 | A message without key line is read back with a line end added |
| CommitLog.ReadBackAmended | cmake/tribits/ci_support/CheckinTest.py:1829-1865 | An amended message is read back without its summary and trailing blank lines |
| CommitLog.RoundsKeepMessage | cmake/tribits/ci_support/CheckinTest.py:2651-2681 | After any number of amend rounds only the last summary is left behind the message |
| CommitLog.StrippingUndoesAppending | cmake/tribits/ci_support/CheckinTest.py:1829-1865 | After any number of rounds reading back gives what reading the original gave, if and only if the original is not empty and does not end in a blank line |
| CommitLog.PlainMessageIsReadAsItIs | cmake/tribits/ci_support/CheckinTest.py:1829-1865 | A message without key line is read back character by character, with a line end if it had none |
| CommitLog.KeyNeedsBlankLine | cmake/tribits/ci_support/CheckinTest.py:1829-1865 | A key line that is not behind a blank line makes reading back fail |
| ParameterValues.MergeAtPlace | packages/PyTrilinos/src/PyTrilinos_Teuchos_Util.cpp:387-473 | At every path the merge holds what the list holds there, nothing below a leaf of the list, and elsewhere exactly what the dictionary held: the list wins and nothing that only the dictionary holds is lost |
| ParameterValues.MergeMeets | packages/PyTrilinos/src/PyTrilinos_Teuchos_Util.cpp:554-561 | Whether the merge can be stored depends only on what the list does not override |
| ParameterValues.StoredEquivalent | packages/PyTrilinos/src/PyTrilinos_Teuchos_Util.cpp:326-383 | A stored dictionary is equivalent to its list iff no integer left the int range and no string held a NUL, at any depth |
| ParameterValues.EquivalentLeaf | packages/PyTrilinos/src/PyTrilinos_Teuchos_Util.cpp:326-383 | Which Python objects equal a leaf of a list: the numbers and booleans of the same value, whatever their type, and for a string exactly its part before the first NUL |
| ParameterValues.EquivalentIffEveryPlaceMatches | packages/PyTrilinos/src/PyTrilinos_Teuchos_Util.cpp:326-383 | Equivalence means: at every path both sides hold nothing, or both a table, or equal leaves |
| ParameterValues.LeavesAreStoredByType | packages/PyTrilinos/src/PyTrilinos_Teuchos_Util.cpp:59-202 | The stored type of every leaf: integers modulo 2 to the 32nd, strings up to their first NUL, nothing for other objects |
| ParameterValues.SecondMergeSettles | packages/PyTrilinos/src/PyTrilinos_Teuchos_Util.cpp:554-561 | Synchronising a second time always ends in equivalence and leaves the list as it is |
| ParameterValues.ListThereAndBack | packages/PyTrilinos/src/PyTrilinos_Teuchos_Util.cpp:565-625 | A list copied to a new dictionary and back to a new list is unchanged iff no string holds a NUL |
| ParameterSync.UpdatePyDictWithParameterList | packages/PyTrilinos/src/PyTrilinos_Teuchos_Util.cpp:387-473 | Succeeds iff every parameter at any depth is supported, and then leaves the deep merge in the dictionary |
| ParameterSync.SetPythonParameter | packages/PyTrilinos/src/PyTrilinos_Teuchos_Util.cpp:59-202 | Stores one object in place, fails on unsupported leaves, and dereferences a null pointer iff a nested dictionary cannot be converted |
| ParameterSync.UpdateParameterListWithPyDict | packages/PyTrilinos/src/PyTrilinos_Teuchos_Util.cpp:477-550 | Succeeds iff everything can be converted, and then the list holds every item of the dictionary beside its other entries |
| ParameterSync.PyDictToNewParameterList | packages/PyTrilinos/src/PyTrilinos_Teuchos_Util.cpp:565-597 | A new list with the converted items, or null |
| ParameterSync.ParameterListToNewPyDict | packages/PyTrilinos/src/PyTrilinos_Teuchos_Util.cpp:601-625 | A new dictionary with the list's entries, or null |
| ParameterSync.SynchronizeParameters | packages/PyTrilinos/src/PyTrilinos_Teuchos_Util.cpp:554-561 | When it succeeds, when it does not, that both sides then are the deep merge of the inputs, and exactly when they are equivalent |
| ParameterSync.IsEquivalent | packages/PyTrilinos/src/PyTrilinos_Teuchos_Util.cpp:326-383 | The two loops and the recursion decide the equivalence that EquivalentIffEveryPlaceMatches describes at every place |
| BlockGrammar.BlockIsScanned | commonTools/buildTools/template_args.py:40-120 | Every block of the nested-delimiter grammar, in which quotes hide all other delimiters, is accepted by the stack machine with its end |
| BlockGrammar.ScannedIsBlock | commonTools/buildTools/template_args.py:40-120 | Whatever the stack machine accepts is a block of the grammar |
| BlockGrammar.PairsOfDelimiters | commonTools/buildTools/template_args.py:49-101 | Around a text without delimiters exactly the six pairs of delimiters make a block |
| BlockGrammar.QuotesHide | commonTools/buildTools/template_args.py:75-93 | Between quotes any text without that quote makes a block |
| TemplateArgs.OnlyBlockFrom | commonTools/buildTools/template_args.py:40-120 | Blocks are prefix-free: at most one ends a text that starts at a given place |
| TemplateArgs.FindBlock | commonTools/buildTools/template_args.py:40-120 | Returns the block at the first opening delimiter from the position on whenever there is one, raises iff there is none at that delimiter, and no proper prefix of the result is a block |
| TemplateArgs.RemoveComments | commonTools/buildTools/template_args.py:20-36 | The two rewriting loops terminate in a text with neither a complete C comment nor a line comment; what is kept is said by CCommentIsCut, LineCommentIsCut and NothingElseIsRemoved |
| TemplateArgs.CutKeepsNoCComment | commonTools/buildTools/template_args.py:20-36 | Cutting a line comment never creates a C comment |
| TemplateArgs.CCommentIsCut | commonTools/buildTools/template_args.py:20-36 | The leftmost C comment is cut out and the texts before and behind it are treated as if it had never been there |
| TemplateArgs.LineCommentIsCut | commonTools/buildTools/template_args.py:20-36 | A line comment is cut out up to its line end, and the lines behind it are treated on their own |
| TemplateArgs.NothingElseIsRemoved | commonTools/buildTools/template_args.py:20-36 | A text without a complete C comment loses only line comments, and one without these stays as it is |
| TemplateArgs.StripCCommentsRemovesAll | commonTools/buildTools/template_args.py:20-36 | The first loop leaves no complete C comment |
| TemplateArgs.RemoveCommentsIsIdempotent | commonTools/buildTools/template_args.py:20-36 | Removing comments twice is removing them once |
| TemplateArgs.StripsLineByLine | commonTools/buildTools/template_args.py:20-36 | The second loop cuts every line at its first double slash and keeps all line ends |
| FileStream.FILEstream.constructor | packages/PyTrilinos/src/PyTrilinos_FILEstream.cpp:55-66 | Sizes and empty areas of the one buffer that serves both directions |
| FileStream.FILEstream.Underflow | packages/PyTrilinos/src/PyTrilinos_FILEstream.cpp:68-89 | Leaves the buffer iff it refills with fewer than the put-back size behind it; otherwise the next character is the file's next one and the put-back bytes before it are the last delivered |
| FileStream.FILEstream.Sungetc | packages/PyTrilinos/src/PyTrilinos_FILEstream.cpp:68-89 | Stepping back gives the character delivered last, as far as the get area reaches |
| FileStream.ReadAll | packages/PyTrilinos/src/PyTrilinos_FILEstream.cpp:68-89 | For any pattern of fread results the characters come in the file's order and completely; the buffer is left exactly if the first fill is not empty, shorter than the put-back area, and read to its end |
| FileStream.FILEstream.Sync | packages/PyTrilinos/src/PyTrilinos_FILEstream.cpp:102-112 | What fwrite accepted goes to the file, the put area is emptied, and a short write is reported |
| FileStream.FILEstream.Overflow | packages/PyTrilinos/src/PyTrilinos_FILEstream.cpp:91-100 | Stores in bounds after flushing, and reports success even if the flush was short |
| FileStream.WriteOps | packages/PyTrilinos/src/PyTrilinos_FILEstream.cpp:91-112 | Over any interleaving of puts, flushes and syncs, file plus put area is what was put, if and only if no fwrite was short |
| RelativePath.JoinDirs | cmake/tribits/python_utils/GeneralScriptSupport.py:446-460 | Joins components with separators only after something that is not empty |
| RelativePath.SplitJoinedDirs | cmake/tribits/python_utils/GeneralScriptSupport.py:446-460 | Splitting a joined path gives its components back |
| RelativePath.DownDirsArray | cmake/tribits/python_utils/GeneralScriptSupport.py:463-470 | A list of that many steps up |
| RelativePath.FewestUps | cmake/tribits/python_utils/GeneralScriptSupport.py:587-621 | No relative path between two directories goes up less often than the first lies below the common part |
| RelativePath.GetRelativePathFrom1to2 | cmake/tribits/python_utils/GeneralScriptSupport.py:587-621 | Following the result from the first directory leads to the second, and no relative path that does goes up less often |
| PackageIds.IdSplits | commonTools/release/updateTrilinosDB.py:35-40 | Name and version without a dash can be read back from the ID |
| PackageIds.LessIsTransitive | commonTools/release/updateTrilinosDB.py:245-247 | The order in which lists are sorted is transitive |
| PackageIds.LessIsTotal | commonTools/release/updateTrilinosDB.py:245-247 | That order is total and strict, so a sorted list without duplicates is unique |
| PackageIds.LessAtFirstDifference | commonTools/release/updateTrilinosDB.py:245-247 | Texts are ordered by the first character in which they differ, prefixes first |
| PackageDatabase.PackageDb.GetSubpackages | commonTools/release/updateTrilinosDB.py:174-189 | Sub-packages become exactly the inverse of parents, once each, and nothing else changes |
| PackageDatabase.PackageDb.GetTrilinosVersion | commonTools/release/updateTrilinosDB.py:147-171 | The version in some key that starts with Trilinos, whichever is met first |
| PackageDatabase.PackageDb.ExtractTpls | commonTools/release/updateTrilinosDB.py:192-212 | The sorted names that are dependencies but no packages |
| PackageDatabase.PackageDb.ProcessList | commonTools/release/updateTrilinosDB.py:234-247 | One list in place from names to the sorted IDs of the same names |
| PackageDatabase.PackageDb.ProcessDependencies | commonTools/release/updateTrilinosDB.py:215-263 | All lists become IDs and the third-party libraries become packages |
| PackageDatabase.PackageDb.ProcessXmlFile | commonTools/release/updateTrilinosDB.py:266-274 | After both passes every dependency is a key, every list is sorted and duplicate-free and names the same packages as before, sub-packages invert parents, packages keep name, version and parent, and what is new are exactly the third-party libraries |
| PackageDatabase.DependenciesAreKeys | commonTools/release/updateTrilinosDB.py:215-263 | Referential integrity of both kinds of dependency lists |
| PackageDatabase.SubPackagesInvertParents | commonTools/release/updateTrilinosDB.py:174-189 | The inverse still holds when libraries have been added |
| PackageDatabase.NamesReadBack | commonTools/release/updateTrilinosDB.py:234-247 | The names in the finished IDs are the names that were listed |
| PackageDatabase.KeysStayOwn | commonTools/release/updateTrilinosDB.py:215-263 | If every key read is the ID of its record's own name and version, so is every key of the finished database |
| PackageDatabase.LibraryRecord | commonTools/release/updateTrilinosDB.py:252-264 | A library is entered under its name and Unspec, with that version and without parent and dependencies |
| RepoVersions.GetRepoVersionDictFromRepoVersionFileString | cmake/tribits/python_utils/gitdist.py:652-680 | The loop over the index refines the parser, including the errors for a missing colon and a missing version line |
| RepoVersions.ParsePrinted | cmake/tribits/python_utils/gitdist.py:652-680 | Parsing a printed file gives back its map from directory to SHA1, for any mix of two-line and three-line records |
| RepoVersions.LastEntryWins | cmake/tribits/python_utils/gitdist.py:652-680 | The last entry for a directory wins |
| RepoVersions.ParseGoesOn | cmake/tribits/python_utils/gitdist.py:652-680 | Whole records are read, and reading goes on behind them |
| RepoVersions.FileEnds | cmake/tribits/python_utils/gitdist.py:652-680 | Behind whole records: a line that is no heading ends the reading, a heading without a colon and a heading without a line behind it are errors |
| RepoVersions.HeadingInGeneral | cmake/tribits/python_utils/gitdist.py:652-680 | The directory of a heading stands between the first two colons, without the space around it |
| RepoVersions.VersionInGeneral | cmake/tribits/python_utils/gitdist.py:652-680 | The version stands before the first blank, without other space around it |
| AsciiTables.CreateAsciiTable | cmake/tribits/python_utils/gitdist.py:313-361 | Fails on no columns and on the first column of another length, and otherwise accumulates the lines of the table |
| AsciiTables.GetTableField | cmake/tribits/python_utils/gitdist.py:296-299 | A field no wider than its column becomes a text of fixed length that holds it at the left or, for R, at the right end of its column |
| AsciiTables.TableWidths | cmake/tribits/python_utils/gitdist.py:318-336 | The widths found by the loops are those of the longest label or field |
| AsciiTables.TableIsRectangular | cmake/tribits/python_utils/gitdist.py:313-361 | The text has four more lines than the table has rows, all of the same length |
| AsciiTables.FieldIsInItsColumn | cmake/tribits/python_utils/gitdist.py:338-358 | Every line is as long as its columns need and holds each field at that column's start |
| AsciiTables.FieldIsReadBack | cmake/tribits/python_utils/gitdist.py:313-361 | Every field comes back from its column span when the padding is taken off |
| AsciiTables.CaptionIsReadBack | cmake/tribits/python_utils/gitdist.py:338-343 | Every label comes back from the second line in the same way |
| AsciiTables.ColumnsAreBarred | cmake/tribits/python_utils/gitdist.py:338-358 | Spaces at both ends of a field and a bar behind it, in every line with fields |
| AsciiTables.RuleIsDashed | cmake/tribits/python_utils/gitdist.py:344-348 | The line under the labels consists of dashes, with bars between the columns |
| AsciiTables.BordersAreDashes | cmake/tribits/python_utils/gitdist.py:337-361 | The first and the last line consist of dashes |
| RstDocs.ExtractRstDocBlocksFromText | cmake/tribits/python_utils/extract_rst_cmake_doc.py:229-330 | The loop with its two state flags refines the line-by-line scan, error by error |
| RstDocs.GetLineEntityTypeAndName | cmake/tribits/python_utils/extract_rst_cmake_doc.py:205-218 | Kind and name of the entity on a line, and the two ways a line has none |
| RstDocs.EveryBlockHasItsSource | cmake/tribits/python_utils/extract_rst_cmake_doc.py:229-330 | No block is made up: each extracted one stands in the text with a line that names it, comment lines that are its body, and a line that declares the entity of its kind and base name |
| RstPrinting.EntityIsRead | cmake/tribits/python_utils/extract_rst_cmake_doc.py:196-218 | The entity line of a printed block is read as its kind and base name, whatever follows the name |
| RstPrinting.PrintedBlocksAreExtracted | cmake/tribits/python_utils/extract_rst_cmake_doc.py:229-330 | Extraction inverts printing, with any other lines between the blocks, and with each blank line of a body written with or without a space after its hash |
| RstPrinting.DifferentNamesAreKept | cmake/tribits/python_utils/extract_rst_cmake_doc.py:318-324 | Blocks with different names all come back, and no others |
| RstPrinting.OpenBlockIsDropped | cmake/tribits/python_utils/extract_rst_cmake_doc.py:295-330 | A block that is still open at the end of the file is dropped |
| RstPrinting.BadLineInBlock | cmake/tribits/python_utils/extract_rst_cmake_doc.py:284-300 | In a block a comment without a space after the hash, and a line without a parenthesis, are errors |
| RstPrinting.OtherEntityInBlock | cmake/tribits/python_utils/extract_rst_cmake_doc.py:295-311 | An entity of another kind or another base name is an error |
| RstPrinting.NamelessEntityInBlock | cmake/tribits/python_utils/extract_rst_cmake_doc.py:205-218 | An entity line without a name is an error |
| RstPrinting.MarkerNeedsOneColon | cmake/tribits/python_utils/extract_rst_cmake_doc.py:256-270 | A line that names a kind needs exactly one colon |
| RstPrinting.MarkerWithSpace | cmake/tribits/python_utils/extract_rst_cmake_doc.py:256-270 | Space around the name of a block does not count |
| RstPrinting.EntityWithSpace | cmake/tribits/python_utils/extract_rst_cmake_doc.py:205-218 | Space around the kind of an entity and before its name does not count |
| RstTemplates.ReplaceWithRstDocBlocksInText | cmake/tribits/python_utils/extract_rst_cmake_doc.py:362-431 | The loop refines the line-by-line replacement, error by error |
| RstTemplates.TemplateIsExpanded | cmake/tribits/python_utils/extract_rst_cmake_doc.py:362-431 | Marker lines become name, underline of the same length and body; all other lines are copied, except for one blank last line |
| RstTemplates.SectionIsUnderlined | cmake/tribits/python_utils/extract_rst_cmake_doc.py:347-348 | A section is the name, a line of the separator as long as the name, and the body |
| RstTemplates.MarkerIsCheckedInOrder | cmake/tribits/python_utils/extract_rst_cmake_doc.py:388-416 | Which blocks and separators a marker accepts, and the error for each other one |
| RstTemplates.MarkerNeedsSeparator | cmake/tribits/python_utils/extract_rst_cmake_doc.py:388-398 | A marker without a separator is an error |
| RstTemplates.MoreSpacesBetweenWords | cmake/tribits/python_utils/extract_rst_cmake_doc.py:351-356 | Any number of spaces may stand between the name and the separator of a marker |
| RstTemplates.FirstBadMarkerFails | cmake/tribits/python_utils/extract_rst_cmake_doc.py:362-431 | The first marker with an error decides the result, whatever follows |
| RstTemplates.MarkerShowsPrintedBody | cmake/tribits/python_utils/extract_rst_cmake_doc.py:229-431 | End to end: the marker of a printed block is replaced by the body that was printed for it |

## Left out

- DependencyTable.TribitsDependencies.CreateRawTable: requires that every listed dependency is a known package and that library dependencies are acyclic, since the code looks every name up without a check and recurses along libraries without a bound.
- FilePaths.ListHoldsExactlyTheOwners: requires names that are their own strip and differ from ALL_PACKAGES, since the code strips a name only when it appends it and looks up the unstripped one.
- FilePaths.GetPackageNameFromPath: takes package directories as literal prefixes, although the code passes them to a regular expression match.
- CheckinSafety.UnforcedPushMeansTested: requires different names for the build cases, since two cases with one name share a build directory.
- CheckinProgress.FullRunPushesExactly: requires different names for the build cases, for the same reason, and an invocation that no exception ends before its build cases.
- CommitLog.RoundsKeepMessage: assumes that git stores the text of the message file as it is, without its default cleanup.
- ParameterSync.SynchronizeParameters: models raiseError mode only; nested dictionaries are values, so dictionaries that are shared or contain themselves are not captured, and neither is the order of items.
- ParameterSync.SetPythonParameter: has no sequences, arrays or wrapped parameter lists among its values, and floats are real numbers, without NaN and infinities.
- FileStream.FILEstream.Underflow: a stream is used in one direction only; the two areas share the buffer, and mixing them is not captured.
- RelativePath.GetRelativePathFrom1to2: for paths that are not normalised, absolute and below the root it states only how the text is put together, since "." and ".." inside the paths are compared as names.
- DependencyTable.TribitsDependencies.AddPackageDependencies: requires that a package object is added once; adding it again would give its first place a second ID.
- PackageDatabase.PackageDb.ProcessXmlFile: requires what the reading pass leaves: names and version without a dash, keys that match the names, and parents that exist.
- RepoVersions.ParsePrinted: requires summary lines that do not look like headings, directories without a colon and SHA1s without a space.
- AsciiTables.FieldIsReadBack: requires fields without a space on the side of their padding, which cannot be told from it.
- RstPrinting.PrintedBlocksAreExtracted: requires names and kinds that the line format can carry: no colon or line end, a base name without a space and not ending in a parenthesis, and no earlier kind that is a prefix of the line.
- Which files are global build files is taken from the code of `isGlobalBuildFileRequiringGlobalRebuild`; its comment names other files (`cmake/ProjectPackages.cmake`, `cmake/TrilinosTPLs.cmake`).
- The HTML pages made from the dependency table, and the filtering of packages by type.
- Line ends other than "\n", Unicode and character encodings.
- Running git, cmake, make, ctest and mail programs, option parsing, e-mail texts, timings, and printing; the analysis of a case is an arbitrary result.
- The extra command that runs when a push is ready, and the e-mails after it, which touch no marker.
- Reading and writing XML, HTML and CSV files, and the maturity levels of the package database.
- The list of enabled packages of a build case; whether it is empty is an input.
- Reference counting in CPython, NumPy and SWIG.
- The adapters of PyTrilinos for Epetra, Tpetra, Domi, EpetraExt and ML, the FEI headers, and the thread pool, whose implementations or libraries are not part of this model.
- The behaviour of a stream after the end of its file, beyond further attempts to fill it.
