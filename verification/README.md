# Verified models of Namir's checkers and of its audio plumbing

Namir is an amp simulator, shipped as a standalone application and a CLAP plug-in. Its repository carries a
development tool, `xtask`, made of small hand-written parsers, scanners, codecs and reconcilers that stand
guard over releases, licences, requirements and brand assets; and an application, `namir-app`, whose audio
path crosses two independently scheduled callbacks. This project models that logic in Dafny and proves what
each piece is for.

`dafny verify dfyconfig.toml` checks everything.

## What is modelled

- **The release workflow** (`Yaml*`, `Workflow*`). The block-YAML reader is written twice: as functions on the
  lines still to be read, and as methods with a shared cursor that are proved to compute those functions and to
  end on every input. Documents are printed in every layout the reader knows and read back; the exact condition
  for getting the same tree is proved, and so is that a text that parses has every line read once, ignorable ones
  aside. Over the tree stand the
  clause-3 checks, and over those a run model in which jobs interleave freely: a workflow that passes cannot
  create a release before everything it ships was built, bundled, packaged and uploaded in the same run.
- **The brand mark** (`Identity`, `Ico`, `Blob`). The box-average reduction with its non-linear spans, the crop,
  the `.ico` container with its bottom-up rows and packed mask, the blob.
- **The audio bridge** (`Bridge`). A circular array that refines a queue, and a state machine over single pushes
  and pops, under every interleaving.
- **Requirement traceability** (`RequirementIds`, `Annotations`, `AnnotationTheorems`, `Coverage`,
  `CoverageTheorems`, `SectionCounts`, `SectionTheorems`).
- **Smaller cores**: comment width (`CommentWidth`, `CommentLines`), error-code calls (`ErrorCatalogue`), the asset
  manifest (`Assets`, `ManifestLines`, `AssetCheck`, `AssetTheorems`, `AssetFindings`), runtime dependencies
  (`CargoMeta`, `Dependencies`), staging trees and property lists (`Bundle`, `BundleFindings`, `Plist`), duplex
  negotiation (`DeviceState`, `DeviceConfigs`), crate layering and identifier search (`Layering`).

`Text`, `TextTheorems`, `Numbers` and `Sorting` hold what the modules share. A file of the source that changes things
step by step is modelled with methods, loops and classes, each proved against a function or a stated property; a file
that computes is modelled with functions and lemmas.

## Where the code and its own description part

- `negotiate_shared_sample_rate` says it answers `None` only if no rate is shared. It also does so when each side's
  own choice is not covered by the other: `DeviceState.SharedRateMissesOne`, `DeviceState.RememberedRateHidesOne`,
  and exactly when in `DeviceState.SharedRateIff` and `DeviceState.ClaimHoldsIff`. With a range whose ends are the
  wrong way round it can answer a rate one side does not cover: `DeviceState.ReversedRangeIsNotShared`, and exactly
  when in `DeviceState.SharedRateIsSharedIff`.
- `negotiate_buffer_size` panics on a first range whose ends are the wrong way round:
  `DeviceState.ReversedBufferPanics`, and exactly when in `DeviceState.NegotiateBufferSize`.
- `call_arguments` says it joins continued string literals. A continued line that starts with the closing quote has
  that quote taken for an escaped one, and one that starts with an escaped quote ends the literal:
  `ErrorCatalogue.QuoteFirstIsMissed`, `ErrorCatalogue.EscapedQuoteSplits`, and exactly when in
  `ErrorCatalogue.JoinsIff` and `ErrorCatalogue.QuoteFirstIff`.
- The reduced width is cut to 32 bits, so an enlarged height can give a width of nothing: `Identity.TargetWidthWraps`,
  and exactly when in `Identity.TargetWidthIsNearest`.
- `compare_section_counts` is silent on a row repeated with a count of zero: `SectionCounts.RepeatedRowEscapes`; for
  the derived rows exactly when in `SectionTheorems.PassesExactly`. Its column sum panics, in a build that checks
  overflow, on a table that does not add up in 32 bits: `SectionCounts.CompareSectionCounts`.
- `section_must_counts` gives two sections one label where one runs into the area of the other:
  `SectionTheorems.SectionsCollide`, and exactly when in `SectionTheorems.TitlesDistinctIff`. The numbers that headings
  carry never do.
- Clause 3 says every published file comes from the download directory. It compares no positions in the publishing
  job and looks at its first release command only: `WorkflowReleases.ReleaseBeforeDownload`, and exactly when in
  `WorkflowReleases.ReleaseDrawsIff`.
- A literal block that ends a sequence item loses its last lines when they look like comments:
  `YamlTheorems.CommentAtEndOfItemIsLost`, and exactly when in `YamlTheorems.RoundTrip`.
- An asset path with white space in it does not survive a write of the asset manifest:
  `AssetTheorems.SpacedPathIsNotReadBack`, and exactly when in `Assets.RoundTrip` and `AssetTheorems.WriteThenCheck`.
- A dependency cycle through the fixtures crate is accepted: `Layering.CycleThroughFixtures`.

## Model

| member | source | states |
|---|---|---|
| YamlParser.Parse | xtask/src/release_workflow.rs:156-190 | the cursor-driven parser returns, on every text, exactly the tree or the kind of error the specification gives, and ends |
| YamlParser.ParseMap | xtask/src/release_workflow.rs:211-264 | from any cursor: the mapping, or the refusal, that the lines left give, with the cursor left where the specification stops reading |
| YamlParser.ParseSeq | xtask/src/release_workflow.rs:285-372 | the same for a sequence, whose items are projected onto a list of lines no shorter than the one in hand |
| YamlParser.CollectItem | xtask/src/release_workflow.rs:318-349 | the lines of an item: the dash's own content re-indented, everything deeper or ignorable behind it, ignorable lines at the end dropped |
| YamlParser.ParseBlockScalar | xtask/src/release_workflow.rs:394-422 | the lines deeper than the key or blank, dedented by the first of them, blank ends dropped, joined or folded |
| YamlParser.SplitAtKey | xtask/src/release_workflow.rs:448-475 | the first unquoted colon that a space or the end follows splits key from value |
| YamlParser.WithoutComment | xtask/src/release_workflow.rs:477-492 | what stands before the first unquoted hash at the start or behind a space |
| YamlWords.SplitsAtFirst | xtask/src/release_workflow.rs:448-475 | a line is no entry exactly when no unquoted colon is followed by a space or the end; otherwise the first such colon, and no other, splits it |
| YamlWords.CutsAtFirst | xtask/src/release_workflow.rs:477-492 | a line without an unquoted hash at its start or behind a space is kept whole; otherwise it ends before the first one |
| YamlWords.HeaderIff | xtask/src/release_workflow.rs:374-392 | a value opens a block exactly when it starts with `|` or `>` and behind that stand at most one `+` or `-` and at most one digit, in either order; it is folded exactly when it starts with `>` |
| YamlWords.QuotedIsOk | xtask/src/release_workflow.rs:448-502 | between quotes it does not contain, any text without a line break can stand as a value, behind a dash and, unless empty, as a key |
| YamlRefusals.TabIff | xtask/src/release_workflow.rs:156-172 | a line is refused, and then for its tab, exactly when something stands on it and the first thing on it that is no space is a tab |
| YamlRefusals.TabIsRefused | xtask/src/release_workflow.rs:156-172 | a text with such a line anywhere is refused for it |
| YamlRefusals.FlowIff | xtask/src/release_workflow.rs:424-446 | a flow sequence is read exactly when its brackets close around no other collection; its items are the parts between commas |
| YamlRefusals.OneLineIff | xtask/src/release_workflow.rs:244-258 | what may stand behind a key on its own line: anything but a flow mapping and a flow sequence that cannot be read |
| YamlTheorems.ParsePrinted | xtask/src/release_workflow.rs:156-502 | parsing a printed document of any layout and nesting always succeeds and gives the tree `Read` says, lost block tails included |
| YamlTheorems.ReadIff | xtask/src/release_workflow.rs:318-349 | the tree read is the tree meant exactly when no block scalar that ends an item ends in lines that look like comments |
| YamlTheorems.RoundTrip | xtask/src/release_workflow.rs:156-502 | parse after print is the document's own tree if and only if no such block occurs in it |
| YamlTheorems.CommentAtEndOfItemIsLost | xtask/src/release_workflow.rs:342-346 | a step whose literal script block ends in `# done` is read without that line |
| YamlTrees.TreeRoundTrip | xtask/src/release_workflow.rs:156-502 | every well-formed tree has a canonical block layout, and parsing that layout returns the tree if and only if no item in it ends in such a block; its scalars may be any the parser reads from one line or writes as a literal block |
| YamlTrees.ValueLineIff | xtask/src/release_workflow.rs:244-258 | the scalars a well-formed tree may have on a key's own line are exactly those the parser reads from a line there, whatever quotes they hold |
| YamlTrees.ItemLineIff | xtask/src/release_workflow.rs:350-366 | those behind a dash are exactly those the sequence parser reads from a dash line |
| YamlTrees.KeyTextIff | xtask/src/release_workflow.rs:211-264 | and its keys exactly those the mapping parser reads from a key line |
| YamlTrees.ParsedKeys | xtask/src/release_workflow.rs:211-264 | every tree the parser returns, for any text, has distinct and non-empty keys in all its mappings |
| YamlTrees.MapReadsAll | xtask/src/release_workflow.rs:211-264 | a mapping read from lines that are all its own either refuses or reaches their end: no line is passed over |
| YamlCoverage.ParseReadsAll | xtask/src/release_workflow.rs:156-422 | a text that parses has every line read as a key, a dash line or a block-scalar line exactly once and in order, ignorable lines and an opening `---` aside, items and their re-projected lines included |
| YamlTrees.ItemIsReadWhole | xtask/src/release_workflow.rs:350-366 | the inner cursor the parser discards after an item had reached the end of the item's lines |
| WorkflowCheck.Clause3 | xtask/src/release_workflow.rs:888-930 | a violation is reported if and only if the workflow breaks clause 3 in that way |
| WorkflowCheck.CheckPublishJob | xtask/src/release_workflow.rs:932-1029 | the same for the publishing job: its needs, its shape, its downloads, its commands, what its release draws on |
| WorkflowCheck.CheckBuildJob | xtask/src/release_workflow.rs:1031-1117 | the same for a build job: known runner, the four stages present and in order, each upload from `target/` and failing when empty |
| WorkflowClean.CleanIff | xtask/src/release_workflow.rs:888-1117 | said without violations: a workflow passes if and only if it has jobs, each build job packages for its runner with build, bundle, package and upload first standing in that order and every upload failing when empty and naming only paths under `target/`, and exactly one job publishes, needing all the build jobs, downloading of this run only, building nothing, and drawing its first release on a download |
| Workflow.PathLinesAre | xtask/src/release_workflow.rs:1103-1110 | the paths checked of an upload are all its lines that are not blank, trimmed |
| Workflow.TextsAre | xtask/src/release_workflow.rs:528-535 | the jobs needed are every scalar of the sequence and nothing else |
| Workflow.PackagingIs | xtask/src/release_workflow.rs:848-854 | each of the three runners has its own packaging step, and no other runner has one |
| WorkflowRuns.EarlierSteps | xtask/src/release_workflow.rs:888-1117 | in every interleaved run a job's earlier steps happened before a later one |
| WorkflowRuns.NeededSteps | xtask/src/release_workflow.rs:888-1117 | in every run each step of a job comes after every step of every job it needs |
| WorkflowRuns.UploadIsProduced | xtask/src/release_workflow.rs:1031-1117 | in every run of a workflow without violations, an upload comes after build, bundle and package steps of its own job, in that order |
| WorkflowRuns.UploadsAreBuilt | xtask/src/release_workflow.rs:1080-1117 | of a workflow without violations, and so in each of its runs: every upload fails when it finds nothing, and every line of its path that is not blank starts, trimmed, with `target/` |
| WorkflowRuns.ReleaseIsLast | xtask/src/release_workflow.rs:888-1117 | in every such run, before a release is created every upload of every job has happened, and what it uploads was produced by its own job |
| WorkflowReleases.StepBeforeIff | xtask/src/release_workflow.rs:888-1117 | in every run, of the steps of its own job exactly those listed before a step have happened before it |
| WorkflowReleases.ReleaseDrawsIff | xtask/src/release_workflow.rs:1010-1026 | in every run of a workflow without violations: the first release command names the path of some download, and a release draws on a download that has happened if and only if a download listed before it provides its path |
| WorkflowReleases.ReleaseBeforeDownload | xtask/src/release_workflow.rs:932-1029 | a workflow without violations and a run of it with an upload, a release before the download it names, and a second release that names no download |
| WorkflowRuns.ReleaseTakesNothingElse | xtask/src/release_workflow.rs:932-1029 | in every such run no step of the releasing job checks out, uploads, builds, names a repository path or downloads from another run |
| Identity.DownsampleAlpha | xtask/src/identity.rs:256-280 | every output pixel is the rounded mean of exactly its box of source pixels, the box is never empty and inside the source; empty extents give an empty image |
| Identity.SpanWhenShrinking | xtask/src/identity.rs:284-291 | when shrinking, a span ends where the next begins and the last ends at the source's end |
| Identity.SpanWhenEnlarging | xtask/src/identity.rs:284-291 | when enlarging, a span is the one source pixel the index falls on |
| Identity.SpanOf | xtask/src/identity.rs:284-291 | when shrinking, every source position belongs to some span |
| Identity.SpansDisjoint | xtask/src/identity.rs:284-291 | when shrinking, no source position belongs to two spans |
| Identity.EachPixelFeedsOne | xtask/src/identity.rs:256-291 | when shrinking, every source pixel feeds one output pixel and no other |
| Identity.MeanIsBetween | xtask/src/identity.rs:262-277 | an output lies between any bounds of its box, so the cast to a byte never truncates |
| Identity.EnlargingCopies | xtask/src/identity.rs:256-291 | enlarging is nearest neighbour: each output is one named source pixel |
| Identity.ReductionConserves | xtask/src/identity.rs:256-291 | the pixels `DownsampleAlpha` returns when shrinking, each weighted by the source pixels it stands for, differ from the source's total by at most half a level per source pixel |
| Identity.ShortSource | xtask/src/identity.rs:262-277 | pixel data shorter than its extents is reduced as if zeros filled it up |
| Identity.TargetWidthIsNearest | xtask/src/identity.rs:238-244 | for every target height: the reduced width is the nearest to the source's aspect ratio if and only if the exact quotient fits 32 bits; up to the source's height it does, and is never wider than the source |
| Identity.TargetWidthWraps | xtask/src/identity.rs:238-244 | a source 2^31 pixels wide and one high, enlarged to two, gives a width of nothing |
| Identity.CropAlpha | xtask/src/identity.rs:315-325 | the crop holds exactly the named rectangle, row by row, clipped to the source's width |
| Identity.IconCropInside | xtask/src/identity.rs:305-310 | the square the icons are cut from is the largest that fits, flush with the right edge, and leaves as many rows above as below, or one more below |
| Ico.OrBitSets | xtask/src/identity.rs:430-446 | or-ing one mask bit into a byte sets that bit and changes no other |
| Ico.PackedRow | xtask/src/identity.rs:430-446 | a packed mask row has a bit set exactly for the pixels whose alpha is below 128, and zero padding bits |
| Ico.IcoImage | xtask/src/identity.rs:411-451 | for every size and mask: each of the header's fields reads back as what it must say, the height doubled; read bottom-up, each pixel shows the fill and its alpha, each mask bit shows whether that alpha is below 128, padding is zero |
| Ico.AssembleIco | xtask/src/identity.rs:455-478 | the file is the directory followed by the bodies |
| Ico.EntryReads | xtask/src/identity.rs:455-478 | directory entry `k` says size `k` both ways, no palette, one plane, 32 bits, and gives back image `k`; bodies follow one another with no gap and no overlap and end at the end of the file |
| Ico.IcoRoundTrip | xtask/src/identity.rs:392-478 | reading an assembled icon of sizes 1 to 256 gives back every image |
| Ico.RenderIco | xtask/src/identity.rs:374-388 | the whole path from alpha to file: four images of the four sizes, each with its header's fields, the fill colour in every pixel, as alpha the box mean of the square mark, and the mask bits that alpha gives |
| Blob.RenderBlob | xtask/src/identity.rs:548-559 | reading the header gives the dimensions, as many pixels follow as they say, and each is the mean of its box; the dimensions never exceed the source's |
| Bridge.AlwaysAccounted | crates/namir-app/src/bridge.rs:53-81 | after any interleaving: what was delivered and what is in the ring are a subsequence of what was pushed, pushed = delivered + dropped + in ring, requested = delivered + padded |
| Bridge.OutputIsAccepted | crates/namir-app/src/bridge.rs:53-81 | after any interleaving, with any drops: what was delivered followed by what is in the ring is exactly the prefill and the pushes made while there was room, in order, so the output without its padding is a prefix of the accepted input |
| Bridge.DeliveredIsPrefix | crates/namir-app/src/bridge.rs:53-81 | with nothing dropped, the output is exactly a prefix of the input, in order |
| Bridge.CleanIff | crates/namir-app/src/bridge.rs:53-81 | a run drops and pads nothing if and only if at every prefix pushes, the prefill included, lead pulls by between 0 and the capacity |
| Bridge.RunPushes | crates/namir-app/src/bridge.rs:53-61 | an uninterrupted input callback keeps the first samples that fit and drops the rest |
| Bridge.RunPulls | crates/namir-app/src/bridge.rs:69-81 | an uninterrupted output callback delivers what the ring holds, oldest first, and pads the rest |
| Bridge.Ring.constructor | crates/namir-app/src/bridge.rs:41-44 | an empty ring of at least one slot |
| Bridge.Ring.Push | crates/namir-app/src/bridge.rs:53-61 | appends when there is room and says so; a full ring is unchanged |
| Bridge.Ring.Pop | crates/namir-app/src/bridge.rs:69-81 | takes the oldest sample; an empty ring is unchanged |
| Bridge.Ring.Execute | crates/namir-app/src/bridge.rs:53-81 | run on the circular array, any sequence of pushes and pops leaves the contents, the output, the drops and the padding that the state machine says |
| Bridge.Ring.PushCaptured | crates/namir-app/src/bridge.rs:53-61 | the ring gains the samples that fit, and the count of the others is returned |
| Bridge.Ring.PullInto | crates/namir-app/src/bridge.rs:69-81 | the buffer holds the oldest samples followed by padding, the ring loses them, and the padding is counted |
| RequirementIds.MeasureId | xtask/src/traceability.rs:569-599 | the length of the id the text starts with, under either prefix, or none |
| RequirementIds.LengthIsRecognised | xtask/src/traceability.rs:517-599 | the scanner measures `n` exactly when the separately written recogniser accepts the first `n` characters and a boundary follows |
| RequirementIds.NoneInside | xtask/src/traceability.rs:549-566 | no id starts at a boundary inside another id, so skipping past one hides nothing |
| RequirementIds.ScanRequirementIds | xtask/src/traceability.rs:549-566 | the loop returns the texts of the spans the greedy scan reports |
| RequirementIds.ScanIsExact | xtask/src/traceability.rs:549-566 | those spans are, in order and apart, exactly the delimited ids of the line |
| RequirementIds.RecogniserAgrees | xtask/src/traceability.rs:517-566 | a token is an id if and only if scanning it reports the whole of it and nothing else |
| Annotations.ScanAnnotations | xtask/src/traceability.rs:395-484 | a file is accepted if and only if every tag line is well formed and every `uncovered:` line belongs to a partial tag of its spelling; then every tag is recorded once, in order |
| Annotations.ReadPartial | xtask/src/traceability.rs:414-468 | a partial tag is accepted exactly when it has one id, a block that names it and ends with a milestone, and an artifact behind the block |
| Annotations.LabelIsMilestone | xtask/src/traceability.rs:619-641 | the label accepted is `M`, digits, and at most one lower-case letter, nothing else |
| AnnotationTheorems.MarkIs | xtask/src/traceability.rs:488-494 | which lines each of the six markers makes a tag, and what is left of the line behind it |
| AnnotationTheorems.IdsAre | xtask/src/traceability.rs:496-515 | a tag's ids are its trimmed tokens that are not blank, when all of them are ids |
| AnnotationTheorems.ClosesIff | xtask/src/traceability.rs:619-641 | a text names a milestone exactly when it ends, white space aside, in `; closes` and that milestone |
| AnnotationTheorems.TraceOkIff | xtask/src/traceability.rs:395-413 | a plain tag is accepted exactly when its tokens are ids and the first line behind it that is not blank is no comment |
| AnnotationTheorems.PartialOkIff | xtask/src/traceability.rs:414-468 | and a partial one exactly when it has one id, and the lines behind it, up to the first that is no `uncovered:` line of its spelling, say something that starts with that id and ends by naming a milestone |
| AnnotationTheorems.FileRecords | xtask/src/traceability.rs:395-484 | a file that is accepted has recorded exactly what its tags say, with the lines they stand on |
| AnnotationTheorems.RecordsInOrder | xtask/src/traceability.rs:395-484 | in the order of those lines |
| Annotations.TagsAreNotStacked | xtask/src/traceability.rs:680-698 | in an accepted file a line that is no comment stands between any two tags |
| Annotations.TagIsComment | xtask/src/traceability.rs:704-711 | whatever the scanner takes for a tag line is a comment line and not blank |
| Coverage.DocumentVerdict | xtask/src/traceability.rs:996-1018 | a document passes only if it has verdict lines and all pass; otherwise the first failure is named, or it is unreadable |
| Coverage.BuildReport | xtask/src/traceability.rs:1179-1281 | the whole report: the missing requirements in order, the codes that find no evidence, for each the first matching document that passes or blocks |
| Coverage.ManualResolvesIff | xtask/src/traceability.rs:1216-1249 | the loop's outcome means: some document matches and every matching document passes |
| Coverage.HitsAre | xtask/src/traceability.rs:1216-1249 | a requirement has a covering document in the report exactly when it asks for one and its manual half resolves |
| CoverageTheorems.MatchesIff | xtask/src/traceability.rs:1225-1235 | a document matches by declaring the id, or by a name that starts with it, in either case of its letters, and a dash |
| CoverageTheorems.ReportNames | xtask/src/traceability.rs:1216-1249 | the report names, for a requirement that asks for a script and none blocks, the first matching document that passes; and, for one that some document blocks, the first such document with its verdict |
| CoverageTheorems.MissingCodesAre | xtask/src/traceability.rs:1179-1281 | what is said of a missing requirement: its manual code when no document resolves it, its source codes when the source has nothing of it |
| Coverage.BlockedStaysBlocked | xtask/src/traceability.rs:1216-1249 | no further document unblocks a requirement that one document blocks |
| Coverage.RenderTestPlan | xtask/src/traceability.rs:1331-1430 | the rows of the plan, in the order of the ids |
| Coverage.CellsShow | xtask/src/traceability.rs:1365-1414 | which cells of a row are unresolved or partial, from its codes and the report |
| CoverageTheorems.RowMeans | xtask/src/traceability.rs:1365-1414 | one cell per code, the source codes sharing the first one's; what each says comes from the evidence: the first passing document, or the first blocking one and its verdict, the places in the source, the partial texts |
| Coverage.PlanAgreesWithReport | xtask/src/traceability.rs:1179-1414 | a row shows something unresolved if and only if the report lists the requirement as missing |
| Coverage.PartialRowsAgree | xtask/src/traceability.rs:1317-1328 | the printed ids are exactly those whose rows show a partial cell, each once, in order |
| SectionCounts.SectionMustCounts | xtask/src/traceability.rs:1568-1606 | succeeds exactly when every requirement has a section and an area and a section has one area; then one row per section, in order of first appearance, with its count |
| SectionTheorems.AreaIff | xtask/src/traceability.rs:1608-1619 | an id has an area exactly when its first three parts between hyphens hold something, and then it is the second |
| SectionTheorems.RowsPartition | xtask/src/traceability.rs:1568-1606 | the rows returned: their counts add up to the number of requirements, every requirement's label is among them, none counts nothing, and the labels are distinct if and only if no two sections collide |
| SectionTheorems.TitlesDistinctIff | xtask/src/traceability.rs:1568-1606 | two rows have the same label exactly when one section, a space behind it, begins another section and its area ends what is left over |
| SectionTheorems.NumbersOfHeadings | xtask/src/traceability.rs:199-223 | the section numbers that headings give are exactly the digits with at most one dot between them |
| SectionTheorems.NumbersDoNotCollide | xtask/src/traceability.rs:199-223 | sections with such numbers never collide |
| SectionTheorems.SectionsCollide | xtask/src/traceability.rs:1568-1606 | sections `1` and `1 A` over areas `A B` and `B` give two rows labelled `1 A B` |
| SectionCounts.CompareSectionCounts | xtask/src/traceability.rs:1769-1859 | a defect is reported if and only if it is one: wrong count, missing row, unknown row, order, total; nothing is reported exactly when the table is accepted; it panics exactly when the column leaves 32 bits |
| SectionCounts.NoDefectIff | xtask/src/traceability.rs:1769-1859 | nothing is reported exactly when the rows agree and the total is both sums |
| SectionCounts.AcceptsExactly | xtask/src/traceability.rs:1769-1859 | for derived rows without zero counts, or without repeated titles: silence on a table without repeated titles means that it is the derived rows in order followed by `Total` with their sum, and that no derived title is repeated |
| SectionTheorems.PassesExactly | xtask/src/traceability.rs:1568-1859 | for the rows derived from any requirements: a table without repeated titles passes if and only if it is those rows in order, then `Total` with the number of requirements, and no two sections collide |
| SectionTheorems.NumberedPassesExactly | xtask/src/traceability.rs:1568-1859 | with the section numbers of headings nothing else passes |
| SectionTheorems.CheckSectionTable | xtask/src/main.rs:1105-1130 | deriving and comparing, one after the other, is clean on a table without repeated titles exactly then; it fails exactly when the requirements cannot be grouped |
| SectionCounts.RepeatedRowEscapes | xtask/src/traceability.rs:1817-1828 | a row repeated with a count of zero is not reported |
| CommentWidth.OverflowIsUnbreakable | xtask/src/comment_width.rs:47-62 | true exactly when the unbroken token at the limit would not fit on a line of its own |
| CommentWidth.PairsAreParity | xtask/src/comment_width.rs:88-103 | a line is between positionally paired markers if and only if an odd number of markers precede it in its run and some marker follows it there |
| CommentWidth.ScanOverWidth | xtask/src/comment_width.rs:80-116 | the run-by-run loops return the hits of all lines |
| CommentWidth.HitsAreExact | xtask/src/comment_width.rs:80-116 | a line is reported, with its number and width, exactly when it is a comment over the width and none of the exemptions holds |
| CommentLines.BodyIff | xtask/src/comment_width.rs:64-69 | which lines are comments, and what their bodies are |
| CommentLines.ShapesAre | xtask/src/comment_width.rs:89-105 | a comment line is a fence marker when its body starts with three backticks, a table row when its body starts and ends with a bar |
| CommentLines.FreshLineIs | xtask/src/comment_width.rs:54-62 | the width a token would start at on a line of its own: the indent, all the marks, one space |
| CommentLines.FencedIff | xtask/src/comment_width.rs:85-103 | in any maximal run of comment lines: a line is fenced exactly when, the run's markers being paired by position, it stands between two partners |
| CommentWidth.ScanIsLocal | xtask/src/comment_width.rs:80-116 | a line that is no comment separates: scanning around it is scanning both sides on their own |
| ErrorCatalogue.SplitLine | xtask/src/error_catalogue.rs:155-188 | one line moves the splitter's state as the character function says; the depth never underflows |
| ErrorCatalogue.ReadCallArguments | xtask/src/error_catalogue.rs:130-192 | the arguments up to the bracket that closes the call within 40 lines, the empty ones left out, or none |
| ErrorCatalogue.FeedPieces | xtask/src/error_catalogue.rs:155-188 | reading any balanced text, with strings, escapes, continued lines and nested brackets, leaves the depth as it was and splits nothing |
| ErrorCatalogue.CallSplits | xtask/src/error_catalogue.rs:130-192 | a call that ends within the 40 lines splits into exactly its arguments, each the joined text without white space around it, in every layout: on one line, one argument to a line with or without a trailing comma, literals continued over lines, the closing bracket indented or not |
| ErrorCatalogue.JoinsIff | xtask/src/error_catalogue.rs:147-166 | a literal, continued over lines or not, is read as one literal if and only if what is seen first behind a line end's backslash is neither its closing quote nor an escaped quote |
| ErrorCatalogue.QuoteFirstIff | xtask/src/error_catalogue.rs:147-166 | where no continued line starts with a backslash, that fails exactly when one starts with the closing quote |
| ErrorCatalogue.QuoteFirstIsMissed | xtask/src/error_catalogue.rs:147-192 | a literal whose closing quote stands first on its second line leaves the call without an end |
| ErrorCatalogue.EscapedQuoteSplits | xtask/src/error_catalogue.rs:147-192 | an escaped quote first on a continued line lets a comma inside the literal split one argument into two |
| ErrorCatalogue.HasForeignPlaceholder | xtask/src/error_catalogue.rs:207-220 | true exactly when some brace pair, paired from the left, is not the detail placeholder |
| Assets.Render | xtask/src/assets.rs:91-104 | the header, the version line, and one line per entry in path order |
| Assets.Parse | xtask/src/assets.rs:109-131 | the entries of the lines that are not skipped, or the number of the first that is not one |
| Assets.RoundTrip | xtask/src/assets.rs:91-131 | for every list of entries: what is rendered parses back to the list sorted by path if and only if every field is a word, every size fits 64 bits and no path looks like a line to skip |
| Assets.RenderIgnoresOrder | xtask/src/assets.rs:91-104 | entries with different paths render the same in any order |
| ManifestLines.LineIff | xtask/src/assets.rs:109-131 | a line is passed over when it is blank, a comment or begins with the version's name; it is read as an entry exactly when path, size, hash and provenance stand on it with white space between them |
| ManifestLines.NumberIff | xtask/src/assets.rs:109-131 | a size is digits, a plus sign before them or not, whose value fits 64 bits |
| AssetCheck.ManifestIsNoAsset | xtask/src/assets.rs:134-143 | the manifest does not list itself |
| AssetCheck.Scan | xtask/src/assets.rs:152-185 | one entry per walked file that is an asset, with its size and hash, its provenance taken from the previous manifest or `unrecorded` |
| AssetCheck.Violations | xtask/src/assets.rs:193-234 | one finding per asset that is missing, undeclared or changed, then one per recorded file that is gone |
| AssetCheck.NoViolations | xtask/src/assets.rs:193-234 | none exactly when every asset is declared as it is and nothing else is recorded |
| AssetFindings.NonAssetIff | xtask/src/assets.rs:134-143 | a file is no asset exactly when it has one of two names or, behind something, one of four extensions |
| AssetFindings.CheckReports | xtask/src/assets.rs:193-271 | what a check reports, finding by finding: an asset without a record, one whose first record is `unrecorded`, one whose size or hash is not what that record says, a record of what is no asset; and, only when there is none of these, a manifest that is not a fresh render |
| AssetCheck.Repository.CheckOrWrite | xtask/src/assets.rs:240-271 | a check changes no file; a write changes only the manifest, and reports on what it wrote |
| AssetTheorems.CheckIff | xtask/src/assets.rs:240-271 | a check is clean if and only if the manifest is a fresh render of the tree, every asset path is a word and none is `unrecorded` |
| AssetTheorems.ProvenanceIsCarried | xtask/src/assets.rs:145-185 | after a write the manifest says of every asset what it said before, or `unrecorded`, and nothing of any other path |
| AssetTheorems.WriteThenCheck | xtask/src/assets.rs:240-271 | a check right after a write, in any walk order, is clean if and only if every asset path is a word and none is `unrecorded` |
| AssetTheorems.SpacedPathIsNotReadBack | xtask/src/assets.rs:91-131 | a tree whose one asset is `crates/a b.wav`: the manifest a write leaves cannot be parsed, and the write says so |
| AssetTheorems.WriteReportIff | xtask/src/assets.rs:240-260 | the write's own report is clean under the same condition |
| AssetTheorems.WriteTwice | xtask/src/assets.rs:240-260 | a second write changes nothing |
| CargoMeta.Traverse | xtask/src/cargo_meta.rs:73-92 | ends on every graph, and visits exactly the packages that paths of normal edges reach from the roots |
| CargoMeta.ThirdPartyPackages | xtask/src/cargo_meta.rs:97-109 | the visited packages that are no members, as attribution lines, in order |
| CargoMeta.RuntimeDependencies | xtask/src/cargo_meta.rs:51-95 | fails without a resolve graph or a product; otherwise lists exactly the third-party packages that ship, in order |
| Dependencies.ShipsIff | xtask/src/cargo_meta.rs:73-125 | a line ships exactly when it gives the name, version and licence of a package that is no member and that a chain of normal dependencies leads to from a root; the licence is the one stated, else `see` and the file, else `UNKNOWN` |
| Dependencies.EdgeIff | xtask/src/cargo_meta.rs:78-90 | a dependency counts when it has no kind or one of its kinds is normal, and it is listed by the first node of its package |
| Dependencies.RootIs | xtask/src/cargo_meta.rs:62-71 | a product's root is the first package of its name that is a member, and missing exactly when there is none |
| Bundle.Plan | xtask/src/bundle.rs:335-384 | the layout of each platform, artifacts first, then the documents |
| Bundle.PlanIsPrefixFree | xtask/src/bundle.rs:335-384 | no planned destination is the path prefix of another |
| Bundle.Disk.Materialise | xtask/src/bundle.rs:542-583 | from any disk with the sources there and outside the root it succeeds; nothing outside the root changes but missing directories on the way |
| Bundle.LeavesExactly | xtask/src/bundle.rs:542-583 | below the root the files left are exactly the layout's and the directories exactly those on the way |
| Bundle.Check | xtask/src/bundle.rs:604-618 | the findings on the two artifacts' forms, then those on each entry, or none at all without a tree |
| Bundle.CheckIff | xtask/src/bundle.rs:604-726 | no findings exactly when the forms are the loader's and every entry's file is there, generated ones with the generated text |
| BundleFindings.FindingIff | xtask/src/bundle.rs:604-726 | what a check reports, finding by finding: an artifact of the wrong form and what stands there instead, an application bundle off macOS, an entry's file that is not there or a directory, a generated file that says something else |
| Bundle.StagedIsClean | xtask/src/bundle.rs:542-726 | what was staged for any platform passes the check |
| Bundle.StagedShips | xtask/src/bundle.rs:335-583 | the same of any tree staged from the plan, for each platform |
| Bundle.Bundle | xtask/src/bundle.rs:542-726 | produce, then assert: on a ready disk nothing is found, and what is left holds the built library where the plug-in is, the built standalone where the standalone is, each macOS bundle its own property list and package information, and each document as the repository has it |
| Bundle.AdditionsStayClean | xtask/src/bundle.rs:604-726 | a clean tree stays clean under any additions, unless an application bundle appears off macOS |
| Plist.EscapeReadsBack | xtask/src/bundle.rs:500-504 | escaped text reads back, though the three replacements run one after another |
| Plist.EscapeHasNoMarkup | xtask/src/bundle.rs:500-504 | escaped text holds no angle bracket |
| Plist.Render | xtask/src/bundle.rs:474-495 | the document of the entries in key order |
| Plist.OrderLeavesNoTrace | xtask/src/bundle.rs:474-495 | entries with different keys give the same bytes in any order |
| Plist.PlistIsUnambiguous | xtask/src/bundle.rs:474-495 | two dictionaries are written alike if and only if their sorted entries are the same |
| DeviceState.SampleRateIsChoice | crates/namir-app/src/device_state.rs:70-88 | one device's answer is the first wanted rate it covers, else its highest, and exists exactly when it reports anything |
| DeviceState.SampleRateIsCovered | crates/namir-app/src/device_state.rs:70-88 | that answer is covered exactly when some wanted rate or the highest one is |
| DeviceState.SharedRateIsShared | crates/namir-app/src/device_state.rs:165-183 | with ranges the right way round, a shared answer is covered by both sides |
| DeviceState.SharedRateIsSharedIff | crates/namir-app/src/device_state.rs:165-183 | for all ranges, an answer is covered by both sides if and only if the side that chose it covers some wanted rate or the highest it reports |
| DeviceState.SharedRateIff | crates/namir-app/src/device_state.rs:165-183 | there is an answer if and only if a wanted rate that is the first one some side covers is covered by the other, or one side covers no wanted rate and the other covers its highest |
| DeviceState.ClaimHoldsIff | crates/namir-app/src/device_state.rs:163-183 | the documented claim holds if and only if nothing is shared or that condition does, and with ranges the right way round never both |
| DeviceState.SharedRateIsFound | crates/namir-app/src/device_state.rs:165-183 | a remembered rate both cover is taken; with 48 kHz covered by both, or 44.1 kHz and nothing remembered, there is an answer |
| DeviceState.SharedRateMissesOne | crates/namir-app/src/device_state.rs:163-183 | 44100..90000 against 88200..96000 gives no rate though both cover 88200 |
| DeviceState.RememberedRateHidesOne | crates/namir-app/src/device_state.rs:163-183 | a remembered rate can hide a preferred one both sides cover |
| DeviceState.ReversedRangeIsNotShared | crates/namir-app/src/device_state.rs:70-88 | with a range the wrong way round the answer may be covered by one side only |
| DeviceState.BestPair | crates/namir-app/src/device_state.rs:235-265 | the nested loops keep the earliest pair whose nearest meeting point is nearest of all |
| DeviceState.NegotiateSharedBufferSize | crates/namir-app/src/device_state.rs:211-266 | a size both sides accept; the remembered one where both do; else one exists exactly when some ranges meet, and no meeting point is nearer 256; reversed ranges stop nothing |
| DeviceState.NegotiateBufferSize | crates/namir-app/src/device_state.rs:109-130 | an answered size is accepted by some range at the rate; an accepted remembered size is kept; any other answer is the nearest to 256 the first range holds; the clamp panics if and only if no remembered size is accepted and the first range is the wrong way round; no size is answered if and only if nothing covers the rate, or nothing remembered is accepted and the first range is unknown |
| DeviceState.ReversedBufferPanics | crates/namir-app/src/device_state.rs:109-130 | a first range of 512 to 256 frames panics |
| DeviceConfigs.AcceptedIff | crates/namir-app/src/device_state.rs:90-130 | a size is accepted at a rate exactly when some configuration that covers the rate reports a range that holds it, or reports none |
| DeviceConfigs.MeetsIff | crates/namir-app/src/device_state.rs:211-266 | two sides meet at a size exactly when a configuration of each that covers the rate reports a range that holds it |
| DeviceConfigs.FirstBuffer | crates/namir-app/src/device_state.rs:90-130 | the range that is clamped to is that of the first configuration that covers the rate |
| DeviceConfigs.ChannelsAre | crates/namir-app/src/device_state.rs:140-155 | the channel counts chosen from are those of the configurations that cover the rate |
| DeviceState.NegotiateChannels | crates/namir-app/src/device_state.rs:140-155 | the smallest count at the rate that suffices, else the largest, none exactly when no configuration covers the rate |
| DeviceState.SupportedBufferSizes | crates/namir-app/src/device_state.rs:345-371 | what is offered is the standard sizes both accept, in order; where there are none, the one meeting point nearest 256; nothing only when no ranges meet |
| Layering.CheckEdges | xtask/src/layering.rs:142-165 | one problem per edge that is neither exempt nor permitted, in order |
| Layering.AcceptedIsAcyclic | xtask/src/layering.rs:128-165 | for any layered table, an accepted graph has no cycle away from the fixtures crate, and no walk longer than the table |
| Layering.TableIsLayered | xtask/src/layering.rs:57-126 | every crate a row of the table allows has a row above it |
| Layering.AcceptedByTheTable | xtask/src/layering.rs:57-165 | so with the table as it is: no cycle, and from the application no walk leads to the plug-in |
| Layering.CycleThroughFixtures | xtask/src/layering.rs:142-148 | a cycle through the fixtures crate is accepted |
| Layering.NamesIdentifierIff | xtask/src/layering.rs:217-229 | the left-to-right non-overlapping search finds an identifier exactly when it is one of the line's maximal identifier runs |
| Layering.NamesBarePredicateIff | xtask/src/layering.rs:235-254 | and in predicate position exactly when some such run stands, white space aside, behind an opening bracket or a comma and before a closing one, a comma or the end |

## Left out

- Text is a sequence of `char`, one for each unit: exact for ASCII, where the source indexes bytes. Trimming uses
  Unicode's white space; a non-ASCII leading space would be indented by its bytes in the source.
- The wording of messages: errors and violations are datatypes. The line numbers in YAML errors are not modelled.
- YamlTrees.TreeRoundTrip: a tree whose root is a scalar or an empty sequence is not printed, and a scalar that only a
  folded block or a block of unusual indentation could carry counts as not well formed.
- WorkflowCheck.Clause3: states which violations are reported, not in what order or how often; clauses 1 and 2 of the
  same file are not modelled.
- WorkflowRuns.ReleaseIsLast: a job that fails stops, so every prefix of a run is a run; step conditions (`if:`) are not
  modelled.
- Decoding the PNG, the colour test on its pixels and the gutter check of the icon: the reduction starts from alpha.
- The ring library's atomics and memory ordering: one push or one pop is one atomic step, the library is not part of
  this model, and a sample is a value of any type.
- Coverage.BuildReport: a document's declared ids and its verdict marks are given; reading them out of its text, and
  laying the plan out as text, is not modelled. A reason is the verdict it stands for.
- Annotations.ScanAnnotations: files come as lines already classified by `Annotations.LineOf`.
- SectionCounts.CompareSectionCounts: the table comes as rows; reading them out of the roadmap is not modelled. A
  32-bit sum that overflows is a panic; an optimised build would go on with it modulo its width.
- SectionTheorems.NumbersOfHeadings: of the requirements document only the heading numbers are modelled; requirements
  come with their sections.
- ErrorCatalogue.ReadCallArguments: the regions of test code and of catalogue modules that `scan` tracks by brace depth,
  and the rules on an entry's text, are not modelled.
- ErrorCatalogue.CallSplits: character literals, raw strings and comments inside a call are not among the pieces of an
  argument, and the splitter does not know them.
- AssetCheck.Scan: reading errors are not modelled; the walk's order is any order, the content hash any function to
  words, and the header any comment lines.
- CargoMeta.RuntimeDependencies: `cargo metadata`'s answer is given; the order of equal attribution lines is immaterial.
- Bundle.Disk.Materialise: failures are modelled as far as a missing source, a file on the way or a directory in the
  place cause them; names are one constructor each, and the generated texts are given (`Plist` models how they are
  written).
- The argument parser and the printed plan of `xtask bundle`; `select_device`, `supported_sample_rates` and
  `configs_with_channels`; `scan_platform_cfg` and the manifest lint, which only collect what is modelled here.
- DeviceState.NegotiateBufferSize: `nat` stands for `u32`; nothing is computed but comparisons and differences.
- Network, real-time-logging, latency, parameter-lock, preset, schema and milestone checks, which would add only easy
  members or rest on crates that are not part of this model.
