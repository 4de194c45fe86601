# A verified model of the bottle registry client

The modules here state and prove what the hardest parts of the package are for:
publishing one index from several machines, unpacking an archive over a
filesystem with links, ordering and choosing versions, naming builds by what
they were built from, walking the dependency graph, counting signatures, and
downloading a blob over a connection that breaks. Each module models one or two
source files, branch by branch; loops and objects that change state are methods
and classes proved against a function or a relation, and the properties are
lemmas about that function or relation.

`dafny verify dfyconfig.toml` checks the whole project.

## The modules

- `IndexProtocol` and `PublisherRuns` (oci.go, ensure.go). Publishers rewrite
  one version tag's index with no lock; each also writes a platform tag of its
  own. A publisher is a program of single registry calls; a run is any
  interleaving of such calls, in which any publisher may fail for good at any
  moment. The main results: what every written index contains, when the index
  becomes complete for good, that nothing is named before all its attestations
  are there, that all publishers can nevertheless finish with a platform lost,
  and exactly when the pass afterwards repairs it.
- `FileSystem`, `Extraction`, `EntryNames`, `Placement` and `Containment`
  (extract.go). A tree of directories, files and links, with link-following
  resolution, and the unpacking loop over it; where an entry's name leads, and
  when the entry is placed there. The main results say exactly when nothing outside the
  destination is touched whatever links the archive makes, also when it is
  refused half way, and exactly when a successful extraction is the reading of
  the archive in which the last entry of a name wins.
- `Versions`, `Constraints`, `TagSelection`, `VersionPick`, `AbiLines`,
  `Closure` (pkgx.go, glibc.go, versionstring.go, deprecated.go, abilines.go).
  From strings to versions, their order, the constraints, the collapse of a tag
  listing, the choice of one version or of several that coexist, and the closure
  of a set of roots. What is selected and what is picked are relations, as the order in
  which ties stand comes from a map; when they are functions of the set of tags
  is stated exactly.
- `Identity` and `StoreNames` (concrete.go, storepath.go). The bytes a build's
  hash is taken of, and the directory names built from the hash.
- `DependencyGraph`, `TreeWalk`, `BuildOrder` (catalog.go, buildorder.go). The
  shortest explanation of a dependency, the marked dependency tree in both
  directions, and the order of builds by closure.
- `Trust` and `BlobDownload` (trust.go, blobfile.go, blobfile_disk.go). Counting
  the distinct keys that vouch for a build (TUF, section 5.4.2), and the
  resumed download (RFC 9110, sections 14.2 and 15.3.7).
- `Text`, `Sorting`, `Options` hold strings, lists and sorting as the other
  modules use them.

## Conventions

Characters stand for bytes; string order is byte order. Numbers are unbounded
naturals. The sorts of the standard library are an insertion sort; where the
source sorts with an unstable sort, the theorem that the result depends on the
elements only is part of the model. Errors and missing values are constructors
of a result type. Hash functions, key identifiers and signature checks are
arbitrary functions; base32 (RFC 4648, section 6) is present by its alphabet
and length only.

## Assumptions

- Registry calls are single steps: the tags are listed in one call and then
  read one by one, and other publishers may act between any two. Index reads and
  tag listings succeed and are current, and there is one publisher for each
  platform, with no dash in the name of its operating system. Platform tags that
  alias another publisher's platform (`linux-amd64` beside `linux-x86-64`) are
  excluded at the start.
- The extraction destination is an absolute path without `.` or `..`, not the
  root, and a directory reached through no link. Archives have no hard-link
  entries. A walk follows at most 40 links, as the Linux kernel does, and
  directories are made as the Go standard library makes them.
- Recipes are a finite map, and published tags and declared sonames are fixed
  predicates while a closure is resolved.

## Where the code does not do what it says

Each of these is stated with the exact condition under which the code does what
it says, and with a failing input where the condition does not show one.

- Unpacking is said to stay inside its destination. The lexical check accepts a
  name that climbs out and back to the destination itself, and no walk over the
  parents looks at the destination. A link of such a name replaces an empty
  destination, and what follows is written where it leads (`LinkEscapes`).
  `ContainedExactly` says for which archives this cannot happen,
  `ExtractContained` for which archives and trees; `ExtractRefines` and
  `LastEntryWins` do the same for what the tree then holds.
- A merged index is said to be the same complete one for every racer. It is
  sure to be so from a listing in which all tags stand (`CompleteForGood`); from
  an older one it lacks what neither the index read nor the tags listed supply.
  `FinishedButLost` gives a run in which two publishers both confirm their
  entries twice and one platform is gone; `WriteCovers` says exactly which
  platforms a written index has.
- The repair pass compares digests. When two platforms share a manifest's bytes
  one entry satisfies both and the other platform stays out
  (`SharedDigestLost` gives a run); `PassCompletes` gives the condition.
- A list of end-of-life lines is said to rank and never to filter. With several
  builds of one version it can turn an answer into a refusal (`ListFilters`);
  `ListMatters` says when.
- A pick is said never to be a coin flip between builds of one version. Builds
  that spell one version differently are not recognised as such, and the order
  of ties decides (`SpellingsFlip`); `PickOrderFree`, `AnswerOrderFree` and `PickFromTagSet` say
  when it does not, and `SelectionExactly` when the selection is a function of
  the set of tags.
- Versions are said to coexist when no soname is shipped by two of them. One
  that lists a soname twice is refused as well (`TwiceDeclared`, `CoexistIff`).
- The dominance order of closures is not transitive between closures that record
  different projects, and rank and listing then need not follow it
  (`LaterCanCycle`). `TransitiveExactly`, `RanksExactly` and `SortedExactly`
  give the condition on the recorded sets.
- A dependency list that names another project twice expands it twice
  (`NamedTwice`); `TreesExpandOnceExactly` says that nothing else does.
- A catalogue entry shadowed by a later one of the same name counts for
  dependents and not for dependencies, so the two trees can disagree
  (`ShadowShows`); `TreesAgreeExactly` says when they do not.
- The empty name is the end mark of the explanation walk, so a project of that
  name cuts the explanation short (`BlankCuts`). `WholeExactly` says from which
  projects every explanation is whole.
- A build is said to lose nothing by what strangers attach to it. Past 32
  signatures nothing is counted, so a threshold that was met is no longer
  (`CrowdedOut`). `ThresholdMonotone`, `TallyGrows` and `VerdictKept` say that
  up to there nothing is lost.
- A blob whose last byte arrives on a stream that then fails is lost when the
  answer to the empty range asked for next brings nothing and does not end
  cleanly (`WholeThenRefused`, `WholeThenLost`); `FetchedExactly` says which
  answers deliver the blob.
- A store directory reads back as its build only for versions that begin with a
  digit and carry no outer spaces (`BuildNameRoundTrip`).
- A platform tag reads back as its platform only when the system's name has no
  dash (`TagReadsBack`).

## Model

| member | source | states |
|---|---|---|
| PublisherRuns.CompleteForGood | oci.go:974-1010 | In any interleaving, once all tags are placed and no writer holds an older listing, any write makes the index complete and every later index stays complete |
| PublisherRuns.ListedForGood | oci.go:974-1010 | The same for one platform: its tag placed and no older listing held, the first write lists it and no later index loses it |
| PublisherRuns.WriteCovers | oci.go:974-1010 | The index a publisher writes has exactly the platforms of the index it read, of the tags it listed as what they said when read, and its own |
| PublisherRuns.WrittenCovers | oci.go:974-1010 | In any run every written index has every platform of the index as it stood at some earlier moment, and of all tags that stood when, later, they were listed, the listing and each read being calls of their own |
| PublisherRuns.WritersRemember | oci.go:974-991 | What a writer composes from is the index of an earlier moment and, of all tags that stood later when they were listed, what each said at some moment between then and the writing |
| PublisherRuns.WriteLists | oci.go:983-991 | A writer whose listing holds a platform's tag writes an index with that platform's own manifest |
| PublisherRuns.SettledKept | oci.go:911-917 | No step takes a placed tag back or brings an older listing into a writer's hands |
| PublisherRuns.NamedIsAttested | oci.go:896-917 | In every reachable state from an untouched registry, whatever the index or a platform tag names is one publisher's manifest, stored, with all its attestations attached; the index has one entry per platform at most |
| PublisherRuns.StepGenuine | oci.go:861-917 | Every step keeps that invariant, in the index, the tags and everything publishers hold |
| PublisherRuns.FinishedButLost | oci.go:941-973 | Two publishers can both finish, each having confirmed its manifest twice, with the index holding the first one's entry alone |
| PublisherRuns.ConfirmedTwice | oci.go:997-1005 | In any run a publisher that finished found its manifest listed at two different calls after its last write |
| PublisherRuns.SixAttempts | oci.go:939-1009 | A publisher writes six times at most, and gives up without a failing call only after the sixth |
| PublisherRuns.PassCompletes | ensure.go:37-53 | The sequential pass lists every digest, and every platform exactly when the index did already or lacks some digest |
| PublisherRuns.PassRepairs | ensure.go:24-53 | After any run from an untouched registry, all tags placed and no digest shared, the pass leaves every platform listed |
| PublisherRuns.SharedDigestStaysOut | ensure.go:45-47 | With one digest for two platforms the pass changes nothing and one platform stays out |
| PublisherRuns.SharedDigestLost | ensure.go:37-53 | Such an index is reached: both publishers finish, one platform is missing, and the pass finds nothing to repair |
| IndexProtocol.UpsertPlatform | oci.go:1109-1119 | The in-place filter and append computes the list without the platform's old entries, then the new one |
| IndexProtocol.UpsertMembers | oci.go:1107-1119 | Exactly the new entry and every old one of another platform, entries without a platform included |
| IndexProtocol.ComposeUnique | oci.go:983-991 | Composing an index with one entry per platform gives one entry per platform |
| IndexProtocol.ComposePlatforms | oci.go:983-991 | A composed index has exactly the platforms read, listed and its writer's own |
| IndexProtocol.ComposeMembers | oci.go:983-991 | Which read and listed entries survive composition, and that no others appear |
| IndexProtocol.ListedMembers | oci.go:1121-1177 | A listing yields exactly what the tags of the version say, in whatever order they are listed |
| IndexProtocol.Registry.PlatformManifests | oci.go:1127-1177 | The loop over the tags computes that listing |
| IndexProtocol.Registry.ComposeIndex | oci.go:975-991 | The upserts in one growing slice compute the composition of what was read, listed and is one's own |
| IndexProtocol.Registry.MergePlatform | oci.go:974-1010 | Its calls are rounds of reading, writing what is composed, and checking after a moment for others; it succeeds after at most five rounds taken back and one in which two checks, a moment apart, found the manifest, and fails after six taken back; undisturbed it succeeds and writes the composed index |
| IndexProtocol.Registry.EnsureIndexed | ensure.go:37-53 | Success means the manifest is listed; nothing changes when it was; repaired says whether it was missing, and a repair is such a confirmed round |
| IndexProtocol.TagReadsBack | oci.go:1163-1170 | A platform tag is read back as its platform, in the index's names, if and only if the system's name has no dash |
| IndexProtocol.ArchesInTags | oci.go:97-106 | A tag for x86-64 is read as amd64, one for aarch64 as arm64, any other as itself |
| IndexProtocol.TagsRead | oci.go:1145-1175 | A descriptor that names its platform is taken as it is; a tag of another version, or without system and architecture, stands for none |
| IndexProtocol.TagsDistinct | oci.go:919-930 | Different platforms have different tags |
| Containment.ExtractContained | extract.go:75-201 | Whatever links earlier entries made, nothing that is not strictly below the destination changes, also when extraction stops half way, if and only if something stands below the destination or the archive does not open by linking the destination itself |
| Containment.ContainedExactly | extract.go:183-201 | An archive is contained in every tree with a sound destination if and only if it does not open by linking the destination itself |
| Containment.OpensMeans | extract.go:100-110 | An archive opens so when a link entry of the destination's own name has before it only skipped names, unsupported kinds and directories at the destination |
| Containment.LinkEscapes | extract.go:100-110 | A link named "../d" over the empty destination d, and a file after it that lands in the directory the link leads to, in a successful extraction |
| Containment.ExtractRefines | extract.go:75-201 | A successful extraction leaves the tree that reading the entries by name alone gives, if and only if something stood below the destination or the archive does not link the destination first and then place something below it |
| Containment.LastEntryWins | extract.go:75-201 | After success each path named by a file or link entry holds what the last such entry said, the rest being as before or a new directory, if and only if something stood below the destination or the archive does not link the destination first and then place a file or link below it |
| Extraction.Extract | extract.go:75-177 | The loop over the entries, with its refusals and failures, against the function of tree and entries |
| Extraction.PlaceEntry | extract.go:91-176 | The calls one entry makes on the mounted tree, in order |
| Extraction.PlaceAny | extract.go:91-176 | One entry at a target below the destination touches nothing outside, and on success has exactly the effect its name and kind suggest |
| Extraction.SpineMeans | extract.go:238-282 | The walk over the parents accepts exactly the targets above which no link stands |
| Extraction.SafeParents | extract.go:263-282 | The loop over the parents, with its early end at the first missing one |
| Extraction.TargetProper | extract.go:183-201 | An accepted target is a path without `.` or `..`, at or below the destination, and strictly below when the name has no `..` |
| EntryNames.TargetFollows | extract.go:183-201 | Where a name leads: absolute ones are refused, ones stripped of all components or of all effect are skipped, and what is left is followed component by component from the destination and refused unless it ends there or below |
| EntryNames.StrippedTarget | extract.go:187-195 | An ordinary name lands below the destination without its first components, and nowhere when it has no more than those |
| EntryNames.ComponentsAre | extract.go:333-342 | A component is any text between separators but the empty one, "." and ".." included |
| EntryNames.DotCounts | extract.go:315-342 | A leading "." counts; doubled and trailing separators do not |
| Placement.EntryPlaced | extract.go:91-176 | An entry below the destination is placed if and only if it is of a skipped kind, or nothing but directories stands above its target and it fits what stands there; the path is insecure if and only if a link stands above |
| Placement.MkdirAllSucceeds | extract.go:92-106 | Directories are made exactly where nothing else is in the way |
| Extraction.PrefixTest | extract.go:195-199 | The textual prefix test with a separator is containment of paths |
| Extraction.StripComponents | extract.go:333-342 | The in-place filter leaves the non-empty components |
| Extraction.MkdirAllEffect | extract.go:92-106 | Where no link is in the way, making directories adds missing ones on the path and, on success, all of them |
| Extraction.MkdirAllAtLink | extract.go:92-99 | On a name that is a link it changes nothing, wherever the link leads |
| Extraction.LinkPlaced | extract.go:100-110 | Unlinking and linking changes the target's own location only |
| Extraction.FilePlaced | extract.go:130-171 | Unlinking a link before writing makes the write land at the target's own location |
| FileSystem.LocatesItself | extract.go:263-282 | A walk whose proper prefixes are no links ends at its own name exactly when they are directories |
| Versions.ParseVer | pkgx.go:504-521 | Parsing a version string, component by component, with its rebuild counter |
| Versions.SplitRebuild | pkgx.go:538-555 | Only an all-digit suffix of a dotted body is a rebuild counter |
| Versions.CmpVer | pkgx.go:571-594 | The comparison loop computes the order on padded components, then on rebuilds |
| Versions.ComparePreorder | pkgx.go:571-594 | The order is total, antisymmetric in sign and transitive, strictness carried through |
| Versions.TiesSatisfyAlike | pkgx.go:620-689 | Versions the order calls equal satisfy the same constraint strings, all of them |
| Versions.SatisfiesConvex | pkgx.go:620-689 | Without `||` any version between two accepted versions is accepted |
| Versions.PinIsInterval | pkgx.go:660-706 | A caret or tilde pin is the half-open interval from its base to the next line |
| Constraints.OperatorsMean | pkgx.go:645-689 | What each operator before a version asks: the comparison it stands for, and for a pin or a bare version the half-open interval to the next line |
| Constraints.DottedPlain | pkgx.go:645-689 | Every dotted version may stand after an operator so |
| Constraints.Alternatives | pkgx.go:622-634 | `||` is choice |
| Constraints.Conjunction | pkgx.go:635-643 | A comparator after another text is conjunction, with a space between or without |
| Constraints.ComparatorsMean | pkgx.go:635-643 | Without bars a constraint is met when all its comparators are |
| Constraints.QuotesMeanNothing | pkgx.go:620-624 | Quotes around a constraint mean nothing |
| Constraints.WhiteSpace | pkgx.go:620-624 | Nor does white space |
| Constraints.OlderMeans | pkgx.go:571-594 | A version is older when the first number that differs is lower, missing ones counting as zero, or when none differs and its rebuild is |
| Constraints.RebuildReads | pkgx.go:538-555 | A rebuild counter is read off a dotted version, and off no other |
| Constraints.LeadingV | pkgx.go:504-521 | A leading "v" and outer spaces are no part of a version |
| Constraints.SpellingsExactly | pkgx.go:1479-1521 | The spellings of a version are the dotted texts of all numbers that tie with its own, up to one zero more than it has |
| Versions.SplitComparators | pkgx.go:1536-1552 | The cutting loop yields the trimmed comparators, each shorter than the whole when there are several |
| TagSelection.KeyIdentifies | pkgx.go:1068-1092 | Keys are equal if and only if the versions compare equal and have one variant |
| TagSelection.MakeNumericKey | pkgx.go:1068-1092 | The key is the significant components, the rebuild and the variant |
| TagSelection.TagSpellings | pkgx.go:1479-1521 | The list is repeat-free, begins with the version's own tag, and holds exactly the spellings that drop only zeros, and one longer each; a rebuild or tagged build has its own only |
| TagSelection.SpellingsReadBack | pkgx.go:1479-1521 | Every spelling of an untagged version that begins with a digit parses back equal to it |
| TagSelection.BuildTagReads | pkgx.go:1111-1137 | A dotted tag, with a hash or without, reads as its numbers, its hash and itself |
| TagSelection.SelectVersions | pkgx.go:1111-1154 | Every entry is some eligible tag's, every eligible tag is represented, one entry per key, sorted |
| TagSelection.FlavourTaken | pkgx.go:1111-1120 | Every version selected is a listed version tag's, without a flavour or of the one wanted |
| TagSelection.FlavourWins | pkgx.go:1094-1146 | Every version tag without a flavour has an entry of its key; one of the wanted flavour has an entry of that flavour; no tag of another is pulled |
| TagSelection.MostSpecificKept | pkgx.go:1094-1109 | Of the plain spellings of a version the one with most components is kept, of those the last by name |
| TagSelection.FlavorSplits | glibc.go:45-56 | A version and the glibc appended to it are taken apart again |
| TagSelection.VersionTagsAre | pkgx.go:1178-1194 | A version tag has up to 64 of the characters a version may have, a digit first or after "v", "V" or both |
| TagSelection.Ascends | pkgx.go:1111-1154 | Without variants the result is strictly ascending |
| TagSelection.SelectionOrderFree | pkgx.go:1111-1154 | Two listings of one set of tags, in any order and with repeats, select the same versions, given at most one tag of the wanted flavour per version and one variant among versions that tie |
| TagSelection.SelectionExactly | pkgx.go:1111-1154 | The selection is a function of the set of tags if and only if that condition holds |
| TagSelection.HeldStands | pkgx.go:1094-1109 | A candidate that does not supersede the one held is stood for by it |
| VersionPick.PickVersionForAll | pkgx.go:1274-1367 | It picks exactly when a candidate is to be chosen, says which and from which tag, with its end-of-life line; a refusal names the siblings, or lists exactly the versions that satisfy and are not published here, newest first, or means none satisfies |
| VersionPick.PickIsNewest | pkgx.go:1274-1334 | Over candidates in version order without siblings: no usable version off every dead line compares newer than the pick, and where there is none of those no usable version does |
| VersionPick.PickFromTags | pkgx.go:1111-1154 | Over what a tag listing without variants selects, the pick is an eligible tag's version, and no eligible tag whose entry competes reads as a newer one |
| VersionPick.PickOrderFree | pkgx.go:1258-1334 | Every order of the ties gives the same pick, or none, if and only if the newest candidates that count are one, or all refused for their siblings |
| VersionPick.AnswerOrderFree | pkgx.go:1258-1334 | Every order of the ties gives the same pick, or a refusal over the same version, if and only if a single candidate decides |
| VersionPick.PickFromTagSet | pkgx.go:1258-1334 | With one tag of the wanted flavour per version, every listing of one set of tags leads to the same pick, or none, if and only if that holds for one selection of it |
| VersionPick.PickFromSiblings | pkgx.go:1258-1334 | It does where versions that tie are builds of one spelling |
| VersionPick.SpellingsFlip | pkgx.go:1258-1272 | One listing of two published builds spelled "1.0" and "1.0.0" has two selections, and each picks the build the other does not |
| VersionPick.ResolvesIffCommon | pkgx.go:1274-1334 | With nothing blocked a request resolves if and only if some version satisfies it and is published here, whatever the list |
| VersionPick.ListNeverHelps | deprecated.go:12-39 | What resolves under a list resolves without one |
| VersionPick.ListMatters | pkgx.go:1299-1334 | Resolution depends on the list if and only if the request resolves without one and some candidate is published in several builds |
| VersionPick.ListFilters | pkgx.go:1299-1334 | Of a listing of two builds of version 1 and one of version 2 the last is picked; calling line 2 dead turns the answer into a refusal |
| VersionPick.VariantSiblings | pkgx.go:1258-1272 | The sorted names of the other builds of the same version and rebuild, "(no variant)" for the plain one, and whether there are any |
| VersionPick.PublishedTagFor | pkgx.go:1444-1459 | A tag is found exactly when some spelling carries the platform, the version's own one first |
| VersionPick.FindLine | deprecated.go:113-124 | The scan finds the first line that holds the version |
| VersionPick.LineIsPrefix | deprecated.go:109-124 | A line holds a dotted version if and only if its components are a prefix of the version's |
| VersionPick.LineEnds | deprecated.go:109-124 | A line ends where a number does |
| AbiLines.PartitionConstraints | abilines.go:75-97 | The greedy placement of each demand into the first group that still resolves |
| AbiLines.PartitionSplits | abilines.go:67-97 | The demands split if and only if each is met by some version; the groups are a permutation of the demands, each met by some version, and no version meets two groups |
| AbiLines.SonamesDisjoint | abilines.go:101-123 | The owner map decides whether the versions coexist |
| AbiLines.CoexistIff | abilines.go:99-123 | Versions coexist if and only if each declares some soname, none is shipped by two, and none is declared twice by one |
| AbiLines.TwiceDeclared | abilines.go:101-123 | One version alone is refused when it lists a soname twice |
| AbiLines.PickAbiLines | abilines.go:42-65 | It answers only with lines, and refuses only with fewer than two demands or groups or with versions that clash |
| AbiLines.LinesSound | abilines.go:13-65 | The lines are two or more versions, strictly newest first, every demand met by one of them, each declaring sonames, no soname shipped by two |
| AbiLines.PicksDiffer | abilines.go:52-58 | Picks for groups that no version bridges are different versions |
| Closure.CollectGraph | pkgx.go:1873-1914 | The loop over queue and marks computes the walk as a function of recipes and roots, free of map order |
| Closure.CollectedExactly | pkgx.go:1873-1914 | The walk succeeds if and only if every reachable project has a recipe; it visits exactly those, once each; edges and demands are exactly theirs, once each |
| Closure.CollectedInOrder | pkgx.go:1886-1912 | The walk is breadth first and by name: the edges are what the roots and then the visited projects ask for, in order, and the visits are what the edges lead to, each when first met |
| Closure.GatherKeeps | pkgx.go:1892-1912 | What the walk keeps at every turn, on cyclic graphs too, by descent of unseen projects and queue length |
| Closure.ResolveClosureFor | pkgx.go:1820-1847 | Success is an answer for every visited project in order; failure is a missing recipe or an unanswered project |
| Closure.ClosureSound | pkgx.go:1820-1847 | The projects are exactly those reachable from the roots; every root demand and every dependency of a reachable project is met by some version of its target, split projects included |
| Closure.AnswersMeet | pkgx.go:1826-1845 | One version or several, the answer meets each of the project's demands |
| Closure.AnswersNewest | pkgx.go:1826-1845 | A project answered by one version gets one that no competing version is newer than |
| Identity.Canonical | concrete.go:171-216 | The builder's writes over sorted copies produce the encoding of the build's tokens |
| Identity.DecodeEncode | concrete.go:218-228 | A sequence of length-prefixed tokens is read back, for any bytes in any of them |
| Identity.CanonicalInjective | concrete.go:171-216 | Two specs give the same bytes if and only if platform, recipe and graft agree, the variant names agree with equal multisets of values, and the multisets of dependencies agree |
| Identity.FieldsInOrder | concrete.go:171-216 | A reader of the bytes meets each field after its name, platform, variants, dependencies as project, version and hash, recipe and graft |
| Identity.ListsAscend | concrete.go:179-207 | Values and dependencies are written in ascending order |
| Identity.TokenBytes | concrete.go:218-228 | A token is a zero byte, the length in decimal, a colon and the text |
| Identity.HashIdentifies | concrete.go:260-266 | Among any set of specs, hashes are equal exactly on equal builds if and only if the digest confuses no two of their canonical forms on its first characters |
| Identity.HashDecides | concrete.go:260-266 | Two specs share a hash if and only if they are one build or the digest confuses their two forms; a hash has sixteen characters, the empty spec none |
| TagSelection.SplitJoined | concrete.go:328-338 | A hash appended to any version is split off again |
| TagSelection.VariantHashesAre | concrete.go:340-355 | A variant hash is sixteen characters of lower-case base32 |
| StoreNames.BuildNameRoundTrip | storepath.go:275-287 | A build's directory reads back as the build if and only if its version begins with a digit and has no outer space |
| StoreNames.NamesOnDisk | storepath.go:75-81 | The names as they stand on disk |
| StoreNames.DirNameRoundTrip | storepath.go:75-81 | A plain directory name reads back as its version if and only if it preserves the version and no part of that looks like a hash; a hashed version's name is its build's |
| StoreNames.BuildNamesDistinct | storepath.go:107-115 | Two builds share a directory only when version and hash agree |
| StoreNames.ResolveBuild | storepath.go:243-261 | A named hash resolves to its own directory when that exists; without one, exactly when a single build of the version is installed and has a hash |
| DependencyGraph.WhyDepends | catalog.go:329-360 | The project itself, nothing when there is no path, and else the shortest path of real edges that is first by name, repeat-free, cut after an empty name |
| DependencyGraph.ExplanationUnique | catalog.go:317-360 | One answer satisfies that, so it is a function of the graph |
| DependencyGraph.ExplanationExists | catalog.go:329-360 | Where there is a path there is a shortest one that is first by name |
| DependencyGraph.WholeExactly | catalog.go:346-355 | The explanations from a project are whole, whatever the other end, if and only if it reaches no project without a name; from such a project itself, if and only if it depends on no other |
| DependencyGraph.BlankCuts | catalog.go:346-355 | Through a project without a name the explanation of "b" by "a" is "b" alone |
| DependencyGraph.NamedWhole | catalog.go:329-360 | Without empty names in the graph the explanations from every named project are whole |
| DependencyGraph.TrailsShortest | catalog.go:336-350 | Within the distance searched no path is shorter than the trail found |
| TreeWalk.Walker.WalkFrom | catalog.go:377-431 | The recursion over the shared marks computes the walk as a function of the marks, at any depth limit |
| TreeWalk.TreeIsComplete | catalog.go:377-431 | Without a depth limit the tree names exactly the projects one edge beyond a reachable one, repeats are childless, and every expanded node has exactly its sorted dependencies below it, each with whether it is known and its first version |
| TreeWalk.TreeExpandsOnce | catalog.go:377-431 | Where no list names another project twice, each reachable project but the root is expanded exactly once |
| TreeWalk.TreesExpandOnceExactly | catalog.go:377-431 | The trees of all roots expand each reachable project once if and only if no list names another project twice |
| TreeWalk.NamedTwice | catalog.go:377-431 | A project that lists one dependency twice shows it expanded twice |
| TreeWalk.WalkExpandsOnce | catalog.go:377-431 | Under that condition, at any depth limit each newly marked project is expanded exactly once |
| TreeWalk.LevelFirst | catalog.go:385-425 | A child is expanded exactly when it was not marked before its level: a whole level is marked before any of it is visited |
| TreeWalk.DepthHolds | catalog.go:377-431 | A depth limit shows that many levels at most, and the first of them whole |
| TreeWalk.MarksAreReachable | catalog.go:377-431 | The marks left by a whole walk are exactly the reachable projects |
| TreeWalk.DepTree | catalog.go:273-277 | The walk over the declared edges of any catalogue, a name standing for its last entry |
| TreeWalk.Dependents | catalog.go:305-315 | The same walk over all declared edges turned round |
| TreeWalk.IndexIsLast | catalog.go:273-277 | A name declared several times stands for its last entry |
| TreeWalk.DirectionsAgree | catalog.go:273-315 | One project is among another's dependencies exactly when the other is among its dependents |
| TreeWalk.TreesAgreeExactly | catalog.go:273-315 | The two trees of a catalogue agree on all pairs if and only if every declaration, of a shadowed entry too, is a path over the entries that stand |
| TreeWalk.ShadowShows | catalog.go:273-315 | A shadowed entry makes "a" a dependent of "b", which the tree of "a" does not name |
| BuildOrder.ClosureIsLater | buildorder.go:168-189 | The nested loops decide: at least as new on every shared dependency, newer on one |
| BuildOrder.LaterAsymmetric | buildorder.go:156-189 | No two closures are later than each other |
| BuildOrder.LaterTransitive | buildorder.go:156-189 | Whatever versions are recorded, dominance carries from A over B to C when A and B or B and C share no project, or what A and C share is in B and all that A and B share is in C or all that B and C share is in A |
| BuildOrder.TransitiveExactly | buildorder.go:156-189 | For all versions recorded over three project sets dominance is transitive if and only if the sets compose |
| BuildOrder.LaterCanCycle | buildorder.go:156-189 | Over different projects three closures can each be later than the next |
| BuildOrder.LaterRanksLower | buildorder.go:139-154 | Of builds any three of whose project sets compose, the later one has strictly fewer dominators |
| BuildOrder.RanksExactly | buildorder.go:139-154 | Rank follows dominance for every choice of versions, under distinct hashes from any large enough pool, if and only if any three of the recorded sets compose |
| BuildOrder.ClosureRank | buildorder.go:139-154 | The counting loops give every hash its number of dominators |
| BuildOrder.SortBuilds | buildorder.go:91-130 | The in-place sort leaves the list sorted by the key |
| BuildOrder.ListedBy | buildorder.go:91-130 | How each key lists builds: withdrawn last; the latest installed first and those not installed last; fewest later builds first; ties by hash |
| BuildOrder.SortedByClosure | buildorder.go:91-154 | By closure no build stands after one it is later than, when any three of the recorded sets compose |
| BuildOrder.SortedOverOneSet | buildorder.go:91-154 | So over builds that record the same projects |
| BuildOrder.SortedExactly | buildorder.go:91-154 | No choice of versions and of hashes from the pool makes the listing show a build after one it is later than if and only if any three of the recorded sets compose |
| BuildOrder.SortedBuildsPermutes | buildorder.go:91-130 | Every key gives a permutation of the builds |
| BuildOrder.SortedBuildsOrderFree | buildorder.go:91-130 | With distinct hashes the listing does not depend on the order of arrival |
| Trust.Count | trust.go:436-471 | The tally: the sorted names of the trusted keys that vouch, the untrusted total, the revoked keys found; the empty set and more than 32 signatures are refused |
| Trust.NamesReported | trust.go:436-471 | In a deduplicated trust set the names reported are those of the vouching key ids, one for each, sorted; in any other, of their first entries where keys can be told apart |
| Trust.CountOrderFree | trust.go:436-471 | For the same signatures in any order and under any hints the refusal is the same, or names, untrusted total and revoked keys are |
| Trust.RepeatAddsNothing | trust.go:436-471 | A signature attached again under whatever hint changes only the untrusted total, and that only if a stranger made it; as the 33rd it ends the count |
| Trust.RevokedReported | trust.go:436-471 | The revoked keys reported are those of the attestations judged revoked, once each |
| Trust.RevokedVerdict | trust.go:255-262 | An attestation is judged revoked if and only if some revoked key verifies it, by the first that does; it is a stranger's if and only if no key of either kind does |
| Trust.RevokedExact | trust.go:436-471 | A key id is reported as revoked if and only if some revoked key of that id verifies some attestation, when each verifies under revoked keys of one id at most |
| Trust.VerifyOne | trust.go:568-582 | Keys the hint names are tried first, then the others; the first that verifies wins |
| Trust.RevokedBy | trust.go:255-262 | The first revoked key under which the attestation verifies |
| Trust.VouchingExact | trust.go:436-471 | When each signature verifies under at most one key, the keys counted are exactly the trusted, unrevoked ones with a verifying attestation |
| Trust.VouchingOrderFree | trust.go:436-471 | Order, repetition and key-id hints of attestations change neither the keys counted nor the revoked keys found |
| Trust.StrangersOrderFree | trust.go:436-471 | The untrusted total does not depend on the order of attestations or on their hints |
| Trust.TallyGrows | trust.go:436-471 | Attaching more takes no name and no revoked key from the tally up to 32 signatures; past them there is no tally |
| Trust.HintIrrelevant | trust.go:568-582 | A key-id hint never changes what an attestation amounts to |
| Trust.ThresholdMonotone | trust.go:436-517 | A count that meets the threshold still meets it when more is attached if and only if at most 32 are; repetition, under whatever hints, never meets it |
| Trust.CrowdedOut | trust.go:440-442 | One good signature meets the threshold; with 32 strangers' beside it nothing is counted |
| Trust.SignatureAttestations | oci.go:763-796 | The loop over the referrers: the signatures, how many were unreadable, and the refusal of more than 32 in all |
| Trust.SignaturesOf | oci.go:571-596 | The report on a build from its referrers: names, strangers' signatures, unreadable ones, revoked keys and the threshold, each in its place |
| Trust.VerdictKept | oci.go:571-596 | A build vouched for stays so when more is attached if and only if its signatures, unreadable ones included, are at most 32 |
| Trust.DedupeSigners | trust.go:373-385 | The first entry of every key id is kept, in order, and only those |
| BlobDownload.WriteBlobFrom | blobfile.go:35-66 | A 200 restarts the file, a 206 appends, anything else leaves it; what is reported written and whether the answer was clean |
| BlobDownload.FetchBlobFile | blobfile_disk.go:58-127 | The retry loop within its bound, ending with the staged file at its start on success |
| BlobDownload.ExchangeFaithful | blobfile_disk.go:71-102 | Through any cuts, resumptions and replays the file is a prefix of the blob, and the whole of it once a stream ended cleanly |
| BlobDownload.FetchedExactly | blobfile_disk.go:71-126 | Against a faithful server and an honest descriptor a download succeeds if and only if the answers deliver: within the retries every earlier one was cut and, after the first, brought something, and the last of them ends cleanly or leaves the file whole at the last attempt |
| BlobDownload.DigestDecides | blobfile_disk.go:71-126 | Against any server, with the size known or not: success if and only if the answers leave the blob in the file, provided no other file they leave has its digest |
| BlobDownload.ProgressArrives | blobfile_disk.go:71-102 | Over the requests actually made: cut answers that bring something, then a clean end within the retries, deliver the blob |
| BlobDownload.ResumingArrives | blobfile_disk.go:71-102 | A server that honours ranges and cuts every stream after so many bytes delivers the blob if and only if six streams hold it |
| BlobDownload.WholeThenRefused | blobfile_disk.go:71-102 | A faithful server from which the whole blob "x" arrives on a failed stream and is lost when the empty range is refused |
| BlobDownload.WholeThenLost | blobfile_disk.go:71-102 | From any attempt but the last: a file made whole by a stream that fails is lost when the next answer brings nothing and does not end cleanly |

## Left out

- HTTP, TLS, authentication, backoff, the stall watchdog and the pauses between retries: they decide when a call happens, not what it does.
- JSON, YAML, HCL, tar and compression formats: archives are entry sequences, indexes are lists of descriptors, recipes are maps.
- Artifact types and annotations carried from a manifest into the index: a descriptor is its digest and platform.
- Failed index reads and tag listings: the code falls back to an empty index or listing, and nothing is claimed then.
- Hard links, permission bits and times in extraction: they need inode identity and metadata.
- Containment.LastEntryWins: nothing is claimed about hard-link entries, which the model does not have.
- Closure.ResolveClosureFor: who asked for each demand, and the wording of conflicts, are not part of the result.
- AbiLines.PickAbiLines: the branch for a group whose pick fails is absent, as every group of the partition resolves.
- TreeWalk.TreeIsComplete: stated without a depth limit; with one, `WalkFrom` and `WalkExpandsOnce` say what is computed.
- BuildOrder.SortedByClosure: asks that the hashes differ, as the names of installed builds do.
- Text.IsSpace: only the ASCII spaces; the source trims Unicode spaces as well.
- Fixed-width overflow of version components; ELF and Mach-O scanning, closure completion, environment lookup, service blocks, search ranking, emitters of recipes and locks, text cleaning for terminals: either library code or easy claims.
