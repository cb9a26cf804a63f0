# regclient descriptors and regsync tag cleanup, modelled in Dafny

This project models two parts of regclient, a client for OCI-style content-addressable registries:

- **Tag cleanup in regsync** (`cmd/regsync/cleanup.go`). Several sync rules can point at the same target repository. `cleanupTags` lists the target's tags. It forms the union of the tags wanted by every sibling rule, meaning every rule with that target. It pools the siblings' cleanup-exclusion regexes and schedules the remaining tags for deletion in listing order. It then deletes them one by one. A failed deletion is recorded and the loop goes on. A cancellation seen before a deletion ends the run.
- **Descriptor identity and selection** (`types/descriptor`). This part covers:
  - `Equal`, the full-metadata relation;
  - `Same`, the content-identity relation;
  - `GetData`, embedded data checked against size and digest;
  - `DigestAlgo` and `DigestAlgoPrefer`, digest-algorithm resolution with a stored preference;
  - `MatchOpt.Merge`;
  - `DescriptorListSearch`, which filters by artifact type, annotation subset and platform, prefers an exact platform, and sorts on an annotation.

Modules:

| file | module | models |
|---|---|---|
| wrappers.dfy | `Wrappers` | `Option` and `Result` |
| seqs.dfy | `Seqs` | order-preserving filter; first-seen-order union (`slices.Contains` + `append`) |
| digests.dfy | `Digests` | `<algorithm>:<hex>` digests, SHA-256/SHA-384/SHA-512, the canonical algorithm |
| descriptors.dfy | `Descriptors` | the descriptor value, `Same`, `Equal`, `GetData`, `DigestAlgo`, and the class holding the mutable preference |
| search.dfy | `DescriptorSearch` | `MatchOpt`, `Merge`, `DescriptorListSearch`; `Matches` holds the filter rules (equal artifact type, requested annotations present, an entry without a platform excluded when a platform is requested) and `Before` the sort rules (entries carrying the sort key first, then string order, reversed when descending) |
| cleanup.dfy | `Regsync` | `matchesExclusionPattern`, `findSyncEntriesForTarget`, `cleanupTags` |

The cleanup code is imperative: it appends to slices inside loops. Each of its loops is therefore a Dafny `method` with loop invariants, proved equal to a specification function:

| loop | method | specification function |
|---|---|---|
| sibling lookup | `FindSyncEntriesForTarget` | `SyncEntriesFor` |
| wanted-tag union | `CollectWantedTags` | `WantedTags` |
| exclusion pooling | `CollectExclusionPatterns` | `Exclusions` |
| classification | `SelectTagsToDelete` | `Schedule` |
| delete loop | `DeleteTags` | `DeleteRun` |

`CleanupTags` chains these methods. Its `ensures` ties the outcome to `Plan` (the schedule or the fatal error) and to `DeleteRun`. The lemmas prove what those functions mean.

The descriptor operations are pure functions. The one exception is `DigestAlgoPrefer`, which stores a preference that a later `DigestAlgo` reads back. It is a method of the class `MutableDescriptor`.

External behaviour enters the model as parameters:

- **Reference parse.** `refError` is the error of parsing the target reference, if any.
- **Tag listing.** `listing` is the outcome of `TagList` and `GetTags` together.
- **Tag filter.** `filter: TagFilter` stands for `filterTagList`.
- **Regexes.** `re: Regexp` gives `compiles` and `matches`.
- **Cancellation.** `canceled(k)` says whether cancellation is seen before deletion number `k`.
- **Deletion replies.** `reply(k)` is the registry's error for deletion number `k`, if any.
- **Hashing.** `hash` is the hash function.
- **Platform compatibility.** `compat` is the compatibility relation. `CompatWellFormed` fixes only the facts the tests depend on.

Model choices:

- **Triggering rule ignored.** The triggering rule `s` of `cleanupTags` is a parameter of `CleanupTags` but, as in the source, is never read. Siblings are found by target alone.
- **Deletion log.** The tags whose deletion was issued are kept in a ghost log `attempted`.
- **Behaviour fixed by the tests.**
  - `Same` is not only digest plus size. It also needs the media types to be equal or to be Docker/OCI counterparts. The tests show Docker2Manifest vs OCI1Manifest is "same" but Docker2Manifest vs Docker2ManifestList is not (types/descriptor/descriptor_test.go:72-101).
  - When a platform is requested, an entry without a platform never matches. The "artifact missing" row expects `NotFound` (types/descriptor/descriptor_test.go:721-732).
  - An invalid exclusion pattern does not always abort the cleanup. It fails it only when some unwanted tag reaches that pattern before an earlier pattern matches (cmd/regsync/cleanup.go:30-37, 137-151). `PlanFatal` and `ScheduleFailure` state this.

## Model

| member | source | states |
|---|---|---|
| `Regsync.FirstExclusion` | cmd/regsync/cleanup.go:24-41 | A tag is not excluded iff every pattern compiles and none matches. Otherwise the verdict names the first pattern in list order that is broken or matches, and every earlier pattern compiles and does not match. |
| `Regsync.NotExcludedPasses` | cmd/regsync/cleanup.go:30-40 | When a tag is not excluded, each listed pattern compiles and does not match it. |
| `Regsync.MatchesExclusionPattern` | cmd/regsync/cleanup.go:24-41 | Empty list or no match gives (false, "", no error). The first matching pattern gives (true, pattern, no error). A broken pattern reached before any match gives (false, "", that pattern's error). |
| `Regsync.SyncEntriesForSpec` | cmd/regsync/cleanup.go:44-52 | The sibling set holds exactly the rules whose target is `tgt`. Extending the configuration only appends siblings, so configuration order is kept. |
| `Regsync.FindSyncEntriesForTarget` | cmd/regsync/cleanup.go:44-52 | The appending loop returns exactly the order-preserving sibling set. |
| `Regsync.AllSetsSpec` | cmd/regsync/cleanup.go:94-122 | The sets visited are exactly the effective sets of the siblings. There are none iff no sibling has any. |
| `Regsync.AllSetsByRule` | cmd/regsync/cleanup.go:94-100 | A filter set is visited iff some sibling holds it in its `TagSets`, or has it as its top-level `Tags` when allow, deny or semverRange is non-empty. No set is visited iff every sibling has no `TagSets` and an unconstraining `Tags`. |
| `Regsync.Outputs` | cmd/regsync/cleanup.go:103-113 | Fails iff some filter set fails, with the error of the first failing set. Otherwise it holds exactly the tags that some set keeps. |
| `Regsync.WantedTagsSpec` | cmd/regsync/cleanup.go:92-127 | A filter error of any sibling fails the cleanup. With no filter set anywhere, the wanted tags are the whole listing. Otherwise they are duplicate-free and hold every tag some sibling's set keeps, and nothing else. |
| `Seqs.AddUnique` | cmd/regsync/cleanup.go:114-119 | The first-seen-order union extends the accumulator, contains every new tag and nothing else, and stays duplicate-free. |
| `Seqs.AddUniqueFirstSeen` | cmd/regsync/cleanup.go:114-119 | Every appended tag is new to the accumulator, and appended tags appear in the order of their first occurrence in the added list. |
| `Seqs.AddUniqueConcat` | cmd/regsync/cleanup.go:103-120 | Merging one output after another is the same as merging their concatenation. |
| `Regsync.AppendUnique` | cmd/regsync/cleanup.go:115-119 | The `slices.Contains` loop computes the first-seen-order union. |
| `Regsync.CombineAppend` | cmd/regsync/cleanup.go:95-122 | Merging the outputs of `a + b` is merging those of `a`, then those of `b`. The first error stops the merge. |
| `Regsync.MergeFilterSets` | cmd/regsync/cleanup.go:103-120 | The loop over one rule's sets merges each output into the union and returns the first filter error. |
| `Regsync.CollectWantedTags` | cmd/regsync/cleanup.go:91-127 | The nested loops with the `allSetsEmpty` flag compute exactly the wanted-tags specification. |
| `Regsync.ExclusionsSpec` | cmd/regsync/cleanup.go:129-133 | A pattern is pooled iff some sibling lists it in `CleanupTagsExclude`. |
| `Regsync.CollectExclusionPatterns` | cmd/regsync/cleanup.go:129-133 | The loop concatenates the siblings' exclusion lists in rule order. |
| `Regsync.ScheduleIsFilter` | cmd/regsync/cleanup.go:135-162 | A successful schedule is the listing filtered, in order, to the tags that are unwanted and not excluded. |
| `Regsync.ScheduleHead` | cmd/regsync/cleanup.go:137-158 | A wanted or excluded head tag does not change whether the schedule fails, or its error. |
| `Regsync.ScheduleFailure` | cmd/regsync/cleanup.go:137-151 | Classification fails iff some unwanted tag reaches a pattern that does not compile. The error names the pattern that the first such tag reaches. |
| `Regsync.SelectTagsToDelete` | cmd/regsync/cleanup.go:135-162 | The classification loop computes the schedule, or returns the compile error at once. |
| `Regsync.DeleteTags` | cmd/regsync/cleanup.go:164-192 | The delete loop's errors and issued deletions are those of the `DeleteRun` specification. |
| `Regsync.FirstCancel` | cmd/regsync/cleanup.go:166-173 | Returns the first position at which cancellation is seen, or the length. No earlier position is canceled. |
| `Regsync.AttemptedFrom` | cmd/regsync/cleanup.go:166-180 | From any position up to the first cancellation, deletions are issued for exactly the tags in between, in order. |
| `Regsync.ErrorsFrom` | cmd/regsync/cleanup.go:165-186 | From any position, the errors collected are the per-tag failures up to the first cancellation, followed by `Canceled` if one was seen. |
| `Regsync.DeleteRunShape` | cmd/regsync/cleanup.go:164-192 | Deletions are issued for exactly the tags before the first cancellation, and earlier deletions stand. Each failed deletion adds exactly one error for its tag and the loop continues. A cancellation appends `Canceled` and stops. |
| `Regsync.DeleteRunClean` | cmd/regsync/cleanup.go:179-199 | No error is collected iff no cancellation is seen and every deletion succeeds. |
| `Regsync.CleanupTags` | cmd/regsync/cleanup.go:57-200 | A fatal planning error is returned with zero deletions issued. Otherwise the deletions and the returned errors are those of the delete loop over the schedule. The cleanup then returns no error iff no cancellation is seen and every scheduled deletion succeeds. |
| `Regsync.PlanOrder` | cmd/regsync/cleanup.go:135-162 | A successful plan is the listed tags, in listing order, filtered to those not wanted and not excluded by the pooled patterns. |
| `Regsync.PlanSafety` | cmd/regsync/cleanup.go:129-162 | A scheduled tag has these properties: it is listed, some sibling has a filter set, every sibling's filter sets succeed without keeping it, and every sibling's exclusion patterns compile and do not match it. |
| `Regsync.PlanComplete` | cmd/regsync/cleanup.go:135-162 | When some sibling filters, every listed tag that no set keeps and no pooled pattern excludes is scheduled. |
| `Regsync.PlanFatal` | cmd/regsync/cleanup.go:58-151 | Fatal errors, in order: reference parse, tag listing, any sibling's filter error, then a broken exclusion pattern. The last is reported only if some listed tag that is not wanted reaches that very pattern as its first broken-or-matching exclusion. The pattern does not compile and comes from a sibling. |
| `Regsync.PlanNoFilters` | cmd/regsync/cleanup.go:124-127 | With no filter set among the siblings, nothing is scheduled, whatever the exclusion patterns are. |
| `Regsync.TwoRulesScenario` | cmd/regsync/cleanup.go:14-19 | Two sibling rules allow `stable` and `latest`, and a third rule targets another repository. Of `stable`, `latest` and `old`, only `old` is scheduled. |
| `Regsync.ForeignExclusionScenario` | cmd/regsync/cleanup.go:129-158 | An unwanted tag is kept when a pattern from a different sibling excludes it. |
| `Regsync.UnfilteredSiblingScenario` | cmd/regsync/cleanup.go:101-127 | A sibling without filters protects nothing once another sibling filters. With no filter anywhere, nothing is deleted. |
| `Regsync.DeleteScenario` | cmd/regsync/cleanup.go:164-192 | Cancellation before the second deletion leaves the first deletion and ends with `Canceled`. A failed first deletion does not stop the next two. |
| `Digests.LookupAlgorithm` | types/descriptor/descriptor_test.go:1008-1013 | Returns exactly the registered algorithm with the given name, and none for an unregistered name such as "invalid". |
| `Digests.Parse` | types/descriptor/descriptor_test.go:941-993 | A digest parses only as `<registered algorithm>:<lower-hex of that algorithm's length>`, and then it is that composition. One without a colon is malformed. |
| `Digests.ParseCompose` | types/descriptor/descriptor_test.go:942-943 | Composing an algorithm with a well-formed hash and parsing it back gives the same parts. |
| `Digests.ValidIsComposed` | types/descriptor/descriptor_test.go:960-972 | A valid digest is the composition of its algorithm and a well-formed hash. |
| `Descriptors.Same` | types/descriptor/descriptor_test.go:72-131 | Same is equality of the key (digest, size, media-type class). A Docker or OCI media type's class is its OCI counterpart, and any other media type is its own class. So Docker2Manifest vs OCI1Manifest is Same, a manifest vs a manifest list is not, and any size or digest difference breaks it. |
| `Descriptors.Equal` | types/descriptor/descriptor_test.go:132-387 | Equal implies Same and agreement on media type, artifact type, platform, annotations and data. Identical descriptors are Equal. |
| `Descriptors.SameAndEqualAreEquivalences` | types/descriptor/descriptor_test.go:32-71 | Both relations are reflexive, symmetric and transitive, so empty and identical pairs are Equal and Same. |
| `Descriptors.SizeOrDigestDiffers` | types/descriptor/descriptor_test.go:102-131 | A different size or digest breaks both Same and Equal. |
| `Descriptors.ConvertedMediaType` | types/descriptor/descriptor_test.go:72-86 | Relabelling with a Docker/OCI counterpart keeps Same and, when the label changes, breaks Equal. |
| `Descriptors.MetadataChange` | types/descriptor/descriptor_test.go:132-376 | Changing annotations, urls, platform or artifact type keeps Same. Equal then holds iff none of them really changed. |
| `Descriptors.CompareCases` | types/descriptor/descriptor_test.go:22-388 | The comparison table's rows hold: empty vs empty, empty vs a manifest, the media-type rows, size, digest, order-independent annotations, urls, platform and artifactType. |
| `Descriptors.MetadataCompareCases` | types/descriptor/descriptor_test.go:155-376 | The remaining rows hold: annotation diff, urls eq and missing, platform eq, diff and missing, artifactType eq, diff and missing. |
| `Descriptors.DigestAlgo` | types/descriptor/descriptor_test.go:941-1045 | A valid digest gives its own algorithm, and the digest spells that result: its name, a colon, then lower-case hex of that algorithm's hash length. An empty or malformed digest gives the preference when one is set, and Canonical when not. |
| `Descriptors.PreferenceOnlyForUnparsable` | types/descriptor/descriptor_test.go:994-1007 | A preference never overrides the algorithm of a valid digest, and always decides it for an empty or malformed one. |
| `Descriptors.DigestAlgoCases` | types/descriptor/descriptor_test.go:941-1007 | The algorithm table holds: empty and malformed digests give Canonical (SHA-256), valid ones give their own algorithm, and preferring SHA-512 affects only the empty digest. |
| `Descriptors.GetData` | types/descriptor/descriptor_test.go:390-476 | Only `ParsingFailed` is returned, and success returns exactly the embedded bytes. With a hasher that yields well-formed hex, success does not depend on the stored preference. It holds iff data is present, its length is the size, and the digest is some registered algorithm's digest of that data. |
| `Descriptors.ComposedDigestAlgo` | types/descriptor/descriptor_test.go:437-456 | A digest composed of an algorithm and that algorithm's hash of the data resolves to that algorithm, whatever preference is stored. |
| `Descriptors.GetDataRoundTrip` | types/descriptor/descriptor_test.go:437-456 | A descriptor built from bytes, their length and their SHA-256 or SHA-512 digest returns exactly those bytes. |
| `Descriptors.GetDataRejectsWrongDigest` | types/descriptor/descriptor_test.go:407-426 | A well-formed digest of the right algorithm but a different hash fails with `ParsingFailed`. |
| `Descriptors.MutableDescriptor.DigestAlgoPrefer` | types/descriptor/descriptor_test.go:1008-1028 | An unregistered algorithm returns `Unsupported` and leaves the descriptor unchanged. A registered one is stored as the preference, and nothing else changes. |
| `DescriptorSearch.Merge` | types/descriptor/descriptor_test.go:815-939 | Each field `changes` sets overrides `orig`, and each field it leaves unset keeps `orig`'s value. Annotation keys are unioned, with `changes` winning on a shared key. |
| `DescriptorSearch.MergeIdentity` | types/descriptor/descriptor_test.go:822-829 | Merging the empty options on either side changes nothing, so empty merged with empty is empty. |
| `DescriptorSearch.MergeAssociative` | types/descriptor/descriptor_test.go:830-913 | Refining step by step equals refining by the merged steps. |
| `DescriptorSearch.MergeIdempotent` | types/descriptor/descriptor_test.go:815-939 | Merging options into themselves changes nothing. |
| `DescriptorSearch.MergeCases` | types/descriptor/descriptor_test.go:815-939 | The merge table holds: artifact type, then platform, annotations, sort key with desc, and a third annotation added to the first two. |
| `DescriptorSearch.Pool` | types/descriptor/descriptor_test.go:670-706 | The pool holds only matching entries of the list. If an exact-platform match exists, it holds only exact matches. It is empty iff nothing matches. |
| `DescriptorSearch.Best` | types/descriptor/descriptor_test.go:742-792 | Returns a member of the pool that no other member sorts before. |
| `DescriptorSearch.ListSearch` | types/descriptor/descriptor_test.go:565-813 | `NotFound` iff no entry matches. Otherwise the result is a matching list entry, exact-platform whenever one exists, and with a sort key no pool entry sorts before it. |
| `DescriptorSearch.SearchFirstInOrder` | types/descriptor/descriptor_test.go:733-741 | Without a sort key, the result is the first qualifying entry in list order. |
| `DescriptorSearch.SearchPicksFirst` | types/descriptor/descriptor_test.go:674-720 | Without a sort key, the first qualifying entry in list order is the result. |
| `DescriptorSearch.SearchPicksBest` | types/descriptor/descriptor_test.go:742-792 | With a sort key and no platform, an entry that sorts before every other match is the result. |
| `DescriptorSearch.PoolAsFilter` | types/descriptor/descriptor_test.go:674-706 | The pool is the list filtered by "matches, and matches exactly when some entry does". |
| `DescriptorSearch.SearchSortExtremum` | types/descriptor/descriptor_test.go:742-792 | With a sort key, an entry carrying the key beats entries lacking it. Its value is the minimum (ascending) or maximum (descending) among pool entries that carry the key. |
| `DescriptorSearch.SearchNeedsPlatform` | types/descriptor/descriptor_test.go:721-732 | An artifact-type search that also names a platform gives `NotFound` when no artifact entry has a platform. |
| `DescriptorSearch.StrLessTotal` | types/descriptor/descriptor_test.go:742-762 | The annotation order is total, so every pair of distinct values is ordered. |
| `DescriptorSearch.StrLessTransitive` | types/descriptor/descriptor_test.go:742-762 | The annotation order is transitive. |
| `DescriptorSearch.NotBeforeTransitive` | types/descriptor/descriptor_test.go:742-792 | "Does not sort before" is transitive, including for entries lacking the key, so a best entry exists. |
| `DescriptorSearch.SearchEmptyCase` | types/descriptor/descriptor_test.go:670-673 | An empty list gives `NotFound`. |
| `DescriptorSearch.SearchLinuxCase` | types/descriptor/descriptor_test.go:674-684 | linux/amd64 selects the linux/amd64 entry. |
| `DescriptorSearch.SearchDarwinCase` | types/descriptor/descriptor_test.go:685-695 | darwin/amd64 falls back to the linux/amd64 entry. |
| `DescriptorSearch.SearchWindowsCase` | types/descriptor/descriptor_test.go:696-706 | windows/amd64 selects the windows entry, because an exact match outranks a compatible one. |
| `DescriptorSearch.SearchAnnotationCase` | types/descriptor/descriptor_test.go:707-720 | The subset annotation filter selects the first annotated linux/amd64 entry. |
| `DescriptorSearch.SearchArtifactPlatformCase` | types/descriptor/descriptor_test.go:721-732 | An artifact type plus a platform gives `NotFound`. |
| `DescriptorSearch.SearchArtifactCase` | types/descriptor/descriptor_test.go:733-741 | An artifact type without a sort key gives the first artifact. |
| `DescriptorSearch.SearchDateSortCase` | types/descriptor/descriptor_test.go:742-751 | Ascending sort on "date" gives the oldest artifact. |
| `DescriptorSearch.SearchDateSortDescCase` | types/descriptor/descriptor_test.go:752-762 | Descending sort on "date" gives the newest artifact. |
| `DescriptorSearch.SearchUniqueSortCase` | types/descriptor/descriptor_test.go:763-792 | The only entry carrying "unique" wins in both directions, with and without other constraints. |

## Left out

- types/descriptor/descriptor.go is not part of this model. The descriptor operations follow the rows of descriptor_test.go.
- Where the tests leave the behaviour open, the model fixes these choices:
  - `Equal` compares url lists as sets.
  - `Equal` ignores the stored algorithm preference.
  - A sort tie goes to the earliest entry in list order.
  - Exact-platform preference is applied before sorting.
  - `GetData` fails with `ParsingFailed` whenever data is absent, even for a zero-size descriptor. The only no-data row has size 941 (types/descriptor/descriptor_test.go:398-406).
  - `DigestAlgo`: a set preference also decides the algorithm of a malformed non-empty digest. For example, "sha512:1234" with SHA-512 preferred gives SHA-512. The tests fix the preference only for the empty digest.
- Reference parsing (`ref.New`), `TagList`, `GetTags` and `TagDelete` are registry and network calls. They become inputs: a parse error, a listing result, and a reply per deletion.
- `filterTagList` and semver-range evaluation are not modelled. They are a parameter that returns the kept tags or an error.
- Regular-expression compilation and matching are library behaviour, modelled as the parameter `Regexp`.
- Context cancellation is modelled as one input boolean per deletion attempt, not as concurrency.
- Log calls (`slog`) carry no behaviour and are omitted.
- The text built by `errors.Join` and `fmt.Errorf` is not modelled. Errors are an ordered sequence of tagged records.
- SHA-256/SHA-384/SHA-512 hashing is an uninterpreted parameter. Only these three algorithms are registered. go-digest parsing is reduced to the algorithm/hex-length check.
- `ToOCI`: Docker/OCI conversion covers only four pairs (manifest, manifest list, image config, gzip layer). Any other media type has no counterpart, so `Same` needs it to match exactly.
- Platform compatibility is a parameter. `CompatWellFormed` fixes only these facts:
  - exact matches are compatible;
  - darwin accepts linux of the same architecture and variant;
  - darwin and linux never accept windows.
- JSON and base64 decoding of descriptors (TestGetDataJSON) is standard-library decoding and is not modelled.
- cmd/regctl/blob_test.go drives CLI commands against directories on disk. It has no logic of its own.
- `Descriptors.DigestAlgoPreferCases` and `Descriptors.DigestAlgoRefusedCases` run the preference rows of the algorithm table through the mutable descriptor, accepted and refused. They have no `ensures` of their own; their asserts state the expected algorithms.
