# kksyncer, modelled in Dafny

kksyncer mirrors the annotated release tags of an upstream Kubernetes
repository into a downstream repository. For each upstream tag `vX` that the
downstream `origin` remote does not yet carry as `vX-mod`, it does the following:

- checks the tag out;
- rewrites `go.mod`, pinning every required module that a `replace` directive
  named to `v0` + the tag without `v1`, and dropping every `replace` directive;
- commits with the original commit's author time;
- tags the commit `vX-mod` and pushes that tag to `origin`.

This project models the decision logic of `main.go` and proves what it
guarantees:

| module | file | what it models |
|---|---|---|
| `Wrappers` | `wrappers.dfy` | `Option` and `Result` |
| `Strings` | `strings.dfy` | `strings.HasPrefix`, `strings.TrimPrefix` and `strings.Index` for one character |
| `Semver` | `semver.dfy` | `semver.Compare` of golang.org/x/mod (parsing, precedence); `Compare` is proved a total preorder |
| `Refs` | `refs.dfy` | references, the object store, refspecs (the fetch refspec's mapping, the two sides of a push refspec), and `remoteTags` (a loop proved equal to a fold) |
| `TagSet` | `tagset.dfy` | the `-mod` name, the source filter loop (annotated and not below `v1.26.0`), and the missing-set loop |
| `GoMod` | `gomod.dfy` | the rewrite `prepareModFile` applies to a parsed `go.mod`; each of its loops is proved against a function, and the rewrite's promises are lemmas |
| `Remotes` | `remotes.dfy` | the remote set-up loop, as the class `Repository` whose `remotes` field the methods update, proved against the function `Reconcile` |
| `Publish` | `publish.dfy` | `handleTag` (lookups, new tag name, commit message, author, push refspec) and the loop of `main` that stops at the first failure |
| `Pipeline` | `pipeline.dfy` | the tag part of `main` end to end, the rerun properties (the pushed tags come back through the fetch; idempotence; resumption after a partial run), and the worked scenario with tags v1.25.0, v1.26.0 and v1.27.0, run twice |

Some of what `main.go` does is narrower or wider than the summary above
suggests. The model follows `main.go`:

- **Pinning.** Not only one dependency is pinned: `main.go` pins every
  required path that any `replace` directive names. This is stated by
  `GoMod.RewritePinsEveryReplacedPath`.
- **Remote URLs.** Only the first URL of an existing remote is compared. A
  remote whose first URL matches is kept with its other URLs
  (`Remotes.ReconcileReplacesOnlyStale`).
- **A remote with no URLs.** The `URLs[0]` of main.go:91 panics on one; the
  model returns the error `NoUrls`.
- **The mirror tag.** Only annotated upstream tags are mirrored, but
  main.go:250 calls `CreateTag` with nil options, which makes the `-mod` tag
  a lightweight one. The model records only the tag's name and what is pushed.

## Model

| member | source | states |
|---|---|---|
| Strings.HasPrefix | main.go:47 | true iff the prefix is no longer than the string and equals its first characters |
| Strings.TrimPrefix | main.go:159 | with the prefix present, prefix + result is the input; otherwise the input comes back unchanged |
| Semver.ParseInt | main.go:132 | a parsed number is a numeral without leading zeros, and numeral + rest is the input; the rest does not start with a digit; failure exactly on no digit or a leading zero |
| Semver.ParseReleaseOf | main.go:132 | vMAJOR.MINOR.PATCH with three numerals parses to that release without prerelease |
| Semver.Parse | main.go:132 | a string that parses starts with "v", its major number is the numeral read after the "v", and the version has three numerals and well-formed prerelease identifiers |
| Semver.Compare | main.go:132 | the result is -1, 0 or 1; it is 0 exactly when both strings parse to the same version (build metadata ignored) or neither parses, so every string compares equal to itself |
| Semver.CompareAntisymmetric | main.go:132 | swapping the arguments negates the result |
| Semver.CompareTransitive | main.go:132 | the order is transitive, so the floor filter is order-consistent |
| Semver.PrereleaseBelowRelease | main.go:132 | a prerelease (v1.26.0-rc.1) sorts below its release, so the floor excludes it |
| Refs.FetchDestination | main.go:111 | the fetch refspec writes a remote's tag under refs/tags/<remote>/, a tag reference |
| Refs.FetchedName | main.go:111 | the fetch refspec takes exactly the remote's tag references |
| Refs.FetchedNameOfTag | main.go:111 | the remote's tag refs/tags/<t> is fetched to refs/tags/<remote>/<t> |
| Refs.FetchDestinationInjective | main.go:111 | different tags are fetched into different local references |
| Refs.TagKey | main.go:47-48 | the key of a kept reference is the tag whose fetch destination is that reference |
| Refs.RemoteTagsOf | main.go:41-51 | the scan has at most one tag per reference visited |
| Refs.RemoteTags | main.go:35-53 | the ForEach loop yields the fold RemoteTagsOf over the references in iteration order |
| Refs.RemoteTagsKeys | main.go:43-49 | a tag is a key iff some non-skipped reference is named refs/tags/<remote>/<tag> |
| Refs.TagKeyUnique | main.go:47-48 | a kept reference's key is the tag t iff its name is refs/tags/<remote>/t |
| Refs.RemoteTagsValue | main.go:42-49 | a key maps to the hash of the last kept reference carrying that name |
| Refs.RemoteTagsIgnoresOthers | main.go:43-49 | references outside the remote's namespace, and symbolic tag references, do not change the scan |
| Refs.RemoteTagsGrows | main.go:42-51 | adding references never removes a key |
| Refs.FetchedTagFound | main.go:47-48 | a tag fetched into the namespace is found again under its own name with its hash |
| TagSet.ModTagName | main.go:240 | the mirror tag is the name followed by exactly "-mod" |
| TagSet.ModTagNameInjective | main.go:144 | two names have the same "-mod" tag iff they are equal |
| TagSet.SourceFilter | main.go:123-136 | the kept tags are a sub-map of the scan; every kept tag is annotated and not below v1.26.0; every dropped tag is unannotated or below it |
| TagSet.FilterSourceTags | main.go:123-136 | deleting from the map while ranging over it, in any order, gives exactly SourceFilter |
| TagSet.FilteredNeverMissing | main.go:126-135 | an unannotated tag, or one below v1.26.0, is never scheduled, whatever the target holds |
| TagSet.Missing | main.go:142-147 | a tag is scheduled iff it survived the filter and the target lacks its "-mod" tag; it keeps its source hash |
| TagSet.TagsToCopy | main.go:142-147 | the loop over the source map, in any order, yields exactly Missing |
| TagSet.MissingEmptyOnceMirrored | main.go:143-147 | once the target holds the "-mod" tag of every missing tag, nothing is missing |
| TagSet.MissingAfterPartialPublish | main.go:143-147 | publishing the "-mod" tags of a subset of the missing tags removes exactly that subset from the next missing set |
| GoMod.PinVersion | main.go:159 | the pin starts with "v0"; it is "v0" + the tag after "v1" when the tag starts with "v1", and "v0" + the whole tag otherwise |
| GoMod.PinExamples | main.go:159 | v1.29.0 is pinned at v0.29.0 and v1.26.3 at v0.26.3 |
| GoMod.PinOfV1Release | main.go:159 | for a valid v1 tag the pin is a valid version equal to the tag's version with major 0 |
| GoMod.PinKeepsOrder | main.go:159 | on v1 tags the pin preserves semver order |
| GoMod.PinOfV10 | main.go:159 | v10.0.0 is pinned at v00.0.0, which is not a valid version |
| GoMod.PinOfV2 | main.go:159 | v2.0.0 is pinned at v0v2.0.0, which is not a valid version |
| GoMod.RequireMap | main.go:169-172 | the map's keys are the required paths; each entry is a require line of the file for its own path |
| GoMod.CollectRequires | main.go:169-172 | the first loop yields RequireMap of the require list |
| GoMod.RequireMapLastWins | main.go:170-172 | a path's entry is the last require line for that path |
| GoMod.Pinned | main.go:173-176 | pinning entries keeps the map's key set |
| GoMod.PinnedStep | main.go:175 | pinning one more required path updates that entry's version and leaves the others alone |
| GoMod.SetRequireFrom | main.go:176 | every line left is a required path from the map, with the map's version and indirect marking; every such path stays; no path appears twice |
| GoMod.SetRequireFromTwice | main.go:176 | a second SetRequire with a map over the same paths equals one call with the second map |
| GoMod.DropReplace | main.go:178 | exactly the directives with that old path and old version are removed |
| GoMod.Unmatched | main.go:173-179 | the directives left are exactly those whose old path and version were not yet dropped |
| GoMod.DropUnmatched | main.go:178 | dropping one more key from the remaining directives is DropReplace |
| GoMod.UnmatchedAll | main.go:173-179 | once every directive's key is dropped, none remain |
| GoMod.RequiresAfterStep | main.go:173-177 | a directive naming a required path causes SetRequire with the updated map; one naming no required path changes nothing |
| GoMod.ApplyReplaces | main.go:173-179 | the second loop leaves the requires RequiresAfter the directives' old paths and leaves no directive |
| GoMod.PrepareModFile | main.go:158-181 | the whole rewrite yields Rewrite(modFile, tag) with no replace directive |
| GoMod.Rewrite | main.go:169-181 | the rewritten file has no replace directive and no more require lines than the original |
| GoMod.RewriteKeepsPaths | main.go:169-181 | the rewrite keeps the set of required paths |
| GoMod.RewritePinsReplaced | main.go:173-177 | every require whose path a replace directive named carries the pin derived from the tag |
| GoMod.RewriteKeepsOthers | main.go:169-177 | every other require is an original line, unchanged (after a pin, the last line for its path) |
| GoMod.RewriteUntouched | main.go:173-177 | when no directive names a required path, the require list is untouched |
| GoMod.RewriteKeyedByPath | main.go:169-176 | after a pin, each path is required once |
| GoMod.RewritePinsEveryReplacedPath | main.go:173-177 | every required path named by a directive is required at the pin afterwards |
| GoMod.RewriteSingle | main.go:169-181 | one require plus one directive naming it gives that require at the pin and no directive |
| Remotes.Reconcile | main.go:87-107 | success iff the URL is non-empty and an existing remote has a URL; empty URL is EmptyUrl; on success the remote's first URL is the wanted one, other remotes are unchanged, a remote that is not stale stays as it was, and a missing or stale remote ends up with exactly the wanted URL |
| Remotes.ReconcileIdempotent | main.go:87-107 | configuring a remote a second time changes nothing |
| Remotes.ReconcileReplacesOnlyStale | main.go:90-98 | an existing remote changes iff its first URL differs, and then it becomes exactly the wanted URL |
| Remotes.ReconcileAll | main.go:83-107 | the loop succeeds only if every URL is non-empty; then the last remote's first URL is its wanted URL; remotes the loop does not name are never changed |
| Remotes.ReconcileAllTwo | main.go:83-107 | the loop over two remotes stops at the first error and keeps the state reached |
| Remotes.ReconcileBoth | main.go:83-107 | the set-up succeeds iff both URLs are non-empty and neither existing remote lacks URLs; then both first URLs are set and every other remote is unchanged; an empty source URL fails first with nothing changed |
| Remotes.Repository.DeleteRemote | main.go:93 | succeeds iff the remote exists, and removes it |
| Remotes.Repository.CreateRemote | main.go:100-103 | succeeds iff the remote is absent and a URL is given, and adds it |
| Remotes.Repository.SetRemote | main.go:87-107 | the new remotes and the result are those of Reconcile; the remote is deleted iff it is stale and the URL is non-empty |
| Remotes.Repository.ConfigureRemotes | main.go:83-107 | the remotes and the error after the loop are those of ReconcileAll over upstream and then origin |
| Publish.PushSpecSides | main.go:254-259 | read as a refspec, the push spec has refs/tags/<tag> on both sides: the local tag goes to the same name on origin |
| Publish.PushedTagFetchedBack | main.go:254-259 | the destination of the push, mapped through origin's fetch refspec (main.go:111), is refs/tags/origin/<tag> |
| Publish.PlanFor | main.go:204-259 | success iff the tag object and its commit exist, with the matching error otherwise; on success the plan checks out the tag object, writes the rewritten go.mod, names the tag "-mod", uses the message "Prepare <tag>-mod", author kksyncer with the source commit's time, and pushes to origin under the same name |
| Publish.HandleTag | main.go:204-263 | succeeds iff the plan does and no I/O step fails; a lookup error is passed through unchanged |
| Publish.ScheduledTagResolves | main.go:207-210 | a scheduled tag never fails the tag-object lookup |
| Publish.HandleTags | main.go:150-155 | the tags handled are scheduled ones, each with its successful handleTag; no error iff every scheduled tag succeeds, and then all were handled; an error belongs to a scheduled tag that was not handled |
| Pipeline.ToCopyOf | main.go:119-147 | a tag is scheduled iff the upstream scan has it, its tag object exists, it is not below v1.26.0 and the origin scan lacks its "-mod" tag; it keeps its upstream hash |
| Pipeline.SyncTags | main.go:119-147 | the scans, the filter and the missing-set loop yield tagsToCopy; every scheduled tag is annotated and not below v1.26.0 |
| Pipeline.NamespacesDisjoint | main.go:111 | no reference lies in both upstream's and origin's namespaces |
| Pipeline.TargetRefNotSource | main.go:47 | a reference the origin scan keeps is ignored by the upstream scan |
| Pipeline.SourceScanUnchanged | main.go:119 | fetching origin's "-mod" tags leaves the upstream scan unchanged |
| Pipeline.PushedTagScanned | main.go:138 | a pushed and fetched "-mod" tag is found by the next origin scan |
| Pipeline.ScannedTagPushed | main.go:144 | a "-mod" tag found after the fetch was there before or was pushed |
| Pipeline.ScanAfterFetch | main.go:144 | after the fetch, the scan holds a tag's "-mod" tag iff it held it before or the tag was pushed |
| Pipeline.RerunAfterPublish | main.go:138-147 | a rerun after some tags were pushed and fetched back schedules the earlier missing set less those tags |
| Pipeline.PushesFetchedBack | main.go:108-113 | the references the next fetch of origin creates for the pushed plans are the "-mod" references the rerun lemmas take |
| Pipeline.RerunAfterPushes | main.go:138-147 | a rerun after the plans of some tags were pushed and fetched back schedules the earlier missing set less those tags |
| Pipeline.OnePushFetched | main.go:254-259 | the plan of one tag, pushed and then fetched back through origin's refspec (main.go:111), gives refs/tags/origin/<tag>-mod |
| Pipeline.RerunAfterOnePush | main.go:142-147 | when one tag was missing and its plan was pushed and fetched back, the next run schedules nothing |
| Pipeline.RerunHasNothingToDo | main.go:142-147 | once every missing tag was pushed and fetched back, the next run schedules nothing |
| Pipeline.ParseMinorRelease | main.go:132 | v1.MINOR.0 parses to release 1.MINOR.0 |
| Pipeline.MinorOrderExamples | main.go:132 | 1.25.0 sorts below 1.26.0, and 1.27.0 above it |
| Pipeline.CompareMinorReleases | main.go:132 | two tags v1.A.0 and v1.B.0 compare as the numerals A and B do |
| Pipeline.FloorOrder | main.go:132 | v1.25.0 sorts below the floor v1.26.0 and v1.27.0 above it |
| Pipeline.FloorExamples | main.go:132 | v1.25.0 is below the floor, v1.26.0 equals it, v1.27.0 is above it |
| Pipeline.InvalidNameBelowFloor | main.go:132 | a tag name that is not a valid version sorts below the floor and is dropped |
| Pipeline.ScenarioSourceScan | main.go:119 | the upstream scan of the scenario sees the three upstream tags only |
| Pipeline.ScenarioTargetScan | main.go:138 | the origin scan of the scenario sees only v1.26.0-mod |
| Pipeline.ScenarioQualifies | main.go:126-135 | v1.25.0 does not qualify; v1.26.0 and v1.27.0 do |
| Pipeline.FilterDropsFirst | main.go:123-136 | the filter of three tags whose first does not qualify keeps exactly the other two |
| Pipeline.ScenarioFilter | main.go:123-136 | the scenario's filter keeps v1.26.0 and v1.27.0 |
| Pipeline.ScenarioMissing | main.go:142-147 | v1.26.0 is mirrored already; only v1.27.0 is missing |
| Pipeline.ScenarioToCopy | main.go:119-147 | the scenario schedules exactly v1.27.0 |
| Pipeline.ScenarioPublish | main.go:204-259 | publishing v1.27.0 succeeds: tag v1.27.0-mod, a go.mod (before `go mod tidy`) with no replace directive and the module required at v0.27.0, and the source commit's author time |
| Pipeline.ScenarioRerun | main.go:142-147 | after v1.27.0-mod is pushed by v1.27.0's plan and fetched back, the second run schedules nothing |

## Left out

- ensureRepo (main.go:55-69): directory creation and `git clone` are file-system and process I/O.
- Opening the repository (main.go:77-80) is I/O. Its failure ends the run before the remote loop; the model starts from an open repository.
- The Worktree call (main.go:216-219) is I/O. Its failure is one of the steps covered by the `failing` set of `Publish.HandleTags`.
- Fetch (main.go:108-116) is network I/O, as is treating `NoErrAlreadyUpToDate` as success. Its effect on the references is given as appended references (`Pipeline.FetchedModTags`).
- Checkout, reading and writing go.mod, `go mod tidy`, Add, Commit, CreateTag and Push (main.go:160-163, 187-200, 220-262) are I/O. Whether any of them fails is the `ioFails` parameter of `Publish.HandleTag`. The plan names the new tag, the commit message, the author and the push. Its manifest is the go.mod as prepareModFile writes it, before `go mod tidy`. Tidy can add, drop or re-mark require lines and rewrites go.sum; its effect is not modelled, so the committed go.mod is known only up to tidy.
- `modfile.Parse` and `Format` are left out: the model works on the parsed require and replace records only. The model does not give the order of require lines after modfile's SortBlocks, or the formatted text.
- GoMod.SetRequireFrom: models modfile's SetRequire for require lists with at most one line per path, which is what a go.mod normally has. For duplicate require lines, modfile zeroes the removed lines while the requires map still points at one of them, and a second SetRequire call then works on those zeroed entries. That behaviour is not modelled. SetRequire's appending of paths that are not yet required is also left out, because the map given to it here only ever holds required paths.
- GoMod.DropReplace: modelled as removal from the list. modfile zeroes the matching directives and Cleanup compacts the list later. With two directives of the same old path and old version, the loop of main.go:173-179 later visits the second one after it was zeroed and calls DropReplace with an empty path and version. In modfile (its code is not part of this model) that call reaches the zeroed entry's missing syntax line and would panic, so such a go.mod crashes the source rather than being a no-op. The model does not capture that crash: it visits the directive with its original old path, which pins an already pinned path again and leaves the result unchanged (`GoMod.SetRequireFromTwice`).
- The pointer aliasing of main.go:175 is not modelled. Setting the version through the map writes into the require line itself, and SetRequire then copies version and indirect from the map, so the model expresses the outcome on values.
- The order of Go map iteration (main.go:123, 143, 150, 176) is left unspecified: the loops pick an arbitrary remaining key. `Publish.HandleTags` therefore states which tags were handled, not their order.
- Failures of IterReferences or of the ForEach callback (main.go:36-39, 52, 120-121, 139-141) are left out: the scan is modelled over the list of references it visits.
- `Remotes.Repository.CreateRemote` checks only the failures the remote loop can cause (remote exists, no URL). Other validation done by go-git's CreateRemote is not modelled.
- Logging (logrus) and the `Fatalf` exits: a fatal exit is modelled as the error a method or function returns, and the run stops there.
- Flag parsing (main.go:29-33, 72): the flag values, including the default source URL, are parameters.
- `tag.Commit()` of main.go:211 is modelled as a lookup of the tag object's target among the commits. When the target is not a commit (another tag object, say), the lookup fails and the model returns `CommitNotFound`.
- Semver: the model follows golang.org/x/mod/semver's Compare. That includes the vMAJOR and vMAJOR.MINOR shorthands, prerelease precedence, and ignoring build metadata. x/mod's canonicalisation and its other functions are not part of this model.
- Refspecs: `Refs.RefSpecSrc` and `Refs.RefSpecDst` read a refspec string as go-git does (split at the first ':', a leading '+' marks a forced update); go-git's refspec code is not part of this model. The wildcard fetch refspec of main.go:111 is modelled directly by `Refs.FetchedName`.
- Publish.PushSpecSides and Publish.PushedTagFetchedBack require a tag name without ':'. Git reference names cannot contain ':', so every tag the scan can find satisfies this; the model does not derive it from the references.
