/**
 * handleTag and the loop of main that calls it: for each missing tag, what is
 * looked up, what is committed and tagged, and what is pushed. Checkout, the
 * go.mod read and write, `go mod tidy`, Add, Commit, CreateTag and Push are
 * repository and network I/O; whether they fail is a parameter.
 */
module Publish {
  import opened Wrappers
  import opened Strings
  import opened Refs
  import opened TagSet
  import opened GoMod
  import opened Remotes

  /** The author name of the mirror commit. */
  const AuthorName := "kksyncer"

  datatype PublishError =
    | TagNotFound(name: string)       // "failed to get tag"
    | CommitNotFound(target: Hash)    // "failed to get commit"
    | StepFailed(name: string)        // checkout, go.mod, add, commit, tag or push failed

  /** Everything handleTag does once both lookups succeed. */
  datatype Plan = Plan(
    checkout: Hash,        // the tag object checked out
    manifest: ModFile,     // the go.mod written back, before `go mod tidy`
    tagName: string,       // the new tag
    message: string,       // the commit message
    authorName: string,
    authorWhen: int,       // copied from the source commit
    remote: string,        // where the new tag is pushed
    pushSpec: string)

  /** The refspec of the push: the local tag to the same name on the remote. */
  function PushSpec(tagName: string): string
  {
    TagRefPrefix + tagName + ":" + TagRefPrefix + tagName
  }

  /**
   * Read back as a refspec, the push spec has refs/tags/<tagName> on both
   * sides. Git reference names cannot contain ':', so tag names never do.
   */
  lemma PushSpecSides(tagName: string)
    requires ':' !in tagName
    ensures RefSpecSrc(PushSpec(tagName)) == TagRefPrefix + tagName
    ensures RefSpecDst(PushSpec(tagName)) == TagRefPrefix + tagName
  {
    var side := TagRefPrefix + tagName;
    assert ':' !in TagRefPrefix;
    assert forall k :: 0 <= k < |side| ==> side[k] != ':' by {
      forall k | 0 <= k < |side| ensures side[k] != ':' {
        if k >= |TagRefPrefix| { assert side[k] == tagName[k - |TagRefPrefix|]; }
      }
    }
    assert PushSpec(tagName) == side + [':'] + side;
    IndexOfAfter(side, ':', side);
    assert (side + [':'] + side)[|side| + 1..] == side;
    assert (side + [':'] + side)[..|side|] == side;
  }

  /**
   * The tag a plan pushes to origin comes back, through origin's fetch refspec,
   * as refs/tags/origin/<tagName>: what the next run's scan of origin sees.
   */
  lemma PushedTagFetchedBack(tagName: string)
    requires ':' !in tagName
    ensures FetchedName(TargetRemote, RefSpecDst(PushSpec(tagName))) == Some(FetchDestination(TargetRemote, tagName))
  {
    PushSpecSides(tagName);
    FetchedNameOfTag(TargetRemote, tagName);
  }

  /**
   * handleTag for tag `name` at tag object `kh`, whose checked-out go.mod is
   * `checkedOut`: the two lookups, then the plan.
   */
  function PlanFor(store: ObjectStore, name: string, kh: Hash, checkedOut: ModFile): (r: Result<Plan, PublishError>)
    ensures r.Success? <==> Annotated(store, kh) && store.tags[kh].target in store.commits
    ensures !Annotated(store, kh) ==> r == Failure(TagNotFound(name))
    ensures Annotated(store, kh) && store.tags[kh].target !in store.commits ==> r == Failure(CommitNotFound(store.tags[kh].target))
    ensures r.Success? ==>
      var p := r.value;
      p.checkout == kh && p.manifest == Rewrite(checkedOut, name) && p.manifest.replace == []
      && p.tagName == ModTagName(name) && p.message == "Prepare " + ModTagName(name)
      && p.authorName == AuthorName && p.authorWhen == store.commits[store.tags[kh].target].authorWhen
      && p.remote == TargetRemote && p.pushSpec == PushSpec(ModTagName(name))
  {
    if kh !in store.tags then Failure(TagNotFound(name))
    else
      var target := store.tags[kh].target;
      if target !in store.commits then Failure(CommitNotFound(target))
      else
        var tagName := ModTagName(name);
        Success(Plan(kh, Rewrite(checkedOut, name), tagName, "Prepare " + tagName,
                     AuthorName, store.commits[target].authorWhen, TargetRemote, PushSpec(tagName)))
  }

  /** handleTag: the plan, unless a lookup fails or one of the I/O steps does (`ioFails`). */
  function HandleTag(store: ObjectStore, name: string, kh: Hash, checkedOut: ModFile, ioFails: bool): (r: Result<Plan, PublishError>)
    ensures r.Success? <==> PlanFor(store, name, kh, checkedOut).Success? && !ioFails
    ensures PlanFor(store, name, kh, checkedOut).Failure? ==> r == PlanFor(store, name, kh, checkedOut)
    ensures r.Success? ==> r == PlanFor(store, name, kh, checkedOut)
  {
    var plan := PlanFor(store, name, kh, checkedOut);
    if plan.Failure? then plan
    else if ioFails then Failure(StepFailed(name))
    else plan
  }

  /** A tag that passed the source filter always resolves to its tag object, so handleTag never fails on the first lookup. */
  lemma ScheduledTagResolves(tags: map<string, Hash>, store: ObjectStore, target: map<string, Hash>,
                             name: string, checkedOut: ModFile, ioFails: bool)
    requires name in Missing(SourceFilter(tags, store), target)
    ensures HandleTag(store, name, Missing(SourceFilter(tags, store), target)[name], checkedOut, ioFails)
            != Failure(TagNotFound(name))
  {
  }

  /**
   * The loop of main over tagsToCopy, in the map's unspecified order; the first
   * failure stops the run. `manifests` gives each tag's checked-out go.mod and
   * `failing` the tags whose I/O fails. `done` is what was pushed before the stop.
   */
  method HandleTags(store: ObjectStore, toCopy: map<string, Hash>, manifests: map<string, ModFile>, failing: set<string>)
      returns (done: set<string>, pushed: map<string, Plan>, err: Option<PublishError>)
    requires toCopy.Keys <= manifests.Keys
    ensures done <= toCopy.Keys && pushed.Keys == done
    ensures forall n :: n in done ==> HandleTag(store, n, toCopy[n], manifests[n], n in failing) == Success(pushed[n])
    ensures err.None? <==> done == toCopy.Keys
    ensures err.None? <==> forall n :: n in toCopy ==> HandleTag(store, n, toCopy[n], manifests[n], n in failing).Success?
    ensures err.Some? ==> exists n :: n in toCopy && n !in done && HandleTag(store, n, toCopy[n], manifests[n], n in failing) == Failure(err.value)
  {
    done := {};
    pushed := map[];
    var pending := toCopy.Keys;
    while pending != {}
      invariant pending <= toCopy.Keys && done == toCopy.Keys - pending && pushed.Keys == done
      invariant forall n :: n in done ==> HandleTag(store, n, toCopy[n], manifests[n], n in failing) == Success(pushed[n])
      decreases pending
    {
      var name :| name in pending;
      var r := HandleTag(store, name, toCopy[name], manifests[name], name in failing);
      if r.Failure? {
        err := Some(r.error);
        return;
      }
      done := done + {name};
      pushed := pushed[name := r.value];
      pending := pending - {name};
    }
    err := None;
  }
}
