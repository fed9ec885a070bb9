/**
 * The tag-set resolution of main: which source tags qualify, and which of them
 * are still missing from the target under their "-mod" name.
 */
module TagSet {
  import opened Strings
  import opened Semver
  import opened Refs

  /** Source tags below this version are ignored. */
  const Floor := "v1.26.0"

  const ModSuffix := "-mod"

  /** The name a mirrored tag is published under. */
  function ModTagName(name: string): (r: string)
    ensures |r| == |name| + |ModSuffix| && r[..|name|] == name && r[|name|..] == ModSuffix
  {
    name + ModSuffix
  }

  lemma ModTagNameInjective(a: string, b: string)
    ensures ModTagName(a) == ModTagName(b) <==> a == b
  {
    if ModTagName(a) == ModTagName(b) { SuffixCancel(a, b, ModSuffix); }
  }

  /** A source tag survives the filter: it is annotated and not below the floor. */
  predicate Qualifies(store: ObjectStore, name: string, h: Hash)
  {
    Annotated(store, h) && Compare(name, Floor) >= 0
  }

  /** The source map after the filter loop. */
  function SourceFilter(tags: map<string, Hash>, store: ObjectStore): (kept: map<string, Hash>)
    ensures kept.Keys <= tags.Keys
    ensures forall n :: n in kept ==> kept[n] == tags[n] && Annotated(store, kept[n]) && Compare(n, Floor) >= 0
    ensures forall n :: n in tags && n !in kept ==> !Annotated(store, tags[n]) || Compare(n, Floor) < 0
  {
    map n | n in tags && Qualifies(store, n, tags[n]) :: tags[n]
  }

  /**
   * The loop over sourceTagCommits that deletes, in place and in the map's own
   * unspecified order, every tag that is not annotated or sorts below the floor.
   */
  method FilterSourceTags(tags: map<string, Hash>, store: ObjectStore) returns (sourceTagCommits: map<string, Hash>)
    ensures sourceTagCommits == SourceFilter(tags, store)
  {
    sourceTagCommits := tags;
    var pending := tags.Keys;
    while pending != {}
      invariant pending <= tags.Keys
      invariant sourceTagCommits.Keys <= tags.Keys
      invariant forall n :: n in sourceTagCommits ==> sourceTagCommits[n] == tags[n]
      invariant forall n :: n in tags ==> (n in sourceTagCommits <==> n in pending || Qualifies(store, n, tags[n]))
      decreases pending
    {
      var name :| name in pending;
      var kh := sourceTagCommits[name];
      if !Annotated(store, kh) {
        sourceTagCommits := sourceTagCommits - {name};
      } else if Compare(name, Floor) < 0 {
        sourceTagCommits := sourceTagCommits - {name};
      }
      pending := pending - {name};
    }
  }

  /** tagsToCopy: the source tags whose "-mod" name the target does not have, with their source hashes. */
  function Missing(source: map<string, Hash>, target: map<string, Hash>): (toCopy: map<string, Hash>)
    ensures forall n :: n in toCopy <==> n in source && ModTagName(n) !in target
    ensures forall n :: n in toCopy ==> toCopy[n] == source[n]
  {
    map n | n in source && ModTagName(n) !in target :: source[n]
  }

  /** The loop that fills tagsToCopy, visiting the source map in unspecified order. */
  method TagsToCopy(source: map<string, Hash>, target: map<string, Hash>) returns (tagsToCopy: map<string, Hash>)
    ensures tagsToCopy == Missing(source, target)
  {
    tagsToCopy := map[];
    var pending := source.Keys;
    while pending != {}
      invariant pending <= source.Keys
      invariant tagsToCopy.Keys <= source.Keys
      invariant forall n :: n in tagsToCopy ==> tagsToCopy[n] == source[n]
      invariant forall n :: n in source ==> (n in tagsToCopy <==> n !in pending && ModTagName(n) !in target)
      decreases pending
    {
      var name :| name in pending;
      if ModTagName(name) !in target {
        tagsToCopy := tagsToCopy[name := source[name]];
      }
      pending := pending - {name};
    }
  }

  /** A tag that is not annotated or sorts below the floor is never copied, whatever the target holds. */
  lemma FilteredNeverMissing(tags: map<string, Hash>, store: ObjectStore, target: map<string, Hash>, name: string)
    requires name in tags
    requires !Annotated(store, tags[name]) || Compare(name, Floor) < 0
    ensures name !in Missing(SourceFilter(tags, store), target)
  {
  }

  /** Once the target holds the "-mod" tag of everything that was missing, nothing is missing. */
  lemma MissingEmptyOnceMirrored(source: map<string, Hash>, target: map<string, Hash>, published: map<string, Hash>)
    requires forall n :: n in Missing(source, target) ==> ModTagName(n) in published
    ensures Missing(source, target + published) == map[]
  {
  }

  /**
   * Publishing the "-mod" tags of some of the missing tags removes exactly those
   * from the next computation: what a rerun after a failure midway sees.
   */
  lemma MissingAfterPartialPublish(source: map<string, Hash>, target: map<string, Hash>,
                                   done: set<string>, published: map<string, Hash>)
    requires done <= Missing(source, target).Keys
    requires published.Keys == set n | n in done :: ModTagName(n)
    ensures Missing(source, target + published) == Missing(source, target) - done
  {
    forall n | n in source
      ensures ModTagName(n) in published <==> n in done
    {
      if ModTagName(n) in published {
        var d :| d in done && ModTagName(d) == ModTagName(n);
        ModTagNameInjective(d, n);
      }
    }
  }
}
