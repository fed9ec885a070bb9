/**
 * Local references and the scan that turns one remote's tag namespace into a
 * map from tag name to hash (remoteTags, main.go).
 */
module Refs {
  import opened Wrappers
  import opened Strings

  /** An object name; hashes are only compared and copied. */
  type Hash = string

  /** go-git's plumbing.ReferenceType. */
  datatype RefKind = InvalidReference | HashReference | SymbolicReference

  datatype Reference = Reference(name: string, kind: RefKind, hash: Hash)

  /** An annotated tag object and the object it points at. */
  datatype TagObject = TagObject(target: Hash)

  /** A commit; its author time is only ever copied. */
  datatype Commit = Commit(authorWhen: int)

  /** The repository's object database, as far as TagObject and Commit lookups see it. */
  datatype ObjectStore = ObjectStore(tags: map<Hash, TagObject>, commits: map<Hash, Commit>)

  /** Repository.TagObject(h) succeeds: h names a tag object, so the tag is annotated. */
  predicate Annotated(store: ObjectStore, h: Hash)
  {
    h in store.tags
  }

  const TagRefPrefix := "refs/tags/"

  /** ReferenceName.IsTag. */
  predicate IsTag(name: string)
  {
    HasPrefix(name, TagRefPrefix)
  }

  /** Where a remote's tags are kept locally: refs/tags/<remote>/. */
  function Namespace(remote: string): string
  {
    TagRefPrefix + remote + "/"
  }

  /** Where the fetch refspec of a remote puts its tag `tag`: refs/tags/<remote>/<tag>. */
  function FetchDestination(remote: string, tag: string): (name: string)
    ensures IsTag(name) && HasPrefix(name, Namespace(remote))
  {
    Namespace(remote) + tag
  }

  // How the fetch refspec "refs/tags/*:refs/tags/<remote>/*" maps a reference
  // `name` of the remote: a tag reference refs/tags/<t> lands at
  // refs/tags/<remote>/<t>; other references are not fetched.
  function FetchedName(remote: string, name: string): (local: Option<string>)
    ensures local.Some? <==> IsTag(name)
  {
    if IsTag(name) then Some(Namespace(remote) + name[|TagRefPrefix|..]) else None
  }

  /** The remote's tag refs/tags/<t> is fetched to the tag's destination in the namespace. */
  lemma FetchedNameOfTag(remote: string, t: string)
    ensures FetchedName(remote, TagRefPrefix + t) == Some(FetchDestination(remote, t))
  {
    assert (TagRefPrefix + t)[|TagRefPrefix|..] == t;
  }

  /** The source side of a refspec string: up to its first ':', after a leading '+' (the force marker). */
  function RefSpecSrc(spec: string): string
  {
    var start := if spec != [] && spec[0] == '+' then 1 else 0;
    var end := IndexOf(spec, ':');
    if end == -1 then spec[start..]
    else if end < start then []
    else spec[start..end]
  }

  /** The destination side of a refspec string without wildcard: everything after its first ':'. */
  function RefSpecDst(spec: string): string
  {
    spec[IndexOf(spec, ':') + 1..]
  }

  /** Different tags are fetched to different references. */
  lemma FetchDestinationInjective(remote: string, a: string, b: string)
    ensures FetchDestination(remote, a) == FetchDestination(remote, b) <==> a == b
  {
    var n := |Namespace(remote)|;
    assert FetchDestination(remote, a)[n..] == a && FetchDestination(remote, b)[n..] == b;
  }

  /** The scan skips symbolic references whose name is a tag. */
  predicate SkippedRef(ref: Reference)
  {
    ref.kind == SymbolicReference && IsTag(ref.name)
  }

  /** The scan keeps a reference exactly when it is not skipped and lies in the remote's namespace. */
  predicate InNamespace(ref: Reference, remote: string)
  {
    !SkippedRef(ref) && HasPrefix(ref.name, Namespace(remote))
  }

  /** The key a kept reference is stored under: its name without the namespace. */
  function TagKey(ref: Reference, remote: string): (key: string)
    requires InNamespace(ref, remote)
    ensures ref.name == FetchDestination(remote, key)
  {
    ref.name[|Namespace(remote)|..]
  }

  /** The map the ForEach callback builds, reference by reference, a later reference overwriting an earlier one. */
  function RemoteTagsOf(refs: seq<Reference>, remote: string): (tagCommits: map<string, Hash>)
    ensures |tagCommits| <= |refs|
  {
    if refs == [] then map[]
    else
      var last := refs[|refs| - 1];
      var m := RemoteTagsOf(refs[..|refs| - 1], remote);
      if InNamespace(last, remote) then m[TagKey(last, remote) := last.hash] else m
  }

  /** remoteTags: the ForEach loop over the references in iteration order. */
  method RemoteTags(refs: seq<Reference>, remote: string) returns (tagCommits: map<string, Hash>)
    ensures tagCommits == RemoteTagsOf(refs, remote)
  {
    tagCommits := map[];
    var i := 0;
    while i < |refs|
      invariant 0 <= i <= |refs|
      invariant tagCommits == RemoteTagsOf(refs[..i], remote)
    {
      var ref := refs[i];
      assert refs[..i + 1][..i] == refs[..i];
      if ref.kind == SymbolicReference && IsTag(ref.name) {
        // symbolic tag references are ignored
      } else {
        var prefix := Namespace(remote);
        if HasPrefix(ref.name, prefix) {
          tagCommits := tagCommits[ref.name[|prefix|..] := ref.hash];
        }
      }
      i := i + 1;
    }
    assert refs[..|refs|] == refs;
  }

  /** A tag is a key exactly when some kept reference is named refs/tags/<remote>/<tag>. */
  lemma {:induction false} RemoteTagsKeys(refs: seq<Reference>, remote: string, tag: string)
    ensures tag in RemoteTagsOf(refs, remote) <==>
      exists i :: 0 <= i < |refs| && InNamespace(refs[i], remote) && refs[i].name == FetchDestination(remote, tag)
  {
    if refs != [] {
      var init := refs[..|refs| - 1];
      RemoteTagsKeys(init, remote, tag);
      var last := refs[|refs| - 1];
      if InNamespace(last, remote) {
        TagKeyUnique(last, remote, tag);
      }
      if tag in RemoteTagsOf(refs, remote) {
        if tag in RemoteTagsOf(init, remote) {
          var i :| 0 <= i < |init| && InNamespace(init[i], remote) && init[i].name == FetchDestination(remote, tag);
          assert refs[i] == init[i];
        }
      } else {
        forall i | 0 <= i < |refs|
          ensures !(InNamespace(refs[i], remote) && refs[i].name == FetchDestination(remote, tag))
        {
          if i < |init| { assert refs[i] == init[i]; }
        }
      }
    }
  }

  /** A kept reference's key is determined by its name. */
  lemma TagKeyUnique(ref: Reference, remote: string, tag: string)
    requires InNamespace(ref, remote)
    ensures TagKey(ref, remote) == tag <==> ref.name == FetchDestination(remote, tag)
  {
    if ref.name == FetchDestination(remote, tag) {
      assert ref.name[|Namespace(remote)|..] == tag;
    }
  }

  /** The value for a tag is the hash of the last kept reference carrying that name. */
  lemma {:induction false} RemoteTagsValue(refs: seq<Reference>, remote: string, tag: string, i: nat)
    requires i < |refs| && InNamespace(refs[i], remote) && refs[i].name == FetchDestination(remote, tag)
    requires forall j :: i < j < |refs| ==> !(InNamespace(refs[j], remote) && refs[j].name == refs[i].name)
    ensures tag in RemoteTagsOf(refs, remote) && RemoteTagsOf(refs, remote)[tag] == refs[i].hash
  {
    var init := refs[..|refs| - 1];
    var last := refs[|refs| - 1];
    if InNamespace(last, remote) { TagKeyUnique(last, remote, tag); }
    if i < |refs| - 1 {
      forall j | i < j < |init| ensures !(InNamespace(init[j], remote) && init[j].name == init[i].name) {
        assert init[j] == refs[j];
      }
      RemoteTagsValue(init, remote, tag, i);
    }
  }

  /** References outside the namespace do not change the scan. */
  lemma {:induction false} RemoteTagsIgnoresOthers(refs: seq<Reference>, others: seq<Reference>, remote: string)
    requires forall k :: 0 <= k < |others| ==> !InNamespace(others[k], remote)
    ensures RemoteTagsOf(refs + others, remote) == RemoteTagsOf(refs, remote)
  {
    if others != [] {
      var init := others[..|others| - 1];
      assert (refs + others)[..|refs + others| - 1] == refs + init;
      assert (refs + others)[|refs + others| - 1] == others[|others| - 1];
      RemoteTagsIgnoresOthers(refs, init, remote);
    } else {
      assert refs + others == refs;
    }
  }

  /** More references never remove a key from the scan. */
  lemma RemoteTagsGrows(refs: seq<Reference>, more: seq<Reference>, remote: string)
    ensures RemoteTagsOf(refs, remote).Keys <= RemoteTagsOf(refs + more, remote).Keys
  {
    forall tag | tag in RemoteTagsOf(refs, remote)
      ensures tag in RemoteTagsOf(refs + more, remote)
    {
      RemoteTagsKeys(refs, remote, tag);
      RemoteTagsKeys(refs + more, remote, tag);
      var i :| 0 <= i < |refs| && InNamespace(refs[i], remote) && refs[i].name == FetchDestination(remote, tag);
      assert (refs + more)[i] == refs[i];
    }
  }

  /** A tag fetched into the namespace is found again by the scan under its own name. */
  lemma FetchedTagFound(refs: seq<Reference>, remote: string, tag: string, h: Hash)
    ensures RemoteTagsOf(refs + [Reference(FetchDestination(remote, tag), HashReference, h)], remote)
      == RemoteTagsOf(refs, remote)[tag := h]
  {
    var ref := Reference(FetchDestination(remote, tag), HashReference, h);
    assert (refs + [ref])[..|refs|] == refs;
    TagKeyUnique(ref, remote, tag);
  }
}
