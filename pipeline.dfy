/**
 * The tag part of main put together: both scans, the source filter and the
 * missing set; and what a second run computes after the first one pushed its
 * "-mod" tags and fetched them back.
 */
module Pipeline {
  import opened Wrappers
  import opened Strings
  import opened Semver
  import opened Refs
  import opened TagSet
  import opened GoMod
  import opened Remotes
  import opened Publish

  /** tagsToCopy for the local references `refs` (lines 119 to 147). */
  function ToCopyOf(refs: seq<Reference>, store: ObjectStore): (toCopy: map<string, Hash>)
    ensures forall n :: n in toCopy <==>
      n in RemoteTagsOf(refs, SourceRemote) && Qualifies(store, n, RemoteTagsOf(refs, SourceRemote)[n])
      && ModTagName(n) !in RemoteTagsOf(refs, TargetRemote)
    ensures forall n :: n in toCopy ==> toCopy[n] == RemoteTagsOf(refs, SourceRemote)[n]
  {
    Missing(SourceFilter(RemoteTagsOf(refs, SourceRemote), store), RemoteTagsOf(refs, TargetRemote))
  }

  /** Lines 119 to 147 of main: the two scans, the filter loop and the missing-set loop. */
  method SyncTags(refs: seq<Reference>, store: ObjectStore) returns (tagsToCopy: map<string, Hash>)
    ensures tagsToCopy == ToCopyOf(refs, store)
    ensures forall n :: n in tagsToCopy ==> Annotated(store, tagsToCopy[n]) && Compare(n, Floor) >= 0
  {
    var sourceTagCommits := RemoteTags(refs, SourceRemote);
    sourceTagCommits := FilterSourceTags(sourceTagCommits, store);
    var targetTagCommits := RemoteTags(refs, TargetRemote);
    tagsToCopy := TagsToCopy(sourceTagCommits, targetTagCommits);
  }

  /** The source and target namespaces do not overlap, so the two remotes' tags never collide locally. */
  lemma NamespacesDisjoint(name: string)
    ensures !(HasPrefix(name, Namespace(SourceRemote)) && HasPrefix(name, Namespace(TargetRemote)))
  {
    assert Namespace(SourceRemote)[10] == 'u' && Namespace(TargetRemote)[10] == 'o';
  }

  /** A reference kept by the target scan is ignored by the source scan. */
  lemma TargetRefNotSource(ref: Reference)
    requires InNamespace(ref, TargetRemote)
    ensures !InNamespace(ref, SourceRemote)
  {
    NamespacesDisjoint(ref.name);
  }

  /**
   * The references the next fetch of `remote` creates for the pushed tags:
   * `newRefs[k]` is refs/tags/<remote>/<fetched[k]>-mod.
   */
  predicate FetchedModTags(newRefs: seq<Reference>, remote: string, fetched: seq<string>)
  {
    |fetched| == |newRefs|
    && forall k :: 0 <= k < |newRefs| ==>
         newRefs[k].kind == HashReference && newRefs[k].name == FetchDestination(remote, ModTagName(fetched[k]))
  }

  /** The fetched "-mod" references of origin are invisible to the source scan. */
  lemma SourceScanUnchanged(refs: seq<Reference>, newRefs: seq<Reference>, fetched: seq<string>)
    requires FetchedModTags(newRefs, TargetRemote, fetched)
    ensures RemoteTagsOf(refs + newRefs, SourceRemote) == RemoteTagsOf(refs, SourceRemote)
  {
    forall k | 0 <= k < |newRefs| ensures !InNamespace(newRefs[k], SourceRemote) {
      TargetRefNotSource(newRefs[k]);
    }
    RemoteTagsIgnoresOthers(refs, newRefs, SourceRemote);
  }

  /** A pushed tag is found by the scan after the fetch. */
  lemma PushedTagScanned(refs: seq<Reference>, newRefs: seq<Reference>, remote: string, fetched: seq<string>, k: nat)
    requires FetchedModTags(newRefs, remote, fetched) && k < |newRefs|
    ensures ModTagName(fetched[k]) in RemoteTagsOf(refs + newRefs, remote)
  {
    var all := refs + newRefs;
    RemoteTagsKeys(all, remote, ModTagName(fetched[k]));
    assert all[|refs| + k] == newRefs[k];
  }

  /** A "-mod" tag found after the fetch was there before or was pushed. */
  lemma ScannedTagPushed(refs: seq<Reference>, newRefs: seq<Reference>, remote: string, fetched: seq<string>, n: string)
    requires FetchedModTags(newRefs, remote, fetched)
    requires ModTagName(n) in RemoteTagsOf(refs + newRefs, remote)
    ensures ModTagName(n) in RemoteTagsOf(refs, remote) || n in fetched
  {
    var t := ModTagName(n);
    var all := refs + newRefs;
    RemoteTagsKeys(all, remote, t);
    var i :| 0 <= i < |all| && InNamespace(all[i], remote) && all[i].name == FetchDestination(remote, t);
    if i < |refs| {
      assert all[i] == refs[i];
      RemoteTagsKeys(refs, remote, t);
    } else {
      var k := i - |refs|;
      assert all[i] == newRefs[k];
      FetchDestinationInjective(remote, ModTagName(fetched[k]), t);
      ModTagNameInjective(fetched[k], n);
    }
  }

  /** After the fetch, the scan has `n`'s "-mod" tag exactly when it had it before or `n` was pushed. */
  lemma ScanAfterFetch(refs: seq<Reference>, newRefs: seq<Reference>, remote: string, fetched: seq<string>, n: string)
    requires FetchedModTags(newRefs, remote, fetched)
    ensures ModTagName(n) in RemoteTagsOf(refs + newRefs, remote)
            <==> ModTagName(n) in RemoteTagsOf(refs, remote) || n in fetched
  {
    RemoteTagsGrows(refs, newRefs, remote);
    if n in fetched {
      var k :| 0 <= k < |fetched| && fetched[k] == n;
      PushedTagScanned(refs, newRefs, remote, fetched, k);
    }
    if ModTagName(n) in RemoteTagsOf(refs + newRefs, remote) {
      ScannedTagPushed(refs, newRefs, remote, fetched, n);
    }
  }

  /**
   * A rerun after the tags in `fetched` were pushed and fetched back (their
   * references appended, nothing else changed) schedules the tags that were
   * missing before, less those.
   */
  lemma RerunAfterPublish(refs: seq<Reference>, store: ObjectStore, newRefs: seq<Reference>, fetched: seq<string>)
    requires FetchedModTags(newRefs, TargetRemote, fetched)
    ensures ToCopyOf(refs + newRefs, store) == ToCopyOf(refs, store) - (set n | n in fetched)
  {
    SourceScanUnchanged(refs, newRefs, fetched);
    forall n | n in SourceFilter(RemoteTagsOf(refs, SourceRemote), store)
      ensures ModTagName(n) in RemoteTagsOf(refs + newRefs, TargetRemote)
              <==> ModTagName(n) in RemoteTagsOf(refs, TargetRemote) || n in fetched
    {
      ScanAfterFetch(refs, newRefs, TargetRemote, fetched, n);
    }
  }

  /**
   * The references the next fetch of origin (line 111) creates for the tags the
   * plans pushed (line 257): `newRefs[k]` is where the fetch refspec puts the
   * destination of `plans[k]`'s push.
   */
  predicate FetchedPushes(newRefs: seq<Reference>, plans: seq<Plan>)
  {
    |newRefs| == |plans|
    && forall k :: 0 <= k < |newRefs| ==>
         newRefs[k].kind == HashReference
         && FetchedName(plans[k].remote, RefSpecDst(plans[k].pushSpec)) == Some(newRefs[k].name)
  }

  /** The plans of handleTag for the tags `fetched`, pushed and fetched back, give the references the rerun lemmas take. */
  lemma PushesFetchedBack(newRefs: seq<Reference>, plans: seq<Plan>, fetched: seq<string>)
    requires FetchedPushes(newRefs, plans) && |fetched| == |plans|
    requires forall k :: 0 <= k < |plans| ==>
      ':' !in fetched[k] && plans[k].remote == TargetRemote && plans[k].pushSpec == PushSpec(ModTagName(fetched[k]))
    ensures FetchedModTags(newRefs, TargetRemote, fetched)
  {
    forall k | 0 <= k < |newRefs|
      ensures newRefs[k].name == FetchDestination(TargetRemote, ModTagName(fetched[k]))
    {
      var t := ModTagName(fetched[k]);
      assert t == fetched[k] + "-mod";
      assert ':' !in t;
      PushedTagFetchedBack(t);
    }
  }

  /** A rerun after the plans of handleTag were pushed and fetched back schedules the earlier missing set less those tags. */
  lemma RerunAfterPushes(refs: seq<Reference>, store: ObjectStore, newRefs: seq<Reference>, plans: seq<Plan>, fetched: seq<string>)
    requires FetchedPushes(newRefs, plans) && |fetched| == |plans|
    requires forall k :: 0 <= k < |plans| ==>
      ':' !in fetched[k] && plans[k].remote == TargetRemote && plans[k].pushSpec == PushSpec(ModTagName(fetched[k]))
    ensures ToCopyOf(refs + newRefs, store) == ToCopyOf(refs, store) - (set n | n in fetched)
  {
    PushesFetchedBack(newRefs, plans, fetched);
    RerunAfterPublish(refs, store, newRefs, fetched);
  }

  /** Idempotence: once every missing tag was pushed and fetched back, the next run has nothing to do. */
  lemma RerunHasNothingToDo(refs: seq<Reference>, store: ObjectStore, newRefs: seq<Reference>, fetched: seq<string>)
    requires FetchedModTags(newRefs, TargetRemote, fetched)
    requires forall n :: n in ToCopyOf(refs, store) ==> n in fetched
    ensures ToCopyOf(refs + newRefs, store) == map[]
  {
    RerunAfterPublish(refs, store, newRefs, fetched);
  }

  // ---------------------------------------------------------------------
  // The scenario: upstream has annotated v1.25.0, v1.26.0 and v1.27.0, origin
  // already has v1.26.0-mod; only v1.27.0 is copied, pinned at v0.27.0.

  function SourceRef(tag: string, h: Hash): Reference
  {
    Reference(FetchDestination(SourceRemote, tag), HashReference, h)
  }

  function TargetRef(tag: string, h: Hash): Reference
  {
    Reference(FetchDestination(TargetRemote, tag), HashReference, h)
  }

  function ScenarioRefs(): seq<Reference>
  {
    [SourceRef("v1.25.0", "t25"), SourceRef("v1.26.0", "t26"), SourceRef("v1.27.0", "t27"), TargetRef("v1.26.0-mod", "t26m")]
  }

  function ScenarioStore(): ObjectStore
  {
    ObjectStore(
      map["t25" := TagObject("c25"), "t26" := TagObject("c26"), "t27" := TagObject("c27")],
      map["c25" := Commit(25), "c26" := Commit(26), "c27" := Commit(27)])
  }

  /** v1.MINOR.0 parses to that release; `v` is a parameter so that the proof does not evaluate a literal. */
  lemma ParseMinorRelease(v: string, minor: string)
    requires IsNumeral(minor) && v == "v1." + minor + ".0"
    ensures Parse(v) == Some(Version("1", minor, "0", []))
  {
    assert v == "v" + "1" + "." + minor + "." + "0";
    ParseReleaseOf("1", minor, "0");
  }

  lemma MinorOrderExamples()
    ensures CompareVersions(Version("1", "25", "0", []), Version("1", "26", "0", [])) == -1
    ensures CompareVersions(Version("1", "27", "0", []), Version("1", "26", "0", [])) == 1
  {
    assert CompareInt("1", "1") == 0;
    assert LexLess("25", "26") by { assert "25"[1..] == "5" && "26"[1..] == "6"; }
    assert LexLess("26", "27") by { assert "26"[1..] == "6" && "27"[1..] == "7"; }
    assert CompareInt("25", "26") == -1;
    assert CompareInt("27", "26") == 1;
  }

  /** Two v1.MINOR.0 tags compare as their minor numbers do. */
  lemma CompareMinorReleases(v: string, w: string, a: string, b: string)
    requires IsNumeral(a) && v == "v1." + a + ".0"
    requires IsNumeral(b) && w == "v1." + b + ".0"
    ensures Compare(v, w) == CompareInt(a, b)
  {
    ParseMinorRelease(v, a);
    ParseMinorRelease(w, b);
  }

  /** v1.25.0 sorts below the floor, v1.27.0 above it; the tags are parameters so that the proof does not evaluate them. */
  lemma FloorOrder(lo: string, hi: string)
    requires lo == "v1." + "25" + ".0" && hi == "v1." + "27" + ".0"
    ensures Compare(lo, Floor) < 0 && Compare(hi, Floor) > 0
  {
    MinorOrderExamples();
    CompareMinorReleases(lo, Floor, "25", "26");
    CompareMinorReleases(hi, Floor, "27", "26");
  }

  /** v1.25.0 sorts below the floor, v1.26.0 is the floor, v1.27.0 is above it. */
  lemma FloorExamples()
    ensures Compare("v1.25.0", Floor) < 0
    ensures Compare("v1.26.0", Floor) == 0
    ensures Compare("v1.27.0", Floor) > 0
  {
    FloorOrder("v1.25.0", "v1.27.0");
  }

  /** Any annotated tag name that is not a valid version is dropped by the filter. */
  lemma InvalidNameBelowFloor(name: string)
    requires !IsValid(name)
    ensures Compare(name, Floor) < 0
  {
    ParseMinorRelease(Floor, "26");
  }

  function ScenarioSource(): map<string, Hash>
  {
    map["v1.25.0" := "t25", "v1.26.0" := "t26", "v1.27.0" := "t27"]
  }

  function ScenarioTarget(): map<string, Hash>
  {
    map["v1.26.0-mod" := "t26m"]
  }

  /** The scan of upstream sees the three source tags, not origin's tag. */
  lemma ScenarioSourceScan()
    ensures RemoteTagsOf(ScenarioRefs(), SourceRemote) == ScenarioSource()
  {
    var a, b, c, d := SourceRef("v1.25.0", "t25"), SourceRef("v1.26.0", "t26"), SourceRef("v1.27.0", "t27"), TargetRef("v1.26.0-mod", "t26m");
    assert ScenarioRefs() == [a, b, c] + [d];
    assert [a] == [] + [a] && [a, b] == [a] + [b] && [a, b, c] == [a, b] + [c];
    FetchedTagFound([], SourceRemote, "v1.25.0", "t25");
    FetchedTagFound([a], SourceRemote, "v1.26.0", "t26");
    FetchedTagFound([a, b], SourceRemote, "v1.27.0", "t27");
    TargetRefNotSource(d);
    RemoteTagsIgnoresOthers([a, b, c], [d], SourceRemote);
  }

  /** The scan of origin sees only v1.26.0-mod. */
  lemma ScenarioTargetScan()
    ensures RemoteTagsOf(ScenarioRefs(), TargetRemote) == ScenarioTarget()
  {
    var a, b, c, d := SourceRef("v1.25.0", "t25"), SourceRef("v1.26.0", "t26"), SourceRef("v1.27.0", "t27"), TargetRef("v1.26.0-mod", "t26m");
    assert ScenarioRefs() == [a, b, c] + [d];
    NamespacesDisjoint(a.name);
    NamespacesDisjoint(b.name);
    NamespacesDisjoint(c.name);
    assert [a, b, c] == [] + [a, b, c];
    RemoteTagsIgnoresOthers([], [a, b, c], TargetRemote);
    FetchedTagFound([a, b, c], TargetRemote, "v1.26.0-mod", "t26m");
  }

  /** All three source tags are annotated; only v1.25.0 sorts below the floor. */
  lemma ScenarioQualifies()
    ensures !Qualifies(ScenarioStore(), "v1.25.0", "t25")
    ensures Qualifies(ScenarioStore(), "v1.26.0", "t26") && Qualifies(ScenarioStore(), "v1.27.0", "t27")
  {
    FloorExamples();
  }

  /** The tags kept from a three-tag map whose first tag does not qualify; stated over variables to keep literals out of the proof. */
  lemma FilterKeptKeys(store: ObjectStore, a: string, b: string, c: string, ha: Hash, hb: Hash, hc: Hash)
    requires a != b && a != c
    requires !Qualifies(store, a, ha) && Qualifies(store, b, hb) && Qualifies(store, c, hc)
    ensures SourceFilter(map[a := ha, b := hb, c := hc], store).Keys == {b, c}
  {
    var tags := map[a := ha, b := hb, c := hc];
    assert tags.Keys == {a, b, c};
  }

  lemma FilterDropsFirst(store: ObjectStore, a: string, b: string, c: string, ha: Hash, hb: Hash, hc: Hash)
    requires a != b && a != c
    requires !Qualifies(store, a, ha) && Qualifies(store, b, hb) && Qualifies(store, c, hc)
    ensures SourceFilter(map[a := ha, b := hb, c := hc], store) == map[b := hb, c := hc]
  {
    FilterKeptKeys(store, a, b, c, ha, hb, hc);
  }

  /** The filter drops v1.25.0 for sorting below the floor. */
  lemma ScenarioFilter()
    ensures SourceFilter(ScenarioSource(), ScenarioStore()) == map["v1.26.0" := "t26", "v1.27.0" := "t27"]
  {
    ScenarioQualifies();
    assert "v1.25.0"[4] != "v1.26.0"[4] && "v1.25.0"[4] != "v1.27.0"[4];
    FilterDropsFirst(ScenarioStore(), "v1.25.0", "v1.26.0", "v1.27.0", "t25", "t26", "t27");
  }

  /** v1.26.0 is mirrored already, v1.27.0 is not. */
  lemma ScenarioMissing()
    ensures Missing(map["v1.26.0" := "t26", "v1.27.0" := "t27"], ScenarioTarget()) == map["v1.27.0" := "t27"]
  {
    assert ModTagName("v1.26.0") == "v1.26.0-mod";
    assert ModTagName("v1.27.0") != "v1.26.0-mod" by { assert ModTagName("v1.27.0")[4] == '7'; }
  }

  /** Only v1.27.0 is scheduled. */
  lemma ScenarioToCopy()
    ensures ToCopyOf(ScenarioRefs(), ScenarioStore()) == map["v1.27.0" := "t27"]
  {
    ScenarioSourceScan();
    ScenarioTargetScan();
    ScenarioFilter();
    ScenarioMissing();
  }

  /** A go.mod requiring one staging module through a replace directive. */
  function ScenarioModFile(): ModFile
  {
    ModFile([Require("k8s.io/api", "v0.0.0", false)], [Replace("k8s.io/api", "", "./staging/src/k8s.io/api", "")])
  }

  /**
   * Publishing v1.27.0: the new tag is v1.27.0-mod, its go.mod has no replace
   * directive and requires the module at v0.27.0, and its commit carries the
   * author time of v1.27.0's commit.
   */
  lemma ScenarioPublish()
    ensures var r := HandleTag(ScenarioStore(), "v1.27.0", "t27", ScenarioModFile(), false);
      r.Success? && r.value.tagName == "v1.27.0-mod" && r.value.manifest.replace == []
      && r.value.manifest.require == [Require("k8s.io/api", "v0.27.0", false)]
      && r.value.authorWhen == 27
  {
    var m := ScenarioModFile();
    assert PinVersion("v1.27.0") == "v0.27.0" by { assert "v1" <= "v1.27.0" && "v1.27.0"[2..] == ".27.0"; }
    RewriteSingle(m.require[0], m.replace[0], "v1.27.0");
  }

  /** The plan of one tag, pushed and fetched back, gives the reference refs/tags/origin/<tag>-mod. */
  lemma OnePushFetched(name: string, plan: Plan, h: Hash)
    requires ':' !in name && plan.remote == TargetRemote && plan.pushSpec == PushSpec(ModTagName(name))
    ensures FetchedPushes([TargetRef(ModTagName(name), h)], [plan])
  {
    var t := ModTagName(name);
    assert ':' !in t by { assert t == name + "-mod"; }
    PushedTagFetchedBack(t);
  }

  /** One missing tag, pushed by its plan and fetched back: the next run schedules nothing. */
  lemma RerunAfterOnePush(refs: seq<Reference>, store: ObjectStore, name: string, kh: Hash, plan: Plan, h: Hash)
    requires ToCopyOf(refs, store) == map[name := kh]
    requires ':' !in name && plan.remote == TargetRemote && plan.pushSpec == PushSpec(ModTagName(name))
    ensures FetchedPushes([TargetRef(ModTagName(name), h)], [plan])
    ensures ToCopyOf(refs + [TargetRef(ModTagName(name), h)], store) == map[]
  {
    OnePushFetched(name, plan, h);
    RerunAfterPushes(refs, store, [TargetRef(ModTagName(name), h)], [plan], [name]);
  }

  /**
   * The second run of the scenario: once v1.27.0-mod is pushed by the plan of
   * v1.27.0 and fetched back from origin, nothing is scheduled.
   */
  lemma ScenarioRerun()
    ensures var r := HandleTag(ScenarioStore(), "v1.27.0", "t27", ScenarioModFile(), false);
      var pushed := TargetRef(ModTagName("v1.27.0"), "t27m");
      r.Success? && FetchedPushes([pushed], [r.value]) && ToCopyOf(ScenarioRefs() + [pushed], ScenarioStore()) == map[]
  {
    var r := HandleTag(ScenarioStore(), "v1.27.0", "t27", ScenarioModFile(), false);
    assert r.Success? by { ScenarioPublish(); }
    var plan := r.value;
    assert plan.remote == TargetRemote && plan.pushSpec == PushSpec(ModTagName("v1.27.0"));
    assert ToCopyOf(ScenarioRefs(), ScenarioStore()) == map["v1.27.0" := "t27"] by { ScenarioToCopy(); }
    RerunAfterOnePush(ScenarioRefs(), ScenarioStore(), "v1.27.0", "t27", plan, "t27m");
  }
}
