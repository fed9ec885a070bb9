/**
 * The rewrite prepareModFile applies to a parsed go.mod: every require that a
 * replace directive names is pinned to the version derived from the tag, and
 * every replace directive is dropped.
 */
module GoMod {
  import opened Wrappers
  import opened Strings
  import opened Semver

  /** A require line: module path, version, and the `// indirect` marking. */
  datatype Require = Require(path: string, version: string, indirect: bool)

  /** A replace directive: Old.Path Old.Version => New.Path New.Version. */
  datatype Replace = Replace(oldPath: string, oldVersion: string, newPath: string, newVersion: string)

  /** The two record kinds of a go.mod file the rewrite touches, in file order. */
  datatype ModFile = ModFile(require: seq<Require>, replace: seq<Replace>)

  /** The version the mirrored module is pinned to: "v0" + TrimPrefix(tag, "v1"). */
  function PinVersion(tag: string): (pin: string)
    ensures HasPrefix(pin, "v0")
    ensures HasPrefix(tag, "v1") ==> pin == "v0" + tag[2..]
    ensures !HasPrefix(tag, "v1") ==> pin == "v0" + tag
  {
    "v0" + TrimPrefix(tag, "v1")
  }

  function Paths(list: seq<Require>): set<string>
  {
    set r | r in list :: r.path
  }

  function OldPaths(reps: seq<Replace>): set<string>
  {
    set r | r in reps :: r.oldPath
  }

  /** What DropReplace matches on. */
  function OldKeys(reps: seq<Replace>): set<(string, string)>
  {
    set r | r in reps :: (r.oldPath, r.oldVersion)
  }

  /** The `requires` map: path to require line, a later line for the same path replacing an earlier one. */
  function RequireMap(list: seq<Require>): (m: map<string, Require>)
    ensures m.Keys == Paths(list)
    ensures forall p :: p in m ==> m[p].path == p && m[p] in list
  {
    if list == [] then map[]
    else
      var init := list[..|list| - 1];
      var last := list[|list| - 1];
      assert list == init + [last];
      RequireMap(init)[last.path := last]
  }

  /** The map entry for a path is its last require line. */
  lemma {:induction false} RequireMapLastWins(list: seq<Require>, i: nat)
    requires i < |list|
    requires forall j :: i < j < |list| ==> list[j].path != list[i].path
    ensures RequireMap(list)[list[i].path] == list[i]
  {
    if i < |list| - 1 {
      var init := list[..|list| - 1];
      assert init[i] == list[i];
      forall j | i < j < |init| ensures init[j].path != init[i].path { assert init[j] == list[j]; }
      RequireMapLastWins(init, i);
    }
  }

  /** The map after the pins: the entries for the replaced paths carry the new version. */
  function Pinned(reqs: map<string, Require>, olds: set<string>, pin: string): (m: map<string, Require>)
    ensures m.Keys == reqs.Keys
  {
    map p | p in reqs :: if p in olds then reqs[p].(version := pin) else reqs[p]
  }

  /**
   * modfile's SetRequire, for the case it is called with here, where every path
   * it is given is already required: the first line for each path stays, with
   * the version and marking from `need`; later lines for that path, and lines
   * whose path `need` lacks, go. `seen` holds the paths already passed.
   */
  function SetRequireFrom(list: seq<Require>, need: map<string, Require>, seen: set<string>): (r: seq<Require>)
    ensures forall k :: 0 <= k < |r| ==>
      var p := r[k].path;
      p in need && p !in seen && p in Paths(list) && r[k] == Require(p, need[p].version, need[p].indirect)
    ensures forall p :: p in Paths(list) && p !in seen && p in need ==> p in Paths(r)
    ensures forall a, b :: 0 <= a < b < |r| ==> r[a].path != r[b].path
    ensures |r| <= |list|
  {
    if list == [] then []
    else
      var p := list[0].path;
      var rest := SetRequireFrom(list[1..], need, seen + {p});
      PathsOfTail(list);
      if p in need && p !in seen then [Require(p, need[p].version, need[p].indirect)] + rest
      else rest
  }

  lemma PathsOfTail(list: seq<Require>)
    requires list != []
    ensures Paths(list) == {list[0].path} + Paths(list[1..])
  {
    forall q | q in Paths(list) ensures q == list[0].path || q in Paths(list[1..]) {
      var x :| x in list && x.path == q;
      var k :| 0 <= k < |list| && list[k] == x;
      if k > 0 { assert list[1..][k - 1] == x; }
    }
    forall q | q in Paths(list[1..]) ensures q in Paths(list) {
      var x :| x in list[1..] && x.path == q;
      assert x in list;
    }
    assert list[0] in list;
  }

  function SetRequire(list: seq<Require>, need: map<string, Require>): seq<Require>
  {
    SetRequireFrom(list, need, {})
  }

  /** Calling SetRequire again with a map over the same paths is the same as calling it once. */
  lemma {:induction false} SetRequireFromTwice(list: seq<Require>, n1: map<string, Require>, n2: map<string, Require>, seen: set<string>)
    requires forall p :: p in Paths(list) && p !in seen ==> p in n1
    ensures SetRequireFrom(SetRequireFrom(list, n1, seen), n2, seen) == SetRequireFrom(list, n2, seen)
  {
    if list != [] {
      var p := list[0].path;
      assert list[0] in list;
      forall q | q in Paths(list[1..]) && q !in seen + {p} ensures q in n1 {
        var x :| x in list[1..] && x.path == q;
        assert x in list;
      }
      SetRequireFromTwice(list[1..], n1, n2, seen + {p});
      if p !in seen {
        var head := Require(p, n1[p].version, n1[p].indirect);
        var inner := [head] + SetRequireFrom(list[1..], n1, seen + {p});
        assert inner[0] == head && inner[1..] == SetRequireFrom(list[1..], n1, seen + {p});
      } else {
        assert seen + {p} == seen;
      }
    }
  }

  /** DropReplace: the directives with that old path and version are removed. */
  function DropReplace(reps: seq<Replace>, path: string, version: string): (r: seq<Replace>)
    ensures forall x :: x in r <==> x in reps && (x.oldPath, x.oldVersion) != (path, version)
  {
    if reps == [] then []
    else
      var rest := DropReplace(reps[1..], path, version);
      assert forall x :: x in reps <==> x == reps[0] || x in reps[1..];
      if (reps[0].oldPath, reps[0].oldVersion) == (path, version) then rest else [reps[0]] + rest
  }

  /** The directives whose old path and version are not among `dropped`, in order. */
  function Unmatched(reps: seq<Replace>, dropped: set<(string, string)>): (r: seq<Replace>)
    ensures forall x :: x in r <==> x in reps && (x.oldPath, x.oldVersion) !in dropped
  {
    if reps == [] then []
    else
      var rest := Unmatched(reps[1..], dropped);
      assert forall x :: x in reps <==> x == reps[0] || x in reps[1..];
      if (reps[0].oldPath, reps[0].oldVersion) in dropped then rest else [reps[0]] + rest
  }

  lemma {:induction false} UnmatchedNone(reps: seq<Replace>)
    ensures Unmatched(reps, {}) == reps
  {
    if reps != [] {
      UnmatchedNone(reps[1..]);
      assert [reps[0]] + reps[1..] == reps;
    }
  }

  /** Dropping one more key from the unmatched directives is DropReplace. */
  lemma {:induction false} DropUnmatched(reps: seq<Replace>, dropped: set<(string, string)>, path: string, version: string)
    ensures DropReplace(Unmatched(reps, dropped), path, version) == Unmatched(reps, dropped + {(path, version)})
  {
    if reps != [] {
      DropUnmatched(reps[1..], dropped, path, version);
      var rest := Unmatched(reps[1..], dropped);
      if (reps[0].oldPath, reps[0].oldVersion) !in dropped {
        assert ([reps[0]] + rest)[1..] == rest;
      }
    }
  }

  /** Once every directive's key is dropped, none remain. */
  lemma {:induction false} UnmatchedAll(reps: seq<Replace>, dropped: set<(string, string)>)
    requires OldKeys(reps) <= dropped
    ensures Unmatched(reps, dropped) == []
  {
    if reps != [] {
      assert reps[0] in reps;
      assert OldKeys(reps[1..]) <= OldKeys(reps) by {
        forall k | k in OldKeys(reps[1..]) ensures k in OldKeys(reps) {
          var x :| x in reps[1..] && (x.oldPath, x.oldVersion) == k;
          assert x in reps;
        }
      }
      UnmatchedAll(reps[1..], dropped);
    }
  }

  /** Whether some replace directive names a required path, i.e. whether SetRequire is ever called. */
  predicate AnyReplaced(m: ModFile)
  {
    OldPaths(m.replace) * Paths(m.require) != {}
  }

  /** The manifest prepareModFile writes back, before Format and `go mod tidy`. */
  function Rewrite(m: ModFile, tag: string): (out: ModFile)
    ensures out.replace == []
    ensures |out.require| <= |m.require|
  {
    if !AnyReplaced(m) then ModFile(m.require, [])
    else ModFile(SetRequire(m.require, Pinned(RequireMap(m.require), OldPaths(m.replace), PinVersion(tag))), [])
  }

  /** The first loop of prepareModFile: the requires keyed by path. */
  method CollectRequires(list: seq<Require>) returns (required: map<string, Require>)
    ensures required == RequireMap(list)
  {
    required := map[];
    var i := 0;
    while i < |list|
      invariant 0 <= i <= |list|
      invariant required == RequireMap(list[..i])
    {
      assert list[..i + 1][..i] == list[..i];
      var require := list[i];
      required := required[require.path := require];
      i := i + 1;
    }
    assert list[..i] == list;
  }

  /** The require list once the directives naming `olds` have been seen: SetRequire is first called on the first match. */
  function RequiresAfter(list: seq<Require>, initial: map<string, Require>, olds: set<string>, tag: string): seq<Require>
  {
    if olds * initial.Keys == {} then list else SetRequire(list, Pinned(initial, olds, tag))
  }

  /** One directive more: SetRequire with the updated map when its path is required, nothing otherwise. */
  lemma RequiresAfterStep(list: seq<Require>, initial: map<string, Require>, olds: set<string>, p: string, tag: string)
    requires initial.Keys == Paths(list)
    ensures p in initial ==> SetRequire(RequiresAfter(list, initial, olds, tag), Pinned(initial, olds + {p}, tag))
                             == RequiresAfter(list, initial, olds + {p}, tag)
    ensures p !in initial ==> RequiresAfter(list, initial, olds + {p}, tag) == RequiresAfter(list, initial, olds, tag)
  {
    if p in initial {
      assert p in (olds + {p}) * initial.Keys;
      if olds * initial.Keys != {} {
        SetRequireFromTwice(list, Pinned(initial, olds, tag), Pinned(initial, olds + {p}, tag), {});
      }
    } else {
      assert (olds + {p}) * initial.Keys == olds * initial.Keys;
      PinnedSkip(initial, olds, p, tag);
    }
  }

  /** The second loop of prepareModFile: pin each required path a directive names, and drop the directive. */
  method ApplyReplaces(list: seq<Require>, reps: seq<Replace>, initial: map<string, Require>, tag: string)
      returns (reqList: seq<Require>, directives: seq<Replace>)
    requires initial.Keys == Paths(list)
    ensures reqList == RequiresAfter(list, initial, OldPaths(reps), tag)
    ensures directives == []
  {
    var required := initial;
    ghost var olds: set<string> := {};
    ghost var dropped: set<(string, string)> := {};
    assert OldPaths(reps[..0]) == {} && OldKeys(reps[..0]) == {};
    PinnedNone(initial, tag);
    UnmatchedNone(reps);
    reqList := list;
    directives := reps;
    var j := 0;
    while j < |reps|
      invariant 0 <= j <= |reps|
      invariant olds == OldPaths(reps[..j]) && dropped == OldKeys(reps[..j])
      invariant required == Pinned(initial, olds, tag)
      invariant reqList == RequiresAfter(list, initial, olds, tag)
      invariant directives == Unmatched(reps, dropped)
    {
      var replace := reps[j];
      ReplacesPrefixStep(reps, j);
      RequiresAfterStep(list, initial, olds, replace.oldPath, tag);
      DropUnmatched(reps, dropped, replace.oldPath, replace.oldVersion);
      if replace.oldPath in required {
        required := required[replace.oldPath := required[replace.oldPath].(version := tag)];
        PinnedStep(initial, olds, replace.oldPath, tag);
        reqList := SetRequire(reqList, required);
      } else {
        PinnedSkip(initial, olds, replace.oldPath, tag);
      }
      directives := DropReplace(directives, replace.oldPath, replace.oldVersion);
      olds := olds + {replace.oldPath};
      dropped := dropped + {(replace.oldPath, replace.oldVersion)};
      j := j + 1;
    }
    assert reps[..j] == reps;
    UnmatchedAll(reps, dropped);
  }

  /** prepareModFile, lines 159 and 169 to 181: the two loops over the parsed file. */
  method PrepareModFile(modFile: ModFile, name: string) returns (out: ModFile)
    ensures out == Rewrite(modFile, name)
    ensures out.replace == []
  {
    var tag := PinVersion(name);
    var required := CollectRequires(modFile.require);
    var reqList, directives := ApplyReplaces(modFile.require, modFile.replace, required, tag);
    out := ModFile(reqList, directives);
  }

  lemma ReplacesPrefixStep(reps: seq<Replace>, j: nat)
    requires j < |reps|
    ensures OldPaths(reps[..j + 1]) == OldPaths(reps[..j]) + {reps[j].oldPath}
    ensures OldKeys(reps[..j + 1]) == OldKeys(reps[..j]) + {(reps[j].oldPath, reps[j].oldVersion)}
  {
    assert reps[..j + 1] == reps[..j] + [reps[j]];
  }

  lemma PinnedNone(initial: map<string, Require>, pin: string)
    ensures Pinned(initial, {}, pin) == initial
  {
  }

  /** Pinning one more required path updates that path's entry only. */
  lemma PinnedStep(initial: map<string, Require>, olds: set<string>, p: string, pin: string)
    requires p in initial
    ensures var m := Pinned(initial, olds, pin);
      m[p := m[p].(version := pin)] == Pinned(initial, olds + {p}, pin)
  {
  }

  /** A replaced path that is not required leaves the map alone. */
  lemma PinnedSkip(initial: map<string, Require>, olds: set<string>, p: string, pin: string)
    requires p !in initial
    ensures Pinned(initial, olds + {p}, pin) == Pinned(initial, olds, pin)
  {
  }

  // ---------------------------------------------------------------------
  // What the rewrite promises.

  /** The set of required paths is unchanged. */
  lemma RewriteKeepsPaths(m: ModFile, tag: string)
    ensures Paths(Rewrite(m, tag).require) == Paths(m.require)
  {
    if AnyReplaced(m) {
      var out := Rewrite(m, tag).require;
      forall p | p in Paths(out) ensures p in Paths(m.require) {
        var r :| r in out && r.path == p;
        var k :| 0 <= k < |out| && out[k] == r;
      }
    }
  }

  /** A require whose path some replace directive names carries the pin. */
  lemma RewritePinsReplaced(m: ModFile, tag: string, r: Require)
    requires r in Rewrite(m, tag).require && r.path in OldPaths(m.replace)
    ensures r.version == PinVersion(tag)
  {
    RewriteKeepsPaths(m, tag);
    assert r.path in Paths(Rewrite(m, tag).require);
    assert r.path in OldPaths(m.replace) * Paths(m.require);
    var out := Rewrite(m, tag).require;
    var k :| 0 <= k < |out| && out[k] == r;
  }

  /** Every other require is one of the original lines, unchanged; after a pin, the last line for its path. */
  lemma RewriteKeepsOthers(m: ModFile, tag: string, r: Require)
    requires r in Rewrite(m, tag).require && r.path !in OldPaths(m.replace)
    ensures r in m.require
    ensures AnyReplaced(m) ==> r == RequireMap(m.require)[r.path]
  {
    if AnyReplaced(m) {
      var out := Rewrite(m, tag).require;
      var k :| 0 <= k < |out| && out[k] == r;
    }
  }

  /** If no replace directive names a required path, the require list is untouched. */
  lemma RewriteUntouched(m: ModFile, tag: string)
    requires !AnyReplaced(m)
    ensures Rewrite(m, tag).require == m.require
  {
  }

  /** After a pin, each path is required once, keyed by path with later lines winning. */
  lemma RewriteKeyedByPath(m: ModFile, tag: string)
    requires AnyReplaced(m)
    ensures var out := Rewrite(m, tag).require;
      forall a, b :: 0 <= a < b < |out| ==> out[a].path != out[b].path
  {
  }

  /** Every required path that a replace directive names is required at the pin afterwards. */
  lemma RewritePinsEveryReplacedPath(m: ModFile, tag: string, p: string)
    requires p in Paths(m.require) && p in OldPaths(m.replace)
    ensures exists r :: r in Rewrite(m, tag).require && r.path == p && r.version == PinVersion(tag)
  {
    RewriteKeepsPaths(m, tag);
    var r :| r in Rewrite(m, tag).require && r.path == p;
    RewritePinsReplaced(m, tag, r);
  }

  /** A go.mod with one require and one replace directive naming it: the require is pinned and the directive dropped. */
  lemma RewriteSingle(req: Require, rep: Replace, tag: string)
    requires rep.oldPath == req.path
    ensures Rewrite(ModFile([req], [rep]), tag) == ModFile([req.(version := PinVersion(tag))], [])
  {
    var m := ModFile([req], [rep]);
    assert req in m.require && rep in m.replace;
    assert req.path in OldPaths(m.replace) * Paths(m.require);
    assert [req][..0] == [] && [req][1..] == [];
    assert RequireMap(m.require) == map[req.path := req];
    var need := Pinned(RequireMap(m.require), OldPaths(m.replace), PinVersion(tag));
    assert need[req.path] == req.(version := PinVersion(tag));
    assert req.path in need;
    var rest := SetRequireFrom([req][1..], need, {} + {req.path});
    assert rest == [];
    assert SetRequireFrom([req], need, {}) == [Require(req.path, need[req.path].version, need[req.path].indirect)] + rest;
  }

  // ---------------------------------------------------------------------
  // The pin version.

  lemma PinExamples()
    ensures PinVersion("v1.29.0") == "v0.29.0"
    ensures PinVersion("v1.26.3") == "v0.26.3"
  {
    assert "v1" <= "v1.29.0" && "v1.29.0"[2..] == ".29.0";
    assert "v1" <= "v1.26.3" && "v1.26.3"[2..] == ".26.3";
  }

  /** For a valid v1.x tag the pin is the same version with major 0. */
  lemma PinOfV1Release(tag: string)
    requires Parse(tag).Some? && Parse(tag).value.major == "1"
    ensures Parse(PinVersion(tag)) == Some(Parse(tag).value.(major := "0"))
  {
    var major, rest := ParseMajorOf(tag);
    PinOfV1Prefix(tag, rest);
    ParseAfterV(PinVersion(tag), "0", rest);
    ParseAfterMajorRelabel(major, "0", rest);
  }

  /** A tag "v1" + rest is pinned at "v0" + rest. */
  lemma PinOfV1Prefix(tag: string, rest: string)
    requires tag != [] && tag[0] == 'v' && tag[1..] == "1" + rest
    ensures var pin := PinVersion(tag); pin != [] && pin[0] == 'v' && pin[1..] == "0" + rest
  {
    assert tag[1] == '1' && tag[2..] == rest;
    assert tag[..2] == "v1";
  }

  /** On v1.x tags the pin keeps the order of the tags. */
  lemma PinKeepsOrder(a: string, b: string)
    requires Parse(a).Some? && Parse(a).value.major == "1"
    requires Parse(b).Some? && Parse(b).value.major == "1"
    ensures Compare(PinVersion(a), PinVersion(b)) == Compare(a, b)
  {
    PinOfV1Release(a);
    PinOfV1Release(b);
  }

  /** A pin whose major number has a leading zero is not a valid version. */
  lemma LeadingZeroPinInvalid(pin: string)
    requires |pin| >= 3 && pin[0] == 'v' && pin[1] == '0' && IsDigit(pin[2])
    ensures !IsValid(pin)
  {
    var t := pin[1..];
    assert t[1..][0] == pin[2];
    assert LeadingDigits(t) >= 2;
  }

  /** A pin where "v0" is followed by another "v" is not a valid version. */
  lemma DoubledPrefixPinInvalid(pin: string)
    requires |pin| >= 3 && pin[0] == 'v' && pin[1] == '0' && pin[2] == 'v'
    ensures !IsValid(pin)
  {
    var t := pin[1..];
    assert t == "0" + pin[2..];
    ParseIntOf("0", pin[2..]);
  }

  /** Tags outside v1.x do not give a valid version: v10.0.0 and v2.0.0. */
  lemma PinOfV10()
    ensures PinVersion("v10.0.0") == "v00.0.0" && !IsValid("v00.0.0")
  {
    assert "v1" <= "v10.0.0" && "v10.0.0"[2..] == "0.0.0";
    LeadingZeroPinInvalid("v00.0.0");
  }

  lemma PinOfV2()
    ensures PinVersion("v2.0.0") == "v0v2.0.0" && !IsValid("v0v2.0.0")
  {
    assert "v2.0.0"[1] != "v1"[1];
    DoubledPrefixPinInvalid("v0v2.0.0");
  }
}
