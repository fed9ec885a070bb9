/**
 * The remote set-up at the start of main: each of the two remotes must end up
 * configured with the URL given on the command line as its first URL.
 */
module Remotes {
  import opened Wrappers

  const SourceRemote := "upstream"
  const TargetRemote := "origin"

  /** The remote section of the repository configuration: remote name to its URLs. */
  type Config = map<string, seq<string>>

  datatype ConfigError =
    | EmptyUrl(remote: string)          // "Remote %s URL is empty"
    | NoUrls(remote: string)            // the remote exists with no URL: URLs[0] is out of range
    | DeleteFailed(remote: string)      // "Failed to delete remote"
    | CreateFailed(remote: string)      // "Failed to set remote"

  /** The remote would be deleted: it exists and its first URL is not the wanted one. */
  predicate Stale(remotes: Config, name: string, url: string)
  {
    name in remotes && remotes[name] != [] && remotes[name][0] != url
  }

  /** One pass of the remote loop, before the fetch. */
  function Reconcile(remotes: Config, name: string, url: string): (r: Result<Config, ConfigError>)
    ensures r.Success? <==> url != [] && (name in remotes ==> remotes[name] != [])
    ensures url == [] ==> r == Failure(EmptyUrl(name))
    ensures r.Success? ==> name in r.value && r.value[name] != [] && r.value[name][0] == url
    ensures r.Success? ==> SameElsewhere(r.value, remotes, {name})
    ensures r.Success? && !Stale(remotes, name, url) && name in remotes ==> r.value == remotes
    ensures r.Success? && (name !in remotes || Stale(remotes, name, url)) ==> r.value == remotes[name := [url]]
  {
    if url == [] then Failure(EmptyUrl(name))
    else if name in remotes && remotes[name] == [] then Failure(NoUrls(name))
    else if name in remotes && remotes[name][0] == url then Success(remotes)
    else Success(remotes[name := [url]])
  }

  /** Reconciling again changes nothing. */
  lemma ReconcileIdempotent(remotes: Config, name: string, url: string)
    requires Reconcile(remotes, name, url).Success?
    ensures Reconcile(Reconcile(remotes, name, url).value, name, url) == Reconcile(remotes, name, url)
  {
  }

  /** A remote is replaced exactly when it is stale, and then only its URL list changes, to the wanted URL alone. */
  lemma ReconcileReplacesOnlyStale(remotes: Config, name: string, url: string)
    requires Reconcile(remotes, name, url).Success? && name in remotes
    ensures Reconcile(remotes, name, url).value[name] != remotes[name] <==> Stale(remotes, name, url)
    ensures Stale(remotes, name, url) ==> Reconcile(remotes, name, url).value == remotes[name := [url]]
  {
  }

  /** The loop over the two remotes, stopping at the first error; the configuration reached so far is kept. */
  function ReconcileAll(remotes: Config, wanted: seq<(string, string)>): (r: (Config, Option<ConfigError>))
    ensures r.1.None? ==> forall k :: 0 <= k < |wanted| ==> wanted[k].1 != []
    ensures r.1.None? && wanted != [] ==>
      var last := wanted[|wanted| - 1];
      last.0 in r.0 && r.0[last.0] != [] && r.0[last.0][0] == last.1
    ensures SameElsewhere(r.0, remotes, Names(wanted))
    decreases |wanted|
  {
    if wanted == [] then (remotes, None)
    else
      match Reconcile(remotes, wanted[0].0, wanted[0].1)
      case Failure(e) => (remotes, Some(e))
      case Success(next) => ReconcileAll(next, wanted[1..])
  }

  /** The remote names of the loop. */
  function Names(wanted: seq<(string, string)>): set<string>
  {
    set w | w in wanted :: w.0
  }

  /** The two remotes main configures, in that order. */
  function Wanted(sourceUrl: string, targetUrl: string): seq<(string, string)>
  {
    [(SourceRemote, sourceUrl), (TargetRemote, targetUrl)]
  }

  /** `a` and `b` agree on every remote not in `names`. */
  ghost predicate SameElsewhere(a: Config, b: Config, names: set<string>)
  {
    forall n :: n !in names ==> (n in a <==> n in b) && (n in a ==> a[n] == b[n])
  }

  /** The loop over two remotes, unfolded. */
  lemma ReconcileAllTwo(remotes: Config, first: (string, string), second: (string, string))
    ensures var r1 := Reconcile(remotes, first.0, first.1);
      ReconcileAll(remotes, [first, second]) ==
        if r1.Failure? then (remotes, Some(r1.error))
        else
          var r2 := Reconcile(r1.value, second.0, second.1);
          if r2.Failure? then (r1.value, Some(r2.error)) else (r2.value, None)
  {
    var w := [first, second];
    assert w[0] == first && w[1..] == [second] && w[1..][0] == second && w[1..][1..] == [];
    var r1 := Reconcile(remotes, first.0, first.1);
    if r1.Success? {
      assert ReconcileAll(remotes, w) == ReconcileAll(r1.value, [second]);
      var r2 := Reconcile(r1.value, second.0, second.1);
      if r2.Success? {
        assert ReconcileAll(r1.value, [second]) == ReconcileAll(r2.value, []);
      }
    }
  }

  /** The loop succeeds exactly when both URLs are given and neither remote exists without URLs; then both are set. */
  lemma ReconcileBoth(remotes: Config, sourceUrl: string, targetUrl: string)
    ensures var (after, err) := ReconcileAll(remotes, Wanted(sourceUrl, targetUrl));
      (err.None? <==> sourceUrl != [] && targetUrl != []
                      && (SourceRemote in remotes ==> remotes[SourceRemote] != [])
                      && (TargetRemote in remotes ==> remotes[TargetRemote] != []))
      && (err.None? ==> SourceRemote in after && after[SourceRemote] != [] && after[SourceRemote][0] == sourceUrl
                        && TargetRemote in after && after[TargetRemote] != [] && after[TargetRemote][0] == targetUrl
                        && SameElsewhere(after, remotes, {SourceRemote, TargetRemote}))
      && (sourceUrl == [] ==> err == Some(EmptyUrl(SourceRemote)) && after == remotes)
  {
    assert SourceRemote != TargetRemote by { assert SourceRemote[0] != TargetRemote[0]; }
    ReconcileAllTwo(remotes, (SourceRemote, sourceUrl), (TargetRemote, targetUrl));
    var first := Reconcile(remotes, SourceRemote, sourceUrl);
    if first.Success? {
      var mid := first.value;
      assert TargetRemote in mid <==> TargetRemote in remotes;
      assert TargetRemote in remotes ==> mid[TargetRemote] == remotes[TargetRemote];
    }
  }

  /** The repository, as far as its remote configuration goes. */
  class Repository {
    var remotes: Config

    constructor (remotes: Config)
      ensures this.remotes == remotes
    {
      this.remotes := remotes;
    }

    /** Repository.DeleteRemote: fails when there is no such remote. */
    method DeleteRemote(name: string) returns (ok: bool)
      modifies this
      ensures ok <==> name in old(remotes)
      ensures remotes == old(remotes) - {name}
    {
      ok := name in remotes;
      if ok {
        remotes := remotes - {name};
      }
    }

    /** Repository.CreateRemote: fails when the remote exists or has no URL. */
    method CreateRemote(name: string, urls: seq<string>) returns (ok: bool)
      modifies this
      ensures ok <==> name !in old(remotes) && urls != []
      ensures remotes == if ok then old(remotes)[name := urls] else old(remotes)
    {
      ok := name !in remotes && urls != [];
      if ok {
        remotes := remotes[name := urls];
      }
    }

    /**
     * Lines 87 to 107 for one remote. `deleted` tells whether the existing
     * remote was removed ("Deleting invalid remote").
     */
    method SetRemote(name: string, url: string) returns (res: Result<(), ConfigError>, deleted: bool)
      modifies this
      ensures deleted <==> Stale(old(remotes), name, url) && url != []
      ensures Reconcile(old(remotes), name, url).Success? ==>
        res == Success(()) && remotes == Reconcile(old(remotes), name, url).value
      ensures Reconcile(old(remotes), name, url).Failure? ==>
        res == Failure(Reconcile(old(remotes), name, url).error) && remotes == old(remotes)
    {
      deleted := false;
      if url == [] {
        return Failure(EmptyUrl(name)), deleted;
      }
      var present := name in remotes;
      if present && remotes[name] == [] {
        return Failure(NoUrls(name)), deleted;
      }
      if present && remotes[name][0] != url {
        deleted := true;
        var ok := DeleteRemote(name);
        if !ok {
          return Failure(DeleteFailed(name)), deleted;
        }
        present := false;
      }
      if !present {
        var ok := CreateRemote(name, [url]);
        if !ok {
          return Failure(CreateFailed(name)), deleted;
        }
      }
      res := Success(());
    }

    /** The remote loop of main over upstream and origin, stopping at the first error. */
    method ConfigureRemotes(sourceUrl: string, targetUrl: string) returns (err: Option<ConfigError>)
      modifies this
      ensures (remotes, err) == ReconcileAll(old(remotes), Wanted(sourceUrl, targetUrl))
    {
      var wanted := Wanted(sourceUrl, targetUrl);
      err := None;
      var i := 0;
      while i < |wanted|
        invariant 0 <= i <= |wanted|
        invariant ReconcileAll(remotes, wanted[i..]) == ReconcileAll(old(remotes), wanted)
      {
        var res, _ := SetRemote(wanted[i].0, wanted[i].1);
        if res.Failure? {
          err := Some(res.error);
          return;
        }
        i := i + 1;
      }
    }
  }
}
