/** Remote repositories as the façade configures them: every configured
    `(id, url)` pair gets a release policy and a snapshot policy chosen by
    the URL, and the configured list is then split into the repositories
    that serve releases and those that serve snapshots. */
module Repositories {
  import opened Base

  datatype RepositoryPolicy = RepositoryPolicy(enabled: bool, updatePolicy: string, checksumPolicy: string)

  datatype RemoteRepository = RemoteRepository(
    id: string,
    contentType: string,
    url: string,
    releasePolicy: RepositoryPolicy,
    snapshotPolicy: RepositoryPolicy)
  {
    /** The policy for snapshot artifacts (`snapshot`) or release artifacts. */
    function Policy(snapshot: bool): RepositoryPolicy {
      if snapshot then snapshotPolicy else releasePolicy
    }
  }

  const SnapshotsSuffix := "snapshots"
  const DefaultLayout := "default"
  const UpdateNever := "never"
  const UpdateAlways := "always"

  /** The policy a repository builder starts from when none is set: enabled,
      daily updates, warn on a checksum mismatch (the resolver library's
      default, not this code's choice). */
  const BuilderDefaultPolicy := RepositoryPolicy(true, "daily", "warn")

  /** A repository that serves releases or snapshots, never both and never neither. */
  predicate ServesExactlyOneKind(r: RemoteRepository) {
    r.releasePolicy.enabled != r.snapshotPolicy.enabled
  }

  /** The repository built for one configured `(key, url)` entry. */
  function ConfiguredRepository(key: string, url: string): (r: RemoteRepository)
    ensures r.id == key && r.url == url && r.contentType == DefaultLayout
    ensures r.snapshotPolicy.enabled <==> EndsWith(url, SnapshotsSuffix)
    ensures r.releasePolicy.enabled <==> !EndsWith(url, SnapshotsSuffix)
    ensures ServesExactlyOneKind(r)
    ensures r.releasePolicy.updatePolicy == UpdateNever && r.snapshotPolicy.updatePolicy == UpdateAlways
    ensures r.releasePolicy.checksumPolicy == "" && r.snapshotPolicy.checksumPolicy == ""
  {
    if EndsWith(url, SnapshotsSuffix) then
      RemoteRepository(key, DefaultLayout, url,
        RepositoryPolicy(false, UpdateNever, ""), RepositoryPolicy(true, UpdateAlways, ""))
    else
      RemoteRepository(key, DefaultLayout, url,
        RepositoryPolicy(true, UpdateNever, ""), RepositoryPolicy(false, UpdateAlways, ""))
  }

  /** Builds the configured repositories, one per entry, in entry order. */
  method InitRemoteRepositories(entries: seq<(string, string)>) returns (repos: seq<RemoteRepository>)
    ensures |repos| == |entries|
    ensures forall i :: 0 <= i < |entries| ==> repos[i] == ConfiguredRepository(entries[i].0, entries[i].1)
    ensures forall r :: r in repos ==> ServesExactlyOneKind(r)
  {
    repos := [];
    for i := 0 to |entries|
      invariant |repos| == i
      invariant forall j :: 0 <= j < i ==> repos[j] == ConfiguredRepository(entries[j].0, entries[j].1)
    {
      var (key, url) := entries[i];
      repos := repos + [ConfiguredRepository(key, url)];
    }
  }

  /** The repositories of `repos` whose snapshot policy (`snapshot`) or
      release policy is enabled, in their original order. */
  function EnabledRepositories(repos: seq<RemoteRepository>, snapshot: bool): (sub: seq<RemoteRepository>)
    ensures |sub| <= |repos|
    ensures forall r :: r in sub ==> r.Policy(snapshot).enabled
  {
    if repos == [] then []
    else
      var last := repos[|repos| - 1];
      EnabledRepositories(repos[..|repos| - 1], snapshot) + (if last.Policy(snapshot).enabled then [last] else [])
  }

  /** A repository is listed exactly when it is configured and its policy of that kind is enabled. */
  lemma {:induction false} EnabledRepositoriesMembers(repos: seq<RemoteRepository>, snapshot: bool)
    ensures forall r :: r in EnabledRepositories(repos, snapshot) <==> r in repos && r.Policy(snapshot).enabled
  {
    if repos != [] {
      var init := repos[..|repos| - 1];
      EnabledRepositoriesMembers(init, snapshot);
      assert repos == init + [repos[|repos| - 1]];
    }
  }

  /** Filtering distributes over concatenation: the lists keep configured order. */
  lemma {:induction false} EnabledRepositoriesAppend(a: seq<RemoteRepository>, b: seq<RemoteRepository>, snapshot: bool)
    ensures EnabledRepositories(a + b, snapshot) == EnabledRepositories(a, snapshot) + EnabledRepositories(b, snapshot)
    decreases |b|
  {
    if b == [] {
      assert a + b == a;
    } else {
      var init := b[..|b| - 1];
      EnabledRepositoriesAppend(a, init, snapshot);
      assert (a + b)[..|a + b| - 1] == a + init;
      assert (a + b)[|a + b| - 1] == b[|b| - 1];
    }
  }

  /** When every repository serves exactly one kind, the release list and the
      snapshot list split the configured list: together they hold each
      configured repository exactly as often as it is configured. */
  lemma {:induction false} PartitionIsExact(repos: seq<RemoteRepository>)
    requires forall r :: r in repos ==> ServesExactlyOneKind(r)
    ensures multiset(EnabledRepositories(repos, false)) + multiset(EnabledRepositories(repos, true)) == multiset(repos)
    ensures |EnabledRepositories(repos, false)| + |EnabledRepositories(repos, true)| == |repos|
  {
    if repos != [] {
      var init := repos[..|repos| - 1];
      var last := repos[|repos| - 1];
      assert repos == init + [last];
      assert last in repos;
      PartitionIsExact(init);
      assert multiset(repos) == multiset(init) + multiset{last};
    }
  }

  /** No repository that serves exactly one kind is in both lists. */
  lemma ListsAreDisjoint(repos: seq<RemoteRepository>)
    requires forall r :: r in repos ==> ServesExactlyOneKind(r)
    ensures forall r :: r in EnabledRepositories(repos, false) ==> r !in EnabledRepositories(repos, true)
    ensures forall r :: r in repos ==> r in EnabledRepositories(repos, false) || r in EnabledRepositories(repos, true)
  {
    EnabledRepositoriesMembers(repos, false);
    EnabledRepositoriesMembers(repos, true);
  }

  /** The repository the façade puts first in every artifact and dependency
      request: id "local", the default layout, a `file://` URL for the local
      repository directory, and the builder's default policies. */
  function LocalRepository(absolutePath: string): (r: RemoteRepository)
    ensures r.id == "local" && r.contentType == DefaultLayout
    ensures r.url == "file://" + absolutePath
    ensures r.releasePolicy.enabled && r.snapshotPolicy.enabled
  {
    RemoteRepository("local", DefaultLayout, "file://" + absolutePath, BuilderDefaultPolicy, BuilderDefaultPolicy)
  }
}
