/** The façade's static state and its three resolver-backed operations:
    listing versions, resolving one artifact and collecting the transitive
    dependencies of an artifact. The resolver library's calls are parameters
    of the operations: each returns a value or throws, and the model states
    what request the façade hands to it and what the façade makes of the
    answer. */
module Facade {
  import opened Base
  import opened Repositories
  import Aether

  /** A version reported by the resolver library. */
  datatype Version = Version(text: string)

  /** The façade's static state: the configured repositories, the
      release-serving and snapshot-serving sublists, and the absolute path of
      the local repository directory. */
  datatype Engine = Engine(
    remoteRepositories: seq<RemoteRepository>,
    remoteReleaseRepositories: seq<RemoteRepository>,
    remoteSnapshotRepositories: seq<RemoteRepository>,
    localRepositoryPath: string)
  {
    /** Every repository serves one kind, and the two sublists are exactly
        the repositories serving each kind, in configured order. */
    predicate Valid() {
      && (forall r :: r in remoteRepositories ==> ServesExactlyOneKind(r))
      && remoteReleaseRepositories == EnabledRepositories(remoteRepositories, false)
      && remoteSnapshotRepositories == EnabledRepositories(remoteRepositories, true)
    }
  }

  /** The static initializer: configures the repositories from the
      `(key, url)` entries, then splits them, in order, into the repositories
      whose release policy is enabled and those whose snapshot policy is. */
  method Init(entries: seq<(string, string)>, localRepositoryPath: string) returns (e: Engine)
    ensures e.Valid()
    ensures |e.remoteRepositories| == |entries|
    ensures forall i :: 0 <= i < |entries| ==>
      e.remoteRepositories[i] == ConfiguredRepository(entries[i].0, entries[i].1)
    ensures e.localRepositoryPath == localRepositoryPath
  {
    var remote := InitRemoteRepositories(entries);
    var releaseRepos: seq<RemoteRepository> := [];
    var snapshotRepos: seq<RemoteRepository> := [];
    for i := 0 to |remote|
      invariant releaseRepos == EnabledRepositories(remote[..i], false)
      invariant snapshotRepos == EnabledRepositories(remote[..i], true)
    {
      assert remote[..i + 1][..i] == remote[..i];
      var repository := remote[i];
      if repository.Policy(false).enabled {
        releaseRepos := releaseRepos + [repository];
      }
      if repository.Policy(true).enabled {
        snapshotRepos := snapshotRepos + [repository];
      }
    }
    assert remote[..|remote|] == remote;
    e := Engine(remote, releaseRepos, snapshotRepos, localRepositoryPath);
  }

  // ------------------------------------------------------------- versions

  const FullRange := "[0,)"
  const WildcardSuffix := ".*]"

  /** The version range asked for: every version when the prefix is null or
      empty, otherwise the versions starting with the prefix. */
  function VersionRange(versionPrefix: Option<string>): (range: string)
    ensures range == FullRange <==> versionPrefix.None? || versionPrefix.value == ""
    ensures versionPrefix.Some? && versionPrefix.value != "" ==>
      range == "[" + versionPrefix.value + WildcardSuffix
  {
    if versionPrefix.None? || |versionPrefix.value| == 0 then FullRange
    else
      var range := "[" + versionPrefix.value + WildcardSuffix;
      assert range[|range| - 1] != FullRange[|FullRange| - 1];
      range
  }

  /** Reads the prefix back out of a range string. */
  function PrefixOfRange(range: string): Option<string> {
    if range != FullRange && |range| >= 4 && range[0] == '[' && range[|range| - 3..] == WildcardSuffix
    then Some(range[1..|range| - 3])
    else None
  }

  /** The range string determines the prefix: a null and an empty prefix
      both mean "all versions", any other prefix is recovered exactly. */
  lemma VersionRangeRoundTrip(versionPrefix: Option<string>)
    ensures PrefixOfRange(VersionRange(versionPrefix)) ==
      if versionPrefix.None? || versionPrefix.value == "" then None else versionPrefix
  {
  }

  datatype VersionRangeRequest = VersionRangeRequest(coordinates: string, repositories: seq<RemoteRepository>, context: string)

  /** The request `allVersions` builds: `group:artifact:range` over the
      snapshot list or the release list, with an empty request context. */
  function VersionRangeRequestFor(e: Engine, groupId: Option<string>, artifactId: Option<string>,
                                  versionPrefix: Option<string>, snapshot: bool): (req: VersionRangeRequest)
    ensures req.coordinates == Text(groupId) + ":" + Text(artifactId) + ":" + VersionRange(versionPrefix)
    ensures snapshot ==> req.repositories == e.remoteSnapshotRepositories
    ensures !snapshot ==> req.repositories == e.remoteReleaseRepositories
    ensures req.context == ""
  {
    VersionRangeRequest(
      Text(groupId) + ":" + Text(artifactId) + ":" + VersionRange(versionPrefix),
      if snapshot then e.remoteSnapshotRepositories else e.remoteReleaseRepositories,
      "")
  }

  /** Whatever the group and artifact, the requested coordinates end in the
      version range of the prefix. */
  lemma VersionRangeRequestEndsWithRange(e: Engine, groupId: Option<string>, artifactId: Option<string>,
                                         versionPrefix: Option<string>, snapshot: bool)
    ensures EndsWith(VersionRangeRequestFor(e, groupId, artifactId, versionPrefix, snapshot).coordinates,
                     ":" + VersionRange(versionPrefix))
  {
    var coordinates := Text(groupId) + ":" + Text(artifactId);
    var range := VersionRange(versionPrefix);
    assert coordinates + ":" + range == coordinates + (":" + range);
    EndsWithConcat(coordinates, ":" + range);
  }

  /** A version lookup asks exactly the configured repositories serving the
      wanted kind, in configured order. */
  lemma VersionRequestRepositories(e: Engine, groupId: Option<string>, artifactId: Option<string>,
                                   versionPrefix: Option<string>, snapshot: bool)
    requires e.Valid()
    ensures VersionRangeRequestFor(e, groupId, artifactId, versionPrefix, snapshot).repositories
      == EnabledRepositories(e.remoteRepositories, snapshot)
    ensures forall r ::
      (r in VersionRangeRequestFor(e, groupId, artifactId, versionPrefix, snapshot).repositories
       <==> r in e.remoteRepositories && r.Policy(snapshot).enabled)
  {
    EnabledRepositoriesMembers(e.remoteRepositories, snapshot);
  }

  /** What `allVersions` makes of the resolver's answer: the reported
      versions, or an empty list when the resolver throws. */
  predicate ListOrEmpty(result: seq<Version>, outcome: Outcome<seq<Version>>) {
    && (outcome.Returned? ==> result == outcome.value)
    && (outcome.Threw? ==> result == [])
  }

  /** `allVersions`: the versions the resolver reports for the request, or no
      versions when it throws. */
  function AllVersions(e: Engine, groupId: Option<string>, artifactId: Option<string>,
                       versionPrefix: Option<string>, snapshot: bool,
                       resolveVersionRange: VersionRangeRequest -> Outcome<seq<Version>>): (versions: seq<Version>)
    ensures ListOrEmpty(versions, resolveVersionRange(VersionRangeRequestFor(e, groupId, artifactId, versionPrefix, snapshot)))
  {
    match resolveVersionRange(VersionRangeRequestFor(e, groupId, artifactId, versionPrefix, snapshot))
    case Returned(versions) => versions
    case Threw => []
  }

  /** `allVersions` without the snapshot flag: release versions. */
  function AllVersionsWithPrefix(e: Engine, groupId: Option<string>, artifactId: Option<string>,
                                 versionPrefix: Option<string>,
                                 resolveVersionRange: VersionRangeRequest -> Outcome<seq<Version>>): (versions: seq<Version>)
    ensures ListOrEmpty(versions, resolveVersionRange(VersionRangeRequestFor(e, groupId, artifactId, versionPrefix, false)))
  {
    AllVersions(e, groupId, artifactId, versionPrefix, false, resolveVersionRange)
  }

  /** `allVersions` without a prefix: every version of the wanted kind. */
  function AllVersionsOfKind(e: Engine, groupId: Option<string>, artifactId: Option<string>, snapshot: bool,
                             resolveVersionRange: VersionRangeRequest -> Outcome<seq<Version>>): (versions: seq<Version>)
    ensures ListOrEmpty(versions, resolveVersionRange(VersionRangeRequestFor(e, groupId, artifactId, None, snapshot)))
  {
    AllVersions(e, groupId, artifactId, None, snapshot, resolveVersionRange)
  }

  /** `allVersions` with only coordinates: every release version, range "[0,)". */
  function AllReleaseVersions(e: Engine, groupId: Option<string>, artifactId: Option<string>,
                              resolveVersionRange: VersionRangeRequest -> Outcome<seq<Version>>): (versions: seq<Version>)
    ensures ListOrEmpty(versions, resolveVersionRange(
      VersionRangeRequest(Text(groupId) + ":" + Text(artifactId) + ":" + FullRange, e.remoteReleaseRepositories, "")))
  {
    AllVersionsOfKind(e, groupId, artifactId, false, resolveVersionRange)
  }

  // ------------------------------------------------------------- artifacts

  /** The search order of artifact and dependency requests: the local
      repository, then every configured repository in order, then every
      additional repository in order. */
  function SearchRepositories(e: Engine, additionalRepositories: seq<RemoteRepository>): (repos: seq<RemoteRepository>)
    ensures |repos| == 1 + |e.remoteRepositories| + |additionalRepositories|
    ensures repos[0] == LocalRepository(e.localRepositoryPath)
    ensures forall i :: 0 <= i < |e.remoteRepositories| ==> repos[1 + i] == e.remoteRepositories[i]
    ensures forall j :: 0 <= j < |additionalRepositories| ==>
      repos[1 + |e.remoteRepositories| + j] == additionalRepositories[j]
  {
    [LocalRepository(e.localRepositoryPath)] + e.remoteRepositories + additionalRepositories
  }

  datatype ArtifactRequest = ArtifactRequest(artifact: Aether.Artifact, repositories: seq<RemoteRepository>, context: string)

  /** What `resolveArtifact` makes of the resolver's answer: the resolved
      artifact, or null when the resolver throws. */
  predicate ArtifactOrNull(resolved: Option<Aether.Artifact>, outcome: Outcome<Aether.Artifact>) {
    && (outcome.Returned? ==> resolved == Some(outcome.value))
    && (outcome.Threw? ==> resolved == None)
  }

  /** `resolveArtifact`: asks the resolver for `artifact` over the search order. */
  method ResolveArtifact(e: Engine, artifact: Aether.Artifact, additionalRepositories: seq<RemoteRepository>,
                         resolveArtifact: ArtifactRequest -> Outcome<Aether.Artifact>)
    returns (resolved: Option<Aether.Artifact>)
    ensures ArtifactOrNull(resolved, resolveArtifact(ArtifactRequest(artifact, SearchRepositories(e, additionalRepositories), "")))
  {
    var repositories := [LocalRepository(e.localRepositoryPath)];
    repositories := repositories + e.remoteRepositories;
    repositories := repositories + additionalRepositories;
    var request := ArtifactRequest(artifact, repositories, "");
    resolved := None;
    match resolveArtifact(request)
    case Returned(result) =>
      resolved := Some(result);
    case Threw =>
  }

  /** `resolveArtifact` without additional repositories. */
  method ResolveArtifactFromConfigured(e: Engine, artifact: Aether.Artifact,
                                       resolveArtifact: ArtifactRequest -> Outcome<Aether.Artifact>)
    returns (resolved: Option<Aether.Artifact>)
    ensures ArtifactOrNull(resolved, resolveArtifact(
      ArtifactRequest(artifact, [LocalRepository(e.localRepositoryPath)] + e.remoteRepositories, "")))
  {
    resolved := ResolveArtifact(e, artifact, [], resolveArtifact);
    assert SearchRepositories(e, []) == [LocalRepository(e.localRepositoryPath)] + e.remoteRepositories;
  }

  // ---------------------------------------------------------- dependencies

  /** A dependency filter decides about a node, here the dependency it
      carries, given the dependencies on the path above it. */
  type DependencyFilter = (Aether.Dependency, seq<Aether.Dependency>) -> bool

  datatype CollectRequest = CollectRequest(
    root: Aether.Dependency,
    repositories: seq<RemoteRepository>,
    managedDependencies: seq<Aether.Dependency>)

  datatype DependencyRequest = DependencyRequest(collectRequest: CollectRequest, filter: DependencyFilter)

  /** `EmptyDependencyFilter`: accepts every node. */
  function EmptyDependencyFilter(node: Aether.Dependency, parents: seq<Aether.Dependency>): (accepted: bool)
    ensures accepted
  {
    true
  }

  /** The root of the collection: the artifact with an empty scope, not
      optional, without exclusions. */
  function RootDependency(artifact: Aether.Artifact): (root: Aether.Dependency)
    ensures root.artifact == artifact && root.scope == Some("")
    ensures !root.optional && root.exclusions == []
  {
    Aether.Dependency(artifact, Some(""), false, [])
  }

  /** The request `allDependencies` builds: collection from the root over
      the search order, with the managed dependencies and the filter. */
  function DependencyRequestFor(e: Engine, artifact: Aether.Artifact, managedDependencies: seq<Aether.Dependency>,
                                filter: DependencyFilter, additionalRepositories: seq<RemoteRepository>): (req: DependencyRequest)
    ensures req.collectRequest.root == RootDependency(artifact)
    ensures req.collectRequest.repositories == SearchRepositories(e, additionalRepositories)
    ensures req.collectRequest.managedDependencies == managedDependencies
    ensures forall node, parents :: req.filter(node, parents) == filter(node, parents)
  {
    DependencyRequest(
      CollectRequest(RootDependency(artifact), SearchRepositories(e, additionalRepositories), managedDependencies),
      filter)
  }

  /** What `allDependencies` makes of the resolver's answer: the set of the
      reported artifacts, or the empty set when the resolver throws. */
  predicate SetOrEmpty(results: set<Aether.Artifact>, outcome: Outcome<seq<Aether.Artifact>>) {
    && (outcome.Returned? ==> results == set a | a in outcome.value)
    && (outcome.Threw? ==> results == {})
  }

  /** `allDependencies`: collects the artifacts of the resolved transitive
      dependencies into a set. */
  method AllDependencies(e: Engine, artifact: Aether.Artifact, managedDependencies: seq<Aether.Dependency>,
                         filter: DependencyFilter, additionalRepositories: seq<RemoteRepository>,
                         resolveDependencies: DependencyRequest -> Outcome<seq<Aether.Artifact>>)
    returns (results: set<Aether.Artifact>)
    ensures SetOrEmpty(results, resolveDependencies(
      DependencyRequestFor(e, artifact, managedDependencies, filter, additionalRepositories)))
  {
    var repositories := [LocalRepository(e.localRepositoryPath)];
    repositories := repositories + e.remoteRepositories;
    repositories := repositories + additionalRepositories;
    var collectRequest := CollectRequest(RootDependency(artifact), repositories, managedDependencies);
    var request := DependencyRequest(collectRequest, filter);
    results := {};
    match resolveDependencies(request)
    case Returned(artifactResults) =>
      for i := 0 to |artifactResults|
        invariant results == set a | a in artifactResults[..i]
      {
        assert artifactResults[..i + 1] == artifactResults[..i] + [artifactResults[i]];
        results := results + {artifactResults[i]};
      }
      assert artifactResults[..|artifactResults|] == artifactResults;
    case Threw =>
  }

  /** `allDependencies` without additional repositories. */
  method AllDependenciesFromConfigured(e: Engine, artifact: Aether.Artifact, managedDependencies: seq<Aether.Dependency>,
                                       filter: DependencyFilter,
                                       resolveDependencies: DependencyRequest -> Outcome<seq<Aether.Artifact>>)
    returns (results: set<Aether.Artifact>)
    ensures SetOrEmpty(results, resolveDependencies(DependencyRequestFor(e, artifact, managedDependencies, filter, [])))
  {
    results := AllDependencies(e, artifact, managedDependencies, filter, [], resolveDependencies);
  }

  /** `allDependencies` with managed dependencies and the accept-all filter. */
  method AllDependenciesManaged(e: Engine, artifact: Aether.Artifact, managedDependencies: seq<Aether.Dependency>,
                                resolveDependencies: DependencyRequest -> Outcome<seq<Aether.Artifact>>)
    returns (results: set<Aether.Artifact>)
    ensures SetOrEmpty(results, resolveDependencies(
      DependencyRequestFor(e, artifact, managedDependencies, EmptyDependencyFilter, [])))
  {
    results := AllDependenciesFromConfigured(e, artifact, managedDependencies, EmptyDependencyFilter, resolveDependencies);
  }

  /** `allDependencies` with a filter and no managed dependencies. */
  method AllDependenciesFiltered(e: Engine, artifact: Aether.Artifact, filter: DependencyFilter,
                                 resolveDependencies: DependencyRequest -> Outcome<seq<Aether.Artifact>>)
    returns (results: set<Aether.Artifact>)
    ensures SetOrEmpty(results, resolveDependencies(DependencyRequestFor(e, artifact, [], filter, [])))
  {
    results := AllDependenciesFromConfigured(e, artifact, [], filter, resolveDependencies);
  }

  /** `allDependencies` with only the artifact: no managed dependencies, the
      accept-all filter, no additional repositories. */
  method AllDependenciesOf(e: Engine, artifact: Aether.Artifact,
                           resolveDependencies: DependencyRequest -> Outcome<seq<Aether.Artifact>>)
    returns (results: set<Aether.Artifact>)
    ensures SetOrEmpty(results, resolveDependencies(DependencyRequestFor(e, artifact, [], EmptyDependencyFilter, [])))
  {
    results := AllDependenciesManaged(e, artifact, [], resolveDependencies);
  }
}
