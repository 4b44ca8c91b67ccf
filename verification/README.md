# MavenUtils: a verified model of the façade's own logic

`MavenUtils` is a static façade over the Eclipse Aether artifact resolver.
It configures remote repositories, lists the versions of an artifact,
resolves (downloads) one artifact, and collects an artifact's transitive
dependencies. It also has two utilities on Maven model objects:
`resolve` substitutes `${property}` placeholders, and `merge` overlays one
dependency onto another. It converts Maven model dependencies and
exclusions into Aether ones.

Aether does the resolving itself: version-range expansion, downloading and
graph collection. Here, each Aether call is a parameter of the operation
that makes it. The parameter is a function from the request to an
`Outcome`, which either returns a value or throws the checked exception
that the façade catches. The model states which request the façade builds
and what the façade returns for each outcome.

Modules:

- `Base` (base.dfy): nullable references (`Option`), the `Outcome` of a library call, `endsWith`, and Java's rendering of a null string.
- `Repositories` (repositories.dfy): repository policies, `initRemoteRepositories`, the release/snapshot filter and its partition lemmas, and the `local` repository.
- `Placeholders` (placeholders.dfy): when a string is a `${name}` placeholder, with the semantics of the Java regular expression used.
- `ModelObjects` (model_objects.dfy): the Maven model `Dependency` as a record of nullable fields, plus `resolve` and `merge`. Each is a loop over the fields that writes into a copy.
- `Aether` (aether.dfy): the resolver's artifact, exclusion and dependency, recorded as the constructor arguments this code passes.
- `Converters` (converters.dfy): `mavenExclusion2AetherExclusion` and `mavenDependency2AetherDependency`.
- `Facade` (facade.dfy): the static state (`Engine`) and its initializer, the version range, the request assembly and error fallbacks of `allVersions`, `resolveArtifact` and `allDependencies`, their overloads, and `EmptyDependencyFilter`.
- `Scenarios` (scenarios.dfy): the offline unit tests, restated as verified methods.

The code's behaviour is modelled where its comments say otherwise:

- `merge` lets every non-null field of `target` override `base`. It does not only fill the fields that are null in `base`, which is what its doc comment at MavenUtils.java:288-289 describes.

A configured repository's URL decides what it serves. A URL that ends in `snapshots` gets releases disabled and snapshots enabled ("always"). Every other URL gets releases enabled ("never") and snapshots disabled.

The placeholder test follows Java's regular-expression semantics. The name may not contain a line terminator. The end anchor also matches just before one final line terminator. So `${x}` followed by a single line break is resolved too.

## Model

| member | source | states |
|---|---|---|
| `Repositories.ConfiguredRepository` | src/main/java/com/github/zxfun/maven/util/MavenUtils.java:104-118 | The snapshot policy is enabled iff the URL ends in "snapshots", and the release policy iff it does not. So exactly one of the two is enabled. Release updates "never", snapshot updates "always", the checksum policy is empty, and the id, URL and "default" layout are kept. |
| `Repositories.InitRemoteRepositories` | src/main/java/com/github/zxfun/maven/util/MavenUtils.java:98-121 | Exactly one repository per configured entry, in entry order, each built by `ConfiguredRepository`. Each serves exactly one kind. |
| `Repositories.EnabledRepositories` | src/main/java/com/github/zxfun/maven/util/MavenUtils.java:72-79 | The filtered list is no longer than the input, and every repository in it has the wanted policy enabled. |
| `Repositories.EnabledRepositoriesMembers` | src/main/java/com/github/zxfun/maven/util/MavenUtils.java:72-79 | A repository is in the release (snapshot) list iff it is configured and its release (snapshot) policy is enabled. |
| `Repositories.EnabledRepositoriesAppend` | src/main/java/com/github/zxfun/maven/util/MavenUtils.java:70-81 | Filtering distributes over concatenation, so each list keeps configured order. |
| `Repositories.PartitionIsExact` | src/main/java/com/github/zxfun/maven/util/MavenUtils.java:72-81 | When each repository serves one kind, the two lists together are a permutation of the configured list. Their lengths add up to the configured count. |
| `Repositories.ListsAreDisjoint` | src/main/java/com/github/zxfun/maven/util/MavenUtils.java:72-79 | No repository is in both lists, and every configured repository is in one of them. |
| `Repositories.LocalRepository` | src/main/java/com/github/zxfun/maven/util/MavenUtils.java:175-177 | The first repository of a request has id "local", the default layout and the URL "file://" + the absolute path. Both policies are enabled, which is the builder's default. |
| `Facade.Init` | src/main/java/com/github/zxfun/maven/util/MavenUtils.java:65-82 | The static state is valid. The release and snapshot lists are exactly the configured repositories that serve each kind, in configured order. The configured list is one repository per entry. |
| `Facade.VersionRange` | src/main/java/com/github/zxfun/maven/util/MavenUtils.java:140 | The range is "[0,)" iff the prefix is null or empty. Otherwise it is "[" + prefix + ".*]". |
| `Facade.VersionRangeRoundTrip` | src/main/java/com/github/zxfun/maven/util/MavenUtils.java:140 | A non-empty prefix can be read back from its range string. Null and empty prefixes both give the full range. |
| `Facade.VersionRangeRequestFor` | src/main/java/com/github/zxfun/maven/util/MavenUtils.java:140-144 | The request names the artifact as group + ":" + artifact + ":" + the version range of the prefix, with null rendered as "null". It goes to the snapshot list when `snapshot` holds and to the release list otherwise, with an empty context. |
| `Facade.VersionRangeRequestEndsWithRange` | src/main/java/com/github/zxfun/maven/util/MavenUtils.java:140-141 | Whatever the group and artifact, the requested coordinates end in ":" followed by the version range of the prefix. |
| `Facade.VersionRequestRepositories` | src/main/java/com/github/zxfun/maven/util/MavenUtils.java:141-144 | A version lookup asks exactly the configured repositories that serve the wanted kind, in configured order: a repository is asked iff it is configured and has that kind's policy enabled. |
| `Facade.AllVersions` | src/main/java/com/github/zxfun/maven/util/MavenUtils.java:139-152 | The versions the resolver returns for that request, or an empty list when the resolver throws. |
| `Facade.AllVersionsWithPrefix` | src/main/java/com/github/zxfun/maven/util/MavenUtils.java:154-156 | Same as `AllVersions`, over the release list. |
| `Facade.AllVersionsOfKind` | src/main/java/com/github/zxfun/maven/util/MavenUtils.java:158-160 | Same as `AllVersions`, with a null prefix. |
| `Facade.AllReleaseVersions` | src/main/java/com/github/zxfun/maven/util/MavenUtils.java:162-164 | Asks for range "[0,)" over the release list, with an empty list on failure. |
| `Facade.SearchRepositories` | src/main/java/com/github/zxfun/maven/util/MavenUtils.java:174-179 | The search order is the local repository first, then every configured repository in order, then every additional one in order. Its length is 1 + configured + additional. |
| `Facade.ResolveArtifact` | src/main/java/com/github/zxfun/maven/util/MavenUtils.java:173-189 | Asks for the artifact over the search order with an empty context. Returns the resolved artifact, or null when the resolver throws. |
| `Facade.ResolveArtifactFromConfigured` | src/main/java/com/github/zxfun/maven/util/MavenUtils.java:191-193 | Searches the local repository, then the configured ones only. |
| `Facade.EmptyDependencyFilter` | src/main/java/com/github/zxfun/maven/util/MavenUtils.java:354-359 | Accepts every node. |
| `Facade.RootDependency` | src/main/java/com/github/zxfun/maven/util/MavenUtils.java:215 | The root of the collection is the artifact itself with scope "", not optional and without exclusions. |
| `Facade.DependencyRequestFor` | src/main/java/com/github/zxfun/maven/util/MavenUtils.java:208-217 | The collection starts from that root, goes over the search order, carries the caller's managed dependencies, and applies the caller's filter unchanged. |
| `Facade.AllDependencies` | src/main/java/com/github/zxfun/maven/util/MavenUtils.java:204-228 | Collects from the root (the artifact with scope "") over the search order, with the given managed dependencies and filter. Returns exactly the set of reported artifacts, or the empty set when the resolver throws. |
| `Facade.AllDependenciesFromConfigured` | src/main/java/com/github/zxfun/maven/util/MavenUtils.java:230-234 | Same, with no additional repositories. |
| `Facade.AllDependenciesManaged` | src/main/java/com/github/zxfun/maven/util/MavenUtils.java:236-238 | Same, with the accept-all filter. |
| `Facade.AllDependenciesFiltered` | src/main/java/com/github/zxfun/maven/util/MavenUtils.java:240-242 | Same, with no managed dependencies. |
| `Facade.AllDependenciesOf` | src/main/java/com/github/zxfun/maven/util/MavenUtils.java:244-246 | Same, with no managed dependencies and the accept-all filter. |
| `Placeholders.PlaceholderName` | src/main/java/com/github/zxfun/maven/util/MavenUtils.java:258-268 | A name is extracted only when the value matches `^\$\{(.+)\}$` with that name as the group. |
| `Placeholders.PlaceholderNameComplete` | src/main/java/com/github/zxfun/maven/util/MavenUtils.java:258-268 | Whenever the value is `${n}`, optionally followed by one final line terminator, with a non-empty and line-terminator-free `n`, the extracted name is `n`. |
| `Placeholders.PlaceholderNameMatches` | src/main/java/com/github/zxfun/maven/util/MavenUtils.java:258-268 | The extracted name is one the value matches with. Whenever the value is `${name}`, optionally followed by one final line terminator, with a non-empty and line-terminator-free name, that name is extracted. So the name is unique. |
| `ModelObjects.ResolvedValue` | src/main/java/com/github/zxfun/maven/util/MavenUtils.java:264-276 | A field stays null iff it was null. It changes only when it is a placeholder whose name the properties contain, and then it becomes that property's value. |
| `ModelObjects.ResolvedValueSpec` | src/main/java/com/github/zxfun/maven/util/MavenUtils.java:264-276 | A field becomes the value of property n iff it matches a placeholder named n and the properties contain n. A null field, a non-matching field or an unknown name is left unchanged. |
| `ModelObjects.Resolve` | src/main/java/com/github/zxfun/maven/util/MavenUtils.java:257-284 | Every string field of the result is the resolved value of the same field of the input. The exclusions are the input's. The input, a value, is unchanged. |
| `ModelObjects.ResolveWithoutProperties` | src/main/java/com/github/zxfun/maven/util/MavenUtils.java:262-279 | Resolving against no properties gives back the object itself. |
| `ModelObjects.Merge` | src/main/java/com/github/zxfun/maven/util/MavenUtils.java:296-316 | Each field of the result is the target's value where that is non-null, and the base's value otherwise. The exclusions come from the target. A null target makes the first getter call fail, and the fallback returns `base` itself. |
| `ModelObjects.MergeFieldwise` | src/main/java/com/github/zxfun/maven/util/MavenUtils.java:286-311 | A field null in base is filled from target. A field null in target keeps base's value. A field set in target overrides base. |
| `ModelObjects.MergeWithAllNullFields` | src/main/java/com/github/zxfun/maven/util/MavenUtils.java:299-311 | Merging with a target whose fields are all null and whose exclusions equal base's gives back base's value. |
| `ModelObjects.MergeIdempotent` | src/main/java/com/github/zxfun/maven/util/MavenUtils.java:299-311 | Merging the same target a second time changes nothing. |
| `Converters.ToAetherExclusion` | src/main/java/com/github/zxfun/maven/util/MavenUtils.java:350-352 | Group and artifact are copied, and classifier and extension are both "*". |
| `Converters.ExclusionRoundTrip` | src/main/java/com/github/zxfun/maven/util/MavenUtils.java:350-352 | The original exclusion can be read back from the converted one. |
| `Converters.ArtifactTypeFor` | src/main/java/com/github/zxfun/maven/util/MavenUtils.java:325-329 | The registry's type for the dependency's type, or a default type built from the type string when the registry has none. |
| `Converters.ToAetherDependency` | src/main/java/com/github/zxfun/maven/util/MavenUtils.java:324-342 | Copies group, artifact, classifier, version, scope, and the type as extension. Optional is Maven's reading of the optional string. The properties hold "localPath" -> systemPath iff systemPath is non-null, and are empty otherwise. The exclusions have the same count and are converted one by one in order. |
| `Scenarios.ResolveJunitVersion` | src/test/java/org/xfun/maven/util/MavenUtilsTest.java:81-92 | `${junit.version}` with junit.version=4.12 resolves to 4.12. |
| `Scenarios.MergeManagedJunitVersion` | src/test/java/org/xfun/maven/util/MavenUtilsTest.java:94-109 | A dependency without a version, merged with a managed one at 4.12, gets 4.12. |
| `Scenarios.ConvertMavenCore` | src/test/java/org/xfun/maven/util/MavenUtilsTest.java:47-68 | The converted maven-core dependency keeps group, artifact, type (as extension) and scope, and its one exclusion keeps log4j:log4j. |
| `Scenarios.ConvertLog4jExclusion` | src/test/java/org/xfun/maven/util/MavenUtilsTest.java:70-78 | The converted exclusion keeps log4j:log4j. |

## Left out

- Configuration loading through Typesafe Config (MavenUtils.java:66, 69, 100-103). The configured repositories are an input sequence of `(key, url)` pairs, in the configuration's iteration order. The local repository directory is an input absolute path.
- The service locator, `newSession` and the local repository manager (MavenUtils.java:84-96, 123-128). They are plumbing with no logic of this code's own. The session is not passed to the resolver parameters.
- The resolver's own behaviour: version-range expansion, downloading, caching and graph collection. Each call is a parameter returning a value or the caught checked exception. Exceptions of any other kind propagate in the source and are not modelled.
- Logging and `printStackTrace`.
- `AllVersions`: the parsing of the `group:artifact:range` string into an artifact (MavenUtils.java:141) is not modelled, and the request keeps the coordinate string. That parsing runs before the `try`, so coordinates the parser rejects make `allVersions` throw, for example an empty group or artifact id, or a prefix containing a space. The resolver is then never asked and no empty list is returned. The model passes every coordinate string to the resolver and does not capture this failure.
- The normalisation done by Aether's constructors, such as turning null into "". Records hold the arguments this code passes.
- The reflection mechanics of `resolve` and `merge`: method discovery, `clone`, and setters that throw or do not exist. `getManagementKey` has no setter, so it is skipped in both. Maven model `Dependency` is the only type modelled. Its `clone` does not fail, so the fallbacks at MavenUtils.java:280-283 and 312-315 are reached only through a null argument. For `merge` that path is modelled.
- `Merge`: the result shares the target's exclusion list object. Aliasing is not captured, because values have no identity.
- The unmodifiable-list and unmodifiable-set wrappers. Model values are immutable anyway.
- `java.util.Properties` defaults. The properties are a flat map.
- `Resolve`: the properties are never null here. With null properties the source fails at the first placeholder's lookup (MavenUtils.java:269) and returns the input object (280-283). A null object is not modelled either.
- `ToAetherDependency`: Maven model's `isOptional` is not part of this model's source files. It is taken as "true" in any letter case.
- A dependency filter sees a graph node through the dependency that node carries.
- Java strings are UTF-16 code units and Dafny characters are Unicode scalar values. This makes no difference for the characters the placeholder test inspects.
