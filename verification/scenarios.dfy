/** The façade's offline unit tests, restated as verified scenarios: the
    placeholder `${junit.version}` resolves to 4.12, merging with a managed
    dependency fills the missing version, and converting a dependency and an
    exclusion keeps their coordinates. */
module Scenarios {
  import opened Base
  import opened Placeholders
  import ModelObjects
  import Converters
  import Aether

  /** A fresh Maven model dependency on junit:junit with scope "test"; the
      model's type defaults to "jar". */
  function Junit(version: Option<string>): ModelObjects.Dependency {
    ModelObjects.Dependency(Some("junit"), Some("junit"), version, Some("jar"), None, Some("test"), None, None, [])
  }

  /** Resolving `${junit.version}` against junit.version=4.12 gives 4.12. */
  method ResolveJunitVersion() returns (version: Option<string>)
    ensures version == Some("4.12")
  {
    var properties := map["junit.version" := "4.12"];
    var resolved := ModelObjects.Resolve(Junit(Some("${junit.version}")), properties);
    assert Matches("${junit.version}", "junit.version") by {
      assert "${junit.version}" == "${" + "junit.version" + "}" + FinalTerminators[0];
    }
    ModelObjects.ResolvedValueSpec(Some("${junit.version}"), properties);
    assert ModelObjects.Get(resolved, ModelObjects.Version) == Some("4.12");
    version := resolved.version;
  }

  /** Merging a dependency without a version with a managed one that has
      version 4.12 gives version 4.12. */
  method MergeManagedJunitVersion() returns (version: Option<string>)
    ensures version == Some("4.12")
  {
    var merged := ModelObjects.Merge(Junit(None), Some(Junit(Some("4.12"))));
    assert ModelObjects.Get(merged, ModelObjects.Version) == Some("4.12");
    version := merged.version;
  }

  /** Converting org.apache.maven:maven-core (type jar, scope compile,
      excluding log4j:log4j) keeps group, artifact, type as extension, scope
      and the exclusion's coordinates. */
  method ConvertMavenCore(registry: Option<string> -> Option<Aether.ArtifactType>) returns (result: Aether.Dependency)
    ensures result.artifact.groupId == Some("org.apache.maven")
    ensures result.artifact.artifactId == Some("maven-core")
    ensures result.artifact.extension == Some("jar")
    ensures result.scope == Some("compile")
    ensures |result.exclusions| == 1
    ensures result.exclusions[0].groupId == Some("log4j") && result.exclusions[0].artifactId == Some("log4j")
  {
    var log4j := ModelObjects.Exclusion(Some("log4j"), Some("log4j"));
    var dependency := ModelObjects.Dependency(Some("org.apache.maven"), Some("maven-core"), None, Some("jar"),
      None, Some("compile"), None, None, [log4j]);
    result := Converters.ToAetherDependency(dependency, registry);
  }

  /** Converting the exclusion log4j:log4j keeps its group and artifact. */
  method ConvertLog4jExclusion() returns (exclusion: Aether.Exclusion)
    ensures exclusion.groupId == Some("log4j") && exclusion.artifactId == Some("log4j")
  {
    exclusion := Converters.ToAetherExclusion(ModelObjects.Exclusion(Some("log4j"), Some("log4j")));
  }
}
