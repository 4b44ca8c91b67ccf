/** Converting Maven model dependencies and exclusions into the resolver
    library's dependencies and exclusions. */
module Converters {
  import opened Base
  import ModelObjects
  import Aether

  const Wildcard := "*"

  /** An exclusion keeps its group and artifact and excludes every
      classifier and every extension of them. */
  function ToAetherExclusion(exclusion: ModelObjects.Exclusion): (x: Aether.Exclusion)
    ensures x.groupId == exclusion.groupId && x.artifactId == exclusion.artifactId
    ensures x.classifier == Wildcard && x.extension == Wildcard
  {
    Aether.Exclusion(exclusion.groupId, exclusion.artifactId, Wildcard, Wildcard)
  }

  /** The Maven exclusion an Aether exclusion was made from. */
  function FromAetherExclusion(x: Aether.Exclusion): ModelObjects.Exclusion {
    ModelObjects.Exclusion(x.groupId, x.artifactId)
  }

  /** Exclusion conversion loses nothing: it is undone by FromAetherExclusion. */
  lemma ExclusionRoundTrip(exclusion: ModelObjects.Exclusion)
    ensures FromAetherExclusion(ToAetherExclusion(exclusion)) == exclusion
  {
  }

  /** The artifact type used for a dependency: the registry's entry for its
      type, or a default type made from the type string when there is none. */
  function ArtifactTypeFor(typeName: Option<string>, registry: Option<string> -> Option<Aether.ArtifactType>): (t: Aether.ArtifactType)
    ensures registry(typeName).Some? ==> t == registry(typeName).value
    ensures registry(typeName).None? ==> t == Aether.DefaultArtifactType(typeName)
  {
    match registry(typeName)
    case Some(registered) => registered
    case None => Aether.DefaultArtifactType(typeName)
  }

  /** Converts a Maven model dependency: coordinates, type (as the extension),
      scope and optional flag are carried over, a system path becomes the
      artifact's local-path property, and the exclusions are converted one by
      one in order. */
  method ToAetherDependency(dependency: ModelObjects.Dependency, registry: Option<string> -> Option<Aether.ArtifactType>)
    returns (result: Aether.Dependency)
    ensures result.artifact.groupId == dependency.groupId
    ensures result.artifact.artifactId == dependency.artifactId
    ensures result.artifact.classifier == dependency.classifier
    ensures result.artifact.extension == dependency.typeName
    ensures result.artifact.version == dependency.version
    ensures result.artifact.artifactType == Some(ArtifactTypeFor(dependency.typeName, registry))
    ensures Aether.LocalPath in result.artifact.properties <==> dependency.systemPath.Some?
    ensures dependency.systemPath.Some? ==> result.artifact.properties == map[Aether.LocalPath := dependency.systemPath.value]
    ensures dependency.systemPath.None? ==> result.artifact.properties == map[]
    ensures result.scope == dependency.scope
    ensures result.optional == ModelObjects.IsOptional(dependency)
    ensures |result.exclusions| == |dependency.exclusions|
    ensures forall i :: 0 <= i < |dependency.exclusions| ==> result.exclusions[i] == ToAetherExclusion(dependency.exclusions[i])
  {
    var artifactType := ArtifactTypeFor(dependency.typeName, registry);
    var props: map<string, string> := map[];
    if dependency.systemPath.Some? {
      props := props[Aether.LocalPath := dependency.systemPath.value];
    }
    var artifact := Aether.Artifact(dependency.groupId, dependency.artifactId, dependency.classifier,
      dependency.typeName, dependency.version, props, Some(artifactType));
    var exclusions: seq<Aether.Exclusion> := [];
    for i := 0 to |dependency.exclusions|
      invariant |exclusions| == i
      invariant forall j :: 0 <= j < i ==> exclusions[j] == ToAetherExclusion(dependency.exclusions[j])
    {
      exclusions := exclusions + [ToAetherExclusion(dependency.exclusions[i])];
    }
    result := Aether.Dependency(artifact, dependency.scope, ModelObjects.IsOptional(dependency), exclusions);
  }
}
