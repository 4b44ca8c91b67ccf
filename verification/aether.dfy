/** The resolver library's objects, as the arguments this code passes to
    their constructors. What those constructors do with the arguments
    (for instance, storing a null string as an empty one) belongs to the
    library and is not part of this model. */
module Aether {
  import opened Base

  /** The artifact property under which a system-scoped dependency's file path is recorded. */
  const LocalPath := "localPath"

  /** An artifact type: one the session's type registry knows, or a default
      type made from the dependency's type string. */
  datatype ArtifactType = RegisteredType(name: string) | DefaultArtifactType(typeId: Option<string>)

  datatype Artifact = Artifact(
    groupId: Option<string>,
    artifactId: Option<string>,
    classifier: Option<string>,
    extension: Option<string>,
    version: Option<string>,
    properties: map<string, string>,
    artifactType: Option<ArtifactType>)

  datatype Exclusion = Exclusion(groupId: Option<string>, artifactId: Option<string>, classifier: string, extension: string)

  datatype Dependency = Dependency(artifact: Artifact, scope: Option<string>, optional: bool, exclusions: seq<Exclusion>)
}
