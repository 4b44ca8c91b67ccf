/** The Maven model objects the façade's `resolve` and `merge` utilities work
    on, and those two utilities. The source reaches the string fields
    through reflection (every zero-argument getter, written back through the
    matching setter of a clone); here the getters are a fixed list of fields
    and the clone is a value. */
module ModelObjects {
  import opened Base
  import opened Placeholders

  /** A Maven model exclusion: which transitive artifact to leave out. */
  datatype Exclusion = Exclusion(groupId: Option<string>, artifactId: Option<string>)

  /** A Maven model dependency. Every string field may be null; `typeName`
      is the Maven `type` and `optional` is kept as the string the model
      stores. The exclusion list is never null: its getter creates an empty
      list when none is set. */
  datatype Dependency = Dependency(
    groupId: Option<string>,
    artifactId: Option<string>,
    version: Option<string>,
    typeName: Option<string>,
    classifier: Option<string>,
    scope: Option<string>,
    systemPath: Option<string>,
    optional: Option<string>,
    exclusions: seq<Exclusion>)

  /** The string-valued properties that have both a getter and a setter. */
  datatype Field = GroupId | ArtifactId | Version | TypeName | Classifier | Scope | SystemPath | Optional

  const StringFields: seq<Field> := [GroupId, ArtifactId, Version, TypeName, Classifier, Scope, SystemPath, Optional]

  /** The getter of field `f`. */
  function Get(d: Dependency, f: Field): Option<string> {
    match f
    case GroupId => d.groupId
    case ArtifactId => d.artifactId
    case Version => d.version
    case TypeName => d.typeName
    case Classifier => d.classifier
    case Scope => d.scope
    case SystemPath => d.systemPath
    case Optional => d.optional
  }

  /** The setter of field `f`: changes that field and nothing else. */
  function Set(d: Dependency, f: Field, v: Option<string>): (r: Dependency)
    ensures Get(r, f) == v
    ensures forall g :: g != f ==> Get(r, g) == Get(d, g)
    ensures r.exclusions == d.exclusions
  {
    match f
    case GroupId => d.(groupId := v)
    case ArtifactId => d.(artifactId := v)
    case Version => d.(version := v)
    case TypeName => d.(typeName := v)
    case Classifier => d.(classifier := v)
    case Scope => d.(scope := v)
    case SystemPath => d.(systemPath := v)
    case Optional => d.(optional := v)
  }

  lemma AllFieldsListed(f: Field)
    ensures f in StringFields
  {
  }

  /** Two dependencies with the same fields and exclusions are the same. */
  lemma FieldsDetermine(a: Dependency, b: Dependency)
    requires forall f :: Get(a, f) == Get(b, f)
    requires a.exclusions == b.exclusions
    ensures a == b
  {
    assert Get(a, GroupId) == Get(b, GroupId);
    assert Get(a, ArtifactId) == Get(b, ArtifactId);
    assert Get(a, Version) == Get(b, Version);
    assert Get(a, TypeName) == Get(b, TypeName);
    assert Get(a, Classifier) == Get(b, Classifier);
    assert Get(a, Scope) == Get(b, Scope);
    assert Get(a, SystemPath) == Get(b, SystemPath);
    assert Get(a, Optional) == Get(b, Optional);
  }

  // ---------------------------------------------------------------- resolve

  /** The value `resolve` gives one string field: the property named by a
      placeholder when there is such a property, the value unchanged
      otherwise (null, not a placeholder, or an unknown name). */
  function ResolvedValue(value: Option<string>, properties: map<string, string>): (r: Option<string>)
    ensures r.None? <==> value.None?
    ensures r != value ==>
      value.Some? && PlaceholderName(value.value).Some? && PlaceholderName(value.value).value in properties
      && r == Some(properties[PlaceholderName(value.value).value])
  {
    match value
    case None => None
    case Some(s) =>
      match PlaceholderName(s)
      case Some(name) => if name in properties then Some(properties[name]) else value
      case None => value
  }

  /** A field changes exactly when it holds a placeholder whose name is a
      property; it then becomes that property's value. */
  lemma ResolvedValueSpec(value: Option<string>, properties: map<string, string>)
    ensures forall n :: value.Some? && Matches(value.value, n) && n in properties ==>
      ResolvedValue(value, properties) == Some(properties[n])
    ensures (value.None? || forall n :: Matches(value.value, n) ==> n !in properties) ==>
      ResolvedValue(value, properties) == value
  {
    if value.Some? {
      PlaceholderNameMatches(value.value);
    }
  }

  /** `result` is `obj` with every string field resolved against `properties`. */
  predicate IsResolutionOf(result: Dependency, obj: Dependency, properties: map<string, string>) {
    && (forall f :: Get(result, f) == ResolvedValue(Get(obj, f), properties))
    && result.exclusions == obj.exclusions
  }

  /** `resolve`: a copy of `obj` whose placeholder fields are replaced by
      property values; `obj` itself is a value and cannot change. */
  method Resolve(obj: Dependency, properties: map<string, string>) returns (result: Dependency)
    ensures IsResolutionOf(result, obj, properties)
  {
    result := obj;
    for i := 0 to |StringFields|
      invariant forall f :: f in StringFields[..i] ==> Get(result, f) == ResolvedValue(Get(obj, f), properties)
      invariant forall f :: f !in StringFields[..i] ==> Get(result, f) == Get(obj, f)
      invariant result.exclusions == obj.exclusions
    {
      var f := StringFields[i];
      assert StringFields[..i + 1] == StringFields[..i] + [f];
      var value := Get(obj, f);
      if value.Some? {
        var placeholder := PlaceholderName(value.value);
        if placeholder.Some? && placeholder.value in properties {
          result := Set(result, f, Some(properties[placeholder.value]));
        }
      }
    }
    forall f ensures Get(result, f) == ResolvedValue(Get(obj, f), properties) {
      AllFieldsListed(f);
      assert StringFields[..|StringFields|] == StringFields;
    }
  }

  /** With no properties, `resolve` changes nothing. */
  lemma ResolveWithoutProperties(result: Dependency, obj: Dependency)
    requires IsResolutionOf(result, obj, map[])
    ensures result == obj
  {
    forall f ensures Get(result, f) == Get(obj, f) {
      ResolvedValueSpec(Get(obj, f), map[]);
    }
    FieldsDetermine(result, obj);
  }

  // ------------------------------------------------------------------ merge

  /** `result` is `base` with every non-null field of `target` laid over it;
      the exclusion list, never null, always comes from `target`. */
  predicate IsMergeOf(result: Dependency, base: Dependency, target: Dependency) {
    && (forall f :: Get(result, f) == if Get(target, f).Some? then Get(target, f) else Get(base, f))
    && result.exclusions == target.exclusions
  }

  /** `merge`: a copy of `base` overlaid with the non-null values of
      `target`. A null `target` makes the first getter call throw; the
      exception is caught and `base` itself is returned. */
  method Merge(base: Dependency, target: Option<Dependency>) returns (result: Dependency)
    ensures target.None? ==> result == base
    ensures target.Some? ==> IsMergeOf(result, base, target.value)
  {
    if target.None? {
      return base;
    }
    var overlay := target.value;
    result := base;
    for i := 0 to |StringFields|
      invariant forall f :: f in StringFields[..i] ==>
        Get(result, f) == if Get(overlay, f).Some? then Get(overlay, f) else Get(base, f)
      invariant forall f :: f !in StringFields[..i] ==> Get(result, f) == Get(base, f)
      invariant result.exclusions == base.exclusions
    {
      var f := StringFields[i];
      assert StringFields[..i + 1] == StringFields[..i] + [f];
      var value := Get(overlay, f);
      if value.Some? {
        result := Set(result, f, value);
      }
    }
    result := result.(exclusions := overlay.exclusions);
    forall f ensures Get(result, f) == if Get(overlay, f).Some? then Get(overlay, f) else Get(base, f) {
      AllFieldsListed(f);
      assert StringFields[..|StringFields|] == StringFields;
      assert Get(result, f) == Get(result.(exclusions := base.exclusions), f);
    }
  }

  /** A field that is null in `base` is filled from `target`; a field that is
      null in `target` keeps `base`'s value; a field set in both takes
      `target`'s value. */
  lemma MergeFieldwise(result: Dependency, base: Dependency, target: Dependency, f: Field)
    requires IsMergeOf(result, base, target)
    ensures Get(base, f).None? ==> Get(result, f) == Get(target, f)
    ensures Get(target, f).None? ==> Get(result, f) == Get(base, f)
    ensures Get(target, f).Some? ==> Get(result, f) == Get(target, f)
  {
  }

  /** Merging with a target whose fields are all null and whose exclusions
      equal the base's gives back the base. */
  lemma MergeWithAllNullFields(result: Dependency, base: Dependency, target: Dependency)
    requires IsMergeOf(result, base, target)
    requires forall f :: Get(target, f).None?
    requires target.exclusions == base.exclusions
    ensures result == base
  {
    FieldsDetermine(result, base);
  }

  /** Merging the same target a second time changes nothing more. */
  lemma MergeIdempotent(once: Dependency, twice: Dependency, base: Dependency, target: Dependency)
    requires IsMergeOf(once, base, target)
    requires IsMergeOf(twice, once, target)
    ensures twice == once
  {
    FieldsDetermine(twice, once);
  }

  /** Maven's reading of the `optional` string: true exactly when it is
      "true" in any letter case. */
  predicate IsOptional(d: Dependency) {
    match d.optional
    case None => false
    case Some(s) =>
      |s| == 4 && (s[0] == 't' || s[0] == 'T') && (s[1] == 'r' || s[1] == 'R')
      && (s[2] == 'u' || s[2] == 'U') && (s[3] == 'e' || s[3] == 'E')
  }
}
