/**
 * The contract of an aspect loader extension: the reflection targets it
 * declares, whether it works on the reflection point itself or on each of
 * its annotations, a `supports` test and a `load` that produces items.
 * Concrete extensions are not part of this model; an extension here is any
 * pair of total functions with that shape.
 */
module LoaderExtension {
  import opened Aop
  import opened Merging

  /** The reflection target an extension is registered for. The loader only
      ever consults the class, method and property buckets; any other target
      is stored and never read. */
  datatype Target = ClassTarget | MethodTarget | PropertyTarget | OtherTarget(name: string)

  /** REFLECTION or ANNOTATION; any other value is rejected when used. */
  datatype Kind = ReflectionKind | AnnotationKind | UnknownKind(name: string)

  /** What `getTarget` returns: one target or an array of them. */
  datatype TargetSpec = OneTarget(target: Target) | TargetList(targets: seq<Target>)

  /** A loader extension. `supports` and `load` receive the annotation only
      when the extension is of the annotation kind. */
  datatype Extension = Extension(
    target: TargetSpec,
    kind: Kind,
    supports: (Aspect, Point, Option<Annotation>) -> bool,
    load: (Aspect, Point, Option<Annotation>) -> Result<ItemMap>)

  /** `(array) $loader->getTarget()`: a single target becomes a one-element
      list, a list stays as it is. */
  function TargetArray(spec: TargetSpec): seq<Target>
  {
    match spec
    case OneTarget(t) => [t]
    case TargetList(ts) => ts
  }
}
