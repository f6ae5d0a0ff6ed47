/**
 * The values the aspect loader works on: the items loader extensions produce
 * (pointcuts and advisors), the errors the loader reports, and the reflected
 * view of an aspect class (its annotations, methods and properties).
 *
 * Reflection and the annotation reader are external to the loader; here an
 * aspect arrives already reflected, each point carrying the annotations the
 * reader would return for it.
 */
module Aop {

  /** A pointcut: an already-parsed predicate over join points, opaque here. */
  datatype Pointcut = Pointcut(expression: string)

  /** An advisor: a pointcut bound to a piece of advice, both opaque here. */
  datatype Advisor = Advisor(pointcut: string, advice: string)

  /** What a loader extension may return under an id. Items that are neither
      a pointcut nor an advisor are loaded but never registered. */
  datatype Item =
    | PointcutItem(pointcut: Pointcut)
    | AdvisorItem(advisor: Advisor)
    | OtherItem(description: string)

  /** The exceptions of the loading pipeline. */
  datatype Error =
    | UnsupportedLoaderKind(kind: string)   // InvalidArgumentException in loadFrom
    | UnsupportedPoint(pointClass: string)  // InvalidArgumentException in getAnnotations
    | ExtensionFailure(message: string)     // whatever an extension's load throws
    | NotFound(id: string)                  // the container's OutOfBoundsException

  datatype Result<T> = Ok(value: T) | Err(error: Error)

  datatype Option<T> = None | Some(value: T)

  /** Outcome of an operation that returns nothing but may throw. */
  datatype Status = Done | Failed(error: Error)

  /** An annotation object as the annotation reader yields it. */
  datatype Annotation = Annotation(annotationClass: string, value: string)

  /** A reflected method or property, with its annotations in reader order. */
  datatype Member = Member(name: string, annotations: seq<Annotation>)

  /** An aspect as reflection sees it: its id (the class name), the file that
      defines it, its class-level annotations, and its methods and properties
      in the order reflection lists them. */
  datatype Aspect = Aspect(
    id: string,
    fileName: string,
    annotations: seq<Annotation>,
    methods: seq<Member>,
    properties: seq<Member>)

  /** A reflection point handed to loader extensions. ForeignPoint stands for
      any other reflection object, named by its class. */
  datatype Point =
    | ClassPoint(member: Member)
    | MethodPoint(member: Member)
    | PropertyPoint(member: Member)
    | ForeignPoint(pointClass: string)

  /** The reflection of the aspect's own class. */
  function ClassOf(aspect: Aspect): Point
  {
    ClassPoint(Member(aspect.id, aspect.annotations))
  }
}
