/**
 * The declarative per-class metadata that the adapter reads through reflection
 * (the @GsonPolymorph, @GsonPolymorphName and @GsonPolymorphAltName
 * annotations), the wire styles, and the errors the adapter raises.
 */
module Metadata {
  import opened Wrappers

  /**
   * A class together with the annotations the adapter looks at. Two values are
   * the same class exactly when they are equal.
   *  - isRoot: carries @GsonPolymorph (the annotation is not inherited, so a
   *    subclass is a root only when it is annotated itself);
   *  - explicitName: the value of @GsonPolymorphName, if present;
   *  - altNames: the values of @GsonPolymorphAltName, empty when absent.
   */
  datatype ClassInfo = ClassInfo(
    qualifiedName: string,
    simpleName: string,
    isRoot: bool,
    explicitName: Option<string>,
    altNames: seq<string>)

  /** One polymorphic family as the classpath scan reports it: a root and its subclasses. */
  datatype Family = Family(root: ClassInfo, subclasses: seq<ClassInfo>)

  /** How the discriminator is represented in the serialized JSON. */
  datatype PolymorphStyle =
    | Property      // {name: payload}
    | Array         // [name, payload]
    | TypeProperty  // the payload object with an extra member typePropertyName: name

  /** Everything the adapter throws, as values. */
  datatype Error =
      // the default name extractor met a class whose simple name is empty
    | EmptySimpleName(cls: ClassInfo)
      // two classes of one family share a name (raised while building the registry)
    | NameCollision(subclass: ClassInfo, existing: ClassInfo, root: ClassInfo, name: string)
      // a root type is requested that the scan never saw
    | BaseClassNotScanned(base: ClassInfo)
      // a discriminator read from the input has no entry in the family
    | UnknownSubType(name: string, base: ClassInfo)
      // a value of a class outside the family is written (a NullPointerException in the source)
    | UnregisteredClass(cls: ClassInfo)
      // the input does not have the shape the style requires (thrown by the JSON reader)
    | Malformed
      // TYPE_PROPERTY: the payload tree is not a JSON object
    | NotAnObject
      // the payload codec rejected its input
    | PayloadError(message: string)
}
