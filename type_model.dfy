/** What the selector reads of a runtime type. Reflection (TypeCache,
    IsAbstract, GetConstructor, IsAssignableFrom, GetNiceName, attribute
    lookup) is not modelled as behaviour: its answers are fields here. */
module TypeModel {
  import opened Common

  /** Identity of a System.Type; two types are the same type exactly when
      their ids are equal (the source compares Type references with ==). */
  type TypeId = nat

  /** The state of a SubclassPathAttribute as the label builder reads it.
      The attribute's HasSubClassPath/HasSubClassName flags always equal the
      predicates below (see PathAttribute.SubclassPathAttribute.Meta). */
  datatype PathMeta = PathMeta(subClassPath: Option<string>, subClassName: Option<string>)
  {
    predicate HasSubClassPath() { !IsNullOrEmpty(subClassPath) }
    predicate HasSubClassName() { !IsNullOrEmpty(subClassName) }
  }

  /** A runtime type as seen by the selector. */
  datatype TypeInfo = TypeInfo(
    id: TypeId,
    name: string,             // Type.Name
    niceName: string,         // Odin's GetNiceName()
    isAbstract: bool,         // Type.IsAbstract (interfaces included)
    hasDefaultCtor: bool,     // GetConstructor(Type.EmptyTypes) != null
    isUnityObject: bool,      // typeof(UnityEngine.Object).IsAssignableFrom(type)
    pathAttr: Option<PathMeta>) // GetAttribute<SubclassPathAttribute>()
}
