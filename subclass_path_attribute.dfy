/** Attributes/SubclassPathAttribute.cs: the per-type label metadata.
    Each property setter stores the value and recomputes its Has* flag. */
module PathAttribute {
  import opened Common
  import opened TypeModel

  class SubclassPathAttribute {
    var subClassPath: Option<string>
    var subClassName: Option<string>
    var hasSubClassPath: bool
    var hasSubClassName: bool

    /** Each flag says whether its value is non-null and non-empty. */
    ghost predicate Valid()
      reads this
    {
      && hasSubClassPath == !IsNullOrEmpty(subClassPath)
      && hasSubClassName == !IsNullOrEmpty(subClassName)
    }

    /** The attribute's state as the label builder reads it; the flags agree
        with the snapshot's own predicates. */
    function Meta(): (m: PathMeta)
      reads this
      requires Valid()
      ensures m.subClassPath == subClassPath && m.subClassName == subClassName
      ensures m.HasSubClassPath() == hasSubClassPath
      ensures m.HasSubClassName() == hasSubClassName
    {
      PathMeta(subClassPath, subClassName)
    }

    /** `[SubclassPath]`: both fields empty, both flags false. */
    constructor ()
      ensures Valid()
      ensures subClassPath == Some("") && subClassName == Some("")
      ensures !hasSubClassPath && !hasSubClassName
    {
      subClassPath := Some("");
      subClassName := Some("");
      hasSubClassPath := false;
      hasSubClassName := false;
    }

    /** `[SubclassPath(path)]`: sets the path only; the name stays empty. */
    constructor WithPath(path: Option<string>)
      ensures Valid()
      ensures subClassPath == path && hasSubClassPath == !IsNullOrEmpty(path)
      ensures subClassName == Some("") && !hasSubClassName
    {
      subClassPath := Some("");
      subClassName := Some("");
      hasSubClassPath := false;
      hasSubClassName := false;
      new;
      SetSubClassPath(path);
    }

    /** `[SubclassPath(path, subclassName)]`: sets both; each flag follows its argument. */
    constructor WithPathAndName(path: Option<string>, subclassName: Option<string>)
      ensures Valid()
      ensures subClassPath == path && hasSubClassPath == !IsNullOrEmpty(path)
      ensures subClassName == subclassName && hasSubClassName == !IsNullOrEmpty(subclassName)
    {
      subClassPath := Some("");
      subClassName := Some("");
      hasSubClassPath := false;
      hasSubClassName := false;
      new;
      SetSubClassPath(path);
      SetSubClassName(subclassName);
    }

    /** The SubClassPath setter; the name and its flag are not touched. */
    method SetSubClassPath(value: Option<string>)
      requires Valid()
      modifies this`subClassPath, this`hasSubClassPath
      ensures Valid()
      ensures subClassPath == value
      ensures hasSubClassPath <==> !IsNullOrEmpty(value)
      ensures subClassName == old(subClassName) && hasSubClassName == old(hasSubClassName)
    {
      hasSubClassPath := !IsNullOrEmpty(value);
      subClassPath := value;
    }

    /** The SubClassName setter; the path and its flag are not touched. */
    method SetSubClassName(value: Option<string>)
      requires Valid()
      modifies this`subClassName, this`hasSubClassName
      ensures Valid()
      ensures subClassName == value
      ensures hasSubClassName <==> !IsNullOrEmpty(value)
      ensures subClassPath == old(subClassPath) && hasSubClassPath == old(hasSubClassPath)
    {
      hasSubClassName := !IsNullOrEmpty(value);
      subClassName := value;
    }
  }
}
