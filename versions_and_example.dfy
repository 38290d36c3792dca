/** How the two copies of the utilities relate where they differ: the
    instance each adds for a selected type. */
module VersionComparison {
  import opened Common
  import opened TypeModel
  import opened SelectorUtilities
  import Spiney = SpineyUtilities
  import Lbg = LbgUtilities

  /** For a type that is not a UnityEngine.Object, the LBG copy's
      GetInstanceFromType makes the same choice as the Spiney copy; for a
      UnityEngine.Object type only the LBG copy adds null. */
  lemma InstanceChoiceAgrees(t: TypeInfo)
    ensures !t.isUnityObject ==> Lbg.GetInstanceFromType(Some(t)) == Spiney.CreateInstance(t)
    ensures t.isUnityObject ==> Lbg.GetInstanceFromType(Some(t)) == Null != Spiney.CreateInstance(t)
  {
  }

  /** Without an OnTypesSelected action and without UnityEngine.Object types,
      both copies add the same values for the same selection. */
  lemma QueuedAddsAgree(types: seq<TypeInfo>)
    requires forall t :: t in types ==> !t.isUnityObject
    ensures Lbg.QueuedAdds(types) == Spiney.QueuedAdds(types)
  {
  }
}

/** The PlainClasses demo hierarchy: ClassBase with `[SubclassPath(SubClassName
    = "Base Class")]`, and ClassA, ClassB, ClassC with
    `[SubclassPath("Derived", "Class X")]`, all concrete. */
module PlainClassesExample {
  import opened Common
  import opened TypeModel
  import opened PathAttribute
  import opened SelectorAttribute
  import opened SelectorUtilities

  /** Builds the four attributes as the C# attribute syntax does, then the
      selector items for a ClassBase field carrying a default
      `[SubclassSelector]`, which sets no type filter. */
  method PlainClassesItems() returns (items: seq<Item>)
    ensures |items| == 4
    ensures items[0].name == "Base Class"
    ensures items[1].name == "Derived/Class A"
    ensures items[2].name == "Derived/Class B"
    ensures items[3].name == "Derived/Class C"
  {
    var baseAttr := new SubclassPathAttribute();
    baseAttr.SetSubClassName(Some("Base Class"));
    var baseMeta := baseAttr.Meta();
    var aAttr := new SubclassPathAttribute.WithPathAndName(Some("Derived"), Some("Class A"));
    var aMeta := aAttr.Meta();
    var bAttr := new SubclassPathAttribute.WithPathAndName(Some("Derived"), Some("Class B"));
    var bMeta := bAttr.Meta();
    var cAttr := new SubclassPathAttribute.WithPathAndName(Some("Derived"), Some("Class C"));
    var cMeta := cAttr.Meta();
    assert baseMeta == PathMeta(Some(""), Some("Base Class"));
    assert aMeta == PathMeta(Some("Derived"), Some("Class A"));
    assert bMeta == PathMeta(Some("Derived"), Some("Class B"));
    assert cMeta == PathMeta(Some("Derived"), Some("Class C"));

    var classBase := TypeInfo(0, "ClassBase", "Class Base", false, true, false, Some(baseMeta));
    var classA := TypeInfo(1, "ClassA", "Class A", false, true, false, Some(aMeta));
    var classB := TypeInfo(2, "ClassB", "Class B", false, true, false, Some(bMeta));
    var classC := TypeInfo(3, "ClassC", "Class C", false, true, false, Some(cMeta));
    FixtureLabels(classBase, classA, classB, classC);

    var selector := new SubclassSelectorAttribute();
    var noFilter := FilterOf(selector, ValueResolver(false, t => true));
    var registry := [classA, classB, classC];
    FilterAllOrNone(registry, t => Offered(noFilter, t));
    var types := DerivedTypes(classBase, registry, noFilter);
    assert types == [classBase] + registry;
    items := Labelled(types);
  }

  /** The labels the demo types get from their attributes. */
  lemma FixtureLabels(classBase: TypeInfo, classA: TypeInfo, classB: TypeInfo, classC: TypeInfo)
    requires classBase.pathAttr == Some(PathMeta(Some(""), Some("Base Class")))
    requires classA.pathAttr == Some(PathMeta(Some("Derived"), Some("Class A")))
    requires classB.pathAttr == Some(PathMeta(Some("Derived"), Some("Class B")))
    requires classC.pathAttr == Some(PathMeta(Some("Derived"), Some("Class C")))
    ensures SubclassPath(classBase) == "Base Class"
    ensures SubclassPath(classA) == "Derived/Class A"
    ensures SubclassPath(classB) == "Derived/Class B"
    ensures SubclassPath(classC) == "Derived/Class C"
  {
  }
}
