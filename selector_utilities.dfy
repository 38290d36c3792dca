/** The logic the two copies of SubclassSelectorUtilities.cs share
    (Editor/ and Subclass-Selector/Editor/ hold the same text for each member
    here): derived-type discovery with its optional filter, the label of a
    type, the duplicate test over a collection's children, the field dropdown,
    the collection selector's item list and its "No Default Constructor"
    relabelling, and the collection resolver both copies add to. */
module SelectorUtilities {
  import opened Common
  import opened TypeModel
  import opened SelectorAttribute

  // ---------------------------------------------------------------------
  // Derived-type discovery (GetTypeDerivedTypes)
  // ---------------------------------------------------------------------

  /** The compiled CustomTypeFilter expression: whether compiling it failed,
      and the value it gives for a `$type`. */
  datatype ValueResolver = ValueResolver(hasError: bool, value: TypeInfo -> bool)

  /** The filter in force for one call: the attribute's HasCustomTypeFilter
      flag (no resolver is built when it is false) and the resolver. */
  datatype TypeFilter = TypeFilter(hasCustomTypeFilter: bool, resolver: ValueResolver)
  {
    /** PassesCustomTypeFilter: no resolver, or a resolver in error, passes every type. */
    predicate Passes(t: TypeInfo)
    {
      !hasCustomTypeFilter || resolver.hasError || resolver.value(t)
    }

    /** The filter lets every type through. */
    predicate PassesAll()
    {
      !hasCustomTypeFilter || resolver.hasError
    }
  }

  /** The filter a call builds from the field's attribute and the resolver
      compiled from its CustomTypeFilter expression: the resolver is consulted
      only when that expression is non-null and non-empty. */
  function FilterOf(attr: SubclassSelectorAttribute, resolver: ValueResolver): (f: TypeFilter)
    reads attr
    requires attr.Valid()
    ensures f.hasCustomTypeFilter <==> !IsNullOrEmpty(attr.customTypeFilter)
    ensures f.resolver == resolver
    ensures IsNullOrEmpty(attr.customTypeFilter) ==> f.PassesAll()
  {
    TypeFilter(attr.hasCustomTypeFilter, resolver)
  }

  /** Keeps a registry type: `Where(AbstractTypeFilter)` then the custom filter. */
  predicate Offered(f: TypeFilter, t: TypeInfo)
  {
    !t.isAbstract && f.Passes(t)
  }

  /** GetTypeDerivedTypes: the base type first when it is concrete and passes,
      then every concrete registry type that passes, in registry order.
      `registry` is TypeCache.GetTypesDerivedFrom(baseType). */
  function DerivedTypes(baseType: TypeInfo, registry: seq<TypeInfo>, f: TypeFilter): (r: seq<TypeInfo>)
    ensures |r| <= |registry| + 1
    ensures forall t :: t in r ==> !t.isAbstract && f.Passes(t)
    ensures forall t :: t in r ==> t == baseType || t in registry
  {
    (if Offered(f, baseType) then [baseType] else []) + Filter(registry, t => Offered(f, t))
  }

  /** The base type is yielded first exactly when it is concrete and passes
      the filter; when the registry does not list the base type itself (as
      TypeCache does not), it appears nowhere else. */
  lemma DerivedTypesBaseFirst(baseType: TypeInfo, registry: seq<TypeInfo>, f: TypeFilter)
    ensures Offered(f, baseType) ==> |DerivedTypes(baseType, registry, f)| > 0 && DerivedTypes(baseType, registry, f)[0] == baseType
    ensures baseType !in registry ==> (baseType in DerivedTypes(baseType, registry, f) <==> Offered(f, baseType))
  {
  }

  /** After the base type come exactly the concrete, passing registry types:
      every occurrence of each, nothing else, in registry order. */
  lemma DerivedTypesAfterBase(baseType: TypeInfo, registry: seq<TypeInfo>, f: TypeFilter)
    ensures var r := DerivedTypes(baseType, registry, f);
      var rest := if Offered(f, baseType) then r[1..] else r;
      && IsSubsequence(rest, registry)
      && (forall t :: multiset(rest)[t] == if Offered(f, t) then multiset(registry)[t] else 0)
  {
    var r := DerivedTypes(baseType, registry, f);
    var keep := t => Offered(f, t);
    FilterExact(registry, keep);
    if Offered(f, baseType) {
      assert r[1..] == Filter(registry, keep);
    } else {
      assert r == Filter(registry, keep);
    }
  }

  /** With no filter expression, or a resolver in error, the predicate is
      never consulted: every concrete type is yielded. */
  lemma UnfilteredYieldsAllConcrete(baseType: TypeInfo, registry: seq<TypeInfo>, f: TypeFilter, g: TypeFilter)
    requires f.PassesAll() && g.PassesAll()
    ensures DerivedTypes(baseType, registry, f) == DerivedTypes(baseType, registry, g)
    ensures forall t :: t in registry && !t.isAbstract ==> t in DerivedTypes(baseType, registry, f)
    ensures !baseType.isAbstract ==> DerivedTypes(baseType, registry, f)[0] == baseType
  {
    FilterAgree(registry, t => Offered(f, t), t => Offered(g, t));
    FilterExact(registry, t => Offered(f, t));
  }

  /** A working filter that rejects every type yields nothing. */
  lemma RejectAllYieldsNothing(baseType: TypeInfo, registry: seq<TypeInfo>, f: TypeFilter)
    requires f.hasCustomTypeFilter && !f.resolver.hasError
    requires forall t :: !f.resolver.value(t)
    ensures DerivedTypes(baseType, registry, f) == []
  {
    FilterAllOrNone(registry, t => Offered(f, t));
  }

  /** A registry without repeats that does not list the base type gives a
      result without repeats. */
  lemma DerivedTypesDistinct(baseType: TypeInfo, registry: seq<TypeInfo>, f: TypeFilter)
    requires Distinct(registry) && baseType !in registry
    ensures Distinct(DerivedTypes(baseType, registry, f))
  {
    var keep := t => Offered(f, t);
    var rest := Filter(registry, keep);
    FilterDistinct(registry, keep);
    if Offered(f, baseType) {
      var r := [baseType] + rest;
      assert baseType !in rest;
      forall i, j | 0 <= i < j < |r| ensures r[i] != r[j] {
        if i == 0 {
          assert r[j] == rest[j - 1];
        } else {
          assert r[i] == rest[i - 1] && r[j] == rest[j - 1];
        }
      }
    }
  }

  // ---------------------------------------------------------------------
  // Labels (GetTypeSubclassPath)
  // ---------------------------------------------------------------------

  /** The display path of a type, '/' separating menu folders. */
  function SubclassPath(t: TypeInfo): (text: string)
    ensures t.pathAttr.None? || (!t.pathAttr.value.HasSubClassPath() && !t.pathAttr.value.HasSubClassName())
      ==> text == t.niceName
    ensures t.pathAttr.Some? && !t.pathAttr.value.HasSubClassPath() && t.pathAttr.value.HasSubClassName()
      ==> text == Leaf(t)
  {
    match t.pathAttr
    case None => t.niceName
    case Some(m) =>
      if !m.HasSubClassPath() && !m.HasSubClassName() then t.niceName
      else
        (if m.HasSubClassPath() then m.subClassPath.value + "/" else "")
        + (if m.HasSubClassName() then m.subClassName.value else t.name)
  }

  /** The four cases of the label. */
  lemma SubclassPathCases(t: TypeInfo)
    ensures t.pathAttr.None? ==> SubclassPath(t) == t.niceName
    ensures t.pathAttr.Some? ==>
      var m := t.pathAttr.value;
      && (!m.HasSubClassPath() && !m.HasSubClassName() ==> SubclassPath(t) == t.niceName)
      && (m.HasSubClassPath() && !m.HasSubClassName() ==> SubclassPath(t) == m.subClassPath.value + "/" + t.name)
      && (!m.HasSubClassPath() && m.HasSubClassName() ==> SubclassPath(t) == m.subClassName.value)
      && (m.HasSubClassPath() && m.HasSubClassName() ==> SubclassPath(t) == m.subClassPath.value + "/" + m.subClassName.value)
  {
  }

  /** The leaf of a label: the display name if one is set, else Type.Name. */
  function Leaf(t: TypeInfo): string
    requires t.pathAttr.Some?
  {
    if t.pathAttr.value.HasSubClassName() then t.pathAttr.value.subClassName.value else t.name
  }

  /** A label with a path splits back into that path, a '/', and the leaf;
      when the leaf holds no '/', the last '/' of the label is that separator,
      so the menu leaf shown for the type is exactly its leaf. */
  lemma SubclassPathSplits(t: TypeInfo)
    requires t.pathAttr.Some? && t.pathAttr.value.HasSubClassPath()
    ensures var p := t.pathAttr.value.subClassPath.value; var text := SubclassPath(t);
      && |text| == |p| + 1 + |Leaf(t)|
      && text[..|p|] == p
      && text[|p|] == '/'
      && text[|p| + 1..] == Leaf(t)
      && ('/' !in Leaf(t) ==> forall i :: |p| < i < |text| ==> text[i] != '/')
  {
  }

  /** A type and the text shown for it (ValueDropdownItem / GenericSelectorItem). */
  datatype Item = Item(name: string, value: TypeInfo)

  /** Each type paired with its label, in order. */
  function Labelled(types: seq<TypeInfo>): (items: seq<Item>)
    ensures |items| == |types|
    ensures forall i :: 0 <= i < |types| ==> items[i] == Item(SubclassPath(types[i]), types[i])
  {
    seq(|types|, i requires 0 <= i < |types| => Item(SubclassPath(types[i]), types[i]))
  }

  /** Labelling two lists one after the other labels their concatenation. */
  lemma LabelledAppend(a: seq<TypeInfo>, b: seq<TypeInfo>)
    ensures Labelled(a + b) == Labelled(a) + Labelled(b)
  {
  }

  // ---------------------------------------------------------------------
  // Duplicates (TypeExistsInPropertyChildren)
  // ---------------------------------------------------------------------

  /** Whether some child holds a value of exactly type t; a child holding a
      type derived from t does not count. `children` are the children's
      TypeOfValue. */
  method TypeExistsInPropertyChildren(children: seq<TypeId>, t: TypeId) returns (found: bool)
    ensures found <==> exists i :: 0 <= i < |children| && children[i] == t
  {
    var i := 0;
    while i < |children|
      invariant 0 <= i <= |children|
      invariant forall j :: 0 <= j < i ==> children[j] != t
    {
      if children[i] == t {
        return true;
      }
      i := i + 1;
    }
    return false;
  }

  // ---------------------------------------------------------------------
  // Field dropdown (GetSubclassSelectorDropdownItems)
  // ---------------------------------------------------------------------

  /** Whether a type stays in an element's dropdown when duplicates are not
      allowed: it is the element's own type, or no sibling holds it. */
  predicate KeptInDropdown(current: TypeId, siblings: seq<TypeId>, t: TypeInfo)
  {
    t.id == current || t.id !in siblings
  }

  /** The types shown in a field's dropdown. `parentIsCollection` is "the
      parent value property has a collection resolver", `current` the
      field's TypeOfValue, `siblings` the TypeOfValue of each of the parent's
      children (the field itself among them). */
  function DropdownTypes(types: seq<TypeInfo>, parentIsCollection: bool, allowDuplicates: bool,
                         current: TypeId, siblings: seq<TypeId>): (r: seq<TypeInfo>)
    ensures |r| <= |types|
    ensures !parentIsCollection || allowDuplicates ==> r == types
    ensures parentIsCollection && !allowDuplicates ==>
      forall t :: t in r <==> t in types && KeptInDropdown(current, siblings, t)
  {
    if !parentIsCollection || allowDuplicates then types
    else
      FilterExact(types, t => KeptInDropdown(current, siblings, t));
      Filter(types, t => KeptInDropdown(current, siblings, t))
  }

  /** GetSubclassSelectorDropdownItems: the derived types that stay, each
      with its label. */
  function DropdownItems(baseType: TypeInfo, registry: seq<TypeInfo>, f: TypeFilter,
                         parentIsCollection: bool, allowDuplicates: bool,
                         current: TypeId, siblings: seq<TypeId>): (items: seq<Item>)
    ensures |items| <= |registry| + 1
    ensures forall it :: it in items ==> it.name == SubclassPath(it.value) && it.value in DerivedTypes(baseType, registry, f)
  {
    Labelled(DropdownTypes(DerivedTypes(baseType, registry, f), parentIsCollection, allowDuplicates, current, siblings))
  }

  /** Outside a collection, or with duplicates allowed, the dropdown is every
      derived type in order; otherwise it keeps, in order and with every
      occurrence, exactly the types that are the element's own or held by no
      sibling. Either way it is a subsequence of the derived types. */
  lemma DropdownTypesKeep(types: seq<TypeInfo>, parentIsCollection: bool, allowDuplicates: bool,
                          current: TypeId, siblings: seq<TypeId>)
    ensures var r := DropdownTypes(types, parentIsCollection, allowDuplicates, current, siblings);
      && IsSubsequence(r, types)
      && (!parentIsCollection || allowDuplicates ==> r == types)
      && (parentIsCollection && !allowDuplicates ==>
            forall t :: multiset(r)[t] == if KeptInDropdown(current, siblings, t) then multiset(types)[t] else 0)
  {
    var keep := t => KeptInDropdown(current, siblings, t);
    FilterExact(types, keep);
    if !parentIsCollection || allowDuplicates {
      FilterAllOrNone(types, t => true);
      FilterExact(types, t => true);
    }
  }

  /** Each dropdown item carries the label of its type, and the current
      element's type, when it is a derived type, is always offered. */
  lemma DropdownItemsLabelled(baseType: TypeInfo, registry: seq<TypeInfo>, f: TypeFilter,
                              parentIsCollection: bool, allowDuplicates: bool,
                              current: TypeInfo, siblings: seq<TypeId>)
    requires current in DerivedTypes(baseType, registry, f)
    ensures var items := DropdownItems(baseType, registry, f, parentIsCollection, allowDuplicates, current.id, siblings);
      && (forall it :: it in items ==> it.name == SubclassPath(it.value))
      && Item(SubclassPath(current), current) in items
  {
  }

  // ---------------------------------------------------------------------
  // Collection selector (OpenSubclassCollectionSelector)
  // ---------------------------------------------------------------------

  /** GenericSelectorTypeFilter: offer a type unless duplicates are barred and
      a child of the collection already holds exactly that type. */
  predicate OfferedToCollection(allowDuplicates: bool, children: seq<TypeId>, t: TypeInfo)
  {
    allowDuplicates || t.id !in children
  }

  /** The types the collection selector offers, in order. */
  function CollectionSelectorTypes(types: seq<TypeInfo>, allowDuplicates: bool, children: seq<TypeId>): (r: seq<TypeInfo>)
    ensures |r| <= |types|
    ensures forall t :: t in r ==> t in types && OfferedToCollection(allowDuplicates, children, t)
  {
    Filter(types, t => OfferedToCollection(allowDuplicates, children, t))
  }

  /** The selector's types for a list with one more type at its end. */
  lemma CollectionSelectorTypesAppend(types: seq<TypeInfo>, t: TypeInfo, allowDuplicates: bool, children: seq<TypeId>)
    ensures CollectionSelectorTypes(types + [t], allowDuplicates, children)
      == CollectionSelectorTypes(types, allowDuplicates, children)
         + (if OfferedToCollection(allowDuplicates, children, t) then [t] else [])
  {
    var keep := t => OfferedToCollection(allowDuplicates, children, t);
    FilterAppend(types, [t], keep);
    assert Filter([t], keep) == if keep(t) then [t] else [];
  }

  /** The loop that fills `selectorTypes`: for every derived type that the
      selector filter keeps, one item with the type's label, in order. */
  method CollectSelectorItems(elementType: TypeInfo, registry: seq<TypeInfo>, f: TypeFilter,
                              allowDuplicates: bool, children: seq<TypeId>)
    returns (selectorTypes: seq<Item>)
    ensures selectorTypes == Labelled(CollectionSelectorTypes(DerivedTypes(elementType, registry, f), allowDuplicates, children))
  {
    var types := DerivedTypes(elementType, registry, f);
    ghost var kept: seq<TypeInfo> := [];
    selectorTypes := [];
    var i := 0;
    while i < |types|
      invariant 0 <= i <= |types|
      invariant kept == CollectionSelectorTypes(types[..i], allowDuplicates, children)
      invariant selectorTypes == Labelled(kept)
    {
      var t := types[i];
      assert types[..i + 1] == types[..i] + [t];
      CollectionSelectorTypesAppend(types[..i], t, allowDuplicates, children);
      var duplicate := false;
      if !allowDuplicates {
        duplicate := TypeExistsInPropertyChildren(children, t.id);
        assert duplicate <==> t.id in children;
      }
      if allowDuplicates || !duplicate {
        LabelledAppend(kept, [t]);
        selectorTypes := selectorTypes + Labelled([t]);
        kept := kept + [t];
      }
      i := i + 1;
    }
    assert types[..|types|] == types;
  }

  /** With duplicates barred, the selector offers exactly the derived types
      that no child of the collection holds, in order, every occurrence; with
      duplicates allowed it offers every derived type. */
  lemma CollectionSelectorOffersAbsent(types: seq<TypeInfo>, allowDuplicates: bool, children: seq<TypeId>)
    ensures var r := CollectionSelectorTypes(types, allowDuplicates, children);
      && IsSubsequence(r, types)
      && (allowDuplicates ==> r == types)
      && (!allowDuplicates ==> forall t :: multiset(r)[t] == if t.id in children then 0 else multiset(types)[t])
      && (!allowDuplicates ==> forall t :: t in r ==> t.id !in children)
  {
    var keep := t => OfferedToCollection(allowDuplicates, children, t);
    FilterExact(types, keep);
    FilterAllOrNone(types, keep);
  }

  // ---------------------------------------------------------------------
  // Menu relabelling (the loop over selector.SelectionTree.EnumerateTree())
  // ---------------------------------------------------------------------

  const NoDefaultConstructorSuffix: string := " - No Default Constructor"

  /** A node of the selector's menu tree: its text, its value (None for a
      folder made from a '/' path segment) and how many children it has. */
  datatype MenuItem = MenuItem(name: string, value: Option<TypeInfo>, childCount: nat)

  /** Skipped by the loop: has children and a null value. */
  predicate IsFolder(m: MenuItem)
  {
    m.childCount > 0 && m.value.None?
  }

  /** Every node the tree builder makes is a folder or carries a type. */
  predicate WellFormedNode(m: MenuItem)
  {
    IsFolder(m) || m.value.Some?
  }

  /** The text of a node after the loop: a type without a parameterless
      constructor gets the warning suffix; folders and constructible types
      keep their text. */
  function Relabel(m: MenuItem): (r: MenuItem)
    requires WellFormedNode(m)
    ensures r.value == m.value && r.childCount == m.childCount
    ensures |r.name| >= |m.name| && r.name[..|m.name|] == m.name
    ensures r.name != m.name <==> !IsFolder(m) && !m.value.value.hasDefaultCtor
    ensures r.name != m.name ==> r.name[|m.name|..] == NoDefaultConstructorSuffix
  {
    if IsFolder(m) || m.value.value.hasDefaultCtor then m
    else m.(name := m.name + NoDefaultConstructorSuffix)
  }

  /** The relabelling loop, in place over the enumerated menu nodes. */
  method MarkMissingConstructors(menu: array<MenuItem>)
    requires forall k :: 0 <= k < menu.Length ==> WellFormedNode(menu[k])
    modifies menu
    ensures forall k :: 0 <= k < menu.Length ==> menu[k] == Relabel(old(menu[k]))
  {
    var i := 0;
    while i < menu.Length
      invariant 0 <= i <= menu.Length
      invariant forall k :: 0 <= k < i ==> menu[k] == Relabel(old(menu[k]))
      invariant forall k :: i <= k < menu.Length ==> menu[k] == old(menu[k])
    {
      var item := menu[i];
      if item.childCount > 0 && item.value == None {
        i := i + 1;
        continue;
      }
      var itemType := item.value.value;
      if !itemType.hasDefaultCtor {
        menu[i] := item.(name := item.name + NoDefaultConstructorSuffix);
      }
      i := i + 1;
    }
  }

  // ---------------------------------------------------------------------
  // The collection the selection is added to (ICollectionResolver)
  // ---------------------------------------------------------------------

  /** What QueueAdd puts into a collection for one selection. */
  datatype Instance =
    | Null                      // null
    | Constructed(of: TypeId)   // new instance through the parameterless constructor
    | UnityDefault(of: TypeId)  // UnitySerializationUtility.CreateDefaultUnityInitializedObject

  /** The part of Odin's collection resolver the selector uses. QueueAdd takes
      one value per inspected target; a queued add takes effect on ApplyChanges. */
  class CollectionResolver {
    var queued: seq<seq<Instance>>
    var applied: seq<seq<Instance>>

    constructor ()
      ensures queued == [] && applied == []
    {
      queued := [];
      applied := [];
    }

    method QueueAdd(values: array<Instance>)
      modifies this
      ensures queued == old(queued) + [values[..]]
      ensures applied == old(applied)
    {
      queued := queued + [values[..]];
    }

    method ApplyChanges()
      modifies this
      ensures applied == old(applied) + old(queued)
      ensures queued == []
    {
      applied := applied + queued;
      queued := [];
    }
  }
}
