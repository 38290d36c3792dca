# Subclass Selector — a Dafny model of its type directory, labels and attributes

Subclass Selector is an Odin Inspector extension for the Unity Editor. It lets a
designer pick a concrete subclass to instantiate into a polymorphic field, or into
a collection of polymorphic elements. Around the GUI plumbing sits a small amount
of logic, and this project models it:

- **Derived-type discovery** (`GetTypeDerivedTypes`). It returns the base type
  first when it is concrete and passes the optional `CustomTypeFilter`
  expression. Then come the concrete registry types that pass, in registry
  order. A missing expression, or one whose resolver has an error, lets every
  type through.
- **Labels** (`GetTypeSubclassPath`). A type's menu path comes from its
  `SubclassPathAttribute`: the nice name, `path/Name`, the display name, or
  `path/display name`.
- **Duplicates in collections**:
  - `TypeExistsInPropertyChildren` tests exact type equality over a
    collection's children.
  - The element dropdown keeps a type when it is the element's own type or no
    sibling holds it.
  - The collection selector offers only types no child holds.
- **The collection selector**:
  - its item list;
  - the " - No Default Constructor" suffix on menu leaves;
  - adding the selection to the collection.
- **The box group name** of a collection element.
- **The two attribute classes.** `SubclassPathAttribute` and
  `SubclassSelectorAttribute` are mutable objects whose setters keep each
  `Has*` flag equal to "the value is non-null and non-empty".

The repository holds two copies of `SubclassSelectorUtilities.cs`:

- `Editor/SubclassSelectorUtilities.cs`, namespace `Spiney.SubclassSelector`;
- `Subclass-Selector/Editor/SubclassSelectorUtilities.cs`, namespace
  `LBG.Editor`.

Their discovery, label, duplicate, dropdown, selector-list and menu code is
identical. It is modelled once, in module `SelectorUtilities`. The rows below
cite one copy or the other; the same text is at the same or nearby lines of the
other copy. The copies differ in how they add a selection. The Spiney copy
always constructs the instance itself (module `SpineyUtilities`). The LBG copy
uses `GetInstanceFromType` and can hand the whole selection to an
`OnTypesSelected` action instead (module `LbgUtilities`). Module
`VersionComparison` proves where the two agree.

How the model maps the C# code:

- Reflection answers are fields of `TypeInfo`: `Type.IsAbstract`, the
  parameterless constructor, `IsAssignableFrom(UnityEngine.Object)`, `Name`,
  `GetNiceName()` and the attached `SubclassPathAttribute`.
- `TypeCache.GetTypesDerivedFrom(baseType)` is the `registry` parameter.
- Type identity is `TypeInfo.id`.
- A null C# reference is `None` of `Option`.
- The filter expression's resolver is a `ValueResolver`: an error flag plus a
  function from type to `bool`.
- The lazy `yield` filters become `seq` functions. The loops that build lists,
  relabel menu items and queue additions are methods with loop invariants.

Two points where the code and a plain reading of its design differ; the model
follows the code:

- A filter expression that fails to compile does not surface an error to the
  caller. The code logs it and then lets every type pass
  (`UnfilteredYieldsAllConcrete`).
- When neither path nor name is set, the default label is Odin's nice name,
  not the bare type name. `Type.Name` is used only after a path with no display
  name (`SubclassPathCases`).

## Model

| member | source | states |
|---|---|---|
| SelectorUtilities.FilterOf | Editor/SubclassSelectorUtilities.cs:38-52 | The filter built from a field's attribute consults the resolver exactly when the attribute's CustomTypeFilter is non-null and non-empty. With no expression, every type passes. |
| SelectorUtilities.DerivedTypes | Editor/SubclassSelectorUtilities.cs:38-85 | Nothing yielded is abstract, and everything yielded passes the filter. Each yielded type is the base type or a registry type. At most registry length + 1 types are yielded. |
| SelectorUtilities.DerivedTypesBaseFirst | Subclass-Selector/Editor/SubclassSelectorUtilities.cs:50-55 | The base type comes first when it is concrete and passes the filter. When the registry does not list the base type, the base type appears exactly when it is concrete and passes. |
| SelectorUtilities.DerivedTypesAfterBase | Editor/SubclassSelectorUtilities.cs:54-67 | After the base type come exactly the concrete registry types that pass the filter. Every occurrence of each is kept, nothing else appears, and registry order is kept. |
| SelectorUtilities.UnfilteredYieldsAllConcrete | Editor/SubclassSelectorUtilities.cs:43-52 | With no filter expression, or a resolver in error, the predicate is never consulted. Two such calls give the same result, and every concrete type is yielded, the base type first. |
| SelectorUtilities.RejectAllYieldsNothing | Subclass-Selector/Editor/SubclassSelectorUtilities.cs:68-80 | A working filter that is false for every type yields nothing. |
| SelectorUtilities.DerivedTypesDistinct | Editor/SubclassSelectorUtilities.cs:54-67 | A registry without repeats that does not list the base type gives a result without repeats. |
| SelectorUtilities.SubclassPath | Editor/SubclassSelectorUtilities.cs:87-105 | The label is the nice name when there is no attribute or neither field is set. With only a display name set, the label is that leaf. `SubclassPathCases` and `SubclassPathSplits` state the remaining cases. |
| SelectorUtilities.SubclassPathCases | Editor/SubclassSelectorUtilities.cs:87-105 | The label is the nice name when there is no attribute or neither field is set. It is `path + "/" + Name` with only a path, the display name with only a name, and `path + "/" + name` with both. |
| SelectorUtilities.SubclassPathSplits | Subclass-Selector/Editor/SubclassSelectorUtilities.cs:96-104 | A label with a path splits back into that path, a '/' and the leaf. When the leaf holds no '/', nothing after the separator is a '/'. |
| SelectorUtilities.Labelled | Editor/SubclassSelectorUtilities.cs:167-171 | Each item pairs a type with that type's label, one item per type, in order. |
| SelectorUtilities.TypeExistsInPropertyChildren | Editor/SubclassSelectorUtilities.cs:111-125 | True exactly when some child's value type equals the queried type. Only equality counts, so a derived type does not. |
| SelectorUtilities.DropdownTypes | Editor/SubclassSelectorUtilities.cs:136-165 | Outside a collection, or with duplicates allowed, the dropdown is the input unchanged. Otherwise a type is in it exactly when it is in the input and is the element's own type or held by no sibling. It is never longer than the input. `DropdownTypesKeep` adds order and counts. |
| SelectorUtilities.DropdownItems | Editor/SubclassSelectorUtilities.cs:131-172 | Every item carries its type's label, and every item's type is a derived type. There are at most registry length + 1 items. `DropdownItemsLabelled` adds that the current type is always offered. |
| SelectorUtilities.DropdownTypesKeep | Subclass-Selector/Editor/SubclassSelectorUtilities.cs:137-168 | Outside a collection, or with duplicates allowed, the dropdown is the input in order. Otherwise it keeps exactly the types that are the element's own or held by no sibling, with every occurrence. The result is always an order-preserving subsequence. |
| SelectorUtilities.DropdownItemsLabelled | Editor/SubclassSelectorUtilities.cs:131-172 | Every dropdown item carries its type's label. The element's current type, when it is a derived type, is always offered, even though its own slot is among the siblings. |
| SelectorUtilities.CollectionSelectorTypes | Editor/SubclassSelectorUtilities.cs:184-232 | Every offered type is one of the given types and passes GenericSelectorTypeFilter: duplicates are allowed, or no child holds the type. The result is never longer than the input. `CollectionSelectorOffersAbsent` gives the converse and the counts. |
| SelectorUtilities.CollectSelectorItems | Editor/SubclassSelectorUtilities.cs:184-193 | The loop that fills `selectorTypes` produces the labelled items of exactly the derived types that the selector filter keeps, in order. |
| SelectorUtilities.CollectionSelectorOffersAbsent | Subclass-Selector/Editor/SubclassSelectorUtilities.cs:227-235 | With duplicates barred, the selector offers exactly the derived types no child holds, in order and with every occurrence. With duplicates allowed, it offers every derived type. |
| SelectorUtilities.Relabel | Subclass-Selector/Editor/SubclassSelectorUtilities.cs:200-219 | A node's text changes exactly when it is not a folder and its type has no parameterless constructor. The change appends " - No Default Constructor". The old text stays as a prefix, and the value and children are untouched. |
| SelectorUtilities.MarkMissingConstructors | Editor/SubclassSelectorUtilities.cs:197-217 | The loop leaves every menu node relabelled as `Relabel` says, in place. |
| SpineyUtilities.CreateInstance | Editor/SubclassSelectorUtilities.cs:244-256 | The null branch is never taken, and the instance is made for the selected type. The constructor branch is taken exactly when the type has a parameterless constructor; otherwise the Unity-default branch is taken. |
| SpineyUtilities.QueuedAdds | Editor/SubclassSelectorUtilities.cs:236-258 | There is one add per type, in order. The k-th add holds exactly one value, the one made for the k-th type, and the null branch is never taken. |
| SpineyUtilities.AddSelectedTypes | Editor/SubclassSelectorUtilities.cs:234-261 | One QueueAdd per non-null selection, in selection order, each with a one-element array. Nulls are skipped, and nothing is applied. |
| SpineyUtilities.QueuedAddsMatchSelection | Editor/SubclassSelectorUtilities.cs:236-258 | There is one single-value add per non-null selection. Each value is non-null and made for a selected type, and each selected type is added as often as it was selected. |
| SpineyUtilities.GroupTitle | Editor/SubclassSelectorUtilities.cs:267-268 | The title is the attribute's SubClassName whenever that is non-null, even when empty. It is the nice name when there is no attribute or the name is null. |
| SpineyUtilities.BoxGroupName | Editor/SubclassSelectorUtilities.cs:264-269 | The group name has the title's length. Each position holds '-' where the title held '.', and the title's character otherwise, so no '.' is left. |
| SpineyUtilities.ReplaceWithoutDots | Editor/SubclassSelectorUtilities.cs:269 | Replacing '.' by '-' leaves a dot-free string unchanged. |
| SpineyUtilities.BoxGroupNameSource | Editor/SubclassSelectorUtilities.cs:267-269 | A non-null SubClassName, even an empty one, gives that name with '.' replaced by '-'. No attribute, or a null SubClassName, gives the nice name with '.' replaced by '-'. A dot-free title is used unchanged, and applying the replacement again changes nothing. |
| LbgUtilities.GetInstanceFromType | Subclass-Selector/Editor/SubclassSelectorUtilities.cs:284-307 | The null branch is taken exactly for a null type or a UnityEngine.Object type; otherwise the instance is made for that type. The constructor branch is taken exactly when the type is not a Unity object and has a parameterless constructor; otherwise the Unity-default branch is taken. |
| LbgUtilities.QueuedAdds | Subclass-Selector/Editor/SubclassSelectorUtilities.cs:260-275 | There is one add per type, in order, each holding exactly one value. The k-th value comes from the null branch exactly when the k-th type is a UnityEngine.Object; otherwise it is made for the k-th type. |
| LbgUtilities.AddSelectedTypes | Subclass-Selector/Editor/SubclassSelectorUtilities.cs:237-277 | When the OnTypesSelected resolver exists without error, the whole selection, nulls included, goes to the action and the collection is untouched. Otherwise there is exactly one add per non-null selection, in order, each applied at once, so nothing stays queued. A selection with no non-null entry leaves the queue and the applied values exactly as they were. |
| LbgUtilities.AddOne | Subclass-Selector/Editor/SubclassSelectorUtilities.cs:270-274 | One pass of the add loop: the reused array takes the instance for the type, which is queued and applied at once, so the applied values grow by that single add and nothing stays queued. |
| LbgUtilities.UnityObjectSelectionsAddNull | Subclass-Selector/Editor/SubclassSelectorUtilities.cs:270-273 | Without the action, each UnityEngine.Object selection still adds one element, and that element is null. |
| VersionComparison.InstanceChoiceAgrees | Subclass-Selector/Editor/SubclassSelectorUtilities.cs:291-306 | For a type that is not a UnityEngine.Object, both copies take the same branch for the same type. For a UnityEngine.Object type only the LBG copy takes the null branch. |
| VersionComparison.QueuedAddsAgree | Subclass-Selector/Editor/SubclassSelectorUtilities.cs:262-275 | Without the action and without Unity-object types, both copies add the same values for the same selection. |
| PlainClassesExample.PlainClassesItems | Examples/PlainClasses.cs:11-37 | In the demo hierarchy, built through the attribute's own constructors and setter, and with a default `[SubclassSelector]` on the field, the labels are "Base Class", "Derived/Class A", "Derived/Class B" and "Derived/Class C", in that order. |
| PathAttribute.SubclassPathAttribute.Meta | Attributes/SubclassPathAttribute.cs:53-78 | The flags the label builder reads equal "the value is non-null and non-empty". |
| PathAttribute.SubclassPathAttribute.constructor | Attributes/SubclassPathAttribute.cs:15-44 | A fresh attribute has an empty path and name, and both flags are false. |
| PathAttribute.SubclassPathAttribute.WithPath | Attributes/SubclassPathAttribute.cs:22-25 | Only the path is set, and its flag follows it. The name stays empty and HasSubClassName stays false. |
| PathAttribute.SubclassPathAttribute.WithPathAndName | Attributes/SubclassPathAttribute.cs:32-36 | Both fields are set, and each flag reflects its own argument. |
| PathAttribute.SubclassPathAttribute.SetSubClassPath | Attributes/SubclassPathAttribute.cs:53-61 | The getter returns the value, null included. HasSubClassPath is "non-null and non-empty", and the name and its flag do not change. |
| PathAttribute.SubclassPathAttribute.SetSubClassName | Attributes/SubclassPathAttribute.cs:66-74 | The getter returns the value, null included. HasSubClassName is "non-null and non-empty", and the path and its flag do not change. |
| SelectorAttribute.SubclassSelectorAttribute.constructor | Attributes/SubclassSelectorAttribute.cs:13-77 | AllowDuplicates and HideReferencePicker default to true, and the other four options to false. Both expressions are empty, and both flags are false. |
| SelectorAttribute.SubclassSelectorAttribute.SetCustomTypeFilter | Attributes/SubclassSelectorAttribute.cs:85-98 | The getter returns exactly the last value, null included, and HasCustomTypeFilter is "non-null and non-empty". The other expression, its flag and every option are unchanged. |
| SelectorAttribute.SubclassSelectorAttribute.SetOnTypesSelected | Attributes/SubclassSelectorAttribute.cs:109-122 | The getter returns exactly the last value, null included, and HasOnTypesSelected is "non-null and non-empty". The other expression, its flag and every option are unchanged. |

Both attribute classes keep `Valid()`: each flag equals "the value is non-null
and non-empty". Every constructor establishes it and every setter preserves it,
so it holds after any sequence of assignments. Each setter's `modifies` clause
names only its own field and flag, so the boolean options and the other
expression cannot change.

## Left out

- Everything drawn on screen is not part of this model: the Odin drawers
  (`SubclassSelectorFieldAttributeDrawer`, `SubclassSelectorCollectionAttributeDrawer`),
  popups, foldouts, boxes and icons. The attribute processor that injects Odin
  attributes is also out.
- Reflection is not modelled as behaviour. `TypeCache.GetTypesDerivedFrom`,
  `IsAbstract`, `GetConstructor`, `IsAssignableFrom` and `GetNiceName` are
  inputs (the registry and `TypeInfo` fields).
- The registry is taken in the order given. The host's order is unspecified.
- Resolver expressions are not compiled or evaluated. The type filter is an
  error flag plus a predicate. The `OnTypesSelected` action is an error flag,
  and what it does with the selection it receives is not visible.
- `Debug.LogError` is a side effect only and is not modelled.
- Object construction (`Activator.CreateInstance`, `ConstructorInfo.Invoke`,
  `CreateDefaultUnityInitializedObject`) is a foreign call. Only which branch is
  taken is modelled (`Instance`). Each construction branch is taken to yield a
  non-null instance of the requested type; the model cannot see what these
  calls really return, so "non-null" in the rows means "a construction branch
  was taken".
- The LBG copy's `HasOnTypesSelected` and the resolver error reach
  `LbgUtilities.AddSelectedTypes` as two booleans, not read from a
  `SubclassSelectorAttribute` object; `FilterOf` is the only place where the
  attribute object feeds the utilities.
- The `GenericSelector` tree is built from '/' paths inside Odin, which is not
  part of this model. `MarkMissingConstructors` takes the enumerated nodes as
  an array. `ShowInPopup`, the confirm button and the `SelectionConfirmed`
  wiring are also out.
- `CollectionResolver` stands in for Odin's collection resolver. `QueueAdd`
  records the values at the time of the call. Whether Odin keeps a reference to
  the array is not visible. The LBG copy reuses one array, but it calls
  `ApplyChanges` right after each `QueueAdd`, so this cannot matter there.
  `property.Children.Update()` is a refresh and is not modelled.
- MarkMissingConstructors: requires every node to be a folder (children and a
  null value) or to carry a type. The loop skips a node only when it has
  children AND a null value. A childless node with a null value would throw a
  null-reference error, and the tree builder never makes one.
- Field-level selection, such as the drawer's single `$type` action, is not
  modelled. Neither are `FilterDerivedTypes` in the demo asset or the demo
  ScriptableObjects.
- Nullability inside `TypeInfo` is not modelled: names are never null. A child
  whose value is null contributes its `TypeOfValue` like any other, as a
  `TypeId`.
