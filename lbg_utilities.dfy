/** What Subclass-Selector/Editor/SubclassSelectorUtilities.cs (namespace
    LBG.Editor) has beyond the shared logic: GetInstanceFromType, and adding
    the selected types either through the OnTypesSelected action or one
    QueueAdd/ApplyChanges per selection with a reused one-element array. */
module LbgUtilities {
  import opened Common
  import opened TypeModel
  import opened SelectorUtilities

  /** GetInstanceFromType: null for a null type and for a UnityEngine.Object
      type; otherwise an instance of that type, built through its
      parameterless constructor when it has one, else Unity's default object. */
  function GetInstanceFromType(t: Option<TypeInfo>): (r: Instance)
    ensures r == Null <==> t.None? || t.value.isUnityObject
    ensures r != Null ==> r.of == t.value.id
    ensures r.Constructed? <==> t.Some? && !t.value.isUnityObject && t.value.hasDefaultCtor
  {
    if t.None? then Null
    else if t.value.isUnityObject then Null
    else if t.value.hasDefaultCtor then Constructed(t.value.id)
    else UnityDefault(t.value.id)
  }

  /** One single-value add per type, in order: the k-th add holds one value,
      null exactly when the k-th type is a UnityEngine.Object, else made for
      that type. */
  function QueuedAdds(types: seq<TypeInfo>): (adds: seq<seq<Instance>>)
    ensures |adds| == |types|
    ensures forall k {:trigger adds[k]} :: 0 <= k < |types| ==> |adds[k]| == 1 && (adds[k][0] == Null <==> types[k].isUnityObject)
    ensures forall k {:trigger adds[k]} :: 0 <= k < |types| && !types[k].isUnityObject ==> adds[k][0].of == types[k].id
  {
    seq(|types|, i requires 0 <= i < |types| => [GetInstanceFromType(Some(types[i]))])
  }
  /** The adds for two lists one after the other are the adds for their
      concatenation. */
  lemma QueuedAddsAppend(a: seq<TypeInfo>, b: seq<TypeInfo>)
    ensures QueuedAdds(a + b) == QueuedAdds(a) + QueuedAdds(b)
  {
  }


  /** The OnTypesSelected action is used when the attribute has an expression
      (HasOnTypesSelected) and the resolver built from it has no error. */
  predicate UsesAction(hasOnTypesSelected: bool, actionHasError: bool)
  {
    hasOnTypesSelected && !actionHasError
  }

  /** AddSelectedTypes. When the action is used, the whole selection (nulls
      included) is handed to it, returned here as `handedOver`, and the
      collection is not touched. Otherwise every non-null selection, in order,
      is added with QueueAdd and applied at once with ApplyChanges, reusing
      one array for the value. */
  method AddSelectedTypes(selectedTypes: seq<Option<TypeInfo>>, hasOnTypesSelected: bool, actionHasError: bool,
                          collection: CollectionResolver)
    returns (handedOver: Option<seq<Option<TypeInfo>>>)
    modifies collection
    ensures handedOver.Some? <==> UsesAction(hasOnTypesSelected, actionHasError)
    ensures handedOver.Some? ==> handedOver.value == selectedTypes && unchanged(collection)
    ensures handedOver.None? ==>
      collection.applied + collection.queued
        == old(collection.applied + collection.queued) + QueuedAdds(Somes(selectedTypes))
    ensures handedOver.None? && Somes(selectedTypes) != [] ==> collection.queued == []
    ensures handedOver.None? && Somes(selectedTypes) == [] ==>
      collection.queued == old(collection.queued) && collection.applied == old(collection.applied)
  {
    if UsesAction(hasOnTypesSelected, actionHasError) {
      return Some(selectedTypes);
    }
    var values := new Instance[] [Null];
    ghost var added: seq<TypeInfo> := [];
    var i := 0;
    while i < |selectedTypes|
      invariant 0 <= i <= |selectedTypes|
      invariant values.Length == 1
      invariant added == Somes(selectedTypes[..i])
      invariant collection.applied + collection.queued == old(collection.applied + collection.queued) + QueuedAdds(added)
      invariant added != [] ==> collection.queued == []
      invariant added == [] ==> collection.queued == old(collection.queued) && collection.applied == old(collection.applied)
    {
      var selection := selectedTypes[i];
      assert selectedTypes[..i + 1] == selectedTypes[..i] + [selection];
      SomesAppend(selectedTypes[..i], [selection]);
      if selection == None {
        i := i + 1;
        continue;
      }
      QueuedAddsAppend(added, [selection.value]);
      AddOne(selection.value, values, collection);
      added := added + [selection.value];
      i := i + 1;
    }
    assert selectedTypes[..|selectedTypes|] == selectedTypes;
    return None;
  }

  /** One pass of the add loop: the reused array gets the instance for `t`,
      which is queued and applied at once. */
  method AddOne(t: TypeInfo, values: array<Instance>, collection: CollectionResolver)
    requires values.Length == 1
    modifies values, collection
    ensures collection.applied == old(collection.applied + collection.queued) + QueuedAdds([t])
    ensures collection.queued == []
  {
    var instance := GetInstanceFromType(Some(t));
    values[0] := instance;
    collection.QueueAdd(values);
    assert values[..] == [instance];
    collection.ApplyChanges();
  }

  /** Without the action, a selection of UnityEngine.Object types still adds
      one element per selection, but each element is null. */
  lemma UnityObjectSelectionsAddNull(types: seq<TypeInfo>)
    requires forall t :: t in types ==> t.isUnityObject
    ensures |QueuedAdds(types)| == |types|
    ensures forall k :: 0 <= k < |types| ==> QueuedAdds(types)[k] == [Null]
  {
  }
}
