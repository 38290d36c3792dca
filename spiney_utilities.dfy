/** What Editor/SubclassSelectorUtilities.cs (namespace Spiney.SubclassSelector)
    has beyond the shared logic: adding the selected types to a collection by
    constructing each instance itself, and the name of the box drawn around a
    collection element. */
module SpineyUtilities {
  import opened Common
  import opened TypeModel
  import opened SelectorUtilities

  /** The instance added for a selected type: through its parameterless
      constructor when it has one, else Unity's default-initialised object. */
  function CreateInstance(t: TypeInfo): (r: Instance)
    ensures r != Null && r.of == t.id
    ensures r.Constructed? <==> t.hasDefaultCtor
  {
    if t.hasDefaultCtor then Constructed(t.id) else UnityDefault(t.id)
  }

  /** One single-value add per type, in order: the k-th add holds one
      non-null instance of the k-th type. */
  function QueuedAdds(types: seq<TypeInfo>): (adds: seq<seq<Instance>>)
    ensures |adds| == |types|
    ensures forall k {:trigger adds[k]} :: 0 <= k < |types| ==> |adds[k]| == 1 && adds[k][0] != Null && adds[k][0].of == types[k].id
  {
    seq(|types|, i requires 0 <= i < |types| => [CreateInstance(types[i])])
  }
  /** The adds for two lists one after the other are the adds for their
      concatenation. */
  lemma QueuedAddsAppend(a: seq<TypeInfo>, b: seq<TypeInfo>)
    ensures QueuedAdds(a + b) == QueuedAdds(a) + QueuedAdds(b)
  {
  }


  /** AddSelectedTypes: one QueueAdd per non-null selection, in selection
      order, each with a fresh one-element array; nothing is applied here. */
  method AddSelectedTypes(selectedTypes: seq<Option<TypeInfo>>, collection: CollectionResolver)
    modifies collection
    ensures collection.queued == old(collection.queued) + QueuedAdds(Somes(selectedTypes))
    ensures collection.applied == old(collection.applied)
  {
    var i := 0;
    while i < |selectedTypes|
      invariant 0 <= i <= |selectedTypes|
      invariant collection.queued == old(collection.queued) + QueuedAdds(Somes(selectedTypes[..i]))
      invariant collection.applied == old(collection.applied)
    {
      var selection := selectedTypes[i];
      SomesAppend(selectedTypes[..i], [selection]);
      QueuedAddsAppend(Somes(selectedTypes[..i]), Somes([selection]));
      assert selectedTypes[..i + 1] == selectedTypes[..i] + [selection];
      if selection == None {
        i := i + 1;
        continue;
      }
      var instance := CreateInstance(selection.value);
      var values := new Instance[] [instance];
      collection.QueueAdd(values);
      assert values[..] == [instance];
      assert QueuedAdds(Somes([selection])) == [[instance]];
      i := i + 1;
    }
    assert selectedTypes[..|selectedTypes|] == selectedTypes;
  }

  /** Every queued add holds exactly one value, made for a selected type;
      there is one add per non-null selection. */
  lemma QueuedAddsMatchSelection(selectedTypes: seq<Option<TypeInfo>>)
    ensures var adds := QueuedAdds(Somes(selectedTypes));
      && |adds| == |Somes(selectedTypes)|
      && (forall k :: 0 <= k < |adds| ==>
            |adds[k]| == 1 && adds[k][0] != Null &&
            exists t :: Some(t) in selectedTypes && t.id == adds[k][0].of)
      && (forall t :: multiset(Somes(selectedTypes))[t] == multiset(selectedTypes)[Some(t)])
  {
    var ts := Somes(selectedTypes);
    var adds := QueuedAdds(ts);
    SomesExact(selectedTypes);
    forall k | 0 <= k < |adds|
      ensures |adds[k]| == 1 && adds[k][0] != Null
      ensures exists t :: Some(t) in selectedTypes && t.id == adds[k][0].of
    {
      assert ts[k] in ts;
      assert Some(ts[k]) in selectedTypes;
    }
  }

  /** The text the element's box is titled with, before replacement:
      `subclassPath?.SubClassName ?? GetNiceName()` — the attribute's
      SubClassName whenever it is non-null (even when empty), else the nice name. */
  function GroupTitle(t: TypeInfo): (title: string)
    ensures t.pathAttr.Some? && t.pathAttr.value.subClassName.Some? ==> title == t.pathAttr.value.subClassName.value
    ensures t.pathAttr.None? || t.pathAttr.value.subClassName.None? ==> title == t.niceName
  {
    if t.pathAttr.Some? && t.pathAttr.value.subClassName.Some? then t.pathAttr.value.subClassName.value
    else t.niceName
  }

  /** BeginDrawBoxedSubclassElement's group name for the element's runtime
      type: its title with every '.' turned into '-'. */
  function BoxGroupName(t: TypeInfo): (g: string)
    ensures '.' !in g
    ensures |g| == |GroupTitle(t)|
    ensures forall i :: 0 <= i < |g| ==> g[i] == if GroupTitle(t)[i] == '.' then '-' else GroupTitle(t)[i]
  {
    Replace(GroupTitle(t), '.', '-')
  }

  /** The group name is SubClassName with its dots replaced when the
      attribute has a non-null one, even an empty one, and the nice name with
      its dots replaced when there is no attribute or its SubClassName is
      null; a dot-free title is used unchanged, and replacing again changes
      nothing. */
  lemma BoxGroupNameSource(t: TypeInfo)
    ensures t.pathAttr.Some? && t.pathAttr.value.subClassName.Some? ==>
      BoxGroupName(t) == Replace(t.pathAttr.value.subClassName.value, '.', '-')
    ensures t.pathAttr.Some? && t.pathAttr.value.subClassName == Some("") ==> BoxGroupName(t) == ""
    ensures t.pathAttr.None? ==> BoxGroupName(t) == Replace(t.niceName, '.', '-')
    ensures t.pathAttr.Some? && t.pathAttr.value.subClassName.None? ==> BoxGroupName(t) == Replace(t.niceName, '.', '-')
    ensures '.' !in GroupTitle(t) ==> BoxGroupName(t) == GroupTitle(t)
    ensures BoxGroupName(t) == Replace(BoxGroupName(t), '.', '-')
  {
  }

  /** Replacing '.' in a string that has none leaves it as it was. */
  lemma ReplaceWithoutDots(s: string)
    requires '.' !in s
    ensures Replace(s, '.', '-') == s
  {
  }
}
