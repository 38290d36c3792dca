/** Attributes/SubclassSelectorAttribute.cs: the options a field or collection
    carries. The boolean options are plain auto-properties (public fields
    here); the two expression strings have setters that keep a Has* flag. */
module SelectorAttribute {
  import opened Common

  class SubclassSelectorAttribute {
    var allowDuplicates: bool
    var hideReferencePicker: bool
    var drawDropdownForListElements: bool
    var drawBoxForListElements: bool
    var hideClassLabel: bool
    var drawClassFoldout: bool

    var customTypeFilter: Option<string>
    var hasCustomTypeFilter: bool
    var onTypesSelected: Option<string>
    var hasOnTypesSelected: bool

    /** Each flag says whether its expression is non-null and non-empty. */
    ghost predicate Valid()
      reads this
    {
      && hasCustomTypeFilter == !IsNullOrEmpty(customTypeFilter)
      && hasOnTypesSelected == !IsNullOrEmpty(onTypesSelected)
    }

    /** `[SubclassSelector]` with every option at its default. */
    constructor ()
      ensures Valid()
      ensures allowDuplicates && hideReferencePicker
      ensures !drawDropdownForListElements && !drawBoxForListElements
      ensures !hideClassLabel && !drawClassFoldout
      ensures customTypeFilter == Some("") && !hasCustomTypeFilter
      ensures onTypesSelected == Some("") && !hasOnTypesSelected
    {
      allowDuplicates := true;
      hideReferencePicker := true;
      drawDropdownForListElements := false;
      drawBoxForListElements := false;
      hideClassLabel := false;
      drawClassFoldout := false;
      customTypeFilter := Some("");
      hasCustomTypeFilter := false;
      onTypesSelected := Some("");
      hasOnTypesSelected := false;
    }

    /** The CustomTypeFilter setter: the getter returns exactly `value`
        afterwards (null included); nothing else changes. */
    method SetCustomTypeFilter(value: Option<string>)
      requires Valid()
      modifies this`customTypeFilter, this`hasCustomTypeFilter
      ensures Valid()
      ensures customTypeFilter == value
      ensures hasCustomTypeFilter <==> !IsNullOrEmpty(value)
      ensures onTypesSelected == old(onTypesSelected) && hasOnTypesSelected == old(hasOnTypesSelected)
    {
      hasCustomTypeFilter := !IsNullOrEmpty(value);
      customTypeFilter := value;
    }

    /** The OnTypesSelected setter: the getter returns exactly `value`
        afterwards (null included); nothing else changes. */
    method SetOnTypesSelected(value: Option<string>)
      requires Valid()
      modifies this`onTypesSelected, this`hasOnTypesSelected
      ensures Valid()
      ensures onTypesSelected == value
      ensures hasOnTypesSelected <==> !IsNullOrEmpty(value)
      ensures customTypeFilter == old(customTypeFilter) && hasCustomTypeFilter == old(hasCustomTypeFilter)
    {
      hasOnTypesSelected := !IsNullOrEmpty(value);
      onTypesSelected := value;
    }
  }
}
