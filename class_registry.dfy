/** StyleClassList: the registry that tags objects with style class names. */
module ClassRegistry {
  import opened Wrappers
  import opened Runtime

  class StyleClassList {
    /** Classes: each registered object's list of class names, in insertion order. */
    var classes: map<Target, seq<string>>

    /** A list is only ever created to receive a class name, so no registered
        object has an empty list. */
    ghost predicate Valid()
      reads this
    {
      forall t :: t in classes ==> classes[t] != []
    }

    constructor ()
      ensures Valid()
      ensures classes == map[]
    {
      classes := map[];
    }

    /** ClassesFor: null for an object that was never registered, its stored
        list otherwise. */
    function ClassesFor(target: Target): (r: Option<seq<string>>)
      reads this
      ensures r.None? <==> target !in classes
      ensures r.Some? ==> r.value == classes[target]
      ensures Valid() && r.Some? ==> r.value != []
    {
      if target in classes then Some(classes[target]) else None
    }

    /** AddClass: appends the class name to the object's list, creating the
        list first when the object is not yet registered. Duplicates are kept
        and no other object's list changes. */
    method AddClass(target: Target, className: string)
      requires Valid()
      modifies this
      ensures Valid()
      ensures ClassesFor(target) == Some(old(ClassesFor(target)).GetOr([]) + [className])
      ensures forall t :: t != target ==> ClassesFor(t) == old(ClassesFor(t))
    {
      var classList: seq<string>;
      if target !in classes {
        classList := [];
        classes := classes[target := classList];
      } else {
        classList := classes[target];
      }
      classes := classes[target := classList + [className]];
    }
  }
}
