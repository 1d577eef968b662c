/** IStyle and ISelector: named style declarations and the selectors that
    decide which objects a rule applies to. */
module Selectors {
  import opened Wrappers
  import opened Runtime

  /** The Data of a style. The engine never looks inside it; these cases stand
      for the UIColor, float and SizeF values the applier table expects. */
  datatype Payload = Colour(name: string) | Float(value: real) | Size(width: real, height: real)

  /** SimpleStyle: a property name and its payload. */
  datatype Style = Style(name: string, data: Payload)

  /** Selector(targetType, className, parentSelector). A null or empty class
      name is a wildcard; a parent selector is never matched in this version. */
  datatype Selector = Selector(targetType: Option<TypeId>, className: Option<string>, parentSelector: Option<Selector>)
  {
    /** A null TargetType accepts every target; otherwise IsInstanceOfType,
        which holds exactly when the selector's type lies on the target's
        BaseType walk. */
    predicate TypeMatches(h: Hierarchy, target: Target)
      ensures TypeMatches(h, target) <==>
        targetType.None? || targetType.value in Ancestry(h, target.runtimeType)
    {
      targetType.None? ||
        (SubtypeIffInAncestry(h, target.runtimeType, targetType.value);
         IsSubtypeOf(h, target.runtimeType, targetType.value))
    }

    /** String.IsNullOrEmpty(ClassName) accepts anything; a null class list
        (the target was never registered) fails; otherwise membership. */
    predicate ClassMatches(styleClasses: Option<seq<string>>)
    {
      if className.None? || className.value == "" then true
      else if styleClasses.None? then false
      else className.value in styleClasses.value
    }

    /** No parent selector accepts; the walk over superviews is not written,
        so a parent selector rejects every target, whichever it is. */
    predicate ParentSelectorMatches(target: Target)
    {
      parentSelector.None?
    }

    /** The selector test in full: the target's runtime type reaches the
        selector's type along the BaseType walk, the class name is a wildcard
        or one of the target's registered classes, and there is no parent
        selector. */
    predicate Matches(h: Hierarchy, target: Target, styleClasses: Option<seq<string>>)
      ensures Matches(h, target, styleClasses) <==>
        && (targetType.None? || targetType.value in Ancestry(h, target.runtimeType))
        && (className.None? || className.value == ""
            || (styleClasses.Some? && className.value in styleClasses.value))
        && parentSelector.None?
    {
      TypeMatches(h, target) && ClassMatches(styleClasses) && ParentSelectorMatches(target)
    }
  }

  /** A selector with a parent selector matches nothing, whatever its other fields. */
  lemma ParentSelectorNeverMatches(sel: Selector, h: Hierarchy, target: Target, styleClasses: Option<seq<string>>)
    requires sel.parentSelector.Some?
    ensures !sel.Matches(h, target, styleClasses)
  {
  }

  /** A target that was never registered is treated like one with no classes. */
  lemma UnregisteredLikeNoClasses(sel: Selector)
    ensures sel.ClassMatches(None) == sel.ClassMatches(Some([]))
  {
  }

  /** A selector that matches a target also matches any target of a derived
      type carrying the same classes. */
  lemma MatchesDerivedTarget(sel: Selector, h: Hierarchy, target: Target, derived: Target, styleClasses: Option<seq<string>>)
    requires sel.Matches(h, target, styleClasses)
    requires IsSubtypeOf(h, derived.runtimeType, target.runtimeType)
    ensures sel.Matches(h, derived, styleClasses)
  {
    if sel.targetType.Some? {
      SubtypeTransitive(h, derived.runtimeType, target.runtimeType, sel.targetType.value);
    }
  }

  /** Registering more classes never stops a selector from matching. */
  lemma MoreClassesStillMatch(sel: Selector, h: Hierarchy, target: Target, classes: seq<string>, more: seq<string>)
    requires sel.Matches(h, target, Some(classes))
    ensures sel.Matches(h, target, Some(classes + more))
  {
  }
}
