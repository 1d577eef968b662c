/** StyleApplier: the table from (type, style name) to the code that sets
    that property, looked up along the BaseType chain. */
module Appliers {
  import opened Wrappers
  import opened Runtime
  import opened Selectors
  import opened UIKit

  /** The registered property setters, one per entry of the table. Their
      bodies are UIKit calls and are not modelled. */
  datatype ApplierId =
    | LabelTextColor
    | ViewCornerRadius
    | ViewBackgroundColor
    | ViewShadowColor
    | ViewShadowRadius
    | ViewShadowOffset
    | ViewShadowOpacity
    | ButtonTitleColor

  /** StyleApplier.Key: a (type, property name) pair. */
  datatype Key = Key(typ: TypeId, name: string)
  {
    /** Key.Equals: false for null or for an object that is not a Key, else
        both fields equal. */
    predicate EqualsObject(obj: Option<Key>)
      ensures EqualsObject(obj) <==> obj == Some(this)
    {
      obj.Some? && obj.value.typ == typ && obj.value.name == name
    }
  }

  /** One call of a registered setter: applier(target, style.Data), recorded
      with the style that caused it. */
  datatype Invocation = Invocation(target: Target, applier: ApplierId, style: Style)

  /** FindApplier(type, name): the exact key first, then the base type, until
      Object or a null BaseType; null when nothing is registered on the way.
      A found setter is registered under the name for a type `t` derives from,
      and an entry for `t` itself is always the one found. */
  function FindApplier(h: Hierarchy, appliers: map<Key, ApplierId>, t: TypeId, name: string): (r: Option<ApplierId>)
    ensures r.Some? ==> exists s :: IsSubtypeOf(h, t, s) && Key(s, name) in appliers && appliers[Key(s, name)] == r.value
    ensures Key(t, name) in appliers ==> r == Some(appliers[Key(t, name)])
    decreases t
  {
    if Key(t, name) in appliers then Some(appliers[Key(t, name)])
    else if t == ObjectType then None
    else if t !in h then None
    else FindApplier(h, appliers, h[t], name)
  }

  /** Nothing is found exactly when no type the target's type derives from
      (itself included) has an entry for the name. */
  lemma {:induction false} FindApplierNone(h: Hierarchy, appliers: map<Key, ApplierId>, t: TypeId, name: string)
    ensures FindApplier(h, appliers, t, name).None? <==>
      forall s :: IsSubtypeOf(h, t, s) ==> Key(s, name) !in appliers
    decreases t
  {
    ObjectHasNoBase(h);
    if Key(t, name) !in appliers && t in h {
      FindApplierNone(h, appliers, h[t], name);
      forall s | IsSubtypeOf(h, t, s) && s != t
        ensures IsSubtypeOf(h, h[t], s)
      {
      }
    }
  }

  /** The nearest entry wins: a found setter is registered for a type the
      target's type derives from, and for no type strictly between the two.
      So a subtype's entry overrides its base type's entry. */
  lemma {:induction false} FindApplierNearest(h: Hierarchy, appliers: map<Key, ApplierId>, t: TypeId, name: string)
    requires FindApplier(h, appliers, t, name).Some?
    ensures exists s ::
      && IsSubtypeOf(h, t, s) && Key(s, name) in appliers
      && appliers[Key(s, name)] == FindApplier(h, appliers, t, name).value
      && forall s' :: IsSubtypeOf(h, t, s') && Key(s', name) in appliers ==> IsSubtypeOf(h, s, s')
    decreases t
  {
    ObjectHasNoBase(h);
    var a := FindApplier(h, appliers, t, name).value;
    if Key(t, name) in appliers {
      forall s' | IsSubtypeOf(h, t, s') && Key(s', name) in appliers
        ensures IsSubtypeOf(h, t, s')
      {
      }
    } else {
      FindApplierNearest(h, appliers, h[t], name);
      var s :| IsSubtypeOf(h, h[t], s) && Key(s, name) in appliers && appliers[Key(s, name)] == a
        && forall s' :: IsSubtypeOf(h, h[t], s') && Key(s', name) in appliers ==> IsSubtypeOf(h, s, s');
      assert IsSubtypeOf(h, t, s);
      forall s' | IsSubtypeOf(h, t, s') && Key(s', name) in appliers
        ensures IsSubtypeOf(h, s, s')
      {
        assert s' != t;
        assert IsSubtypeOf(h, h[t], s');
      }
    }
  }

  /** Fallback law: with no entry for the type itself, the lookup yields
      whatever its base type would. */
  lemma FindApplierFallsBack(h: Hierarchy, appliers: map<Key, ApplierId>, t: TypeId, name: string)
    requires Key(t, name) !in appliers && t in h
    ensures FindApplier(h, appliers, t, name) == FindApplier(h, appliers, h[t], name)
  {
    ObjectHasNoBase(h);
  }

  /** The table StyleApplier's constructor registers. */
  function DefaultAppliers(): map<Key, ApplierId> {
    map[
      Key(UILabel, "Color") := LabelTextColor,
      Key(UIView, "CornerRadius") := ViewCornerRadius,
      Key(UIView, "BackgroundColor") := ViewBackgroundColor,
      Key(UIView, "ShadowColor") := ViewShadowColor,
      Key(UIView, "ShadowRadius") := ViewShadowRadius,
      Key(UIView, "ShadowOffset") := ViewShadowOffset,
      Key(UIView, "ShadowOpacity") := ViewShadowOpacity,
      Key(UIButton, "Color") := ButtonTitleColor
    ]
  }

  class StyleApplier {
    /** _appliers: filled by the constructor, read-only afterwards. */
    var appliers: map<Key, ApplierId>

    constructor ()
      ensures appliers == DefaultAppliers()
    {
      appliers := DefaultAppliers();
    }

    /** Apply: calls the setter found for the target's runtime type and the
        style's name with the style's data, and does nothing when none is found. */
    method Apply(h: Hierarchy, target: Target, style: Style) returns (call: Option<Invocation>)
      ensures call.None? <==> FindApplier(h, appliers, target.runtimeType, style.name).None?
      ensures call.None? <==>
        forall s :: IsSubtypeOf(h, target.runtimeType, s) ==> Key(s, style.name) !in appliers
      ensures call.Some? ==>
        && call.value.target == target && call.value.style == style
        && FindApplier(h, appliers, target.runtimeType, style.name) == Some(call.value.applier)
    {
      var applier := FindApplier(h, appliers, target.runtimeType, style.name);
      FindApplierNone(h, appliers, target.runtimeType, style.name);
      if applier.Some? {
        call := Some(Invocation(target, applier.value, style));
      } else {
        call := None;
      }
    }
  }
}
