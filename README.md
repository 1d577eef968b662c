# StylePlay style engine in Dafny

StylePlay styles a tree of UIKit views with CSS-like rules. A `Rule` has
selectors and named styles. A `Selector` tests three things: the view's
runtime type, one of the view's registered style classes, and a parent
selector. `StyleRuleSet.StylesFor` collects the styles of every matching
rule into a dictionary keyed by style name, so later rules and later
declarations win. `StyleApplier` maps a `(type, name)` key to a property
setter. When the view's own type has no entry, the lookup walks up
`BaseType`. The recursive `Apply` of `StylePlayViewController` resolves
and applies styles view by view, in pre-order.

This project models that engine from
`StylePlay/StylePlayViewController.cs`:

- `runtime.dfy` (`Runtime`): types as tags and `BaseType` as a finite map.
  A base type always has a smaller tag than its subtypes, so the hierarchy
  is acyclic. `IsSubtypeOf` models `IsInstanceOfType`. `Ancestry` is the
  chain of types a `BaseType` walk visits.
- `uikit.dfy` (`UIKit`): the UIKit classes the applier table and the sample
  rules use, with their base types.
- `selectors.dfy` (`Selectors`): `Style`, its payload, and `Selector` with
  its three sub-tests.
- `rules.dfy` (`Rules`): `Rule.Matches`, and the cascade. `Cascade` is the
  specification function: filter the rules, concatenate their styles, merge
  them by name. It also holds the `StyleRuleSet` class, whose `StylesFor`
  method is the source's nested loop, proved equal to `Cascade`.
- `class_registry.dfy` (`ClassRegistry`): the `StyleClassList` class.
- `appliers.dfy` (`Appliers`): `Key`, the recursive `FindApplier`, the
  default table, and the `StyleApplier` class.
- `tree_walk.dfy` (`TreeWalk`): the recursive `Apply` walk over a view
  tree. The setter calls it makes are recorded as a trace.
- `view_did_load.dfy` (`ViewDidLoad`): the sample rules and table built in
  `ViewDidLoad`, and what they resolve to.

Two behaviours of the code are worth naming:

- **Parent selectors.** `ParentSelectorMatches` is a stub
  (StylePlay/StylePlayViewController.cs:97-104): a selector with a parent
  selector never matches (`ParentSelectorNeverMatches`,
  `ParentOnlyRuleIsInert`). No walk over ancestors is modelled.
- **Unregistered views.** `ClassesFor` returns null for an object that was
  never registered, and a null list fails any non-empty class name.
  `UnregisteredLikeNoClasses` shows this behaves like an empty class list.

## Model

| member | source | states |
|---|---|---|
| `Runtime.IsSubtypeOf` | StylePlay/StylePlayViewController.cs:80 | IsInstanceOfType on class types, as the type itself or a supertype of its BaseType; a supertype never has a larger tag than its subtype, so the relation has no cycles |
| `Runtime.Ancestry` | StylePlay/StylePlayViewController.cs:159-173 | the BaseType walk starts at the given type and visits strictly smaller tags, so it ends |
| `Runtime.SubtypeIffInAncestry` | StylePlay/StylePlayViewController.cs:80 | IsInstanceOfType holds exactly for the types on the BaseType walk from the runtime type |
| `Runtime.SubtypeTransitive` | StylePlay/StylePlayViewController.cs:80 | a subtype of a subtype is a subtype |
| `Runtime.SubtypeAntisymmetric` | StylePlay/StylePlayViewController.cs:169-172 | two types that derive from each other are the same type: no cycles |
| `Runtime.AncestryDistinct` | StylePlay/StylePlayViewController.cs:166-172 | the lookup walk never visits a type twice |
| `Selectors.Selector.TypeMatches` | StylePlay/StylePlayViewController.cs:75-84 | a null TargetType accepts every target; otherwise the test holds iff the selector's type is on the BaseType walk from the target's runtime type |
| `Selectors.Selector.Matches` | StylePlay/StylePlayViewController.cs:67-73 | a selector matches iff (no type, or the type is on the target's BaseType walk) and (null or empty class name, or a registered class list containing it) and no parent selector |
| `Selectors.ParentSelectorNeverMatches` | StylePlay/StylePlayViewController.cs:97-104 | a selector with a parent selector rejects every target, whatever its other fields |
| `Selectors.UnregisteredLikeNoClasses` | StylePlay/StylePlayViewController.cs:86-95 | a null class list and an empty one give the same class test |
| `Selectors.MatchesDerivedTarget` | StylePlay/StylePlayViewController.cs:75-84 | a selector that matches a target also matches a target of any derived type with the same classes |
| `Selectors.MoreClassesStillMatch` | StylePlay/StylePlayViewController.cs:86-95 | adding classes to a target never stops a selector from matching it |
| `Rules.AnySelectorMatches` | StylePlay/StylePlayViewController.cs:47 | Enumerable.Any over the selectors is true iff some selector matches |
| `Rules.Rule.Matches` | StylePlay/StylePlayViewController.cs:45-48 | a rule matches iff one of its selectors matches; a rule with no selectors never matches |
| `Rules.MatchingRules` | StylePlay/StylePlayViewController.cs:24-27 | the filtered rules are exactly the matching ones, and no more than the input |
| `Rules.Declarations` | StylePlay/StylePlayViewController.cs:30-32 | a style is iterated iff it belongs to one of the given rules |
| `Rules.Merge` | StylePlay/StylePlayViewController.cs:29-34 | the dictionary's names are the old names plus the declared ones; each entry is a declared style or an untouched old entry |
| `Rules.Cascade` | StylePlay/StylePlayViewController.cs:20-37 | the styles for a target: every one is declared by a matching rule, and every name a matching rule declares is resolved |
| `Rules.MergeLastWins` | StylePlay/StylePlayViewController.cs:29-34 | each name's entry is the last style in iteration order that declares that name |
| `Rules.CascadeKeyedByName` | StylePlay/StylePlayViewController.cs:29-36 | every resolved style sits under its own name, so each name appears once; it comes from a matching rule |
| `Rules.CascadeNames` | StylePlay/StylePlayViewController.cs:24-34 | a name is resolved iff some matching rule declares it |
| `Rules.LaterMatchingRuleWins` | StylePlay/StylePlayViewController.cs:24-34 | if rule j matches and declares a name and no later matching rule does, the name gets rule j's last declaration, whatever earlier rules said |
| `Rules.ParentOnlyRuleIsInert` | StylePlay/StylePlayViewController.cs:97-104 | appending a rule whose selectors all have parent selectors changes no target's styles |
| `Rules.StyleRuleSet.constructor` | StylePlay/StylePlayViewController.cs:15-18 | a new rule set has no rules |
| `Rules.StyleRuleSet.AddRule` | StylePlay/StylePlayViewController.cs:321 | Rules.Add (as at :321, :333 and :339) appends the rule last, so it takes precedence over the earlier ones |
| `Rules.StyleRuleSet.StylesFor` | StylePlay/StylePlayViewController.cs:20-37 | the nested overwrite loop yields exactly the cascade for the target's registered classes |
| `ClassRegistry.StyleClassList.constructor` | StylePlay/StylePlayViewController.cs:262-265 | a new registry is empty |
| `ClassRegistry.StyleClassList.ClassesFor` | StylePlay/StylePlayViewController.cs:279-288 | null iff the target was never added, otherwise its stored list, which is never empty |
| `ClassRegistry.StyleClassList.AddClass` | StylePlay/StylePlayViewController.cs:267-277 | appends the class to the target's list (an empty one if unregistered), keeps duplicates, leaves other targets' lists unchanged, keeps every list non-empty |
| `Appliers.Key.EqualsObject` | StylePlay/StylePlayViewController.cs:186-194 | Key.Equals holds exactly for a non-null key with the same type and name, which is value equality of the datatype |
| `Appliers.FindApplier` | StylePlay/StylePlayViewController.cs:153-173 | a found setter is registered under the name for a type the given type derives from; an entry for the type itself is always the one found |
| `Appliers.FindApplierNone` | StylePlay/StylePlayViewController.cs:159-173 | the lookup returns null iff no type the target derives from, itself included, has an entry for the name |
| `Appliers.FindApplierNearest` | StylePlay/StylePlayViewController.cs:159-173 | a found setter belongs to a supertype that derives from every other supertype with an entry for the name, so a subtype's entry overrides its base's |
| `Appliers.FindApplierFallsBack` | StylePlay/StylePlayViewController.cs:169-172 | with no entry for the type itself, the lookup gives what its base type's lookup gives |
| `Appliers.StyleApplier.constructor` | StylePlay/StylePlayViewController.cs:204-244 | the table holds exactly the eight registered (type, name) entries |
| `Appliers.StyleApplier.Apply` | StylePlay/StylePlayViewController.cs:143-151 | calls nothing iff no supertype of the runtime type has a setter for the name; otherwise calls the found setter with this target and style |
| `TreeWalk.PreOrder` | StylePlay/StylePlayViewController.cs:297-307 | the visiting order starts at the view itself |
| `TreeWalk.ApplyEach` | StylePlay/StylePlayViewController.cs:300-302 | for a dictionary keyed by style name, as StylesFor builds it, each resolved style with a setter leads to exactly one call, in some order; styles without one lead to none |
| `TreeWalk.ApplyTree` | StylePlay/StylePlayViewController.cs:297-307 | the walk visits the views in pre-order, once each, and each gets exactly the calls for its resolved styles |
| `TreeWalk.StyleInvokedIff` | StylePlay/StylePlayViewController.cs:143-151 | a resolved style causes a call iff some supertype has a setter for its name; the call is on this view and uses the nearest setter |
| `TreeWalk.PreOrderNestsSubtrees` | StylePlay/StylePlayViewController.cs:304-306 | a view comes first, then each subview's whole subtree in one contiguous run, after the subtrees of earlier subviews |
| `ViewDidLoad.FooLabelResolves` | StylePlay/StylePlayViewController.cs:314-344 | a UILabel tagged "Foo" resolves to Color=Magenta, CornerRadius=0, BackgroundColor=Blue |
| `ViewDidLoad.PlainLabelResolves` | StylePlay/StylePlayViewController.cs:314-339 | an untagged UILabel resolves to Color=Green, CornerRadius=10, BackgroundColor=Blue |
| `ViewDidLoad.ButtonColorUsesButtonSetter` | StylePlay/StylePlayViewController.cs:239-243 | a UIButton's Color uses the UIButton setter |
| `ViewDidLoad.LabelCornerRadiusFallsBack` | StylePlay/StylePlayViewController.cs:211-214 | a UILabel's CornerRadius falls back to the UIView setter |
| `ViewDidLoad.UnknownNameFindsNothing` | StylePlay/StylePlayViewController.cs:148-150 | a name nobody registered finds no setter for any type, so applying it does nothing |

## Left out

- The setter bodies (UIKit property writes, including the `MasksToBounds = false` side effect of the shadow setters). These are calls into UIKit with float and colour payloads. Setters are opaque `ApplierId`s, and a call is recorded as an `Invocation` in a trace.
- Exceptions from the setters. Every setter call is taken to return normally. In .NET a payload of the wrong type, such as a colour under `CornerRadius`, makes the setter's cast (`(float)value`, `(UIColor)value`, `(SizeF)value`) throw `InvalidCastException`. That exception leaves `StyleApplier.Apply` and the recursive `Apply`, so the rest of the tree is not styled. `ApplyTree`'s promise that every view gets all its calls holds only for payloads of the type each setter expects.
- Reflection beyond class inheritance: interfaces, generic types and `IsInstanceOfType` on interface types. `BaseType` is a finite map whose tags decrease toward the root.
- `Key.GetHashCode`. It wraps around on overflow and does not affect dictionary semantics. Keys are datatype values, compared by value.
- The enumeration order of `Dictionary.Values`, which .NET leaves unspecified. `StylesFor` returns a map keyed by name, and `ApplyEach` may apply the styles in any order.
- `ViewDidLoad`'s view setup and `ShouldAutorotateToInterfaceOrientation`, which are UIKit plumbing. The sample rules and table are kept as constants.
- The walk over superviews for parent selectors, which the code does not implement.
- Rule building through `Selectors.Add` and `Styles.Add`. A rule is an immutable value, so mutating a rule after it joins a rule set, and aliasing of rule objects, are not modelled.
- `ClassesFor` returns the registry's own list object, so a caller could mutate it. The model returns a value.
- Null arguments: a null target, style name, registry or style throws in .NET. The model's references and strings are never null.
- The view tree is a finite datatype. The source's assumption that the tree is acyclic and finite holds by construction.
