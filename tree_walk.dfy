/** The recursive Apply of StylePlayViewController: resolve a view's styles,
    hand each to the applier, then do the same for each subview in order. */
module TreeWalk {
  import opened Runtime
  import opened Selectors
  import opened Rules
  import opened ClassRegistry
  import opened Appliers

  /** A view and its subviews, in Subviews order. */
  datatype View = View(target: Target, subviews: seq<View>)

  /** The views in the order the walk visits them: a view, then the pre-order
      of each subview in turn. */
  function PreOrder(v: View): (p: seq<Target>)
    ensures |p| >= 1 && p[0] == v.target
    decreases v, |v.subviews| + 1
  {
    [v.target] + Forest(v, |v.subviews|)
  }

  /** The pre-orders of the first `k` subviews of `v`, concatenated. */
  function Forest(v: View, k: nat): seq<Target>
    requires k <= |v.subviews|
    decreases v, k
  {
    if k == 0 then [] else Forest(v, k - 1) + PreOrder(v.subviews[k - 1])
  }

  /** The setter calls one view should receive for the styles resolved for it:
      one per style whose name has a setter for the view's runtime type. */
  function NodeInvocations(h: Hierarchy, appliers: map<Key, ApplierId>, target: Target, styles: map<string, Style>): set<Invocation> {
    set s | s in styles.Values && FindApplier(h, appliers, target.runtimeType, s.name).Some?
      :: Invocation(target, FindApplier(h, appliers, target.runtimeType, s.name).value, s)
  }

  /** `calls` makes each expected call exactly once, in some order. */
  predicate ProperCalls(calls: seq<Invocation>, expected: set<Invocation>) {
    && (forall c :: c in calls ==> c in expected)
    && (forall c :: c in expected ==> c in calls)
    && (forall i, j :: 0 <= i < j < |calls| ==> calls[i] != calls[j])
  }

  /** What the walk did at one view: the view and the setter calls it made there. */
  datatype Visit = Visit(target: Target, calls: seq<Invocation>)

  /** The calls a view receives, with the given rules, registry and table. */
  function ExpectedAt(h: Hierarchy, rules: seq<Rule>, styleClassList: StyleClassList, appliers: map<Key, ApplierId>, target: Target): set<Invocation>
    reads styleClassList
  {
    NodeInvocations(h, appliers, target, Cascade(h, rules, target, styleClassList.ClassesFor(target)))
  }

  /** `visits` visits the targets of `order`, one by one, each with its expected calls. */
  predicate WalkedAs(h: Hierarchy, rules: seq<Rule>, styleClassList: StyleClassList, appliers: map<Key, ApplierId>,
                     visits: seq<Visit>, order: seq<Target>)
    reads styleClassList
  {
    && |visits| == |order|
    && forall i :: 0 <= i < |visits| ==>
         && visits[i].target == order[i]
         && ProperCalls(visits[i].calls, ExpectedAt(h, rules, styleClassList, appliers, order[i]))
  }

  lemma WalkedAsAppend(h: Hierarchy, rules: seq<Rule>, styleClassList: StyleClassList, appliers: map<Key, ApplierId>,
                       v1: seq<Visit>, o1: seq<Target>, v2: seq<Visit>, o2: seq<Target>)
    requires WalkedAs(h, rules, styleClassList, appliers, v1, o1)
    requires WalkedAs(h, rules, styleClassList, appliers, v2, o2)
    ensures WalkedAs(h, rules, styleClassList, appliers, v1 + v2, o1 + o2)
  {
  }

  /** Every style sits under its own name, as in every dictionary StylesFor
      builds. Then distinct entries hold distinct styles, so the set of values
      has one element per entry. */
  predicate KeyedByName(styles: map<string, Style>) {
    forall n :: n in styles ==> styles[n].name == n
  }

  /** foreach (var style in styles) applier.Apply(view, style): the order of
      the dictionary's values is unspecified, so any order is allowed. */
  method ApplyEach(h: Hierarchy, applier: StyleApplier, target: Target, styles: map<string, Style>) returns (calls: seq<Invocation>)
    requires KeyedByName(styles)
    ensures ProperCalls(calls, NodeInvocations(h, applier.appliers, target, styles))
  {
    var pending := styles.Values;
    calls := [];
    while pending != {}
      invariant pending <= styles.Values
      invariant forall c :: c in calls <==> c in NodeInvocations(h, applier.appliers, target, styles) && c.style !in pending
      invariant forall i, j :: 0 <= i < j < |calls| ==> calls[i] != calls[j]
      decreases pending
    {
      var style :| style in pending;
      var call := applier.Apply(h, target, style);
      ghost var expected := NodeInvocations(h, applier.appliers, target, styles);
      forall c | c in expected && c.style == style
        ensures call.Some? && c == call.value
      {
        var s :| s in styles.Values && FindApplier(h, applier.appliers, target.runtimeType, s.name).Some?
          && c == Invocation(target, FindApplier(h, applier.appliers, target.runtimeType, s.name).value, s);
      }
      if call.Some? {
        assert call.value in expected;
        calls := calls + [call.value];
      }
      pending := pending - {style};
    }
  }

  /** Apply(ruleset, applier, styleClassList, parentView): every view of the
      tree is visited once, in pre-order, and receives exactly the setter calls
      for the styles the rule set resolves for it. */
  method ApplyTree(h: Hierarchy, ruleset: StyleRuleSet, applier: StyleApplier, styleClassList: StyleClassList, parentView: View)
    returns (visits: seq<Visit>)
    ensures WalkedAs(h, ruleset.rules, styleClassList, applier.appliers, visits, PreOrder(parentView))
    decreases parentView
  {
    var styles := ruleset.StylesFor(h, parentView.target, styleClassList);
    CascadeKeyedByName(h, ruleset.rules, parentView.target, styleClassList.ClassesFor(parentView.target));
    var calls := ApplyEach(h, applier, parentView.target, styles);
    visits := [Visit(parentView.target, calls)];
    WalkedAsSingle(h, ruleset.rules, styleClassList, applier.appliers, parentView.target, calls);
    for k := 0 to |parentView.subviews|
      invariant WalkedAs(h, ruleset.rules, styleClassList, applier.appliers, visits, [parentView.target] + Forest(parentView, k))
    {
      var sub := ApplyTree(h, ruleset, applier, styleClassList, parentView.subviews[k]);
      WalkedAsAppend(h, ruleset.rules, styleClassList, applier.appliers,
                     visits, [parentView.target] + Forest(parentView, k), sub, PreOrder(parentView.subviews[k]));
      ForestStep(parentView, k);
      visits := visits + sub;
    }
  }

  /** A single view with its expected calls is a walk of that view alone. */
  lemma WalkedAsSingle(h: Hierarchy, rules: seq<Rule>, styleClassList: StyleClassList, appliers: map<Key, ApplierId>,
                       target: Target, calls: seq<Invocation>)
    requires ProperCalls(calls, ExpectedAt(h, rules, styleClassList, appliers, target))
    ensures WalkedAs(h, rules, styleClassList, appliers, [Visit(target, calls)], [target])
  {
  }

  /** The next subview's pre-order extends the forest by one subtree. */
  lemma ForestStep(v: View, k: nat)
    requires k < |v.subviews|
    ensures [v.target] + Forest(v, k) + PreOrder(v.subviews[k]) == [v.target] + Forest(v, k + 1)
  {
  }

  /** A style resolved for a view leads to a setter call exactly when some type
      the view's runtime type derives from has a setter for its name; the call
      uses the nearest such setter. */
  lemma StyleInvokedIff(h: Hierarchy, appliers: map<Key, ApplierId>, target: Target, styles: map<string, Style>, style: Style)
    requires style in styles.Values
    ensures (exists c :: c in NodeInvocations(h, appliers, target, styles) && c.style == style) <==>
      exists s :: IsSubtypeOf(h, target.runtimeType, s) && Key(s, style.name) in appliers
    ensures forall c :: c in NodeInvocations(h, appliers, target, styles) && c.style == style ==>
      c.target == target && exists s ::
        && IsSubtypeOf(h, target.runtimeType, s) && Key(s, style.name) in appliers && appliers[Key(s, style.name)] == c.applier
        && forall s' :: IsSubtypeOf(h, target.runtimeType, s') && Key(s', style.name) in appliers ==> IsSubtypeOf(h, s, s')
  {
    var found := FindApplier(h, appliers, target.runtimeType, style.name);
    FindApplierNone(h, appliers, target.runtimeType, style.name);
    if found.Some? {
      FindApplierNearest(h, appliers, target.runtimeType, style.name);
      assert Invocation(target, found.value, style) in NodeInvocations(h, appliers, target, styles);
    }
  }

  lemma {:induction false} ForestPrefix(v: View, k: nat, m: nat)
    requires k <= m <= |v.subviews|
    ensures Forest(v, k) <= Forest(v, m)
    decreases m - k
  {
    if k < m {
      ForestPrefix(v, k, m - 1);
    }
  }

  /** The walk visits a view first, then each subview's whole subtree as one
      contiguous run, right after the subtrees of the subviews before it:
      everything up to the end of subview `k`'s subtree is a prefix of the walk. */
  lemma PreOrderNestsSubtrees(v: View, k: nat)
    requires k < |v.subviews|
    ensures [v.target] + Forest(v, k) + PreOrder(v.subviews[k]) <= PreOrder(v)
  {
    var before := Forest(v, k);
    var sub := PreOrder(v.subviews[k]);
    var all := Forest(v, |v.subviews|);
    assert Forest(v, k + 1) == before + sub;
    ForestPrefix(v, k + 1, |v.subviews|);
    ConsPrefix(v.target, before + sub, all);
    assert [v.target] + before + sub == [v.target] + (before + sub);
  }

  lemma ConsPrefix(x: Target, a: seq<Target>, b: seq<Target>)
    requires a <= b
    ensures [x] + a <= [x] + b
  {
  }
}
