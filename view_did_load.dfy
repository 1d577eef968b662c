/** The sample configuration ViewDidLoad builds: three rules, one label
    tagged "Foo", and the default applier table, with what they resolve to. */
module ViewDidLoad {
  import opened Wrappers
  import opened Runtime
  import opened UIKit
  import opened Selectors
  import opened Rules
  import opened Appliers

  const Green := Colour("Green")
  const Blue := Colour("Blue")
  const Cyan := Colour("Cyan")
  const Orange := Colour("Orange")
  const Black := Colour("Black")
  const Magenta := Colour("Magenta")

  /** Every UILabel. */
  const LabelRule := Rule(
    [Selector(Some(UILabel), None, None)],
    [Style("Color", Green), Style("CornerRadius", Float(10.0)), Style("BackgroundColor", Blue)])

  /** Every UIButton. */
  const ButtonRule := Rule(
    [Selector(Some(UIButton), None, None)],
    [Style("Color", Cyan), Style("CornerRadius", Float(30.0)), Style("BackgroundColor", Orange),
     Style("ShadowOffset", Size(4.0, 10.0)), Style("ShadowRadius", Float(7.0)),
     Style("ShadowColor", Black), Style("ShadowOpacity", Float(0.5))])

  /** UILabels tagged "Foo". */
  const FooLabelRule := Rule(
    [Selector(Some(UILabel), Some("Foo"), None)],
    [Style("Color", Magenta), Style("CornerRadius", Float(0.0))])

  const SampleRules := [LabelRule, ButtonRule, FooLabelRule]

  /** A label tagged "Foo" takes Magenta and a zero corner radius from the last
      rule and keeps the blue background from the first. */
  lemma FooLabelResolves(view: Target)
    requires view.runtimeType == UILabel
    ensures Cascade(Classes, SampleRules, view, Some(["Foo"])) == map[
      "Color" := Style("Color", Magenta),
      "CornerRadius" := Style("CornerRadius", Float(0.0)),
      "BackgroundColor" := Style("BackgroundColor", Blue)]
  {
    var cl := Some(["Foo"]);
    FooLabelMatches(view);
    LabelThenFooDeclarations();
    var m := MergeLabelRule();
    MergeAppend(map[], LabelRule.styles, FooLabelRule.styles);
    assert Cascade(Classes, SampleRules, view, cl) == Merge(m, FooLabelRule.styles);
    MergeFooRule(m);
  }

  /** The label and "Foo" rules match a label tagged "Foo"; the button rule does not. */
  lemma FooLabelMatches(view: Target)
    requires view.runtimeType == UILabel
    ensures MatchingRules(Classes, SampleRules, view, Some(["Foo"])) == [LabelRule, FooLabelRule]
  {
    var cl := Some(["Foo"]);
    assert LabelRule.selectors[0].Matches(Classes, view, cl);
    assert !IsSubtypeOf(Classes, UILabel, UIButton);
    assert !ButtonRule.Matches(Classes, view, cl);
    assert SampleRules == [LabelRule, ButtonRule] + [FooLabelRule];
    assert [LabelRule, ButtonRule] == [LabelRule] + [ButtonRule];
    assert [LabelRule] == [] + [LabelRule];
    assert FooLabelRule.selectors[0].Matches(Classes, view, cl);
    MatchingRulesSnoc(Classes, [LabelRule, ButtonRule], FooLabelRule, view, cl);
    MatchingRulesSnoc(Classes, [LabelRule], ButtonRule, view, cl);
    MatchingRulesSnoc(Classes, [], LabelRule, view, cl);
  }

  lemma LabelThenFooDeclarations()
    ensures Declarations([LabelRule, FooLabelRule]) == LabelRule.styles + FooLabelRule.styles
  {
    assert [] + [LabelRule] == [LabelRule];
    assert [LabelRule] + [FooLabelRule] == [LabelRule, FooLabelRule];
    DeclarationsSnoc([LabelRule], FooLabelRule);
    DeclarationsSnoc([], LabelRule);
  }

  /** The "Foo" rule's styles merged over the label rule's. */
  lemma MergeFooRule(m: map<string, Style>)
    requires m == map[
      "Color" := Style("Color", Green),
      "CornerRadius" := Style("CornerRadius", Float(10.0)),
      "BackgroundColor" := Style("BackgroundColor", Blue)]
    ensures Merge(m, FooLabelRule.styles) == map[
      "Color" := Style("Color", Magenta),
      "CornerRadius" := Style("CornerRadius", Float(0.0)),
      "BackgroundColor" := Style("BackgroundColor", Blue)]
  {
    var s4, s5 := FooLabelRule.styles[0], FooLabelRule.styles[1];
    assert FooLabelRule.styles == [s4] + [s5];
    assert [] + [s4] == [s4];
    MergeSnoc(m, [], s4);
    MergeSnoc(m, [s4], s5);
  }

  /** The label rule's styles merged on their own. */
  lemma MergeLabelRule() returns (m: map<string, Style>)
    ensures m == Merge(map[], LabelRule.styles)
    ensures m == map[
      "Color" := Style("Color", Green),
      "CornerRadius" := Style("CornerRadius", Float(10.0)),
      "BackgroundColor" := Style("BackgroundColor", Blue)]
  {
    var s1, s2, s3 := LabelRule.styles[0], LabelRule.styles[1], LabelRule.styles[2];
    assert [s1] == [] + [s1];
    assert [s1, s2] == [s1] + [s2];
    assert LabelRule.styles == [s1, s2] + [s3];
    MergeSnoc(map[], [], s1);
    MergeSnoc(map[], [s1], s2);
    MergeSnoc(map[], [s1, s2], s3);
    m := Merge(map[], LabelRule.styles);
  }

  /** A label with no registered classes keeps the first rule's styles. */
  lemma PlainLabelResolves(view: Target)
    requires view.runtimeType == UILabel
    ensures Cascade(Classes, SampleRules, view, None) == map[
      "Color" := Style("Color", Green),
      "CornerRadius" := Style("CornerRadius", Float(10.0)),
      "BackgroundColor" := Style("BackgroundColor", Blue)]
  {
    assert LabelRule.selectors[0].Matches(Classes, view, None);
    assert !IsSubtypeOf(Classes, UILabel, UIButton);
    assert !ButtonRule.Matches(Classes, view, None);
    assert SampleRules == [LabelRule, ButtonRule] + [FooLabelRule];
    assert [LabelRule, ButtonRule] == [LabelRule] + [ButtonRule];
    assert [LabelRule] == [] + [LabelRule];
    assert !FooLabelRule.Matches(Classes, view, None);
    MatchingRulesSnoc(Classes, [LabelRule, ButtonRule], FooLabelRule, view, None);
    MatchingRulesSnoc(Classes, [LabelRule], ButtonRule, view, None);
    MatchingRulesSnoc(Classes, [], LabelRule, view, None);
    assert MatchingRules(Classes, SampleRules, view, None) == [LabelRule];
    assert [] + [LabelRule] == [LabelRule];
    DeclarationsSnoc([], LabelRule);
    assert Declarations([LabelRule]) == LabelRule.styles;
    var m := MergeLabelRule();
    assert Cascade(Classes, SampleRules, view, None) == m;
  }

  /** A button's Color uses the UIButton setter, not a base-type one. */
  lemma ButtonColorUsesButtonSetter()
    ensures FindApplier(Classes, DefaultAppliers(), UIButton, "Color") == Some(ButtonTitleColor)
  {
  }

  /** A label has no CornerRadius setter of its own and falls back to UIView's. */
  lemma LabelCornerRadiusFallsBack()
    ensures FindApplier(Classes, DefaultAppliers(), UILabel, "CornerRadius") == Some(ViewCornerRadius)
  {
  }

  /** A name nothing registers finds no setter for any type, so applying it does nothing. */
  lemma UnknownNameFindsNothing(t: TypeId)
    ensures FindApplier(Classes, DefaultAppliers(), t, "Nonexistent").None?
  {
    FindApplierNone(Classes, DefaultAppliers(), t, "Nonexistent");
  }
}
