/** Rule and StyleRuleSet: which rules apply to an object, and the cascade
    that merges their styles by name, later ones overwriting earlier ones. */
module Rules {
  import opened Wrappers
  import opened Runtime
  import opened Selectors
  import opened ClassRegistry

  /** Enumerable.Any over the selectors, left to right. */
  function AnySelectorMatches(selectors: seq<Selector>, h: Hierarchy, target: Target, styleClasses: Option<seq<string>>): (b: bool)
    ensures b <==> exists i :: 0 <= i < |selectors| && selectors[i].Matches(h, target, styleClasses)
  {
    if selectors == [] then false
    else (selectors[0].Matches(h, target, styleClasses)
          || AnySelectorMatches(selectors[1..], h, target, styleClasses))
  }

  /** A rule: selectors, matched as alternatives, and the styles it declares. */
  datatype Rule = Rule(selectors: seq<Selector>, styles: seq<Style>)
  {
    /** A rule matches when some selector does; with no selectors it never does. */
    predicate Matches(h: Hierarchy, target: Target, styleClasses: Option<seq<string>>)
      ensures Matches(h, target, styleClasses) <==> exists s :: s in selectors && s.Matches(h, target, styleClasses)
      ensures selectors == [] ==> !Matches(h, target, styleClasses)
    {
      AnySelectorMatches(selectors, h, target, styleClasses)
    }
  }

  /** The matching rules, in rule-set order (the LINQ `where` query). */
  function MatchingRules(h: Hierarchy, rules: seq<Rule>, target: Target, styleClasses: Option<seq<string>>): (m: seq<Rule>)
    ensures |m| <= |rules|
    ensures forall r :: r in m <==> r in rules && r.Matches(h, target, styleClasses)
  {
    if rules == [] then []
    else
      var init := MatchingRules(h, rules[..|rules| - 1], target, styleClasses);
      var last := rules[|rules| - 1];
      assert rules == rules[..|rules| - 1] + [last];
      if last.Matches(h, target, styleClasses) then init + [last] else init
  }

  /** The styles of the given rules, rule after rule, each in declaration order. */
  function Declarations(rules: seq<Rule>): (d: seq<Style>)
    ensures forall s :: s in d <==> exists r :: r in rules && s in r.styles
  {
    if rules == [] then []
    else
      assert rules == rules[..|rules| - 1] + [rules[|rules| - 1]];
      Declarations(rules[..|rules| - 1]) + rules[|rules| - 1].styles
  }

  /** The names some style in `styles` declares. */
  function Names(styles: seq<Style>): set<string> {
    set s | s in styles :: s.name
  }

  /** `toApply[style.Name] = style` for each style in turn. */
  function Merge(acc: map<string, Style>, styles: seq<Style>): (r: map<string, Style>)
    ensures r.Keys == acc.Keys + Names(styles)
    ensures forall n :: n in r ==> r[n] in styles || (n in acc && r[n] == acc[n])
  {
    if styles == [] then acc
    else
      var last := styles[|styles| - 1];
      assert styles == styles[..|styles| - 1] + [last];
      Merge(acc, styles[..|styles| - 1])[last.name := last]
  }

  /** The cascade for one object: the styles of the matching rules merged by
      name. Every resolved style is declared by a matching rule, and every
      name a matching rule declares is resolved. */
  function Cascade(h: Hierarchy, rules: seq<Rule>, target: Target, styleClasses: Option<seq<string>>): (r: map<string, Style>)
    ensures forall n :: n in r ==> r[n] in Declarations(MatchingRules(h, rules, target, styleClasses))
    ensures forall s :: s in Declarations(MatchingRules(h, rules, target, styleClasses)) ==> s.name in r
  {
    Merge(map[], Declarations(MatchingRules(h, rules, target, styleClasses)))
  }

  /** Index `i` holds the last style in `styles` that declares `n`. */
  predicate IsLastDeclaration(styles: seq<Style>, i: int, n: string) {
    0 <= i < |styles| && styles[i].name == n && forall j :: i < j < |styles| ==> styles[j].name != n
  }

  /** Last declaration wins: a name in the merge holds the last style that declares it. */
  lemma {:induction false} MergeLastWins(styles: seq<Style>, n: string)
    requires n in Merge(map[], styles)
    ensures exists i :: IsLastDeclaration(styles, i, n) && Merge(map[], styles)[n] == styles[i]
  {
    var init := styles[..|styles| - 1];
    var last := styles[|styles| - 1];
    assert styles == init + [last];
    if n == last.name {
      assert IsLastDeclaration(styles, |styles| - 1, n);
    } else {
      MergeLastWins(init, n);
      var i :| IsLastDeclaration(init, i, n) && Merge(map[], init)[n] == init[i];
      assert IsLastDeclaration(styles, i, n);
    }
  }

  /** Every style in the cascade sits under its own name, so there is at most
      one style per distinct name, and it comes from a matching rule. */
  lemma CascadeKeyedByName(h: Hierarchy, rules: seq<Rule>, target: Target, styleClasses: Option<seq<string>>)
    ensures forall n :: n in Cascade(h, rules, target, styleClasses) ==>
      && Cascade(h, rules, target, styleClasses)[n].name == n
      && exists r :: r in rules && r.Matches(h, target, styleClasses) && Cascade(h, rules, target, styleClasses)[n] in r.styles
  {
    var d := Declarations(MatchingRules(h, rules, target, styleClasses));
    forall n | n in Merge(map[], d)
      ensures Merge(map[], d)[n].name == n
    {
      MergeLastWins(d, n);
    }
  }

  /** A name is in the cascade exactly when some matching rule declares it. */
  lemma CascadeNames(h: Hierarchy, rules: seq<Rule>, target: Target, styleClasses: Option<seq<string>>, n: string)
    ensures n in Cascade(h, rules, target, styleClasses) <==>
      exists r, s :: r in rules && r.Matches(h, target, styleClasses) && s in r.styles && s.name == n
  {
  }

  /** One more rule: it joins the matching rules exactly when it matches. */
  lemma MatchingRulesSnoc(h: Hierarchy, rules: seq<Rule>, rule: Rule, target: Target, styleClasses: Option<seq<string>>)
    ensures MatchingRules(h, rules + [rule], target, styleClasses)
         == if rule.Matches(h, target, styleClasses) then MatchingRules(h, rules, target, styleClasses) + [rule]
            else MatchingRules(h, rules, target, styleClasses)
  {
    assert (rules + [rule])[..|rules|] == rules;
  }

  lemma DeclarationsSnoc(rules: seq<Rule>, rule: Rule)
    ensures Declarations(rules + [rule]) == Declarations(rules) + rule.styles
  {
    assert (rules + [rule])[..|rules|] == rules;
  }

  /** One more style: it overwrites the entry under its name. */
  lemma MergeSnoc(acc: map<string, Style>, styles: seq<Style>, style: Style)
    ensures Merge(acc, styles + [style]) == Merge(acc, styles)[style.name := style]
  {
    assert (styles + [style])[..|styles|] == styles;
  }

  /** One step of the cascade loop: the next rule's styles are merged in
      exactly when it matches. */
  lemma CascadeStep(h: Hierarchy, rules: seq<Rule>, i: int, target: Target, styleClasses: Option<seq<string>>)
    requires 0 <= i < |rules|
    ensures Merge(map[], Declarations(MatchingRules(h, rules[..i + 1], target, styleClasses)))
         == if rules[i].Matches(h, target, styleClasses)
            then Merge(Merge(map[], Declarations(MatchingRules(h, rules[..i], target, styleClasses))), rules[i].styles)
            else Merge(map[], Declarations(MatchingRules(h, rules[..i], target, styleClasses)))
  {
    assert rules[..i + 1] == rules[..i] + [rules[i]];
    MatchingRulesSnoc(h, rules[..i], rules[i], target, styleClasses);
    if rules[i].Matches(h, target, styleClasses) {
      var m := MatchingRules(h, rules[..i], target, styleClasses);
      DeclarationsSnoc(m, rules[i]);
      MergeAppend(map[], Declarations(m), rules[i].styles);
    }
  }

  lemma {:induction false} MatchingRulesAppend(h: Hierarchy, a: seq<Rule>, b: seq<Rule>, target: Target, styleClasses: Option<seq<string>>)
    ensures MatchingRules(h, a + b, target, styleClasses)
         == MatchingRules(h, a, target, styleClasses) + MatchingRules(h, b, target, styleClasses)
    decreases |b|
  {
    if b == [] {
      assert a + b == a;
    } else {
      var init := b[..|b| - 1];
      assert (a + b)[..|a + b| - 1] == a + init;
      assert (a + b)[|a + b| - 1] == b[|b| - 1];
      MatchingRulesAppend(h, a, init, target, styleClasses);
    }
  }

  lemma {:induction false} DeclarationsAppend(a: seq<Rule>, b: seq<Rule>)
    ensures Declarations(a + b) == Declarations(a) + Declarations(b)
    decreases |b|
  {
    if b == [] {
      assert a + b == a;
    } else {
      var init := b[..|b| - 1];
      assert (a + b)[..|a + b| - 1] == a + init;
      assert (a + b)[|a + b| - 1] == b[|b| - 1];
      DeclarationsAppend(a, init);
    }
  }

  /** Merging two runs of styles is merging the first, then the second. */
  lemma {:induction false} MergeAppend(acc: map<string, Style>, a: seq<Style>, b: seq<Style>)
    ensures Merge(acc, a + b) == Merge(Merge(acc, a), b)
    decreases |b|
  {
    if b == [] {
      assert a + b == a;
    } else {
      var init := b[..|b| - 1];
      assert (a + b)[..|a + b| - 1] == a + init;
      assert (a + b)[|a + b| - 1] == b[|b| - 1];
      MergeAppend(acc, a, init);
    }
  }

  /** Once a run of styles declares a name, what was merged before does not
      affect that name. */
  lemma {:induction false} MergeDeclared(acc: map<string, Style>, acc': map<string, Style>, styles: seq<Style>, n: string)
    requires n in Names(styles)
    ensures n in Merge(acc, styles) && n in Merge(acc', styles)
    ensures Merge(acc, styles)[n] == Merge(acc', styles)[n]
  {
    var init := styles[..|styles| - 1];
    var last := styles[|styles| - 1];
    assert styles == init + [last];
    if n != last.name {
      var s :| s in styles && s.name == n;
      assert s in init;
      MergeDeclared(acc, acc', init, n);
    }
  }

  /** With rule `j` matching, the declarations of the matching rules split
      into those before it, its own, and those after it. */
  lemma MatchingDeclarationsSplit(h: Hierarchy, rules: seq<Rule>, target: Target, styleClasses: Option<seq<string>>, j: int)
    requires 0 <= j < |rules| && rules[j].Matches(h, target, styleClasses)
    ensures Declarations(MatchingRules(h, rules, target, styleClasses))
         == Declarations(MatchingRules(h, rules[..j], target, styleClasses)) + rules[j].styles
            + Declarations(MatchingRules(h, rules[j + 1..], target, styleClasses))
  {
    var pre, post := rules[..j], rules[j + 1..];
    assert rules == pre + [rules[j]] + post;
    MatchingRulesAppend(h, pre + [rules[j]], post, target, styleClasses);
    MatchingRulesAppend(h, pre, [rules[j]], target, styleClasses);
    var m0 := MatchingRules(h, pre, target, styleClasses);
    var m2 := MatchingRules(h, post, target, styleClasses);
    assert MatchingRules(h, [rules[j]], target, styleClasses) == [rules[j]] by {
      assert [rules[j]][..0] == [];
    }
    DeclarationsAppend(m0 + [rules[j]], m2);
    DeclarationsAppend(m0, [rules[j]]);
    assert Declarations([rules[j]]) == rules[j].styles by {
      assert [rules[j]][..0] == [];
    }
  }

  /** If no matching rule declares `n`, neither do their declarations. */
  lemma UndeclaredByMatching(h: Hierarchy, rules: seq<Rule>, target: Target, styleClasses: Option<seq<string>>, n: string)
    requires forall k :: 0 <= k < |rules| && rules[k].Matches(h, target, styleClasses) ==> n !in Names(rules[k].styles)
    ensures n !in Names(Declarations(MatchingRules(h, rules, target, styleClasses)))
  {
  }

  /** Override law: when rule `j` matches and declares `n`, and no later
      matching rule declares `n`, the cascade gives `n` the value rule `j`
      alone would give it, whatever earlier rules declared. */
  lemma LaterMatchingRuleWins(h: Hierarchy, rules: seq<Rule>, target: Target, styleClasses: Option<seq<string>>, j: int, n: string)
    requires 0 <= j < |rules| && rules[j].Matches(h, target, styleClasses)
    requires n in Names(rules[j].styles)
    requires forall k :: j < k < |rules| && rules[k].Matches(h, target, styleClasses) ==> n !in Names(rules[k].styles)
    ensures n in Cascade(h, rules, target, styleClasses)
    ensures Cascade(h, rules, target, styleClasses)[n] == Merge(map[], rules[j].styles)[n]
  {
    MatchingDeclarationsSplit(h, rules, target, styleClasses, j);
    var post := rules[j + 1..];
    assert forall k :: 0 <= k < |post| ==> post[k] == rules[j + 1 + k];
    UndeclaredByMatching(h, post, target, styleClasses, n);
    var d0 := Declarations(MatchingRules(h, rules[..j], target, styleClasses));
    var d2 := Declarations(MatchingRules(h, post, target, styleClasses));
    var before := Merge(Merge(map[], d0), rules[j].styles);
    MergeAppend(map[], d0 + rules[j].styles, d2);
    MergeAppend(map[], d0, rules[j].styles);
    MergeDeclared(Merge(map[], d0), map[], rules[j].styles, n);
    MergeUntouched(before, d2, n);
  }

  /** Styles that do not declare a name leave its entry as it was. */
  lemma {:induction false} MergeUntouched(acc: map<string, Style>, styles: seq<Style>, n: string)
    requires n !in Names(styles) && n in acc
    ensures n in Merge(acc, styles) && Merge(acc, styles)[n] == acc[n]
  {
    if styles != [] {
      var init := styles[..|styles| - 1];
      var last := styles[|styles| - 1];
      assert styles == init + [last];
      assert last in styles;
      assert n !in Names(init) by {
        forall s | s in init ensures s.name != n { assert s in styles; }
      }
      MergeUntouched(acc, init, n);
    }
  }

  /** A rule all of whose selectors name a parent selector never matches in
      this version, so adding it changes no object's cascade. */
  lemma ParentOnlyRuleIsInert(h: Hierarchy, rules: seq<Rule>, rule: Rule, target: Target, styleClasses: Option<seq<string>>)
    requires forall s :: s in rule.selectors ==> s.parentSelector.Some?
    ensures Cascade(h, rules + [rule], target, styleClasses) == Cascade(h, rules, target, styleClasses)
  {
  }

  /** StyleRuleSet: the ordered rule list; later rules take precedence. */
  class StyleRuleSet {
    var rules: seq<Rule>

    constructor ()
      ensures rules == []
    {
      rules := [];
    }

    /** Rules.Add: the new rule is merged after every rule already present,
        so it takes precedence over them. */
    method AddRule(rule: Rule)
      modifies this
      ensures rules == old(rules) + [rule]
    {
      rules := rules + [rule];
    }

    /** StylesFor: looks up the target's classes, then for each matching rule
        in order writes each of its styles into a dictionary keyed by name. */
    method StylesFor(h: Hierarchy, target: Target, styleClassList: StyleClassList) returns (toApply: map<string, Style>)
      ensures toApply == Cascade(h, rules, target, styleClassList.ClassesFor(target))
    {
      var styles := styleClassList.ClassesFor(target);
      toApply := map[];
      for i := 0 to |rules|
        invariant toApply == Merge(map[], Declarations(MatchingRules(h, rules[..i], target, styles)))
      {
        var rule := rules[i];
        CascadeStep(h, rules, i, target, styles);
        if rule.Matches(h, target, styles) {
          ghost var acc := toApply;
          for j := 0 to |rule.styles|
            invariant toApply == Merge(acc, rule.styles[..j])
          {
            var style := rule.styles[j];
            assert rule.styles[..j + 1] == rule.styles[..j] + [style];
            MergeSnoc(acc, rule.styles[..j], style);
            toApply := toApply[style.name := style];
          }
          assert rule.styles[..|rule.styles|] == rule.styles;
        }
      }
      assert rules[..|rules|] == rules;
    }
  }
}
