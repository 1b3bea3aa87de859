/** A worked scenario of the query semantics: four tiers (for instance
    `xs, sm, md, lg`) of which only the third marker is visible. */
module Scenario {
  import opened Expressions
  import opened Breakpoints
  import opened Resolution

  predicate FourTiers(names: seq<string>, xs: string, sm: string, md: string, lg: string)
  {
    && names == [xs, sm, md, lg]
    && Unique(names)
    && PlainNames(names)
    && !StartsWithEquals(md)
  }

  /** `current` and a direct query report the visible tier. */
  lemma FourTierCurrent(names: seq<string>, visible: Visibility, xs: string, sm: string, md: string, lg: string)
    requires FourTiers(names, xs, sm, md, lg)
    requires visible(md) && !visible(xs) && !visible(sm) && !visible(lg)
    ensures CurrentOf(names, HitList(names, visible), |names|) == md
    ensures QuerySpec(names, visible, md) == Some(true)
  {
    HitsPlain(names, visible);
    CurrentSingle(names, HitList(names, visible), 2);
    QueryDirect(names, visible, md);
  }

  /** `<md` and `>md` are false, `<=md` and `>=sm` are true. */
  lemma FourTierExpressions(names: seq<string>, visible: Visibility, xs: string, sm: string, md: string, lg: string)
    requires FourTiers(names, xs, sm, md, lg)
    requires visible(md) && !visible(xs) && !visible(sm) && !visible(lg)
    ensures QuerySpec(names, visible, "<" + md) == Some(false)
    ensures QuerySpec(names, visible, "<=" + md) == Some(true)
    ensures QuerySpec(names, visible, ">" + md) == Some(false)
    ensures QuerySpec(names, visible, ">=" + sm) == Some(true)
  {
    QueryLess(names, visible, 2);
    QueryLessOrEqual(names, visible, 2);
    assert visible(names[2]);
    QueryGreater(names, visible, 2);
    QueryGreaterOrEqual(names, visible, 1);
  }

  /** Bootstrap's own tier names meet the scenario's conditions. */
  lemma BootstrapTiersFit()
    ensures FourTiers(["xs", "sm", "md", "lg"], "xs", "sm", "md", "lg")
  {
  }
}
