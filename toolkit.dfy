/** The toolkit object: the configured framework and breakpoint mapping, and
    the queries answered against them. */
module Toolkit {
  import opened Expressions
  import opened Breakpoints
  import opened Resolution

  /** The breakpoints a framework name selects: a built-in preset for
      `bootstrap` and `foundation` (after lower-casing), the caller's mapping
      for any other name. */
  function Selected(framework: string, custom: Config): Config
  {
    if framework == "bootstrap" then BootstrapPreset()
    else if framework == "foundation" then FoundationPreset()
    else custom
  }

  /** `use` lower-cases the framework name first, so any capitalisation of a
      preset's name selects that preset. */
  lemma CaseVariantsSelectPresets(custom: Config)
    ensures Selected(Lower("Bootstrap"), custom) == BootstrapPreset()
    ensures Selected(Lower("FOUNDATION"), custom) == FoundationPreset()
  {
    assert Lower("Bootstrap") == "bootstrap";
    assert Lower("FOUNDATION") == "foundation";
  }

  class Toolkit {
    var framework: string
    var breakpoints: Config

    /** Breakpoint names are keys of one mapping, hence unique. */
    ghost predicate Valid()
      reads this
    {
      UniqueNames(breakpoints)
    }

    /** Creating the toolkit configures it for Bootstrap, as the module set-up
        does while no framework is chosen. */
    constructor ()
      ensures Valid()
      ensures framework == "bootstrap" && breakpoints == BootstrapPreset()
    {
      // The effect of `use('bootstrap')`: "bootstrap" is already lower case
      // and selects the Bootstrap preset.
      BootstrapWellFormed();
      framework := "bootstrap";
      breakpoints := BootstrapPreset();
    }

    /** Chooses the framework; the new state depends on the arguments only, so
        a later call replaces an earlier one. */
    method Use(frameworkName: string, custom: Config)
      requires UniqueNames(custom)
      modifies this
      ensures Valid()
      ensures framework == Lower(frameworkName)
      ensures breakpoints == Selected(Lower(frameworkName), custom)
    {
      BootstrapWellFormed();
      FoundationWellFormed();
      framework := Lower(frameworkName);
      if framework == "bootstrap" || framework == "foundation" {
        breakpoints := if framework == "bootstrap" then BootstrapPreset() else FoundationPreset();
      } else {
        breakpoints := custom;
      }
    }

    /** The four comparisons about the configured breakpoint at `pos`, as `Is`
        answers them over this toolkit's mapping. The names are unique because
        the toolkit is valid, so the comparison is anchored at `pos`. */
    lemma RangeQueries(visible: Visibility, pos: nat)
      requires Valid()
      requires pos < |breakpoints|
      ensures var n := breakpoints[pos].0;
        !StartsWithEquals(n) ==>
          QuerySpec(Names(breakpoints), visible, "<" + n)
            == Some(exists i :: 0 <= i < pos && visible(breakpoints[i].0))
      ensures var n := breakpoints[pos].0;
        QuerySpec(Names(breakpoints), visible, "<=" + n)
          == Some(exists i :: 0 <= i <= pos && visible(breakpoints[i].0))
      ensures var n := breakpoints[pos].0;
        !StartsWithEquals(n) ==>
          QuerySpec(Names(breakpoints), visible, ">" + n)
            == Some(exists i :: pos < i < |breakpoints| && visible(breakpoints[i].0))
      ensures var n := breakpoints[pos].0;
        QuerySpec(Names(breakpoints), visible, ">=" + n)
          == Some(exists i :: pos <= i < |breakpoints| && visible(breakpoints[i].0))
    {
      var names := Names(breakpoints);
      UniqueNamesOfConfig(breakpoints);
      assert forall i :: 0 <= i < |breakpoints| ==> names[i] == breakpoints[i].0;
      if !StartsWithEquals(names[pos]) {
        QueryLess(names, visible, pos);
        QueryGreater(names, visible, pos);
      }
      QueryLessOrEqual(names, visible, pos);
      QueryGreaterOrEqual(names, visible, pos);
    }

    /** Evaluates an expression against the configured names. */
    method IsMatchingExpression(str: string, visible: Visibility) returns (r: Option<bool>)
      ensures r == MatchSpec(Names(breakpoints), visible, str)
      ensures r.None? <==> Split(str).breakpointName !in Names(breakpoints)
    {
      var expression := Split(str);
      var breakpointList := Names(breakpoints);
      var pos := IndexOf(breakpointList, expression.breakpointName);
      if pos != -1 {
        var start, end := 0, 0;
        if expression.operator == "<" {
          start := 0;
          if expression.orEqual {
            pos := pos + 1;
            end := pos;
          } else {
            end := pos;
          }
        }
        if expression.operator == ">" {
          if expression.orEqual {
            start := pos;
          } else {
            pos := pos + 1;
            start := pos;
          }
          end := |breakpointList|;
        }
        var acceptedBreakpoints := breakpointList[start..end];
        var found := IsAnyActive(acceptedBreakpoints, visible);
        return Some(found);
      }
      MatchSemantics(breakpointList, visible, str);
      return None;
    }

    /** Answers a direct breakpoint name or an expression. */
    method Is(str: string, visible: Visibility) returns (r: Option<bool>)
      ensures r == QuerySpec(Names(breakpoints), visible, str)
      ensures !IsAnExpression(str) ==> r == Some(visible(str))
    {
      if IsAnExpression(str) {
        r := IsMatchingExpression(str, visible);
        return;
      }
      return Some(visible(str));
    }

    /** The last breakpoint, in configuration order, whose query answers true,
        or "unrecognized" when none does. */
    method Current(visible: Visibility) returns (name: string)
      ensures name == CurrentOf(Names(breakpoints), HitList(Names(breakpoints), visible), |breakpoints|)
    {
      name := "unrecognized";
      for i := 0 to |breakpoints|
        invariant name == CurrentOf(Names(breakpoints), HitList(Names(breakpoints), visible), i)
      {
        var key := breakpoints[i].0;
        var hit := Is(key, visible);
        if hit == Some(true) {
          name := key;
        }
      }
    }
  }
}
