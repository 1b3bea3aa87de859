/** What a breakpoint query means, given which markers are visible. Page
    visibility is an oracle from breakpoint name to bool; everything else is
    index arithmetic on the ordered list of names. */
module Resolution {
  import opened Expressions
  import opened Breakpoints

  datatype Option<T> = None | Some(value: T)

  /** Is the marker of this breakpoint currently displayed? */
  type Visibility = string -> bool

  /** Reference meaning of a comparison: does the breakpoint at index `i` lie
      on the side of `pos` that the expression names? */
  predicate Accepts(e: Expression, pos: int, i: int)
  {
    || (e.operator == "<" && (i < pos || (e.orEqual && i == pos)))
    || (e.operator == ">" && (i > pos || (e.orEqual && i == pos)))
  }

  /** The half-open slice `[start, end)` of the name list that an expression
      about the breakpoint at `pos` selects. It lies within the list and holds
      exactly the indices the comparison accepts. */
  function SliceBounds(e: Expression, pos: nat, len: nat): (b: (nat, nat))
    requires pos < len
    ensures b.0 <= b.1 <= len
    ensures forall i :: b.0 <= i < b.1 <==> 0 <= i < len && Accepts(e, pos, i)
  {
    if e.operator == "<" then (0, if e.orEqual then pos + 1 else pos)
    else if e.operator == ">" then (if e.orEqual then pos else pos + 1, len)
    else (0, 0)
  }

  /** Some breakpoint of the list has a visible marker. */
  ghost predicate AnyVisible(list: seq<string>, visible: Visibility)
  {
    exists i :: 0 <= i < |list| && visible(list[i])
  }

  /** OR of visibility over a list, stopping at the first visible marker. */
  method IsAnyActive(list: seq<string>, visible: Visibility) returns (found: bool)
    ensures found <==> AnyVisible(list, visible)
    ensures list == [] ==> !found
  {
    found := false;
    for i := 0 to |list|
      invariant !found
      invariant forall k :: 0 <= k < i ==> !visible(list[k])
    {
      if visible(list[i]) {
        found := true;
        return;
      }
    }
    return;
  }

  /** Result of an expression query; None stands for `undefined`, answered
      when the named breakpoint is not configured. */
  ghost function MatchSpec(names: seq<string>, visible: Visibility, s: string): Option<bool>
  {
    var e := Split(s);
    var pos := IndexOf(names, e.breakpointName);
    if pos == -1 then None
    else
      var b := SliceBounds(e, pos, |names|);
      Some(AnyVisible(names[b.0..b.1], visible))
  }

  /** Result of any query: an expression, or a breakpoint name asked directly. */
  ghost function QuerySpec(names: seq<string>, visible: Visibility, q: string): Option<bool>
  {
    if IsAnExpression(q) then MatchSpec(names, visible, q) else Some(visible(q))
  }

  /** The slice holds a visible breakpoint iff some accepted index does. */
  lemma SliceVisible(names: seq<string>, visible: Visibility, e: Expression, pos: nat)
    requires pos < |names|
    ensures var b := SliceBounds(e, pos, |names|);
      (AnyVisible(names[b.0..b.1], visible)
       <==> exists i :: 0 <= i < |names| && Accepts(e, pos, i) && visible(names[i]))
  {
    var b := SliceBounds(e, pos, |names|);
    var sl := names[b.0..b.1];
    if AnyVisible(sl, visible) {
      var j :| 0 <= j < |sl| && visible(sl[j]);
      assert Accepts(e, pos, b.0 + j) && visible(names[b.0 + j]);
    }
    if exists i :: 0 <= i < |names| && Accepts(e, pos, i) && visible(names[i]) {
      var i :| 0 <= i < |names| && Accepts(e, pos, i) && visible(names[i]);
      assert sl[i - b.0] == names[i];
    }
  }

  /** An expression about a configured breakpoint is true iff some breakpoint
      the comparison accepts is visible; about an unknown one it has no value. */
  lemma MatchSemantics(names: seq<string>, visible: Visibility, s: string)
    ensures MatchSpec(names, visible, s).None? <==> Split(s).breakpointName !in names
    ensures Split(s).breakpointName in names ==>
      var e := Split(s);
      var pos := IndexOf(names, e.breakpointName);
      MatchSpec(names, visible, s)
        == Some(exists i :: 0 <= i < |names| && Accepts(e, pos, i) && visible(names[i]))
  {
    var e := Split(s);
    var pos := IndexOf(names, e.breakpointName);
    if pos != -1 {
      SliceVisible(names, visible, e, pos);
    }
  }

  /** The expression `op + name` for a configured name, with the name's index. */
  lemma ExpressionOf(names: seq<string>, pos: nat, op: string, orEqual: bool)
    requires Unique(names)
    requires pos < |names|
    requires op == "<" || op == ">"
    requires orEqual || !StartsWithEquals(names[pos])
    ensures var q := op + (if orEqual then "=" else "") + names[pos];
      && IsAnExpression(q)
      && Split(q) == Expression(op, orEqual, names[pos])
      && IndexOf(names, names[pos]) == pos
  {
    JoinSplit(Expression(op, orEqual, names[pos]));
    IndexOfUnique(names, pos);
  }

  /** `<name` holds iff some breakpoint before it is visible. */
  lemma QueryLess(names: seq<string>, visible: Visibility, pos: nat)
    requires Unique(names)
    requires pos < |names|
    requires !StartsWithEquals(names[pos])
    ensures QuerySpec(names, visible, "<" + names[pos])
      == Some(exists i :: 0 <= i < pos && visible(names[i]))
  {
    ExpressionOf(names, pos, "<", false);
    assert "<" + "" + names[pos] == "<" + names[pos];
    MatchSemantics(names, visible, "<" + names[pos]);
  }

  /** `<=name` holds iff it or some breakpoint before it is visible. */
  lemma QueryLessOrEqual(names: seq<string>, visible: Visibility, pos: nat)
    requires Unique(names)
    requires pos < |names|
    ensures QuerySpec(names, visible, "<=" + names[pos])
      == Some(exists i :: 0 <= i <= pos && visible(names[i]))
  {
    ExpressionOf(names, pos, "<", true);
    assert "<" + "=" + names[pos] == "<=" + names[pos];
    MatchSemantics(names, visible, "<=" + names[pos]);
  }

  /** `>name` holds iff some breakpoint after it is visible. */
  lemma QueryGreater(names: seq<string>, visible: Visibility, pos: nat)
    requires Unique(names)
    requires pos < |names|
    requires !StartsWithEquals(names[pos])
    ensures QuerySpec(names, visible, ">" + names[pos])
      == Some(exists i :: pos < i < |names| && visible(names[i]))
  {
    ExpressionOf(names, pos, ">", false);
    assert ">" + "" + names[pos] == ">" + names[pos];
    MatchSemantics(names, visible, ">" + names[pos]);
  }

  /** `>=name` holds iff it or some breakpoint after it is visible. */
  lemma QueryGreaterOrEqual(names: seq<string>, visible: Visibility, pos: nat)
    requires Unique(names)
    requires pos < |names|
    ensures QuerySpec(names, visible, ">=" + names[pos])
      == Some(exists i :: pos <= i < |names| && visible(names[i]))
  {
    ExpressionOf(names, pos, ">", true);
    assert ">" + "=" + names[pos] == ">=" + names[pos];
    MatchSemantics(names, visible, ">=" + names[pos]);
  }

  /** Nothing lies below the smallest breakpoint or above the largest. */
  lemma EmptyRangeEdges(names: seq<string>, visible: Visibility)
    requires Unique(names)
    requires |names| > 0
    ensures !StartsWithEquals(names[0]) ==> QuerySpec(names, visible, "<" + names[0]) == Some(false)
    ensures !StartsWithEquals(names[|names| - 1]) ==>
      QuerySpec(names, visible, ">" + names[|names| - 1]) == Some(false)
  {
    if !StartsWithEquals(names[0]) {
      QueryLess(names, visible, 0);
    }
    if !StartsWithEquals(names[|names| - 1]) {
      QueryGreater(names, visible, |names| - 1);
    }
  }

  /** An expression naming no configured breakpoint has no value, whatever is visible. */
  lemma QueryUnknown(names: seq<string>, visible: Visibility, q: string)
    requires IsAnExpression(q)
    requires Split(q).breakpointName !in names
    ensures QuerySpec(names, visible, q) == None
  {
    MatchSemantics(names, visible, q);
  }

  /** A query that is not an expression asks for that breakpoint's marker. */
  lemma QueryDirect(names: seq<string>, visible: Visibility, q: string)
    requires !IsAnExpression(q)
    ensures QuerySpec(names, visible, q) == Some(visible(q))
  {
  }

  /** Whether `current` counts each breakpoint: querying its name answers
      true (a name that is itself an expression is evaluated as one). */
  ghost function HitList(names: seq<string>, visible: Visibility): seq<bool>
  {
    seq(|names|, k requires 0 <= k < |names| => QuerySpec(names, visible, names[k]) == Some(true))
  }

  /** For plain names a hit is a visible marker. */
  lemma HitsPlain(names: seq<string>, visible: Visibility)
    requires PlainNames(names)
    ensures |HitList(names, visible)| == |names|
    ensures forall k :: 0 <= k < |names| ==> HitList(names, visible)[k] == visible(names[k])
  {
    forall k | 0 <= k < |names| ensures HitList(names, visible)[k] == visible(names[k]) {
      QueryDirect(names, visible, names[k]);
    }
  }

  /** The name `current` reports after scanning the first `n` breakpoints: the
      last name that hit, or the sentinel. */
  function CurrentOf(names: seq<string>, hits: seq<bool>, n: nat): string
    requires n <= |names| == |hits|
  {
    if n == 0 then "unrecognized"
    else if hits[n - 1] then names[n - 1]
    else CurrentOf(names, hits, n - 1)
  }

  /** `k` is the last index below `n` that hits. */
  predicate LastHit(hits: seq<bool>, n: nat, k: nat)
    requires n <= |hits|
  {
    k < n && hits[k] && forall j :: k < j < n ==> !hits[j]
  }

  /** No hit: the sentinel. */
  lemma {:induction false} CurrentNoneVisible(names: seq<string>, hits: seq<bool>, n: nat)
    requires n <= |names| == |hits|
    requires forall k :: 0 <= k < n ==> !hits[k]
    ensures CurrentOf(names, hits, n) == "unrecognized"
  {
    if n > 0 {
      CurrentNoneVisible(names, hits, n - 1);
    }
  }

  /** Some hit: the hit latest in configuration order. */
  lemma {:induction false} CurrentLastWins(names: seq<string>, hits: seq<bool>, n: nat)
    requires n <= |names| == |hits|
    requires exists k :: 0 <= k < n && hits[k]
    ensures exists k: nat :: LastHit(hits, n, k) && CurrentOf(names, hits, n) == names[k]
  {
    var k :| 0 <= k < n && hits[k];
    if hits[n - 1] {
      assert LastHit(hits, n, n - 1);
    } else {
      assert k < n - 1;
      CurrentLastWins(names, hits, n - 1);
      var k': nat :| LastHit(hits, n - 1, k') && CurrentOf(names, hits, n - 1) == names[k'];
      assert LastHit(hits, n, k');
    }
  }

  /** Exactly one hit: that breakpoint's name. */
  lemma CurrentSingle(names: seq<string>, hits: seq<bool>, k: nat)
    requires k < |names| == |hits|
    requires hits[k]
    requires forall j :: 0 <= j < |hits| && j != k ==> !hits[j]
    ensures CurrentOf(names, hits, |names|) == names[k]
  {
    CurrentLastWins(names, hits, |names|);
  }
}
