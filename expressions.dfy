/** Comparison expressions of the breakpoint query language: `<name`, `<=name`,
    `>name`, `>=name`. Recognising an expression and splitting it into its parts
    are pure operations on the query string. */
module Expressions {

  /** The one-character string at index `i`, or the empty string past the end,
      as JavaScript's `String.prototype.charAt` answers. */
  function CharAt(s: string, i: nat): (c: string)
    ensures |c| <= 1
    ensures i < |s| ==> c == [s[i]]
    ensures i >= |s| ==> c == ""
  {
    if i < |s| then [s[i]] else ""
  }

  /** The suffix from index `i`, or the empty string when `i` is past the end,
      as `String.prototype.slice(i)` answers for a non-negative `i`. */
  function Suffix(s: string, i: nat): (t: string)
    ensures i <= |s| ==> t == s[i..]
    ensures i >= |s| ==> t == ""
  {
    if i <= |s| then s[i..] else ""
  }

  /** A query is an expression when its first character is a comparator. */
  function IsAnExpression(s: string): (b: bool)
    ensures b <==> |s| > 0 && (s[0] == '<' || s[0] == '>')
  {
    CharAt(s, 0) == "<" || CharAt(s, 0) == ">"
  }

  /** The parts of an expression: the comparator (in the source a string of at
      most one character), whether `=` follows it, and the breakpoint name. */
  datatype Expression = Expression(operator: string, orEqual: bool, breakpointName: string)

  /** Writes the parts back as one string. */
  function Join(e: Expression): string
  {
    e.operator + (if e.orEqual then "=" else "") + e.breakpointName
  }

  predicate StartsWithEquals(s: string)
  {
    |s| > 0 && s[0] == '='
  }

  /** Splits a query into comparator, optional `=` and breakpoint name. The
      parts always join back to the query, whatever the query is. */
  function Split(s: string): (e: Expression)
    ensures |s| > 0 ==> e.operator == [s[0]]
    ensures |s| == 0 ==> e == Expression("", false, "")
    ensures e.orEqual <==> |s| >= 2 && s[1] == '='
    ensures e.breakpointName == if e.orEqual then s[2..] else if |s| > 0 then s[1..] else ""
    ensures Join(e) == s
  {
    var operator := CharAt(s, 0);
    var orEqual := CharAt(s, 1) == "=";
    var index := 1 + (if orEqual then 1 else 0);
    var e := Expression(operator, orEqual, Suffix(s, index));
    assert Join(e) == s by {
      if |s| > 0 {
        if orEqual {
          assert s == [s[0]] + "=" + s[2..];
        } else {
          assert s == [s[0]] + s[1..];
        }
      }
    }
    e
  }

  /** The other direction of the round trip: a one-character comparator and a
      name are recovered from their joined string, unless the name itself
      begins with `=` and no `=` was written, in which case that `=` is read
      as the comparator's. */
  lemma JoinSplit(e: Expression)
    requires |e.operator| == 1
    requires e.orEqual || !StartsWithEquals(e.breakpointName)
    ensures Split(Join(e)) == e
  {
    var s := Join(e);
    if e.orEqual {
      assert s == e.operator + "=" + e.breakpointName;
      assert s[1] == '=';
      assert s[2..] == e.breakpointName;
    } else {
      assert s == e.operator + e.breakpointName;
      assert s[1..] == e.breakpointName;
    }
    assert [s[0]] == e.operator;
  }

  /** The quirk above: after a bare comparator, a name that begins with `=`
      loses that `=` to the comparator, so `"<" + "=md"` is read as `<=md`. */
  lemma LeadingEqualsIsTakenByComparator(c: string, n: string)
    requires c == "<" || c == ">"
    requires StartsWithEquals(n)
    ensures Split(c + n) == Expression(c, true, n[1..])
    ensures Split(c + n) != Expression(c, false, n)
  {
    var s := c + n;
    assert s[1] == n[0];
    assert s[2..] == n[1..];
  }
}
