/** The breakpoint configuration: an ordered mapping from breakpoint name to
    marker descriptor, listed from the smallest viewport to the largest, and
    the two built-in presets. */
module Breakpoints {
  import opened Expressions

  /** (name, marker descriptor) pairs in configuration order. */
  type Config = seq<(string, string)>

  /** The names in configuration order (`Object.keys` of the mapping). */
  function Names(cfg: Config): seq<string>
  {
    seq(|cfg|, i requires 0 <= i < |cfg| => cfg[i].0)
  }

  /** A JavaScript object cannot hold a key twice. */
  predicate UniqueNames(cfg: Config)
  {
    forall i, j :: 0 <= i < j < |cfg| ==> cfg[i].0 != cfg[j].0
  }

  predicate Unique(names: seq<string>)
  {
    forall i, j :: 0 <= i < j < |names| ==> names[i] != names[j]
  }

  /** A plain name is not itself read as an expression when it is queried. */
  predicate PlainNames(names: seq<string>)
  {
    forall i :: 0 <= i < |names| ==> !IsAnExpression(names[i])
  }

  lemma UniqueNamesOfConfig(cfg: Config)
    requires UniqueNames(cfg)
    ensures Unique(Names(cfg))
  {
    forall i, j | 0 <= i < j < |cfg| ensures Names(cfg)[i] != Names(cfg)[j] {
      assert Names(cfg)[i] == cfg[i].0 && Names(cfg)[j] == cfg[j].0;
    }
  }

  /** `Array.prototype.indexOf`: the first position of `x`, or -1. */
  function IndexOf(names: seq<string>, x: string): (r: int)
    ensures r == -1 <==> x !in names
    ensures r != -1 ==> 0 <= r < |names| && names[r] == x && x !in names[..r]
  {
    if |names| == 0 then -1
    else if names[0] == x then 0
    else
      var k := IndexOf(names[1..], x);
      assert names[1..][..if k == -1 then 0 else k] == names[1..if k == -1 then 1 else k + 1];
      if k == -1 then -1 else k + 1
  }

  /** With unique names, the position of a name is its index. */
  lemma IndexOfUnique(names: seq<string>, pos: nat)
    requires Unique(names)
    requires pos < |names|
    ensures IndexOf(names, names[pos]) == pos
  {
  }

  /** Bootstrap 5: marker class lists for six tiers. */
  function BootstrapPreset(): Config
  {
    [ ("xs", "device-xs d-block d-sm-none"),
      ("sm", "device-sm d-none d-sm-block d-md-none"),
      ("md", "device-md d-none d-md-block d-lg-none"),
      ("lg", "device-lg d-none d-lg-block d-xl-none"),
      ("xl", "device-xl d-none d-xl-block d-xxl-none"),
      ("xxl", "device-xxl d-none d-xxl-block") ]
  }

  /** Foundation 5: marker HTML for six tiers. */
  function FoundationPreset(): Config
  {
    [ ("xsmall", "<div class=\"device-xs show-for-xsmall-only\"></div>"),
      ("small", "<div class=\"device-sm show-for-small-only\"></div>"),
      ("medium", "<div class=\"device-md show-for-medium-only\"></div>"),
      ("large", "<div class=\"device-lg show-for-large-only\"></div>"),
      ("xlarge", "<div class=\"device-xl show-for-xlarge-only\"></div>"),
      ("xxlarge", "<div class=\"device-xxl show-for-xxlarge-only\"></div>") ]
  }

  /** Bootstrap's tiers, smallest first: six distinct plain names. */
  lemma BootstrapWellFormed()
    ensures Names(BootstrapPreset()) == ["xs", "sm", "md", "lg", "xl", "xxl"]
    ensures UniqueNames(BootstrapPreset()) && PlainNames(Names(BootstrapPreset()))
  {
  }

  /** Foundation's tiers, smallest first: six distinct plain names. */
  lemma FoundationWellFormed()
    ensures Names(FoundationPreset()) == ["xsmall", "small", "medium", "large", "xlarge", "xxlarge"]
    ensures UniqueNames(FoundationPreset()) && PlainNames(Names(FoundationPreset()))
  {
  }

  /** Lower-case mapping of one character (ASCII letters only). */
  function LowerChar(c: char): char
  {
    if 'A' <= c <= 'Z' then (c as int + 32) as char else c
  }

  /** `String.prototype.toLowerCase`, restricted to ASCII letters. */
  function Lower(s: string): (r: string)
    ensures |r| == |s|
    ensures forall i :: 0 <= i < |r| ==> !('A' <= r[i] <= 'Z')
    ensures forall i :: 0 <= i < |s| ==>
      if 'A' <= s[i] <= 'Z' then 'a' <= r[i] <= 'z' && r[i] as int == s[i] as int + 32
      else r[i] == s[i]
  {
    seq(|s|, i requires 0 <= i < |s| => LowerChar(s[i]))
  }
}
