/// Facts that join the compiler to the key handler: the rules `initialize`
/// compiles satisfy what the sign lemmas of `ReducerFacts` ask for.
module HelperFacts {
  import opened MaskRules
  import opened CompilerFacts
  import opened KeyReducer
  import opened ReducerFacts

  /// Restricting a table to one area keeps distinct offsets when rules of
  /// the same area at different positions of the table never share one.
  lemma {:induction false} AreaRulesDistinct(rules: seq<CharRule>, area: nat)
    requires forall a, b :: 0 <= a < |rules| && 0 <= b < |rules| && a != b && rules[a].area == rules[b].area ==>
      rules[a].offset != rules[b].offset
    ensures DistinctOffsets(AreaRules(rules, area))
    decreases |rules|
  {
    if rules != [] {
      var tail := rules[1..];
      AreaRulesDistinct(tail, area);
      var r := AreaRules(rules, area);
      var rest := AreaRules(tail, area);
      if rules[0].area == area {
        assert r == [rules[0]] + rest;
        forall b | 0 < b < |r|
          ensures r[0].offset != r[b].offset
        {
          assert r[b] in rest;
          var k :| 0 <= k < |tail| && tail[k] == r[b];
          assert rules[k + 1] == r[b];
        }
      }
    }
  }

  /// The character rules compiled for any one area sit at distinct offsets,
  /// so a "+" or "-" realigns the area's sign group as `SignKeyRealigns`
  /// describes.
  lemma CompiledAreaRulesDistinct(masks: seq<string>, delimiterLength: nat, area: nat)
    ensures DistinctOffsets(AreaRules(Compile(masks, delimiterLength).tables.valuesRange, area))
  {
    CompiledOffsetsDistinct(masks, delimiterLength);
    AreaRulesDistinct(Compile(masks, delimiterLength).tables.valuesRange, area);
  }
}
