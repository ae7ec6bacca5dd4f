/** The mapping for the test class of the unit tests: `A` (an `int`) and
    `B` (an `Integer`) are kept; `C` is not static, `D` is not public
    and `E` is not an integer. */
module EnumUtilsScenarios {
  import opened Common
  import opened EnumUtils

  function TestFields(): seq<Field>
  {
    [ Field("A", true, true, true, IntType, Some(1), true),
      Field("B", true, true, true, IntegerType, Some(2), true),
      Field("C", true, false, true, IntType, Some(3), true),
      Field("D", false, true, true, IntType, Some(4), true),
      Field("E", true, true, true, OtherType("Class"), None, true) ]
  }

  method TestFieldMapping() returns (m: map<string, Option<int>>)
    ensures |m| == 2 && "A" in m && m["A"] == Some(1) && "B" in m && m["B"] == Some(2)
  {
    m := GetStaticFinalFieldMapping(TestFields());
    var fs := TestFields();
    assert fs[..4][..3][..2][..1][..0] == [];
    assert Mapping(fs[..1]) == map["A" := Some(1)];
    assert Mapping(fs[..2]) == map["A" := Some(1), "B" := Some(2)];
    assert Mapping(fs[..4]) == Mapping(fs[..2]) by {
      assert fs[..4][..3] == fs[..3] && fs[..3][..2] == fs[..2];
    }
    assert fs[..5] == fs;
  }
}
