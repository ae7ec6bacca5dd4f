/** The name-to-value mapping of a class's integer constants: the
    fields that are public, static and final and typed `int` or
    `Integer`. Fields are given as records rather than found by
    reflection. */
module EnumUtils {
  import opened Common

  /** The declared type of a field, as far as the filter cares. */
  datatype FieldType = IntType | IntegerType | OtherType(name: string)

  /** A declared field: its name, its modifiers, its type, the value
      reading it yields (an `Integer` field may hold null, here `None`),
      and whether reading it is allowed at all. */
  datatype Field = Field(
    name: string,
    isPublic: bool, isStatic: bool, isFinal: bool,
    fieldType: FieldType,
    value: Option<int>,
    readable: bool)

  /** The filter: public, static, final, and typed `int` or `Integer`. */
  predicate Selected(f: Field)
  {
    f.isPublic && f.isStatic && f.isFinal && (f.fieldType == IntType || f.fieldType == IntegerType)
  }

  /** A selected field whose value can be read; reading a field that is
      not accessible fails and the field is skipped. */
  predicate Entered(f: Field)
  {
    Selected(f) && f.readable
  }

  /** The map built from `fields` in order, each entered field putting its
      name and value, a later put replacing an earlier one. */
  function Mapping(fields: seq<Field>): map<string, Option<int>>
  {
    if fields == [] then map[]
    else
      var m := Mapping(fields[..|fields| - 1]);
      var f := fields[|fields| - 1];
      if Entered(f) then m[f.name := f.value] else m
  }

  /** `getStaticFinalFieldMapping`: one pass over the declared fields,
      putting each entered field into the map. */
  method GetStaticFinalFieldMapping(fields: seq<Field>) returns (ret: map<string, Option<int>>)
    ensures ret == Mapping(fields)
  {
    ret := map[];
    for i := 0 to |fields|
      invariant ret == Mapping(fields[..i])
    {
      assert fields[..i + 1][..i] == fields[..i];
      var f := fields[i];
      if f.isPublic && f.isStatic && f.isFinal && (f.fieldType == IntType || f.fieldType == IntegerType) {
        if f.readable {
          ret := ret[f.name := f.value];
        }
      }
    }
    assert fields[..|fields|] == fields;
  }

  /** A name is in the map exactly when some entered field has it. */
  lemma {:induction false} MappingKeys(fields: seq<Field>, name: string)
    ensures name in Mapping(fields) <==> exists i :: 0 <= i < |fields| && Entered(fields[i]) && fields[i].name == name
  {
    if fields != [] {
      var prefix := fields[..|fields| - 1];
      MappingKeys(prefix, name);
      if name in Mapping(prefix) {
        var i :| 0 <= i < |prefix| && Entered(prefix[i]) && prefix[i].name == name;
        assert fields[i] == prefix[i];
      }
      if exists i :: 0 <= i < |fields| && Entered(fields[i]) && fields[i].name == name {
        var i :| 0 <= i < |fields| && Entered(fields[i]) && fields[i].name == name;
        if i < |prefix| {
          assert prefix[i] == fields[i];
        }
      }
    }
  }

  /** The value a name maps to is the value of the last entered field
      with that name. */
  lemma {:induction false} MappingValue(fields: seq<Field>, i: nat)
    requires i < |fields| && Entered(fields[i])
    requires forall j :: i < j < |fields| && Entered(fields[j]) ==> fields[j].name != fields[i].name
    ensures fields[i].name in Mapping(fields) && Mapping(fields)[fields[i].name] == fields[i].value
  {
    var prefix := fields[..|fields| - 1];
    if i < |fields| - 1 {
      forall j | i < j < |prefix| && Entered(prefix[j])
        ensures prefix[j].name != prefix[i].name
      {
        assert prefix[j] == fields[j];
      }
      MappingValue(prefix, i);
    }
  }

  /** Field names within one class are distinct. */
  predicate DistinctNames(fields: seq<Field>)
  {
    forall i, j :: 0 <= i < j < |fields| ==> fields[i].name != fields[j].name
  }

  /** With distinct names, every entered field maps its name to its own
      value, and nothing else is in the map. */
  lemma MappingOfClass(fields: seq<Field>)
    requires DistinctNames(fields)
    ensures forall i :: 0 <= i < |fields| && Entered(fields[i]) ==>
      fields[i].name in Mapping(fields) && Mapping(fields)[fields[i].name] == fields[i].value
    ensures forall name :: name in Mapping(fields) ==>
      exists i :: 0 <= i < |fields| && Entered(fields[i]) && fields[i].name == name
  {
    forall i | 0 <= i < |fields| && Entered(fields[i])
      ensures fields[i].name in Mapping(fields) && Mapping(fields)[fields[i].name] == fields[i].value
    {
      MappingValue(fields, i);
    }
    forall name | name in Mapping(fields)
      ensures exists i :: 0 <= i < |fields| && Entered(fields[i]) && fields[i].name == name
    {
      MappingKeys(fields, name);
    }
  }

  /** When every field is entered, the names in the map are exactly the
      field names. */
  lemma MappingKeySet(fields: seq<Field>)
    requires forall i :: 0 <= i < |fields| ==> Entered(fields[i])
    ensures Mapping(fields).Keys == set i | 0 <= i < |fields| :: fields[i].name
  {
    forall name: string
      ensures name in Mapping(fields).Keys <==> name in set i | 0 <= i < |fields| :: fields[i].name
    {
      MappingKeys(fields, name);
    }
  }

  /** A public static final `int` constant. */
  function IntConstant(name: string, value: int): Field
  {
    Field(name, true, true, true, IntType, Some(value), true)
  }
}
