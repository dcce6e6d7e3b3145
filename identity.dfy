/** The internal identity of a record: the entity's name followed by the record's primary
    values, concatenated without any separator. */
module Identity {
  import opened Schema

  /** The values of the primary attributes among `attributes`, in declaration order, glued
      together. Position `i` of `values` holds the value of `attributes[i]`. */
  function PrimaryConcat(attributes: seq<string>, primary: seq<string>, values: seq<string>): string
    requires |attributes| <= |values|
    decreases |attributes|
  {
    if attributes == [] then ""
    else
      var k := |attributes| - 1;
      PrimaryConcat(attributes[..k], primary, values) + (if attributes[k] in primary then values[k] else "")
  }

  /** The internal identity of a record with positional `values` of entity `e`. */
  function InternalId(e: Entity, values: seq<string>): string
    requires |e.attributes| <= |values|
  {
    e.name + PrimaryConcat(e.attributes, e.primaryAttributes, values)
  }

  /** The same concatenation taken over a list of (attribute, value) pairs in list order,
      as the edge upload computes it from its keyval list. */
  function KeyvalConcat(keyval: seq<(string, string)>, primary: seq<string>): string
    decreases |keyval|
  {
    if keyval == [] then ""
    else
      var k := |keyval| - 1;
      KeyvalConcat(keyval[..k], primary) + (if keyval[k].0 in primary then keyval[k].1 else "")
  }

  /** Only the primary positions count: records that agree there get the same concatenation,
      whatever their other fields and however many fields follow. */
  lemma {:induction false} PrimaryConcatAgrees(attributes: seq<string>, primary: seq<string>, v1: seq<string>, v2: seq<string>)
    requires |attributes| <= |v1| && |attributes| <= |v2|
    requires forall i :: 0 <= i < |attributes| && attributes[i] in primary ==> v1[i] == v2[i]
    ensures PrimaryConcat(attributes, primary, v1) == PrimaryConcat(attributes, primary, v2)
    decreases |attributes|
  {
    if attributes != [] {
      var k := |attributes| - 1;
      PrimaryConcatAgrees(attributes[..k], primary, v1, v2);
    }
  }

  /** Two records of one entity whose primary values agree collide, whatever else differs. */
  lemma SamePrimaryValuesSameId(e: Entity, v1: seq<string>, v2: seq<string>)
    requires |e.attributes| <= |v1| && |e.attributes| <= |v2|
    requires forall i :: 0 <= i < |e.attributes| && e.attributes[i] in e.primaryAttributes ==> v1[i] == v2[i]
    ensures InternalId(e, v1) == InternalId(e, v2)
  {
    PrimaryConcatAgrees(e.attributes, e.primaryAttributes, v1, v2);
  }

  /** Fields past the declared attributes play no part in the identity. */
  lemma TrailingFieldsIgnored(e: Entity, values: seq<string>)
    requires |e.attributes| <= |values|
    ensures InternalId(e, values) == InternalId(e, values[..|e.attributes|])
  {
    PrimaryConcatAgrees(e.attributes, e.primaryAttributes, values, values[..|e.attributes|]);
  }

  /** Concatenating pairs that were zipped from attributes and values is the positional
      concatenation: iterating the keyval list gives the identity in declaration order. */
  lemma {:induction false} KeyvalConcatOfZip(attributes: seq<string>, primary: seq<string>, values: seq<string>)
    requires |attributes| <= |values|
    ensures KeyvalConcat(Zip(attributes, values), primary) == PrimaryConcat(attributes, primary, values)
    decreases |attributes|
  {
    if attributes != [] {
      var k := |attributes| - 1;
      KeyvalConcatOfZip(attributes[..k], primary, values);
      assert Zip(attributes, values)[..k] == Zip(attributes[..k], values);
    }
  }

  /** Without a separator, different primary values can give one identity: ("1", "23") and
      ("12", "3") collide. */
  lemma ConcatenationAliases()
    ensures var e := Entity("Person", "", ["a", "b"], ["a", "b"]);
            InternalId(e, ["1", "23"]) == InternalId(e, ["12", "3"]) == "Person123"
  {
    var e := Entity("Person", "", ["a", "b"], ["a", "b"]);
    assert e.attributes[..1] == ["a"];
    assert PrimaryConcat(["a"], ["a", "b"], ["1", "23"]) == "1";
    assert PrimaryConcat(["a"], ["a", "b"], ["12", "3"]) == "12";
  }
}
