/** The insert instructions the upload sends to the graph store, built from one record. */
module Instructions {
  import opened Schema
  import opened Identity

  /** Property under which a vertex stores its internal identity. */
  const NodeIdKey: string := "NodeId_Internal"

  /** Property under which an edge stores its internal identity. */
  const EdgeIdKey: string := "EdgeId_Internal"

  /** `g().AddV(label).Property(k, v)...` and
      `g().V().Has(source).AddE(label).Property(k, v)....To(g().V().Has(destination))`:
      properties are kept in the order the instruction adds them. */
  datatype Insert =
    | AddVertex(vertexLabel: string, properties: seq<(string, string)>)
    | AddEdge(edgeLabel: string, source: (string, string), properties: seq<(string, string)>, destination: (string, string))

  /** The vertex insert for a node record and its internal identity; `None` when the record
      has fewer fields than the node declares attributes (indexing past the end throws). */
  function NodeInsertOf(e: Entity, values: seq<string>): Option<(Insert, string)>
  {
    if |values| < |e.attributes| then None
    else
      var id := InternalId(e, values);
      Some((AddVertex(e.name, Zip(e.attributes, values) + [(NodeIdKey, id)]), id))
  }

  /** Builds the vertex insert attribute by attribute, growing the internal identity with each
      primary value on the way. */
  method BuildNodeInsert(e: Entity, values: seq<string>) returns (r: Option<(Insert, string)>)
    ensures r == NodeInsertOf(e, values)
    ensures r.None? <==> |values| < |e.attributes|
    ensures r.Some? ==>
              var (insert, id) := r.value;
              insert.AddVertex? && insert.vertexLabel == e.name &&
              |insert.properties| == |e.attributes| + 1 &&
              (forall i :: 0 <= i < |e.attributes| ==> insert.properties[i] == (e.attributes[i], values[i])) &&
              insert.properties[|e.attributes|] == (NodeIdKey, id)
  {
    var properties: seq<(string, string)> := [];
    var id := e.name;
    var i := 0;
    while i < |e.attributes|
      invariant 0 <= i <= |e.attributes| && i <= |values|
      invariant properties == Zip(e.attributes[..i], values)
      invariant id == e.name + PrimaryConcat(e.attributes[..i], e.primaryAttributes, values)
    {
      if i >= |values| {
        return None;
      }
      assert e.attributes[..i + 1][..i] == e.attributes[..i];
      properties := properties + [(e.attributes[i], values[i])];
      if e.attributes[i] in e.primaryAttributes {
        id := id + values[i];
      }
      i := i + 1;
    }
    assert e.attributes[..i] == e.attributes;
    properties := properties + [(NodeIdKey, id)];
    return Some((AddVertex(e.name, properties), id));
  }

  /** The keyval dictionary of an edge record: `None` when filling it throws, because the record
      is too short or an attribute name repeats. */
  function Keyval(attributes: seq<string>, values: seq<string>): Option<seq<(string, string)>>
  {
    if |values| < |attributes| || !Distinct(attributes) then None
    else Some(Zip(attributes, values))
  }

  /** Fills the keyval dictionary with `Add`, in attribute order. */
  method BuildKeyval(attributes: seq<string>, values: seq<string>) returns (keyval: Option<seq<(string, string)>>)
    ensures keyval == Keyval(attributes, values)
  {
    var pairs: seq<(string, string)> := [];
    var i := 0;
    while i < |attributes|
      invariant 0 <= i <= |attributes| && i <= |values|
      invariant Distinct(attributes[..i])
      invariant pairs == Zip(attributes[..i], values)
    {
      if i >= |values| {
        return None;
      }
      if attributes[i] in attributes[..i] {
        var j :| 0 <= j < i && attributes[..i][j] == attributes[i];
        assert attributes[j] == attributes[i];
        return None;
      }
      assert attributes[..i + 1] == attributes[..i] + [attributes[i]];
      pairs := pairs + [(attributes[i], values[i])];
      i := i + 1;
    }
    assert attributes[..i] == attributes;
    return Some(pairs);
  }

  /** The pairs of `keyval`, in order, whose key is neither endpoint attribute. */
  function KeptProperties(keyval: seq<(string, string)>, sourceKey: string, destinationKey: string): seq<(string, string)>
    decreases |keyval|
  {
    if keyval == [] then []
    else
      var k := |keyval| - 1;
      var kept := KeptProperties(keyval[..k], sourceKey, destinationKey);
      if keyval[k].0 != sourceKey && keyval[k].0 != destinationKey then kept + [keyval[k]] else kept
  }

  /** Exactly the non-endpoint pairs are kept. */
  lemma {:induction false} KeptPropertiesMembership(keyval: seq<(string, string)>, sourceKey: string, destinationKey: string)
    ensures forall p :: p in KeptProperties(keyval, sourceKey, destinationKey) <==>
                         p in keyval && p.0 != sourceKey && p.0 != destinationKey
    decreases |keyval|
  {
    if keyval != [] {
      var k := |keyval| - 1;
      KeptPropertiesMembership(keyval[..k], sourceKey, destinationKey);
      assert keyval == keyval[..k] + [keyval[k]];
    }
  }

  /** The edge insert for a keyval list and its internal identity, given the endpoint node types'
      identity attributes; `None` when either endpoint attribute is not in the list. */
  function EdgeInsertOf(edge: Edge, sourceKey: string, destinationKey: string, keyval: seq<(string, string)>): Option<(Insert, string)>
  {
    match (Lookup(keyval, sourceKey), Lookup(keyval, destinationKey))
    case (Some(source), Some(destination)) =>
      var id := edge.entity.name + KeyvalConcat(keyval, edge.entity.primaryAttributes);
      var properties := KeptProperties(keyval, sourceKey, destinationKey) + [(EdgeIdKey, id)];
      Some((AddEdge(edge.sourceNode + edge.destinationNode, (sourceKey, source), properties, (destinationKey, destination)), id))
    case _ => None
  }

  /** Builds the edge insert: looks up the source endpoint, walks the keyval list copying the
      non-endpoint pairs and growing the identity, then looks up the destination endpoint. */
  method BuildEdgeInsert(edge: Edge, sourceKey: string, destinationKey: string, keyval: seq<(string, string)>)
    returns (r: Option<(Insert, string)>)
    ensures r == EdgeInsertOf(edge, sourceKey, destinationKey, keyval)
  {
    var source := Lookup(keyval, sourceKey);
    if source.None? {
      return None;
    }
    var edgeLabel := edge.sourceNode + edge.destinationNode;
    var properties: seq<(string, string)> := [];
    var id := edge.entity.name;
    for k := 0 to |keyval|
      invariant properties == KeptProperties(keyval[..k], sourceKey, destinationKey)
      invariant id == edge.entity.name + KeyvalConcat(keyval[..k], edge.entity.primaryAttributes)
    {
      assert keyval[..k + 1][..k] == keyval[..k];
      var (key, value) := keyval[k];
      if key != sourceKey && key != destinationKey {
        properties := properties + [(key, value)];
      }
      if key in edge.entity.primaryAttributes {
        id := id + value;
      }
    }
    assert keyval[..|keyval|] == keyval;
    properties := properties + [(EdgeIdKey, id)];
    var destination := Lookup(keyval, destinationKey);
    if destination.None? {
      return None;
    }
    return Some((AddEdge(edgeLabel, (sourceKey, source.value), properties, (destinationKey, destination.value)), id));
  }

  /** The edge insert of a well-formed edge record, in terms of the record's positions: it exists
      exactly when both endpoint attributes are declared; its label joins the endpoint node type
      names; it matches each endpoint by that attribute's value; it stores every other attribute
      with its value and none of the endpoint attributes; and its identity is the positional
      internal identity, the same one a node record would get. */
  lemma EdgeInsertOfRecord(edge: Edge, sourceKey: string, destinationKey: string, values: seq<string>)
    requires Keyval(edge.entity.attributes, values).Some?
    ensures var attributes := edge.entity.attributes;
            var r := EdgeInsertOf(edge, sourceKey, destinationKey, Keyval(attributes, values).value);
            (r.Some? <==> sourceKey in attributes && destinationKey in attributes) &&
            (r.Some? ==>
              var (insert, id) := r.value;
              var stored := insert.properties[..|insert.properties| - 1];
              id == InternalId(edge.entity, values) &&
              insert.edgeLabel == edge.sourceNode + edge.destinationNode &&
              insert.properties[|insert.properties| - 1] == (EdgeIdKey, id) &&
              (forall i :: 0 <= i < |attributes| && attributes[i] == sourceKey ==> insert.source == (sourceKey, values[i])) &&
              (forall i :: 0 <= i < |attributes| && attributes[i] == destinationKey ==> insert.destination == (destinationKey, values[i])) &&
              (forall i :: 0 <= i < |attributes| && attributes[i] != sourceKey && attributes[i] != destinationKey ==>
                 (attributes[i], values[i]) in stored) &&
              (forall p :: p in stored ==> p.0 != sourceKey && p.0 != destinationKey))
  {
    var attributes := edge.entity.attributes;
    var keyval := Zip(attributes, values);
    LookupZip(attributes, values, sourceKey);
    LookupZip(attributes, values, destinationKey);
    KeptPropertiesMembership(keyval, sourceKey, destinationKey);
    KeyvalConcatOfZip(attributes, edge.entity.primaryAttributes, values);
    var r := EdgeInsertOf(edge, sourceKey, destinationKey, keyval);
    if r.Some? {
      var stored := r.value.0.properties[..|r.value.0.properties| - 1];
      assert stored == KeptProperties(keyval, sourceKey, destinationKey);
      forall i | 0 <= i < |attributes| && attributes[i] != sourceKey && attributes[i] != destinationKey
        ensures (attributes[i], values[i]) in stored
      {
        assert keyval[i] == (attributes[i], values[i]);
      }
    }
  }
}
