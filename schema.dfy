/** The graph configuration: entity descriptions and the name-keyed dictionaries built from them. */
module Schema {

  datatype Option<T> = None | Some(value: T)

  /** What node and edge types share: a name, the directory of their data files, the field
      names in positional order, and the attributes that make up the internal identity. */
  datatype Entity = Entity(
    name: string,
    pathToData: string,
    attributes: seq<string>,
    primaryAttributes: seq<string>)

  /** A node type; `nodeIdAttribute` is the attribute that edges use to find its vertices. */
  datatype Node = Node(entity: Entity, nodeIdAttribute: string)

  /** An edge type, naming the node types of its two endpoints. */
  datatype Edge = Edge(entity: Entity, sourceNode: string, destinationNode: string)

  datatype GraphConfig = GraphConfig(nodes: seq<Node>, edges: seq<Edge>)

  function NodeName(n: Node): string { n.entity.name }

  function EdgeName(e: Edge): string { e.entity.name }

  predicate Distinct<T(==)>(s: seq<T>) {
    forall i, j :: 0 <= i < j < |s| ==> s[i] != s[j]
  }

  /** The (attribute, value) pairs of a record, attribute by attribute, in declared order. */
  function Zip(attributes: seq<string>, values: seq<string>): seq<(string, string)>
    requires |attributes| <= |values|
  {
    seq(|attributes|, i requires 0 <= i < |attributes| => (attributes[i], values[i]))
  }

  /** The value stored under `key` in a list of pairs, as a dictionary indexer finds it. */
  function Lookup(keyval: seq<(string, string)>, key: string): Option<string>
    decreases |keyval|
  {
    if keyval == [] then None
    else if keyval[0].0 == key then Some(keyval[0].1)
    else Lookup(keyval[1..], key)
  }

  /** In pairs zipped from distinct attributes, each attribute finds its own value, and a
      name that is not an attribute finds nothing. */
  lemma {:induction false} LookupZip(attributes: seq<string>, values: seq<string>, key: string)
    requires |attributes| <= |values| && Distinct(attributes)
    ensures Lookup(Zip(attributes, values), key).None? <==> key !in attributes
    ensures forall i :: 0 <= i < |attributes| && attributes[i] == key ==>
              Lookup(Zip(attributes, values), key) == Some(values[i])
    decreases |attributes|
  {
    if attributes != [] {
      var pairs := Zip(attributes, values);
      assert pairs[1..] == Zip(attributes[1..], values[1..]);
      LookupZip(attributes[1..], values[1..], key);
      if attributes[0] != key {
        assert key in attributes <==> key in attributes[1..] by {
          if key in attributes {
            var j :| 0 <= j < |attributes| && attributes[j] == key;
            assert attributes[1..][j - 1] == key;
          }
        }
      }
    }
  }

  function Names<T>(items: seq<T>, nameOf: T -> string): (names: seq<string>)
  {
    seq(|items|, i requires 0 <= i < |items| => nameOf(items[i]))
  }

  /** The dictionary that adding `items` one by one under their names produces. */
  function ByName<T>(items: seq<T>, nameOf: T -> string): map<string, T>
    decreases |items|
  {
    if items == [] then map[]
    else
      var k := |items| - 1;
      ByName(items[..k], nameOf)[nameOf(items[k]) := items[k]]
  }

  /** With distinct names the dictionary holds exactly the names, each mapped to its own item. */
  lemma {:induction false} ByNameFinds<T>(items: seq<T>, nameOf: T -> string)
    requires Distinct(Names(items, nameOf))
    ensures ByName(items, nameOf).Keys == set i | 0 <= i < |items| :: nameOf(items[i])
    ensures forall i :: 0 <= i < |items| ==> ByName(items, nameOf)[nameOf(items[i])] == items[i]
    decreases |items|
  {
    if items != [] {
      var k := |items| - 1;
      assert Names(items[..k], nameOf) == Names(items, nameOf)[..k];
      ByNameFinds(items[..k], nameOf);
      forall i | 0 <= i < k
        ensures nameOf(items[i]) != nameOf(items[k])
      {
        assert Names(items, nameOf)[i] != Names(items, nameOf)[k];
      }
    }
  }

  /** `Dictionary.Add` for every item in order: a repeated name throws, which the model
      reports as `None`. */
  method IndexByName<T>(items: seq<T>, nameOf: T -> string) returns (index: Option<map<string, T>>)
    ensures index.Some? <==> Distinct(Names(items, nameOf))
    ensures index.Some? ==> index.value == ByName(items, nameOf)
  {
    var m: map<string, T> := map[];
    var i := 0;
    while i < |items|
      invariant 0 <= i <= |items|
      invariant Distinct(Names(items[..i], nameOf))
      invariant m == ByName(items[..i], nameOf)
      invariant m.Keys == set j | 0 <= j < i :: nameOf(items[j])
    {
      var name := nameOf(items[i]);
      if name in m {
        var j :| 0 <= j < i && nameOf(items[j]) == name;
        assert Names(items, nameOf)[j] == Names(items, nameOf)[i];
        return None;
      }
      assert items[..i + 1][..i] == items[..i];
      ghost var before := Names(items[..i], nameOf);
      assert Names(items[..i + 1], nameOf) == before + [name];
      assert forall j :: 0 <= j < i ==> before[j] in m.Keys;
      m := m[name := items[i]];
      i := i + 1;
    }
    assert items[..i] == items;
    return Some(m);
  }
}
