/** What the upload does, stated as functions: one record, one entity type, one phase and the
    whole run, over the counters, the error list and the log of inserts sent to the store. */
module Ingestion {
  import opened Schema
  import opened Fields
  import opened Identity
  import opened Instructions

  /** An entry of the error list: the entity and the record's raw values for a node record,
      the entity and its keyval pairs for an edge record. */
  datatype Failure =
    | NodeFailure(entity: string, values: seq<string>)
    | EdgeFailure(entity: string, keyval: seq<(string, string)>)

  /** The state the upload changes: the two progress counters, the error list, and the inserts
      sent to the store so far. */
  datatype Tally = Tally(uploaded: int, exist: int, errors: seq<Failure>, sent: seq<Insert>)

  /** The state after an entity type or a phase, and whether it ran to its end or threw. */
  datatype Progress = Progress(tally: Tally, completed: bool)

  /** The state after the whole run, and the error log written at its end (`None` when the run
      threw before writing it). */
  datatype Outcome = Outcome(tally: Tally, errorLog: Option<seq<Failure>>)

  /** The graph store, as its answers to the inserts sent so far: the internal ids of all vertices,
      the internal ids of all edges, and the result list of the next insert. */
  datatype Store = Store(
    vertexIds: seq<Insert> -> seq<string>,
    edgeIds: seq<Insert> -> seq<string>,
    respond: (seq<Insert>, Insert) -> seq<string>)

  /** The data directories: the lines of each file under a path, in listing order; `None` when
      the directory cannot be listed. */
  type Disk = string -> Option<seq<seq<string>>>

  /** An insert succeeded when its result list is non-empty and does not start with "[]". */
  predicate Accepted(response: seq<string>) {
    |response| > 0 && response[0] != "[]"
  }

  /** Records accounted for: inserted, found existing, or logged. */
  function Total(t: Tally): int {
    t.uploaded + t.exist + |t.errors|
  }

  /** `after` comes from `before` by raising counters and appending errors and inserts, every new
      insert being a vertex insert exactly when `vertices` holds. */
  predicate Grows(before: Tally, after: Tally, vertices: bool) {
    before.uploaded <= after.uploaded && before.exist <= after.exist &&
    |before.errors| <= |after.errors| && after.errors[..|before.errors|] == before.errors &&
    |before.sent| <= |after.sent| && after.sent[..|before.sent|] == before.sent &&
    forall i :: |before.sent| <= i < |after.sent| ==> after.sent[i].AddVertex? == vertices
  }

  lemma GrowsTransitive(t1: Tally, t2: Tally, t3: Tally, vertices: bool)
    requires Grows(t1, t2, vertices) && Grows(t2, t3, vertices)
    ensures Grows(t1, t3, vertices)
  {
  }

  // ---------------------------------------------------------------------------------------
  // One record

  /** The existence check and the insert, shared by node and edge records: a known id only
      counts as existing; otherwise the insert is sent and counted, or logged when rejected. */
  function Submit(t: Tally, insert: Insert, id: string, known: seq<string>, store: Store, failure: Failure): Tally
  {
    if id in known then t.(exist := t.exist + 1)
    else
      var sent := t.sent + [insert];
      if Accepted(store.respond(t.sent, insert)) then t.(uploaded := t.uploaded + 1, sent := sent)
      else t.(errors := t.errors + [failure], sent := sent)
  }

  /** One line of a node data file, checked against the snapshot `known`. Every failure is
      caught and logged with the line's raw values. */
  function NodeLine(node: Node, line: string, known: seq<string>, store: Store, t: Tally): Tally
  {
    var values := Split(line, Tab);
    var failure := NodeFailure(node.entity.name, values);
    match NodeInsertOf(node.entity, values)
    case None => t.(errors := t.errors + [failure])
    case Some((insert, id)) => Submit(t, insert, id, known, store, failure)
  }

  /** One line of an edge data file. Filling keyval happens outside the per-record `try`, so a
      line that is too short (or a repeated attribute name) ends the entity type; a missing
      endpoint attribute and a rejected insert are logged with the keyval pairs. */
  function EdgeLine(edge: Edge, sourceKey: string, destinationKey: string, line: string,
                    known: seq<string>, store: Store, t: Tally): Progress
  {
    var values := Split(line, Tab);
    match Keyval(edge.entity.attributes, values)
    case None => Progress(t, false)
    case Some(keyval) =>
      var failure := EdgeFailure(edge.entity.name, keyval);
      match EdgeInsertOf(edge, sourceKey, destinationKey, keyval)
      case None => Progress(t.(errors := t.errors + [failure]), true)
      case Some((insert, id)) => Progress(Submit(t, insert, id, known, store, failure), true)
  }

  // ---------------------------------------------------------------------------------------
  // One entity type

  /** The lines of all files, file after file. */
  function Flatten(files: seq<seq<string>>): seq<string>
    decreases |files|
  {
    if files == [] then [] else files[0] + Flatten(files[1..])
  }

  /** The lines of a node type, in order, all against the same snapshot. */
  function NodeLines(node: Node, lines: seq<string>, known: seq<string>, store: Store, t: Tally): Tally
    decreases |lines|
  {
    if lines == [] then t
    else NodeLines(node, lines[1..], known, store, NodeLine(node, lines[0], known, store, t))
  }

  /** The lines of an edge type, in order, stopping at the first line that throws. */
  function EdgeLines(edge: Edge, sourceKey: string, destinationKey: string, lines: seq<string>,
                     known: seq<string>, store: Store, t: Tally): Progress
    decreases |lines|
  {
    if lines == [] then Progress(t, true)
    else
      var p := EdgeLine(edge, sourceKey, destinationKey, lines[0], known, store, t);
      if !p.completed then p
      else EdgeLines(edge, sourceKey, destinationKey, lines[1..], known, store, p.tally)
  }

  /** Uploading one node type: the vertex-id snapshot is taken once, before any file is read. */
  function NodeRun(node: Node, disk: Disk, store: Store, t: Tally): Progress
  {
    var known := store.vertexIds(t.sent);
    match disk(node.entity.pathToData)
    case None => Progress(t, false)
    case Some(files) => Progress(NodeLines(node, Flatten(files), known, store, t), true)
  }

  /** Uploading one edge type: both endpoint node types must be declared, then the edge-id
      snapshot is taken once, before any file is read. */
  function EdgeRun(edge: Edge, nodes: map<string, Node>, disk: Disk, store: Store, t: Tally): Progress
  {
    if edge.sourceNode !in nodes || edge.destinationNode !in nodes then Progress(t, false)
    else
      var known := store.edgeIds(t.sent);
      match disk(edge.entity.pathToData)
      case None => Progress(t, false)
      case Some(files) =>
        EdgeLines(edge, nodes[edge.sourceNode].nodeIdAttribute, nodes[edge.destinationNode].nodeIdAttribute,
                  Flatten(files), known, store, t)
  }

  // ---------------------------------------------------------------------------------------
  // Phases and the whole run

  /** All node types, one after another, stopping at the first that throws. */
  function NodePhase(nodes: seq<Node>, disk: Disk, store: Store, t: Tally): Progress
    decreases |nodes|
  {
    if nodes == [] then Progress(t, true)
    else
      var p := NodeRun(nodes[0], disk, store, t);
      if !p.completed then p else NodePhase(nodes[1..], disk, store, p.tally)
  }

  /** All edge types, one after another, stopping at the first that throws. */
  function EdgePhase(edges: seq<Edge>, nodes: map<string, Node>, disk: Disk, store: Store, t: Tally): Progress
    decreases |edges|
  {
    if edges == [] then Progress(t, true)
    else
      var p := EdgeRun(edges[0], nodes, disk, store, t);
      if !p.completed then p else EdgePhase(edges[1..], nodes, disk, store, p.tally)
  }

  /** The run: build the name dictionaries, upload every node type, reset both counters, upload
      every edge type, then write the error list. Anything that throws out of this sequence ends
      the run before the error list is written. */
  function Ingest(config: GraphConfig, disk: Disk, store: Store, t: Tally): Outcome
  {
    if !Distinct(Names(config.nodes, NodeName)) || !Distinct(Names(config.edges, EdgeName)) then Outcome(t, None)
    else
      var p := NodePhase(config.nodes, disk, store, t);
      if !p.completed then Outcome(p.tally, None)
      else
        var q := EdgePhase(config.edges, ByName(config.nodes, NodeName), disk, store, p.tally.(uploaded := 0, exist := 0));
        if !q.completed then Outcome(q.tally, None)
        else Outcome(q.tally, Some(q.tally.errors))
  }

  // ---------------------------------------------------------------------------------------
  // Properties of one record

  /** A node line changes exactly one of the two counters or the error list, by one. A short
      line is logged with its raw values; otherwise an insert is sent exactly when the id is
      not in the snapshot, and it counts as uploaded exactly when the store accepts it. */
  lemma NodeLineEffect(node: Node, line: string, known: seq<string>, store: Store, t: Tally)
    ensures var after := NodeLine(node, line, known, store, t);
            var values := Split(line, Tab);
            var e := node.entity;
            Total(after) == Total(t) + 1 && Grows(t, after, true) &&
            (|values| < |e.attributes| ==> after == t.(errors := t.errors + [NodeFailure(e.name, values)])) &&
            (|values| >= |e.attributes| ==>
               var insert := NodeInsertOf(e, values).value.0;
               (InternalId(e, values) in known ==> after == t.(exist := t.exist + 1)) &&
               (InternalId(e, values) !in known ==>
                  after.exist == t.exist && after.sent == t.sent + [insert] &&
                  (after.uploaded == t.uploaded + 1 <==> Accepted(store.respond(t.sent, insert))) &&
                  (after.errors != t.errors <==> !Accepted(store.respond(t.sent, insert)))))
  {
  }

  /** An edge line either throws, leaving everything as it was, or changes exactly one of the two
      counters or the error list, by one, adding only edge inserts. A missing endpoint attribute
      is logged with the keyval pairs; otherwise an insert is sent exactly when the id is not in
      the snapshot, and it counts as uploaded exactly when the store accepts it. */
  lemma EdgeLineEffect(edge: Edge, sourceKey: string, destinationKey: string, line: string,
                       known: seq<string>, store: Store, t: Tally)
    ensures var p := EdgeLine(edge, sourceKey, destinationKey, line, known, store, t);
            var keyval := Keyval(edge.entity.attributes, Split(line, Tab));
            (p.completed <==> keyval.Some?) &&
            (!p.completed ==> p.tally == t) &&
            (p.completed ==> Total(p.tally) == Total(t) + 1 && Grows(t, p.tally, false)) &&
            (p.completed && EdgeInsertOf(edge, sourceKey, destinationKey, keyval.value).None? ==>
               p.tally == t.(errors := t.errors + [EdgeFailure(edge.entity.name, keyval.value)])) &&
            (p.completed && EdgeInsertOf(edge, sourceKey, destinationKey, keyval.value).Some? ==>
               var (insert, id) := EdgeInsertOf(edge, sourceKey, destinationKey, keyval.value).value;
               var accepted := Accepted(store.respond(t.sent, insert));
               (id in known ==> p.tally == t.(exist := t.exist + 1)) &&
               (id !in known ==>
                  p.tally.exist == t.exist && p.tally.sent == t.sent + [insert] &&
                  (p.tally.uploaded == t.uploaded + 1 <==> accepted) &&
                  (accepted ==> p.tally.errors == t.errors) &&
                  (!accepted ==> p.tally.errors == t.errors + [EdgeFailure(edge.entity.name, keyval.value)])))
  {
  }

  // ---------------------------------------------------------------------------------------
  // Properties of one entity type

  /** Every node line is accounted for exactly once, and the state only grows. */
  lemma {:induction false} NodeLinesAccounting(node: Node, lines: seq<string>, known: seq<string>, store: Store, t: Tally)
    ensures Total(NodeLines(node, lines, known, store, t)) == Total(t) + |lines|
    ensures Grows(t, NodeLines(node, lines, known, store, t), true)
    decreases |lines|
  {
    if lines != [] {
      var t1 := NodeLine(node, lines[0], known, store, t);
      NodeLineEffect(node, lines[0], known, store, t);
      NodeLinesAccounting(node, lines[1..], known, store, t1);
      GrowsTransitive(t, t1, NodeLines(node, lines[1..], known, store, t1), true);
    }
  }

  /** The inserts a node type sends, given only its lines and the snapshot. */
  function NodeInserts(node: Node, lines: seq<string>, known: seq<string>): seq<Insert>
    decreases |lines|
  {
    if lines == [] then []
    else
      var rest := NodeInserts(node, lines[1..], known);
      match NodeInsertOf(node.entity, Split(lines[0], Tab))
      case Some((insert, id)) => if id !in known then [insert] + rest else rest
      case None => rest
  }

  /** The inserts sent for a node type depend only on its lines and the snapshot taken at the
      start: not on what the store answered, and not on what earlier lines inserted. The
      snapshot is never extended. */
  lemma {:induction false} NodeLinesSend(node: Node, lines: seq<string>, known: seq<string>, store: Store, t: Tally)
    ensures NodeLines(node, lines, known, store, t).sent == t.sent + NodeInserts(node, lines, known)
    decreases |lines|
  {
    if lines != [] {
      var t1 := NodeLine(node, lines[0], known, store, t);
      NodeLinesSend(node, lines[1..], known, store, t1);
      match NodeInsertOf(node.entity, Split(lines[0], Tab))
      case Some((insert, id)) =>
        if id !in known {
          assert t1.sent == t.sent + [insert];
        }
      case None =>
    }
  }

  /** A record whose key is not in the snapshot is inserted every time it appears: `n` copies of
      the line send `n` identical inserts and never count as existing. */
  lemma {:induction false} RepeatedRecordInsertedEachTime(node: Node, line: string, lines: seq<string>,
                                                           known: seq<string>, store: Store, t: Tally)
    requires forall i :: 0 <= i < |lines| ==> lines[i] == line
    requires NodeInsertOf(node.entity, Split(line, Tab)).Some?
    requires NodeInsertOf(node.entity, Split(line, Tab)).value.1 !in known
    ensures var insert := NodeInsertOf(node.entity, Split(line, Tab)).value.0;
            NodeLines(node, lines, known, store, t).sent == t.sent + seq(|lines|, _ => insert)
    ensures NodeLines(node, lines, known, store, t).exist == t.exist
    decreases |lines|
  {
    var insert := NodeInsertOf(node.entity, Split(line, Tab)).value.0;
    if lines != [] {
      var t1 := NodeLine(node, lines[0], known, store, t);
      RepeatedRecordInsertedEachTime(node, line, lines[1..], known, store, t1);
      assert t1.sent == t.sent + [insert] && t1.exist == t.exist;
      assert [insert] + seq(|lines| - 1, _ => insert) == seq(|lines|, _ => insert);
    }
  }

  /** The vertex insert of a two-field row "key<tab>other" of a node type whose first attribute
      is its only primary attribute. */
  lemma TwoFieldRow(e: Entity, key: string, other: string)
    requires |e.attributes| == 2 && e.primaryAttributes == [e.attributes[0]] && e.attributes[1] != e.attributes[0]
    requires Tab !in key && Tab !in other
    ensures NodeInsertOf(e, Split(key + [Tab] + other, Tab))
         == Some((AddVertex(e.name, [(e.attributes[0], key), (e.attributes[1], other), (NodeIdKey, e.name + key)]), e.name + key))
  {
    var values := [key, other];
    SplitAfterField(key, Tab, other);
    SplitField(other, Tab);
    assert Split(key + [Tab] + other, Tab) == values;
    var a := e.attributes;
    assert InternalId(e, values) == e.name + key by {
      assert a[..1][..0] == [];
      assert PrimaryConcat(a[..1], e.primaryAttributes, values) == key;
      assert a[1] !in e.primaryAttributes;
    }
    assert Zip(a, values) + [(NodeIdKey, e.name + key)]
        == [(a[0], key), (a[1], other), (NodeIdKey, e.name + key)];
  }

  /** Two rows of one node type that share their primary value but differ elsewhere, with that
      key not in the snapshot: both are inserted, under the same internal id, and neither counts
      as existing. The upload does not deduplicate within a run. */
  lemma SharedKeyInsertedTwice(node: Node, key: string, first: string, second: string,
                               known: seq<string>, store: Store, t: Tally)
    requires var e := node.entity;
             |e.attributes| == 2 && e.primaryAttributes == [e.attributes[0]] && e.attributes[1] != e.attributes[0]
    requires Tab !in key && Tab !in first && Tab !in second
    requires node.entity.name + key !in known
    ensures var e := node.entity;
            var after := NodeLines(node, [key + [Tab] + first, key + [Tab] + second], known, store, t);
            after.exist == t.exist &&
            after.sent == t.sent + [AddVertex(e.name, [(e.attributes[0], key), (e.attributes[1], first), (NodeIdKey, e.name + key)]),
                                    AddVertex(e.name, [(e.attributes[0], key), (e.attributes[1], second), (NodeIdKey, e.name + key)])]
  {
    var e := node.entity;
    var lines := [key + [Tab] + first, key + [Tab] + second];
    TwoFieldRow(e, key, first);
    TwoFieldRow(e, key, second);
    var t1 := NodeLine(node, lines[0], known, store, t);
    var t2 := NodeLine(node, lines[1], known, store, t1);
    assert lines[1..] == [lines[1]] && lines[1..][1..] == [];
    assert NodeLines(node, lines, known, store, t) == NodeLines(node, lines[1..], known, store, t1);
    assert NodeLines(node, lines[1..], known, store, t1) == NodeLines(node, [], known, store, t2);
  }

  /** The vertex-id snapshot does not tell entity types apart: entity "A" with key "Bx" and
      entity "AB" with key "x" both get the id "ABx", so once A's record is stored, AB's record
      "x" only counts as existing and is never inserted. */
  lemma CrossEntityAliases(store: Store, t: Tally)
    ensures var a := Entity("A", "", ["k"], ["k"]);
            var ab := Node(Entity("AB", "", ["k"], ["k"]), "k");
            InternalId(a, ["Bx"]) == InternalId(ab.entity, ["x"]) == "ABx" &&
            NodeLine(ab, "x", [InternalId(a, ["Bx"])], store, t) == t.(exist := t.exist + 1)
  {
    SplitField("x", Tab);
    assert InternalId(Entity("AB", "", ["k"], ["k"]), ["x"]) == "ABx";
  }

  /** Lines whose identities are all in the snapshot send nothing and log nothing: they only
      raise the "existing" counter, once per line. */
  lemma {:induction false} StoredRecordsOnlyCounted(node: Node, lines: seq<string>, known: seq<string>, store: Store, t: Tally)
    requires forall i :: 0 <= i < |lines| ==>
               |Split(lines[i], Tab)| >= |node.entity.attributes| &&
               InternalId(node.entity, Split(lines[i], Tab)) in known
    ensures NodeLines(node, lines, known, store, t) == t.(exist := t.exist + |lines|)
    decreases |lines|
  {
    if lines != [] {
      var t1 := NodeLine(node, lines[0], known, store, t);
      assert t1 == t.(exist := t.exist + 1);
      StoredRecordsOnlyCounted(node, lines[1..], known, store, t1);
    }
  }

  /** An edge type runs to the end of its lines exactly when every line fills keyval; then every
      line is accounted for once. In all cases the state only grows, by edge inserts. */
  lemma {:induction false} EdgeLinesAccounting(edge: Edge, sourceKey: string, destinationKey: string,
                                               lines: seq<string>, known: seq<string>, store: Store, t: Tally)
    ensures var p := EdgeLines(edge, sourceKey, destinationKey, lines, known, store, t);
            Grows(t, p.tally, false) &&
            (p.completed <==> forall i :: 0 <= i < |lines| ==> Keyval(edge.entity.attributes, Split(lines[i], Tab)).Some?) &&
            (p.completed ==> Total(p.tally) == Total(t) + |lines|)
    decreases |lines|
  {
    if lines != [] {
      var p1 := EdgeLine(edge, sourceKey, destinationKey, lines[0], known, store, t);
      EdgeLineEffect(edge, sourceKey, destinationKey, lines[0], known, store, t);
      if p1.completed {
        var p := EdgeLines(edge, sourceKey, destinationKey, lines[1..], known, store, p1.tally);
        EdgeLinesAccounting(edge, sourceKey, destinationKey, lines[1..], known, store, p1.tally);
        GrowsTransitive(t, p1.tally, p.tally, false);
        assert (forall i :: 0 <= i < |lines| ==> Keyval(edge.entity.attributes, Split(lines[i], Tab)).Some?) <==>
               (forall i :: 0 <= i < |lines| - 1 ==> Keyval(edge.entity.attributes, Split(lines[1..][i], Tab)).Some?) by {
          forall i | 0 < i < |lines| ensures lines[i] == lines[1..][i - 1] { }
        }
      }
    }
  }

  /** The inserts an edge type sends, given only its lines and the snapshot: one per line whose
      keyval fills, whose endpoint attributes are present and whose id is not in the snapshot,
      up to the first line that cannot fill keyval. */
  function EdgeInserts(edge: Edge, sourceKey: string, destinationKey: string, lines: seq<string>,
                       known: seq<string>): seq<Insert>
    decreases |lines|
  {
    if lines == [] then []
    else
      match Keyval(edge.entity.attributes, Split(lines[0], Tab))
      case None => []
      case Some(keyval) =>
        var rest := EdgeInserts(edge, sourceKey, destinationKey, lines[1..], known);
        match EdgeInsertOf(edge, sourceKey, destinationKey, keyval)
        case Some((insert, id)) => if id !in known then [insert] + rest else rest
        case None => rest
  }

  /** The inserts sent for an edge type depend only on its lines and the snapshot taken at the
      start: not on what the store answered, and not on what earlier lines inserted. */
  lemma {:induction false} EdgeLinesSend(edge: Edge, sourceKey: string, destinationKey: string,
                                         lines: seq<string>, known: seq<string>, store: Store, t: Tally)
    ensures EdgeLines(edge, sourceKey, destinationKey, lines, known, store, t).tally.sent
         == t.sent + EdgeInserts(edge, sourceKey, destinationKey, lines, known)
    decreases |lines|
  {
    if lines != [] {
      var p1 := EdgeLine(edge, sourceKey, destinationKey, lines[0], known, store, t);
      match Keyval(edge.entity.attributes, Split(lines[0], Tab))
      case None =>
      case Some(keyval) =>
        EdgeLinesSend(edge, sourceKey, destinationKey, lines[1..], known, store, p1.tally);
        match EdgeInsertOf(edge, sourceKey, destinationKey, keyval)
        case Some((insert, id)) =>
          if id !in known {
            assert p1.tally.sent == t.sent + [insert];
          }
        case None =>
    }
  }

  /** Edge lines whose identities are all in the snapshot send nothing and log nothing: they only
      raise the "existing" counter, once per line, and the edge type runs to its end. */
  lemma {:induction false} StoredEdgesOnlyCounted(edge: Edge, sourceKey: string, destinationKey: string,
                                                  lines: seq<string>, known: seq<string>, store: Store, t: Tally)
    requires forall i :: 0 <= i < |lines| ==>
               var keyval := Keyval(edge.entity.attributes, Split(lines[i], Tab));
               keyval.Some? && EdgeInsertOf(edge, sourceKey, destinationKey, keyval.value).Some? &&
               EdgeInsertOf(edge, sourceKey, destinationKey, keyval.value).value.1 in known
    ensures EdgeLines(edge, sourceKey, destinationKey, lines, known, store, t) == Progress(t.(exist := t.exist + |lines|), true)
    decreases |lines|
  {
    if lines != [] {
      var p1 := EdgeLine(edge, sourceKey, destinationKey, lines[0], known, store, t);
      assert p1 == Progress(t.(exist := t.exist + 1), true);
      StoredEdgesOnlyCounted(edge, sourceKey, destinationKey, lines[1..], known, store, p1.tally);
    }
  }

  /** A line that cannot fill keyval abandons the rest of its edge type: the state is what the
      lines before it left, and nothing after it is read. */
  lemma {:induction false} MalformedEdgeLineAbandonsRest(edge: Edge, sourceKey: string, destinationKey: string,
                                                         lines: seq<string>, k: nat, known: seq<string>, store: Store, t: Tally)
    requires k < |lines|
    requires Keyval(edge.entity.attributes, Split(lines[k], Tab)).None?
    ensures EdgeLines(edge, sourceKey, destinationKey, lines, known, store, t)
         == Progress(EdgeLines(edge, sourceKey, destinationKey, lines[..k], known, store, t).tally, false)
    decreases k
  {
    var p := EdgeLine(edge, sourceKey, destinationKey, lines[0], known, store, t);
    EdgeLineEffect(edge, sourceKey, destinationKey, lines[0], known, store, t);
    if k > 0 {
      assert lines[..k][0] == lines[0];
      if p.completed {
        assert lines[..k][1..] == lines[1..][..k - 1];
        MalformedEdgeLineAbandonsRest(edge, sourceKey, destinationKey, lines[1..], k - 1, known, store, p.tally);
      }
    }
  }

  /** An edge type whose endpoint node types are not both declared throws before reading a line. */
  lemma UndeclaredEndpointEndsEdgeRun(edge: Edge, nodes: map<string, Node>, disk: Disk, store: Store, t: Tally)
    requires edge.sourceNode !in nodes || edge.destinationNode !in nodes
    ensures EdgeRun(edge, nodes, disk, store, t) == Progress(t, false)
  {
  }

  // ---------------------------------------------------------------------------------------
  // Properties of phases and of the run

  lemma {:induction false} NodePhaseGrows(nodes: seq<Node>, disk: Disk, store: Store, t: Tally)
    ensures Grows(t, NodePhase(nodes, disk, store, t).tally, true)
    decreases |nodes|
  {
    if nodes != [] {
      var p := NodeRun(nodes[0], disk, store, t);
      if p.completed {
        var files := disk(nodes[0].entity.pathToData).value;
        NodeLinesAccounting(nodes[0], Flatten(files), store.vertexIds(t.sent), store, t);
        NodePhaseGrows(nodes[1..], disk, store, p.tally);
        GrowsTransitive(t, p.tally, NodePhase(nodes[1..], disk, store, p.tally).tally, true);
      }
    }
  }

  lemma {:induction false} EdgePhaseGrows(edges: seq<Edge>, nodes: map<string, Node>, disk: Disk, store: Store, t: Tally)
    ensures Grows(t, EdgePhase(edges, nodes, disk, store, t).tally, false)
    decreases |edges|
  {
    if edges != [] {
      var edge := edges[0];
      var p := EdgeRun(edge, nodes, disk, store, t);
      if edge.sourceNode in nodes && edge.destinationNode in nodes && disk(edge.entity.pathToData).Some? {
        EdgeLinesAccounting(edge, nodes[edge.sourceNode].nodeIdAttribute, nodes[edge.destinationNode].nodeIdAttribute,
                            Flatten(disk(edge.entity.pathToData).value), store.edgeIds(t.sent), store, t);
      }
      if p.completed {
        EdgePhaseGrows(edges[1..], nodes, disk, store, p.tally);
        GrowsTransitive(t, p.tally, EdgePhase(edges[1..], nodes, disk, store, p.tally).tally, false);
      }
    }
  }

  /** The lines of the data files of every edge type that can be listed. */
  function EdgeLineCount(edges: seq<Edge>, disk: Disk): nat
    decreases |edges|
  {
    if edges == [] then 0
    else
      var here := match disk(edges[0].entity.pathToData)
                  case Some(files) => |Flatten(files)|
                  case None => 0;
      here + EdgeLineCount(edges[1..], disk)
  }

  /** An edge phase that runs to its end had every endpoint node type declared and every
      directory listed, and it accounted for every line of every edge type once. */
  lemma {:induction false} EdgePhaseAccounting(edges: seq<Edge>, nodes: map<string, Node>, disk: Disk, store: Store, t: Tally)
    ensures var q := EdgePhase(edges, nodes, disk, store, t);
            q.completed ==>
              Total(q.tally) == Total(t) + EdgeLineCount(edges, disk) &&
              forall i :: 0 <= i < |edges| ==>
                edges[i].sourceNode in nodes && edges[i].destinationNode in nodes &&
                disk(edges[i].entity.pathToData).Some?
    decreases |edges|
  {
    if edges != [] {
      var edge := edges[0];
      var p := EdgeRun(edge, nodes, disk, store, t);
      if p.completed {
        var files := disk(edge.entity.pathToData).value;
        EdgeLinesAccounting(edge, nodes[edge.sourceNode].nodeIdAttribute, nodes[edge.destinationNode].nodeIdAttribute,
                            Flatten(files), store.edgeIds(t.sent), store, t);
        EdgePhaseAccounting(edges[1..], nodes, disk, store, p.tally);
        forall i | 0 < i < |edges| ensures edges[i] == edges[1..][i - 1] { }
      }
    }
  }

  /** The phase barrier: in the store's log every vertex insert of the run comes before every edge
      insert, and the error list only grows across both phases (the counters are reset between
      them, the error list is not). */
  lemma IngestPhaseOrder(config: GraphConfig, disk: Disk, store: Store, t: Tally)
    ensures var r := Ingest(config, disk, store, t).tally;
            |t.sent| <= |r.sent| && r.sent[..|t.sent|] == t.sent &&
            (forall i, j :: |t.sent| <= i < j < |r.sent| && r.sent[i].AddEdge? ==> r.sent[j].AddEdge?) &&
            |t.errors| <= |r.errors| && r.errors[..|t.errors|] == t.errors
  {
    if Distinct(Names(config.nodes, NodeName)) && Distinct(Names(config.edges, EdgeName)) {
      var p := NodePhase(config.nodes, disk, store, t);
      NodePhaseGrows(config.nodes, disk, store, t);
      if p.completed {
        var t1 := p.tally.(uploaded := 0, exist := 0);
        var q := EdgePhase(config.edges, ByName(config.nodes, NodeName), disk, store, t1);
        EdgePhaseGrows(config.edges, ByName(config.nodes, NodeName), disk, store, t1);
        var r := q.tally;
        assert r.sent[..|t.sent|] == r.sent[..|t1.sent|][..|t.sent|];
        assert r.errors[..|t.errors|] == r.errors[..|t1.errors|][..|t.errors|];
        forall i, j | |t.sent| <= i < j < |r.sent| && r.sent[i].AddEdge?
          ensures r.sent[j].AddEdge?
        {
          assert i >= |t1.sent|;
        }
      }
    }
  }

  /** What the run leaves: the error log is written exactly when the names are distinct and both
      phases run to their end, and it is then the final error list. The node phase's errors
      survive the counter reset into that list, and since both counters restart from zero, the
      final counters and the errors added after the node phase account for the edge lines alone. */
  lemma IngestOutcome(config: GraphConfig, disk: Disk, store: Store, t: Tally)
    ensures var o := Ingest(config, disk, store, t);
            var named := Distinct(Names(config.nodes, NodeName)) && Distinct(Names(config.edges, EdgeName));
            var p := NodePhase(config.nodes, disk, store, t);
            var q := EdgePhase(config.edges, ByName(config.nodes, NodeName), disk, store, p.tally.(uploaded := 0, exist := 0));
            (o.errorLog.Some? <==> named && p.completed && q.completed) &&
            (named && p.completed ==>
               |p.tally.errors| <= |o.tally.errors| && o.tally.errors[..|p.tally.errors|] == p.tally.errors) &&
            (o.errorLog.Some? ==>
               o.errorLog.value == o.tally.errors &&
               o.tally.uploaded + o.tally.exist + (|o.tally.errors| - |p.tally.errors|) == EdgeLineCount(config.edges, disk))
  {
    var p := NodePhase(config.nodes, disk, store, t);
    var t1 := p.tally.(uploaded := 0, exist := 0);
    var nodes := ByName(config.nodes, NodeName);
    EdgePhaseGrows(config.edges, nodes, disk, store, t1);
    EdgePhaseAccounting(config.edges, nodes, disk, store, t1);
  }

  /** An edge type that names an undeclared node type as an endpoint ends the run before the
      error list is written, once the node phase has inserted what it could. */
  lemma UndeclaredEndpointEndsRun(config: GraphConfig, disk: Disk, store: Store, t: Tally, k: nat)
    requires k < |config.edges|
    requires config.edges[k].sourceNode !in Names(config.nodes, NodeName) ||
             config.edges[k].destinationNode !in Names(config.nodes, NodeName)
    ensures Ingest(config, disk, store, t).errorLog == None
  {
    if Distinct(Names(config.nodes, NodeName)) && Distinct(Names(config.edges, EdgeName)) {
      var p := NodePhase(config.nodes, disk, store, t);
      var nodes := ByName(config.nodes, NodeName);
      ByNameFinds(config.nodes, NodeName);
      forall name | name in nodes ensures name in Names(config.nodes, NodeName) {
        var i :| 0 <= i < |config.nodes| && NodeName(config.nodes[i]) == name;
        assert Names(config.nodes, NodeName)[i] == name;
      }
      EdgePhaseAccounting(config.edges, nodes, disk, store, p.tally.(uploaded := 0, exist := 0));
    }
  }
}
