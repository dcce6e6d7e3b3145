/** The upload program's mutable state and the loops that change it, each proved to leave the
    state that the `Ingestion` functions describe. */
module Upload {
  import opened Schema
  import opened Fields
  import opened Instructions
  import opened Ingestion

  /** The program's shared state: the progress counters, the error list, and (standing for the
      store's side of the conversation) the log of inserts sent to it. */
  class Uploader {
    var uploaded: int
    var exist: int
    var errors: seq<Failure>
    var sent: seq<Insert>

    function State(): Tally
      reads this
    {
      Tally(uploaded, exist, errors, sent)
    }

    /** The state at program start: both counters zero, no errors, nothing sent. */
    constructor ()
      ensures State() == Tally(0, 0, [], [])
    {
      uploaded, exist, errors, sent := 0, 0, [], [];
    }

    /** The existence check, the insert and the classification of its result. */
    method SubmitInsert(insert: Insert, id: string, known: seq<string>, store: Store, failure: Failure)
      modifies this
      ensures State() == Submit(old(State()), insert, id, known, store, failure)
    {
      if id !in known {
        var response := store.respond(sent, insert);
        sent := sent + [insert];
        if |response| == 0 || response[0] == "[]" {
          errors := errors + [failure];
        } else {
          uploaded := uploaded + 1;
        }
      } else {
        exist := exist + 1;
      }
    }

    /** The body of the per-line `try` of the node upload, with its `catch`. */
    method UploadNodeRecord(node: Node, line: string, known: seq<string>, store: Store)
      modifies this
      ensures State() == NodeLine(node, line, known, store, old(State()))
    {
      var values := Split(line, Tab);
      var built := BuildNodeInsert(node.entity, values);
      match built
      case None =>
        errors := errors + [NodeFailure(node.entity.name, values)];
      case Some((insert, id)) =>
        SubmitInsert(insert, id, known, store, NodeFailure(node.entity.name, values));
    }

    /** Uploads one node type: takes the vertex-id snapshot, then handles every line of every
      file against it. `completed` is false when listing the directory throws. */
    method UploadNode(node: Node, disk: Disk, store: Store) returns (completed: bool)
      modifies this
      ensures Progress(State(), completed) == NodeRun(node, disk, store, old(State()))
    {
      var known := store.vertexIds(sent);
      var listing := disk(node.entity.pathToData);
      if listing.None? {
        return false;
      }
      var files := listing.value;
      for f := 0 to |files|
        invariant NodeLines(node, Flatten(files), known, store, old(State()))
               == NodeLines(node, Flatten(files[f..]), known, store, State())
      {
        var lines := files[f];
        assert Flatten(files[f..]) == lines[0..] + Flatten(files[f + 1..]) by {
          assert files[f..][1..] == files[f + 1..];
        }
        for k := 0 to |lines|
          invariant NodeLines(node, Flatten(files), known, store, old(State()))
                 == NodeLines(node, lines[k..] + Flatten(files[f + 1..]), known, store, State())
        {
          ghost var rest := lines[k..] + Flatten(files[f + 1..]);
          assert rest[0] == lines[k] && rest[1..] == lines[k + 1..] + Flatten(files[f + 1..]);
          UploadNodeRecord(node, lines[k], known, store);
        }
        assert lines[|lines|..] + Flatten(files[f + 1..]) == Flatten(files[f + 1..]);
      }
      return true;
    }

    /** One edge line: fills keyval (outside the `try`: `completed` is false when that throws),
      then builds and submits the insert, logging the keyval pairs on failure. */
    method UploadEdgeRecord(edge: Edge, sourceKey: string, destinationKey: string, line: string,
                            known: seq<string>, store: Store) returns (completed: bool)
      modifies this
      ensures Progress(State(), completed) == EdgeLine(edge, sourceKey, destinationKey, line, known, store, old(State()))
    {
      var values := Split(line, Tab);
      var keyval := BuildKeyval(edge.entity.attributes, values);
      if keyval.None? {
        return false;
      }
      var failure := EdgeFailure(edge.entity.name, keyval.value);
      var built := BuildEdgeInsert(edge, sourceKey, destinationKey, keyval.value);
      match built {
        case None =>
          errors := errors + [failure];
        case Some((insert, id)) =>
          SubmitInsert(insert, id, known, store, failure);
      }
      return true;
    }

    /** Uploads one edge type: finds the endpoint node types' identity attributes, takes the
      edge-id snapshot, then handles the lines of every file until one throws. */
    method UploadEdge(edge: Edge, nodes: map<string, Node>, disk: Disk, store: Store) returns (completed: bool)
      modifies this
      ensures Progress(State(), completed) == EdgeRun(edge, nodes, disk, store, old(State()))
    {
      if edge.sourceNode !in nodes || edge.destinationNode !in nodes {
        return false;
      }
      var sourceKey := nodes[edge.sourceNode].nodeIdAttribute;
      var destinationKey := nodes[edge.destinationNode].nodeIdAttribute;
      var known := store.edgeIds(sent);
      var listing := disk(edge.entity.pathToData);
      if listing.None? {
        return false;
      }
      var files := listing.value;
      for f := 0 to |files|
        invariant EdgeLines(edge, sourceKey, destinationKey, Flatten(files), known, store, old(State()))
               == EdgeLines(edge, sourceKey, destinationKey, Flatten(files[f..]), known, store, State())
      {
        var lines := files[f];
        assert Flatten(files[f..]) == lines[0..] + Flatten(files[f + 1..]) by {
          assert files[f..][1..] == files[f + 1..];
        }
        for k := 0 to |lines|
          invariant EdgeLines(edge, sourceKey, destinationKey, Flatten(files), known, store, old(State()))
                 == EdgeLines(edge, sourceKey, destinationKey, lines[k..] + Flatten(files[f + 1..]), known, store, State())
        {
          ghost var rest := lines[k..] + Flatten(files[f + 1..]);
          assert rest[0] == lines[k] && rest[1..] == lines[k + 1..] + Flatten(files[f + 1..]);
          var ok := UploadEdgeRecord(edge, sourceKey, destinationKey, lines[k], known, store);
          if !ok {
            return false;
          }
        }
        assert lines[|lines|..] + Flatten(files[f + 1..]) == Flatten(files[f + 1..]);
      }
      return true;
    }

    /** The run: builds the node and edge dictionaries, uploads every node type, resets both
      counters, uploads every edge type and returns the error list to be written. `None` when
      something throws out of this sequence, so the error list is never written. */
    method Run(config: GraphConfig, disk: Disk, store: Store) returns (errorLog: Option<seq<Failure>>)
      modifies this
      ensures Outcome(State(), errorLog) == Ingest(config, disk, store, old(State()))
    {
      var nodes := IndexByName(config.nodes, NodeName);
      if nodes.None? {
        return None;
      }
      var edges := IndexByName(config.edges, EdgeName);
      if edges.None? {
        return None;
      }
      for i := 0 to |config.nodes|
        invariant NodePhase(config.nodes, disk, store, old(State())) == NodePhase(config.nodes[i..], disk, store, State())
      {
        assert config.nodes[i..][1..] == config.nodes[i + 1..];
        var done := UploadNode(config.nodes[i], disk, store);
        if !done {
          return None;
        }
      }
      uploaded, exist := 0, 0;
      ghost var reset := State();
      for i := 0 to |config.edges|
        invariant EdgePhase(config.edges, nodes.value, disk, store, reset)
               == EdgePhase(config.edges[i..], nodes.value, disk, store, State())
      {
        assert config.edges[i..][1..] == config.edges[i + 1..];
        var done := UploadEdge(config.edges[i], nodes.value, disk, store);
        if !done {
          return None;
        }
      }
      return Some(errors);
    }
  }
}
