# Graph uploader ingestion, modelled in Dafny

This project models the bulk ingestion engine of the Cosmos DB graph uploader
(`Console/Program.cs`). The engine reads each node type's and then each edge type's
tab-separated data files. For every line it builds the record's internal identity: the entity
name followed by the values of the primary attributes, with no separator. It checks that
identity against a snapshot of the identities already stored. It then either counts the record
as existing, or sends a vertex or edge insert and counts it as uploaded, or adds an entry to the
error list.

Modules, leaves first:

- `Fields`: `String.Split('\t')` as a function, with both round trips against `Join`.
- `Schema`: the `Entity`, `Node`, `Edge` and `GraphConfig` records, and the name-keyed dictionaries
  `Main` builds from them (`Dictionary.Add`, which throws on a repeated name).
- `Identity`: the internal identity (`nodeInternalId` / `edgeInternalId`) and its properties,
  including the collisions that concatenation without a separator allows.
- `Instructions`: the insert instructions (`AddV ... Property ...`, `V().Has ... AddE ... To ...`)
  and the loops that build them, each proved equal to a reference function.
- `Ingestion`: the upload as pure functions. It covers one line, one entity type, one phase and
  the whole run, over a `Tally` of the two counters, the error list and the log of sent inserts.
  The lemmas state what the source promises about them.
- `Upload`: the class `Uploader`, which holds the program's mutable state (`counterUploaded`,
  `counterExist`, `errors`, plus the insert log). Its methods are the source's nested loops, each
  proved to leave exactly the state the `Ingestion` function describes.

The store is a `Store` value. It holds three total functions of the inserts sent so far: the
vertex-id snapshot (`g().V().Values("NodeId_Internal")`), the edge-id snapshot
(`g().E().Values("EdgeId_Internal")`), and the result list of the next insert. The data
directories are a `Disk` function from a path to the lines of each file, or `None` when the
directory cannot be listed.

The upload behaves as follows, which a reader might not expect of a loader that checks for
existing records:

- The existence snapshot is taken once per entity type and never extended after an insert.
  A key that is not already stored is inserted every time it appears, so there is no
  deduplication within a run (`NodeLinesSend`, `EdgeLinesSend`, `RepeatedRecordInsertedEachTime`,
  `SharedKeyInsertedTwice`).
- The snapshot covers all vertices (or all edges), not one entity type. Because identities are
  plain concatenations, records of different types can collide (`CrossEntityAliases`).
- Edge inserts store every attribute except the two endpoint identity attributes, not every
  attribute.
- An insert fails when its result list is empty or its first element is `"[]"`.
- An edge line that is too short, or an edge type with a repeated attribute name, throws while
  `keyval` is filled. That is outside the per-record `try`, so nothing is logged and the rest of
  that edge type is abandoned. Edge errors carry the `keyval` pairs, not the raw values.

## Model

| member | source | states |
|---|---|---|
| `Fields.Split` | Console/Program.cs:163 | a line splits into at least one field, and no field contains the separator |
| `Fields.JoinSplit` | Console/Program.cs:163 | joining the split fields with the separator gives the line back |
| `Fields.SplitJoin` | Console/Program.cs:226 | fields without the separator survive a join followed by a split |
| `Schema.IndexByName` | Console/Program.cs:59-69 | adding entities by name succeeds exactly when the names are distinct, and then gives the name-keyed dictionary |
| `Schema.ByNameFinds` | Console/Program.cs:61-64 | with distinct names the dictionary's keys are exactly the names, and each name maps to its own entity (used by `nodes[edge.SourceNode]`) |
| `Schema.LookupZip` | Console/Program.cs:229-236 | in keyval filled from distinct attributes, `keyval[a]` is the value at `a`'s position, and a name that is not an attribute is missing |
| `Identity.SamePrimaryValuesSameId` | Console/Program.cs:167-176 | two records of one entity whose primary-attribute values agree get the same internal id, whatever their other fields |
| `Identity.TrailingFieldsIgnored` | Console/Program.cs:169-176 | fields past the declared attributes do not affect the internal id |
| `Identity.KeyvalConcatOfZip` | Console/Program.cs:237-250 | the edge id built by iterating keyval equals the positional id (name followed by the primary values in declared attribute order) |
| `Identity.ConcatenationAliases` | Console/Program.cs:167-176 | without a separator, primary values ("1","23") and ("12","3") give the same id |
| `Instructions.BuildNodeInsert` | Console/Program.cs:166-178 | no insert when the line has fewer fields than attributes; otherwise label `node.Name`, one property `Attributes[i] ↦ values[i]` per attribute in order, then `NodeId_Internal ↦ id` |
| `Instructions.BuildKeyval` | Console/Program.cs:227-232 | filling keyval fails exactly when the line is too short or an attribute name repeats; otherwise it holds the attribute/value pairs in attribute order |
| `Instructions.KeptPropertiesMembership` | Console/Program.cs:239-245 | the stored edge properties are exactly the keyval pairs whose key is neither endpoint identity attribute |
| `Instructions.BuildEdgeInsert` | Console/Program.cs:236-252 | the loop builds the same edge insert as the reference `EdgeInsertOf`, or none when an endpoint attribute is missing from keyval |
| `Instructions.EdgeInsertOfRecord` | Console/Program.cs:210-252 | an edge insert exists exactly when both endpoint attributes are declared; its label is `SourceNode + DestinationNode`; it matches each endpoint by that attribute's value; it stores every other attribute and no endpoint attribute; and it carries the positional internal id |
| `Ingestion.NodeLineEffect` | Console/Program.cs:161-200 | a node line changes exactly one of the uploaded counter, the existing counter or the error list, by one. A short line is logged with its raw values. A known id sends nothing and counts as existing. An unknown id sends one insert, counted as uploaded exactly when the store accepts it |
| `Ingestion.EdgeLineEffect` | Console/Program.cs:224-275 | an edge line either throws while filling keyval and changes nothing, or changes exactly one counter or the error list by one. A missing endpoint attribute logs the keyval pairs. A known id sends nothing and counts as existing. An unknown id sends one insert, counted as uploaded exactly when the store accepts it and otherwise logged with the keyval pairs |
| `Ingestion.NodeLinesAccounting` | Console/Program.cs:157-202 | every line of a node type is accounted for exactly once; counters never drop; errors and inserts are only appended, and all inserts are vertex inserts |
| `Ingestion.NodeLinesSend` | Console/Program.cs:152-189 | the inserts a node type sends depend only on its lines and the snapshot taken at the start, not on the store's answers or on earlier inserts |
| `Ingestion.RepeatedRecordInsertedEachTime` | Console/Program.cs:180-189 | a line whose id is not in the snapshot is inserted each time it appears, and never counts as existing |
| `Ingestion.SharedKeyInsertedTwice` | Console/Program.cs:161-189 | two rows with the same key and different other fields are both inserted under the same internal id |
| `Ingestion.CrossEntityAliases` | Console/Program.cs:152-189 | entity "A" with key "Bx" and entity "AB" with key "x" share the id "ABx"; against a vertex snapshot holding A's record, AB's record "x" only counts as existing and is not inserted |
| `Ingestion.StoredRecordsOnlyCounted` | Console/Program.cs:180-193 | lines whose ids are all in the snapshot send and log nothing and only raise the existing counter, once per line |
| `Ingestion.EdgeLinesAccounting` | Console/Program.cs:221-277 | an edge type reaches the end of its lines exactly when every line fills keyval, and then every line is accounted for once; the state only grows, by edge inserts |
| `Ingestion.EdgeLinesSend` | Console/Program.cs:216-264 | up to the first line that cannot fill keyval, the inserts an edge type sends depend only on its lines and the edge-id snapshot taken at the start |
| `Ingestion.StoredEdgesOnlyCounted` | Console/Program.cs:254-268 | edge lines whose ids are all in the snapshot send and log nothing, only raise the existing counter once per line, and the edge type runs to its end |
| `Ingestion.MalformedEdgeLineAbandonsRest` | Console/Program.cs:224-232 | a line that cannot fill keyval ends the edge type: the state is what the earlier lines left, and later lines are not read |
| `Ingestion.UndeclaredEndpointEndsEdgeRun` | Console/Program.cs:210-211 | an edge type whose source or destination node type is not declared throws before any line is read |
| `Ingestion.NodePhaseGrows` | Console/Program.cs:73 | the node phase only appends vertex inserts and errors and never lowers a counter |
| `Ingestion.EdgePhaseGrows` | Console/Program.cs:80 | the edge phase only appends edge inserts and errors and never lowers a counter |
| `Ingestion.EdgePhaseAccounting` | Console/Program.cs:80 | an edge phase that runs to its end had every endpoint node type declared and every directory listed, and accounts for every line of every edge type once |
| `Ingestion.IngestPhaseOrder` | Console/Program.cs:71-83 | every vertex insert of the run precedes every edge insert, and the errors present before the run stay at the head of the error list |
| `Ingestion.IngestOutcome` | Console/Program.cs:71-83 | the error log is written exactly when the names are distinct and both phases run to their end, and it is then the final error list; the node phase's errors survive the counter reset; after the reset the counters and the newly logged errors account for the edge lines alone |
| `Ingestion.UndeclaredEndpointEndsRun` | Console/Program.cs:66-83 | an edge type naming an undeclared node type as an endpoint ends the run before the error list is written |
| `Upload.Uploader.constructor` | Console/Program.cs:24-27 | the program starts with both counters at zero, no errors and nothing sent |
| `Upload.Uploader.SubmitInsert` | Console/Program.cs:180-193 | a known id raises `counterExist`; otherwise the insert is sent, then counted or logged according to the store's result |
| `Upload.Uploader.UploadNodeRecord` | Console/Program.cs:163-200 | one node line leaves the state `NodeLine` describes |
| `Upload.Uploader.UploadNode` | Console/Program.cs:147-205 | the node upload takes the snapshot once and leaves the state `NodeRun` describes; it fails only when the directory cannot be listed |
| `Upload.Uploader.UploadEdgeRecord` | Console/Program.cs:226-275 | one edge line leaves the state `EdgeLine` describes, and reports whether filling keyval threw |
| `Upload.Uploader.UploadEdge` | Console/Program.cs:208-280 | the edge upload resolves the endpoint identity attributes, takes the snapshot once and leaves the state `EdgeRun` describes, stopping at the first line that throws |
| `Upload.Uploader.Run` | Console/Program.cs:59-83 | the run builds both dictionaries, runs the node phase, resets both counters and runs the edge phase; it returns the error list to write exactly when nothing threw, as `Ingest` describes |

## Left out

- `SetupGraphDb` and the database and collection lookup (Console/Program.cs:41-50, 98-145): these provision the store through the DocumentDB SDK over the network.
- Reading the settings and deserialising the graph configuration (Console/Program.cs:35-38, 51-57): these are library parsing and I/O, so the model takes a built `GraphConfig`.
- `Directory.GetFiles`, `File.ReadAllLines`, `File.WriteAllLines` and every `Console.Write`: file and console I/O. Directories are the `Disk` input and the written log is `Run`'s result. The progress line is not modelled.
- `AsyncParallelForEach` with `MaxTasks` (Console/Program.cs:73, 80): this extension is not part of this model. Each phase runs its entity types one after another, which is the run with `MaxTasks` set to 1.
- Upload.Uploader.Run: a faulted entity type ends its phase and the run. This assumes the extension passes the fault on to `.Wait()`, where `Main`'s `catch` skips writing the error list. With a larger `MaxTasks`, entity types already running would still finish.
- `Interlocked.Increment` is a plain increment, because the model is sequential. The counters are unbounded integers, so 32-bit overflow is not modelled.
- The Gremlin `GraphCommand`/`NextAsync` API is replaced by the `Insert` datatype and the `Store` functions. The format of the snapshot strings the library returns is taken as given. An insert whose `NextAsync` throws has the same effect as a rejected result: one error, no counter.
- A snapshot query that throws is not modelled.
- Error entries are the pair (entity name, raw values) for nodes and (entity name, keyval pairs) for edges. The exception text and the JSON serialisation are not modelled.
- `errors` is a `ConcurrentBag`, whose enumeration order is unspecified. The model keeps insertion order.
- Console/Csv/CsvProfile.cs and Console/ProgressStatusEventArgs.cs only hold properties set by their constructors. The upload code never uses them.
