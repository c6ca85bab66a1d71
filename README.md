# Flowchart builder: a Dafny model

`ProcFluxograma.py` turns a process described in a spreadsheet into a flowchart. Each
row gives a process name, a start flag ("ATIVIDADE INÍCIO"), a source activity, a
procedure and a destination activity. It does so in two ways:

- **Drawflow graph** (`processar_para_drawflow`): builds the interactive graph. It
  produces numbered nodes with positions and a list of connections.
- **Static diagram** (`gerar_fluxograma`): writes node and edge statements for Graphviz.
  Identifiers are made by `safe_id`, and two sets guard against emitting anything twice.

Both start with the same check that the five required columns are present. Both then
walk the rows once, after pandas has grouped them by (source activity, procedure). This
project models that check and both walks. It proves what they promise.

The model is organised as follows:

- `wrappers.dfy`: `Option` and `Result`.
- `text.dfy` (module `Text`): the parts of Python string handling the code relies on.
  - `str.strip()`, with Python's whitespace set.
  - `str.upper()`, as far as comparing with "SIM" depends on it.
  - `str(n)` for the `fim_<idx>` key.
- `table.dfy` (module `Table`):
  - the required-column check and its error;
  - a grouped row (`GroupedRow`);
  - how a row's start flag is read: a missing (NaN) cell reads "NAO", otherwise the
    stripped, upper-cased text.
- `drawflow.dfy` (module `Drawflow`):
  - the builder's state: the `nodes` dictionary with its insertion order, `connections`,
    the `node_id` counter and the `inicio_criado` flag;
  - the dictionary keys as a datatype `Key`, whose spelling `KeyText` is proved
    injective;
  - one function per step of the loop body, and `Run`, the state after any number of
    rows;
  - the loop itself as the methods `ProcessDestinos`, `ProcessRow` and `BuildDrawflow`,
    each proved to compute the matching function;
  - the invariant `Valid`, which every row preserves.
- `drawflow_properties.dfy` (module `DrawflowProperties`): what the returned graph
  satisfies.
  - Node positions per kind.
  - At most one start node, and where it is.
  - One node per activity name.
  - Existing nodes are never changed.
  - Exactly which connections each row appends.
- `graphviz.dfy` (module `Graphviz`):
  - `safe_id`, with its lemmas;
  - the guarded emission as the functions `EmitNode`, `EmitEdge`, `EmitRow` and
    `RunDot`;
  - the loop as the methods `EmitDestinos`, `EmitRowStep` and `GerarFluxograma`;
  - the emitted graph's guarantees: nothing is emitted twice, the guard sets hold
    exactly what was emitted, every edge joins two emitted nodes, and every node's id
    carries the tag of its kind.

Facts about the code that the model keeps:

- Both builders: the walk does not compute columns or per-column row slots, and there
  are no terminal keywords. A destination "FIM" becomes an ordinary activity.
- Both builders: a graph may have no start node.
- `processar_para_drawflow`: positions are fixed per kind.
  - x = 50 for the start node, 300 for activities, 550 for procedures, and 800 for
    destinations and end nodes.
  - y = 50 + 120·row, plus 80·i for the i-th destination, where i is the first position
    that names that destination in the row.
- `processar_para_drawflow`: a row gets an end node only when its destination list is
  empty or its first entry is empty. The end node "fim_<idx>" belongs to that row alone.
- `gerar_fluxograma`: a row gets an end node only when its destination list is empty. A
  list holding one empty string gives the destination node "act_vazio". The end node
  "fim_<activity id>" is shared by all rows of one activity.
- Both builders: procedure nodes are shared by rows whose (activity, procedure) pairs
  give the same key. After grouping the pairs are distinct, so sharing comes from key
  collisions, which the model keeps:
  - `processar_para_drawflow`: ("a_b", "c") and ("a", "b_c") both give "proc_a_b_c"
    (ProcFluxograma.py:159), and so do pairs that are equal after `strip()`
    (ProcFluxograma.py:118-119).
  - `gerar_fluxograma`: pairs that `safe_id` maps to the same id are merged
    (ProcFluxograma.py:271), for example "a b" and "a_b" (`Graphviz.SpaceMeetsUnderscore`).
- Both builders: once the columns are present, no rows give an empty graph. The model
  starts from the grouped rows and the process name, so this covers only the walk; see
  "Left out" for the process name.

Inputs and abstractions:

- The grouped rows and the process name are parameters.
- A row's index is its position in the sequence, as after `reset_index()`.
- The model needs no precondition on the rows: repeated (activity, procedure) pairs are
  handled the way the code handles them.
- Cells are strings. A start-flag cell still distinguishes NaN from a value.

## Model

| member | source | states |
|---|---|---|
| Table.CheckColumnsSpec | ProcFluxograma.py:87-97 | the check succeeds exactly when all five required columns are present; on failure the error names the first required column, in list order, that is missing |
| Table.FirstMissing | ProcFluxograma.py:95-97 | no result exactly when every required column is present; otherwise a required column that is missing, with every earlier one present |
| Table.CheckColumns | ProcFluxograma.py:95-97 | the loop that raises on the first missing column; its contract is carried by `Table.CheckColumnsSpec` |
| Table.Message | ProcFluxograma.py:97 | the raised error's text ends with the name of the missing column |
| Table.MessageIdentifiesColumn | ProcFluxograma.py:97 | two error texts are equal only when they name the same column |
| Table.StartFlagIsStart | ProcFluxograma.py:121 | the flag reads "SIM" exactly when the cell is present and its stripped text spells "sim" in any mix of cases |
| Table.StartFlag | ProcFluxograma.py:121 | how both builders read the start flag (also line 259); its contract is carried by `Table.StartFlagIsStart` and `Text.UpperIsSim` |
| Text.TrimLeftSpec | ProcFluxograma.py:118-121 | `lstrip` keeps a suffix, removes only whitespace, and leaves no leading whitespace |
| Text.TrimRightSpec | ProcFluxograma.py:118-121 | `rstrip` keeps a prefix, removes only whitespace, and leaves no trailing whitespace |
| Text.TrimLeft | ProcFluxograma.py:118 | the left half of `strip()`: never lengthens the text; the rest of its contract is carried by `Text.TrimLeftSpec` |
| Text.TrimRight | ProcFluxograma.py:118 | the right half of `strip()`: never lengthens the text; the rest of its contract is carried by `Text.TrimRightSpec` |
| Text.Strip | ProcFluxograma.py:118-119 | `str.strip()`; its contract is carried by `Text.StripIsCore`, `Text.StripCutsSpace` and `Text.StripIdempotent` |
| Text.StripIsCore | ProcFluxograma.py:118-121 | `strip` yields a contiguous slice of its input that neither starts nor ends with whitespace |
| Text.StripCutsSpace | ProcFluxograma.py:118-121 | everything `strip` removes, at either end, is whitespace |
| Text.StripIdempotent | ProcFluxograma.py:118-121 | stripping twice equals stripping once |
| Text.Upper | ProcFluxograma.py:121 | upper-casing keeps the length, turns each lower-case ASCII letter into its capital (32 code points lower), keeps every character that has no upper case, and leaves no character that still has one |
| Text.UpperIsSim | ProcFluxograma.py:121 | a string upper-cases to "SIM" exactly when it spells "sim" in some mix of cases |
| Text.NatStr | ProcFluxograma.py:196 | `str(n)` consists of decimal digits with no leading zero |
| Text.NatStrInjective | ProcFluxograma.py:196 | different row indices give different `fim_<idx>` texts |
| Drawflow.KeyTextInjective | ProcFluxograma.py:127-196 | two dictionary keys are the same string only when they are the same key, so the model merges exactly the nodes the code merges |
| Drawflow.KeyText | ProcFluxograma.py:127-196 | the dictionary key strings "inicio", "ativ_…", "proc_…" and "fim_<idx>"; its contract is carried by `Drawflow.KeyTextInjective` |
| Drawflow.ProcKey | ProcFluxograma.py:159 | the key "proc_<activity>_<procedure>", joining the two texts with '_'; its contract is carried by `Drawflow.KeyTextInjective`, which shows the model merges exactly the procedure nodes whose joined texts coincide |
| Drawflow.AddNode | ProcFluxograma.py:128-135 | storing a node under a new key with the next id; its contract is carried by `Drawflow.StartStepValid`, `Drawflow.ActivityStepValid`, `Drawflow.ProcStepValid`, `Drawflow.DestOneValid` and `Drawflow.FimStepValid` |
| Drawflow.Connect | ProcFluxograma.py:171-174 | appending one connection; its contract is carried by `DrawflowProperties.RowHeadLinks`, `DrawflowProperties.DestOneLinks` and `DrawflowProperties.FimStepLinks` |
| Drawflow.StartStep | ProcFluxograma.py:126-136 | the start-node step; its contract is carried by `Drawflow.StartStepValid`, `DrawflowProperties.StartStepExtends` and `DrawflowProperties.StepRowStart` |
| Drawflow.RowY | ProcFluxograma.py:123 | the height 50 + 120·idx of the nodes row idx creates; its contract is carried by `DrawflowProperties.RowHeadPlaces`, `DrawflowProperties.StepRowPlaces` and `DrawflowProperties.RunStartPlace` |
| Drawflow.Atividade | ProcFluxograma.py:118 | the stripped source activity; its contract is carried by `DrawflowProperties.RowHeadPlaces` (the activity node's name) and `Text.StripIsCore` |
| Drawflow.Procedimento | ProcFluxograma.py:119 | the stripped procedure; its contract is carried by `DrawflowProperties.RowHeadPlaces` (the procedure node's name) and `Text.StripIsCore` |
| Drawflow.HasDestinos | ProcFluxograma.py:177 | the test `destinos and len(destinos) > 0 and destinos[0]`; its contract is carried by `DrawflowProperties.StepRowDestLinks` (when it holds) and `DrawflowProperties.StepRowEndLink` (when it does not) |
| Drawflow.ActivityStep | ProcFluxograma.py:139-156 | afterwards the activity's key is present, and every existing node is kept unchanged |
| Drawflow.ProcStep | ProcFluxograma.py:159-168 | afterwards the procedure's key is present, and every existing node is kept unchanged |
| Drawflow.DestOne | ProcFluxograma.py:179-193 | afterwards both the procedure and the destination activity are keys of the dictionary |
| Drawflow.Dests | ProcFluxograma.py:177-193 | the destination loop keeps every existing node, leaves the start flag alone, and keeps the procedure's key |
| Drawflow.FimStep | ProcFluxograma.py:194-210 | the end-node step; its contract is carried by `Drawflow.FimStepValid` and `DrawflowProperties.FimStepLinks` |
| Drawflow.RowHead | ProcFluxograma.py:117-174 | the part of a row before its destinations; its contract is carried by `Drawflow.RowHeadValid`, `DrawflowProperties.RowHeadLinks` and `DrawflowProperties.RowHeadPlaces` |
| Drawflow.StepRow | ProcFluxograma.py:117-210 | one pass of the loop body; its contract is carried by `Drawflow.StepRowValid`, `DrawflowProperties.StepRowExtends`, `DrawflowProperties.StepRowDestLinks`, `DrawflowProperties.StepRowEndLink`, `DrawflowProperties.StepRowNewKeys` and `DrawflowProperties.StepRowPlaces` |
| Drawflow.Run | ProcFluxograma.py:117-210 | the state after the loop over some rows; its contract is carried by `Drawflow.RunValid`, `DrawflowProperties.RunShape`, `DrawflowProperties.RunExtends` and `DrawflowProperties.RunStart` |
| Drawflow.StartStepValid | ProcFluxograma.py:126-136 | creating the start node keeps the invariant `Valid` (ids 1..n in insertion order, counter n+1, connections joining existing ids, flag iff "inicio" is a key, keys agreeing with their nodes) |
| Drawflow.ActivityStepValid | ProcFluxograma.py:139-156 | the activity step, including its link from the start node, keeps `Valid` |
| Drawflow.ProcStepValid | ProcFluxograma.py:159-168 | the procedure step keeps `Valid` |
| Drawflow.DestOneValid | ProcFluxograma.py:179-193 | one destination keeps `Valid` |
| Drawflow.DestsValid | ProcFluxograma.py:177-193 | the destination loop keeps `Valid` |
| Drawflow.FimStepValid | ProcFluxograma.py:194-210 | the end-node step for row idx keeps `Valid` and moves its bound on end keys past idx |
| Drawflow.RowHeadValid | ProcFluxograma.py:121-174 | the part of a row before its destinations keeps `Valid` |
| Drawflow.StepRowValid | ProcFluxograma.py:117-210 | a whole row keeps `Valid` |
| Drawflow.RunValid | ProcFluxograma.py:101-210 | `Valid` holds after every number of rows |
| Drawflow.OutputWellFormed | ProcFluxograma.py:212-216 | for a valid state, the returned i-th node has id i+1, and every connection's ends are ids of returned nodes |
| Drawflow.OutputIsValues | ProcFluxograma.py:212-216 | for a valid state, the returned node list holds exactly the dictionary's values: as many nodes as keys, and a node is listed exactly when some key maps to it |
| Drawflow.Output | ProcFluxograma.py:212-216 | the returned value, `list(nodes.values())` with the connections; its contract is carried by `Drawflow.OutputWellFormed` and `Drawflow.OutputIsValues` |
| Drawflow.DrawflowGraph | ProcFluxograma.py:101-216 | the graph the rows define is well formed: node ids exactly 1..n in creation order, every connection between existing nodes |
| Drawflow.ProcessDestinos | ProcFluxograma.py:177-193 | the destination `for` loop computes `Dests` |
| Drawflow.ProcessRow | ProcFluxograma.py:117-210 | the loop body computes `StepRow` for the row and its index |
| Drawflow.BuildDrawflow | ProcFluxograma.py:101-216 | the row loop returns `DrawflowGraph` for the rows |
| Drawflow.ProcessarParaDrawflow | ProcFluxograma.py:87-216 | fails exactly when a required column is missing, naming the first missing one; otherwise returns the graph the rows define |
| DrawflowProperties.DrawflowShape | ProcFluxograma.py:128-205 | every node has y ≥ 50; start nodes are named "Início" at x 50; activities sit at x 300 or 800; procedures at x 550; end nodes are named "Fim" at x 800; no two start nodes; no two activity nodes share a name |
| DrawflowProperties.RunShape | ProcFluxograma.py:117-210 | after any rows the keys are inserted once each, each node has the shape of its kind, and the flag says whether "inicio" exists |
| DrawflowProperties.StartStepExtends | ProcFluxograma.py:126-136 | the start step only adds; afterwards the flag is the old flag or "SIM"; a new start node is at the row's height |
| DrawflowProperties.ActivityStepExtends | ProcFluxograma.py:139-156 | the activity step only adds nodes and appends connections |
| DrawflowProperties.ProcStepExtends | ProcFluxograma.py:159-168 | the procedure step only adds a node |
| DrawflowProperties.FimStepExtends | ProcFluxograma.py:194-210 | the end-node step only adds a node and appends a connection |
| DrawflowProperties.DestsExtends | ProcFluxograma.py:177-193 | the destination loop only adds nodes and appends connections |
| DrawflowProperties.StepRowExtends | ProcFluxograma.py:117-210 | a row never re-creates, renumbers or moves an existing node; it only appends keys and connections; the start flag becomes old flag or this row's "SIM" |
| DrawflowProperties.RunExtends | ProcFluxograma.py:117-210 | the state after the first k rows is extended by the state after all rows |
| DrawflowProperties.DrawflowPrefix | ProcFluxograma.py:117-216 | the graph of the first k rows is a prefix of the full graph, in both nodes and connections |
| DrawflowProperties.AnyStartIff | ProcFluxograma.py:126 | the recursive "some row reads SIM" equals the existential over row positions |
| DrawflowProperties.RunStartFlag | ProcFluxograma.py:114-136 | after the loop `inicio_criado` is true exactly when some row reads "SIM" |
| DrawflowProperties.RunStart | ProcFluxograma.py:114-136 | `inicio_criado` after the loop iff some row's flag reads "SIM" |
| DrawflowProperties.RunStartPlace | ProcFluxograma.py:123-136 | the start node exists and sits at the height of the first "SIM" row |
| DrawflowProperties.StepRowStart | ProcFluxograma.py:126-136 | a row keeps an existing start node unchanged, and creates one at its own height only when none exists and it reads "SIM" |
| DrawflowProperties.DrawflowStart | ProcFluxograma.py:114-216 | the returned graph has a start node exactly when some row reads "SIM", at the height of the first such row |
| DrawflowProperties.StartNodeInGraph | ProcFluxograma.py:126-216 | the returned graph has a start node exactly when `inicio_criado`, and it is the dictionary's "inicio" entry |
| DrawflowProperties.DestOneLinks | ProcFluxograma.py:179-193 | one destination appends exactly the link from the procedure to that destination's activity node, and can create only that node |
| DrawflowProperties.DestsLinks | ProcFluxograma.py:177-193 | the destination loop appends one link per destination in list order, from the procedure to that destination's node, and keeps the earlier connections as a prefix |
| DrawflowProperties.DestsNewKeys | ProcFluxograma.py:178-188 | the destination loop creates only activity nodes |
| DrawflowProperties.RowHeadLinks | ProcFluxograma.py:125-174 | before its destinations, a row appends start→activity only when it reads "SIM" and its activity is new (so this link can be absent or repeated), then activity→procedure; it creates only the start, activity and procedure nodes |
| DrawflowProperties.FimStepLinks | ProcFluxograma.py:194-210 | a row without destinations creates exactly one end node "fim_<idx>" (next id, name "Fim", x 800) and appends exactly procedure→end |
| DrawflowProperties.RowHeadLength | ProcFluxograma.py:149-174 | the head of a row appends two connections when it links from the start node, otherwise one |
| DrawflowProperties.HeadToRow | ProcFluxograma.py:176-210 | the destinations or end step of a row only extend its head |
| DrawflowProperties.StepRowHeadLinks | ProcFluxograma.py:125-174 | within a whole row, the start link (if any) and the activity→procedure link are at their positions in the connection list |
| DrawflowProperties.StepRowDestLinks | ProcFluxograma.py:170-193 | a row with destinations appends exactly one activity→procedure link, then one procedure→destination link per destination, in order |
| DrawflowProperties.StepRowEndLink | ProcFluxograma.py:170-210 | a row without destinations appends exactly activity→procedure and then one procedure→end link, to its own new end node at the row's height |
| DrawflowProperties.StepRowNewKeys | ProcFluxograma.py:125-210 | a row creates only the start node, activity nodes, its own procedure, and its end node when it has no destinations |
| DrawflowProperties.RowHeadPlaces | ProcFluxograma.py:123-168 | the head of row idx puts a new start node at (50, 50 + 120·idx), a new source activity named as the row reads it at (300, 50 + 120·idx), and a new procedure named as the row reads it at (550, 50 + 120·idx) |
| DrawflowProperties.DestsPlaces | ProcFluxograma.py:177-188 | a new destination gets an activity node named by it at (800, y + 80·m), for the first position m that names it |
| DrawflowProperties.StepRowPlaces | ProcFluxograma.py:117-193 | row idx puts a new activity at (300, 50 + 120·idx), a new procedure at (550, 50 + 120·idx), and a new destination (other than the row's own activity) at (800, 50 + 120·idx + 80·m) for the first position m that names it |
| DrawflowProperties.StepRowDestPlaces | ProcFluxograma.py:177-188 | within a whole row with destinations, a new destination other than the row's own activity sits at (800, 50 + 120·idx + 80·m) for the first position m that names it |
| Graphviz.ReplaceSpaces | ProcFluxograma.py:266 | the replacement keeps the length |
| Graphviz.ReplaceSpacesAt | ProcFluxograma.py:266 | each space becomes '_' and every other character stays in place |
| Graphviz.ReplaceSpacesConcat | ProcFluxograma.py:266 | space replacement distributes over concatenation |
| Graphviz.ReplaceSpacesNoSpace | ProcFluxograma.py:266 | a text without spaces is unchanged |
| Graphviz.KeepAllowed | ProcFluxograma.py:267 | the filter never lengthens its input |
| Graphviz.KeepAllowedAllowed | ProcFluxograma.py:267 | the filter's output consists only of digits, ASCII letters, '_', '-' and the listed accented letters |
| Graphviz.KeepAllowedConcat | ProcFluxograma.py:267 | the filter distributes over concatenation |
| Graphviz.KeepAllowedIdentity | ProcFluxograma.py:267 | the filter leaves a text unchanged exactly when all its characters are allowed |
| Graphviz.KeepAllowedNone | ProcFluxograma.py:267 | a text of only disallowed characters filters to the empty string |
| Graphviz.Sanitize | ProcFluxograma.py:266-267 | the two steps of `safe_id`: spaces to '_', then the filter; its contract is carried by `Graphviz.SanitizeConcat` and `Graphviz.SanitizeAllowed` |
| Graphviz.SafeId | ProcFluxograma.py:264-268 | `safe_id`; its contract is carried by `Graphviz.SafeIdAllowed`, `Graphviz.SafeIdShape`, `Graphviz.SafeIdEmpty`, `Graphviz.SafeIdOfSafeText` and `Graphviz.SafeIdStable` |
| Graphviz.SanitizeConcat | ProcFluxograma.py:266-267 | the two steps of `safe_id` distribute over concatenation |
| Graphviz.SanitizeAllowed | ProcFluxograma.py:266-267 | a text of allowed characters passes both steps unchanged |
| Graphviz.SafeIdAllowed | ProcFluxograma.py:264-268 | a `safe_id` result contains only allowed characters, so no space |
| Graphviz.SafeIdShape | ProcFluxograma.py:264-268 | for an allowed prefix, the result is prefix, '_', then the sanitised text ("vazio" for an empty text) |
| Graphviz.SafeIdEmpty | ProcFluxograma.py:266 | an empty text gives `prefix + "_vazio"` |
| Graphviz.VazioIsSafe | ProcFluxograma.py:266 | the substitute "vazio" survives sanitising unchanged |
| Graphviz.SafeIdOfSafeText | ProcFluxograma.py:264-268 | a non-empty text of allowed characters appears verbatim after `prefix + "_"` |
| Graphviz.SafeIdStable | ProcFluxograma.py:264-268 | sanitising a `safe_id` result again changes nothing |
| Graphviz.SpaceMeetsUnderscore | ProcFluxograma.py:266-267 | texts differing only by a space versus an underscore at one place get the same id |
| Graphviz.FilteredTextIsNotVazio | ProcFluxograma.py:266-267 | a non-empty text made only of filtered-out characters gives `prefix + "_"`, not `prefix + "_vazio"` |
| Graphviz.PrefixesAllowed | ProcFluxograma.py:270-271 | the prefixes "act" and "proc" consist of allowed characters |
| Graphviz.ActId | ProcFluxograma.py:270 | the activity id `safe_id(str(raw_atividade), "act")`; its contract is carried by `Graphviz.IdPrefixes` and `Graphviz.TagsSeparateKinds` |
| Graphviz.ProcId | ProcFluxograma.py:271 | the procedure id `safe_id(f"{a}__{p}", "proc")`; its contract is carried by `Graphviz.IdPrefixes` and `Graphviz.TagsSeparateKinds` |
| Graphviz.StartId | ProcFluxograma.py:274 | the start id "inicio_" + activity id; its contract is carried by `Graphviz.IdPrefixes` and `Graphviz.TagsSeparateKinds` |
| Graphviz.DestId | ProcFluxograma.py:306 | the destination id `safe_id(destino_text, "act")`; its contract is carried by `Graphviz.DestIdTag`, `Graphviz.EmptyDestinationIsVazio` and `Graphviz.TagsSeparateKinds` |
| Graphviz.FimId | ProcFluxograma.py:317 | the end id "fim_" + activity id; its contract is carried by `Graphviz.IdPrefixes` and `Graphviz.TagsSeparateKinds` |
| Graphviz.DestIdTag | ProcFluxograma.py:306 | a destination id is "act_" and the sanitised destination text |
| Graphviz.IdPrefixes | ProcFluxograma.py:270-317 | a row's activity, procedure, start and end ids start with "act_", "proc_", "inicio_act_" and "fim_act_" |
| Graphviz.EnumeratesAppend | ProcFluxograma.py:275-283 | appending a new element to a repeat-free listing of a set, and adding it to the set, keeps the listing exact |
| Graphviz.EmitNode | ProcFluxograma.py:275-280 | a node emission guarded by `nos_criados`; its contract is carried by `Graphviz.EmitNodeValid`, `Graphviz.EmitNodeSets` and `Graphviz.EmitNodeTagged` |
| Graphviz.EmitEdge | ProcFluxograma.py:281-283 | an edge emission guarded by `arestas_criadas`; its contract is carried by `Graphviz.EmitEdgeValid` and `Graphviz.EmitEdgeSets` |
| Graphviz.EmitStart | ProcFluxograma.py:273-283 | the start node and its edge for a "SIM" row; its contract is carried by `Graphviz.EmitHeadSets` |
| Graphviz.EmitHead | ProcFluxograma.py:273-301 | a row's emissions before its destinations; its contract is carried by `Graphviz.EmitHeadSets` |
| Graphviz.EmitDests | ProcFluxograma.py:303-315 | the destination loop; its contract is carried by `Graphviz.EmitDestsValid`, `Graphviz.EmitDestsSets` and `Graphviz.EmitDestsTagged` |
| Graphviz.EmitRow | ProcFluxograma.py:273-326 | one pass of the loop body; its contract is carried by `Graphviz.EmitRowValid`, `Graphviz.EmitRowSets`, `Graphviz.EmitRowClosed` and `Graphviz.EmitRowTagged` |
| Graphviz.RunDot | ProcFluxograma.py:255-326 | what the loop emits for some rows; its contract is carried by `Graphviz.RunDotSpec`, `Graphviz.RunDotPrefix`, `Graphviz.RunDotTagged` and `Graphviz.RunDotSound` |
| Graphviz.EmitNodeValid | ProcFluxograma.py:275-280 | a guarded node emission keeps "each id emitted once, and `nos_criados` is exactly the emitted ids" |
| Graphviz.EmitEdgeValid | ProcFluxograma.py:281-283 | a guarded edge emission keeps "each edge emitted once, and `arestas_criadas` is exactly the emitted edges" |
| Graphviz.EmitNodeSets | ProcFluxograma.py:275-280 | a guarded node emission adds its id to `nos_criados` and only appends to the emitted nodes |
| Graphviz.EmitEdgeSets | ProcFluxograma.py:281-283 | a guarded edge emission adds its edge to `arestas_criadas` and only appends to the emitted edges |
| Graphviz.EmptyDestinationIsVazio | ProcFluxograma.py:303-315 | a destination list holding one empty string takes the destination branch and yields the node "act_vazio", not an end node |
| Graphviz.EmitDestsValid | ProcFluxograma.py:304-315 | the destination loop keeps the emitted-once invariant |
| Graphviz.EmitDestsSets | ProcFluxograma.py:304-315 | the destination loop adds exactly the destinations' ids and procedure→destination edges to the sets, only appending to what was emitted |
| Graphviz.EmitRowValid | ProcFluxograma.py:273-326 | a row keeps the emitted-once invariant |
| Graphviz.EmitHeadSets | ProcFluxograma.py:273-301 | before its destinations a row adds exactly its start node (if "SIM"), activity and procedure ids, and the start→activity and activity→procedure edges |
| Graphviz.EmitRowSets | ProcFluxograma.py:273-326 | a row adds exactly the node ids and edges it asks for, and only appends to what was emitted |
| Graphviz.DestEdgesJoin | ProcFluxograma.py:313-315 | every destination edge goes from the procedure to one of the destination ids |
| Graphviz.RowEdgesJoin | ProcFluxograma.py:273-326 | every edge a row asks for joins two ids the same row asks for |
| Graphviz.EmitRowClosed | ProcFluxograma.py:273-326 | after each row, every emitted edge's endpoints are in `nos_criados` |
| Graphviz.RunDotSpec | ProcFluxograma.py:247-326 | after the loop nothing was emitted twice; `nos_criados` is exactly the ids the rows ask for; `arestas_criadas` is exactly the edges they ask for; every edge joins emitted nodes |
| Graphviz.RunDotPrefix | ProcFluxograma.py:255-326 | the output of the first k rows is a prefix of the full output |
| Graphviz.TagsSeparateKinds | ProcFluxograma.py:270-317 | ids tagged with different kinds differ |
| Graphviz.EmitNodeTagged | ProcFluxograma.py:275-297 | emitting a node whose id carries its kind's tag keeps every node tagged |
| Graphviz.EmitDestsTagged | ProcFluxograma.py:304-312 | destination nodes are activity nodes with "act_" ids |
| Graphviz.EmitRowTagged | ProcFluxograma.py:273-326 | every node a row emits carries the tag of its kind |
| Graphviz.RunDotTagged | ProcFluxograma.py:255-326 | every emitted node's id carries its kind's tag, so two emitted nodes of different kinds never share an id |
| Graphviz.RunDotSound | ProcFluxograma.py:247-326 | the emitted graph has no repeated node id, no repeated edge, and only edges between emitted nodes |
| Graphviz.EnumeratedIn | ProcFluxograma.py:247-248 | an element of an exactly listed set occurs in the listing |
| Graphviz.EmitDestinos | ProcFluxograma.py:304-315 | the destination `for` loop computes `EmitDests` |
| Graphviz.EmitRowStep | ProcFluxograma.py:256-326 | the loop body computes `EmitRow` |
| Graphviz.GerarFluxograma | ProcFluxograma.py:223-326 | fails exactly when a required column is missing, naming the first missing one; otherwise emits what `RunDot` defines, a graph with no repeated node or edge and only edges between emitted nodes |

## Left out

- Reading the spreadsheet and detecting its encoding (ProcFluxograma.py:30-80): file
  I/O and calls into pandas, openpyxl, xlrd and chardet.
- The pandas `groupby`/`agg` and the extraction of `nome_processo` (ProcFluxograma.py:99,
  109-112, 235, 250-253) are library calls. The grouped rows and the process name are
  parameters of the model.
- `nome_processo` is read as the first distinct non-empty value of "NOME PROCESSO"
  (ProcFluxograma.py:99, 235). When that column holds no value, as on a sheet with no
  rows, the code raises `IndexError` before any node is built. The model takes the name
  as a parameter, so this failure is not modelled.
- The error the check raises is `ValueError` carrying `Table.Message`'s text. The model's
  error value keeps the missing column itself.
- `str()` of a cell is taken as given: cells are strings. A start-flag cell keeps the
  NaN/value distinction.
- `wrap_label` (ProcFluxograma.py:22-28) wraps `textwrap.wrap`, which is not part of
  this model.
  - An emitted node records the text its label is made from, not the wrapped label.
  - So `EmitRowStep` records the raw activity text as the caption, where the source
    prefers the wrapped text when that is non-empty.
- Graphviz attributes, styling, colour constants and `dot.render` (ProcFluxograma.py:8-20,
  237-245, 276-279, 286-296, 308-311, 319-322, 328-332): these are foreign library calls
  and file writes. A node keeps only its id, caption text and kind.
- `app.py`: HTTP routing, saving uploads and JSON responses.
- `Text.Upper`: only ASCII letters, dotless i and long s are mapped. Other Unicode case
  mappings are not modelled, including those that change the length, such as
  "ß".upper() == "SS".
- `Graphviz.Allowed`: characters are code points. The filter's accented letters are the
  precomposed ones. Normalisation is not modelled.
