/**
 * The static flowchart builder (`gerar_fluxograma`): node identifiers made by
 * `safe_id`, and a pass over the grouped rows that emits each node and each edge
 * once, guarded by the sets `nos_criados` and `arestas_criadas`. A `dot.node` call is
 * an append to `nodes`, a `dot.edge` call an append to `edges`.
 */
module Graphviz {
  import opened Wrappers
  import opened Table

  // ---------------------------------------------------------------------------
  // safe_id

  /**
   * The accented letters the identifier filter lets through: a with acute, grave, tilde
   * or circumflex, e with acute or circumflex, i with acute, o with acute, circumflex or
   * tilde, u with acute, c with cedilla, in lower and upper case.
   */
  predicate Accented(c: char) {
    || ('\U{E0}' <= c <= '\U{E3}') || ('\U{E9}' <= c <= '\U{EA}') || c == '\U{ED}'
    || ('\U{F3}' <= c <= '\U{F5}') || c == '\U{FA}' || c == '\U{E7}'
    || ('\U{C0}' <= c <= '\U{C3}') || ('\U{C9}' <= c <= '\U{CA}') || c == '\U{CD}'
    || ('\U{D3}' <= c <= '\U{D5}') || c == '\U{DA}' || c == '\U{C7}'
  }

  /** The characters the identifier filter keeps: digits, ASCII letters, '_', '-' and the accented letters above. */
  predicate Allowed(c: char) {
    || ('0' <= c <= '9') || ('A' <= c <= 'Z') || ('a' <= c <= 'z')
    || c == '_' || c == '-' || Accented(c)
  }

  predicate AllAllowed(s: string) {
    forall i :: 0 <= i < |s| ==> Allowed(s[i])
  }

  /** `s.replace(" ", "_")` */
  function ReplaceSpaces(s: string): (r: string)
    ensures |r| == |s|
    decreases |s|
  {
    if s == [] then [] else [if s[0] == ' ' then '_' else s[0]] + ReplaceSpaces(s[1..])
  }

  /** Removes every character the filter does not allow, keeping the order of the rest. */
  function KeepAllowed(s: string): (r: string)
    ensures |r| <= |s|
    decreases |s|
  {
    if s == [] then []
    else if Allowed(s[0]) then [s[0]] + KeepAllowed(s[1..])
    else KeepAllowed(s[1..])
  }

  /** Each space becomes '_' and every other character stays where it is. */
  lemma {:induction false} ReplaceSpacesAt(s: string)
    ensures forall i :: 0 <= i < |s| ==> ReplaceSpaces(s)[i] == (if s[i] == ' ' then '_' else s[i])
    decreases |s|
  {
    if s != [] {
      ReplaceSpacesAt(s[1..]);
    }
  }

  /** What the filter keeps is allowed. */
  lemma {:induction false} KeepAllowedAllowed(s: string)
    ensures AllAllowed(KeepAllowed(s))
    decreases |s|
  {
    if s != [] {
      KeepAllowedAllowed(s[1..]);
    }
  }

  /** The two rewriting steps of `safe_id`: spaces become '_', then the filter. */
  function Sanitize(s: string): string {
    KeepAllowed(ReplaceSpaces(s))
  }

  /** `safe_id(text, prefix)` */
  function SafeId(text: string, prefix: string): string {
    Sanitize(prefix + "_" + (if text != "" then text else "vazio"))
  }

  lemma {:induction false} ReplaceSpacesConcat(a: string, b: string)
    ensures ReplaceSpaces(a + b) == ReplaceSpaces(a) + ReplaceSpaces(b)
    decreases |a|
  {
    if a == [] {
      assert a + b == b;
    } else {
      assert (a + b)[0] == a[0] && (a + b)[1..] == a[1..] + b;
      ReplaceSpacesConcat(a[1..], b);
      var h := [if a[0] == ' ' then '_' else a[0]];
      assert h + (ReplaceSpaces(a[1..]) + ReplaceSpaces(b)) == (h + ReplaceSpaces(a[1..])) + ReplaceSpaces(b);
    }
  }

  lemma {:induction false} KeepAllowedConcat(a: string, b: string)
    ensures KeepAllowed(a + b) == KeepAllowed(a) + KeepAllowed(b)
    decreases |a|
  {
    if a == [] {
      assert a + b == b;
    } else {
      assert (a + b)[0] == a[0] && (a + b)[1..] == a[1..] + b;
      KeepAllowedConcat(a[1..], b);
      if Allowed(a[0]) {
        var h := [a[0]];
        assert h + (KeepAllowed(a[1..]) + KeepAllowed(b)) == (h + KeepAllowed(a[1..])) + KeepAllowed(b);
      }
    }
  }

  /** The filter leaves a string alone exactly when every character of it is allowed. */
  lemma {:induction false} KeepAllowedIdentity(s: string)
    ensures KeepAllowed(s) == s <==> AllAllowed(s)
    decreases |s|
  {
    KeepAllowedAllowed(s);
    if s != [] {
      KeepAllowedIdentity(s[1..]);
      if !Allowed(s[0]) {
        assert |KeepAllowed(s)| < |s|;
      }
    }
  }

  /** A string with no space is left alone by the space replacement. */
  lemma ReplaceSpacesNoSpace(s: string)
    requires forall i :: 0 <= i < |s| ==> s[i] != ' '
    ensures ReplaceSpaces(s) == s
  {
    ReplaceSpacesAt(s);
  }

  lemma AllowedIsNotSpace(s: string)
    requires AllAllowed(s)
    ensures forall i :: 0 <= i < |s| ==> s[i] != ' '
  {
  }

  /** The identifier of a text's own part, with no prefix. */
  function SafeBody(text: string): string {
    Sanitize(if text != "" then text else "vazio")
  }

  /** Sanitising a concatenation sanitises each part. */
  lemma SanitizeConcat(a: string, b: string)
    ensures Sanitize(a + b) == Sanitize(a) + Sanitize(b)
  {
    ReplaceSpacesConcat(a, b);
    KeepAllowedConcat(ReplaceSpaces(a), ReplaceSpaces(b));
  }

  /** A string of allowed characters is its own sanitised form. */
  lemma SanitizeAllowed(s: string)
    requires AllAllowed(s)
    ensures Sanitize(s) == s
  {
    AllowedIsNotSpace(s);
    ReplaceSpacesNoSpace(s);
    KeepAllowedIdentity(s);
  }

  /** `safe_id` holds only allowed characters, so in particular no space. */
  lemma SafeIdAllowed(text: string, prefix: string)
    ensures AllAllowed(SafeId(text, prefix))
    ensures forall i :: 0 <= i < |SafeId(text, prefix)| ==> SafeId(text, prefix)[i] != ' '
  {
    KeepAllowedAllowed(ReplaceSpaces(prefix + "_" + (if text != "" then text else "vazio")));
    AllowedIsNotSpace(SafeId(text, prefix));
  }

  /**
   * For a prefix made of allowed characters, `safe_id` is the prefix, '_', and the
   * filtered text, with "vazio" standing for an empty text.
   */
  lemma SafeIdShape(text: string, prefix: string)
    requires AllAllowed(prefix)
    ensures SafeId(text, prefix) == prefix + "_" + SafeBody(text)
  {
    var body := if text != "" then text else "vazio";
    SanitizeConcat(prefix + "_", body);
    SanitizeConcat(prefix, "_");
    SanitizeAllowed(prefix);
    SanitizeAllowed("_");
  }

  /** An empty text gives `prefix + "_vazio"`. */
  lemma SafeIdEmpty(prefix: string)
    requires AllAllowed(prefix)
    ensures SafeId("", prefix) == prefix + "_vazio"
  {
    SafeIdShape("", prefix);
    VazioIsSafe();
  }

  lemma VazioIsSafe()
    ensures SafeBody("") == "vazio"
  {
    var v := "vazio";
    assert AllAllowed(v) by {
      forall i | 0 <= i < |v| ensures Allowed(v[i]) { }
    }
    SanitizeAllowed(v);
  }

  /** A non-empty text made of allowed characters is kept as it is. */
  lemma SafeIdOfSafeText(text: string, prefix: string)
    requires AllAllowed(prefix) && AllAllowed(text) && text != ""
    ensures SafeId(text, prefix) == prefix + "_" + text
  {
    SafeIdShape(text, prefix);
    SanitizeAllowed(text);
  }

  /** Identifiers are themselves safe: applying the filter again changes nothing. */
  lemma SafeIdStable(text: string, prefix: string)
    ensures Sanitize(SafeId(text, prefix)) == SafeId(text, prefix)
  {
    SafeIdAllowed(text, prefix);
    SanitizeAllowed(SafeId(text, prefix));
  }

  // ---------------------------------------------------------------------------
  // The identifiers of one row

  /** The prefixes `safe_id` is called with, and the literal parts of the derived ids. */
  const ActPrefix := "act"
  const ProcPrefix := "proc"

  function ActId(row: GroupedRow): string {
    SafeId(row.origem, ActPrefix)
  }

  function ProcId(row: GroupedRow): string {
    SafeId(row.origem + "__" + row.procedimento, ProcPrefix)
  }

  function DestId(destino: string): string {
    SafeId(destino, ActPrefix)
  }

  function StartId(row: GroupedRow): string {
    "inicio_" + ActId(row)
  }

  function FimId(row: GroupedRow): string {
    "fim_" + ActId(row)
  }

  lemma PrefixesAllowed()
    ensures AllAllowed(ActPrefix) && AllAllowed(ProcPrefix)
  {
    assert AllAllowed(ActPrefix) by {
      forall i | 0 <= i < |ActPrefix| ensures Allowed(ActPrefix[i]) { }
    }
    assert AllAllowed(ProcPrefix) by {
      forall i | 0 <= i < |ProcPrefix| ensures Allowed(ProcPrefix[i]) { }
    }
  }

  /** An activity id, for a source or a destination alike, is "act_" and the sanitised text. */
  lemma DestIdTag(destino: string)
    ensures DestId(destino) == "act_" + SafeBody(destino)
  {
    PrefixesAllowed();
    SafeIdShape(destino, ActPrefix);
  }

  /**
   * Every id of a row starts with the tag of its kind: "act_" for its activity,
   * "proc_" for its procedure, "inicio_act_" for its start node and "fim_act_" for its
   * end node.
   */
  lemma IdPrefixes(row: GroupedRow)
    ensures ActId(row) == "act_" + SafeBody(row.origem)
    ensures ProcId(row) == "proc_" + SafeBody(row.origem + "__" + row.procedimento)
    ensures StartId(row) == "inicio_act_" + SafeBody(row.origem)
    ensures FimId(row) == "fim_act_" + SafeBody(row.origem)
  {
    PrefixesAllowed();
    DestIdTag(row.origem);
    SafeIdShape(row.origem + "__" + row.procedimento, ProcPrefix);
  }

  /**
   * A space and an underscore at the same place give the same id, so two activity names
   * that differ only there share one node.
   */
  lemma SpaceMeetsUnderscore(a: string, b: string, prefix: string)
    ensures SafeId(a + " " + b, prefix) == SafeId(a + "_" + b, prefix)
  {
    var x := prefix + "_" + a;
    assert prefix + "_" + (a + " " + b) == x + " " + b;
    assert prefix + "_" + (a + "_" + b) == x + "_" + b;
    SanitizeConcat(x + " ", b);
    SanitizeConcat(x, " ");
    SanitizeConcat(x + "_", b);
    SanitizeConcat(x, "_");
    assert ReplaceSpaces(" ") == "_" && ReplaceSpaces("_") == "_" by {
      assert " "[1..] == [] && "_"[1..] == [];
    }
    assert KeepAllowed("_") == "_" by {
      assert "_"[1..] == [];
    }
  }

  /**
   * The "vazio" substitute is decided before the filter: a non-empty text whose every
   * character is filtered out gives `prefix + "_"`, not `prefix + "_vazio"`.
   */
  lemma FilteredTextIsNotVazio(text: string, prefix: string)
    requires AllAllowed(prefix) && text != []
    requires forall i :: 0 <= i < |text| ==> text[i] != ' ' && !Allowed(text[i])
    ensures SafeId(text, prefix) == prefix + "_"
  {
    SafeIdShape(text, prefix);
    ReplaceSpacesNoSpace(text);
    KeepAllowedNone(text);
  }

  lemma {:induction false} KeepAllowedNone(s: string)
    requires forall i :: 0 <= i < |s| ==> !Allowed(s[i])
    ensures KeepAllowed(s) == []
    decreases |s|
  {
    if s != [] {
      KeepAllowedNone(s[1..]);
    }
  }

  const StartLabel := "In\U{ED}cio"
  const EndLabel := "Fim"

  datatype DotKind = StartNode | ActivityNode | ProcedureNode | EndNode

  /** One `dot.node` call: the identifier, the text its label is made from, and the node's style. */
  datatype DotNode = DotNode(id: string, caption: string, kind: DotKind)

  /** One `dot.edge` call, and an element of `arestas_criadas`. */
  datatype Edge = Edge(from: string, to: string)

  /** The two guard sets and what has been emitted so far. */
  datatype Dot = Dot(nosCriados: set<string>, arestasCriadas: set<Edge>, nodes: seq<DotNode>, edges: seq<Edge>)

  const Empty := Dot({}, {}, [], [])

  /** `if id not in nos_criados: dot.node(...); nos_criados.add(id)` */
  function EmitNode(d: Dot, id: string, caption: string, kind: DotKind): Dot {
    if id in d.nosCriados then d
    else d.(nodes := d.nodes + [DotNode(id, caption, kind)], nosCriados := d.nosCriados + {id})
  }

  /** `if (from, to) not in arestas_criadas: dot.edge(from, to); arestas_criadas.add((from, to))` */
  function EmitEdge(d: Dot, from: string, to: string): Dot {
    if Edge(from, to) in d.arestasCriadas then d
    else d.(edges := d.edges + [Edge(from, to)], arestasCriadas := d.arestasCriadas + {Edge(from, to)})
  }

  /** The start node of a "SIM" row and its edge to the row's activity. */
  function EmitStart(d: Dot, row: GroupedRow): Dot {
    if StartFlag(row.inicio) == "SIM" then
      EmitEdge(EmitNode(d, StartId(row), StartLabel, StartNode), StartId(row), ActId(row))
    else d
  }

  /** The activity node, the procedure node, and the edge between them. */
  function EmitHead(d: Dot, row: GroupedRow): Dot {
    var d1 := EmitNode(EmitStart(d, row), ActId(row), row.origem, ActivityNode);
    EmitEdge(EmitNode(d1, ProcId(row), row.procedimento, ProcedureNode), ActId(row), ProcId(row))
  }

  /** The destinations from the i-th on: each one's activity node and the edge to it. */
  function EmitDests(d: Dot, procId: string, destinos: seq<string>, i: nat): Dot
    requires i <= |destinos|
    decreases |destinos| - i
  {
    if i == |destinos| then d
    else
      var id := DestId(destinos[i]);
      EmitDests(EmitEdge(EmitNode(d, id, destinos[i], ActivityNode), procId, id), procId, destinos, i + 1)
  }

  /** What the loop body does with one row. */
  function EmitRow(d: Dot, row: GroupedRow): Dot {
    var d4 := EmitHead(d, row);
    if row.destinos != [] then EmitDests(d4, ProcId(row), row.destinos, 0)
    else EmitEdge(EmitNode(d4, FimId(row), EndLabel, EndNode), ProcId(row), FimId(row))
  }

  function RunDot(rows: seq<GroupedRow>): Dot
    decreases |rows|
  {
    if rows == [] then Empty else EmitRow(RunDot(rows[..|rows| - 1]), rows[|rows| - 1])
  }

  // ---------------------------------------------------------------------------
  // What the row loop keeps

  /** `xs` lists the elements of `s`, each exactly once. */
  ghost predicate Enumerates<T>(xs: seq<T>, s: set<T>) {
    && (forall i, j :: 0 <= i < j < |xs| ==> xs[i] != xs[j])
    && (forall i :: 0 <= i < |xs| ==> xs[i] in s)
    && (forall x :: x in s ==> exists i :: 0 <= i < |xs| && xs[i] == x)
  }

  lemma EnumeratesAppend<T>(xs: seq<T>, s: set<T>, x: T)
    requires Enumerates(xs, s) && x !in s
    ensures Enumerates(xs + [x], s + {x})
  {
    var ys := xs + [x];
    forall y | y in s + {x} ensures exists i :: 0 <= i < |ys| && ys[i] == y {
      if y == x {
        assert ys[|xs|] == y;
      } else {
        var i :| 0 <= i < |xs| && xs[i] == y;
        assert ys[i] == y;
      }
    }
  }

  ghost function NodeIds(nodes: seq<DotNode>): (r: seq<string>)
    ensures |r| == |nodes| && forall i :: 0 <= i < |nodes| ==> r[i] == nodes[i].id
  {
    seq(|nodes|, i requires 0 <= i < |nodes| => nodes[i].id)
  }

  /**
   * Each node id and each edge is emitted at most once, and the guard sets hold exactly
   * what has been emitted.
   */
  ghost predicate DotValid(d: Dot) {
    Enumerates(NodeIds(d.nodes), d.nosCriados) && Enumerates(d.edges, d.arestasCriadas)
  }

  /** Every emitted edge joins two emitted nodes. */
  ghost predicate Closed(d: Dot) {
    forall e :: e in d.arestasCriadas ==> e.from in d.nosCriados && e.to in d.nosCriados
  }

  lemma EmitNodeValid(d: Dot, id: string, caption: string, kind: DotKind)
    requires DotValid(d)
    ensures DotValid(EmitNode(d, id, caption, kind))
  {
    if id !in d.nosCriados {
      var n := DotNode(id, caption, kind);
      assert NodeIds(d.nodes + [n]) == NodeIds(d.nodes) + [id];
      EnumeratesAppend(NodeIds(d.nodes), d.nosCriados, id);
    }
  }

  lemma EmitEdgeValid(d: Dot, from: string, to: string)
    requires DotValid(d)
    ensures DotValid(EmitEdge(d, from, to))
  {
    if Edge(from, to) !in d.arestasCriadas {
      EnumeratesAppend(d.edges, d.arestasCriadas, Edge(from, to));
    }
  }

  // ---------------------------------------------------------------------------
  // What one row emits, as sets

  /** The ids of a row's destinations from the i-th on. */
  function DestIds(destinos: seq<string>, i: nat): set<string>
    requires i <= |destinos|
    decreases |destinos| - i
  {
    if i == |destinos| then {} else {DestId(destinos[i])} + DestIds(destinos, i + 1)
  }

  function DestEdges(procId: string, destinos: seq<string>, i: nat): set<Edge>
    requires i <= |destinos|
    decreases |destinos| - i
  {
    if i == |destinos| then {} else {Edge(procId, DestId(destinos[i]))} + DestEdges(procId, destinos, i + 1)
  }

  /** The start node of a row whose flag reads "SIM", and its edge to the row's activity. */
  function StartNodeIds(row: GroupedRow): set<string> {
    if IsStart(row.inicio) then {StartId(row)} else {}
  }

  function StartEdges(row: GroupedRow): set<Edge> {
    if IsStart(row.inicio) then {Edge(StartId(row), ActId(row))} else {}
  }

  /** A row's destinations, or its end node when it has none. */
  function TailNodeIds(row: GroupedRow): set<string> {
    if row.destinos != [] then DestIds(row.destinos, 0) else {FimId(row)}
  }

  function TailEdges(row: GroupedRow): set<Edge> {
    if row.destinos != [] then DestEdges(ProcId(row), row.destinos, 0) else {Edge(ProcId(row), FimId(row))}
  }

  /** The node ids a row asks for: the start node if its flag reads "SIM", its activity and procedure, and its destinations or its end node. */
  function RowNodeIds(row: GroupedRow): set<string> {
    StartNodeIds(row) + {ActId(row), ProcId(row)} + TailNodeIds(row)
  }

  /** The edges a row asks for: start to activity, activity to procedure, procedure to each destination or to the end node. */
  function RowEdges(row: GroupedRow): set<Edge> {
    StartEdges(row) + {Edge(ActId(row), ProcId(row))} + TailEdges(row)
  }

  /**
   * The branch tests only that the destination list is non-empty: a row whose list is
   * one empty string gets a destination node "act_vazio" and no end node.
   */
  lemma EmptyDestinationIsVazio(row: GroupedRow)
    requires row.destinos == [""]
    ensures TailNodeIds(row) == {"act_vazio"}
    ensures TailEdges(row) == {Edge(ProcId(row), "act_vazio")}
  {
    PrefixesAllowed();
    SafeIdEmpty(ActPrefix);
    assert DestIds(row.destinos, 1) == {} && DestEdges(ProcId(row), row.destinos, 1) == {};
    assert DestId("") == "act_vazio";
  }

  lemma {:induction false} EmitDestsValid(d: Dot, procId: string, destinos: seq<string>, i: nat)
    requires DotValid(d) && i <= |destinos|
    ensures DotValid(EmitDests(d, procId, destinos, i))
    decreases |destinos| - i
  {
    if i < |destinos| {
      var id := DestId(destinos[i]);
      var d1 := EmitNode(d, id, destinos[i], ActivityNode);
      EmitNodeValid(d, id, destinos[i], ActivityNode);
      EmitEdgeValid(d1, procId, id);
      EmitDestsValid(EmitEdge(d1, procId, id), procId, destinos, i + 1);
    }
  }

  lemma {:induction false} EmitDestsSets(d: Dot, procId: string, destinos: seq<string>, i: nat)
    requires i <= |destinos|
    ensures var r := EmitDests(d, procId, destinos, i);
      && r.nosCriados == d.nosCriados + DestIds(destinos, i)
      && r.arestasCriadas == d.arestasCriadas + DestEdges(procId, destinos, i)
      && d.nodes <= r.nodes && d.edges <= r.edges
    decreases |destinos| - i
  {
    if i < |destinos| {
      var id := DestId(destinos[i]);
      EmitDestsSets(EmitEdge(EmitNode(d, id, destinos[i], ActivityNode), procId, id), procId, destinos, i + 1);
    }
  }

  /** One row keeps the invariant: nothing is emitted twice and the guard sets match what was emitted. */
  lemma EmitRowValid(d: Dot, row: GroupedRow)
    requires DotValid(d)
    ensures DotValid(EmitRow(d, row))
  {
    var d0 := EmitNode(d, StartId(row), StartLabel, StartNode);
    EmitNodeValid(d, StartId(row), StartLabel, StartNode);
    EmitEdgeValid(d0, StartId(row), ActId(row));
    var ds := EmitStart(d, row);
    var d1 := EmitNode(ds, ActId(row), row.origem, ActivityNode);
    EmitNodeValid(ds, ActId(row), row.origem, ActivityNode);
    var d2 := EmitNode(d1, ProcId(row), row.procedimento, ProcedureNode);
    EmitNodeValid(d1, ProcId(row), row.procedimento, ProcedureNode);
    var d4 := EmitHead(d, row);
    EmitEdgeValid(d2, ActId(row), ProcId(row));
    if row.destinos != [] {
      EmitDestsValid(d4, ProcId(row), row.destinos, 0);
    } else {
      var d5 := EmitNode(d4, FimId(row), EndLabel, EndNode);
      EmitNodeValid(d4, FimId(row), EndLabel, EndNode);
      EmitEdgeValid(d5, ProcId(row), FimId(row));
    }
  }

  lemma EmitNodeSets(d: Dot, id: string, caption: string, kind: DotKind)
    ensures var r := EmitNode(d, id, caption, kind);
      && r.nosCriados == d.nosCriados + {id} && r.arestasCriadas == d.arestasCriadas
      && d.nodes <= r.nodes && d.edges == r.edges
  {
  }

  lemma EmitEdgeSets(d: Dot, from: string, to: string)
    ensures var r := EmitEdge(d, from, to);
      && r.nosCriados == d.nosCriados && r.arestasCriadas == d.arestasCriadas + {Edge(from, to)}
      && d.nodes == r.nodes && d.edges <= r.edges
  {
  }

  /** The start node and edge, the activity and procedure nodes, and the edge between them. */
  lemma EmitHeadSets(d: Dot, row: GroupedRow)
    ensures var h := EmitHead(d, row);
      && h.nosCriados == d.nosCriados + StartNodeIds(row) + {ActId(row), ProcId(row)}
      && h.arestasCriadas == d.arestasCriadas + StartEdges(row) + {Edge(ActId(row), ProcId(row))}
      && d.nodes <= h.nodes && d.edges <= h.edges
  {
    StartFlagIsStart(row.inicio);
    var d0 := EmitNode(d, StartId(row), StartLabel, StartNode);
    EmitNodeSets(d, StartId(row), StartLabel, StartNode);
    EmitEdgeSets(d0, StartId(row), ActId(row));
    var ds := EmitStart(d, row);
    var d1 := EmitNode(ds, ActId(row), row.origem, ActivityNode);
    EmitNodeSets(ds, ActId(row), row.origem, ActivityNode);
    var d2 := EmitNode(d1, ProcId(row), row.procedimento, ProcedureNode);
    EmitNodeSets(d1, ProcId(row), row.procedimento, ProcedureNode);
    EmitEdgeSets(d2, ActId(row), ProcId(row));
  }

  /**
   * One row adds exactly `RowNodeIds(row)` to `nos_criados` and `RowEdges(row)` to
   * `arestas_criadas`, and only appends to what was emitted.
   */
  lemma EmitRowSets(d: Dot, row: GroupedRow)
    ensures var r := EmitRow(d, row);
      && r.nosCriados == d.nosCriados + RowNodeIds(row)
      && r.arestasCriadas == d.arestasCriadas + RowEdges(row)
      && d.nodes <= r.nodes && d.edges <= r.edges
  {
    var h := EmitHead(d, row);
    EmitHeadSets(d, row);
    if row.destinos != [] {
      EmitDestsSets(h, ProcId(row), row.destinos, 0);
    } else {
      var h1 := EmitNode(h, FimId(row), EndLabel, EndNode);
      EmitNodeSets(h, FimId(row), EndLabel, EndNode);
      EmitEdgeSets(h1, ProcId(row), FimId(row));
    }
    var r := EmitRow(d, row);
    assert r.nosCriados == h.nosCriados + TailNodeIds(row);
    assert r.arestasCriadas == h.arestasCriadas + TailEdges(row);
  }

  lemma {:induction false} DestEdgesJoin(procId: string, destinos: seq<string>, i: nat)
    requires i <= |destinos|
    ensures forall e :: e in DestEdges(procId, destinos, i) ==> e.from == procId && e.to in DestIds(destinos, i)
    decreases |destinos| - i
  {
    if i < |destinos| {
      DestEdgesJoin(procId, destinos, i + 1);
    }
  }

  /** Every edge a row asks for joins two of the node ids it asks for. */
  lemma RowEdgesJoin(row: GroupedRow)
    ensures forall e :: e in RowEdges(row) ==> e.from in RowNodeIds(row) && e.to in RowNodeIds(row)
  {
    if row.destinos != [] {
      DestEdgesJoin(ProcId(row), row.destinos, 0);
    }
  }

  /** After each row every emitted edge joins two emitted nodes. */
  lemma EmitRowClosed(d: Dot, row: GroupedRow)
    requires Closed(d)
    ensures Closed(EmitRow(d, row))
  {
    EmitRowSets(d, row);
    RowEdgesJoin(row);
  }

  /** All node ids the rows ask for, and all edges. */
  function AllNodeIds(rows: seq<GroupedRow>): set<string>
    decreases |rows|
  {
    if rows == [] then {} else AllNodeIds(rows[..|rows| - 1]) + RowNodeIds(rows[|rows| - 1])
  }

  function AllEdges(rows: seq<GroupedRow>): set<Edge>
    decreases |rows|
  {
    if rows == [] then {} else AllEdges(rows[..|rows| - 1]) + RowEdges(rows[|rows| - 1])
  }

  /**
   * After the loop: no node id and no edge was emitted twice, the emitted ids are exactly
   * the ids the rows ask for, the emitted edges exactly the edges they ask for, and
   * every edge joins two emitted nodes.
   */
  lemma {:induction false} RunDotSpec(rows: seq<GroupedRow>)
    ensures var d := RunDot(rows);
      && DotValid(d) && Closed(d)
      && d.nosCriados == AllNodeIds(rows)
      && d.arestasCriadas == AllEdges(rows)
    decreases |rows|
  {
    if rows != [] {
      var front := rows[..|rows| - 1];
      RunDotSpec(front);
      EmitRowValid(RunDot(front), rows[|rows| - 1]);
      EmitRowSets(RunDot(front), rows[|rows| - 1]);
      EmitRowClosed(RunDot(front), rows[|rows| - 1]);
    }
  }

  /** Rows already read are never re-emitted: the output of a prefix of the rows is a prefix of the output. */
  lemma {:induction false} RunDotPrefix(rows: seq<GroupedRow>, k: nat)
    requires k <= |rows|
    ensures RunDot(rows[..k]).nodes <= RunDot(rows).nodes
    ensures RunDot(rows[..k]).edges <= RunDot(rows).edges
    decreases |rows|
  {
    if k == |rows| {
      assert rows[..k] == rows;
    } else {
      var front := rows[..|rows| - 1];
      assert front[..k] == rows[..k];
      RunDotPrefix(front, k);
      EmitRowSets(RunDot(front), rows[|rows| - 1]);
    }
  }

  // ---------------------------------------------------------------------------
  // Node ids carry their kind

  /** The tag an id of each kind starts with. */
  function KindTag(kind: DotKind): string {
    match kind
    case StartNode => "inicio_"
    case ActivityNode => "act_"
    case ProcedureNode => "proc_"
    case EndNode => "fim_"
  }

  ghost predicate Tagged(n: DotNode) {
    KindTag(n.kind) <= n.id
  }

  ghost predicate AllTagged(d: Dot) {
    forall i :: 0 <= i < |d.nodes| ==> Tagged(d.nodes[i])
  }

  /** Tags of different kinds differ in their first character, so tagged ids of different kinds differ. */
  lemma TagsSeparateKinds(n: DotNode, m: DotNode)
    requires Tagged(n) && Tagged(m) && n.kind != m.kind
    ensures n.id != m.id
  {
    assert n.id[0] == KindTag(n.kind)[0] && m.id[0] == KindTag(m.kind)[0];
  }

  lemma EmitNodeTagged(d: Dot, id: string, caption: string, kind: DotKind)
    requires AllTagged(d) && KindTag(kind) <= id
    ensures AllTagged(EmitNode(d, id, caption, kind))
  {
    var r := EmitNode(d, id, caption, kind);
    if id !in d.nosCriados {
      assert r.nodes[|d.nodes|] == DotNode(id, caption, kind);
    }
  }

  lemma {:induction false} EmitDestsTagged(d: Dot, procId: string, destinos: seq<string>, i: nat)
    requires AllTagged(d) && i <= |destinos|
    ensures AllTagged(EmitDests(d, procId, destinos, i))
    decreases |destinos| - i
  {
    if i < |destinos| {
      var id := DestId(destinos[i]);
      DestIdTag(destinos[i]);
      EmitNodeTagged(d, id, destinos[i], ActivityNode);
      var d1 := EmitNode(d, id, destinos[i], ActivityNode);
      EmitDestsTagged(EmitEdge(d1, procId, id), procId, destinos, i + 1);
    }
  }

  /** Every node a row emits has an id tagged with its own kind. */
  lemma EmitRowTagged(d: Dot, row: GroupedRow)
    requires AllTagged(d)
    ensures AllTagged(EmitRow(d, row))
  {
    IdPrefixes(row);
    EmitNodeTagged(d, StartId(row), StartLabel, StartNode);
    var ds := EmitStart(d, row);
    EmitNodeTagged(ds, ActId(row), row.origem, ActivityNode);
    var d1 := EmitNode(ds, ActId(row), row.origem, ActivityNode);
    EmitNodeTagged(d1, ProcId(row), row.procedimento, ProcedureNode);
    var d4 := EmitHead(d, row);
    if row.destinos != [] {
      EmitDestsTagged(d4, ProcId(row), row.destinos, 0);
    } else {
      EmitNodeTagged(d4, FimId(row), EndLabel, EndNode);
    }
  }

  /**
   * Every emitted node's id is tagged with its kind, so the one guard set never lets a
   * node of one kind stand in for a node of another: two emitted nodes of different
   * kinds have different ids.
   */
  lemma {:induction false} RunDotTagged(rows: seq<GroupedRow>)
    ensures AllTagged(RunDot(rows))
    ensures forall i, j :: 0 <= i < |RunDot(rows).nodes| && 0 <= j < |RunDot(rows).nodes|
                 && RunDot(rows).nodes[i].kind != RunDot(rows).nodes[j].kind
                 ==> RunDot(rows).nodes[i].id != RunDot(rows).nodes[j].id
    decreases |rows|
  {
    if rows != [] {
      RunDotTagged(rows[..|rows| - 1]);
      EmitRowTagged(RunDot(rows[..|rows| - 1]), rows[|rows| - 1]);
    }
    var ns := RunDot(rows).nodes;
    forall i, j | 0 <= i < |ns| && 0 <= j < |ns| && ns[i].kind != ns[j].kind ensures ns[i].id != ns[j].id {
      TagsSeparateKinds(ns[i], ns[j]);
    }
  }

  // ---------------------------------------------------------------------------
  // The loop

  /** The emitted graph: the process name, the nodes and the edges in call order. */
  datatype DotGraph = DotGraph(name: string, nodes: seq<DotNode>, edges: seq<Edge>)

  /**
   * What the emitted graph promises: no node id and no edge appears twice, and every
   * edge joins two emitted nodes.
   */
  ghost predicate SoundGraph(g: DotGraph) {
    && (forall i, j :: 0 <= i < j < |g.nodes| ==> g.nodes[i].id != g.nodes[j].id)
    && (forall i, j :: 0 <= i < j < |g.edges| ==> g.edges[i] != g.edges[j])
    && (forall k :: 0 <= k < |g.edges| ==> g.edges[k].from in NodeIds(g.nodes) && g.edges[k].to in NodeIds(g.nodes))
  }

  lemma RunDotSound(nomeProcesso: string, rows: seq<GroupedRow>)
    ensures SoundGraph(DotGraph(nomeProcesso, RunDot(rows).nodes, RunDot(rows).edges))
  {
    var d := RunDot(rows);
    RunDotSpec(rows);
    forall k | 0 <= k < |d.edges|
      ensures d.edges[k].from in NodeIds(d.nodes) && d.edges[k].to in NodeIds(d.nodes)
    {
      assert d.edges[k] in d.arestasCriadas;
      EnumeratedIn(NodeIds(d.nodes), d.nosCriados, d.edges[k].from);
      EnumeratedIn(NodeIds(d.nodes), d.nosCriados, d.edges[k].to);
    }
  }

  lemma EnumeratedIn<T>(xs: seq<T>, s: set<T>, x: T)
    requires Enumerates(xs, s) && x in s
    ensures x in xs
  {
    var i :| 0 <= i < |xs| && xs[i] == x;
  }

  /** The loop over a row's destinations. */
  method EmitDestinos(d: Dot, procId: string, destinos: seq<string>) returns (t: Dot)
    ensures t == EmitDests(d, procId, destinos, 0)
  {
    t := d;
    var i := 0;
    while i < |destinos|
      invariant 0 <= i <= |destinos|
      invariant EmitDests(t, procId, destinos, i) == EmitDests(d, procId, destinos, 0)
    {
      ghost var before := t;
      var destinoText := destinos[i];
      var destinoId := SafeId(destinoText, ActPrefix);
      if destinoId !in t.nosCriados {
        t := t.(nodes := t.nodes + [DotNode(destinoId, destinoText, ActivityNode)], nosCriados := t.nosCriados + {destinoId});
      }
      if Edge(procId, destinoId) !in t.arestasCriadas {
        t := t.(edges := t.edges + [Edge(procId, destinoId)], arestasCriadas := t.arestasCriadas + {Edge(procId, destinoId)});
      }
      assert t == EmitEdge(EmitNode(before, destinoId, destinoText, ActivityNode), procId, destinoId);
      i := i + 1;
    }
  }

  /** The body of the row loop. */
  method EmitRowStep(d: Dot, row: GroupedRow) returns (t: Dot)
    ensures t == EmitRow(d, row)
  {
    t := d;
    var rawAtividade := row.origem;
    var rawProcedimento := row.procedimento;
    var inicioFlag := StartFlag(row.inicio);
    var atividadeId := SafeId(rawAtividade, ActPrefix);
    var procId := SafeId(rawAtividade + "__" + rawProcedimento, ProcPrefix);

    if inicioFlag == "SIM" {
      var inicioNode := "inicio_" + atividadeId;
      t := EmitNode(t, inicioNode, StartLabel, StartNode);
      t := EmitEdge(t, inicioNode, atividadeId);
    }
    assert t == EmitStart(d, row);
    t := EmitNode(t, atividadeId, rawAtividade, ActivityNode);
    t := EmitNode(t, procId, rawProcedimento, ProcedureNode);
    t := EmitEdge(t, atividadeId, procId);
    assert t == EmitHead(d, row);

    if row.destinos != [] {
      t := EmitDestinos(t, procId, row.destinos);
    } else {
      var fimNode := "fim_" + atividadeId;
      t := EmitNode(t, fimNode, EndLabel, EndNode);
      t := EmitEdge(t, procId, fimNode);
    }
  }

  /**
   * `gerar_fluxograma` up to rendering: the column check, then the row loop. The result
   * is what the rows define (`RunDot`): each node and each edge emitted once, and only
   * edges between emitted nodes.
   */
  method GerarFluxograma(columns: seq<string>, nomeProcesso: string, rows: seq<GroupedRow>)
    returns (r: Result<DotGraph, MissingColumn>)
    ensures r.Failure? <==> exists c :: c in RequiredColumns && c !in columns
    ensures r.Failure? ==> IsFirstMissing(columns, r.error.column)
    ensures r.Success? ==> r.value == DotGraph(nomeProcesso, RunDot(rows).nodes, RunDot(rows).edges)
    ensures r.Success? ==> SoundGraph(r.value)
  {
    CheckColumnsSpec(columns);
    var check := CheckColumns(columns);
    if check.Failure? {
      return Failure(check.error);
    }
    var d := Empty;
    var idx := 0;
    while idx < |rows|
      invariant 0 <= idx <= |rows|
      invariant d == RunDot(rows[..idx])
    {
      assert rows[..idx + 1][..idx] == rows[..idx];
      d := EmitRowStep(d, rows[idx]);
      idx := idx + 1;
    }
    assert rows[..|rows|] == rows;
    RunDotSound(nomeProcesso, rows);
    r := Success(DotGraph(nomeProcesso, d.nodes, d.edges));
  }
}
