/**
 * The Drawflow graph builder (`processar_para_drawflow`): one pass over the grouped
 * rows that fills a dictionary of nodes keyed by "inicio", "ativ_<name>",
 * "proc_<activity>_<procedure>" and "fim_<idx>", a list of connections, a node-id
 * counter and a flag saying whether the start node exists.
 *
 * The dictionary's keys are modelled by the datatype `Key`; `KeyText` gives the
 * string the source builds, and `KeyTextInjective` shows that two keys are the same
 * string exactly when they are the same `Key`, so the model merges exactly the nodes
 * the source merges.
 *
 * `StepRow` and `Run` say what one row and the whole pass do to that state; the
 * method `BuildDrawflow` is the loop itself, proved to compute `Run`; the lemmas
 * state what the source promises of the result.
 */
module Drawflow {
  import opened Wrappers
  import opened Table
  import Text

  datatype Kind = Start | Activity | Procedure | End

  /** A node as it is serialised: id, display name, type and position. */
  datatype Node = Node(id: int, name: string, kind: Kind, posX: int, posY: int)

  datatype Connection = Connection(from: int, to: int)

  /** The builder's answer: the process name, the nodes in creation order, and the connections. */
  datatype Graph = Graph(nomeProcesso: string, nodes: seq<Node>, connections: seq<Connection>)

  /**
   * The builder's local state. `nodes` is the dictionary and `order` its keys in
   * insertion order (the order `nodes.values()` lists them in).
   */
  datatype State = State(nodes: map<Key, Node>, order: seq<Key>, connections: seq<Connection>,
                         nodeId: int, inicioCriado: bool)

  const PosX := 50
  const PosY := 50
  const YSpacing := 120
  const XSpacing := 250
  /** The vertical offset between the destinations of one row. */
  const DestSpacing := 80

  const StartName := "In\U{ED}cio"
  const EndName := "Fim"

  /** A dictionary key; `Proc` holds "<activity>_<procedure>". */
  datatype Key = Inicio | Ativ(name: string) | Proc(text: string) | Fim(idx: nat)

  /** The key string the source builds. */
  function KeyText(k: Key): string {
    match k
    case Inicio => "inicio"
    case Ativ(name) => "ativ_" + name
    case Proc(text) => "proc_" + text
    case Fim(idx) => "fim_" + Text.NatStr(idx)
  }

  /** Two keys spell the same string only when they are the same key. */
  lemma KeyTextInjective(a: Key, b: Key)
    requires KeyText(a) == KeyText(b)
    ensures a == b
  {
    var s := KeyText(a);
    assert s[0] == KeyText(b)[0];
    match a
    case Inicio =>
      assert |s| == 6 && b.Inicio?;
    case Ativ(n) =>
      assert b.Ativ? && s[5..] == n == b.name;
    case Proc(p) =>
      assert b.Proc? && s[5..] == p == b.text;
    case Fim(i) =>
      assert b.Fim? && s[4..] == Text.NatStr(i) == Text.NatStr(b.idx);
      Text.NatStrInjective(i, b.idx);
  }

  function ProcKey(atividade: string, procedimento: string): Key {
    Proc(atividade + "_" + procedimento)
  }

  const Init := State(map[], [], [], 1, false)

  /** The y coordinate of the nodes a row creates. */
  function RowY(idx: nat): int {
    PosY + idx * YSpacing
  }

  /** A row's destination list is followed only when it is non-empty and its first entry is non-empty. */
  predicate HasDestinos(destinos: seq<string>) {
    |destinos| > 0 && destinos[0] != ""
  }

  /** Stores a new node under `key`, with the next id. */
  function AddNode(s: State, key: Key, name: string, kind: Kind, x: int, y: int): State {
    s.(nodes := s.nodes[key := Node(s.nodeId, name, kind, x, y)], order := s.order + [key], nodeId := s.nodeId + 1)
  }

  function Connect(s: State, from: int, to: int): State {
    s.(connections := s.connections + [Connection(from, to)])
  }

  /** The start node, created by the first row whose flag reads "SIM". */
  function StartStep(s: State, inicio: string, y: int): State {
    if inicio == "SIM" && !s.inicioCriado then
      AddNode(s, Inicio, StartName, Start, PosX, y).(inicioCriado := true)
    else s
  }

  /**
   * The source activity's node, created if its key is new; a new activity of a "SIM"
   * row is linked from the start node when that node exists.
   */
  function ActivityStep(s: State, atividade: string, inicio: string, y: int): (r: State)
    ensures Ativ(atividade) in r.nodes
    ensures forall k :: k in s.nodes ==> k in r.nodes && r.nodes[k] == s.nodes[k]
  {
    var key := Ativ(atividade);
    if key in s.nodes then s
    else
      var s1 := AddNode(s, key, atividade, Activity, PosX + XSpacing, y);
      if inicio == "SIM" && Inicio in s1.nodes then Connect(s1, s1.nodes[Inicio].id, s.nodeId) else s1
  }

  function ProcStep(s: State, key: Key, procedimento: string, y: int): (r: State)
    ensures key in r.nodes
    ensures forall k :: k in s.nodes ==> k in r.nodes && r.nodes[k] == s.nodes[k]
  {
    if key in s.nodes then s else AddNode(s, key, procedimento, Procedure, PosX + 2 * XSpacing, y)
  }

  /** The i-th destination: its activity node, created if new, and the link from the procedure to it. */
  function DestOne(s: State, procKey: Key, destino: string, i: nat, y: int): (r: State)
    requires procKey in s.nodes
    ensures procKey in r.nodes && Ativ(destino) in r.nodes
  {
    var key := Ativ(destino);
    var s1 := if key in s.nodes then s else AddNode(s, key, destino, Activity, PosX + 3 * XSpacing, y + i * DestSpacing);
    Connect(s1, s1.nodes[procKey].id, s1.nodes[key].id)
  }

  /** The destinations of a row from the i-th on, in list order. */
  function Dests(s: State, procKey: Key, destinos: seq<string>, i: nat, y: int): (r: State)
    requires i <= |destinos| && procKey in s.nodes
    ensures procKey in r.nodes && r.inicioCriado == s.inicioCriado
    ensures forall k :: k in s.nodes ==> k in r.nodes && r.nodes[k] == s.nodes[k]
    decreases |destinos| - i
  {
    if i == |destinos| then s else Dests(DestOne(s, procKey, destinos[i], i, y), procKey, destinos, i + 1, y)
  }

  /** The row's end node "fim_<idx>", created if new, and the link from the procedure to it. */
  function FimStep(s: State, procKey: Key, idx: nat, y: int): State
    requires procKey in s.nodes
  {
    var key := Fim(idx);
    var s1 := if key in s.nodes then s else AddNode(s, key, EndName, End, PosX + 3 * XSpacing, y);
    Connect(s1, s1.nodes[procKey].id, s1.nodes[key].id)
  }

  /** The source activity and the procedure of a row, as the loop reads them. */
  function Atividade(row: GroupedRow): string {
    Text.Strip(row.origem)
  }

  function Procedimento(row: GroupedRow): string {
    Text.Strip(row.procedimento)
  }

  function RowProcKey(row: GroupedRow): Key {
    ProcKey(Atividade(row), Procedimento(row))
  }

  /**
   * The part of the loop body before the destinations: start node, activity node,
   * procedure node and the activity-to-procedure connection.
   */
  function RowHead(s: State, idx: nat, row: GroupedRow): (r: State)
    ensures Ativ(Atividade(row)) in r.nodes && RowProcKey(row) in r.nodes
  {
    var inicio := StartFlag(row.inicio);
    var y := RowY(idx);
    var s2 := ActivityStep(StartStep(s, inicio, y), Atividade(row), inicio, y);
    var s3 := ProcStep(s2, RowProcKey(row), Procedimento(row), y);
    Connect(s3, s3.nodes[Ativ(Atividade(row))].id, s3.nodes[RowProcKey(row)].id)
  }

  /** What the loop body does with row number `idx`. */
  function StepRow(s: State, idx: nat, row: GroupedRow): State {
    var s4 := RowHead(s, idx, row);
    if HasDestinos(row.destinos) then Dests(s4, RowProcKey(row), row.destinos, 0, RowY(idx))
    else FimStep(s4, RowProcKey(row), idx, RowY(idx))
  }

  /** The state after the loop has run over `rows`. */
  function Run(rows: seq<GroupedRow>): State
    decreases |rows|
  {
    if rows == [] then Init else StepRow(Run(rows[..|rows| - 1]), |rows| - 1, rows[|rows| - 1])
  }

  /** `order` lists exactly the dictionary's keys. */
  ghost predicate OrderIsKeys(s: State) {
    forall k :: k in s.nodes <==> k in s.order
  }

  /** The returned value: `list(nodes.values())` in insertion order, and the connections. */
  function Output(s: State, nomeProcesso: string): (g: Graph)
    requires OrderIsKeys(s)
    ensures |g.nodes| == |s.order| && g.connections == s.connections
    ensures forall i :: 0 <= i < |s.order| ==> g.nodes[i] == s.nodes[s.order[i]]
  {
    Graph(nomeProcesso, seq(|s.order|, i requires 0 <= i < |s.order| => s.nodes[s.order[i]]), s.connections)
  }

  // ---------------------------------------------------------------------------
  // The invariant the loop keeps

  /** What a key tells about its node: its kind, and the position its kind is placed at. */
  ghost predicate WellKeyed(k: Key, v: Node) {
    && v.posY >= PosY
    && match v.kind
       case Start => k == Inicio && v.name == StartName && v.posX == PosX
       case Activity => k == Ativ(v.name) && (v.posX == PosX + XSpacing || v.posX == PosX + 3 * XSpacing)
       case Procedure => k.Proc? && v.posX == PosX + 2 * XSpacing
       case End => k.Fim? && v.name == EndName && v.posX == PosX + 3 * XSpacing
  }

  /**
   * The state after `n` rows: the keys are inserted once each, the i-th inserted node has
   * id i + 1 and the counter is the next id, every connection joins two existing ids, the
   * flag says whether "inicio" is a key, keys agree with their nodes, and no end node of
   * a row not yet read exists.
   */
  ghost predicate Valid(s: State, n: nat) {
    && OrderIsKeys(s)
    && (forall i, j :: 0 <= i < j < |s.order| ==> s.order[i] != s.order[j])
    && (forall i :: 0 <= i < |s.order| ==> s.nodes[s.order[i]].id == i + 1)
    && s.nodeId == |s.order| + 1
    && (forall c :: c in s.connections ==> 1 <= c.from <= |s.order| && 1 <= c.to <= |s.order|)
    && (s.inicioCriado <==> Inicio in s.nodes)
    && (forall k :: k in s.nodes ==> WellKeyed(k, s.nodes[k]))
    && (forall j: nat :: n <= j ==> Fim(j) !in s.nodes)
  }

  /** The id of an existing node is between 1 and the number of nodes. */
  lemma IdInRange(s: State, n: nat, k: Key)
    requires Valid(s, n) && k in s.nodes
    ensures 1 <= s.nodes[k].id <= |s.order|
  {
    var i :| 0 <= i < |s.order| && s.order[i] == k;
  }

  lemma AddNodeValid(s: State, n: nat, key: Key, name: string, kind: Kind, x: int, y: int)
    requires Valid(s, n) && key !in s.nodes
    requires WellKeyed(key, Node(s.nodeId, name, kind, x, y))
    requires forall j: nat :: n <= j ==> Fim(j) != key
    ensures var t := AddNode(s, key, name, kind, x, y);
      Valid(t.(inicioCriado := s.inicioCriado || key == Inicio), n)
  {
    var t := AddNode(s, key, name, kind, x, y);
    forall i | 0 <= i < |t.order| ensures t.nodes[t.order[i]].id == i + 1 {
      if i < |s.order| {
        assert s.order[i] in s.nodes;
      }
    }
  }

  lemma ConnectValid(s: State, n: nat, from: int, to: int)
    requires Valid(s, n)
    requires 1 <= from <= |s.order| && 1 <= to <= |s.order|
    ensures Valid(Connect(s, from, to), n)
  {
  }

  lemma StartStepValid(s: State, n: nat, inicio: string, y: int)
    requires Valid(s, n) && y >= PosY
    ensures Valid(StartStep(s, inicio, y), n)
  {
    if inicio == "SIM" && !s.inicioCriado {
      AddNodeValid(s, n, Inicio, StartName, Start, PosX, y);
    }
  }

  lemma ActivityStepValid(s: State, n: nat, atividade: string, inicio: string, y: int)
    requires Valid(s, n) && y >= PosY
    ensures Valid(ActivityStep(s, atividade, inicio, y), n)
  {
    var key := Ativ(atividade);
    if key !in s.nodes {
      AddNodeValid(s, n, key, atividade, Activity, PosX + XSpacing, y);
      var s1 := AddNode(s, key, atividade, Activity, PosX + XSpacing, y);
      if inicio == "SIM" && Inicio in s1.nodes {
        IdInRange(s1, n, Inicio);
        ConnectValid(s1, n, s1.nodes[Inicio].id, s.nodeId);
      }
    }
  }

  lemma ProcStepValid(s: State, n: nat, key: Key, procedimento: string, y: int)
    requires Valid(s, n) && y >= PosY && key.Proc?
    ensures Valid(ProcStep(s, key, procedimento, y), n)
  {
    if key !in s.nodes {
      AddNodeValid(s, n, key, procedimento, Procedure, PosX + 2 * XSpacing, y);
    }
  }

  lemma DestOneValid(s: State, n: nat, procKey: Key, destino: string, i: nat, y: int)
    requires Valid(s, n) && y >= PosY && procKey in s.nodes
    ensures Valid(DestOne(s, procKey, destino, i, y), n)
  {
    var key := Ativ(destino);
    var s1 := if key in s.nodes then s else AddNode(s, key, destino, Activity, PosX + 3 * XSpacing, y + i * DestSpacing);
    if key !in s.nodes {
      AddNodeValid(s, n, key, destino, Activity, PosX + 3 * XSpacing, y + i * DestSpacing);
      assert s1.(inicioCriado := s.inicioCriado || key == Inicio) == s1;
    }
    assert Valid(s1, n);
    IdInRange(s1, n, procKey);
    IdInRange(s1, n, key);
    ConnectValid(s1, n, s1.nodes[procKey].id, s1.nodes[key].id);
    assert DestOne(s, procKey, destino, i, y) == Connect(s1, s1.nodes[procKey].id, s1.nodes[key].id);
  }

  lemma {:induction false} DestsValid(s: State, n: nat, procKey: Key, destinos: seq<string>, i: nat, y: int)
    requires Valid(s, n) && y >= PosY && procKey in s.nodes && i <= |destinos|
    ensures Valid(Dests(s, procKey, destinos, i, y), n)
    decreases |destinos| - i
  {
    if i < |destinos| {
      DestOneValid(s, n, procKey, destinos[i], i, y);
      DestsValid(DestOne(s, procKey, destinos[i], i, y), n, procKey, destinos, i + 1, y);
    }
  }

  lemma FimStepValid(s: State, idx: nat, procKey: Key, y: int)
    requires Valid(s, idx) && y >= PosY && procKey in s.nodes
    ensures Valid(FimStep(s, procKey, idx, y), idx + 1)
  {
    var key := Fim(idx);
    assert key !in s.nodes;
    ValidWeaken(s, idx);
    AddNodeValid(s, idx + 1, key, EndName, End, PosX + 3 * XSpacing, y);
    var s1 := AddNode(s, key, EndName, End, PosX + 3 * XSpacing, y);
    assert Valid(s1, idx + 1);
    IdInRange(s1, idx + 1, procKey);
    IdInRange(s1, idx + 1, key);
    ConnectValid(s1, idx + 1, s1.nodes[procKey].id, s1.nodes[key].id);
  }

  lemma RowHeadValid(s: State, idx: nat, row: GroupedRow)
    requires Valid(s, idx)
    ensures Valid(RowHead(s, idx, row), idx)
  {
    var inicio := StartFlag(row.inicio);
    var y := RowY(idx);
    var s1 := StartStep(s, inicio, y);
    StartStepValid(s, idx, inicio, y);
    var s2 := ActivityStep(s1, Atividade(row), inicio, y);
    ActivityStepValid(s1, idx, Atividade(row), inicio, y);
    var s3 := ProcStep(s2, RowProcKey(row), Procedimento(row), y);
    ProcStepValid(s2, idx, RowProcKey(row), Procedimento(row), y);
    IdInRange(s3, idx, Ativ(Atividade(row)));
    IdInRange(s3, idx, RowProcKey(row));
    ConnectValid(s3, idx, s3.nodes[Ativ(Atividade(row))].id, s3.nodes[RowProcKey(row)].id);
  }

  /** One row keeps the invariant, and moves it on to the next row number. */
  lemma StepRowValid(s: State, idx: nat, row: GroupedRow)
    requires Valid(s, idx)
    ensures Valid(StepRow(s, idx, row), idx + 1)
  {
    RowHeadValid(s, idx, row);
    var s4 := RowHead(s, idx, row);
    if HasDestinos(row.destinos) {
      DestsValid(s4, idx, RowProcKey(row), row.destinos, 0, RowY(idx));
      ValidWeaken(Dests(s4, RowProcKey(row), row.destinos, 0, RowY(idx)), idx);
    } else {
      FimStepValid(s4, idx, RowProcKey(row), RowY(idx));
    }
  }

  lemma ValidWeaken(s: State, n: nat)
    requires Valid(s, n) && Fim(n) !in s.nodes
    ensures Valid(s, n + 1)
  {
  }

  lemma {:induction false} RunValid(rows: seq<GroupedRow>)
    ensures Valid(Run(rows), |rows|)
    decreases |rows|
  {
    if rows != [] {
      RunValid(rows[..|rows| - 1]);
      StepRowValid(Run(rows[..|rows| - 1]), |rows| - 1, rows[|rows| - 1]);
    }
  }

  // ---------------------------------------------------------------------------
  // The returned graph

  /** Some node of `g` has this id. */
  ghost predicate HasNode(g: Graph, id: int) {
    exists i :: 0 <= i < |g.nodes| && g.nodes[i].id == id
  }

  /**
   * The graph promised to the caller: the i-th node has id i + 1 (so ids are 1..n in
   * creation order and pairwise distinct), and every connection joins two of its nodes.
   */
  ghost predicate WellFormed(g: Graph) {
    && (forall i :: 0 <= i < |g.nodes| ==> g.nodes[i].id == i + 1)
    && (forall c :: c in g.connections ==> HasNode(g, c.from) && HasNode(g, c.to))
  }

  lemma OutputWellFormed(s: State, n: nat, nomeProcesso: string)
    requires Valid(s, n)
    ensures WellFormed(Output(s, nomeProcesso))
  {
    var g := Output(s, nomeProcesso);
    forall c | c in g.connections ensures HasNode(g, c.from) && HasNode(g, c.to) {
      assert g.nodes[c.from - 1].id == c.from;
      assert g.nodes[c.to - 1].id == c.to;
    }
  }

  /** A sequence without repeated entries has as many distinct entries as it is long. */
  lemma {:induction false} DistinctCount<T>(xs: seq<T>)
    requires forall i, j :: 0 <= i < j < |xs| ==> xs[i] != xs[j]
    ensures |set x | x in xs| == |xs|
  {
    if xs != [] {
      var init := xs[..|xs| - 1];
      DistinctCount(init);
      assert (set x | x in xs) == (set x | x in init) + {xs[|xs| - 1]};
      assert xs[|xs| - 1] !in init;
    }
  }

  /**
   * The returned node list holds exactly the dictionary's values, each once: as many
   * nodes as keys, and a node is in the list exactly when some key maps to it.
   */
  lemma OutputIsValues(s: State, n: nat, nomeProcesso: string)
    requires Valid(s, n)
    ensures var g := Output(s, nomeProcesso);
      && |g.nodes| == |s.nodes|
      && (forall v :: v in g.nodes <==> v in s.nodes.Values)
  {
    var g := Output(s, nomeProcesso);
    DistinctCount(s.order);
    assert s.nodes.Keys == set x | x in s.order;
    forall v | v in s.nodes.Values ensures v in g.nodes {
      var k :| k in s.nodes && s.nodes[k] == v;
      var i :| 0 <= i < |s.order| && s.order[i] == k;
      assert g.nodes[i] == v;
    }
  }

  /** The loop over a row's destinations. */
  method ProcessDestinos(s: State, procKey: Key, destinos: seq<string>, currentY: int) returns (t: State)
    requires procKey in s.nodes
    ensures t == Dests(s, procKey, destinos, 0, currentY)
  {
    t := s;
    var i := 0;
    while i < |destinos|
      invariant 0 <= i <= |destinos| && procKey in t.nodes
      invariant Dests(t, procKey, destinos, i, currentY) == Dests(s, procKey, destinos, 0, currentY)
    {
      ghost var before := t;
      var destino := destinos[i];
      var destinoKey := Ativ(destino);
      if destinoKey !in t.nodes {
        t := AddNode(t, destinoKey, destino, Activity, PosX + 3 * XSpacing, currentY + i * DestSpacing);
      }
      t := Connect(t, t.nodes[procKey].id, t.nodes[destinoKey].id);
      assert t == DestOne(before, procKey, destino, i, currentY);
      i := i + 1;
    }
  }

  /** The body of the loop of `processar_para_drawflow`, for row number `idx`. */
  method ProcessRow(s: State, idx: nat, row: GroupedRow) returns (t: State)
    ensures t == StepRow(s, idx, row)
  {
    t := s;
    var atividade := Text.Strip(row.origem);
    var procedimento := Text.Strip(row.procedimento);
    var destinos := row.destinos;
    var inicio := StartFlag(row.inicio);
    var currentY := PosY + idx * YSpacing;

    if inicio == "SIM" && !t.inicioCriado {
      t := AddNode(t, Inicio, StartName, Start, PosX, currentY);
      t := t.(inicioCriado := true);
    }

    var atividadeKey := Ativ(atividade);
    if atividadeKey !in t.nodes {
      var newId := t.nodeId;
      t := AddNode(t, atividadeKey, atividade, Activity, PosX + XSpacing, currentY);
      if inicio == "SIM" && Inicio in t.nodes {
        t := Connect(t, t.nodes[Inicio].id, newId);
      }
    }

    var procKey := ProcKey(atividade, procedimento);
    if procKey !in t.nodes {
      t := AddNode(t, procKey, procedimento, Procedure, PosX + 2 * XSpacing, currentY);
    }

    t := Connect(t, t.nodes[atividadeKey].id, t.nodes[procKey].id);

    if HasDestinos(destinos) {
      t := ProcessDestinos(t, procKey, destinos, currentY);
    } else {
      var fimKey := Fim(idx);
      if fimKey !in t.nodes {
        t := AddNode(t, fimKey, EndName, End, PosX + 3 * XSpacing, currentY);
      }
      t := Connect(t, t.nodes[procKey].id, t.nodes[fimKey].id);
    }
  }

  /** The loop of `processar_para_drawflow`, from the grouped rows to the returned graph. */
  method BuildDrawflow(nomeProcesso: string, rows: seq<GroupedRow>) returns (g: Graph)
    ensures g == DrawflowGraph(nomeProcesso, rows)
  {
    var s := Init;
    var idx := 0;
    while idx < |rows|
      invariant 0 <= idx <= |rows|
      invariant s == Run(rows[..idx])
    {
      s := ProcessRow(s, idx, rows[idx]);
      assert rows[..idx + 1][..idx] == rows[..idx];
      idx := idx + 1;
    }
    assert rows[..|rows|] == rows;
    RunValid(rows);
    g := Output(s, nomeProcesso);
    OutputWellFormed(s, |rows|, nomeProcesso);
  }

  /** What `processar_para_drawflow` returns for the grouped rows, once the columns are known to be present. */
  function DrawflowGraph(nomeProcesso: string, rows: seq<GroupedRow>): (g: Graph)
    ensures WellFormed(g)
  {
    RunValid(rows);
    OutputWellFormed(Run(rows), |rows|, nomeProcesso);
    Output(Run(rows), nomeProcesso)
  }

  /**
   * `processar_para_drawflow` after the spreadsheet is read: the required-column
   * check, then the loop. A missing column yields the error and no graph.
   */
  method ProcessarParaDrawflow(columns: seq<string>, nomeProcesso: string, rows: seq<GroupedRow>)
    returns (r: Result<Graph, MissingColumn>)
    ensures r.Failure? <==> exists c :: c in RequiredColumns && c !in columns
    ensures r.Failure? ==> IsFirstMissing(columns, r.error.column)
    ensures r.Success? ==> r.value == DrawflowGraph(nomeProcesso, rows)
  {
    CheckColumnsSpec(columns);
    var check := CheckColumns(columns);
    if check.Failure? {
      return Failure(check.error);
    }
    var g := BuildDrawflow(nomeProcesso, rows);
    r := Success(g);
  }
}
