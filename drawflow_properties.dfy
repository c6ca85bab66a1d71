/**
 * What `processar_para_drawflow` promises of the graph it returns: where each kind of
 * node is placed, that the start node and each activity exist at most once, when the
 * start node exists and where, that rows only ever add (an existing node is never
 * re-created, re-numbered or moved, a connection never removed), and what
 * connections and end node each row adds.
 */
module DrawflowProperties {
  import opened Table
  import opened Drawflow

  // ---------------------------------------------------------------------------
  // The shape of the graph

  /**
   * Every node sits in its kind's column, the start and end nodes carry their fixed
   * names, there is at most one start node, and no two activity nodes share a name.
   */
  lemma DrawflowShape(nomeProcesso: string, rows: seq<GroupedRow>)
    ensures var g := DrawflowGraph(nomeProcesso, rows);
      forall i :: 0 <= i < |g.nodes| ==>
        && g.nodes[i].posY >= PosY
        && (g.nodes[i].kind == Start ==> g.nodes[i].name == StartName && g.nodes[i].posX == 50)
        && (g.nodes[i].kind == Activity ==> g.nodes[i].posX == 300 || g.nodes[i].posX == 800)
        && (g.nodes[i].kind == Procedure ==> g.nodes[i].posX == 550)
        && (g.nodes[i].kind == End ==> g.nodes[i].name == EndName && g.nodes[i].posX == 800)
    ensures var g := DrawflowGraph(nomeProcesso, rows);
      forall i, j :: 0 <= i < j < |g.nodes| ==> !(g.nodes[i].kind == Start && g.nodes[j].kind == Start)
    ensures var g := DrawflowGraph(nomeProcesso, rows);
      forall i, j :: 0 <= i < j < |g.nodes| && g.nodes[i].kind == Activity && g.nodes[j].kind == Activity ==>
        g.nodes[i].name != g.nodes[j].name
  {
    var s := Run(rows);
    var g := DrawflowGraph(nomeProcesso, rows);
    RunShape(rows);
    forall i, j | 0 <= i < j < |g.nodes|
      ensures !(g.nodes[i].kind == Start && g.nodes[j].kind == Start)
      ensures g.nodes[i].kind == Activity && g.nodes[j].kind == Activity ==> g.nodes[i].name != g.nodes[j].name
    {
      assert WellKeyed(s.order[i], g.nodes[i]) && WellKeyed(s.order[j], g.nodes[j]);
    }
  }

  /** The facts of `Valid` the graph-level lemmas need, after any number of rows. */
  lemma RunShape(rows: seq<GroupedRow>)
    ensures var s := Run(rows);
      && OrderIsKeys(s)
      && (forall i, j :: 0 <= i < j < |s.order| ==> s.order[i] != s.order[j])
      && (forall i :: 0 <= i < |s.order| ==> WellKeyed(s.order[i], s.nodes[s.order[i]]))
      && (s.inicioCriado <==> Inicio in s.nodes)
      && (Inicio in s.nodes ==> s.nodes[Inicio].kind == Start)
  {
    var s := Run(rows);
    RunValid(rows);
    if Inicio in s.nodes {
      assert WellKeyed(Inicio, s.nodes[Inicio]);
    }
    forall i | 0 <= i < |s.order| ensures WellKeyed(s.order[i], s.nodes[s.order[i]]) {
      assert s.order[i] in s.nodes;
    }
  }

  // ---------------------------------------------------------------------------
  // Rows only add

  /** `t` holds every node of `s` unchanged, and extends its key order and its connections. */
  ghost predicate Extends(s: State, t: State) {
    && (forall k :: k in s.nodes ==> k in t.nodes && t.nodes[k] == s.nodes[k])
    && s.order <= t.order
    && s.connections <= t.connections
  }

  lemma {:induction false} DestsExtends(s: State, procKey: Key, destinos: seq<string>, i: nat, y: int)
    requires i <= |destinos| && procKey in s.nodes
    ensures Extends(s, Dests(s, procKey, destinos, i, y))
    decreases |destinos| - i
  {
    if i < |destinos| {
      DestsExtends(DestOne(s, procKey, destinos[i], i, y), procKey, destinos, i + 1, y);
    }
  }

  /** The start step; `s`'s flag must say whether the start node exists, as it always does. */
  lemma StartStepExtends(s: State, inicio: string, y: int)
    requires s.inicioCriado <==> Inicio in s.nodes
    ensures var t := StartStep(s, inicio, y);
      && Extends(s, t)
      && (t.inicioCriado <==> Inicio in t.nodes)
      && t.inicioCriado == (s.inicioCriado || inicio == "SIM")
      && (!s.inicioCriado && inicio == "SIM" ==> t.nodes[Inicio].posY == y)
  {
  }

  lemma ActivityStepExtends(s: State, atividade: string, inicio: string, y: int)
    ensures var t := ActivityStep(s, atividade, inicio, y);
      Extends(s, t) && t.inicioCriado == s.inicioCriado
  {
  }

  lemma ProcStepExtends(s: State, key: Key, procedimento: string, y: int)
    ensures var t := ProcStep(s, key, procedimento, y);
      Extends(s, t) && t.inicioCriado == s.inicioCriado
  {
  }

  lemma FimStepExtends(s: State, procKey: Key, idx: nat, y: int)
    requires procKey in s.nodes
    ensures var t := FimStep(s, procKey, idx, y);
      Extends(s, t) && t.inicioCriado == s.inicioCriado
  {
  }

  /**
   * One row changes no existing node and only appends keys and connections; the start
   * node exists afterwards exactly when it existed before or the row's flag reads "SIM",
   * and a start node the row creates is placed at the row's height.
   */
  lemma StepRowExtends(s: State, idx: nat, row: GroupedRow)
    requires s.inicioCriado <==> Inicio in s.nodes
    ensures Extends(s, StepRow(s, idx, row))
    ensures StepRow(s, idx, row).inicioCriado == (s.inicioCriado || IsStart(row.inicio))
    ensures !s.inicioCriado && IsStart(row.inicio) ==>
      Inicio in StepRow(s, idx, row).nodes && StepRow(s, idx, row).nodes[Inicio].posY == RowY(idx)
  {
    var inicio := StartFlag(row.inicio);
    StartFlagIsStart(row.inicio);
    var y := RowY(idx);
    var s1 := StartStep(s, inicio, y);
    StartStepExtends(s, inicio, y);
    var s2 := ActivityStep(s1, Atividade(row), inicio, y);
    ActivityStepExtends(s1, Atividade(row), inicio, y);
    var s3 := ProcStep(s2, RowProcKey(row), Procedimento(row), y);
    ProcStepExtends(s2, RowProcKey(row), Procedimento(row), y);
    ExtendsTransitive(s, s1, s2);
    ExtendsTransitive(s, s2, s3);
    var s4 := RowHead(s, idx, row);
    assert s4 == Connect(s3, s3.nodes[Ativ(Atividade(row))].id, s3.nodes[RowProcKey(row)].id);
    ExtendsTransitive(s, s3, s4);
    var t := StepRow(s, idx, row);
    if HasDestinos(row.destinos) {
      DestsExtends(s4, RowProcKey(row), row.destinos, 0, RowY(idx));
    } else {
      FimStepExtends(s4, RowProcKey(row), idx, RowY(idx));
    }
    ExtendsTransitive(s, s4, t);
  }

  lemma ExtendsTransitive(a: State, b: State, c: State)
    requires Extends(a, b) && Extends(b, c)
    ensures Extends(a, c)
  {
  }

  /** The state after the first `k` rows is extended by the state after all of them. */
  lemma {:induction false} RunExtends(rows: seq<GroupedRow>, k: nat)
    requires k <= |rows|
    ensures Extends(Run(rows[..k]), Run(rows))
    decreases |rows|
  {
    if k == |rows| {
      assert rows[..k] == rows;
    } else {
      var front := rows[..|rows| - 1];
      assert front[..k] == rows[..k];
      RunExtends(front, k);
      RunFlag(front);
      StepRowExtends(Run(front), |rows| - 1, rows[|rows| - 1]);
      ExtendsTransitive(Run(rows[..k]), Run(front), Run(rows));
    }
  }

  /**
   * Reading more rows never re-creates, re-numbers or moves a node, and never drops or
   * reorders a connection: the graph of the first `k` rows is a prefix of the full one.
   */
  lemma DrawflowPrefix(nomeProcesso: string, rows: seq<GroupedRow>, k: nat)
    requires k <= |rows|
    ensures DrawflowGraph(nomeProcesso, rows[..k]).nodes <= DrawflowGraph(nomeProcesso, rows).nodes
    ensures DrawflowGraph(nomeProcesso, rows[..k]).connections <= DrawflowGraph(nomeProcesso, rows).connections
  {
    var a, b := Run(rows[..k]), Run(rows);
    RunExtends(rows, k);
    RunValid(rows[..k]);
    var ga, gb := DrawflowGraph(nomeProcesso, rows[..k]), DrawflowGraph(nomeProcesso, rows);
    forall i | 0 <= i < |ga.nodes| ensures ga.nodes[i] == gb.nodes[i] {
      assert a.order[i] in a.nodes;
      assert b.order[i] == a.order[i];
    }
  }

  // ---------------------------------------------------------------------------
  // The start node

  /** Row `r` is the first whose flag reads "SIM". */
  ghost predicate FirstStart(rows: seq<GroupedRow>, r: int) {
    && 0 <= r < |rows|
    && IsStart(rows[r].inicio)
    && forall j :: 0 <= j < r ==> !IsStart(rows[j].inicio)
  }

  /** Some row's flag reads "SIM", in the recursion order of `Run`. */
  ghost predicate AnyStart(rows: seq<GroupedRow>)
    decreases |rows|
  {
    rows != [] && (AnyStart(rows[..|rows| - 1]) || IsStart(rows[|rows| - 1].inicio))
  }

  lemma {:induction false} AnyStartIff(rows: seq<GroupedRow>)
    ensures AnyStart(rows) <==> exists r :: 0 <= r < |rows| && IsStart(rows[r].inicio)
    decreases |rows|
  {
    if rows != [] {
      var front := rows[..|rows| - 1];
      AnyStartIff(front);
      if AnyStart(rows) {
        if AnyStart(front) {
          var r :| 0 <= r < |front| && IsStart(front[r].inicio);
          assert rows[r] == front[r];
        } else {
          assert IsStart(rows[|rows| - 1].inicio);
        }
      } else {
        forall r | 0 <= r < |rows| ensures !IsStart(rows[r].inicio) {
          if r < |front| {
            assert rows[r] == front[r];
          }
        }
      }
    }
  }

  lemma {:induction false} RunStartFlag(rows: seq<GroupedRow>)
    ensures Run(rows).inicioCriado == AnyStart(rows)
    decreases |rows|
  {
    if rows != [] {
      var front := rows[..|rows| - 1];
      RunStartFlag(front);
      RunFlag(front);
      StepRowStart(Run(front), |rows| - 1, rows[|rows| - 1]);
    }
  }

  lemma RunStart(rows: seq<GroupedRow>)
    ensures Run(rows).inicioCriado <==> exists r :: 0 <= r < |rows| && IsStart(rows[r].inicio)
  {
    RunStartFlag(rows);
    AnyStartIff(rows);
  }

  /** The start node sits at the height of the first row whose flag reads "SIM". */
  lemma {:induction false} RunStartPlace(rows: seq<GroupedRow>, r: int)
    requires FirstStart(rows, r)
    ensures Inicio in Run(rows).nodes && Run(rows).nodes[Inicio].posY == RowY(r)
    decreases |rows|
  {
    var front, last := rows[..|rows| - 1], |rows| - 1;
    RunFlag(front);
    StepRowStart(Run(front), last, rows[last]);
    if r < last {
      FirstStartFront(rows, r);
      RunStartPlace(front, r);
    } else {
      NoStartBefore(rows);
    }
  }

  lemma FirstStartFront(rows: seq<GroupedRow>, r: int)
    requires FirstStart(rows, r) && r < |rows| - 1
    ensures FirstStart(rows[..|rows| - 1], r)
  {
  }

  /** When the last row is the first "SIM" row, the rows before it leave no start node. */
  lemma NoStartBefore(rows: seq<GroupedRow>)
    requires FirstStart(rows, |rows| - 1)
    ensures !Run(rows[..|rows| - 1]).inicioCriado
  {
    var front := rows[..|rows| - 1];
    RunStart(front);
    assert forall j :: 0 <= j < |front| ==> front[j] == rows[j];
  }

  /** `StepRowExtends` restricted to the start node. */
  lemma StepRowStart(s: State, idx: nat, row: GroupedRow)
    requires s.inicioCriado <==> Inicio in s.nodes
    ensures var t := StepRow(s, idx, row);
      && t.inicioCriado == (s.inicioCriado || IsStart(row.inicio))
      && (Inicio in s.nodes ==> Inicio in t.nodes && t.nodes[Inicio] == s.nodes[Inicio])
      && (!s.inicioCriado && IsStart(row.inicio) ==> Inicio in t.nodes && t.nodes[Inicio].posY == RowY(idx))
  {
    StepRowExtends(s, idx, row);
  }

  /** The flag says whether the start node exists, after any number of rows. */
  lemma RunFlag(rows: seq<GroupedRow>)
    ensures Run(rows).inicioCriado <==> Inicio in Run(rows).nodes
  {
    RunValid(rows);
  }

  /**
   * In the returned graph: a start node exists exactly when some row's flag reads "SIM",
   * and it sits at the height of the first such row.
   */
  lemma DrawflowStart(nomeProcesso: string, rows: seq<GroupedRow>)
    ensures var g := DrawflowGraph(nomeProcesso, rows);
      (exists i :: 0 <= i < |g.nodes| && g.nodes[i].kind == Start)
      <==> (exists r :: 0 <= r < |rows| && IsStart(rows[r].inicio))
    ensures var g := DrawflowGraph(nomeProcesso, rows);
      forall r :: FirstStart(rows, r) ==>
        exists i :: 0 <= i < |g.nodes| && g.nodes[i].kind == Start && g.nodes[i].posY == RowY(r)
  {
    var s := Run(rows);
    var g := DrawflowGraph(nomeProcesso, rows);
    RunStart(rows);
    StartNodeInGraph(nomeProcesso, rows);
    forall r | FirstStart(rows, r)
      ensures exists i :: 0 <= i < |g.nodes| && g.nodes[i].kind == Start && g.nodes[i].posY == RowY(r)
    {
      RunStartPlace(rows, r);
    }
  }

  /** The graph has a start node exactly when the state's dictionary holds "inicio", and it is that node. */
  lemma StartNodeInGraph(nomeProcesso: string, rows: seq<GroupedRow>)
    ensures var s, g := Run(rows), DrawflowGraph(nomeProcesso, rows);
      (exists i :: 0 <= i < |g.nodes| && g.nodes[i].kind == Start) <==> s.inicioCriado
    ensures var s, g := Run(rows), DrawflowGraph(nomeProcesso, rows);
      s.inicioCriado ==> (Inicio in s.nodes &&
        exists i :: 0 <= i < |g.nodes| && g.nodes[i] == s.nodes[Inicio] && g.nodes[i].kind == Start)
  {
    var s := Run(rows);
    var g := DrawflowGraph(nomeProcesso, rows);
    RunShape(rows);
    assert g == Output(s, nomeProcesso);
    if s.inicioCriado {
      var i :| 0 <= i < |s.order| && s.order[i] == Inicio;
      assert g.nodes[i] == s.nodes[Inicio];
    }
    if exists i :: 0 <= i < |g.nodes| && g.nodes[i].kind == Start {
      var i :| 0 <= i < |g.nodes| && g.nodes[i].kind == Start;
      assert g.nodes[i] == s.nodes[s.order[i]];
      assert WellKeyed(s.order[i], g.nodes[i]);
    }
  }

  // ---------------------------------------------------------------------------
  // What one row adds

  /** One destination appends one link, from the procedure to the destination's activity. */
  lemma DestOneLinks(s: State, procKey: Key, destino: string, i: nat, y: int)
    requires procKey in s.nodes
    ensures var r := DestOne(s, procKey, destino, i, y);
      && Extends(s, r)
      && r.connections == s.connections + [Connection(s.nodes[procKey].id, r.nodes[Ativ(destino)].id)]
      && (forall k :: k in r.nodes && k !in s.nodes ==> k == Ativ(destino))
  {
  }

  /**
   * The destinations from the i-th on append one link each, in list order, from the
   * procedure to that destination's activity node, and create only activity nodes.
   */
  lemma {:induction false} DestsLinks(s: State, procKey: Key, destinos: seq<string>, i: nat, y: int)
    requires i <= |destinos| && procKey in s.nodes
    ensures var r, n := Dests(s, procKey, destinos, i, y), |s.connections|;
      && |r.connections| == n + (|destinos| - i)
      && r.connections[..n] == s.connections
      && (forall m :: i <= m < |destinos| ==>
            && Ativ(destinos[m]) in r.nodes
            && r.connections[n + (m - i)] == Connection(s.nodes[procKey].id, r.nodes[Ativ(destinos[m])].id))
    decreases |destinos| - i
  {
    if i < |destinos| {
      var s1 := DestOne(s, procKey, destinos[i], i, y);
      var r := Dests(s1, procKey, destinos, i + 1, y);
      assert r == Dests(s, procKey, destinos, i, y);
      var n := |s.connections|;
      DestOneLinks(s, procKey, destinos[i], i, y);
      DestsLinks(s1, procKey, destinos, i + 1, y);
      PrefixAppend(s.connections, Connection(s.nodes[procKey].id, s1.nodes[Ativ(destinos[i])].id), r.connections);
    }
  }

  /** A sequence that starts with `a + [x]` starts with `a`, and holds `x` right after it. */
  lemma PrefixAppend<T>(a: seq<T>, x: T, c: seq<T>)
    requires |a| < |c| && c[..|a| + 1] == a + [x]
    ensures c[..|a|] == a && c[|a|] == x
  {
    assert c[..|a|] == c[..|a| + 1][..|a|];
  }

  /** The destinations create only activity nodes. */
  lemma {:induction false} DestsNewKeys(s: State, procKey: Key, destinos: seq<string>, i: nat, y: int)
    requires i <= |destinos| && procKey in s.nodes
    ensures var r := Dests(s, procKey, destinos, i, y);
      forall k :: k in r.nodes && k !in s.nodes ==> k.Ativ?
    decreases |destinos| - i
  {
    if i < |destinos| {
      DestOneLinks(s, procKey, destinos[i], i, y);
      DestsNewKeys(DestOne(s, procKey, destinos[i], i, y), procKey, destinos, i + 1, y);
    }
  }

  /** Whether the row's new activity is linked from the start node. */
  ghost predicate StartLinked(s: State, row: GroupedRow) {
    IsStart(row.inicio) && Ativ(Atividade(row)) !in s.nodes
  }

  /**
   * The head of a row appends the link from the start node to the row's activity when
   * that activity is new and the row's flag reads "SIM", then the link from the activity
   * to the procedure; it creates no node but the start, the activity and the procedure.
   */
  lemma RowHeadLinks(s: State, idx: nat, row: GroupedRow)
    requires s.inicioCriado <==> Inicio in s.nodes
    ensures var h, a, p := RowHead(s, idx, row), Ativ(Atividade(row)), RowProcKey(row);
      && Extends(s, h)
      && (IsStart(row.inicio) ==> Inicio in h.nodes)
      && h.connections == s.connections
           + (if StartLinked(s, row) then [Connection(h.nodes[Inicio].id, h.nodes[a].id)] else [])
           + [Connection(h.nodes[a].id, h.nodes[p].id)]
      && (forall k :: k in h.nodes && k !in s.nodes ==> k == Inicio || k == a || k == p)
  {
    var inicio := StartFlag(row.inicio);
    StartFlagIsStart(row.inicio);
    var y := RowY(idx);
    var a, p := Ativ(Atividade(row)), RowProcKey(row);
    var s1 := StartStep(s, inicio, y);
    StartStepExtends(s, inicio, y);
    var s2 := ActivityStep(s1, Atividade(row), inicio, y);
    ActivityStepExtends(s1, Atividade(row), inicio, y);
    var s3 := ProcStep(s2, p, Procedimento(row), y);
    ProcStepExtends(s2, p, Procedimento(row), y);
    var h := RowHead(s, idx, row);
    assert h == Connect(s3, s3.nodes[a].id, s3.nodes[p].id);
    ExtendsTransitive(s, s1, s2);
    ExtendsTransitive(s, s2, s3);
    assert (a in s1.nodes) == (a in s.nodes);
    if StartLinked(s, row) {
      assert s2.connections == s1.connections + [Connection(s1.nodes[Inicio].id, s2.nodes[a].id)];
    } else {
      assert s2.connections == s1.connections;
    }
  }

  /** The end node of a row without destinations: new, and linked from the procedure. */
  lemma FimStepLinks(s: State, procKey: Key, idx: nat, y: int)
    requires procKey in s.nodes && Fim(idx) !in s.nodes
    ensures var r := FimStep(s, procKey, idx, y);
      && Extends(s, r)
      && Fim(idx) in r.nodes && r.nodes[Fim(idx)] == Node(s.nodeId, EndName, End, PosX + 3 * XSpacing, y)
      && r.connections == s.connections + [Connection(s.nodes[procKey].id, s.nodeId)]
      && (forall k :: k in r.nodes && k !in s.nodes ==> k == Fim(idx))
  {
  }

  /** How many connections there are once the head of a row is done. */
  ghost function HeadLength(s: State, row: GroupedRow): nat {
    |s.connections| + (if StartLinked(s, row) then 2 else 1)
  }

  /**
   * Row `idx` first appends the link from the start node to the row's activity (only
   * when `StartLinked`), then the link from the activity to the procedure.
   */
  lemma StepRowHeadLinks(s: State, idx: nat, row: GroupedRow)
    requires (s.inicioCriado <==> Inicio in s.nodes) && Fim(idx) !in s.nodes
    ensures var t, a, p := StepRow(s, idx, row), Ativ(Atividade(row)), RowProcKey(row);
      && Extends(s, t)
      && |t.connections| > HeadLength(s, row) - 1
      && a in t.nodes && p in t.nodes
      && (StartLinked(s, row) ==>
            Inicio in t.nodes && t.connections[|s.connections|] == Connection(t.nodes[Inicio].id, t.nodes[a].id))
      && t.connections[HeadLength(s, row) - 1] == Connection(t.nodes[a].id, t.nodes[p].id)
  {
    var a, p := Ativ(Atividade(row)), RowProcKey(row);
    var h := RowHead(s, idx, row);
    var t := StepRow(s, idx, row);
    var n := |s.connections|;
    RowHeadLinks(s, idx, row);
    HeadToRow(s, idx, row);
    ExtendsTransitive(s, h, t);
    if StartLinked(s, row) {
      assert h.connections[n] == Connection(h.nodes[Inicio].id, h.nodes[a].id);
      ExtendsKeepsLink(h, t, n, Inicio, a);
    }
    assert h.connections[HeadLength(s, row) - 1] == Connection(h.nodes[a].id, h.nodes[p].id);
    ExtendsKeepsLink(h, t, HeadLength(s, row) - 1, a, p);
  }

  /** A link between two nodes stays in place, between the same two nodes, as the state grows. */
  lemma ExtendsKeepsLink(h: State, t: State, j: nat, from: Key, to: Key)
    requires Extends(h, t) && from in h.nodes && to in h.nodes
    requires j < |h.connections| && h.connections[j] == Connection(h.nodes[from].id, h.nodes[to].id)
    ensures j < |t.connections| && t.connections[j] == Connection(t.nodes[from].id, t.nodes[to].id)
  {
    assert t.connections[..|h.connections|] == h.connections;
  }

  /** The rest of the row only adds to what its head built. */
  lemma HeadToRow(s: State, idx: nat, row: GroupedRow)
    requires (s.inicioCriado <==> Inicio in s.nodes) && Fim(idx) !in s.nodes
    ensures Extends(RowHead(s, idx, row), StepRow(s, idx, row))
  {
    var h := RowHead(s, idx, row);
    if HasDestinos(row.destinos) {
      DestsExtends(h, RowProcKey(row), row.destinos, 0, RowY(idx));
    } else {
      RowHeadLinks(s, idx, row);
      FimStepLinks(h, RowProcKey(row), idx, RowY(idx));
    }
  }

  lemma RowHeadLength(s: State, idx: nat, row: GroupedRow)
    requires s.inicioCriado <==> Inicio in s.nodes
    ensures |RowHead(s, idx, row).connections| == HeadLength(s, row)
  {
    RowHeadLinks(s, idx, row);
  }

  /**
   * After its head, a row with destinations appends one link from the procedure to each
   * destination's activity node, in list order.
   */
  lemma StepRowDestLinks(s: State, idx: nat, row: GroupedRow)
    requires s.inicioCriado <==> Inicio in s.nodes
    requires HasDestinos(row.destinos)
    ensures var t, p, b := StepRow(s, idx, row), RowProcKey(row), HeadLength(s, row);
      && p in t.nodes
      && |t.connections| == b + |row.destinos|
      && forall m :: 0 <= m < |row.destinos| ==>
           && Ativ(row.destinos[m]) in t.nodes
           && t.connections[b + m] == Connection(t.nodes[p].id, t.nodes[Ativ(row.destinos[m])].id)
  {
    var p := RowProcKey(row);
    var h := RowHead(s, idx, row);
    var t := StepRow(s, idx, row);
    assert t == Dests(h, p, row.destinos, 0, RowY(idx));
    RowHeadLength(s, idx, row);
    DestsLinks(h, p, row.destinos, 0, RowY(idx));
  }

  /**
   * After its head, a row whose destination list is empty or starts with an empty name
   * appends one link from the procedure to the row's own end node "fim_<idx>", which it
   * creates at the row's height.
   */
  lemma StepRowEndLink(s: State, idx: nat, row: GroupedRow)
    requires (s.inicioCriado <==> Inicio in s.nodes) && Fim(idx) !in s.nodes
    requires !HasDestinos(row.destinos)
    ensures var t, p, b := StepRow(s, idx, row), RowProcKey(row), HeadLength(s, row);
      && p in t.nodes && Fim(idx) !in s.nodes && Fim(idx) in t.nodes
      && t.nodes[Fim(idx)].kind == End && t.nodes[Fim(idx)].posY == RowY(idx)
      && |t.connections| == b + 1
      && t.connections[b] == Connection(t.nodes[p].id, t.nodes[Fim(idx)].id)
  {
    var p := RowProcKey(row);
    var h := RowHead(s, idx, row);
    var t := StepRow(s, idx, row);
    assert t == FimStep(h, p, idx, RowY(idx));
    RowHeadLength(s, idx, row);
    FimStepLinks(h, p, idx, RowY(idx));
  }

  /**
   * The only end node a row can create is its own, "fim_<idx>", and only when it has no
   * destinations; every other node it creates is the start node, an activity or its
   * procedure.
   */
  lemma StepRowNewKeys(s: State, idx: nat, row: GroupedRow)
    requires s.inicioCriado <==> Inicio in s.nodes
    ensures var t := StepRow(s, idx, row);
      forall k :: k in t.nodes && k !in s.nodes ==>
        || k == Inicio || k.Ativ? || k == RowProcKey(row)
        || (k == Fim(idx) && !HasDestinos(row.destinos))
  {
    var h := RowHead(s, idx, row);
    RowHeadLinks(s, idx, row);
    var p := RowProcKey(row);
    if HasDestinos(row.destinos) {
      DestsNewKeys(h, p, row.destinos, 0, RowY(idx));
    } else {
      var t := StepRow(s, idx, row);
      if Fim(idx) in h.nodes {
        assert t == Connect(h, h.nodes[p].id, h.nodes[Fim(idx)].id);
      } else {
        FimStepLinks(h, p, idx, RowY(idx));
      }
    }
  }

  // ---------------------------------------------------------------------------
  // Where a row places the nodes it creates

  /** Node `v` has this name and kind, and sits at (x, y). */
  ghost predicate PlacedAt(v: Node, name: string, kind: Kind, x: int, y: int) {
    v.name == name && v.kind == kind && v.posX == x && v.posY == y
  }

  /** Destination `m` is the first one from the i-th on to carry its name. */
  ghost predicate FirstNamed(destinos: seq<string>, i: nat, m: nat)
    requires m < |destinos|
  {
    forall j :: i <= j < m ==> destinos[j] != destinos[m]
  }

  /**
   * The head of row `idx` puts a new start node at (50, y), a new source activity at
   * (300, y) and a new procedure at (550, y), each named as the row reads it, where y is
   * the row's height.
   */
  lemma RowHeadPlaces(s: State, idx: nat, row: GroupedRow)
    requires s.inicioCriado <==> Inicio in s.nodes
    ensures var h, a, p, y := RowHead(s, idx, row), Ativ(Atividade(row)), RowProcKey(row), RowY(idx);
      && (IsStart(row.inicio) && Inicio !in s.nodes ==> PlacedAt(h.nodes[Inicio], StartName, Start, PosX, y))
      && (a !in s.nodes ==> PlacedAt(h.nodes[a], Atividade(row), Activity, PosX + XSpacing, y))
      && (p !in s.nodes ==> PlacedAt(h.nodes[p], Procedimento(row), Procedure, PosX + 2 * XSpacing, y))
  {
    StartFlagIsStart(row.inicio);
  }

  /**
   * The destinations from the i-th on put each new destination's activity node at
   * (800, y + 80 m), for the first position m that names it.
   */
  lemma {:induction false} DestsPlaces(s: State, procKey: Key, destinos: seq<string>, i: nat, y: int)
    requires i <= |destinos| && procKey in s.nodes
    ensures var r := Dests(s, procKey, destinos, i, y);
      forall m :: i <= m < |destinos| && Ativ(destinos[m]) !in s.nodes && FirstNamed(destinos, i, m) ==>
        Ativ(destinos[m]) in r.nodes
        && PlacedAt(r.nodes[Ativ(destinos[m])], destinos[m], Activity, PosX + 3 * XSpacing, y + m * DestSpacing)
    decreases |destinos| - i
  {
    if i < |destinos| {
      var key := Ativ(destinos[i]);
      var s1 := DestOne(s, procKey, destinos[i], i, y);
      var r := Dests(s1, procKey, destinos, i + 1, y);
      assert r == Dests(s, procKey, destinos, i, y);
      DestOneLinks(s, procKey, destinos[i], i, y);
      DestsPlaces(s1, procKey, destinos, i + 1, y);
      if key !in s.nodes {
        assert PlacedAt(s1.nodes[key], destinos[i], Activity, PosX + 3 * XSpacing, y + i * DestSpacing);
      }
      forall m | i < m < |destinos| && Ativ(destinos[m]) !in s.nodes && FirstNamed(destinos, i, m)
        ensures Ativ(destinos[m]) !in s1.nodes && FirstNamed(destinos, i + 1, m)
      {
        assert destinos[i] != destinos[m];
      }
    }
  }

  /**
   * Row `idx` places every node it creates: a new source activity at (300, y), a new
   * procedure at (550, y), and, when it follows its destinations, a new destination's
   * activity at (800, y + 80 m) for the first position m that names it, where y is the
   * row's height.
   */
  lemma StepRowPlaces(s: State, idx: nat, row: GroupedRow)
    requires (s.inicioCriado <==> Inicio in s.nodes) && Fim(idx) !in s.nodes
    ensures var t, a, p, y := StepRow(s, idx, row), Ativ(Atividade(row)), RowProcKey(row), RowY(idx);
      && (a !in s.nodes ==> PlacedAt(t.nodes[a], Atividade(row), Activity, PosX + XSpacing, y))
      && (p !in s.nodes ==> PlacedAt(t.nodes[p], Procedimento(row), Procedure, PosX + 2 * XSpacing, y))
      && (HasDestinos(row.destinos) ==>
            forall m :: 0 <= m < |row.destinos| && Ativ(row.destinos[m]) !in s.nodes
                          && row.destinos[m] != Atividade(row) && FirstNamed(row.destinos, 0, m) ==>
              Ativ(row.destinos[m]) in t.nodes
              && PlacedAt(t.nodes[Ativ(row.destinos[m])], row.destinos[m], Activity, PosX + 3 * XSpacing, y + m * DestSpacing))
  {
    RowHeadPlaces(s, idx, row);
    HeadToRow(s, idx, row);
    if HasDestinos(row.destinos) {
      StepRowDestPlaces(s, idx, row);
    }
  }

  /** The destination part of `StepRowPlaces`. */
  lemma StepRowDestPlaces(s: State, idx: nat, row: GroupedRow)
    requires (s.inicioCriado <==> Inicio in s.nodes) && HasDestinos(row.destinos)
    ensures var t, d := StepRow(s, idx, row), row.destinos;
      forall m :: 0 <= m < |d| && Ativ(d[m]) !in s.nodes && d[m] != Atividade(row) && FirstNamed(d, 0, m) ==>
        Ativ(d[m]) in t.nodes
        && PlacedAt(t.nodes[Ativ(d[m])], d[m], Activity, PosX + 3 * XSpacing, RowY(idx) + m * DestSpacing)
  {
    var h := RowHead(s, idx, row);
    RowHeadLinks(s, idx, row);
    assert StepRow(s, idx, row) == Dests(h, RowProcKey(row), row.destinos, 0, RowY(idx));
    DestsPlaces(h, RowProcKey(row), row.destinos, 0, RowY(idx));
  }
}
