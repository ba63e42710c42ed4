/** The ONNX dataflow graph and the in-place ZipMap removal of training/src/export.py. */
module OnnxGraph {
  import opened Options

  type Name = string

  /** One node: an operator, its attributes (opaque), the names that subgraphs inside the attributes take
      from this graph, and the names the node itself reads and binds. */
  datatype Node = Node(opType: string, attrs: string, captured: seq<Name>, input: seq<Name>, output: seq<Name>)

  /** The value type an output declares; RawProbabilities is FLOAT of shape [None, 2]. */
  datatype TypeInfo = RawProbabilities | Declared(description: string)

  datatype ValueInfo = ValueInfo(name: Name, ty: TypeInfo)

  datatype Graph = Graph(nodes: seq<Node>, outputs: seq<ValueInfo>)

  const ZIP_MAP := "ZipMap"

  /** What an operator computes: a function of its type, attributes, captured values and (possibly absent)
      inputs. */
  type Ops<!V> = (string, string, seq<Option<V>>, seq<Option<V>>) -> seq<V>

  // ---------- meaning ----------

  function Lookup<V>(env: map<Name, V>, n: Name): Option<V> {
    if n in env then Some(env[n]) else None
  }

  function Lookups<V>(env: map<Name, V>, names: seq<Name>): seq<Option<V>> {
    seq(|names|, i requires 0 <= i < |names| => Lookup(env, names[i]))
  }

  /** Binds results to output names; an empty name is an omitted output. */
  function Bind<V>(env: map<Name, V>, names: seq<Name>, vals: seq<V>): map<Name, V>
    decreases names
  {
    if names == [] || vals == [] then env
    else Bind(if names[0] == "" then env else env[names[0] := vals[0]], names[1..], vals[1..])
  }

  function Results<V>(ops: Ops<V>, n: Node, env: map<Name, V>): seq<V> {
    ops(n.opType, n.attrs, Lookups(env, n.captured), Lookups(env, n.input))
  }

  function Step<V>(ops: Ops<V>, n: Node, env: map<Name, V>): map<Name, V> {
    Bind(env, n.output, Results(ops, n, env))
  }

  /** The environment after the first k nodes. */
  function Eval<V>(ops: Ops<V>, nodes: seq<Node>, env: map<Name, V>, k: nat): map<Name, V>
    requires k <= |nodes|
  {
    if k == 0 then env else Step(ops, nodes[k-1], Eval(ops, nodes, env, k - 1))
  }

  /** Reading a map node as the identity: its output stands for its input. */
  function Alias<V>(n: Node, env: map<Name, V>): map<Name, V>
    requires n.input != [] && n.output != []
  {
    if n.input[0] in env then env[n.output[0] := env[n.input[0]]] else env
  }

  /** The reference meaning: Eval, except that node z is read as the identity. */
  function EvalAliased<V>(ops: Ops<V>, nodes: seq<Node>, z: nat, env: map<Name, V>, k: nat): map<Name, V>
    requires k <= |nodes| && z < |nodes| && nodes[z].input != [] && nodes[z].output != []
  {
    if k == 0 then env
    else
      var before := EvalAliased(ops, nodes, z, env, k - 1);
      if k - 1 == z then Alias(nodes[z], before) else Step(ops, nodes[k-1], before)
  }

  // ---------- well-formed graphs ----------

  function Outs(n: Node): set<Name> {
    set o | o in n.output && o != ""
  }

  /** Names available to node k: graph inputs and initializers, and earlier outputs. */
  function Defined(nodes: seq<Node>, init: set<Name>, k: nat): set<Name>
    requires k <= |nodes|
  {
    if k == 0 then init else Defined(nodes, init, k - 1) + Outs(nodes[k-1])
  }

  ghost predicate NodeOk(n: Node, available: set<Name>) {
    && (forall x :: x in n.input ==> x == "" || x in available)
    && (forall x :: x in n.captured ==> x in available)
    && Outs(n) !! available
    && (forall i, j :: 0 <= i < j < |n.output| && n.output[i] == n.output[j] ==> n.output[i] == "")
    && (n.opType == ZIP_MAP ==> |n.input| == 1 && |n.output| == 1 && n.input[0] != "" && n.output[0] != "")
  }

  /** Single static assignment, topological order, and one input and one output per ZipMap. */
  ghost predicate WellFormed(nodes: seq<Node>, init: set<Name>) {
    && "" !in init
    && forall k :: 0 <= k < |nodes| ==> NodeOkAt(nodes, init, k)
  }

  ghost predicate NodeOkAt(nodes: seq<Node>, init: set<Name>, k: nat)
    requires k < |nodes|
  {
    NodeOk(nodes[k], Defined(nodes, init, k))
  }

  // ---------- the rewrite ----------

  function Rename(x: Name, old_: Name, new_: Name): Name {
    if x == old_ then new_ else x
  }

  function RenameAll(xs: seq<Name>, old_: Name, new_: Name): seq<Name> {
    seq(|xs|, i requires 0 <= i < |xs| => Rename(xs[i], old_, new_))
  }

  function Rewire(n: Node, old_: Name, new_: Name): Node {
    n.(input := RenameAll(n.input, old_, new_))
  }

  function RewireOutput(o: ValueInfo, old_: Name, new_: Name): ValueInfo {
    if o.name == old_ then ValueInfo(new_, RawProbabilities) else o
  }

  predicate FirstZipMap(nodes: seq<Node>, z: nat) {
    z < |nodes| && nodes[z].opType == ZIP_MAP && forall i :: 0 <= i < z ==> nodes[i].opType != ZIP_MAP
  }

  /** No node that binds something captures the map name in a subgraph. */
  predicate Uncaptured(nodes: seq<Node>, z: nat)
    requires z < |nodes|
  {
    nodes[z].output != [] ==> forall n :: n in nodes ==> !CapturesMap(n, nodes[z].output[0])
  }

  /** The nodes after the rewrite: node z gone, its output name replaced by its input name. */
  function Stripped(nodes: seq<Node>, z: nat): seq<Node>
    requires z < |nodes| && nodes[z].input != [] && nodes[z].output != []
  {
    var raw, m := nodes[z].input[0], nodes[z].output[0];
    seq(|nodes| - 1, i requires 0 <= i < |nodes| - 1 => Rewire(nodes[if i < z then i else i + 1], m, raw))
  }

  function StrippedOutputs(g: Graph, z: nat): seq<ValueInfo>
    requires z < |g.nodes| && g.nodes[z].input != [] && g.nodes[z].output != []
  {
    var raw, m := g.nodes[z].input[0], g.nodes[z].output[0];
    seq(|g.outputs|, i requires 0 <= i < |g.outputs| => RewireOutput(g.outputs[i], m, raw))
  }

  // ---------- lemmas on names ----------

  lemma {:induction false} DefinedMonotone(nodes: seq<Node>, init: set<Name>, i: nat, k: nat)
    requires i <= k <= |nodes|
    ensures Defined(nodes, init, i) <= Defined(nodes, init, k)
    decreases k
  {
    if i < k { DefinedMonotone(nodes, init, i, k - 1); }
  }

  /** The first ZipMap's names: the raw name is available before it, the map name only after. */
  lemma ZipMapNames(nodes: seq<Node>, init: set<Name>, z: nat)
    requires WellFormed(nodes, init) && FirstZipMap(nodes, z)
    ensures |nodes[z].input| == 1 && |nodes[z].output| == 1
    ensures nodes[z].input[0] in Defined(nodes, init, z)
    ensures nodes[z].output[0] in Defined(nodes, init, z + 1) && nodes[z].output[0] !in Defined(nodes, init, z)
    ensures nodes[z].input[0] != nodes[z].output[0] && nodes[z].output[0] != "" && nodes[z].input[0] != ""
  {
    var n := nodes[z];
    assert NodeOkAt(nodes, init, z);
    assert n.input[0] in n.input && n.output[0] in n.output;
    assert n.output[0] in Outs(n);
  }

  /** A node other than z neither binds the map name nor, before z, reads it. */
  lemma OtherNodes(nodes: seq<Node>, init: set<Name>, z: nat, k: nat)
    requires WellFormed(nodes, init) && FirstZipMap(nodes, z) && k < |nodes| && k != z
    ensures |nodes[z].input| == 1 && |nodes[z].output| == 1
    ensures nodes[z].output[0] !in nodes[k].output
    ensures k < z ==> nodes[z].output[0] !in nodes[k].input && nodes[z].output[0] !in nodes[k].captured
    ensures k > z ==> nodes[z].input[0] !in nodes[k].output
  {
    ZipMapNames(nodes, init, z);
    assert NodeOkAt(nodes, init, k);
    var m := nodes[z].output[0];
    if k < z {
      DefinedMonotone(nodes, init, k + 1, z);
      assert Outs(nodes[k]) <= Defined(nodes, init, z);
    } else {
      DefinedMonotone(nodes, init, z + 1, k);
      DefinedMonotone(nodes, init, z, k);
      assert forall o :: o in nodes[k].output && o != "" ==> o in Outs(nodes[k]);
    }
  }

  // ---------- lemmas on environments ----------

  lemma {:induction false} BindKeeps<V>(env: map<Name, V>, names: seq<Name>, vals: seq<V>, x: Name)
    requires x !in names
    ensures Lookup(Bind(env, names, vals), x) == Lookup(env, x)
    decreases names
  {
    if names != [] && vals != [] {
      BindKeeps(if names[0] == "" then env else env[names[0] := vals[0]], names[1..], vals[1..], x);
    }
  }

  /** Binding the same results in two environments that agree at x leaves them agreeing at x. */
  lemma {:induction false} BindAgrees<V>(e: map<Name, V>, f: map<Name, V>, names: seq<Name>, vals: seq<V>, x: Name)
    requires Lookup(e, x) == Lookup(f, x)
    ensures Lookup(Bind(e, names, vals), x) == Lookup(Bind(f, names, vals), x)
    decreases names
  {
    if names != [] && vals != [] {
      var e', f' := if names[0] == "" then e else e[names[0] := vals[0]], if names[0] == "" then f else f[names[0] := vals[0]];
      BindAgrees(e', f', names[1..], vals[1..], x);
    }
  }

  /** The rewritten environment f stands for the reference environment e once z has been passed. */
  ghost predicate Represents<V>(f: map<Name, V>, e: map<Name, V>, raw: Name, m: Name) {
    && (forall x :: x != m ==> Lookup(f, x) == Lookup(e, x))
    && m !in f
    && Lookup(e, m) == Lookup(e, raw)
  }

  lemma StepBefore<V>(ops: Ops<V>, n: Node, env: map<Name, V>, raw: Name, m: Name)
    requires m !in n.input && m !in n.output && m !in env
    ensures Step(ops, Rewire(n, m, raw), env) == Step(ops, n, env)
    ensures m !in Step(ops, n, env)
  {
    assert RenameAll(n.input, m, raw) == n.input;
    BindKeeps(env, n.output, Results(ops, n, env), m);
  }

  /** A capture of the map name by a node that binds something escapes the rewrite. */
  predicate CapturesMap(n: Node, m: Name) {
    m in n.captured && Outs(n) != {}
  }

  lemma StepAfter<V>(ops: Ops<V>, n: Node, f: map<Name, V>, e: map<Name, V>, raw: Name, m: Name)
    requires Represents(f, e, raw, m) && raw != m && m !in n.output && raw !in n.output && !CapturesMap(n, m)
    ensures Represents(Step(ops, Rewire(n, m, raw), f), Step(ops, n, e), raw, m)
  {
    var vals, vals' := Results(ops, n, e), Results(ops, Rewire(n, m, raw), f);
    assert Lookups(f, RenameAll(n.input, m, raw)) == Lookups(e, n.input);
    forall x | x != m ensures Lookup(Bind(f, n.output, vals'), x) == Lookup(Bind(e, n.output, vals), x) {
      if Outs(n) == {} {
        assert x in n.output && x != "" ==> x in Outs(n);
        BindKeepsUnnamed(f, n.output, vals', x);
        BindKeepsUnnamed(e, n.output, vals, x);
      } else {
        assert Lookups(f, n.captured) == Lookups(e, n.captured);
        BindAgrees(f, e, n.output, vals, x);
      }
    }
    BindKeeps(f, n.output, vals', m);
    BindKeeps(e, n.output, vals, m);
    BindKeeps(e, n.output, vals, raw);
  }

  lemma RawIsNotMap<V>(nodes: seq<Node>, z: nat, e: map<Name, V>)
    requires z < |nodes| && nodes[z].input != [] && nodes[z].output != []
    requires nodes[z].input[0] != nodes[z].output[0] && nodes[z].output[0] !in e
    ensures Represents(e, Alias(nodes[z], e), nodes[z].input[0], nodes[z].output[0])
  {
  }

  /** A node before the ZipMap: both meanings agree and do not know the map. */
  lemma SimulateBefore<V>(ops: Ops<V>, nodes: seq<Node>, z: nat, env: map<Name, V>, k: nat)
    requires 0 < k <= z < |nodes| && nodes[z].input != [] && nodes[z].output != []
    requires nodes[z].output[0] !in nodes[k-1].input && nodes[z].output[0] !in nodes[k-1].output
    requires Eval(ops, Stripped(nodes, z), env, k - 1) == EvalAliased(ops, nodes, z, env, k - 1)
    requires nodes[z].output[0] !in EvalAliased(ops, nodes, z, env, k - 1)
    ensures Eval(ops, Stripped(nodes, z), env, k) == EvalAliased(ops, nodes, z, env, k)
    ensures nodes[z].output[0] !in EvalAliased(ops, nodes, z, env, k)
  {
    assert Stripped(nodes, z)[k-1] == Rewire(nodes[k-1], nodes[z].output[0], nodes[z].input[0]);
    StepBefore(ops, nodes[k-1], EvalAliased(ops, nodes, z, env, k - 1), nodes[z].input[0], nodes[z].output[0]);
    hide Step, Rewire;
  }

  /** The ZipMap itself. */
  lemma SimulateAt<V>(ops: Ops<V>, nodes: seq<Node>, z: nat, env: map<Name, V>)
    requires z < |nodes| && nodes[z].input != [] && nodes[z].output != [] && nodes[z].input[0] != nodes[z].output[0]
    requires Eval(ops, Stripped(nodes, z), env, z) == EvalAliased(ops, nodes, z, env, z)
    requires nodes[z].output[0] !in EvalAliased(ops, nodes, z, env, z)
    ensures Represents(Eval(ops, Stripped(nodes, z), env, z), EvalAliased(ops, nodes, z, env, z + 1),
                       nodes[z].input[0], nodes[z].output[0])
  {
    RawIsNotMap(nodes, z, EvalAliased(ops, nodes, z, env, z));
  }

  /** A node after it. */
  lemma SimulateAfter<V>(ops: Ops<V>, nodes: seq<Node>, z: nat, env: map<Name, V>, k: nat)
    requires z < k - 1 < |nodes| && nodes[z].input != [] && nodes[z].output != [] && nodes[z].input[0] != nodes[z].output[0]
    requires nodes[z].output[0] !in nodes[k-1].output && nodes[z].input[0] !in nodes[k-1].output
    requires !CapturesMap(nodes[k-1], nodes[z].output[0])
    requires Represents(Eval(ops, Stripped(nodes, z), env, k - 2), EvalAliased(ops, nodes, z, env, k - 1),
                        nodes[z].input[0], nodes[z].output[0])
    ensures Represents(Eval(ops, Stripped(nodes, z), env, k - 1), EvalAliased(ops, nodes, z, env, k),
                       nodes[z].input[0], nodes[z].output[0])
  {
    assert Stripped(nodes, z)[k-2] == Rewire(nodes[k-1], nodes[z].output[0], nodes[z].input[0]);
    StepAfter(ops, nodes[k-1], Eval(ops, Stripped(nodes, z), env, k - 2), EvalAliased(ops, nodes, z, env, k - 1),
              nodes[z].input[0], nodes[z].output[0]);
    hide Step, Rewire, Represents, CapturesMap;
  }

  lemma NotBoundAtFirst(nodes: seq<Node>, init: set<Name>, z: nat)
    requires WellFormed(nodes, init) && FirstZipMap(nodes, z)
    ensures |nodes[z].input| == 1 && |nodes[z].output| == 1 && nodes[z].output[0] !in init
  {
    ZipMapNames(nodes, init, z);
    DefinedMonotone(nodes, init, 0, z);
  }

  lemma NoCaptureAt(nodes: seq<Node>, z: nat, k: nat)
    requires z < |nodes| && k < |nodes| && nodes[z].output != [] && Uncaptured(nodes, z)
    ensures !CapturesMap(nodes[k], nodes[z].output[0])
  {
  }

  lemma StepLeavesOut<V>(ops: Ops<V>, n: Node, env: map<Name, V>, m: Name)
    requires m !in n.output && m !in env
    ensures m !in Step(ops, n, env)
  {
    BindKeeps(env, n.output, Results(ops, n, env), m);
  }

  /** The simulation: the rewritten nodes track the reference meaning node by node. */
  lemma {:induction false} Simulates<V>(ops: Ops<V>, nodes: seq<Node>, z: nat, env: map<Name, V>, k: nat)
    requires WellFormed(nodes, env.Keys) && FirstZipMap(nodes, z) && Uncaptured(nodes, z) && k <= |nodes|
    ensures |nodes[z].input| == 1 && |nodes[z].output| == 1
    ensures k <= z ==>
      && Eval(ops, Stripped(nodes, z), env, k) == EvalAliased(ops, nodes, z, env, k)
      && nodes[z].output[0] !in EvalAliased(ops, nodes, z, env, k)
    ensures k > z ==>
      Represents(Eval(ops, Stripped(nodes, z), env, k - 1), EvalAliased(ops, nodes, z, env, k),
                 nodes[z].input[0], nodes[z].output[0])
    decreases k
  {
    hide Uncaptured, Stripped, Represents, CapturesMap, Step, Alias;
    ZipMapNames(nodes, env.Keys, z);
    if k == 0 {
      NotBoundAtFirst(nodes, env.Keys, z);
    } else {
      Simulates(ops, nodes, z, env, k - 1);
      hide Eval, EvalAliased;
      if k - 1 == z {
        SimulateAt(ops, nodes, z, env);
      } else {
        OtherNodes(nodes, env.Keys, z, k - 1);
        if k - 1 < z {
          SimulateBefore(ops, nodes, z, env, k);
        } else {
          NoCaptureAt(nodes, z, k - 1);
          SimulateAfter(ops, nodes, z, env, k);
        }
      }
    }
  }

  // ---------- main results ----------

  /** Every name but the map name has the value it has when the ZipMap is read as the identity. */
  ghost predicate KeepsMeaning<V>(ops: Ops<V>, nodes: seq<Node>, z: nat, env: map<Name, V>)
    requires z < |nodes| && nodes[z].input != [] && nodes[z].output != []
  {
    forall x :: x != nodes[z].output[0] ==>
      Lookup(Eval(ops, Stripped(nodes, z), env, |nodes| - 1), x) == Lookup(EvalAliased(ops, nodes, z, env, |nodes|), x)
  }

  /** Meaning preservation: every name but the map name keeps its value, and every graph output
      reads what it read when the ZipMap is the identity, so an output that named the map now
      yields the raw tensor. */
  lemma RewritePreservesMeaning<V>(ops: Ops<V>, g: Graph, z: nat, env: map<Name, V>)
    requires WellFormed(g.nodes, env.Keys) && FirstZipMap(g.nodes, z) && Uncaptured(g.nodes, z)
    ensures |g.nodes[z].input| == 1 && |g.nodes[z].output| == 1 && KeepsMeaning(ops, g.nodes, z, env)
    ensures var before, after := EvalAliased(ops, g.nodes, z, env, |g.nodes|), Eval(ops, Stripped(g.nodes, z), env, |g.nodes| - 1);
            && (forall i :: 0 <= i < |g.outputs| ==> Lookup(after, StrippedOutputs(g, z)[i].name) == Lookup(before, g.outputs[i].name))
            && (forall i :: 0 <= i < |g.outputs| && g.outputs[i].name == g.nodes[z].output[0] ==>
                  StrippedOutputs(g, z)[i] == ValueInfo(g.nodes[z].input[0], RawProbabilities))
            && (forall i :: 0 <= i < |g.outputs| && g.outputs[i].name != g.nodes[z].output[0] ==>
                  StrippedOutputs(g, z)[i] == g.outputs[i])
  {
    Simulates(ops, g.nodes, z, env, |g.nodes|);
    ZipMapNames(g.nodes, env.Keys, z);
  }

  predicate DistinctOutputs(outputs: seq<ValueInfo>) {
    forall i, j :: 0 <= i < j < |outputs| ==> outputs[i].name != outputs[j].name
  }

  predicate NamesOutput(g: Graph, x: Name) {
    exists i :: 0 <= i < |g.outputs| && g.outputs[i].name == x
  }

  /** The graph outputs stay distinct exactly when the map and the raw tensor are not both outputs. */
  lemma OutputsStayDistinctExactly(g: Graph, init: set<Name>, z: nat)
    requires WellFormed(g.nodes, init) && FirstZipMap(g.nodes, z) && DistinctOutputs(g.outputs)
    ensures |g.nodes[z].input| == 1 && |g.nodes[z].output| == 1
    ensures DistinctOutputs(StrippedOutputs(g, z)) <==> !(NamesOutput(g, g.nodes[z].input[0]) && NamesOutput(g, g.nodes[z].output[0]))
  {
    ZipMapNames(g.nodes, init, z);
    var raw, m, outs := g.nodes[z].input[0], g.nodes[z].output[0], StrippedOutputs(g, z);
    if NamesOutput(g, raw) && NamesOutput(g, m) {
      var i :| 0 <= i < |g.outputs| && g.outputs[i].name == raw;
      var j :| 0 <= j < |g.outputs| && g.outputs[j].name == m;
      assert outs[i].name == raw && outs[j].name == raw;
    }
  }

  lemma {:induction false} StrippedDefined(nodes: seq<Node>, init: set<Name>, z: nat, k: nat)
    requires WellFormed(nodes, init) && FirstZipMap(nodes, z) && k <= |nodes|
    ensures |nodes[z].input| == 1 && |nodes[z].output| == 1
    ensures k <= z ==> Defined(Stripped(nodes, z), init, k) == Defined(nodes, init, k)
    ensures k > z ==> Defined(Stripped(nodes, z), init, k - 1) == Defined(nodes, init, k) - {nodes[z].output[0]}
    decreases k
  {
    ZipMapNames(nodes, init, z);
    if k > 0 {
      StrippedDefined(nodes, init, z, k - 1);
      var m := nodes[z].output[0];
      if k - 1 == z {
        assert Outs(nodes[z]) == {m};
      } else {
        OtherNodes(nodes, init, z, k - 1);
        assert Outs(Rewire(nodes[k-1], m, nodes[z].input[0])) == Outs(nodes[k-1]);
      }
    }
  }

  /** Nothing but a capture names the map after the rewrite. */
  lemma MapUnnamed(g: Graph, init: set<Name>, z: nat)
    requires WellFormed(g.nodes, init) && FirstZipMap(g.nodes, z)
    ensures |g.nodes[z].input| == 1 && |g.nodes[z].output| == 1
    ensures forall n :: n in Stripped(g.nodes, z) ==> g.nodes[z].output[0] !in n.input && g.nodes[z].output[0] !in n.output
    ensures forall o :: o in StrippedOutputs(g, z) ==> o.name != g.nodes[z].output[0]
  {
    ZipMapNames(g.nodes, init, z);
    var rw := Stripped(g.nodes, z);
    forall i | 0 <= i < |rw| ensures g.nodes[z].output[0] !in rw[i].input && g.nodes[z].output[0] !in rw[i].output {
      var k := if i < z then i else i + 1;
      assert rw[i] == Rewire(g.nodes[k], g.nodes[z].output[0], g.nodes[z].input[0]);
      OtherNodes(g.nodes, init, z, k);
    }
  }

  /** A rewritten node is as well formed as it was, unless it captures the map name. */
  lemma RewrittenNodeOk(nodes: seq<Node>, init: set<Name>, z: nat, i: nat)
    requires WellFormed(nodes, init) && FirstZipMap(nodes, z) && i < |nodes| - 1
    ensures |nodes[z].input| == 1 && |nodes[z].output| == 1
    ensures NodeOkAt(Stripped(nodes, z), init, i) <==> nodes[z].output[0] !in Stripped(nodes, z)[i].captured
  {
    ZipMapNames(nodes, init, z);
    var raw, m := nodes[z].input[0], nodes[z].output[0];
    var rw := Stripped(nodes, z);
    var k := if i < z then i else i + 1;
    assert rw[i] == Rewire(nodes[k], m, raw);
    OtherNodes(nodes, init, z, k);
    StrippedDefined(nodes, init, z, k);
    assert NodeOkAt(nodes, init, k);
    assert Outs(rw[i]) == Outs(nodes[k]);
    if k > z { DefinedMonotone(nodes, init, z, k); }
    forall x | x in rw[i].input ensures x == "" || x in Defined(rw, init, i) {
      var j :| 0 <= j < |rw[i].input| && rw[i].input[j] == x;
      assert nodes[k].input[j] in nodes[k].input;
    }
    assert |rw[i].input| == |nodes[k].input|;
    if nodes[k].opType == ZIP_MAP {
      assert nodes[k].input[0] in nodes[k].input;
    }
    if k < z { DefinedMonotone(nodes, init, k, z); }
  }

  /** The rewritten graph is again SSA and topologically sorted exactly when no node captures the map
      name in a subgraph: captures are the one place the rewrite does not look. */
  lemma RewriteKeepsGraphWellFormedExactly(nodes: seq<Node>, init: set<Name>, z: nat)
    requires WellFormed(nodes, init) && FirstZipMap(nodes, z)
    ensures |nodes[z].input| == 1 && |nodes[z].output| == 1
    ensures WellFormed(Stripped(nodes, z), init) <==> forall n :: n in nodes ==> nodes[z].output[0] !in n.captured
  {
    ZipMapNames(nodes, init, z);
    var m, rw := nodes[z].output[0], Stripped(nodes, z);
    forall i: nat | i < |rw| ensures NodeOkAt(rw, init, i) <==> m !in rw[i].captured {
      RewrittenNodeOk(nodes, init, z, i);
    }
    CapturesStay(nodes, init, z);
    assert "" !in init;
    hide NodeOkAt, Stripped, FirstZipMap;
  }

  lemma CapturesStay(nodes: seq<Node>, init: set<Name>, z: nat)
    requires WellFormed(nodes, init) && FirstZipMap(nodes, z)
    ensures |nodes[z].input| == 1 && |nodes[z].output| == 1
    ensures var m, rw := nodes[z].output[0], Stripped(nodes, z);
            (forall i :: 0 <= i < |rw| ==> m !in rw[i].captured) <==> forall n :: n in nodes ==> m !in n.captured
  {
    ZipMapNames(nodes, init, z);
    var m, rw := nodes[z].output[0], Stripped(nodes, z);
    assert m !in nodes[z].captured by {
      assert NodeOkAt(nodes, init, z);
    }
    hide WellFormed, FirstZipMap;
    forall i | 0 <= i < |rw| ensures rw[i].captured == nodes[if i < z then i else i + 1].captured {
      assert rw[i] == Rewire(nodes[if i < z then i else i + 1], m, nodes[z].input[0]);
    }
    forall n | n in nodes && m in n.captured ensures exists i :: 0 <= i < |rw| && m in rw[i].captured {
      var k :| 0 <= k < |nodes| && nodes[k] == n;
      assert m in rw[if k < z then k else k - 1].captured;
    }
  }

  // ---------- a captured map changes the meaning ----------

  lemma {:induction false} BindNames<V>(env: map<Name, V>, names: seq<Name>, vals: seq<V>, x: Name)
    requires |vals| >= |names|
    ensures x in Bind(env, names, vals) <==> x in env || (x in names && x != "")
    decreases names
  {
    if names != [] {
      BindNames(if names[0] == "" then env else env[names[0] := vals[0]], names[1..], vals[1..], x);
    }
  }

  lemma {:induction false} BindConstant<V>(env: map<Name, V>, names: seq<Name>, vals: seq<V>, v: V, x: Name)
    requires |vals| >= |names| && x != "" && (x in names || Lookup(env, x) == Some(v))
    requires forall i :: 0 <= i < |vals| ==> vals[i] == v
    ensures Lookup(Bind(env, names, vals), x) == Some(v)
    decreases names
  {
    if names != [] {
      BindConstant(if names[0] == "" then env else env[names[0] := vals[0]], names[1..], vals[1..], v, x);
    }
  }

  /** Every operator answers whether it finds a value for its i-th captured name. */
  function Probe(i: nat, width: nat): Ops<bool> {
    (opType, attrs, captured: seq<Option<bool>>, input) => seq(width, _ => i < |captured| && captured[i].Some?)
  }

  predicate Wide(nodes: seq<Node>, width: nat) {
    forall n :: n in nodes ==> |n.output| <= width
  }

  lemma {:induction false} WideEnough(nodes: seq<Node>) returns (width: nat)
    ensures Wide(nodes, width)
    decreases nodes
  {
    width := 0;
    if nodes != [] {
      var w := WideEnough(nodes[1..]);
      width := if w >= |nodes[0].output| then w else |nodes[0].output|;
      assert nodes == [nodes[0]] + nodes[1..];
    }
  }

  /** The reference meaning of a node binds its outputs, if the operators give enough results. */
  lemma ReferenceStep<V>(ops: Ops<V>, nodes: seq<Node>, z: nat, env: map<Name, V>, k: nat, x: Name)
    requires z < |nodes| && 0 < k <= |nodes| && nodes[z].input != [] && |nodes[z].output| == 1
    requires k - 1 == z ==> nodes[z].input[0] in EvalAliased(ops, nodes, z, env, z)
    requires |Results(ops, nodes[k-1], EvalAliased(ops, nodes, z, env, k - 1))| >= |nodes[k-1].output|
    requires x in Outs(nodes[k-1]) || x in EvalAliased(ops, nodes, z, env, k - 1)
    ensures x in EvalAliased(ops, nodes, z, env, k)
  {
    var n, e := nodes[k-1], EvalAliased(ops, nodes, z, env, k - 1);
    if k - 1 != z { BindNames(e, n.output, Results(ops, n, e), x); }
  }

  /** Under the probe the reference meaning binds every available name. */
  lemma {:induction false} ReferenceBinds(nodes: seq<Node>, z: nat, env: map<Name, bool>, i: nat, width: nat, k: nat, x: Name)
    requires WellFormed(nodes, env.Keys) && FirstZipMap(nodes, z) && Wide(nodes, width) && k <= |nodes|
    requires x in Defined(nodes, env.Keys, k)
    ensures |nodes[z].input| == 1 && |nodes[z].output| == 1
    ensures x in EvalAliased(Probe(i, width), nodes, z, env, k)
    decreases k
  {
    ZipMapNames(nodes, env.Keys, z);
    if k > 0 {
      assert z < |nodes| && nodes[k-1] in nodes && |nodes[k-1].output| <= width;
      hide WellFormed, FirstZipMap, Wide, EvalAliased, Outs;
      if k - 1 == z { ReferenceBinds(nodes, z, env, i, width, z, nodes[z].input[0]); }
      if x in Defined(nodes, env.Keys, k - 1) { ReferenceBinds(nodes, z, env, i, width, k - 1, x); }
      ReferenceStep(Probe(i, width), nodes, z, env, k, x);
    } else {
      assert EvalAliased(Probe(i, width), nodes, z, env, 0) == env;
    }
  }

  lemma UnboundStep<V>(ops: Ops<V>, nodes: seq<Node>, z: nat, env: map<Name, V>, k: nat)
    requires 0 < k < |nodes| && z < |nodes| && nodes[z].input != [] && nodes[z].output != []
    requires nodes[z].output[0] !in nodes[if k - 1 < z then k - 1 else k].output
    requires nodes[z].output[0] !in Eval(ops, Stripped(nodes, z), env, k - 1)
    ensures nodes[z].output[0] !in Eval(ops, Stripped(nodes, z), env, k)
  {
    var n := nodes[if k - 1 < z then k - 1 else k];
    assert Stripped(nodes, z)[k-1] == Rewire(n, nodes[z].output[0], nodes[z].input[0]);
    StepLeavesOut(ops, Stripped(nodes, z)[k-1], Eval(ops, Stripped(nodes, z), env, k - 1), nodes[z].output[0]);
  }

  /** The rewritten graph never binds the map name. */
  lemma {:induction false} MapNeverBound<V>(ops: Ops<V>, nodes: seq<Node>, z: nat, env: map<Name, V>, k: nat)
    requires WellFormed(nodes, env.Keys) && FirstZipMap(nodes, z) && k < |nodes|
    ensures |nodes[z].input| == 1 && |nodes[z].output| == 1
    ensures nodes[z].output[0] !in Eval(ops, Stripped(nodes, z), env, k)
    decreases k
  {
    NotBoundAtFirst(nodes, env.Keys, z);
    if k > 0 {
      MapNeverBound(ops, nodes, z, env, k - 1);
      OtherNodes(nodes, env.Keys, z, if k - 1 < z then k - 1 else k);
      hide Eval, Stripped;
      UnboundStep(ops, nodes, z, env, k);
    }
  }

  /** What node k after the ZipMap binds, no later node binds again, in either graph. */
  lemma {:induction false} ValueStays<V>(ops: Ops<V>, nodes: seq<Node>, z: nat, env: map<Name, V>, k: nat, j: nat, x: Name)
    requires WellFormed(nodes, env.Keys) && FirstZipMap(nodes, z) && z < k < j <= |nodes| && x in Outs(nodes[k])
    ensures |nodes[z].input| == 1 && |nodes[z].output| == 1
    ensures Lookup(EvalAliased(ops, nodes, z, env, j), x) == Lookup(EvalAliased(ops, nodes, z, env, k + 1), x)
    ensures Lookup(Eval(ops, Stripped(nodes, z), env, j - 1), x) == Lookup(Eval(ops, Stripped(nodes, z), env, k), x)
    decreases j
  {
    ZipMapNames(nodes, env.Keys, z);
    hide Eval, EvalAliased, Outs, Lookup, Stripped;
    if j > k + 1 {
      ValueStays(ops, nodes, z, env, k, j - 1, x);
      BoundOnce(nodes, env.Keys, k, j - 1, x);
      LaterStep(ops, nodes, z, env, j, x);
    }
  }

  /** A node after the ZipMap that does not bind x. */
  lemma LaterStep<V>(ops: Ops<V>, nodes: seq<Node>, z: nat, env: map<Name, V>, j: nat, x: Name)
    requires z < j - 1 < |nodes| && nodes[z].input != [] && nodes[z].output != [] && x !in Outs(nodes[j-1])
    ensures Lookup(EvalAliased(ops, nodes, z, env, j), x) == Lookup(EvalAliased(ops, nodes, z, env, j - 1), x)
    ensures Lookup(Eval(ops, Stripped(nodes, z), env, j - 1), x) == Lookup(Eval(ops, Stripped(nodes, z), env, j - 2), x)
  {
    var rw, n := Stripped(nodes, z), nodes[j-1];
    assert rw[j-2] == Rewire(n, nodes[z].output[0], nodes[z].input[0]);
    assert Outs(rw[j-2]) == Outs(n);
    UnnamedBind(ops, n, EvalAliased(ops, nodes, z, env, j - 1), x);
    UnnamedBind(ops, rw[j-2], Eval(ops, rw, env, j - 2), x);
  }

  lemma BoundOnce(nodes: seq<Node>, init: set<Name>, k: nat, j: nat, x: Name)
    requires WellFormed(nodes, init) && k < j < |nodes| && x in Outs(nodes[k])
    ensures x !in Outs(nodes[j])
  {
    assert NodeOkAt(nodes, init, j);
    DefinedMonotone(nodes, init, k + 1, j);
  }

  /** A capturing node comes after the ZipMap and does not bind the map name. */
  lemma CapturerIsLater(nodes: seq<Node>, init: set<Name>, z: nat, k: nat)
    requires WellFormed(nodes, init) && FirstZipMap(nodes, z) && k < |nodes| && nodes[z].output != []
    requires nodes[z].output[0] in nodes[k].captured
    ensures k > z && nodes[z].output[0] !in nodes[k].output && nodes[z].output[0] in Defined(nodes, init, k)
  {
    ZipMapNames(nodes, init, z);
    assert NodeOkAt(nodes, init, k);
    if k < z { DefinedMonotone(nodes, init, k, z); }
    OtherNodes(nodes, init, z, k);
  }

  /** What the probe makes of one node. */
  lemma ProbeStep(n: Node, env: map<Name, bool>, i: nat, width: nat, x: Name)
    requires i < |n.captured| && |n.output| <= width && x in Outs(n)
    ensures Lookup(Step(Probe(i, width), n, env), x) == Some(n.captured[i] in env)
  {
    BindConstant(env, n.output, Results(Probe(i, width), n, env), n.captured[i] in env, x);
  }

  /** Node k captures the map as its i-th name and binds x; no node has more than `width` outputs. */
  ghost predicate Capturer(nodes: seq<Node>, init: set<Name>, z: nat, k: nat, i: nat, width: nat, x: Name) {
    && WellFormed(nodes, init) && FirstZipMap(nodes, z) && Wide(nodes, width)
    && z < k < |nodes| && |nodes[z].input| == 1 && |nodes[z].output| == 1
    && i < |nodes[k].captured| && nodes[k].captured[i] == nodes[z].output[0]
    && |nodes[k].output| <= width && x in Outs(nodes[k]) && x != nodes[z].output[0]
  }

  lemma CapturerStep(nodes: seq<Node>, z: nat, env: map<Name, bool>, k: nat, i: nat, width: nat, x: Name)
    requires Capturer(nodes, env.Keys, z, k, i, width, x)
    ensures Lookup(EvalAliased(Probe(i, width), nodes, z, env, k + 1), x) ==
              Some(nodes[k].captured[i] in EvalAliased(Probe(i, width), nodes, z, env, k))
    ensures Lookup(Eval(Probe(i, width), Stripped(nodes, z), env, k), x) ==
              Some(nodes[k].captured[i] in Eval(Probe(i, width), Stripped(nodes, z), env, k - 1))
  {
    var rw, n := Stripped(nodes, z), nodes[k];
    assert rw[k-1] == Rewire(n, nodes[z].output[0], nodes[z].input[0]);
    assert Outs(rw[k-1]) == Outs(n);
    ProbeStep(n, EvalAliased(Probe(i, width), nodes, z, env, k), i, width, x);
    ProbeStep(rw[k-1], Eval(Probe(i, width), rw, env, k - 1), i, width, x);
    hide Probe, Step, Outs;
  }

  /** It finds the captured map in the reference meaning. */
  lemma MapIsBound(nodes: seq<Node>, z: nat, env: map<Name, bool>, k: nat, i: nat, width: nat, x: Name)
    requires Capturer(nodes, env.Keys, z, k, i, width, x)
    ensures nodes[k].captured[i] in EvalAliased(Probe(i, width), nodes, z, env, k)
  {
    CapturerIsLater(nodes, env.Keys, z, k);
    ReferenceBinds(nodes, z, env, i, width, k, nodes[z].output[0]);
  }

  /** And misses it in the rewritten graph. */
  lemma MapIsMissing(nodes: seq<Node>, z: nat, env: map<Name, bool>, k: nat, i: nat, width: nat, x: Name)
    requires Capturer(nodes, env.Keys, z, k, i, width, x)
    ensures nodes[k].captured[i] !in Eval(Probe(i, width), Stripped(nodes, z), env, k - 1)
  {
    hide WellFormed, FirstZipMap, Wide, Eval, Outs, Probe;
    MapNeverBound(Probe(i, width), nodes, z, env, k - 1);
  }

  lemma CapturerValue(nodes: seq<Node>, z: nat, env: map<Name, bool>, k: nat, i: nat, width: nat, x: Name)
    requires Capturer(nodes, env.Keys, z, k, i, width, x)
    ensures Lookup(EvalAliased(Probe(i, width), nodes, z, env, k + 1), x) == Some(true)
    ensures Lookup(Eval(Probe(i, width), Stripped(nodes, z), env, k), x) == Some(false)
  {
    MapIsBound(nodes, z, env, k, i, width, x);
    MapIsMissing(nodes, z, env, k, i, width, x);
    CapturerStep(nodes, z, env, k, i, width, x);
    hide WellFormed, FirstZipMap, Eval, EvalAliased, Stripped, Probe, Outs, Lookup, Wide;
  }

  /** What one node binds differently is different at the end, too. */
  lemma DifferenceStays<V>(ops: Ops<V>, nodes: seq<Node>, z: nat, env: map<Name, V>, k: nat, x: Name)
    requires WellFormed(nodes, env.Keys) && FirstZipMap(nodes, z) && z < k < |nodes| && x in Outs(nodes[k])
    requires nodes[z].input != [] && nodes[z].output != [] && x != nodes[z].output[0]
    requires Lookup(EvalAliased(ops, nodes, z, env, k + 1), x) != Lookup(Eval(ops, Stripped(nodes, z), env, k), x)
    ensures !KeepsMeaning(ops, nodes, z, env)
  {
    hide WellFormed, FirstZipMap, Eval, EvalAliased, Stripped, Outs, Lookup;
    ValueStays(ops, nodes, z, env, k, |nodes|, x);
  }

  /** So a capture of the map by a node that binds something changes what the graph computes. */
  lemma CaptureChangesMeaning(nodes: seq<Node>, z: nat, env: map<Name, bool>) returns (ops: Ops<bool>)
    requires WellFormed(nodes, env.Keys) && FirstZipMap(nodes, z) && !Uncaptured(nodes, z)
    ensures |nodes[z].input| == 1 && |nodes[z].output| == 1 && !KeepsMeaning(ops, nodes, z, env)
  {
    ZipMapNames(nodes, env.Keys, z);
    hide WellFormed, FirstZipMap, KeepsMeaning, Probe;
    var m := nodes[z].output[0];
    var n :| n in nodes && CapturesMap(n, m);
    var k: nat :| k < |nodes| && nodes[k] == n;
    var i: nat :| i < |n.captured| && n.captured[i] == m;
    var x :| x in Outs(n);
    var width := WideEnough(nodes);
    CapturerIsLater(nodes, env.Keys, z, k);
    ops := Probe(i, width);
    CapturerValue(nodes, z, env, k, i, width, x);
    DifferenceStays(ops, nodes, z, env, k, x);
  }

  /** The exact condition: the rewrite keeps the meaning under all operators if and only if no node that
      binds something captures the map name in a subgraph. */
  lemma MeaningKeptExactly(nodes: seq<Node>, init: set<Name>, z: nat)
    requires WellFormed(nodes, init) && FirstZipMap(nodes, z)
    ensures |nodes[z].input| == 1 && |nodes[z].output| == 1
    ensures (forall ops: Ops<bool>, env: map<Name, bool> :: env.Keys == init ==> KeepsMeaning(ops, nodes, z, env)) <==> Uncaptured(nodes, z)
  {
    ZipMapNames(nodes, init, z);
    if Uncaptured(nodes, z) {
      forall ops: Ops<bool>, env: map<Name, bool> | env.Keys == init ensures KeepsMeaning(ops, nodes, z, env) {
        RewritePreservesMeaning(ops, Graph(nodes, []), z, env);
      }
    } else {
      var env := map x | x in init :: true;
      assert env.Keys == init;
      var ops := CaptureChangesMeaning(nodes, z, env);
    }
  }

  // ---------- names that do not depend on the map ----------

  predicate Reads(n: Node, x: Name) {
    x in n.input || x in n.captured
  }

  predicate ReadsAny(n: Node, names: set<Name>) {
    exists x :: x in names && Reads(n, x)
  }

  /** Names whose value may depend on the map: the map itself and everything computed from it. */
  function Tainted(nodes: seq<Node>, z: nat, k: nat): set<Name>
    requires k <= |nodes|
  {
    if k == 0 then {}
    else
      var before := Tainted(nodes, z, k - 1);
      if k - 1 == z || ReadsAny(nodes[k-1], before)
      then before + Outs(nodes[k-1]) else before
  }

  lemma SameStep<V>(ops: Ops<V>, nodes: seq<Node>, z: nat, env: map<Name, V>, k: nat)
    requires 0 < k <= z < |nodes| && nodes[z].input != [] && nodes[z].output != []
    requires nodes[z].output[0] !in nodes[k-1].input
    requires Eval(ops, Stripped(nodes, z), env, k - 1) == Eval(ops, nodes, env, k - 1)
    ensures Eval(ops, Stripped(nodes, z), env, k) == Eval(ops, nodes, env, k)
  {
    assert RenameAll(nodes[k-1].input, nodes[z].output[0], nodes[z].input[0]) == nodes[k-1].input;
    assert Stripped(nodes, z)[k-1] == Rewire(nodes[k-1], nodes[z].output[0], nodes[z].input[0]);
    hide Step;
  }

  /** A node before the ZipMap is not changed by the rewrite. */
  lemma {:induction false} SamePrefix<V>(ops: Ops<V>, nodes: seq<Node>, z: nat, env: map<Name, V>, k: nat)
    requires WellFormed(nodes, env.Keys) && FirstZipMap(nodes, z) && k <= z
    ensures |nodes[z].input| == 1 && |nodes[z].output| == 1
    ensures Eval(ops, Stripped(nodes, z), env, k) == Eval(ops, nodes, env, k)
    decreases k
  {
    ZipMapNames(nodes, env.Keys, z);
    if k > 0 {
      SamePrefix(ops, nodes, z, env, k - 1);
      OtherNodes(nodes, env.Keys, z, k - 1);
      hide Eval, Stripped;
      SameStep(ops, nodes, z, env, k);
    }
  }

  /** An untainted node reads and binds the same values on both sides. */
  lemma UntaintedStep<V>(ops: Ops<V>, n: Node, f: map<Name, V>, e: map<Name, V>, m: Name, raw: Name, x: Name)
    requires !Reads(n, m) && Lookup(f, x) == Lookup(e, x)
    requires forall y :: Reads(n, y) ==> Lookup(f, y) == Lookup(e, y)
    ensures Lookup(Step(ops, Rewire(n, m, raw), f), x) == Lookup(Step(ops, n, e), x)
  {
    assert Rewire(n, m, raw) == n;
    assert forall i :: 0 <= i < |n.input| ==> Reads(n, n.input[i]);
    assert forall i :: 0 <= i < |n.captured| ==> Reads(n, n.captured[i]);
    assert Lookups(f, n.input) == Lookups(e, n.input) && Lookups(f, n.captured) == Lookups(e, n.captured);
    BindAgrees(f, e, n.output, Results(ops, n, e), x);
  }

  /** At the ZipMap itself, only what it binds may differ. */
  lemma IndependentAt<V>(ops: Ops<V>, nodes: seq<Node>, z: nat, env: map<Name, V>, x: Name)
    requires WellFormed(nodes, env.Keys) && FirstZipMap(nodes, z) && x !in Tainted(nodes, z, z + 1)
    ensures |nodes[z].input| == 1 && |nodes[z].output| == 1
    ensures Lookup(Eval(ops, Stripped(nodes, z), env, z), x) == Lookup(Eval(ops, nodes, env, z + 1), x)
  {
    SamePrefix(ops, nodes, z, env, z);
    hide WellFormed, FirstZipMap, Stripped;
    UnnamedBind(ops, nodes[z], Eval(ops, nodes, env, z), x);
  }

  lemma {:induction false} IndependentAgree<V>(ops: Ops<V>, nodes: seq<Node>, z: nat, env: map<Name, V>, k: nat, x: Name)
    requires WellFormed(nodes, env.Keys) && FirstZipMap(nodes, z) && z < k <= |nodes| && x !in Tainted(nodes, z, k)
    ensures |nodes[z].input| == 1 && |nodes[z].output| == 1
    ensures Lookup(Eval(ops, Stripped(nodes, z), env, k - 1), x) == Lookup(Eval(ops, nodes, env, k), x)
    decreases k
  {
    ZipMapNames(nodes, env.Keys, z);
    hide Eval, Stripped, Lookup, Tainted;
    if k - 1 == z {
      IndependentAt(ops, nodes, z, env, x);
    } else {
      TaintedHasMap(nodes, z, k - 1);
      assert AgreeOutside(Eval(ops, Stripped(nodes, z), env, k - 2), Eval(ops, nodes, env, k - 1), Tainted(nodes, z, k - 1)) by {
        var f, e, tainted := Eval(ops, Stripped(nodes, z), env, k - 2), Eval(ops, nodes, env, k - 1), Tainted(nodes, z, k - 1);
        forall y | y !in tainted ensures Lookup(f, y) == Lookup(e, y) {
          IndependentAgree(ops, nodes, z, env, k - 1, y);
        }
      }
      IndependentStep(ops, nodes, z, env, k, x);
    }
  }

  ghost predicate AgreeOutside<V>(f: map<Name, V>, e: map<Name, V>, names: set<Name>) {
    forall y :: y !in names ==> Lookup(f, y) == Lookup(e, y)
  }

  /** One node after the ZipMap. */
  lemma IndependentStep<V>(ops: Ops<V>, nodes: seq<Node>, z: nat, env: map<Name, V>, k: nat, x: Name)
    requires z < k - 1 < |nodes| && nodes[z].input != [] && nodes[z].output != []
    requires nodes[z].output[0] in Tainted(nodes, z, k - 1) && x !in Tainted(nodes, z, k)
    requires AgreeOutside(Eval(ops, Stripped(nodes, z), env, k - 2), Eval(ops, nodes, env, k - 1), Tainted(nodes, z, k - 1))
    ensures Lookup(Eval(ops, Stripped(nodes, z), env, k - 1), x) == Lookup(Eval(ops, nodes, env, k), x)
  {
    var n, rw, raw, m := nodes[k-1], Stripped(nodes, z), nodes[z].input[0], nodes[z].output[0];
    var f, e := Eval(ops, rw, env, k - 2), Eval(ops, nodes, env, k - 1);
    assert rw[k-2] == Rewire(n, m, raw);
    if ReadsAny(n, Tainted(nodes, z, k - 1)) {
      assert Outs(rw[k-2]) == Outs(n);
      UnnamedBind(ops, n, e, x);
      UnnamedBind(ops, rw[k-2], f, x);
    } else {
      UntaintedStep(ops, n, f, e, m, raw, x);
    }
  }

  lemma UnnamedBind<V>(ops: Ops<V>, n: Node, env: map<Name, V>, x: Name)
    requires x !in Outs(n)
    ensures Lookup(Step(ops, n, env), x) == Lookup(env, x)
  {
    BindKeepsUnnamed(env, n.output, Results(ops, n, env), x);
  }

  lemma {:induction false} BindKeepsUnnamed<V>(env: map<Name, V>, names: seq<Name>, vals: seq<V>, x: Name)
    requires x in names ==> x == ""
    ensures Lookup(Bind(env, names, vals), x) == Lookup(env, x)
    decreases names
  {
    if names != [] && vals != [] {
      BindKeepsUnnamed(if names[0] == "" then env else env[names[0] := vals[0]], names[1..], vals[1..], x);
    }
  }

  /** Whatever ZipMap itself computes, captured or not: every name that does not depend on the map keeps
      the value the original graph really gives it. */
  lemma RewriteKeepsIndependentValues<V>(ops: Ops<V>, nodes: seq<Node>, z: nat, env: map<Name, V>, x: Name)
    requires WellFormed(nodes, env.Keys) && FirstZipMap(nodes, z) && x !in Tainted(nodes, z, |nodes|)
    ensures |nodes[z].input| == 1 && |nodes[z].output| == 1
    ensures Lookup(Eval(ops, Stripped(nodes, z), env, |nodes| - 1), x) == Lookup(Eval(ops, nodes, env, |nodes|), x)
  {
    IndependentAgree(ops, nodes, z, env, |nodes|, x);
  }

  lemma {:induction false} TaintedHasMap(nodes: seq<Node>, z: nat, k: nat)
    requires z < k <= |nodes| && nodes[z].output != [] && nodes[z].output[0] != ""
    ensures nodes[z].output[0] in Tainted(nodes, z, k)
    decreases k
  {
    if k - 1 > z { TaintedHasMap(nodes, z, k - 1); }
  }

  /** When no node reads the map (a terminal ZipMap), only the map itself depends on it. */
  lemma {:induction false} TerminalZipMapTaintsOnlyItself(nodes: seq<Node>, z: nat, k: nat)
    requires z < |nodes| && |nodes[z].output| == 1 && k <= |nodes|
    requires forall n :: n in nodes ==> !Reads(n, nodes[z].output[0])
    ensures Tainted(nodes, z, k) <= {nodes[z].output[0]}
    decreases k
  {
    if k > 0 {
      TerminalZipMapTaintsOnlyItself(nodes, z, k - 1);
      assert nodes[k-1] in nodes;
    }
  }

  // ---------- the protobuf objects and the method ----------

  lemma RewiredIsStripped(g: Graph, z: nat, rewired: Graph)
    requires z < |g.nodes| && g.nodes[z].input != [] && g.nodes[z].output != []
    requires |rewired.nodes| == |g.nodes| && |rewired.outputs| == |g.outputs|
    requires forall i :: 0 <= i < |g.nodes| ==> rewired.nodes[i] == Rewire(g.nodes[i], g.nodes[z].output[0], g.nodes[z].input[0])
    requires forall i :: 0 <= i < |g.outputs| ==>
               rewired.outputs[i] == RewireOutput(g.outputs[i], g.nodes[z].output[0], g.nodes[z].input[0])
    requires FirstZipMap(g.nodes, z)
    ensures forall i :: 0 <= i < z ==> rewired.nodes[i].opType != rewired.nodes[z].opType
    ensures rewired.nodes[..z] + rewired.nodes[z+1..] == Stripped(g.nodes, z) && rewired.outputs == StrippedOutputs(g, z)
  {
  }

  class NodeProto {
    var opType: string
    var attrs: string
    var captured: seq<Name>
    var input: seq<Name>
    var output: seq<Name>

    constructor (opType: string, attrs: string, captured: seq<Name>, input: seq<Name>, output: seq<Name>)
      ensures Value() == Node(opType, attrs, captured, input, output)
    {
      this.opType, this.attrs, this.captured, this.input, this.output := opType, attrs, captured, input, output;
    }

    function Value(): Node
      reads this
    {
      Node(opType, attrs, captured, input, output)
    }

    /** The inner loop: every input equal to `old_` becomes `new_`. */
    method RewireInputs(old_: Name, new_: Name)
      modifies this`input
      ensures Value() == Rewire(old(Value()), old_, new_)
    {
      var i := 0;
      while i < |input|
        invariant 0 <= i <= |input| == |old(input)|
        invariant forall j :: 0 <= j < i ==> input[j] == Rename(old(input)[j], old_, new_)
        invariant forall j :: i <= j < |input| ==> input[j] == old(input)[j]
      {
        if input[i] == old_ {
          input := input[i := new_];
        }
        i := i + 1;
      }
      assert input == RenameAll(old(input), old_, new_);
    }
  }

  class ValueInfoProto {
    var name: Name
    var ty: TypeInfo

    constructor (name: Name, ty: TypeInfo)
      ensures Value() == ValueInfo(name, ty)
    {
      this.name, this.ty := name, ty;
    }

    function Value(): ValueInfo
      reads this
    {
      ValueInfo(name, ty)
    }
  }

  class GraphProto {
    var node: seq<NodeProto>
    var output: seq<ValueInfoProto>

    /** Repeated message fields own their elements, so no element occurs twice. */
    ghost predicate Valid()
      reads this
    {
      && (forall i, j :: 0 <= i < j < |node| ==> node[i] != node[j])
      && (forall i, j :: 0 <= i < j < |output| ==> output[i] != output[j])
    }

    function Value(): Graph
      reads this, node, output
    {
      Graph(seq(|node|, i requires 0 <= i < |node| reads this, node => node[i].Value()),
            seq(|output|, i requires 0 <= i < |output| reads this, output => output[i].Value()))
    }

    /** `_remove_zipmap`: no ZipMap leaves the graph alone; a ZipMap without an input or output
        name raises before anything is written; otherwise the first ZipMap is stripped. */
    method RemoveZipMap() returns (ok: bool)
      requires Valid()
      modifies this`node, node, output
      ensures Valid() && output == old(output)
      ensures (forall n :: n in old(Value()).nodes ==> n.opType != "ZipMap") ==> ok && Value() == old(Value())
      ensures forall z: nat :: FirstZipMap(old(Value()).nodes, z) ==>
                var g := old(Value());
                if g.nodes[z].input == [] || g.nodes[z].output == [] then !ok && Value() == g
                else ok && Value() == Graph(Stripped(g.nodes, z), StrippedOutputs(g, z))
    {
      var z := FindZipMap();
      assert forall y: nat :: FirstZipMap(Value().nodes, y) ==> y == z;
      if z == |node| {
        return true;
      }
      if |node[z].input| == 0 || |node[z].output| == 0 {
        return false;
      }
      StripZipMap(z);
      ok := true;
    }

    /** The writes, in the source's order: node inputs, graph outputs, then the removal. */
    method StripZipMap(z: nat)
      requires Valid() && FirstZipMap(Value().nodes, z) && node[z].input != [] && node[z].output != []
      modifies this`node, node, output
      ensures Valid() && output == old(output)
      ensures var g := old(Value()); Value() == Graph(Stripped(g.nodes, z), StrippedOutputs(g, z))
    {
      ghost var g := Value();
      var raw, m := node[z].input[0], node[z].output[0];
      RewireNodes(m, raw);
      RewireOutputs(m, raw);
      ghost var rewired := Value();
      RewiredIsStripped(g, z, rewired);
      hide Stripped, StrippedOutputs, FirstZipMap, RewireOutput;
      assert forall i :: 0 <= i < |node| ==> rewired.nodes[i] == node[i].Value();
      RemoveZipMapAt(z);
    }

    /** The removal, once the names are rewired. */
    method RemoveZipMapAt(z: nat)
      requires Valid() && z < |node| && forall i :: 0 <= i < z ==> node[i].opType != node[z].opType
      modifies this`node
      ensures Valid() && output == old(output)
      ensures var g := old(Value()); Value() == Graph(g.nodes[..z] + g.nodes[z+1..], g.outputs)
    {
      ghost var g := Value();
      RemoveEqual(node[z].Value(), z);
      assert Value().nodes == g.nodes[..z] + g.nodes[z+1..];
      assert Value().outputs == g.outputs;
    }

    /** The position of the first ZipMap, or the number of nodes. */
    method FindZipMap() returns (z: nat)
      ensures z <= |node| && (z < |node| ==> FirstZipMap(Value().nodes, z) && Value().nodes[z] == node[z].Value())
      ensures z < |node| ==> node[z].opType == "ZipMap" && forall i :: 0 <= i < z ==> node[i].opType != "ZipMap"
      ensures z == |node| ==> forall n :: n in Value().nodes ==> n.opType != "ZipMap"
    {
      ghost var nodes := Value().nodes;
      z := 0;
      while z < |node| && node[z].opType != ZIP_MAP
        invariant 0 <= z <= |node|
        invariant forall i :: 0 <= i < z ==> node[i].opType != ZIP_MAP && nodes[i].opType != ZIP_MAP
      {
        assert nodes[z] == node[z].Value();
        z := z + 1;
      }
    }

    method RewireNodes(m: Name, raw: Name)
      requires Valid()
      modifies node
      ensures Valid()
      ensures forall i :: 0 <= i < |node| ==> node[i].Value() == Rewire(old(node[i].Value()), m, raw)
    {
      var i := 0;
      while i < |node|
        invariant 0 <= i <= |node|
        invariant forall j :: 0 <= j < i ==> node[j].Value() == Rewire(old(node[j].Value()), m, raw)
        invariant forall j :: i <= j < |node| ==> node[j].Value() == old(node[j].Value())
      {
        node[i].RewireInputs(m, raw);
        i := i + 1;
      }
    }

    method RewireOutputs(m: Name, raw: Name)
      requires Valid()
      modifies output
      ensures Valid()
      ensures forall i :: 0 <= i < |output| ==> output[i].Value() == RewireOutput(old(output[i].Value()), m, raw)
    {
      var i := 0;
      while i < |output|
        invariant 0 <= i <= |output|
        invariant forall j :: 0 <= j < i ==> output[j].Value() == RewireOutput(old(output[j].Value()), m, raw)
        invariant forall j :: i <= j < |output| ==> output[j].Value() == old(output[j].Value())
      {
        if output[i].name == m {
          output[i].name := raw;
          output[i].ty := RawProbabilities;
        }
        i := i + 1;
      }
    }

    /** `graph.node.remove(zipmap)` deletes the first node EQUAL to its argument; no node before
        the first ZipMap can equal it, so it deletes position z. */
    method RemoveEqual(target: Node, ghost z: nat)
      requires Valid() && z < |node| && node[z].Value() == target
      requires forall i :: 0 <= i < z ==> node[i].opType != target.opType
      modifies this`node
      ensures Valid() && node == old(node[..z] + node[z+1..])
    {
      var i := 0;
      while node[i].Value() != target
        invariant 0 <= i <= z
        decreases z - i
      {
        i := i + 1;
      }
      node := node[..i] + node[i+1..];
    }
  }
}
