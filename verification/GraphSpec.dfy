// Computation graphs as the graph allocator sees them: who reads whom, through which views,
// and when a tensor is read for the last time.
module GraphSpec {

  datatype Option<T> = None | Some(value: T)

  datatype Op =
    | NoOp
    | Fill | Scale | DiagMaskZero | DiagMaskInf | Add | AddId | Add1 | Sub | Mul | Div | Sqr | Sqrt | Log
    | Unary | Rope | RopeBack | SiluBack | RmsNorm | RmsNormBack | SoftMax | SoftMaxBack
    | OtherOp

  predicate CanInplace(op: Op) { !op.NoOp? && !op.OtherOp? }

  // src lists the sources that are not null, in order; external says that the data or the buffer
  // was set before; layout stands for type, shape and strides.
  datatype Tensor = Tensor(op: Op, src: seq<nat>, viewSrc: Option<nat>, input: bool, output: bool,
                           external: bool, layout: nat)

  datatype Graph = Graph(tensors: seq<Tensor>, nodes: seq<nat>, leafs: seq<nat>)

  predicate IsView(g: Graph, t: nat)
    requires t < |g.tensors|
  {
    g.tensors[t].viewSrc.Some?
  }

  // the tensor whose memory t uses
  function Root(g: Graph, t: nat): nat
    requires t < |g.tensors|
  {
    if g.tensors[t].viewSrc.Some? then g.tensors[t].viewSrc.value else t
  }

  // t, or the tensor it is a view of, is a graph output
  predicate OutputBehind(g: Graph, t: nat)
    requires t < |g.tensors| && Root(g, t) < |g.tensors|
  {
    g.tensors[t].output || (IsView(g, t) && g.tensors[Root(g, t)].output)
  }

  predicate InRange(g: Graph) {
    && (forall i :: 0 <= i < |g.nodes| ==> g.nodes[i] < |g.tensors|)
    && (forall i :: 0 <= i < |g.leafs| ==> g.leafs[i] < |g.tensors|)
    && (forall t :: 0 <= t < |g.tensors| ==> Root(g, t) < |g.tensors|)
    && (forall t, j :: 0 <= t < |g.tensors| && 0 <= j < |g.tensors[t].src| ==> g.tensors[t].src[j] < |g.tensors|)
  }

  function Src(g: Graph, i: nat): seq<nat>
    requires InRange(g) && i < |g.nodes|
  {
    g.tensors[g.nodes[i]].src
  }

  // the memory of t is managed by the allocator
  predicate Managed(g: Graph, t: nat)
    requires t < |g.tensors|
  {
    !IsView(g, t) && !g.tensors[t].external
  }

  // nodes come after what they read, and after what they or their sources are views of
  predicate Ordered(g: Graph)
    requires InRange(g)
  {
    && (forall i, s, k :: 0 <= i < |g.nodes| && s in Src(g, i) && 0 <= k < |g.nodes| && g.nodes[k] == s ==> k < i)
    && (forall i, s :: 0 <= i < |g.nodes| && s in Src(g, i) && IsView(g, s) ==> Behind(g, i, Root(g, s)))
    && (forall i :: 0 <= i < |g.nodes| && IsView(g, g.nodes[i]) ==> Behind(g, i, Root(g, g.nodes[i])))
  }

  predicate Behind(g: Graph, i: nat, r: nat)
    requires InRange(g) && i <= |g.nodes| && r < |g.tensors|
  {
    g.tensors[r].external || r in g.leafs || r in g.nodes[..i]
  }

  predicate WellFormed(g: Graph) {
    && InRange(g)
    && (forall i, k :: 0 <= i < k < |g.nodes| ==> g.nodes[i] != g.nodes[k])
    && (forall t :: t in g.leafs ==> t !in g.nodes)
    && Ordered(g)
    // what a view looks into is not a view
    && (forall t :: 0 <= t < |g.tensors| ==> !IsView(g, Root(g, t)))
    // leafs, inputs and sources that are not nodes carry no operation
    && (forall t :: t in g.leafs ==> g.tensors[t].op.NoOp?)
    && (forall t :: 0 <= t < |g.tensors| && g.tensors[t].input ==> g.tensors[t].op.NoOp?)
    && (forall i, s :: 0 <= i < |g.nodes| && s in Src(g, i) && Managed(g, s) && s !in g.nodes ==> g.tensors[s].op.NoOp?)
    // a view that is read is a node with an operation, or looks into external memory
    && (forall i, s :: 0 <= i < |g.nodes| && s in Src(g, i) && IsView(g, s) ==>
          g.tensors[Root(g, s)].external || (s in g.nodes && !g.tensors[s].op.NoOp?))
  }

  // how often nodes i, i+1, ... read t
  function UsesFrom(g: Graph, i: nat, t: nat): nat
    requires InRange(g) && i <= |g.nodes|
    decreases |g.nodes| - i
  {
    if i == |g.nodes| then 0 else multiset(Src(g, i))[t] + UsesFrom(g, i + 1, t)
  }

  // some node from i on reads t, directly or through a view
  ghost predicate Needed(g: Graph, i: nat, t: nat)
    requires InRange(g)
  {
    exists k, s :: i <= k < |g.nodes| && s in Src(g, k) && Root(g, s) == t
  }

  lemma {:induction false} UsesPositive(g: Graph, i: nat, k: nat, t: nat)
    requires InRange(g) && i <= k < |g.nodes| && t in Src(g, k)
    ensures UsesFrom(g, i, t) > 0
    decreases k - i
  {
    if i < k { UsesPositive(g, i + 1, k, t); }
  }

  lemma {:induction false} UsesMonotone(g: Graph, i: nat, k: nat, t: nat)
    requires InRange(g) && i <= k <= |g.nodes|
    ensures UsesFrom(g, k, t) <= UsesFrom(g, i, t)
    decreases k - i
  {
    if i < k { UsesMonotone(g, i + 1, k, t); }
  }

  lemma {:induction false} UsesWitness(g: Graph, i: nat, t: nat)
    requires InRange(g) && i <= |g.nodes| && UsesFrom(g, i, t) > 0
    ensures exists k :: i <= k < |g.nodes| && t in Src(g, k)
    decreases |g.nodes| - i
  {
    if multiset(Src(g, i))[t] == 0 { UsesWitness(g, i + 1, t); }
  }

  // Tensors that own memory when node i is computed: leafs, inputs, earlier nodes and what
  // nodes up to i read.
  ghost predicate Held(g: Graph, i: nat, t: nat)
    requires InRange(g) && i <= |g.nodes|
  {
    || t in g.leafs
    || t in g.nodes[..i]
    || (exists m :: 0 <= m <= i && m < |g.nodes| && t in Src(g, m))
    || IsInput(g, t)
  }

  ghost predicate IsInput(g: Graph, t: nat)
    requires InRange(g)
  {
    t < |g.tensors| && g.tensors[t].input && (t in g.nodes || exists m :: 0 <= m < |g.nodes| && t in Src(g, m))
  }

  predicate Computes(g: Graph, i: nat)
    requires InRange(g) && i < |g.nodes|
  {
    !g.tensors[g.nodes[i]].op.NoOp?
  }
}
