/** The GradTensor graph of grad.c over an index-based node store: each node
    holds a value tensor, a gradient tensor and the op that produced it, and
    the ops of ops.c refer to other nodes by index.  op_fwd and op_bwd run
    the handlers of an op on the store's buffers. */
module Graph {
  import opened Common
  import opened Shapes
  import opened Tensors
  import opened Lanes
  import opened Kernels
  import opened TensorOps
  import opened Backward
  import opened Ops

  /** A GradTensor: its value, its gradient, and the op that produced it
      (whose destination is the node itself). */
  datatype Node = Node(tens: Tensor, grad: Tensor, op: Op)

  /** Every value and gradient is a well-formed tensor, each gradient has
      its node's shape, and no two of the buffers are the same array. */
  ghost predicate Buffered(nodes: seq<Node>)
  {
    (forall k :: 0 <= k < |nodes| ==>
      nodes[k].tens.Valid() && nodes[k].grad.Valid() && nodes[k].grad.shape == nodes[k].tens.shape)
    && (forall i, j :: 0 <= i < |nodes| && 0 <= j < |nodes| ==> nodes[i].grad.data != nodes[j].tens.data)
    && (forall i, j :: 0 <= i < |nodes| && 0 <= j < |nodes| && i != j ==>
          nodes[i].tens.data != nodes[j].tens.data && nodes[i].grad.data != nodes[j].grad.data)
  }

  /** Every link of every op names a node of the store. */
  ghost predicate Linked(nodes: seq<Node>)
  {
    forall k :: 0 <= k < |nodes| ==>
      (forall i :: 0 <= i < |Sources(nodes[k].op)| ==> Sources(nodes[k].op)[i] < |nodes|)
      && (Dst(nodes[k].op).Some? ==> Dst(nodes[k].op).value < |nodes|)
  }

  /** Node `k` is as the builders make it: its op is owned by it, a relu
      node has its source's shape and an add node the broadcast shape of
      its two sources. */
  ghost predicate Formed(nodes: seq<Node>, k: nat)
    requires k < |nodes|
  {
    OwnedBy(nodes[k].op, k)
    && match nodes[k].op
       case Mono(fn, src, _) =>
         fn.ReluFn? ==> src.Some? && src.value < k && nodes[src.value].tens.shape == nodes[k].tens.shape
       case Binary(_, s1, s2, _) =>
         s1 < k && s2 < k && |nodes[s1].tens.shape| == Rank && |nodes[s2].tens.shape| == Rank
         && AddShape(nodes[s1].tens.shape, nodes[s2].tens.shape) == Ok(nodes[k].tens.shape)
  }

  /** A store the builders produce. */
  ghost predicate Built(nodes: seq<Node>)
  {
    Buffered(nodes) && forall k :: 0 <= k < |nodes| ==> Formed(nodes, k)
  }

  /** A built store's links stay inside it. */
  lemma BuiltLinked(nodes: seq<Node>)
    requires Built(nodes)
    ensures Linked(nodes)
  {
    forall k | 0 <= k < |nodes|
      ensures (forall i :: 0 <= i < |Sources(nodes[k].op)| ==> Sources(nodes[k].op)[i] < |nodes|)
      ensures Dst(nodes[k].op).Some? ==> Dst(nodes[k].op).value < |nodes|
    {
      assert Formed(nodes, k);
    }
  }

  /** Appending a node with well-formed tensors in buffers of its own keeps
      the buffers apart. */
  lemma BufferedExtend(nodes: seq<Node>, n: Node)
    requires Buffered(nodes)
    requires n.tens.Valid() && n.grad.Valid() && n.grad.shape == n.tens.shape && n.tens.data != n.grad.data
    requires forall j :: 0 <= j < |nodes| ==>
      n.tens.data != nodes[j].tens.data && n.tens.data != nodes[j].grad.data
      && n.grad.data != nodes[j].tens.data && n.grad.data != nodes[j].grad.data
    ensures Buffered(nodes + [n])
  {
    var ext := nodes + [n];
    assert forall j :: 0 <= j < |nodes| ==> ext[j] == nodes[j];
  }

  /** Appending a leaf keeps every link inside the store. */
  lemma LinkedExtend(nodes: seq<Node>, n: Node)
    requires Linked(nodes) && n.op == NopOp
    ensures Linked(nodes + [n])
  {
    var ext := nodes + [n];
    assert forall j :: 0 <= j < |nodes| ==> ext[j] == nodes[j];
  }

  /** Appending a formed node to a built store keeps it built. */
  lemma BuiltExtend(nodes: seq<Node>, n: Node)
    requires Built(nodes) && Buffered(nodes + [n]) && Formed(nodes + [n], |nodes|)
    ensures Built(nodes + [n])
  {
    var ext := nodes + [n];
    forall k | 0 <= k < |ext|
      ensures Formed(ext, k)
    {
      if k < |nodes| {
        assert Formed(nodes, k);
        assert ext[k] == nodes[k];
        match nodes[k].op
        case Mono(fn, src, _) =>
          if fn.ReluFn? {
            assert ext[src.value] == nodes[src.value];
          }
        case Binary(_, s1, s2, _) =>
          assert ext[s1] == nodes[s1] && ext[s2] == nodes[s2];
      }
    }
  }

  /** A chain of source links: each node of `p` is a source of the one
      before it. */
  ghost predicate Path(nodes: seq<Node>, p: seq<nat>)
  {
    (forall i :: 0 <= i < |p| ==> p[i] < |nodes|)
    && (forall i :: 0 <= i < |p| - 1 ==> p[i] < |nodes| && p[i + 1] in Sources(nodes[p[i]].op))
  }

  /** Along a chain of source links in a built store the indices strictly
      decrease, so a chain from node `k` has at most `k + 1` nodes and ends
      at an older node. */
  lemma {:induction false} PathDescends(nodes: seq<Node>, p: seq<nat>)
    requires Built(nodes) && Path(nodes, p) && |p| >= 2
    ensures p[|p| - 1] + (|p| - 1) <= p[0]
  {
    assert Formed(nodes, p[0]);
    assert p[1] in Sources(nodes[p[0]].op);
    assert p[1] < p[0];
    if |p| > 2 {
      var rest := p[1..];
      assert Path(nodes, rest) by {
        forall i | 0 <= i < |rest| - 1
          ensures rest[i] < |nodes| && rest[i + 1] in Sources(nodes[rest[i]].op)
        {
          assert rest[i] == p[i + 1] && rest[i + 1] == p[i + 2];
        }
      }
      PathDescends(nodes, rest);
    }
  }

  /** No chain of source links returns to where it started: the graph the
      builders make is acyclic. */
  lemma NoCycle(nodes: seq<Node>, p: seq<nat>)
    requires Built(nodes) && Path(nodes, p) && |p| >= 2
    ensures p[|p| - 1] != p[0]
  {
    PathDescends(nodes, p);
  }

  /** add_bwd of a node added to itself: the two gradients are one buffer
      and the second copy overwrites the first, so the node's gradient is the
      incoming gradient once, not twice. */
  lemma SelfAddGradient(inGrad: seq<real>, s: seq<nat>)
    requires |s| == Rank
    ensures ReduceAxes(inGrad, s, Narrower(s, s), Rank) == inGrad
  {
    ReduceNoAxes(inGrad, s, Narrower(s, s), Rank);
  }

  /** The node store of the graph. */
  class NodeStore {
    var nodes: seq<Node>

    ghost predicate Valid()
      reads this
    {
      Buffered(nodes) && Linked(nodes)
    }

    /** The value buffers an op's forward writes. */
    ghost function FwdBuffers(op: Op): set<array<real>>
      reads this
    {
      set j | j in FwdWrites(op) && j < |nodes| :: nodes[j].tens.data
    }

    /** The gradient buffers an op's backward writes. */
    ghost function BwdBuffers(op: Op): set<array<real>>
      reads this
    {
      set j | j in BwdWrites(op) && j < |nodes| :: nodes[j].grad.data
    }

    constructor ()
      ensures Valid() && Built(nodes) && nodes == []
    {
      nodes := [];
    }

    /** op_set_nop on the op of node `k`. */
    method OpSetNop(k: nat)
      requires Valid() && k < |nodes|
      modifies this
      ensures Valid()
      ensures nodes == old(nodes)[k := old(nodes)[k].(op := NopOp)]
    {
      nodes := nodes[k := nodes[k].(op := NopOp)];
    }

    /** op_set_relu on the op of node `k`. */
    method OpSetRelu(k: nat, src: nat, dst: nat)
      requires Valid() && k < |nodes| && src < |nodes| && dst < |nodes|
      modifies this
      ensures Valid()
      ensures nodes == old(nodes)[k := old(nodes)[k].(op := Mono(ReluFn, Some(src), Some(dst)))]
    {
      nodes := nodes[k := nodes[k].(op := Mono(ReluFn, Some(src), Some(dst)))];
    }

    /** op_set_add on the op of node `k`. */
    method OpSetAdd(k: nat, src1: nat, src2: nat, dst: nat)
      requires Valid() && k < |nodes| && src1 < |nodes| && src2 < |nodes| && dst < |nodes|
      modifies this
      ensures Valid()
      ensures nodes == old(nodes)[k := old(nodes)[k].(op := Binary(AddFn, src1, src2, dst))]
    {
      nodes := nodes[k := nodes[k].(op := Binary(AddFn, src1, src2, dst))];
    }

    /** op_fwd for the op of node `k`: a relu node's value becomes the relu
        of its source's value; an add node runs the add kernel as it stands,
        so the positions at or below its cut get the broadcast sum of the
        sources' values and the rest keep their values; a leaf is left
        alone; nothing else changes. */
    method OpFwd(k: nat)
      requires Valid() && Built(nodes) && k < |nodes| && Formed(nodes, k)
      modifies FwdBuffers(nodes[k].op)
      ensures forall j :: 0 <= j < |nodes| && j !in FwdWrites(nodes[k].op) ==>
        nodes[j].tens.data[..] == old(nodes[j].tens.data[..])
      ensures forall j :: 0 <= j < |nodes| ==> nodes[j].grad.data[..] == old(nodes[j].grad.data[..])
      ensures nodes[k].op.Mono? && nodes[k].op.monoFn.ReluFn? ==>
        forall i :: 0 <= i < nodes[k].tens.data.Length ==>
          nodes[k].tens.data[i] == Relu(nodes[nodes[k].op.src.value].tens.data[i])
      ensures nodes[k].op.Binary? ==>
        forall p :: 0 <= p < nodes[k].tens.data.Length ==>
          nodes[k].tens.data[p] ==
            if Unravel(p, nodes[k].tens.shape)[3] <= AddCut(nodes[nodes[k].op.src1].tens.shape,
                                                           nodes[nodes[k].op.src2].tens.shape, nodes[k].tens.shape)
            then SumAt(nodes[nodes[k].op.src1].tens.data[..], nodes[nodes[k].op.src1].tens.shape,
                       nodes[nodes[k].op.src2].tens.data[..], nodes[nodes[k].op.src2].tens.shape,
                       Unravel(p, nodes[k].tens.shape))
            else old(nodes[k].tens.data[p])
    {
      assert Formed(nodes, k);
      match nodes[k].op
      case Mono(fn, src, dst) =>
        if fn.ReluFn? {
          assert FwdBuffers(nodes[k].op) == {nodes[k].tens.data};
          KernelRelu(nodes[src.value].tens, nodes[k].tens);
        }
      case Binary(_, s1, s2, dst) =>
        assert FwdBuffers(nodes[k].op) == {nodes[k].tens.data};
        AddShapeSpec(nodes[s1].tens.shape, nodes[s2].tens.shape);
        KernelAdd(nodes[s1].tens, nodes[s2].tens, nodes[k].tens);
    }

    /** op_bwd for the op of node `k`: a relu node's source gradient becomes
        the incoming gradient where the source is positive and 0 elsewhere;
        an add node's source gradients are overwritten with the incoming
        gradient summed over the axes each source was broadcast along (for
        a node added to itself, the second write wins); a leaf is left
        alone; nothing else changes.  The add needs operands with no empty
        axis, since the copy reads as many elements as the operand has. */
    method OpBwd(k: nat)
      requires Valid() && Built(nodes) && k < |nodes| && Formed(nodes, k)
      requires nodes[k].op.Binary? && nodes[k].op.src1 < |nodes| && nodes[k].op.src2 < |nodes| ==>
        forall i :: 0 <= i < |nodes[nodes[k].op.src1].tens.shape| && i < |nodes[nodes[k].op.src2].tens.shape| ==>
          nodes[nodes[k].op.src1].tens.shape[i] > 0 && nodes[nodes[k].op.src2].tens.shape[i] > 0
      modifies BwdBuffers(nodes[k].op)
      ensures forall j :: 0 <= j < |nodes| ==> nodes[j].tens.data[..] == old(nodes[j].tens.data[..])
      ensures forall j :: 0 <= j < |nodes| && j !in BwdWrites(nodes[k].op) ==>
        nodes[j].grad.data[..] == old(nodes[j].grad.data[..])
      ensures nodes[k].op.Mono? && nodes[k].op.monoFn.ReluFn? ==>
        var s := nodes[k].op.src.value;
        forall i :: 0 <= i < nodes[s].grad.data.Length ==>
          nodes[s].grad.data[i] == ReluGrad(nodes[s].tens.data[i], nodes[k].grad.data[i])
      ensures nodes[k].op.Binary? ==>
        var s1, s2 := nodes[k].op.src1, nodes[k].op.src2;
        nodes[s2].grad.data[..] ==
          ReduceAxes(nodes[k].grad.data[..], nodes[k].grad.shape, Narrower(nodes[s2].grad.shape, nodes[s1].grad.shape), Rank)
      ensures nodes[k].op.Binary? && nodes[k].op.src1 != nodes[k].op.src2 ==>
        var s1, s2 := nodes[k].op.src1, nodes[k].op.src2;
        nodes[s1].grad.data[..] ==
          ReduceAxes(nodes[k].grad.data[..], nodes[k].grad.shape, Narrower(nodes[s1].grad.shape, nodes[s2].grad.shape), Rank)
    {
      assert Formed(nodes, k);
      match nodes[k].op
      case Mono(fn, src, dst) =>
        if fn.ReluFn? {
          assert Sources(nodes[k].op)[0] == src.value;
          assert BwdBuffers(nodes[k].op) == {nodes[src.value].grad.data};
          KernelReluBwd(nodes[src.value].tens, nodes[src.value].grad, nodes[k].grad);
        }
      case Binary(_, s1, s2, dst) =>
        var a, b, r := nodes[s1].grad, nodes[s2].grad, nodes[k].grad;
        assert Sources(nodes[k].op)[0] == s1 && Sources(nodes[k].op)[1] == s2;
        assert BwdBuffers(nodes[k].op) == {a.data, b.data};
        AddBwdShapes(a.shape, b.shape, r.shape);
        KernelAddBwd(a, b, r);
        assert b.data[..] == b.data[..b.dataLen];
        assert a.data[..] == a.data[..a.dataLen];
    }

    /** create_gradt: `null` for more than four extents; otherwise a new
        leaf node whose value and gradient are fresh tensors of the aligned
        shape. */
    method CreateGradt(dims: seq<nat>) returns (k: Option<nat>)
      requires Valid()
      modifies this
      ensures Valid()
      ensures k.None? <==> |dims| > Rank
      ensures k.None? ==> nodes == old(nodes)
      ensures k.Some? ==> k.value == |old(nodes)| && |nodes| == k.value + 1 && nodes[..k.value] == old(nodes)
      ensures k.Some? ==> nodes[k.value].op == NopOp && nodes[k.value].tens.shape == AlignShape(dims)
      ensures k.Some? ==> fresh(nodes[k.value].tens.data) && fresh(nodes[k.value].grad.data)
      ensures Built(old(nodes)) ==> Built(nodes)
    {
      if |dims| > Rank {
        return None;
      }
      var tens := TensorCreate(dims);
      var grad := TensorCreate(dims);
      ghost var prior := nodes;
      var n := Node(tens, grad, NopOp);
      BufferedExtend(nodes, n);
      LinkedExtend(nodes, n);
      k := Some(|nodes|);
      nodes := nodes + [n];
      if Built(prior) {
        BuiltExtend(prior, n);
      }
    }

    /** create_gradt_from_tens: a new leaf node whose value is the given
        tensor itself and whose gradient is a fresh tensor of its shape. */
    method CreateGradtFromTens(t: Tensor) returns (k: nat)
      requires Valid() && t.Valid()
      requires forall j :: 0 <= j < |nodes| ==> t.data != nodes[j].tens.data && t.data != nodes[j].grad.data
      modifies this
      ensures Valid()
      ensures k == |old(nodes)| && |nodes| == k + 1 && nodes[..k] == old(nodes)
      ensures nodes[k].tens == t && nodes[k].op == NopOp && fresh(nodes[k].grad.data)
      ensures Built(old(nodes)) ==> Built(nodes)
    {
      var grad := CreateShaped(t.shape);
      ghost var prior := nodes;
      var n := Node(t, grad, NopOp);
      BufferedExtend(nodes, n);
      LinkedExtend(nodes, n);
      k := |nodes|;
      nodes := nodes + [n];
      if Built(prior) {
        BuiltExtend(prior, n);
      }
    }

    /** The relu builder: a new node shaped like node `g`, whose op is the
        relu from `g` to itself, run at once so its value is the relu of
        `g`'s value. */
    method ReluNode(g: nat) returns (k: nat)
      requires Valid() && Built(nodes) && g < |nodes|
      modifies this
      ensures Valid() && Built(nodes)
      ensures k == |old(nodes)| && |nodes| == k + 1 && nodes[..k] == old(nodes)
      ensures nodes[k].op == Mono(ReluFn, Some(g), Some(k))
      ensures nodes[k].tens.shape == nodes[g].tens.shape
      ensures forall i :: 0 <= i < nodes[k].tens.data.Length ==> nodes[k].tens.data[i] == Relu(nodes[g].tens.data[i])
    {
      var created := CreateGradt(nodes[g].tens.shape);
      k := created.value;
      AlignFull(nodes[g].tens.shape);
      ghost var prefix := nodes[..k];
      OpSetRelu(k, g, k);
      assert nodes == prefix + [nodes[k]];
      assert Formed(nodes, k);
      BuiltExtend(prefix, nodes[k]);
      assert FwdWrites(nodes[k].op) == {k};
      assert FwdBuffers(nodes[k].op) == {nodes[k].tens.data};
      OpFwd(k);
    }

    /** The add builder: tensor_add of the values of nodes `g1` and `g2`
        (the broadcast sum at and below the add kernel's cut) becomes the
        value of a new node whose op is the add from `g1` and `g2` to
        itself.  When the shapes do not broadcast, tensor_add
        gives NULL and the source passes it on to create_gradt_from_tens;
        the model gives `None` and leaves the store as it was. */
    method AddNode(g1: nat, g2: nat) returns (k: Option<nat>)
      requires Valid() && Built(nodes) && g1 < |nodes| && g2 < |nodes|
      modifies this
      ensures Valid() && Built(nodes)
      ensures k.Some? <==> AddShape(old(nodes)[g1].tens.shape, old(nodes)[g2].tens.shape).Ok?
      ensures k.None? ==> nodes == old(nodes)
      ensures k.Some? ==> k.value == |old(nodes)| && |nodes| == k.value + 1 && nodes[..k.value] == old(nodes)
      ensures k.Some? ==> nodes[k.value].op == Binary(AddFn, g1, g2, k.value)
      ensures k.Some? ==> nodes[k.value].tens.shape == AddShape(nodes[g1].tens.shape, nodes[g2].tens.shape).value
      ensures k.Some? ==> forall p ::
        (0 <= p < nodes[k.value].tens.data.Length &&
         Unravel(p, nodes[k.value].tens.shape)[3] <= AddCut(nodes[g1].tens.shape, nodes[g2].tens.shape, nodes[k.value].tens.shape)) ==>
        nodes[k.value].tens.data[p] ==
          SumAt(nodes[g1].tens.data[..], nodes[g1].tens.shape, nodes[g2].tens.data[..], nodes[g2].tens.shape,
                Unravel(p, nodes[k.value].tens.shape))
      ensures k.Some? && !(nodes[g1].tens.shape[3] == nodes[g2].tens.shape[3] && nodes[g1].tens.shape[3] >= Width
                           && nodes[k.value].tens.shape[3] % Width >= 2) ==>
        forall p :: 0 <= p < nodes[k.value].tens.data.Length ==>
        nodes[k.value].tens.data[p] ==
          SumAt(nodes[g1].tens.data[..], nodes[g1].tens.shape, nodes[g2].tens.data[..], nodes[g2].tens.shape,
                Unravel(p, nodes[k.value].tens.shape))
    {
      var sum := TensorAdd(nodes[g1].tens, nodes[g2].tens);
      if sum.Err? {
        return None;
      }
      var n := CreateGradtFromTens(sum.value);
      ghost var prefix := nodes[..n];
      OpSetAdd(n, g1, g2, n);
      assert nodes == prefix + [nodes[n]];
      assert Formed(nodes, n);
      BuiltExtend(prefix, nodes[n]);
      k := Some(n);
    }
  }
}
