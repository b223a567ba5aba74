/** The op tagged union of ops.c and ops.h.  The forward and backward
    function pointers of a MonoOp or BinOp come in fixed pairs chosen by
    op_set_nop, op_set_relu and op_set_add, so each pair is named by a
    datatype tag; the GradTensor pointers become indices into a node store. */
module Ops {
  import opened Common

  /** The handler pairs of a MonoOp: nop_fwd/nop_bwd and relu_fwd/relu_bwd. */
  datatype MonoFn = NopFn | ReluFn

  /** The handler pair of a BinOp: add_fwd/add_bwd. */
  datatype BinFn = AddFn

  /** An Op: a MonoOp with nullable source and destination, or a BinOp with
      two sources and a destination. */
  datatype Op =
    | Mono(monoFn: MonoFn, src: Option<nat>, dst: Option<nat>)
    | Binary(binFn: BinFn, src1: nat, src2: nat, binDst: nat)

  /** The op op_set_nop writes: a leaf, with no source and no destination. */
  const NopOp: Op := Mono(NopFn, None, None)

  /** The nodes an op reads forward and that its backward writes gradients into. */
  function Sources(op: Op): (s: seq<nat>)
    ensures op.Mono? && op.monoFn.NopFn? ==> s == []
  {
    match op
    case Mono(fn, src, _) => if fn.NopFn? || src.None? then [] else [src.value]
    case Binary(_, s1, s2, _) => [s1, s2]
  }

  /** The node whose value an op's forward writes and whose gradient its
      backward reads. */
  function Dst(op: Op): Option<nat>
  {
    match op
    case Mono(fn, _, dst) => if fn.NopFn? then None else dst
    case Binary(_, _, _, dst) => Some(dst)
  }

  /** The node values a forward handler writes: relu_fwd and add_fwd write
      only the destination's value, nop_fwd nothing. */
  function FwdWrites(op: Op): set<nat>
  {
    if Dst(op).Some? then {Dst(op).value} else {}
  }

  /** The node gradients a backward handler writes: relu_bwd writes the
      source's gradient, add_bwd both sources' gradients, nop_bwd nothing. */
  function BwdWrites(op: Op): set<nat>
  {
    set i | 0 <= i < |Sources(op)| :: Sources(op)[i]
  }

  /** An op owned by node `k` is formed as the builders form it: a leaf is
      the nop op, any other op has `k` itself as destination and older
      nodes as sources. */
  predicate OwnedBy(op: Op, k: nat)
  {
    (forall i :: 0 <= i < |Sources(op)| ==> Sources(op)[i] < k)
    && (op.Mono? && op.monoFn.NopFn? ==> op == NopOp)
    && (op.Mono? && op.monoFn.ReluFn? ==> op.src.Some? && op.dst == Some(k))
    && (op.Binary? ==> op.binDst == k)
  }

  /** For a formed op the forward writes only its own node's value, never a
      source (the handlers take the sources as const), and the backward
      writes only source gradients, never the destination's (which it
      takes as const). */
  lemma FormedFrames(op: Op, k: nat)
    requires OwnedBy(op, k)
    ensures FwdWrites(op) <= {k}
    ensures forall i :: 0 <= i < |Sources(op)| ==> Sources(op)[i] !in FwdWrites(op)
    ensures k !in BwdWrites(op)
    ensures op != NopOp ==> FwdWrites(op) == {k} && |Sources(op)| > 0
  {
  }
}
