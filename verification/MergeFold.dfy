/** Combining a list of merge operands by repeated partial merges. */
module MergeFold {
  import opened ByteStrings

  /** A user's merge operator: what one operand does to a value, and the partial merge of two. */
  datatype Operator = Operator(
    merge: (Option<Bytes>, Bytes) -> Option<Bytes>,
    partialMerge: (Bytes, Bytes) -> (Bytes, bool))

  /** The documented contract: a successful partial merge acts like its operands in order. */
  ghost predicate Contract(op: Operator) {
    forall left: Bytes, right: Bytes, base: Option<Bytes> :: op.partialMerge(left, right).1 ==>
      op.merge(base, op.partialMerge(left, right).0) == op.merge(op.merge(base, left), right)
  }

  /** Applying operands one after another. */
  function MergeAll(op: Operator, base: Option<Bytes>, operands: seq<Bytes>): Option<Bytes> {
    if operands == [] then base
    else op.merge(MergeAll(op, base, operands[..|operands| - 1]), operands[|operands| - 1])
  }

  /** The first i operands combined into left, which the operator then refused to combine further. */
  ghost predicate StoppedAt(op: Operator, operands: seq<Bytes>, i: nat, left: Bytes) {
    && 1 <= i < |operands| && !op.partialMerge(left, operands[i]).1
    && forall base :: op.merge(base, left) == MergeAll(op, base, operands[..i])
  }

  /** The loop of partial_merge_multi. With two or more operands, success means that the one
      result acts on every base value as all the operands do in order. */
  method PartialMergeMulti(op: Operator, operands: seq<Bytes>) returns (newValue: Bytes, success: bool)
    requires |operands| >= 1
    ensures |operands| == 1 ==> success && newValue == []
    ensures Contract(op) && |operands| >= 2 && success ==>
              forall base :: op.merge(base, newValue) == MergeAll(op, base, operands)
    ensures Contract(op) && !success ==>
              exists i: nat, left :: StoppedAt(op, operands, i, left) && newValue == op.partialMerge(left, operands[i]).0
  {
    newValue := [];
    success := true;
    var leftOperand := operands[0];
    FirstOperand(op, operands);
    var i := 1;
    while i < |operands|
      invariant 1 <= i <= |operands| && success
      invariant i == 1 ==> newValue == [] && leftOperand == operands[0]
      invariant i > 1 ==> newValue == leftOperand
      invariant Contract(op) ==> forall base :: op.merge(base, leftOperand) == MergeAll(op, base, operands[..i])
    {
      var merged := op.partialMerge(leftOperand, operands[i]);
      newValue, success := merged.0, merged.1;
      if !success {
        assert Contract(op) ==> StoppedAt(op, operands, i, leftOperand);
        break;
      }
      if Contract(op) {
        OneMore(op, operands, i, leftOperand, newValue);
      }
      leftOperand := newValue;
      i := i + 1;
    }
    assert operands[..|operands|] == operands;
  }

  lemma FirstOperand(op: Operator, operands: seq<Bytes>)
    requires |operands| >= 1
    ensures forall base :: op.merge(base, operands[0]) == MergeAll(op, base, operands[..1])
  {
    forall base ensures op.merge(base, operands[0]) == MergeAll(op, base, operands[..1]) {
      assert operands[..1][..0] == [];
      assert MergeAll(op, base, []) == base;
    }
  }

  lemma OneMore(op: Operator, operands: seq<Bytes>, i: nat, left: Bytes, merged: Bytes)
    requires Contract(op) && i < |operands| && op.partialMerge(left, operands[i]) == (merged, true)
    requires forall base :: op.merge(base, left) == MergeAll(op, base, operands[..i])
    ensures forall base :: op.merge(base, merged) == MergeAll(op, base, operands[..i + 1])
  {
    forall base ensures op.merge(base, merged) == MergeAll(op, base, operands[..i + 1]) {
      assert operands[..i + 1][..i] == operands[..i];
      assert op.merge(base, op.partialMerge(left, operands[i]).0) == op.merge(op.merge(base, left), operands[i]);
    }
  }

  /** Merging operand lists is what the library may do in any grouping: a result for a prefix can
      stand for that prefix in front of any further operands. */
  lemma {:induction false} ResultStandsForPrefix(op: Operator, operands: seq<Bytes>, merged: Bytes,
                                                 more: seq<Bytes>, base: Option<Bytes>)
    requires forall b :: op.merge(b, merged) == MergeAll(op, b, operands)
    ensures MergeAll(op, base, [merged] + more) == MergeAll(op, base, operands + more)
  {
    if more == [] {
      assert [merged] + more == [merged] && [merged][..0] == [] && operands + more == operands;
      assert MergeAll(op, base, [merged]) == op.merge(MergeAll(op, base, []), merged);
    } else {
      var n := |more| - 1;
      assert ([merged] + more)[..|[merged] + more| - 1] == [merged] + more[..n];
      assert (operands + more)[..|operands + more| - 1] == operands + more[..n];
      ResultStandsForPrefix(op, operands, merged, more[..n], base);
    }
  }

  /** With a single operand the loop does not run and the result is empty: it stands for the
      operand exactly when merging the empty operand happens to do the same. An operator that
      replaces the value is a counterexample. */
  lemma SingleOperandCanBeLost()
    ensures exists op: Operator, x: Bytes, base: Option<Bytes> ::
              Contract(op) && op.merge(base, []) != MergeAll(op, base, [x])
  {
    var op := Operator((b: Option<Bytes>, x: Bytes) => Some(x), (l: Bytes, r: Bytes) => (r, true));
    assert Contract(op);
    var x: Bytes := [1];
    assert [x][..0] == [];
    assert MergeAll(op, None, [x]) == op.merge(MergeAll(op, None, []), x);
    assert op.merge(None, []) != MergeAll(op, None, [x]);
  }
}
