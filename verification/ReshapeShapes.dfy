/**
 When torch reshapes, with an inferred dimension or without, and to what (convert_lora_to_gguf.py), in
 terms of the sizes alone.
 */
module ReshapeShapes {
  import opened Wrappers
  import opened Tensors
  import opened TensorRows
  import opened Lora

  /** `s` is the new shape with the inferred dimension filled in. */
  predicate Fills(newShape: seq<int>, s: Shape) {
    |s| == |newShape| && forall i :: 0 <= i < |s| ==> newShape[i] == -1 || newShape[i] == s[i]
  }

  /** The product of what is filled in. */
  function Filled(newShape: seq<int>, s: Shape): nat
    requires |s| == |newShape|
  {
    if newShape == [] then 1 else Filled(newShape[1..], s[1..]) * (if newShape[0] == -1 then s[0] else 1)
  }

  lemma Regroup4(a: int, b: int, c: int, d: int)
    ensures (a * b) * (c * d) == (a * c) * (b * d)
  {
    assert (a * b) * (c * d) == a * (b * (c * d));
    assert b * (c * d) == c * (b * d);
    assert a * (c * (b * d)) == (a * c) * (b * d);
  }

  /** The size is the known part times what is filled in. */
  lemma {:induction false} SizeOfFilled(newShape: seq<int>, s: Shape)
    requires Fills(newShape, s)
    ensures Size(s) == KnownSize(newShape) * Filled(newShape, s)
  {
    hide Size;
    if s == [] {
      SizeEmpty();
    } else {
      SizeCons(s[0], s[1..]);
      assert [s[0]] + s[1..] == s;
      assert Fills(newShape[1..], s[1..]);
      SizeOfFilled(newShape[1..], s[1..]);
      var k, f := KnownSize(newShape[1..]), Filled(newShape[1..], s[1..]);
      if newShape[0] == -1 {
        Regroup4(k, f, 1, s[0]);
      } else {
        Regroup4(k, f, s[0], 1);
      }
    }
  }

  lemma {:induction false} FilledOne(newShape: seq<int>, s: Shape, k: nat)
    requires Fills(newShape, s) && k < |s| && newShape[k] == -1 && OneInferred(newShape)
    ensures Filled(newShape, s) == s[k]
  {
    assert Fills(newShape[1..], s[1..]);
    if k == 0 {
      FilledNone(newShape[1..], s[1..]);
    } else {
      assert newShape[1..][k - 1] == -1;
      OneInRest(newShape);
      FilledOne(newShape[1..], s[1..], k - 1);
    }
  }

  lemma OneInRest(newShape: seq<int>)
    requires newShape != [] && OneInferred(newShape)
    ensures OneInferred(newShape[1..])
  {
    forall i, j | 0 <= i < j < |newShape| - 1
      ensures newShape[1..][i] != -1 || newShape[1..][j] != -1
    {
      assert newShape[1..][i] == newShape[i + 1] && newShape[1..][j] == newShape[j + 1];
    }
  }

  lemma {:induction false} FilledNone(newShape: seq<int>, s: Shape)
    requires |s| == |newShape| && forall i :: 0 <= i < |s| ==> newShape[i] != -1
    ensures Filled(newShape, s) == 1
  {
    if s != [] {
      FilledNone(newShape[1..], s[1..]);
    }
  }

  /**
   torch reshapes exactly when at most one dimension is left open, no other one is zero then, and
   the open one can be filled in so that the sizes agree; and it keeps the elements in their order.
   */
  lemma ReshapeTensorIs(t: Tensor, newShape: seq<int>)
    requires Valid(t)
    ensures ReshapeTensor(t, newShape).Some? <==>
            && OneInferred(newShape) && (-1 in newShape ==> KnownSize(newShape) != 0)
            && exists s :: Fills(newShape, s) && Size(s) == Size(t.shape)
    ensures ReshapeTensor(t, newShape).Some? ==>
              var r := ReshapeTensor(t, newShape).value;
              Fills(newShape, r.shape) && Size(r.shape) == Size(t.shape) && r.data == t.data
  {
    hide Size;
    if OneInferred(newShape) && (-1 in newShape ==> KnownSize(newShape) != 0) {
      if s :| Fills(newShape, s) && Size(s) == Size(t.shape) {
        FilledIsExpanded(t, newShape, s);
      }
      if ReshapeTensor(t, newShape).Some? {
        assert Fills(newShape, ReshapeTensor(t, newShape).value.shape) by {
          ExpandedFills(t.shape, newShape);
        }
      }
    }
  }

  lemma ExpandedFills(shape: Shape, newShape: seq<int>)
    requires Expand(shape, newShape).Some? && AllNats(Expand(shape, newShape).value)
    ensures Fills(newShape, AsShape(Expand(shape, newShape).value))
  {
    hide Size;
  }

  lemma FilledIsExpanded(t: Tensor, newShape: seq<int>, s: Shape)
    requires Valid(t) && OneInferred(newShape) && (-1 in newShape ==> KnownSize(newShape) != 0)
    requires Fills(newShape, s) && Size(s) == Size(t.shape)
    ensures ReshapeTensor(t, newShape) == Some(Tensor(s, t.data))
  {
    hide Size, KnownSize;
    SizeOfFilled(newShape, s);
    if k :| 0 <= k < |newShape| && newShape[k] == -1 {
      FilledOne(newShape, s, k);
      ExactDivision(KnownSize(newShape), s[k]);
      assert forall i :: 0 <= i < |s| ==> s[i] == if newShape[i] == -1 then s[k] else newShape[i];
      var e := Expand(t.shape, newShape);
      assert e.Some? && forall i :: 0 <= i < |s| ==> e.value[i] == s[i];
      assert AsShape(e.value) == s;
    } else {
      assert AsShape(newShape) == s;
    }
  }

  /** The known part divides the size, and the quotient is what was filled in. */
  lemma ExactDivision(known: int, x: nat)
    requires known != 0 && known * x >= 0
    ensures known * x % (if known < 0 then -known else known) == 0
    ensures FloorDiv(known * x, known) == x
  {
    if known > 0 {
      DivideProduct(known, x);
    } else {
      ZeroTimes(known, x);
    }
  }

  lemma ZeroTimes(a: int, x: nat)
    requires a < 0 && a * x >= 0
    ensures x == 0 && a * x == 0
  {
  }

  lemma DivideProduct(d: int, x: nat)
    requires d > 0
    ensures d * x % d == 0 && d * x / d == x
  {
    Digits(x, x + 1, 0, d);
  }
}
