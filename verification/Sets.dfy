/** Sizes of finite sets. */
module Sets {

  lemma {:induction false} SubsetSize<T>(a: set<T>, b: set<T>)
    requires a <= b
    ensures |a| <= |b|
  {
    if a != {} {
      var x :| x in a;
      SubsetSize(a - {x}, b - {x});
    }
  }

  /** A set with at most one element that another lacks. */
  lemma {:induction false} AtMostOneMore<T>(before: set<T>, after: set<T>)
    requires forall a, b :: a in after - before && b in after - before ==> a == b
    ensures |after| <= |before| + 1
  {
    var more := after - before;
    if more != {} {
      var x :| x in more;
      assert more == {x};
    }
    SubsetSize(after, before + more);
  }
}
