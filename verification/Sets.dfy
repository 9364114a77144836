/** Sizes of finite sets. */
module Sets {
  lemma {:induction false} SubsetSize<T>(small: set<T>, large: set<T>)
    requires small <= large
    ensures |small| <= |large|
  {
    if small != {} {
      var x :| x in small;
      SubsetSize(small - {x}, large - {x});
    }
  }

  lemma StrictSubsetSize<T>(small: set<T>, large: set<T>)
    requires small < large
    ensures |small| < |large|
  {
    var x :| x in large && x !in small;
    assert large == (large - {x}) + {x};
    SubsetSize(small, large - {x});
  }

  lemma SubsetOfEqualSize<T>(small: set<T>, large: set<T>)
    requires small <= large && |small| == |large|
    ensures small == large
  {
    if small != large { StrictSubsetSize(small, large); }
  }
}
