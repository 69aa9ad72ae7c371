/** Sizes of finite sets. */
module Sets {
  lemma {:induction false} SubsetSize<T>(part: set<T>, all: set<T>)
    requires part <= all
    ensures |part| <= |all|
  {
    if x :| x in part {
      SubsetSize(part - {x}, all - {x});
    }
  }

  lemma {:induction false} SameSize<T>(part: set<T>, all: set<T>)
    requires part <= all && |part| >= |all|
    ensures part == all
  {
    if x :| x in part {
      SameSize(part - {x}, all - {x});
    }
  }

  lemma Remainder<T>(all: set<T>, part: set<T>)
    requires part <= all
    ensures |all - part| + |part| == |all|
  {
    assert (all - part) + part == all;
  }
}
