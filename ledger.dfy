/** Counting facts about the inclusion ledger, a set of paths that only
    grows: they carry the termination measure of the expander (the number
    of openable files not yet in the ledger) and the bound on the number of
    expansions. */
module Ledger {

  lemma SubsetCard<T>(a: set<T>, b: set<T>)
    requires a <= b
    ensures |a| <= |b|
  {
    assert b == a + (b - a);
    assert a * (b - a) == {};
  }

  /** A growing ledger leaves no more files outside it. */
  lemma OutsideShrinks<T>(files: set<T>, l: set<T>, l': set<T>)
    requires l <= l'
    ensures |files - l'| <= |files - l|
  {
    SubsetCard(files - l', files - l);
  }

  /** Entering a file leaves no more files outside the ledger, and
      strictly fewer when the file is one of them. */
  lemma EnterShrinks<T>(files: set<T>, l: set<T>, f: T)
    ensures |files - (l + {f})| <= |files - l|
    ensures f in files && f !in l ==> |files - (l + {f})| < |files - l|
  {
    OutsideShrinks(files, l, l + {f});
    if f in files && f !in l {
      assert files - (l + {f}) == (files - l) - {f};
    }
  }

  /** What a ledger gains over two successive stretches adds up. */
  lemma GrowthAdds<T>(l0: set<T>, l1: set<T>, l2: set<T>)
    requires l0 <= l1 <= l2
    ensures |l2 - l0| == |l1 - l0| + |l2 - l1|
  {
    assert l2 - l0 == (l1 - l0) + (l2 - l1);
    assert (l1 - l0) * (l2 - l1) == {};
  }

  /** Inserting a new element first counts as one of the gains. */
  lemma GrowthAfterInsert<T>(l: set<T>, f: T, l': set<T>)
    requires l + {f} <= l'
    ensures f !in l ==> |l' - l| == 1 + |l' - (l + {f})|
  {
    if f !in l {
      GrowthAdds(l, l + {f}, l');
      assert (l + {f}) - l == {f};
    }
  }
}
