/** Goldcoin's blocks as a tree: a hash fixes its height, its parent and its
    transactions, and a node's view at any moment is one branch. */
module BlockTree {
  import opened Bytes
  import opened DepositScan

  datatype Tree = Tree(parent: Hash32 -> Hash32, height: Hash32 -> int, txs: Hash32 -> seq<Tx>)

  /** A branch from height 0 upwards. */
  predicate IsChain(t: Tree, c: seq<Hash32>) {
    forall h :: 0 <= h < |c| ==> t.height(c[h]) == h && (h > 0 ==> t.parent(c[h]) == c[h - 1])
  }

  /** Two branches that agree at one height agree below it. */
  lemma {:induction false} AgreementGoesDown(t: Tree, a: seq<Hash32>, b: seq<Hash32>, h: nat)
    requires IsChain(t, a) && IsChain(t, b) && h < |a| && h < |b| && a[h] == b[h]
    ensures a[..h + 1] == b[..h + 1]
  {
    if h == 0 {
    } else {
      AgreementGoesDown(t, a, b, h - 1);
      assert a[..h + 1] == a[..h] + [a[h]] && b[..h + 1] == b[..h] + [b[h]];
    }
  }
}
