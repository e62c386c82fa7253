/** Sharing and unsharing are inverse, whoever shares: the exact prior state comes back. */
module ShareUndo {
  import opened Paths
  import opened Store
  import opened Handlers
  import opened Invariants
  import opened Steps

  /** A successful share adds exactly one row and one link, both at a place that was free. */
  lemma ShareAddsOne(s: State, u: Name, p: Path, sharee: Name, perm: string)
    requires Valid(s) && ShareStep(s, u, p, sharee, perm).1 == Ok
    ensures var t, k := ShareStep(s, u, p, sharee, perm).0, ShareePath(KindsOf(s.tree), sharee, p);
            && p in s.tree && k !in s.tree && k !in s.sharedata && k != p
            && t == s.(tree := s.tree[k := s.tree[p]], sharedata := t.sharedata)
            && t.sharedata == s.sharedata[k := ShareRow(u, sharee, p, PermOf(perm).value)]
            && Matching(t.sharedata, u, sharee, p) == {k}
  {
    var t, k := ShareStep(s, u, p, sharee, perm).0, ShareePath(KindsOf(s.tree), sharee, p);
    ShareGoesTo(s, u, p, sharee, perm);
    assert k in s.sharedata ==> Coherent(s, k);
    MatchingAtMostOne(s, u, sharee, p);
    assert Matching(s.sharedata, u, sharee, p) == {};
    forall j | j in Matching(t.sharedata, u, sharee, p) ensures j == k {
      assert j != k ==> j in Matching(s.sharedata, u, sharee, p);
    }
  }

  /** The new link can be removed again. */
  lemma NewLinkRemovable(s: State, k: Path, n: Node)
    requires Valid(s) && CanCreate(KindsOf(s.tree), k) && n.Link?
    ensures CanRemove(KindsOf(s.tree[k := n]), k) && s.tree[k := n] - {k} == s.tree
  {
    TreeClosed(s);
    LeafClosed(s.tree, k, n);
    LookupHere(KindsOf(s.tree[k := n]), k);
  }

  /** Unsharing takes the one matching row away, and its link. */
  lemma UnshareTakesOne(t: State, u: Name, p: Path, sharee: Name, k: Path)
    requires u in t.users && sharee in t.users && u != sharee && Allowed(p, u)
    requires Matching(t.sharedata, u, sharee, p) == {k} && CanRemove(KindsOf(t.tree), k)
    ensures UnshareStep(t, u, p, sharee) == (t.(tree := t.tree - {k}, sharedata := t.sharedata - {k}), Ok)
  {
    assert |Matching(t.sharedata, u, sharee, p)| == 1;
  }

  lemma TakenBack(s: State, k: Path, n: Node, row: ShareRow)
    requires k !in s.tree && k !in s.sharedata
    ensures s.(tree := s.tree[k := n] - {k}, sharedata := s.sharedata[k := row] - {k}) == s
  {
    assert s.tree[k := n] - {k} == s.tree;
    assert s.sharedata[k := row] - {k} == s.sharedata;
  }

  lemma UnshareUndoesShare(s: State, u: Name, p: Path, sharee: Name, perm: string)
    requires Valid(s) && ShareStep(s, u, p, sharee, perm).1 == Ok
    ensures UnshareStep(ShareStep(s, u, p, sharee, perm).0, u, p, sharee) == (s, Ok)
  {
    var t, k := ShareStep(s, u, p, sharee, perm).0, ShareePath(KindsOf(s.tree), sharee, p);
    ShareAddsOne(s, u, p, sharee, perm);
    ShareGoesTo(s, u, p, sharee, perm);
    EntryFound(s, p);
    NewLinkRemovable(s, k, s.tree[p]);
    UnshareTakesOne(t, u, p, sharee, k);
    TakenBack(s, k, s.tree[p], t.sharedata[k]);
  }
}
