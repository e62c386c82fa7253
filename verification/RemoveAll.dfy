/** The client's recursive deletion through List and Remove, run against the server. */
module RemoveAll {
  import opened Paths
  import opened Store
  import opened Handlers
  import opened Invariants
  import opened Steps
  import opened FileServer
  import opened Listings

  // ----- Regions of the tree

  /** Everything strictly below a directory. */
  function Under(tree: map<Path, Node>, dir: Path): set<Path> {
    set p | p in tree && dir < p
  }

  function Children(tree: map<Path, Node>, dir: Path): set<Path> {
    set p | p in tree && p != [] && Parent(p) == dir
  }

  /** The given entries and everything below them. */
  function Subtrees(tree: map<Path, Node>, tops: set<Path>): set<Path> {
    set p | p in tree && exists c <- tops :: c <= p
  }

  /** The rows that go when the given entries go: those shared from one, and those received at one. */
  function RowsOf(sharedata: map<Path, ShareRow>, gone: set<Path>): set<Path> {
    set k | k in sharedata && (k in gone || sharedata[k].origpath in gone)
  }

  /** From s to t the given entries went, with their rows and the links of their sharees, and no other
      entry and no other row. */
  predicate Pruned(s: State, t: State, gone: set<Path>) {
    && t.tree == s.tree - gone - RowsOf(s.sharedata, gone)
    && t.sharedata == s.sharedata - RowsOf(s.sharedata, gone)
    && t.users == s.users && t.filecount == s.filecount
  }

  lemma PrunedNothing(s: State)
    ensures Pruned(s, s, {})
  {
    assert RowsOf(s.sharedata, {}) == {};
    assert s.tree - {} - {} == s.tree && s.sharedata - {} == s.sharedata;
  }

  lemma PrunedTwice(s: State, t: State, v: State, g: set<Path>, h: set<Path>)
    requires Pruned(s, t, g) && Pruned(t, v, h)
    ensures Pruned(s, v, g + h)
  {
    assert RowsOf(s.sharedata, g + h) == RowsOf(s.sharedata, g) + RowsOf(t.sharedata, h);
    assert v.tree == s.tree - (g + h) - RowsOf(s.sharedata, g + h);
    assert v.sharedata == s.sharedata - RowsOf(s.sharedata, g + h);
  }

  // ----- One Remove

  lemma RemoveOneLink(s: State, u: Name, p: Path)
    requires Valid(s) && u in s.users && p in s.tree && p != [] && p[0] == u && s.tree[p].Link?
    requires IsSharedFile(s.sharedata, p).Unshared?
    ensures RemoveStep(s, u, p).1 == Ok && Pruned(s, RemoveStep(s, u, p).0, {p})
  {
    EntryFound(s, p);
    LinkFound(s, p);
    UnlinkKeepsValid(s, p);
    assert RowsOf(s.sharedata, {p}) == {};
    assert s.tree - {p} - {} == s.tree - {p} && s.sharedata - {} == s.sharedata;
  }

  lemma RemoveOneSharee(s: State, u: Name, p: Path)
    requires Valid(s) && u in s.users && p in s.sharedata && p != [] && p[0] == u
    ensures RemoveStep(s, u, p).1 == Ok && Pruned(s, RemoveStep(s, u, p).0, {p})
  {
    ShareePlace(s, p);
    EntryFound(s, p);
    LinkFound(s, p);
    assert RowsOf(s.sharedata, {p}) == {p};
    assert s.tree - {p} - {p} == s.tree - {p};
  }

  lemma RemoveOneShared(s: State, u: Name, p: Path)
    requires Valid(s) && u in s.users && p in s.tree && p != [] && p[0] == u
    requires IsSharedFile(s.sharedata, p).AsSharer?
    ensures RemoveStep(s, u, p).1 == Ok && Pruned(s, RemoveStep(s, u, p).0, {p})
  {
    SharerPlace(s, p);
    SharedPlace(s, u, p);
    LinkFound(s, p);
    UnsharedFirst(s, u, p);
    AllShareesFound(s, u, p);
    var gone := ShareesOf(s.sharedata, u, p);
    var d := s.(tree := s.tree - gone, sharedata := s.sharedata - gone);
    EntryFound(d, p);
    UnlinkKeepsValid(d, p);
    assert RowsOf(s.sharedata, {p}) == gone;
    assert s.tree - gone - {p} == s.tree - {p} - gone;
  }

  lemma EmptyIsChildless(tree: map<Path, Node>, p: Path)
    ensures EmptyDir(KindsOf(tree), p) <==> Children(tree, p) == {}
  {
    forall q: Path ensures q != [] && Parent(q) == p <==> |q| == |p| + 1 && p <= q {
      if |q| == |p| + 1 {
        assert p <= q <==> q[..|p|] == p;
      }
    }
    forall q | q in KindsOf(tree) ensures (|q| == |p| + 1 && p <= q) <==> q in Children(tree, p) {
    }
  }

  lemma RemoveOneDir(s: State, u: Name, p: Path)
    requires Valid(s) && u in s.users && p in s.tree && p != [] && p[0] == u && s.tree[p].Dir?
    requires Children(s.tree, p) == {} && p != SharedDir(u)
    ensures RemoveStep(s, u, p).1 == Ok && Pruned(s, RemoveStep(s, u, p).0, {p})
  {
    EntryFound(s, p);
    forall k <- s.sharedata ensures k != p && s.sharedata[k].origpath != p {
      assert Coherent(s, k);
    }
    EmptyIsChildless(s.tree, p);
    assert RowsOf(s.sharedata, {p}) == {};
    assert s.tree - {p} - {} == s.tree - {p} && s.sharedata - {} == s.sharedata;
  }

  /** Removing any link of the user's, or any empty directory but its Shared_with_me, succeeds and
      takes exactly that entry with its shares. */
  lemma RemoveOne(s: State, u: Name, p: Path)
    requires Valid(s) && u in s.users && p in s.tree && p != [] && p[0] == u
    requires s.tree[p].Dir? ==> Children(s.tree, p) == {} && p != SharedDir(u)
    ensures RemoveStep(s, u, p).1 == Ok && Pruned(s, RemoveStep(s, u, p).0, {p})
  {
    match IsSharedFile(s.sharedata, p) {
      case AsSharer => RemoveOneShared(s, u, p);
      case AsSharee => RemoveOneSharee(s, u, p);
      case Unshared =>
        if s.tree[p].Link? {
          RemoveOneLink(s, u, p);
        } else {
          RemoveOneDir(s, u, p);
        }
    }
  }

  // ----- Regions while children go one by one

  /** What a user's shares reach lies with other users. */
  lemma RowsElsewhere(s: State, u: Name, gone: set<Path>)
    requires Valid(s) && forall p <- gone :: p != [] && p[0] == u
    ensures forall k <- RowsOf(s.sharedata, gone) :: k in gone || (k != [] && k[0] != u)
  {
    forall k <- RowsOf(s.sharedata, gone) ensures k in gone || (k != [] && k[0] != u) {
      assert ShareRowOk(s, k);
    }
  }

  lemma SameLengthPrefixes(e: Path, c: Path, q: Path)
    requires |e| == |c| && c <= q
    ensures e <= q <==> e == c
  {
    assert c == q[..|c|];
    assert e <= q <==> e == q[..|e|];
  }

  /** A child that has not gone is still there with everything below it. */
  lemma ChildRemains(s: State, t: State, u: Name, dir: Path, done: set<Path>, c: Path)
    requires Valid(s) && dir != [] && dir[0] == u
    requires done <= Children(s.tree, dir) && c in Children(s.tree, dir) && c !in done
    requires Pruned(s, t, Subtrees(s.tree, done))
    ensures c in t.tree && t.tree[c] == s.tree[c] && c[0] == u && |c| > 1
    ensures Under(t.tree, c) == Under(s.tree, c)
  {
    var gone := Subtrees(s.tree, done);
    forall q | q in s.tree && c <= q ensures q in t.tree && t.tree[q] == s.tree[q] {
      assert q[0] == u;
      forall e <- done ensures !(e <= q) {
        SameLengthPrefixes(e, c, q);
      }
      RowsElsewhere(s, u, gone);
      assert q !in gone;
    }
  }

  lemma OneMoreSubtree(tree: map<Path, Node>, done: set<Path>, c: Path)
    requires c in tree
    ensures Subtrees(tree, done + {c}) == Subtrees(tree, done) + (Under(tree, c) + {c})
  {
    forall p | p in tree && c <= p ensures p in Under(tree, c) + {c} {
      assert |p| == |c| ==> p == c;
    }
  }

  lemma {:induction false} PrefixesPresent(s: State, p: Path, n: nat)
    requires TreeOk(s) && p in s.tree && 1 <= n <= |p|
    ensures p[..n] in s.tree
    ensures n < |p| ==> s.tree[p[..n]].Dir?
    decreases |p|
  {
    assert EntryOk(s, p);
    if n < |p| {
      PrefixesPresent(s, Parent(p), n);
      assert Parent(p)[..n] == p[..n];
      assert n == |p| - 1 ==> p[..n] == Parent(p);
    } else {
      assert p[..n] == p;
    }
  }

  /** The subtrees of all children make up everything below the directory. */
  lemma AllSubtrees(s: State, dir: Path)
    requires TreeOk(s)
    ensures Subtrees(s.tree, Children(s.tree, dir)) == Under(s.tree, dir)
  {
    forall p | p in Under(s.tree, dir) ensures p in Subtrees(s.tree, Children(s.tree, dir)) {
      var c := p[..|dir| + 1];
      PrefixesPresent(s, p, |dir| + 1);
      assert Parent(c) == dir;
      assert c in Children(s.tree, dir) && c <= p;
    }
    forall p | p in Subtrees(s.tree, Children(s.tree, dir)) ensures p in Under(s.tree, dir) {
      var c :| c in Children(s.tree, dir) && c <= p;
      assert dir == c[..|c| - 1] && dir <= p;
    }
  }

  lemma NothingUnderHasNoChildren(tree: map<Path, Node>, p: Path)
    requires Under(tree, p) == {}
    ensures Children(tree, p) == {}
  {
    forall q | q in tree && q != [] ensures Parent(q) != p {
      assert q !in Under(tree, p);
      assert Parent(q) == p ==> p < q;
    }
  }

  /** The children are those done and those still listed. */
  predicate Remaining(tree: map<Path, Node>, dir: Path, done: set<Path>, ents: set<DirEnt>) {
    && done <= Children(tree, dir)
    && (forall e <- ents :: dir + [e.name] in Children(tree, dir) - done && tree[dir + [e.name]].Dir? == e.isDir)
    && (forall q <- Children(tree, dir) :: q in done || DirEnt(BaseName(q), tree[q].Dir?) in ents)
  }

  lemma AllRemain(tree: map<Path, Node>, dir: Path)
    ensures Remaining(tree, dir, {}, Entries(tree, dir))
  {
    forall q | q in tree && q != [] && Parent(q) == dir ensures q == dir + [BaseName(q)] {
    }
  }

  lemma EntriesApart(tree: map<Path, Node>, dir: Path, done: set<Path>, ents: set<DirEnt>, d: DirEnt, e: DirEnt)
    requires Remaining(tree, dir, done, ents) && d in ents && e in ents && d != e
    ensures dir + [d.name] != dir + [e.name]
  {
    assert (dir + [d.name])[|dir|] == d.name && (dir + [e.name])[|dir|] == e.name;
  }

  lemma OtherChild(tree: map<Path, Node>, dir: Path, q: Path, e: DirEnt)
    requires q in Children(tree, dir) && q != dir + [e.name]
    ensures BaseName(q) != e.name
  {
    assert q == dir + [BaseName(q)];
  }

  lemma OneFewerRemains(tree: map<Path, Node>, dir: Path, done: set<Path>, ents: set<DirEnt>, e: DirEnt)
    requires Remaining(tree, dir, done, ents) && e in ents
    ensures Remaining(tree, dir, done + {dir + [e.name]}, ents - {e})
  {
    var c := dir + [e.name];
    forall d <- ents - {e} ensures dir + [d.name] != c {
      EntriesApart(tree, dir, done, ents, d, e);
    }
    forall q <- Children(tree, dir)
      ensures q in done + {c} || DirEnt(BaseName(q), tree[q].Dir?) in ents - {e}
    {
      if q != c {
        OtherChild(tree, dir, q, e);
      }
    }
  }

  lemma OneChildGone(s: State, before: State, after: State, dir: Path, done: set<Path>, c: Path)
    requires c in s.tree && Under(before.tree, c) == Under(s.tree, c)
    requires Pruned(s, before, Subtrees(s.tree, done)) && Pruned(before, after, Under(before.tree, c) + {c})
    ensures Pruned(s, after, Subtrees(s.tree, done + {c}))
  {
    PrunedTwice(s, before, after, Subtrees(s.tree, done), Under(before.tree, c) + {c});
    OneMoreSubtree(s.tree, done, c);
  }

  /** The subtree of a directory that has just been emptied is the directory itself. */
  lemma PrunedEmpty(s: State, t: State, c: Path)
    requires Valid(s) && c in s.tree && c != [] && Pruned(s, t, Under(s.tree, c))
    ensures c in t.tree ==> Children(t.tree, c) == {}
    ensures s.tree[c].Dir? ==> c in t.tree && t.tree[c].Dir?
  {
    assert Under(t.tree, c) == {};
    NothingUnderHasNoChildren(t.tree, c);
    forall k <- s.sharedata ensures s.tree[c].Dir? ==> k != c {
      assert Coherent(s, k);
    }
  }

  /** The children of the user's root that are listed before its Shared_with_me. */
  function ListedBefore(tree: map<Path, Node>, u: Name): set<Path> {
    set c | c in Children(tree, Root(u)) && Less(BaseName(c), SHARED)
  }

  /** From s to t everything went that is listed before the user's Shared_with_me, and everything in that
      directory, which itself stayed. */
  predicate StoppedAtSharedDir(s: State, t: State, u: Name) {
    && SharedDir(u) in t.tree
    && Pruned(s, t, Subtrees(s.tree, ListedBefore(s.tree, u)) + Under(s.tree, SharedDir(u)))
  }

  // ----- The recursion

  /** `removeAllHelper` on a directory of the user's. It succeeds on every directory but the root, whose
      Shared_with_me the server keeps; children go before parents, so no Remove meets a directory that
      is not empty; and what went is exactly what was below, with its shares. On the root it stops at
      Shared_with_me, having emptied that and removed what is listed before it. */
  method RemoveAllHelper(srv: Server, u: Name, dir: Path) returns (ok: bool)
    requires Valid(srv.Contents()) && u in srv.users
    requires dir in srv.tree && srv.tree[dir].Dir? && dir != [] && dir[0] == u
    modifies srv
    ensures Valid(srv.Contents()) && u in srv.users
    ensures ok <==> dir != Root(u)
    ensures ok ==> Pruned(old(srv.Contents()), srv.Contents(), Under(old(srv.tree), dir))
    ensures !ok ==> StoppedAtSharedDir(old(srv.Contents()), srv.Contents(), u)
    decreases Under(srv.tree, dir), 0
  {
    ghost var s := srv.Contents();
    var listed := srv.ListHandler(dir, u);
    EntryFound(s, dir);
    var ents := listed.value;
    StartOfLoop(s, u, dir, ents);
    for i := 0 to |ents|
      invariant Valid(srv.Contents()) && u in srv.users
      invariant Progress(s, srv.Contents(), u, dir, ents, i)
    {
      var c := dir + [ents[i].name];
      ghost var before := srv.Contents();
      NextChild(s, before, u, dir, ents, i);
      ok := RemoveEntry(srv, u, c, ents[i].isDir);
      if !ok {
        StopsAtSharedDir(s, before, srv.Contents(), u, dir, ents, i);
        return false;
      }
      ChildDone(s, before, srv.Contents(), u, dir, ents, i);
    }
    EndOfLoop(s, srv.Contents(), u, dir, ents);
    ok := true;
  }

  /** The first i places of a listing. */
  function Firsts(dir: Path, ents: seq<DirEnt>, i: nat): set<Path>
    requires i <= |ents|
  {
    set k | 0 <= k < i :: dir + [ents[k].name]
  }

  /** The state of its loop: what is done and what is still listed, and what has gone so far. */
  predicate Progress(s: State, t: State, u: Name, dir: Path, ents: seq<DirEnt>, i: nat) {
    && i <= |ents| && Sorted(ents)
    && Remaining(s.tree, dir, Firsts(dir, ents, i), Elements(ents[i..]))
    && SharedDir(u) !in Firsts(dir, ents, i)
    && Pruned(s, t, Subtrees(s.tree, Firsts(dir, ents, i)))
  }

  lemma StartOfLoop(s: State, u: Name, dir: Path, ents: seq<DirEnt>)
    requires Sorted(ents) && Elements(ents) == Entries(s.tree, dir)
    ensures Progress(s, s, u, dir, ents, 0)
  {
    AllRemain(s.tree, dir);
    assert ents[0..] == ents && Firsts(dir, ents, 0) == {};
    assert Subtrees(s.tree, {}) == {};
    PrunedNothing(s);
  }

  lemma NextChild(s: State, t: State, u: Name, dir: Path, ents: seq<DirEnt>, i: nat)
    requires Valid(s) && u in s.users && dir != [] && dir[0] == u && i < |ents| && Progress(s, t, u, dir, ents, i)
    ensures var c := dir + [ents[i].name];
            && c in t.tree && |c| > 1 && c[0] == u && t.tree[c].Dir? == ents[i].isDir
            && Under(t.tree, c) == Under(s.tree, c) && Under(s.tree, c) < Under(s.tree, dir)
            && (c == SharedDir(u) ==> dir == Root(u))
  {
    var c := dir + [ents[i].name];
    assert ents[i] in Elements(ents[i..]);
    ChildRemains(s, t, u, dir, Firsts(dir, ents, i), c);
    ChildUnder(s.tree, dir, c);
    RootHasSharedDir(s, u);
  }

  lemma ChildDone(s: State, before: State, after: State, u: Name, dir: Path, ents: seq<DirEnt>, i: nat)
    requires i < |ents| && Progress(s, before, u, dir, ents, i) && dir + [ents[i].name] != SharedDir(u)
    requires Under(before.tree, dir + [ents[i].name]) == Under(s.tree, dir + [ents[i].name])
    requires Pruned(before, after, Under(before.tree, dir + [ents[i].name]) + {dir + [ents[i].name]})
    ensures Progress(s, after, u, dir, ents, i + 1)
  {
    var done := Firsts(dir, ents, i);
    TailElements(ents, i);
    assert Firsts(dir, ents, i + 1) == done + {dir + [ents[i].name]};
    OneChildGone(s, before, after, dir, done, dir + [ents[i].name]);
    OneFewerRemains(s.tree, dir, done, Elements(ents[i..]), ents[i]);
  }

  lemma DoneChild(tree: map<Path, Node>, u: Name, ents: seq<DirEnt>, i: nat, c: Path)
    requires i < |ents| && Sorted(ents) && ents[i].name == SHARED
    requires Firsts(Root(u), ents, i) <= Children(tree, Root(u)) && c in Firsts(Root(u), ents, i)
    ensures c in ListedBefore(tree, u)
  {
    var k :| 0 <= k < i && c == Root(u) + [ents[k].name];
    assert BaseName(c) == ents[k].name;
  }

  /** What is done when the listing reaches Shared_with_me is what is listed before it. */
  lemma DoneIsListedBefore(tree: map<Path, Node>, u: Name, ents: seq<DirEnt>, i: nat)
    requires i < |ents| && Sorted(ents) && ents[i].name == SHARED
    requires Remaining(tree, Root(u), Firsts(Root(u), ents, i), Elements(ents[i..]))
    ensures Firsts(Root(u), ents, i) == ListedBefore(tree, u)
  {
    var done := Firsts(Root(u), ents, i);
    forall c <- done ensures c in ListedBefore(tree, u) {
      DoneChild(tree, u, ents, i, c);
    }
    forall c <- ListedBefore(tree, u) ensures c in done {
      if c !in done {
        var k :| i <= k < |ents| && ents[k] == DirEnt(BaseName(c), tree[c].Dir?);
        NothingEarlier(ents, i, k);
      }
    }
  }

  lemma StopsAtSharedDir(s: State, before: State, after: State, u: Name, dir: Path, ents: seq<DirEnt>, i: nat)
    requires Valid(after) && u in after.users && i < |ents| && Progress(s, before, u, dir, ents, i)
    requires dir + [ents[i].name] == SharedDir(u) && Under(before.tree, SharedDir(u)) == Under(s.tree, SharedDir(u))
    requires Pruned(before, after, Under(before.tree, SharedDir(u)))
    ensures StoppedAtSharedDir(s, after, u)
  {
    assert Root(u) + [SHARED] == dir + [ents[i].name];
    assert (Root(u) + [SHARED])[|dir|] == ents[i].name && dir == (Root(u) + [SHARED])[..|dir|];
    KeptDirIsDir(after, u);
    DoneIsListedBefore(s.tree, u, ents, i);
    PrunedTwice(s, before, after, Subtrees(s.tree, Firsts(dir, ents, i)), Under(before.tree, SharedDir(u)));
  }

  lemma EndOfLoop(s: State, t: State, u: Name, dir: Path, ents: seq<DirEnt>)
    requires Valid(s) && u in s.users && Progress(s, t, u, dir, ents, |ents|)
    ensures dir != Root(u) && Pruned(s, t, Under(s.tree, dir))
  {
    AllSubtrees(s, dir);
    assert Firsts(dir, ents, |ents|) == Children(s.tree, dir);
    RootHasSharedDir(s, u);
  }

  lemma ChildUnder(tree: map<Path, Node>, dir: Path, c: Path)
    requires c in Children(tree, dir)
    ensures Under(tree, c) < Under(tree, dir)
  {
    assert dir < c;
    assert c in Under(tree, dir) && c !in Under(tree, c);
    forall p | p in Under(tree, c) ensures p in Under(tree, dir) {
      assert dir == p[..|dir|];
    }
  }

  /** The body of its loop: recurse into a directory, then remove the entry. */
  method RemoveEntry(srv: Server, u: Name, c: Path, isDir: bool) returns (ok: bool)
    requires Valid(srv.Contents()) && u in srv.users
    requires c in srv.tree && |c| > 1 && c[0] == u && srv.tree[c].Dir? == isDir
    modifies srv
    ensures Valid(srv.Contents()) && u in srv.users
    ensures ok <==> c != SharedDir(u)
    ensures ok ==> Pruned(old(srv.Contents()), srv.Contents(), Under(old(srv.tree), c) + {c})
    ensures !ok ==> Pruned(old(srv.Contents()), srv.Contents(), Under(old(srv.tree), c))
    decreases Under(srv.tree, c), 1
  {
    ghost var before := srv.Contents();
    KeptDirIsDir(before, u);
    if isDir {
      var _ := RemoveAllHelper(srv, u, c);
      PrunedEmpty(before, srv.Contents(), c);
    } else {
      LinkHasNothingUnder(before, c);
      PrunedNothing(before);
    }
    RemoveEmptied(before, srv.Contents(), u, c);
    var o := srv.RemoveHandler(c, u);
    ok := o == Ok;
  }

  /** Once what is below it has gone, an entry goes too, unless it is the user's Shared_with_me. */
  lemma RemoveEmptied(before: State, middle: State, u: Name, c: Path)
    requires Valid(middle) && u in middle.users && |c| > 1 && c[0] == u && c in middle.tree
    requires middle.tree[c].Dir? ==> Children(middle.tree, c) == {}
    requires Pruned(before, middle, Under(before.tree, c))
    ensures var t := RemoveStep(middle, u, c);
            && Valid(t.0) && u in t.0.users && (t.1 == Ok <==> c != SharedDir(u))
            && Pruned(before, t.0, if c == SharedDir(u) then Under(before.tree, c) else Under(before.tree, c) + {c})
  {
    RemoveKeepsValid(middle, u, c);
    if c == SharedDir(u) {
      KeptDir(middle, u);
    } else {
      RemoveOne(middle, u, c);
      PrunedTwice(before, middle, RemoveStep(middle, u, c).0, Under(before.tree, c), {c});
    }
  }

  lemma RootHasSharedDir(s: State, u: Name)
    requires Valid(s) && u in s.users
    ensures SharedDir(u) in Children(s.tree, Root(u))
    ensures forall dir | SharedDir(u) in Children(s.tree, dir) :: dir == Root(u)
  {
    assert RootsOk(s, u);
    assert Parent(SharedDir(u)) == Root(u);
  }

  lemma KeptDirIsDir(s: State, u: Name)
    requires Valid(s) && u in s.users
    ensures SharedDir(u) in s.tree && s.tree[SharedDir(u)].Dir? && SharedDir(u) != Root(u)
  {
    assert RootsOk(s, u);
  }

  lemma UnderIsDir(s: State, c: Path, p: Path)
    requires TreeOk(s) && p in s.tree && c != [] && c < p
    ensures c in s.tree && s.tree[c].Dir?
  {
    PrefixesPresent(s, p, |c|);
    assert p[..|c|] == c;
  }

  lemma LinkHasNothingUnder(s: State, c: Path)
    requires Valid(s) && c in s.tree && c != [] && s.tree[c].Link?
    ensures Under(s.tree, c) == {}
  {
    if Under(s.tree, c) != {} {
      var p :| p in Under(s.tree, c);
      UnderIsDir(s, c, p);
    }
  }

  lemma KeptDir(s: State, u: Name)
    requires Valid(s) && u in s.users
    ensures RemoveStep(s, u, SharedDir(u)) == (s, SharedDirKept)
  {
    assert RootsOk(s, u);
    EntryFound(s, SharedDir(u));
    forall k <- s.sharedata ensures k != SharedDir(u) && s.sharedata[k].origpath != SharedDir(u) {
      assert Coherent(s, k);
    }
  }

  // ----- What it does to the counts

  /** Each stored file loses exactly its owner links among the entries that went from its count, and is
      reclaimed exactly when all its owner links were among them. */
  lemma CountsLowered(s: State, t: State, gone: set<Path>, f: string)
    requires Valid(s) && Valid(t) && Pruned(s, t, gone) && f in s.filedata
    ensures f in t.filedata ==> Owners(t.tree, f) == Owners(s.tree, f) - gone
    ensures f in t.filedata ==> t.filedata[f].numowners == s.filedata[f].numowners - |Owners(s.tree, f) * gone|
    ensures f !in t.filedata <==> Owners(s.tree, f) <= gone
  {
    forall k <- RowsOf(s.sharedata, gone) ensures InShared(k) {
      assert ShareRowOk(s, k);
    }
    var before, after := Owners(s.tree, f), Owners(t.tree, f);
    assert after == before - gone;
    assert RowOk(s, f);
    assert before == after + before * gone;
    assert |before| == |after| + |before * gone|;
    assert f in t.filedata ==> RowOk(t, f);
    if after != {} {
      var p :| p in after;
      LinkRow(t, p);
    }
  }
}
