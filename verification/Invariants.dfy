/** The invariant is kept by every handler, one state change at a time. */
module Invariants {
  import opened Decimal
  import opened Paths
  import opened Store
  import opened Handlers

  // ----- Lookups in a well-formed tree

  predicate Closed(kinds: Kinds) {
    forall p {:trigger Seated(kinds, p)} | p in kinds :: Seated(kinds, p)
  }

  predicate Seated(kinds: Kinds, p: Path) {
    p != [] && NoNul(p) && (|p| > 1 ==> Parent(p) in kinds && kinds[Parent(p)])
  }

  lemma {:induction false} NoNulAll(p: Path)
    ensures NoNul(p) <==> forall c <- p :: '\0' !in c
    decreases |p|
  {
    if p != [] {
      NoNulAll(Parent(p));
      assert p == Parent(p) + [p[|p| - 1]];
    }
  }

  lemma {:induction false} LookupHere(kinds: Kinds, p: Path)
    requires Closed(kinds) && p in kinds
    ensures Lookup(kinds, p) == Here(kinds[p])
    decreases |p|
  {
    assert Seated(kinds, p);
    if |p| == 1 {
      assert Parent(p) == [];
    } else {
      LookupHere(kinds, Parent(p));
    }
  }

  lemma TreeClosed(s: State)
    requires TreeOk(s)
    ensures Closed(KindsOf(s.tree))
  {
    var kinds := KindsOf(s.tree);
    forall p | p in kinds ensures Seated(kinds, p) {
      assert EntryOk(s, p);
    }
  }

  /** In a well-formed tree an entry can be created exactly where there is none and the parent is a directory. */
  lemma CreatePlace(kinds: Kinds, p: Path)
    requires Closed(kinds) && p != []
    ensures CanCreate(kinds, p) <==> NoNul(p) && p !in kinds && (|p| == 1 || (Parent(p) in kinds && kinds[Parent(p)]))
  {
    if |p| == 1 {
      assert Parent(p) == [];
    } else if Parent(p) in kinds {
      LookupHere(kinds, Parent(p));
    }
  }

  /** The first n components lead through directories only. */
  ghost predicate DirsTo(kinds: Kinds, p: Path, n: nat) {
    n <= |p| && forall i | 0 < i <= n :: p[..i] in kinds && kinds[p[..i]]
  }

  lemma DirsOneMore(kinds: Kinds, p: Path, n: nat)
    requires p != [] && n < |p|
    ensures DirsTo(kinds, Parent(p), n) <==> DirsTo(kinds, p, n)
    ensures n > 0 ==> Parent(p)[..n] == p[..n]
  {
    forall i | 0 < i <= n ensures Parent(p)[..i] == p[..i] {
    }
  }

  /** Exactly what a lookup finds at a path without a NUL: a directory at the end of directories, a file
      there, the first component that is missing, or a file in the way. */
  lemma {:induction false} LookupExactly(kinds: Kinds, p: Path)
    requires NoNul(p)
    ensures Lookup(kinds, p) != Invalid
    ensures Lookup(kinds, p) == Here(true) <==> DirsTo(kinds, p, |p|)
    ensures Lookup(kinds, p) == Here(false) <==> p != [] && DirsTo(kinds, p, |p| - 1) && p in kinds && !kinds[p]
    ensures Lookup(kinds, p) == Missing <==> exists n :: 0 <= n < |p| && DirsTo(kinds, p, n) && p[..n + 1] !in kinds
    ensures Lookup(kinds, p) == NotDir
       <==> exists n :: 0 <= n < |p| - 1 && DirsTo(kinds, p, n) && p[..n + 1] in kinds && !kinds[p[..n + 1]]
    decreases |p|
  {
    if p != [] {
      var q := Parent(p);
      LookupExactly(kinds, q);
      forall n: nat | n < |p|
        ensures DirsTo(kinds, q, n) <==> DirsTo(kinds, p, n)
        ensures n < |q| ==> q[..n + 1] == p[..n + 1]
      {
        DirsOneMore(kinds, p, n);
      }
      assert q[..|q|] == q && p[..|p|] == p;
    }
  }

  /** The link after the first n components dangles. */
  predicate DanglesAt(tree: map<Path, Node>, blobs: map<string, Bytes>, p: Path, n: nat) {
    n < |p| && p[..n + 1] in tree && tree[p[..n + 1]].Link? && tree[p[..n + 1]].target !in blobs
  }

  lemma {:induction false} ThroughExactly(tree: map<Path, Node>, blobs: map<string, Bytes>, p: Path)
    requires NoNul(p)
    ensures ThroughDangling(tree, blobs, p)
       <==> exists n :: 0 <= n < |p| - 1 && DirsTo(KindsOf(tree), p, n) && DanglesAt(tree, blobs, p, n)
    decreases |p|
  {
    if p != [] {
      var q := Parent(p);
      LookupExactly(KindsOf(tree), q);
      ThroughExactly(tree, blobs, q);
      forall n: nat | n < |p|
        ensures DirsTo(KindsOf(tree), q, n) <==> DirsTo(KindsOf(tree), p, n)
        ensures n < |q| ==> (DanglesAt(tree, blobs, q, n) <==> DanglesAt(tree, blobs, p, n))
      {
        DirsOneMore(KindsOf(tree), p, n);
        assert n < |q| ==> q[..n + 1] == p[..n + 1];
      }
      assert q[..|q|] == q;
    }
  }

  /** And exactly when Stat, which follows links, finds nothing: where the first component that is no
      directory is missing or a link that dangles. */
  lemma StatMissingExactly(tree: map<Path, Node>, blobs: map<string, Bytes>, p: Path)
    requires NoNul(p)
    ensures Stat(tree, blobs, p).Missing?
       <==> exists n :: 0 <= n < |p| && DirsTo(KindsOf(tree), p, n) && (p[..n + 1] !in tree || DanglesAt(tree, blobs, p, n))
  {
    LookupExactly(KindsOf(tree), p);
    ThroughExactly(tree, blobs, p);
    assert p[..|p|] == p;
  }

  lemma LeafClosed(tree: map<Path, Node>, k: Path, n: Node)
    requires Closed(KindsOf(tree)) && CanCreate(KindsOf(tree), k)
    ensures Closed(KindsOf(tree[k := n]))
  {
    var kinds := KindsOf(tree[k := n]);
    CreatePlace(KindsOf(tree), k);
    forall p | p in kinds ensures Seated(kinds, p) {
      assert p != k ==> Seated(KindsOf(tree), p);
    }
  }

  lemma EntryFound(s: State, p: Path)
    requires TreeOk(s) && p in s.tree
    ensures Lookup(KindsOf(s.tree), p) == Here(s.tree[p].Dir?)
  {
    TreeClosed(s);
    LookupHere(KindsOf(s.tree), p);
  }

  lemma LinkFound(s: State, p: Path)
    requires TreeOk(s) && FilesOk(s) && p in s.tree && s.tree[p].Link?
    ensures Stat(s.tree, s.blobs, p) == Here(false)
  {
    EntryFound(s, p);
    assert TargetOk(s, p);
    assert RowOk(s, s.tree[p].target);
  }

  /** While no link dangles, nothing is missing behind one. */
  lemma {:induction false} NothingDangles(s: State, p: Path)
    requires FilesOk(s)
    ensures !ThroughDangling(s.tree, s.blobs, p)
    ensures Lstat(s.tree, s.blobs, p) == Lookup(KindsOf(s.tree), p)
    decreases |p|
  {
    if p != [] {
      NothingDangles(s, Parent(p));
      if Parent(p) in s.tree && s.tree[Parent(p)].Link? {
        assert TargetOk(s, Parent(p));
        assert RowOk(s, s.tree[Parent(p)].target);
      }
    }
  }

  // ----- File names

  lemma FileNameInjective(m: int, n: int)
    ensures FileName(m) == FileName(n) <==> m == n
  {
    assert FileName(m)[4..] == Itoa(m) && FileName(n)[4..] == Itoa(n);
    ItoaInjective(m, n);
  }

  /** The counter's next name is fresh, and handing it out extends the used names by exactly it. */
  lemma NextNameFresh(n: int)
    requires n >= 1
    ensures FileName(n) !in FileNames(n)
    ensures FileNames(n + 1) == FileNames(n) + {FileName(n)}
  {
    if FileName(n) in FileNames(n) {
      var k :| 1 <= k < n && FileName(k) == FileName(n);
      FileNameInjective(k, n);
    }
    forall f | f in FileNames(n + 1)
      ensures f in FileNames(n) + {FileName(n)}
    {
      var k :| 1 <= k < n + 1 && FileName(k) == f;
    }
  }

  // ----- Owner counts

  lemma OwnersWithout(tree: map<Path, Node>, gone: set<Path>, f: string)
    ensures Owners(tree - gone, f) == Owners(tree, f) - gone
  {
  }

  lemma OwnersWith(tree: map<Path, Node>, p: Path, n: Node, f: string)
    requires p !in tree
    ensures Owners(tree[p := n], f) == if n == Link(f) && !InShared(p) then Owners(tree, f) + {p} else Owners(tree, f)
  {
  }

  /** The stored row for a digest is the one the table finds. */
  lemma ByHashFinds(filedata: map<string, FileRow>, f: string)
    requires UniqueHashes(filedata) && f in filedata
    ensures ByHash(filedata, filedata[f].filehash) == Some(f)
  {
    var g :| g in filedata && filedata[g].filehash == filedata[f].filehash && ByHash(filedata, filedata[f].filehash) == Some(g);
    assert HashesApart(filedata, f, g);
  }

  // ----- Entries taken away and added

  /** Taking away links, or an empty directory that is nobody's root or Shared_with_me, leaves a tree. */
  lemma TreeWithout(s: State, gone: set<Path>)
    requires TreeOk(s)
    requires forall p | p in gone && p in s.tree :: s.tree[p].Link? || (EmptyDir(KindsOf(s.tree), p) && p != [] && p != SharedDir(p[0]))
    ensures TreeOk(s.(tree := s.tree - gone))
  {
    var t := s.(tree := s.tree - gone);
    forall p <- t.tree ensures EntryOk(t, p) {
      assert EntryOk(s, p);
      assert |p| > 1 ==> Parent(p) <= p && p in KindsOf(s.tree);
    }
    forall u <- s.users ensures RootsOk(t, u) {
      assert RootsOk(s, u);
      assert SharedDir(u) in KindsOf(s.tree);
      assert Root(u) <= SharedDir(u);
    }
  }

  lemma TreeWith(s: State, added: map<Path, Node>)
    requires TreeOk(s)
    requires forall p | p in added :: |p| > 1 && NoNul(p) && p !in s.tree && p[0] in s.users && Parent(p) in s.tree && s.tree[Parent(p)].Dir?
    ensures TreeOk(s.(tree := s.tree + added))
  {
    var t := s.(tree := s.tree + added);
    forall u <- s.users ensures RootsOk(t, u) { assert RootsOk(s, u); }
    forall q <- t.tree ensures EntryOk(t, q) {
      assert q !in added ==> EntryOk(s, q);
    }
  }

  // ----- Framing the three parts of the invariant

  lemma TreeFrame(s: State, t: State)
    requires TreeOk(s) && t.tree == s.tree && t.users == s.users
    ensures TreeOk(t)
  {
    forall u <- t.users ensures RootsOk(t, u) { assert RootsOk(s, u); }
    forall p <- t.tree ensures EntryOk(t, p) { assert EntryOk(s, p); }
  }

  /** Changes that leave every owner link alone leave the files in order. */
  lemma FilesFrame(s: State, t: State)
    requires FilesOk(s)
    requires t.blobs == s.blobs && t.filedata == s.filedata && t.filecount == s.filecount
    requires forall f <- s.filedata :: Owners(t.tree, f) == Owners(s.tree, f)
    requires forall p | p in t.tree && t.tree[p].Link? :: t.tree[p].target in s.filedata
    ensures FilesOk(t)
  {
    forall f <- t.filedata ensures RowOk(t, f) {
      assert RowOk(s, f);
    }
  }

  lemma SharesFrame(s: State, t: State)
    requires SharesOk(s) && t.sharedata == s.sharedata && s.users <= t.users
    requires forall k | k in t.tree && t.tree[k].Link? && InShared(k) :: Coherent(t, k)
    ensures SharesOk(t)
  {
    forall k <- t.sharedata ensures ShareRowOk(t, k) {
      assert ShareRowOk(s, k);
    }
  }

  lemma LinkRow(s: State, p: Path)
    requires FilesOk(s) && p in s.tree && s.tree[p].Link?
    ensures RowOk(s, s.tree[p].target)
  {
    assert TargetOk(s, p);
  }

  // ----- The parts of an upload keep the core

  /** Nobody holds a live link to what the owner shares from p. */
  predicate NoLiveShare(s: State, p: Path) {
    forall k | k in s.sharedata && k in s.tree && s.tree[k].Link? :: s.sharedata[k].origpath != p
  }

  /** A row whose owner link is unlinked keeps an exact count, no other row notices, and the row goes
      exactly when that was the last owner link. */
  lemma UnlinkRows(s: State, p: Path)
    requires FilesOk(s) && p in s.tree && s.tree[p].Link? && !InShared(p)
    ensures forall f <- Unlinked(s, p).0.filedata :: RowOk(Unlinked(s, p).0, f)
    ensures s.tree[p].target !in Unlinked(s, p).0.filedata <==> Owners(s.tree, s.tree[p].target) == {p}
    ensures Unlinked(s, p).1 == Ok
  {
    var t, f := Unlinked(s, p).0, s.tree[p].target;
    LinkRow(s, p);
    OwnersWithout(s.tree, {p}, f);
    assert p in Owners(s.tree, f);
    assert Owners(s.tree, f) == Owners(t.tree, f) + {p};
    if Owners(t.tree, f) == {} {
      assert f !in t.filedata;
    } else {
      var q :| q in Owners(t.tree, f);
      assert f in t.filedata;
    }
    forall g <- t.filedata ensures RowOk(t, g) {
      assert RowOk(s, g);
      OwnersWithout(s.tree, {p}, g);
      assert g != f ==> Owners(s.tree, g) - {p} == Owners(s.tree, g);
    }
  }

  lemma UnlinkKeepsFiles(s: State, p: Path)
    requires Core(s) && p in s.tree && s.tree[p].Link? && !InShared(p) && NoLiveShare(s, p)
    ensures FilesOk(Unlinked(s, p).0)
  {
    var t, f := Unlinked(s, p).0, s.tree[p].target;
    UnlinkRows(s, p);
    LinkRow(s, p);
    forall q <- t.tree ensures TargetOk(t, q) {
      assert TargetOk(s, q);
      if t.tree[q] == Link(f) {
        if InShared(q) {
          assert Coherent(s, q);
          assert ShareRowOk(s, q);
          assert s.sharedata[q].origpath in Owners(s.tree, f);
        } else {
          assert q in Owners(s.tree, f);
        }
      }
    }
    forall g, h | g in t.filedata && h in t.filedata ensures HashesApart(t.filedata, g, h) {
      assert HashesApart(s.filedata, g, h);
    }
  }

  /** Removing an owner link that no live share hangs on keeps the core: if it was the last owner
      link, no sharee's link can be left pointing at the reclaimed blob. */
  lemma UnlinkKeepsCore(s: State, p: Path)
    requires Core(s) && p in s.tree && s.tree[p].Link? && !InShared(p) && NoLiveShare(s, p)
    ensures Core(Unlinked(s, p).0)
    ensures Unlinked(s, p).1 == Ok
  {
    var t := Unlinked(s, p).0;
    TreeWithout(s, {p});
    TreeFrame(s.(tree := s.tree - {p}), t);
    UnlinkRows(s, p);
    UnlinkKeepsFiles(s, p);
    forall k | k in t.tree && t.tree[k].Link? && InShared(k) ensures Coherent(t, k) {
      assert Coherent(s, k);
    }
    SharesFrame(s, t);
  }

  lemma RmdirKeepsCore(s: State, p: Path)
    requires Core(s) && p in s.tree && s.tree[p].Dir?
    requires EmptyDir(KindsOf(s.tree), p) && p != [] && p != SharedDir(p[0])
    ensures Core(s.(tree := s.tree - {p}))
  {
    var t := s.(tree := s.tree - {p});
    TreeWithout(s, {p});
    forall f <- s.filedata ensures Owners(t.tree, f) == Owners(s.tree, f) {
      OwnersWithout(s.tree, {p}, f);
    }
    forall q | q in t.tree && t.tree[q].Link? ensures t.tree[q].target in s.filedata {
      assert TargetOk(s, q);
    }
    FilesFrame(s, t);
    forall k | k in t.tree && t.tree[k].Link? && InShared(k) ensures Coherent(t, k) {
      assert Coherent(s, k);
    }
    SharesFrame(s, t);
  }

  /** The place where an upload can put its link. */
  predicate Free(s: State, p: Path) {
    && p != [] && NoNul(p) && p !in s.tree && p[0] in s.users && |p| > 1 && !InShared(p)
    && Parent(p) in s.tree && s.tree[Parent(p)].Dir?
  }

  lemma FreeCreates(s: State, p: Path)
    requires TreeOk(s) && Free(s, p)
    ensures CanCreate(KindsOf(s.tree), p)
  {
    TreeClosed(s);
    CreatePlace(KindsOf(s.tree), p);
  }

  /** A fresh blob: its row has one owner and no other row notices. */
  lemma FreshKeepsFiles(s: State, p: Path, body: Bytes)
    requires FilesOk(s) && Free(s, p) && CanCreate(KindsOf(s.tree), p) && ByHash(s.filedata, Hash(body)).None?
    ensures FilesOk(Stored(s, p, body).0)
  {
    NextNameFresh(s.filecount);
    var t, f := Stored(s, p, body).0, FileName(s.filecount);
    assert f in s.filedata ==> RowOk(s, f);
    assert f !in s.filedata;
    forall q <- s.tree ensures TargetOk(t, q) && s.tree[q] != Link(f) {
      assert TargetOk(s, q);
    }
    assert TargetOk(t, p);
    assert Owners(s.tree, f) == {};
    forall g <- t.filedata ensures RowOk(t, g) {
      OwnersWith(s.tree, p, Link(f), g);
      assert g != f ==> RowOk(s, g);
    }
    forall g, h | g in t.filedata && h in t.filedata ensures HashesApart(t.filedata, g, h) {
      assert g != f && h != f ==> HashesApart(s.filedata, g, h);
    }
  }

  /** A deduplicated upload: the found row gains one owner and no other row notices. */
  lemma DedupKeepsFiles(s: State, p: Path, body: Bytes)
    requires FilesOk(s) && Free(s, p) && CanCreate(KindsOf(s.tree), p) && ByHash(s.filedata, Hash(body)).Some?
    ensures FilesOk(Stored(s, p, body).0)
  {
    var t, f := Stored(s, p, body).0, ByHash(s.filedata, Hash(body)).value;
    forall q <- s.tree ensures TargetOk(t, q) {
      assert TargetOk(s, q);
    }
    assert TargetOk(t, p);
    forall g <- t.filedata ensures RowOk(t, g) {
      OwnersWith(s.tree, p, Link(f), g);
      assert RowOk(s, g);
    }
    forall g, h | g in t.filedata && h in t.filedata ensures HashesApart(t.filedata, g, h) {
      assert HashesApart(s.filedata, g, h);
    }
  }

  /** What storing does, whichever branch it takes: the place gets a link to the body, no other entry
      and no other content changes. */
  predicate StoredAt(s: State, t: State, p: Path, body: Bytes) {
    && p in t.tree && t.tree[p].Link? && t.tree[p].target in t.blobs && t.blobs[t.tree[p].target] == body
    && t.tree == s.tree[p := t.tree[p]]
    && t.users == s.users && t.unnamed == s.unnamed && t.sharedata == s.sharedata
    && (forall f <- s.filedata :: f in t.blobs && f in s.blobs && t.blobs[f] == s.blobs[f])
  }

  /** The rows are in order, whatever the links under Shared_with_me lead to. */
  predicate RowsInOrder(s: State) {
    s.filecount >= 1 && forall f {:trigger RowOk(s, f)} | f in s.filedata :: RowOk(s, f)
  }

  lemma StoreWorks(s: State, p: Path, body: Bytes)
    requires RowsInOrder(s) && CanCreate(KindsOf(s.tree), p)
    ensures StoredAt(s, Stored(s, p, body).0, p, body)
    ensures Stored(s, p, body).1 == Ok
  {
    NextNameFresh(s.filecount);
    assert forall f <- s.filedata :: RowOk(s, f);
  }

  lemma StoreKeepsTreeAndShares(s: State, t: State, p: Path, body: Bytes)
    requires TreeOk(s) && SharesOk(s) && Free(s, p) && StoredAt(s, t, p, body)
    ensures TreeOk(t) && SharesOk(t)
  {
    TreeWith(s, map[p := t.tree[p]]);
    assert t.tree == s.tree + map[p := t.tree[p]];
    TreeFrame(s.(tree := s.tree + map[p := t.tree[p]]), t);
    forall k | k in t.tree && t.tree[k].Link? && InShared(k) ensures Coherent(t, k) {
      assert Coherent(s, k);
    }
    SharesFrame(s, t);
  }

  lemma StoreKeepsCore(s: State, p: Path, body: Bytes)
    requires Core(s) && Free(s, p)
    ensures Core(Stored(s, p, body).0)
  {
    FreeCreates(s, p);
    StoreWorks(s, p, body);
    StoreKeepsTreeAndShares(s, Stored(s, p, body).0, p, body);
    if ByHash(s.filedata, Hash(body)).None? {
      FreshKeepsFiles(s, p, body);
    } else {
      DedupKeepsFiles(s, p, body);
    }
  }

  /** Two states that differ at most in the blob under the counter's next name. */
  predicate SameButStray(s: State, t: State) {
    && t == s.(blobs := t.blobs)
    && t.blobs - {FileName(s.filecount)} == s.blobs - {FileName(s.filecount)}
  }

  /** A stray blob under the next name breaks nothing: no row has that name. */
  lemma StrayKeepsCore(s: State, t: State)
    requires Core(s) && SameButStray(s, t)
    ensures Core(t)
    ensures forall f <- s.filedata :: f in t.blobs && f in s.blobs && t.blobs[f] == s.blobs[f]
  {
    TreeFrame(s, t);
    NextNameFresh(s.filecount);
    var stray := FileName(s.filecount);
    forall f <- s.filedata ensures RowOk(t, f) && f in s.blobs && t.blobs[f] == s.blobs[f] {
      assert RowOk(s, f);
      assert f in s.blobs - {stray};
      assert (t.blobs - {stray})[f] == (s.blobs - {stray})[f];
    }
    forall f <- t.blobs ensures f in t.filedata.Keys + {stray} {
      assert f != stray ==> f in t.blobs - {stray};
    }
    forall q <- t.tree ensures TargetOk(t, q) {
      assert TargetOk(s, q);
    }
    forall k | k in t.tree && t.tree[k].Link? && InShared(k) ensures Coherent(t, k) {
      assert Coherent(s, k);
    }
    SharesFrame(s, t);
  }

  /** Where nothing can be created, storing fails and changes at most the stray blob. */
  lemma StoreFails(s: State, p: Path, body: Bytes)
    requires !CanCreate(KindsOf(s.tree), p)
    ensures Stored(s, p, body).1 == UploadFailed
    ensures SameButStray(s, Stored(s, p, body).0)
  {
  }

  // ----- uploadHelper

  /** The place holds nothing, a link, or an empty directory, its parent is a directory, and its path is one
      the file-system calls take. */
  predicate Uploadable(s: State, p: Path) {
    && |p| > 1 && NoNul(p) && Parent(p) in s.tree && s.tree[Parent(p)].Dir?
    && (p in s.tree && s.tree[p].Dir? ==> EmptyDir(KindsOf(s.tree), p))
  }

  /** From s to t the body was written at p and nobody else's entry or bytes changed. */
  predicate WrittenAt(s: State, t: State, p: Path, body: Bytes) {
    && p in t.tree && t.tree[p].Link? && t.tree[p].target in t.blobs && t.blobs[t.tree[p].target] == body
    && t.tree == s.tree[p := t.tree[p]]
    && t.users == s.users && t.unnamed == s.unnamed && t.sharedata == s.sharedata
    && (forall q | q in s.tree && q != p && s.tree[q].Link? :: SameBytes(s, t, s.tree[q].target))
  }

  predicate SameBytes(s: State, t: State, f: string) {
    f in s.blobs && f in t.blobs && t.blobs[f] == s.blobs[f]
  }

  lemma LinkBytes(s: State, q: Path)
    requires FilesOk(s) && q in s.tree && s.tree[q].Link?
    ensures SameBytes(s, s, s.tree[q].target)
  {
    LinkRow(s, q);
  }

  lemma ClearedLink(s: State, p: Path, u: Name)
    requires Core(s) && p in s.tree && s.tree[p].Link? && Allowed(p, u) && !InShared(p) && NoLiveShare(s, p)
    ensures Cleared(s, p, u) == Unlinked(s, p).0 && Core(Cleared(s, p, u))
    ensures forall q | q in s.tree && q != p && s.tree[q].Link? :: SameBytes(s, Cleared(s, p, u), s.tree[q].target)
  {
    EntryFound(s, p);
    LinkFound(s, p);
    UnlinkKeepsCore(s, p);
    var t := Unlinked(s, p).0;
    forall q | q in s.tree && q != p && s.tree[q].Link? ensures SameBytes(s, t, s.tree[q].target) {
      LinkRow(s, q);
      LinkRow(t, q);
    }
  }

  lemma ClearedDir(s: State, p: Path, u: Name)
    requires Core(s) && p in s.tree && s.tree[p].Dir? && EmptyDir(KindsOf(s.tree), p)
    requires Allowed(p, u) && !InShared(p)
    ensures Cleared(s, p, u) == s.(tree := s.tree - {p}) && Core(Cleared(s, p, u))
  {
    EntryFound(s, p);
    RmdirKeepsCore(s, p);
  }

  lemma ClearedPlace(s: State, p: Path, u: Name)
    requires Core(s) && Allowed(p, u) && p[0] in s.users && !InShared(p)
    requires NoLiveShare(s, p) && Uploadable(s, p)
    ensures Core(Cleared(s, p, u)) && Free(Cleared(s, p, u), p)
    ensures Cleared(s, p, u).tree == s.tree - {p}
    ensures Cleared(s, p, u) == s.(tree := s.tree - {p}, blobs := Cleared(s, p, u).blobs, filedata := Cleared(s, p, u).filedata)
    ensures forall q | q in s.tree && q != p && s.tree[q].Link? :: SameBytes(s, Cleared(s, p, u), s.tree[q].target)
  {
    if p !in s.tree {
      assert s.tree - {p} == s.tree;
      assert !Lookup(KindsOf(s.tree), p).Here?;
      assert Cleared(s, p, u) == s;
    } else if s.tree[p].Link? {
      ClearedLink(s, p, u);
    } else {
      ClearedDir(s, p, u);
    }
    forall q | q in s.tree && q != p && s.tree[q].Link? ensures SameBytes(s, Cleared(s, p, u), s.tree[q].target) {
      LinkBytes(s, q);
    }
  }

  /** A place that cannot be written is not cleared either, and refuses the new link. */
  lemma BlockedPlace(s: State, p: Path, u: Name)
    requires TreeOk(s) && p != [] && p[0] in s.users && !Uploadable(s, p)
    ensures Cleared(s, p, u) == s
    ensures !CanCreate(KindsOf(s.tree), p)
  {
    var kinds := KindsOf(s.tree);
    TreeClosed(s);
    CreatePlace(kinds, p);
    var v := p[0];
    assert RootsOk(s, v);
    if p in s.tree {
      EntryFound(s, p);
      assert EntryOk(s, p);
      if |p| == 1 {
        assert p == Root(v) && SharedDir(v) in kinds && Root(v) <= SharedDir(v);
      }
    } else {
      assert |p| == 1 ==> p == Root(v);
    }
  }

  lemma RelinkedEntry(tree: map<Path, Node>, p: Path, n: Node)
    ensures (tree - {p})[p := n] == tree[p := n]
  {
  }

  lemma ClearedWrites(s: State, p: Path, u: Name, body: Bytes)
    requires Core(s) && Allowed(p, u) && p[0] in s.users && !InShared(p)
    requires NoLiveShare(s, p) && Uploadable(s, p)
    ensures var t := Stored(Cleared(s, p, u), p, body); Core(t.0) && t.1 == Ok && WrittenAt(s, t.0, p, body)
  {
    var c := Cleared(s, p, u);
    var t := Stored(c, p, body).0;
    ClearedPlace(s, p, u);
    FreeCreates(c, p);
    StoreWorks(c, p, body);
    StoreKeepsCore(c, p, body);
    RelinkedEntry(s.tree, p, t.tree[p]);
    forall q | q in s.tree && q != p && s.tree[q].Link? ensures SameBytes(s, t, s.tree[q].target) {
      assert SameBytes(s, c, s.tree[q].target);
      assert TargetOk(c, q);
    }
  }

  /** Clearing and storing at a place outside every Shared_with_me that nobody holds a live share of:
      the body is written exactly when the place can be written, and otherwise nothing changes but the
      stray blob. */
  lemma ReplaceWorks(s: State, p: Path, u: Name, body: Bytes)
    requires Core(s) && Allowed(p, u) && p[0] in s.users && !InShared(p) && NoLiveShare(s, p)
    ensures var t := Stored(Cleared(s, p, u), p, body);
            && Core(t.0)
            && if Uploadable(s, p) then t.1 == Ok && WrittenAt(s, t.0, p, body)
               else t.1 == UploadFailed && SameButStray(s, t.0)
  {
    if Uploadable(s, p) {
      ClearedWrites(s, p, u, body);
    } else {
      BlockedPlace(s, p, u);
      StoreFails(s, p, body);
      StrayKeepsCore(s, Stored(s, p, body).0);
    }
  }

  /** The whole of `uploadHelper` on a place of the user's own. */
  lemma UploadWorks(s: State, p: Path, u: Name, body: Bytes)
    requires Core(s) && u in s.users && p != [] && p[0] == u && !Reserved(p, u) && NoLiveShare(s, p)
    ensures Core(Uploaded(s, p, u, body).0)
    ensures if Uploadable(s, p)
            then Uploaded(s, p, u, body).1 == Ok && WrittenAt(s, Uploaded(s, p, u, body).0, p, body)
            else Uploaded(s, p, u, body).1 == UploadFailed && SameButStray(s, Uploaded(s, p, u, body).0)
  {
    ReplaceWorks(s, p, u, body);
  }

  // ----- sharerUpload

  lemma DropSharees(s: State, sharees: set<Path>)
    requires Valid(s) && sharees <= s.sharedata.Keys
    ensures Core(s.(tree := s.tree - sharees))
    ensures forall k <- sharees :: k in s.tree && s.tree[k].Link? && InShared(k)
  {
    var t := s.(tree := s.tree - sharees);
    forall k <- sharees ensures k in s.tree && s.tree[k].Link? && InShared(k) {
      assert Coherent(s, k);
      assert ShareRowOk(s, k);
    }
    TreeWithout(s, sharees);
    forall f <- s.filedata ensures Owners(t.tree, f) == Owners(s.tree, f) {
      OwnersWithout(s.tree, sharees, f);
    }
    forall q | q in t.tree && t.tree[q].Link? ensures t.tree[q].target in s.filedata {
      assert TargetOk(s, q);
    }
    FilesFrame(s, t);
    forall k | k in t.tree && t.tree[k].Link? && InShared(k) ensures Coherent(t, k) {
      assert Coherent(s, k);
      assert ShareRowOk(s, k);
    }
    SharesFrame(s, t);
  }

  /** Every row with this origpath is the sharer's: unlinking its sharees leaves no live share of p. */
  lemma AllShareesFound(s: State, u: Name, p: Path)
    requires SharesOk(s) && p != [] && p[0] == u
    ensures forall k <- s.sharedata :: s.sharedata[k].origpath == p <==> k in ShareesOf(s.sharedata, u, p)
    ensures NoLiveShare(s.(tree := s.tree - ShareesOf(s.sharedata, u, p)), p)
  {
    assert forall k <- s.sharedata :: ShareRowOk(s, k);
  }

  /** Putting links under Shared_with_me that agree with their rows keeps the core. */
  lemma RelinkKeepsCore(s: State, sharees: set<Path>, n: Node)
    requires Core(s) && sharees <= s.sharedata.Keys && n.Link? && n.target in s.filedata
    requires forall k <- sharees :: k !in s.tree && s.sharedata[k].origpath in s.tree && s.tree[s.sharedata[k].origpath] == n
    ensures Core(s.(tree := s.tree + LinksTo(sharees, n)))
  {
    var added := LinksTo(sharees, n);
    var t := s.(tree := s.tree + added);
    forall k | k in added
      ensures |k| > 1 && NoNul(k) && k !in s.tree && k[0] in s.users && Parent(k) in s.tree && s.tree[Parent(k)].Dir? && InShared(k)
    {
      assert ShareRowOk(s, k);
      assert RootsOk(s, k[0]);
      assert Parent(k) == SharedDir(k[0]);
    }
    TreeWith(s, added);
    forall f <- s.filedata ensures Owners(t.tree, f) == Owners(s.tree, f) {
    }
    forall q | q in t.tree && t.tree[q].Link? ensures t.tree[q].target in s.filedata {
      assert q !in added ==> TargetOk(s, q);
    }
    FilesFrame(s, t);
    forall k | k in t.tree && t.tree[k].Link? && InShared(k) ensures Coherent(t, k) {
      assert k !in added ==> Coherent(s, k);
    }
    SharesFrame(s, t);
  }

  /** The place an owner shares from: an owner link of the sharer's, outside Shared_with_me. */
  predicate SharedFrom(s: State, sharer: Name, p: Path) {
    && exists k <- s.sharedata :: s.sharedata[k].origpath == p && s.sharedata[k].sharer == sharer
  }

  lemma SharedPlace(s: State, sharer: Name, p: Path)
    requires Valid(s) && SharedFrom(s, sharer, p)
    ensures sharer in s.users && |p| > 1 && p[0] == sharer && !(SHARED <= p[1]) && !Reserved(p, sharer) && !InShared(p)
    ensures p in s.tree && s.tree[p].Link? && Uploadable(s, p) && p !in s.sharedata
  {
    var k :| k in s.sharedata && s.sharedata[k].origpath == p && s.sharedata[k].sharer == sharer;
    assert ShareRowOk(s, k);
    assert Coherent(s, k);
    assert EntryOk(s, p);
    assert p in s.sharedata ==> ShareRowOk(s, p);
  }

  /** After a shared upload the owner's link and every sharee's link lead to the new body; nobody
      else's entry or bytes changed. */
  predicate WrittenToAll(s: State, t: State, p: Path, sharees: set<Path>, body: Bytes) {
    && p in t.tree && t.tree[p].Link? && t.tree[p].target in t.blobs && t.blobs[t.tree[p].target] == body
    && t.tree == s.tree[p := t.tree[p]] + LinksTo(sharees, t.tree[p])
    && t.users == s.users && t.unnamed == s.unnamed && t.sharedata == s.sharedata
    && (forall q | q in s.tree && q != p && q !in sharees && s.tree[q].Link? :: SameBytes(s, t, s.tree[q].target))
  }

  /** The middle of `sharerUpload`: with the sharees' links gone, the upload at the owner's path works. */
  lemma UploadUnlinked(s: State, sharer: Name, p: Path, body: Bytes)
    requires Valid(s) && SharedFrom(s, sharer, p)
    ensures var sharees := ShareesOf(s.sharedata, sharer, p);
            var d := s.(tree := s.tree - sharees);
            var t := Uploaded(d, p, sharer, body);
            && Core(d) && NoLiveShare(d, p) && Uploadable(d, p)
            && t.1 == Ok && Core(t.0) && WrittenAt(d, t.0, p, body)
  {
    var sharees := ShareesOf(s.sharedata, sharer, p);
    var d := s.(tree := s.tree - sharees);
    SharedPlace(s, sharer, p);
    DropSharees(s, sharees);
    AllShareesFound(s, sharer, p);
    assert Parent(p) in d.tree;
    UploadWorks(d, p, sharer, body);
  }

  lemma RelinkedTree(tree: map<Path, Node>, sharees: set<Path>, p: Path, n: Node)
    ensures (tree - sharees)[p := n] + LinksTo(sharees, n) == tree[p := n] + LinksTo(sharees, n)
  {
  }

  lemma SharerUploadTree(s: State, sharer: Name, p: Path, body: Bytes)
    requires Valid(s) && SharedFrom(s, sharer, p)
    ensures WrittenToAll(s, SharerUploaded(s, sharer, p, body), p, ShareesOf(s.sharedata, sharer, p), body)
  {
    var sharees := ShareesOf(s.sharedata, sharer, p);
    var d := s.(tree := s.tree - sharees);
    var m := Uploaded(d, p, sharer, body).0;
    UploadUnlinked(s, sharer, p, body);
    RelinkedTree(s.tree, sharees, p, m.tree[p]);
    SharedPlace(s, sharer, p);
    assert p !in sharees;
    forall q | q in s.tree && q != p && q !in sharees && s.tree[q].Link? ensures SameBytes(s, m, s.tree[q].target) {
      assert q in d.tree;
    }
  }

  lemma SharerUploadWorks(s: State, sharer: Name, p: Path, body: Bytes)
    requires Valid(s) && SharedFrom(s, sharer, p)
    ensures Valid(SharerUploaded(s, sharer, p, body))
    ensures WrittenToAll(s, SharerUploaded(s, sharer, p, body), p, ShareesOf(s.sharedata, sharer, p), body)
  {
    var sharees := ShareesOf(s.sharedata, sharer, p);
    var m := Uploaded(s.(tree := s.tree - sharees), p, sharer, body).0;
    var t := SharerUploaded(s, sharer, p, body);
    SharedPlace(s, sharer, p);
    AllShareesFound(s, sharer, p);
    UploadUnlinked(s, sharer, p, body);
    SharerUploadTree(s, sharer, p, body);
    LinkRow(m, p);
    DropSharees(s, sharees);
    RelinkKeepsCore(m, sharees, m.tree[p]);
    forall k <- t.sharedata ensures Coherent(t, k) {
      assert Coherent(s, k);
      assert ShareRowOk(s, k);
    }
  }
}
