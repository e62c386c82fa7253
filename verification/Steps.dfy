/** Every request inside the user's root keeps the invariant, and so does every run of them; and which
    failures and exits can happen from a valid state at all. */
module Steps {
  import opened Paths
  import opened Store
  import opened Handlers
  import opened Invariants

  // ----- Shares taken away and added

  lemma RowsOnly(s: State, t: State)
    requires TreeOk(s) && FilesOk(s) && t == s.(sharedata := t.sharedata)
    ensures TreeOk(t) && FilesOk(t)
  {
    TreeFrame(s, t);
    forall q <- t.tree ensures TargetOk(t, q) { assert TargetOk(s, q); }
    forall f <- t.filedata ensures RowOk(t, f) { assert RowOk(s, f); }
  }

  /** No place is shared from a sharee's place. */
  lemma OriginsApart(s: State, k: Path)
    requires SharesOk(s) && k in s.sharedata
    ensures s.sharedata[k].origpath !in s.sharedata
  {
    assert ShareRowOk(s, k);
    forall j <- s.sharedata ensures j != s.sharedata[k].origpath {
      assert ShareRowOk(s, j);
    }
  }

  /** Dropping rows together with their links keeps the invariant. */
  lemma DropShares(s: State, gone: set<Path>)
    requires Valid(s) && gone <= s.sharedata.Keys
    ensures Valid(s.(tree := s.tree - gone, sharedata := s.sharedata - gone))
    ensures forall k <- gone :: k in s.tree && s.tree[k].Link? && InShared(k)
  {
    DropSharees(s, gone);
    var d := s.(tree := s.tree - gone);
    var t := d.(sharedata := s.sharedata - gone);
    RowsOnly(d, t);
    forall k <- t.sharedata ensures ShareRowOk(t, k) && Coherent(t, k) {
      assert ShareRowOk(s, k);
      assert Coherent(s, k);
      OriginsApart(s, k);
    }
    forall j, k | j in t.sharedata && k in t.sharedata ensures SharesApart(t.sharedata, j, k) {
      assert SharesApart(s.sharedata, j, k);
    }
    forall k | k in t.tree && t.tree[k].Link? && InShared(k) ensures Coherent(t, k) {
      assert Coherent(s, k);
    }
  }

  /** At most one row has a given sharer, sharee and origpath. */
  lemma MatchingAtMostOne(s: State, u: Name, sharee: Name, p: Path)
    requires UniqueShares(s.sharedata)
    ensures |Matching(s.sharedata, u, sharee, p)| <= 1
  {
    var rows := Matching(s.sharedata, u, sharee, p);
    if rows != {} {
      var j :| j in rows;
      forall k | k in rows ensures k == j {
        assert SharesApart(s.sharedata, j, k);
      }
      assert rows == {j};
    }
  }

  lemma MatchingOne(s: State, u: Name, sharee: Name, p: Path, k: Path)
    requires UniqueShares(s.sharedata) && k in Matching(s.sharedata, u, sharee, p)
    ensures Matching(s.sharedata, u, sharee, p) == {k}
  {
    forall j | j in Matching(s.sharedata, u, sharee, p) ensures j == k {
      assert SharesApart(s.sharedata, j, k);
    }
  }

  predicate NewShare(s: State, k: Path, r: ShareRow) {
    && |k| == 3 && k[0] == r.sharee && k[1] == SHARED && NoNul(k) && k !in s.tree
    && r.sharer != r.sharee && r.sharer in s.users && r.sharee in s.users && (r.perm == 0 || r.perm == 1)
    && r.origpath in s.tree && s.tree[r.origpath].Link?
    && |r.origpath| >= 2 && r.origpath[0] == r.sharer && !(SHARED <= r.origpath[1])
    && Matching(s.sharedata, r.sharer, r.sharee, r.origpath) == {}
  }

  lemma AddShareFiles(s: State, k: Path, r: ShareRow)
    requires TreeOk(s) && FilesOk(s) && NewShare(s, k, r)
    ensures var t := s.(tree := s.tree[k := s.tree[r.origpath]]); TreeOk(t) && FilesOk(t)
  {
    var n := s.tree[r.origpath];
    var t := s.(tree := s.tree[k := n]);
    assert RootsOk(s, r.sharee);
    assert Parent(k) == SharedDir(r.sharee);
    TreeWith(s, map[k := n]);
    assert t.tree == s.tree + map[k := n];
    forall f <- s.filedata ensures Owners(t.tree, f) == Owners(s.tree, f) {
      OwnersWith(s.tree, k, n, f);
    }
    forall q | q in t.tree && t.tree[q].Link? ensures t.tree[q].target in s.filedata {
      LinkRow(s, if q == k then r.origpath else q);
    }
    FilesFrame(s, t);
  }

  /** Sharing an owner link with a new sharee, at a free place of its Shared_with_me, keeps the invariant. */
  lemma AddShare(s: State, k: Path, r: ShareRow)
    requires Valid(s) && NewShare(s, k, r)
    ensures Valid(s.(tree := s.tree[k := s.tree[r.origpath]], sharedata := s.sharedata[k := r]))
  {
    var m := s.(tree := s.tree[k := s.tree[r.origpath]]);
    var t := m.(sharedata := s.sharedata[k := r]);
    AddShareFiles(s, k, r);
    RowsOnly(m, t);
    assert k in s.sharedata ==> Coherent(s, k);
    forall j <- t.sharedata ensures ShareRowOk(t, j) && Coherent(t, j) {
      assert j != k ==> ShareRowOk(s, j) && Coherent(s, j);
    }
    forall i, j | i in t.sharedata && j in t.sharedata ensures SharesApart(t.sharedata, i, j) {
      SharesStayApart(s, k, r, i, j);
    }
    forall j | j in t.tree && t.tree[j].Link? && InShared(j) ensures Coherent(t, j) {
      assert j != k ==> Coherent(s, j);
    }
  }

  lemma SharesStayApart(s: State, k: Path, r: ShareRow, i: Path, j: Path)
    requires SharesOk(s) && k !in s.sharedata
    requires r.origpath != [] && r.origpath[0] == r.sharer
    requires Matching(s.sharedata, r.sharer, r.sharee, r.origpath) == {}
    requires i in s.sharedata[k := r] && j in s.sharedata[k := r]
    ensures SharesApart(s.sharedata[k := r], i, j)
  {
    assert i != k ==> ShareRowOk(s, i) && i !in Matching(s.sharedata, r.sharer, r.sharee, r.origpath);
    assert j != k ==> ShareRowOk(s, j) && j !in Matching(s.sharedata, r.sharer, r.sharee, r.origpath);
    if i != k && j != k {
      assert SharesApart(s.sharedata, i, j);
    }
  }

  // ----- Uploads

  lemma NotOriginNoLiveShare(s: State, p: Path)
    requires !IsSharedFile(s.sharedata, p).AsSharer?
    ensures NoLiveShare(s, p)
  {
  }

  lemma UnsharedUploadKeepsValid(s: State, u: Name, p: Path, body: Bytes)
    requires Valid(s) && u in s.users && p != [] && p[0] == u && IsSharedFile(s.sharedata, p).Unshared?
    ensures Valid(Uploaded(s, p, u, body).0)
  {
    if !Reserved(p, u) {
      var t := Uploaded(s, p, u, body).0;
      NotOriginNoLiveShare(s, p);
      UploadWorks(s, p, u, body);
      forall k <- t.sharedata ensures Coherent(t, k) {
        assert Coherent(s, k);
      }
    }
  }

  /** A sharee's path belongs to the user who uploads to it, and its row names the owner's place. */
  lemma ShareePlace(s: State, p: Path)
    requires Valid(s) && p in s.sharedata && p != []
    ensures s.sharedata[p].sharee == p[0] && SharedFrom(s, s.sharedata[p].sharer, s.sharedata[p].origpath)
    ensures p in s.tree && s.tree[p].Link? && InShared(p) && IsSharedFile(s.sharedata, p) == AsSharee
  {
    assert ShareRowOk(s, p);
    assert Coherent(s, p);
    forall k <- s.sharedata ensures s.sharedata[k].origpath != p {
      assert ShareRowOk(s, k);
    }
  }

  lemma SharerPlace(s: State, p: Path)
    requires Valid(s) && p != [] && IsSharedFile(s.sharedata, p) == AsSharer
    ensures SharedFrom(s, p[0], p)
  {
    var k :| k in s.sharedata && s.sharedata[k].origpath == p;
    assert ShareRowOk(s, k);
  }

  lemma UploadKeepsValid(s: State, u: Name, p: Path, body: Bytes)
    requires Valid(s) && Confined(p, u)
    ensures Valid(UploadStep(s, u, p, body).0)
  {
    if u in s.users && Allowed(p, u) {
      match IsSharedFile(s.sharedata, p) {
        case Unshared => UnsharedUploadKeepsValid(s, u, p, body);
        case AsSharer =>
          SharerPlace(s, p);
          SharerUploadWorks(s, u, p, body);
        case AsSharee =>
          ShareePlace(s, p);
          SharerUploadWorks(s, s.sharedata[p].sharer, s.sharedata[p].origpath, body);
      }
    }
  }

  // ----- Removals

  /** Under Shared_with_me every link has a row, so a link without one is an owner link. */
  lemma OwnerLink(s: State, p: Path)
    requires SharesOk(s) && p in s.tree && s.tree[p].Link? && p !in s.sharedata
    ensures !InShared(p)
  {
    assert InShared(p) ==> Coherent(s, p);
  }

  lemma UnlinkKeepsValid(s: State, p: Path)
    requires Valid(s) && p in s.tree && s.tree[p].Link? && IsSharedFile(s.sharedata, p).Unshared?
    ensures Valid(Unlinked(s, p).0) && Unlinked(s, p).1 == Ok
  {
    OwnerLink(s, p);
    NotOriginNoLiveShare(s, p);
    UnlinkKeepsCore(s, p);
    var t := Unlinked(s, p).0;
    forall k <- t.sharedata ensures Coherent(t, k) {
      assert Coherent(s, k);
    }
  }

  lemma RemovedKeepsValid(s: State, u: Name, p: Path)
    requires Valid(s) && p != [] && p[0] == u && IsSharedFile(s.sharedata, p).Unshared?
    ensures Valid(Removed(s, p, u).0) && Removed(s, p, u).1 != RemoveFailed
  {
    if p in s.tree {
      EntryFound(s, p);
      if s.tree[p].Link? {
        UnlinkKeepsValid(s, p);
      } else if EmptyDir(KindsOf(s.tree), p) && p != SharedDir(u) {
        RmdirKeepsCore(s, p);
        var t := s.(tree := s.tree - {p});
        forall k <- t.sharedata ensures Coherent(t, k) {
          assert Coherent(s, k);
        }
      }
    }
  }

  /** Removing a shared file: the sharees' links and rows go first, and then nobody shares it. */
  lemma UnsharedFirst(s: State, u: Name, p: Path)
    requires Valid(s) && SharedFrom(s, u, p)
    ensures var gone := ShareesOf(s.sharedata, u, p);
            var d := s.(tree := s.tree - gone, sharedata := s.sharedata - gone);
            && Valid(d) && p in d.tree && d.tree[p] == s.tree[p] && s.tree[p].Link?
            && IsSharedFile(d.sharedata, p).Unshared?
  {
    SharedPlace(s, u, p);
    DropShares(s, ShareesOf(s.sharedata, u, p));
    AllShareesFound(s, u, p);
  }

  lemma RemoveKeepsValid(s: State, u: Name, p: Path)
    requires Valid(s) && Confined(p, u)
    ensures Valid(RemoveStep(s, u, p).0)
  {
    if u in s.users && Allowed(p, u) {
      match IsSharedFile(s.sharedata, p) {
        case Unshared => RemovedKeepsValid(s, u, p);
        case AsSharee =>
          ShareePlace(s, p);
          EntryFound(s, p);
          DropShares(s, {p});
        case AsSharer =>
          SharerPlace(s, p);
          UnsharedFirst(s, u, p);
          var gone := ShareesOf(s.sharedata, u, p);
          RemovedKeepsValid(s.(tree := s.tree - gone, sharedata := s.sharedata - gone), u, p);
      }
    }
  }

  lemma SharedRemovalNotStuck(s: State, u: Name, p: Path)
    requires Valid(s) && p != [] && IsSharedFile(s.sharedata, p).AsSharer?
    ensures var gone := ShareesOf(s.sharedata, u, p);
            Removed(s.(tree := s.tree - gone, sharedata := s.sharedata - gone), p, u).1 != RemoveFailed
  {
    var gone := ShareesOf(s.sharedata, u, p);
    SharerPlace(s, p);
    SharedPlace(s, p[0], p);
    DropShares(s, gone);
    UnlinkRows(s.(tree := s.tree - gone, sharedata := s.sharedata - gone), p);
  }

  /** From a valid state no unlink of a removal fails, whoever asks for it. */
  lemma RemoveNeverStuck(s: State, u: Name, p: Path)
    requires Valid(s)
    ensures RemoveStep(s, u, p).1 != RemoveFailed
  {
    if p != [] {
      match IsSharedFile(s.sharedata, p) {
        case Unshared =>
          if p in s.tree && s.tree[p].Link? {
            UnlinkKeepsValid(s, p);
          }
        case AsSharee =>
          ShareePlace(s, p);
          EntryFound(s, p);
        case AsSharer => SharedRemovalNotStuck(s, u, p);
      }
    }
  }

  /** Exactly when getPerms finds no row and ends the process: on an existing share in the
      Shared_with_me of a user whose name properly extends the uploader's. */
  lemma UploadExitsExactly(s: State, u: Name, p: Path, body: Bytes)
    requires Valid(s)
    ensures UploadStep(s, u, p, body).1 == Exited <==> u in s.users && Allowed(p, u) && p[0] != u && p in s.sharedata
  {
    if p != [] && p in s.sharedata {
      ShareePlace(s, p);
    }
  }

  // ----- Sharing

  /** In a well-formed tree Stat finds a candidate exactly where there is an entry. */
  lemma EntryMissing(s: State, sharee: Name, name: Name)
    requires TreeOk(s) && FilesOk(s) && sharee in s.users && '\0' !in name
    ensures Stat(s.tree, s.blobs, SharedDir(sharee)) == Here(true)
    ensures Stat(s.tree, s.blobs, SharedDir(sharee) + [name]).Missing? <==> SharedDir(sharee) + [name] !in KindsOf(s.tree)
  {
    var k := SharedDir(sharee) + [name];
    UsersNoNul(s, sharee);
    SharedPlaceNoNul(sharee, name);
    assert RootsOk(s, sharee);
    EntryFound(s, SharedDir(sharee));
    if k in s.tree {
      EntryFound(s, k);
      if s.tree[k].Link? {
        LinkFound(s, k);
      }
    }
  }

  lemma FirstMissingIsFirstFree(s: State, sharee: Name, f: Name)
    requires TreeOk(s) && FilesOk(s) && sharee in s.users && CanEnd(s, sharee, f)
    ensures FirstMissing(s, sharee, f, 0) == FirstFree(KindsOf(s.tree), SharedDir(sharee), f, 0)
  {
    var kinds, dir := KindsOf(s.tree), SharedDir(sharee);
    var m, n := FirstMissing(s, sharee, f, 0), FirstFree(kinds, dir, f, 0);
    forall i: nat ensures StatCandidate(s, sharee, f, i).Missing? <==> dir + [Candidate(f, i)] !in kinds {
      CandidateNoNul(f, i);
      EntryMissing(s, sharee, Candidate(f, i));
    }
    assert StatCandidate(s, sharee, f, n).Missing?;
    assert m < n ==> dir + [Candidate(f, m)] in kinds;
  }

  /** In a well-formed tree the search ends for every name without a NUL, on the first free one. */
  lemma SearchFindsFree(s: State, sharee: Name, p: Path)
    requires TreeOk(s) && FilesOk(s) && sharee in s.users && p != []
    ensures CanEnd(s, sharee, BaseName(p)) <==> '\0' !in BaseName(p)
    ensures '\0' !in BaseName(p) ==> SearchedPath(s, sharee, p) == ShareePath(KindsOf(s.tree), sharee, p)
  {
    UsersNoNul(s, sharee);
    if '\0' !in BaseName(p) {
      EntryMissing(s, sharee, BaseName(p));
      FirstMissingIsFirstFree(s, sharee, BaseName(p));
    }
  }

  /** The sharee's new place is free and can be created. */
  lemma ShareePathFree(s: State, sharee: Name, p: Path)
    requires TreeOk(s) && sharee in s.users && p != [] && '\0' !in BaseName(p)
    ensures var k := ShareePath(KindsOf(s.tree), sharee, p);
            |k| == 3 && k[0] == sharee && k[1] == SHARED && NoNul(k) && k !in s.tree && CanCreate(KindsOf(s.tree), k)
  {
    var kinds, k := KindsOf(s.tree), ShareePath(KindsOf(s.tree), sharee, p);
    assert RootsOk(s, sharee);
    CandidateNoNul(BaseName(p), FirstFree(kinds, SharedDir(sharee), BaseName(p), 0));
    UsersNoNul(s, sharee);
    SharedPlaceNoNul(sharee, k[2]);
    TreeClosed(s);
    CreatePlace(kinds, k);
  }

  lemma NothingSharedThere(s: State, u: Name, sharee: Name, p: Path)
    requires Valid(s) && p != [] && Endless(sharee, BaseName(p))
    ensures Matching(s.sharedata, u, sharee, p) == {}
  {
    forall k <- s.sharedata ensures s.sharedata[k].origpath != p || s.sharedata[k].sharee != sharee {
      assert Coherent(s, k) && ShareRowOk(s, k);
      assert EntryOk(s, s.sharedata[k].origpath);
      UsersNoNul(s, s.sharedata[k].sharee);
    }
  }

  /** In any state at all, exactly when a call never returns: a share that passes the tests, where a NUL is
      in the last component of the path or in the name of the sharee, or a file is where the sharee's
      Shared_with_me should be. */
  lemma HangsExactly(s: State, op: Op)
    ensures Step(s, op).1 == Hangs
       <==> && op.Share? && ShareTests(s, op.u, op.p, op.sharee, op.perm).None?
            && (Endless(op.sharee, BaseName(op.p)) || Stat(s.tree, s.blobs, SharedDir(op.sharee)) !in {Here(true), Missing})
  {
    if op.Share? && op.p != [] {
      SearchEndsExactly(s, op.sharee, BaseName(op.p));
    }
  }

  /** From a valid state only a NUL makes a call hang. */
  lemma ValidHangsExactly(s: State, op: Op)
    requires Valid(s)
    ensures Step(s, op).1 == Hangs
       <==> && op.Share? && op.u in s.users && Allowed(op.p, op.u) && HasRow(s.users, s.unnamed, op.sharee)
            && op.sharee != op.u && PermOf(op.perm).Some? && !Reserved(op.p, op.u)
            && ('\0' in BaseName(op.p) || ('\0' in op.sharee && !Stat(s.tree, s.blobs, op.p).Missing?))
  {
    HangsExactly(s, op);
    if op.Share? && op.p != [] {
      if Endless(op.sharee, BaseName(op.p)) {
        NothingSharedThere(s, op.u, op.sharee, op.p);
      } else if op.sharee in s.users {
        SearchFindsFree(s, op.sharee, op.p);
      }
    }
  }

  /** From a valid state a share goes to the first free name, and there it can be created. */
  lemma ShareGoesTo(s: State, u: Name, p: Path, sharee: Name, perm: string)
    requires TreeOk(s) && FilesOk(s) && ShareRefusal(s, u, p, sharee, perm).None?
    ensures var k := ShareePath(KindsOf(s.tree), sharee, p);
            && ShareStep(s, u, p, sharee, perm) == SharedAt(s, u, p, sharee, PermOf(perm).value, k)
            && |k| == 3 && k[0] == sharee && k[1] == SHARED && NoNul(k) && k !in s.tree && CanCreate(KindsOf(s.tree), k)
  {
    SearchFindsFree(s, sharee, p);
    ShareePathFree(s, sharee, p);
  }

  /** From a valid state the symlink of a share never fails, whoever asks for it. */
  lemma ShareNeverStuck(s: State, u: Name, p: Path, sharee: Name, perm: string)
    requires Valid(s)
    ensures ShareStep(s, u, p, sharee, perm).1 != CannotCreate
  {
    if ShareRefusal(s, u, p, sharee, perm).None? {
      ShareGoesTo(s, u, p, sharee, perm);
    }
  }

  lemma ShareKeepsValid(s: State, u: Name, p: Path, sharee: Name, perm: string)
    requires Valid(s) && Confined(p, u)
    ensures Valid(ShareStep(s, u, p, sharee, perm).0)
  {
    if ShareRefusal(s, u, p, sharee, perm).None? {
      ShareGoesTo(s, u, p, sharee, perm);
      if p in s.tree && s.tree[p].Link? {
        EntryFound(s, p);
        assert RootsOk(s, u) && (|p| == 1 ==> p == Root(u));
        MatchingAtMostOne(s, u, sharee, p);
        AddShare(s, ShareePath(KindsOf(s.tree), sharee, p), ShareRow(u, sharee, p, PermOf(perm).value));
      }
    }
  }

  lemma UnshareKeepsValid(s: State, u: Name, p: Path, sharee: Name)
    requires Valid(s)
    ensures Valid(UnshareStep(s, u, p, sharee).0) && UnshareStep(s, u, p, sharee).1 != RemoveFailed
  {
    var rows := Matching(s.sharedata, u, sharee, p);
    if |rows| == 1 {
      var k :| k in rows;
      MatchingOne(s, u, sharee, p, k);
      assert Coherent(s, k);
      EntryFound(s, k);
      DropShares(s, rows);
    }
  }

  /** The rows of t are those of s with other permissions. */
  predicate PermsOnly(s: State, t: State) {
    && t == s.(sharedata := t.sharedata) && t.sharedata.Keys == s.sharedata.Keys
    && forall k | k in s.sharedata ::
         t.sharedata[k] == s.sharedata[k].(perm := t.sharedata[k].perm) && (t.sharedata[k].perm == 0 || t.sharedata[k].perm == 1)
  }

  lemma PermsKeepShares(s: State, t: State)
    requires SharesOk(s) && PermsOnly(s, t)
    ensures SharesOk(t)
  {
    forall k <- t.sharedata ensures ShareRowOk(t, k) {
      assert ShareRowOk(s, k);
    }
    forall j, k | j in t.sharedata && k in t.sharedata ensures SharesApart(t.sharedata, j, k) {
      assert SharesApart(s.sharedata, j, k);
    }
    forall k | k in t.tree && t.tree[k].Link? && InShared(k) ensures Coherent(t, k) {
      assert Coherent(s, k);
    }
  }

  lemma PermsKeepValid(s: State, t: State)
    requires Valid(s) && PermsOnly(s, t)
    ensures Valid(t)
  {
    RowsOnly(s, t);
    PermsKeepShares(s, t);
    forall k <- t.sharedata ensures Coherent(t, k) {
      assert Coherent(s, k);
    }
  }

  lemma WithPermIsPermsOnly(s: State, rows: set<Path>, n: int)
    requires SharesOk(s) && (n == 0 || n == 1)
    ensures PermsOnly(s, s.(sharedata := WithPerm(s.sharedata, rows, n)))
  {
    forall k | k in s.sharedata ensures s.sharedata[k].perm == 0 || s.sharedata[k].perm == 1 {
      assert ShareRowOk(s, k);
    }
  }

  lemma ChpermKeepsValid(s: State, u: Name, p: Path, sharee: Name, perm: string)
    requires Valid(s)
    ensures Valid(ChpermStep(s, u, p, sharee, perm).0)
  {
    if PermOf(perm).Some? {
      WithPermIsPermsOnly(s, Matching(s.sharedata, u, sharee, p), PermOf(perm).value);
      PermsKeepValid(s, s.(sharedata := WithPerm(s.sharedata, Matching(s.sharedata, u, sharee, p), PermOf(perm).value)));
    }
  }

  // ----- Directories and users

  lemma DirKeepsFilesAndShares(s: State, t: State)
    requires FilesOk(s) && SharesOk(s) && s.users <= t.users && t == s.(tree := t.tree, users := t.users)
    requires forall p | p in s.tree :: p in t.tree && t.tree[p] == s.tree[p]
    requires forall p | p in t.tree && t.tree[p].Link? :: p in s.tree
    ensures FilesOk(t) && SharesOk(t)
  {
    forall f <- s.filedata ensures Owners(t.tree, f) == Owners(s.tree, f) {
    }
    forall q | q in t.tree && t.tree[q].Link? ensures t.tree[q].target in s.filedata {
      assert TargetOk(s, q);
    }
    FilesFrame(s, t);
    forall k | k in t.tree && t.tree[k].Link? && InShared(k) ensures Coherent(t, k) {
      assert Coherent(s, k);
    }
    SharesFrame(s, t);
  }

  lemma NewDirKeepsTree(s: State, p: Path)
    requires TreeOk(s) && |p| > 1 && CanCreate(KindsOf(s.tree), p)
    ensures TreeOk(s.(tree := s.tree[p := Dir]))
  {
    TreeClosed(s);
    CreatePlace(KindsOf(s.tree), p);
    assert EntryOk(s, Parent(p));
    TreeWith(s, map[p := Dir]);
    assert s.tree[p := Dir] == s.tree + map[p := Dir];
  }

  lemma MkdirKeepsValid(s: State, u: Name, p: Path)
    requires Valid(s) && Confined(p, u)
    ensures Valid(MkdirStep(s, u, p).0)
  {
    if u in s.users && Allowed(p, u) && CanCreate(KindsOf(s.tree), p) {
      var t := s.(tree := s.tree[p := Dir]);
      assert RootsOk(s, u) && (|p| == 1 ==> p == Root(u));
      NewDirKeepsTree(s, p);
      DirKeepsFilesAndShares(s, t);
      forall k <- t.sharedata ensures Coherent(t, k) { assert Coherent(s, k); }
    }
  }

  lemma UsersNoNul(s: State, u: Name)
    requires TreeOk(s) && u in s.users
    ensures '\0' !in u
  {
    assert RootsOk(s, u);
    assert EntryOk(s, Root(u));
  }

  lemma SignupTree(s: State, u: Name)
    requires TreeOk(s) && u !in s.users && '\0' !in u
    ensures forall p | p in s.tree :: p != Root(u) && p != SharedDir(u)
    ensures TreeOk(s.(users := s.users + {u}, tree := s.tree[Root(u) := Dir][SharedDir(u) := Dir]))
  {
    var t := s.(users := s.users + {u}, tree := s.tree[Root(u) := Dir][SharedDir(u) := Dir]);
    forall p | p in s.tree ensures p != Root(u) && p != SharedDir(u) {
      assert EntryOk(s, p);
    }
    assert Parent(SharedDir(u)) == Root(u);
    forall v <- t.users ensures RootsOk(t, v) {
      assert v != u ==> RootsOk(s, v);
    }
    forall p <- t.tree ensures EntryOk(t, p) {
      assert p in s.tree ==> EntryOk(s, p);
    }
  }

  lemma UnnamedKeepsValid(s: State, unnamed: set<string>)
    requires Valid(s)
    ensures Valid(s.(unnamed := unnamed))
  {
    var t := s.(unnamed := unnamed);
    TreeFrame(s, t);
    forall p | p in t.tree && t.tree[p].Link? ensures t.tree[p].target in s.filedata { assert TargetOk(s, p); }
    FilesFrame(s, t);
    forall k | k in t.tree && t.tree[k].Link? && InShared(k) ensures Coherent(t, k) { assert Coherent(s, k); }
    SharesFrame(s, t);
    forall k <- t.sharedata ensures Coherent(t, k) { assert Coherent(s, k); }
  }

  /** A signup keeps the invariant, and ends the process exactly for the names "", "." and ".." and those
      that hold a NUL, when they have not been inserted before. */
  lemma SignupKeepsValid(s: State, username: string, password: string)
    requires Valid(s)
    ensures Valid(SignupStep(s, username, password).0)
    ensures SignupStep(s, username, password).1 == Exited
       <==> |password| >= 6 && '/' !in username && username !in s.unnamed
            && (username == "" || username == "." || username == ".." || '\0' in username)
  {
    if IsName(username) && username in s.users {
      UsersNoNul(s, username);
    }
    if NamesDir(username) && username !in s.users {
      SignupTree(s, username);
      var t := SignupStep(s, username, password).0;
      if t != s {
        DirKeepsFilesAndShares(s, t);
        forall k <- t.sharedata ensures Coherent(t, k) { assert Coherent(s, k); }
      }
    } else if !NamesDir(username) {
      UnnamedKeepsValid(s, s.unnamed + {username});
    }
  }

  // ----- What requests do to the rows, from any state

  lemma RemovedRows(s: State, p: Path, u: Name)
    ensures Removed(s, p, u).0.sharedata == s.sharedata
  {
  }

  lemma RemoveRows(s: State, u: Name, p: Path)
    ensures var rows := RemoveStep(s, u, p).0.sharedata;
            rows == s.sharedata || rows == s.sharedata - {p} || rows == s.sharedata - ShareesOf(s.sharedata, u, p)
  {
    var gone := ShareesOf(s.sharedata, u, p);
    RemovedRows(s, p, u);
    RemovedRows(s.(tree := s.tree - gone, sharedata := s.sharedata - gone), p, u);
  }

  lemma StoredRows(s: State, p: Path, body: Bytes)
    ensures Stored(s, p, body).0.sharedata == s.sharedata
  {
  }

  lemma UploadedRows(s: State, p: Path, u: Name, body: Bytes)
    ensures Uploaded(s, p, u, body).0.sharedata == s.sharedata
  {
    RemovedRows(s, p, u);
    StoredRows(Cleared(s, p, u), p, body);
  }

  lemma SharerUploadedRows(s: State, u: Name, p: Path, body: Bytes)
    ensures SharerUploaded(s, u, p, body).sharedata == s.sharedata
  {
    UploadedRows(s.(tree := s.tree - ShareesOf(s.sharedata, u, p)), p, u, body);
  }

  lemma UploadRows(s: State, u: Name, p: Path, body: Bytes)
    ensures UploadStep(s, u, p, body).0.sharedata == s.sharedata
  {
    UploadedRows(s, p, u, body);
    SharerUploadedRows(s, u, p, body);
    if p in s.sharedata {
      SharerUploadedRows(s, s.sharedata[p].sharer, s.sharedata[p].origpath, body);
    }
  }

  // ----- Steps and runs

  lemma StepKeepsValid(s: State, op: Op)
    requires Valid(s) && ConfinedOp(op)
    ensures Valid(Step(s, op).0)
  {
    match op
    case Signup(username, password) => SignupKeepsValid(s, username, password);
    case Mkdir(u, p) => MkdirKeepsValid(s, u, p);
    case Upload(u, p, body) => UploadKeepsValid(s, u, p, body);
    case Remove(u, p) => RemoveKeepsValid(s, u, p);
    case Share(u, p, sharee, perm) => ShareKeepsValid(s, u, p, sharee, perm);
    case Unshare(u, p, sharee) => UnshareKeepsValid(s, u, p, sharee);
    case Chperm(u, p, sharee, perm) => ChpermKeepsValid(s, u, p, sharee, perm);
  }

  lemma InitialValid()
    ensures Valid(INITIAL)
  {
  }

  lemma RunAppend(s: State, ops: seq<Op>, op: Op)
    ensures Run(s, ops + [op]) == Step(Run(s, ops), op).0
  {
    assert (ops + [op])[..|ops|] == ops;
  }

  lemma {:induction false} RunKeepsValid(s: State, ops: seq<Op>)
    requires Valid(s) && forall op <- ops :: ConfinedOp(op)
    ensures Valid(Run(s, ops))
    decreases |ops|
  {
    if ops != [] {
      var n := |ops| - 1;
      RunKeepsValid(s, ops[..n]);
      StepKeepsValid(Run(s, ops[..n]), ops[n]);
    }
  }
}
