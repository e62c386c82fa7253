/** The name search of a share in states that accepted requests lead to: one in which it never ends, and
    one in which it ends on a name that cannot be had. */
module NameSearch {
  import opened Paths
  import opened Store
  import opened Handlers
  import opened Invariants
  import opened Steps
  import opened Confinement
  import opened UserLaws
  import opened Dispatch
  import opened Microsteps

  // ----- A file in the place of a Shared_with_me

  lemma SharedDirWritable(s: State, u: Name, v: Name, body: Bytes)
    requires Valid(s) && u in s.users && v in s.users && u < v && EmptyDir(KindsOf(s.tree), SharedDir(v))
    ensures SharedDir(v) !in s.sharedata
    ensures UploadStep(s, u, SharedDir(v), body) == (Stored(Cleared(s, SharedDir(v), u), SharedDir(v), body).0, Ok)
    ensures Stored(Cleared(s, SharedDir(v), u), SharedDir(v), body).1 == Ok
    ensures IsSharedFile(s.sharedata, SharedDir(v)).Unshared?
  {
    var dir := SharedDir(v);
    forall k <- s.sharedata ensures k != dir && s.sharedata[k].origpath != dir {
      assert ShareRowOk(s, k);
    }
    assert RootsOk(s, v) && EntryOk(s, dir);
    assert Uploadable(s, dir);
    UnconfinedUploadOkExactly(s, u, dir, body);
  }

  /** An upload onto the empty Shared_with_me of a user whose name extends the uploader's replaces the
      directory by a file. */
  lemma SharedDirOverwritten(s: State, u: Name, v: Name, body: Bytes)
    requires Valid(s) && u in s.users && v in s.users && u < v && EmptyDir(KindsOf(s.tree), SharedDir(v))
    ensures var t := UploadStep(s, u, SharedDir(v), body);
            && t.1 == Ok && t.0.users == s.users && t.0.sharedata == s.sharedata
            && Stat(t.0.tree, t.0.blobs, SharedDir(v)) == Here(false)
            && forall q | q in s.tree && s.tree[q].Link? :: Stat(t.0.tree, t.0.blobs, q) == Here(false)
  {
    var dir, c := SharedDir(v), Cleared(s, SharedDir(v), u);
    var t := UploadStep(s, u, dir, body).0;
    SharedDirWritable(s, u, v, body);
    UnconfinedWrites(s, u, dir, body);
    ClearedClosed(s, u, dir);
    StoredOkIff(c, dir, body);
    LeafClosed(c.tree, dir, t.tree[dir]);
    LookupHere(KindsOf(t.tree), dir);
    forall q | q in s.tree && s.tree[q].Link? ensures Stat(t.tree, t.blobs, q) == Here(false) {
      LinkRow(s, q);
      LookupHere(KindsOf(t.tree), q);
    }
  }

  /** From then on every share with that user that passes the tests hangs. */
  lemma SharesHang(s: State, u: Name, v: Name, body: Bytes, op: Op)
    requires Valid(s) && u in s.users && v in s.users && u < v && EmptyDir(KindsOf(s.tree), SharedDir(v))
    requires var t := UploadStep(s, u, SharedDir(v), body).0;
             op.Share? && op.sharee == v && ShareTests(t, op.u, op.p, v, op.perm).None?
    ensures Step(UploadStep(s, u, SharedDir(v), body).0, op).1 == Hangs
  {
    SharedDirOverwritten(s, u, v, body);
    HangsExactly(UploadStep(s, u, SharedDir(v), body).0, op);
  }

  const UPLOAD_ONTO_SHARED: Op := Upload(BOB, SharedDir(BOBBY), [])

  /** bob's file, and another in the place of bobby's Shared_with_me. */
  const OVERWRITTEN: seq<Op> := TWO_SIGNUPS + [UPLOAD_BY_BOB] + [UPLOAD_ONTO_SHARED]

  lemma BobbysSharedDirEmpty()
    ensures EmptyDir(KindsOf(Run(INITIAL, TWO_SIGNUPS + [UPLOAD_BY_BOB]).tree), SharedDir(BOBBY))
  {
    AfterTwoSignups();
    TopFileWritable(Run(INITIAL, TWO_SIGNUPS), BOB, "f", []);
    RunAppend(INITIAL, TWO_SIGNUPS, UPLOAD_BY_BOB);
  }

  lemma AfterOverwriting()
    ensures var t := Run(INITIAL, OVERWRITTEN);
            && t.users == {BOB, BOBBY} && t.sharedata == map[] && Stat(t.tree, t.blobs, SharedDir(BOBBY)) == Here(false)
            && Stat(t.tree, t.blobs, [BOB, "f"]) == Here(false)
  {
    AfterTwoSignups();
    AfterUpload();
    BobbysSharedDirEmpty();
    SharedDirOverwritten(Run(INITIAL, TWO_SIGNUPS + [UPLOAD_BY_BOB]), BOB, BOBBY, []);
    RunAppend(INITIAL, TWO_SIGNUPS + [UPLOAD_BY_BOB], UPLOAD_ONTO_SHARED);
  }

  /** A run of four accepted requests, without a NUL, after which a share hangs. */
  lemma FileHangs()
    ensures Step(Run(INITIAL, OVERWRITTEN), SHARE_WITH_BOBBY).1 == Hangs
    ensures NeverReturns(HANDLER_CODE, Run(INITIAL, OVERWRITTEN), SHARE_WITH_BOBBY)
  {
    AfterOverwriting();
    HangsExactly(Run(INITIAL, OVERWRITTEN), SHARE_WITH_BOBBY);
    CallReturnsExactly(Run(INITIAL, OVERWRITTEN), SHARE_WITH_BOBBY);
  }

  const SHARE_OF_NUL: Op := Share(BOB, [BOB, "f\0"], BOBBY, "r")

  /** And two signups after which one with a NUL does, though nothing has that name. */
  lemma NulHangs()
    ensures Valid(Run(INITIAL, TWO_SIGNUPS)) && Step(Run(INITIAL, TWO_SIGNUPS), SHARE_OF_NUL).1 == Hangs
    ensures NeverReturns(HANDLER_CODE, Run(INITIAL, TWO_SIGNUPS), SHARE_OF_NUL)
  {
    AfterTwoSignups();
    ValidHangsExactly(Run(INITIAL, TWO_SIGNUPS), SHARE_OF_NUL);
    CallReturnsExactly(Run(INITIAL, TWO_SIGNUPS), SHARE_OF_NUL);
  }

  // ----- A dangling link in the place of a name

  /** In any state, when the share of a file succeeds whose search ends: when the sharee's Shared_with_me
      is there and the name it ends on is no dangling link. Otherwise nothing changes. */
  lemma ShareOkExactly(s: State, u: Name, p: Path, sharee: Name, perm: string)
    requires ShareRefusal(s, u, p, sharee, perm).None? && Lookup(KindsOf(s.tree), p) == Here(false)
    ensures var t := ShareStep(s, u, p, sharee, perm);
            && (t.1 == Ok <==> Lookup(KindsOf(s.tree), SharedDir(sharee)) == Here(true) && SearchedPath(s, sharee, p) !in s.tree)
            && (t.1 != Ok ==> t == (s, CannotCreate))
  {
    var n := Candidate(BaseName(p), FirstMissing(s, sharee, BaseName(p), 0));
    CandidateNoNul(BaseName(p), FirstMissing(s, sharee, BaseName(p), 0));
    SharedPlaceNoNul(sharee, n);
  }

  /** The removal, by a user whose name the owner's extends, of a shared file nobody else owns leaves the
      sharees' links dangling. */
  lemma RemovalLeavesDangling(s: State, u: Name, p: Path, k: Path)
    requires Valid(s) && u in s.users && Allowed(p, u) && p[0] != u && k in s.sharedata && s.sharedata[k].origpath == p
    requires p in s.tree && s.tree[p].Link? && s.tree[p].target in s.filedata && s.filedata[s.tree[p].target].numowners == 1
    ensures var t := RemoveStep(s, u, p);
            t.1 == Ok && k in t.0.tree && t.0.users == s.users && Stat(t.0.tree, t.0.blobs, k).Missing?
  {
    assert IsSharedFile(s.sharedata, p).AsSharer?;
    assert Coherent(s, k) && ShareRowOk(s, k);
    Invariants.LinkFound(s, p);
    EntryFound(s, p);
    LinkRow(s, p);
    NoShareesFound(s, u, p);
    assert s.tree - {} == s.tree && s.sharedata - {} == s.sharedata;
    assert RemoveStep(s, u, p) == Unlinked(s, p);
    UnconfinedRemoves(s, u, p);
    LookupHere(KindsOf(RemoveStep(s, u, p).0.tree), k);
  }

  /** Where a dangling link has the name of a file, the file cannot be shared with that user: the search
      ends on the link. */
  lemma DanglingRefusesShares(s: State, u: Name, p: Path, sharee: Name, perm: string)
    requires ShareRefusal(s, u, p, sharee, perm).None? && Lookup(KindsOf(s.tree), p) == Here(false)
    requires var k := SharedDir(sharee) + [BaseName(p)]; k in s.tree && Stat(s.tree, s.blobs, k).Missing?
    ensures ShareStep(s, u, p, sharee, perm) == (s, CannotCreate)
  {
    assert StatCandidate(s, sharee, BaseName(p), 0).Missing?;
    assert FirstMissing(s, sharee, BaseName(p), 0) == 0;
    ShareOkExactly(s, u, p, sharee, perm);
  }

  /** So after such a removal no file of that name can be shared with such a sharee. */
  lemma RemovalRefusesShares(s: State, u: Name, p: Path, k: Path, op: Op)
    requires Valid(s) && u in s.users && Allowed(p, u) && p[0] != u && k in s.sharedata && s.sharedata[k].origpath == p
    requires p in s.tree && s.tree[p].Link? && s.tree[p].target in s.filedata && s.filedata[s.tree[p].target].numowners == 1
    requires op.Share? && op.p != [] && k == SharedDir(op.sharee) + [BaseName(op.p)]
    requires var t := RemoveStep(s, u, p).0;
             ShareRefusal(t, op.u, op.p, op.sharee, op.perm).None? && Lookup(KindsOf(t.tree), op.p) == Here(false)
    ensures Step(RemoveStep(s, u, p).0, op) == (RemoveStep(s, u, p).0, CannotCreate)
  {
    RemovalLeavesDangling(s, u, p, k);
    DanglingRefusesShares(RemoveStep(s, u, p).0, op.u, op.p, op.sharee, op.perm);
  }
}
