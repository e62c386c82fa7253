/** Read-only sharing is invisible to owners: erase every share operation and everything done inside
    Shared_with_me from a run, and the rest of the state - links, file store, rows, counter - and every
    remaining answer are the same. */
module ReadOnly {
  import opened Paths
  import opened Store
  import opened Handlers
  import opened Invariants
  import opened Steps
  import opened Confinement

  /** Strictly inside a Shared_with_me directory. */
  predicate Inside(p: Path) {
    |p| >= 3 && p[1] == SHARED
  }

  function Strip(tree: map<Path, Node>): map<Path, Node> {
    map p | p in tree && !Inside(p) :: tree[p]
  }

  /** The state without its shares. */
  function Owned(s: State): State {
    s.(tree := Strip(s.tree), sharedata := map[])
  }

  predicate Erased(op: Op) {
    op.Share? || op.Unshare? || op.Chperm? || (!op.Signup? && Inside(op.p))
  }

  function Kept(ops: seq<Op>): seq<Op> {
    if ops == [] then []
    else
      var n := |ops| - 1;
      Kept(ops[..n]) + if Erased(ops[n]) then [] else [ops[n]]
  }

  /** The body would be stored as a new blob that is not there yet. */
  predicate NewBlob(s: State, body: Bytes) {
    && (forall f <- s.filedata :: s.filedata[f].filehash != Hash(body))
    && !(FileName(s.filecount) in s.blobs && s.blobs[FileName(s.filecount)] == body)
  }

  /** A directory of entries that are all erased: a Shared_with_me that is not empty. */
  predicate FullSharedDir(s: State, p: Path) {
    InShared(p) && !Inside(p) && p in s.tree && !EmptyDir(KindsOf(s.tree), p)
  }

  /** The requests by which erasing the shares makes a difference, all of them let out of the user's root
      by `checkpath`: an upload into another user's Shared_with_me that stores something or leaves a stray
      blob, and an upload onto, or the removal of, another user's Shared_with_me that is not empty. */
  predicate Shows(s: State, op: Op) {
    match op
    case Upload(u, p, body) =>
      && u in s.users && Allowed(p, u) && p[0] != u
      && if Inside(p) then p !in s.sharedata && (Uploadable(s, p) || NewBlob(s, body)) else FullSharedDir(s, p)
    case Remove(u, p) => u in s.users && Allowed(p, u) && p[0] != u && FullSharedDir(s, p)
    case _ => false
  }

  predicate GrantsNoWrite(op: Op) {
    op.Share? || op.Chperm? ==> op.perm != "rw"
  }

  predicate AllReadOnly(s: State) {
    forall k <- s.sharedata :: s.sharedata[k].perm == 0
  }

  // ----- Stripping commutes with lookups and updates outside

  lemma StripWithout(tree: map<Path, Node>, gone: set<Path>)
    ensures Strip(tree - gone) == Strip(tree) - gone
    ensures (forall k <- gone :: Inside(k)) ==> Strip(tree - gone) == Strip(tree)
  {
  }

  lemma StripSet(tree: map<Path, Node>, p: Path, n: Node)
    ensures Strip(tree[p := n]) == if Inside(p) then Strip(tree) else Strip(tree)[p := n]
  {
  }

  lemma StripAdd(tree: map<Path, Node>, added: map<Path, Node>)
    requires forall k <- added :: Inside(k)
    ensures Strip(tree + added) == Strip(tree)
  {
  }

  lemma {:induction false} LookupStripped(tree: map<Path, Node>, p: Path)
    requires !Inside(p)
    ensures Lookup(KindsOf(Strip(tree)), p) == Lookup(KindsOf(tree), p)
    decreases |p|
  {
    if p != [] {
      LookupStripped(tree, Parent(p));
    }
  }

  lemma {:induction false} LstatStripped(tree: map<Path, Node>, blobs: map<string, Bytes>, p: Path)
    requires !Inside(p)
    ensures ThroughDangling(Strip(tree), blobs, p) == ThroughDangling(tree, blobs, p)
    ensures Lstat(Strip(tree), blobs, p) == Lstat(tree, blobs, p)
    decreases |p|
  {
    LookupStripped(tree, p);
    if p != [] {
      LookupStripped(tree, Parent(p));
      LstatStripped(tree, blobs, Parent(p));
    }
  }

  lemma CreateStripped(tree: map<Path, Node>, p: Path)
    requires !Inside(p)
    ensures CanCreate(KindsOf(Strip(tree)), p) == CanCreate(KindsOf(tree), p)
  {
    if p != [] {
      LookupStripped(tree, Parent(p));
    }
  }

  lemma EmptyStripped(s: State, p: Path)
    requires !Inside(p) && p in s.tree && !FullSharedDir(s, p)
    ensures EmptyDir(KindsOf(Strip(s.tree)), p) == EmptyDir(KindsOf(s.tree), p)
  {
    forall q <- KindsOf(s.tree) ensures |q| == |p| + 1 && p <= q && !InShared(p) ==> q in KindsOf(Strip(s.tree)) {
    }
  }

  /** All that is in a Shared_with_me is erased. */
  lemma SharedDirStripped(tree: map<Path, Node>, p: Path)
    requires InShared(p) && !Inside(p)
    ensures EmptyDir(KindsOf(Strip(tree)), p)
  {
  }

  // ----- The helpers commute with erasing the shares

  lemma UnlinkedOwned(s: State, p: Path)
    requires p in s.tree && s.tree[p].Link? && !Inside(p)
    ensures Owned(Unlinked(s, p).0) == Unlinked(Owned(s), p).0
    ensures Unlinked(s, p).1 == Unlinked(Owned(s), p).1
  {
    StripWithout(s.tree, {p});
  }

  lemma RemovedOwned(s: State, p: Path, u: Name)
    requires !Inside(p) && (FullSharedDir(s, p) ==> Confined(p, u))
    ensures Owned(Removed(s, p, u).0) == Removed(Owned(s), p, u).0
    ensures Removed(s, p, u).1 == Removed(Owned(s), p, u).1
  {
    LstatStripped(s.tree, s.blobs, p);
    LookupStripped(s.tree, p);
    StripWithout(s.tree, {p});
    if p in s.tree && s.tree[p].Link? {
      UnlinkedOwned(s, p);
    } else if p != SharedDir(u) && Allowed(p, u) && p in s.tree {
      EmptyStripped(s, p);
    }
  }

  lemma StatOwned(s: State, p: Path)
    requires !Inside(p)
    ensures Stat(Owned(s).tree, s.blobs, p) == Stat(s.tree, s.blobs, p)
  {
    LookupStripped(s.tree, p);
    LstatStripped(s.tree, s.blobs, p);
  }

  lemma StoredOwned(s: State, p: Path, body: Bytes)
    requires !Inside(p)
    ensures Owned(Stored(s, p, body).0) == Stored(Owned(s), p, body).0
    ensures Stored(s, p, body).1 == Stored(Owned(s), p, body).1
  {
    CreateStripped(s.tree, p);
    StripSet(s.tree, p, Link(FileName(s.filecount)));
    if ByHash(s.filedata, Hash(body)).Some? {
      StripSet(s.tree, p, Link(ByHash(s.filedata, Hash(body)).value));
    }
  }

  lemma UploadedOwned(s: State, p: Path, u: Name, body: Bytes)
    requires !Inside(p) && (FullSharedDir(s, p) ==> Confined(p, u))
    ensures Owned(Uploaded(s, p, u, body).0) == Uploaded(Owned(s), p, u, body).0
    ensures Uploaded(s, p, u, body).1 == Uploaded(Owned(s), p, u, body).1
  {
    StatOwned(s, p);
    RemovedOwned(s, p, u);
    StoredOwned(Cleared(s, p, u), p, body);
  }

  lemma ShareesInside(s: State, gone: set<Path>)
    requires SharesOk(s) && gone <= s.sharedata.Keys
    ensures forall k <- gone :: Inside(k)
  {
    assert forall k <- gone :: ShareRowOk(s, k);
  }

  /** To the owner a shared upload is an upload. */
  lemma SharerUploadedOwned(s: State, u: Name, p: Path, body: Bytes)
    requires Valid(s) && SharedFrom(s, u, p)
    ensures Owned(SharerUploaded(s, u, p, body)) == Uploaded(Owned(s), p, u, body).0
    ensures Uploaded(Owned(s), p, u, body).1 == Ok
  {
    var sharees := ShareesOf(s.sharedata, u, p);
    var d := s.(tree := s.tree - sharees);
    var m := Uploaded(d, p, u, body).0;
    SharedPlace(s, u, p);
    ShareesInside(s, sharees);
    StripWithout(s.tree, sharees);
    UploadUnlinked(s, u, p, body);
    UploadedOwned(d, p, u, body);
    StripAdd(m.tree, LinksTo(sharees, m.tree[p]));
  }

  // ----- Steps

  lemma ErasedUpload(s: State, u: Name, p: Path, body: Bytes)
    requires Valid(s) && AllReadOnly(s) && Confined(p, u) && Inside(p)
    ensures UploadStep(s, u, p, body).0 == s
  {
    if IsSharedFile(s.sharedata, p).AsSharer? && Allowed(p, u) {
      SharerPlace(s, p);
      SharedPlace(s, u, p);
      assert false;
    }
  }

  lemma NotAnOrigin(s: State, p: Path)
    requires Valid(s) && p != [] && InShared(p)
    ensures !IsSharedFile(s.sharedata, p).AsSharer?
  {
    if IsSharedFile(s.sharedata, p).AsSharer? {
      SharerPlace(s, p);
      SharedPlace(s, p[0], p);
    }
  }

  /** What an upload from outside does strictly inside somebody's Shared_with_me, apart from links there:
      nothing on a share; where the place can be written, a count or a row more; elsewhere the stray blob. */
  lemma StrangersUpload(s: State, u: Name, p: Path, body: Bytes)
    requires Valid(s) && u in s.users && Allowed(p, u) && p[0] != u && Inside(p)
    ensures Owned(UploadStep(s, u, p, body).0) == Owned(s)
       <==> !(p !in s.sharedata && (Uploadable(s, p) || NewBlob(s, body)))
  {
    NotAnOrigin(s, p);
    if p in s.sharedata {
      ShareePlace(s, p);
    } else {
      UnconfinedUploadOkExactly(s, u, p, body);
      if Uploadable(s, p) {
        StrangerStores(s, u, p, body);
      } else {
        StrangerFails(s, u, p, body);
      }
    }
  }

  lemma StrangerStores(s: State, u: Name, p: Path, body: Bytes)
    requires Valid(s) && Allowed(p, u) && p[0] != u && Inside(p) && p !in s.sharedata
    requires Stored(Cleared(s, p, u), p, body).1 == Ok
    ensures Owned(Stored(Cleared(s, p, u), p, body).0) != Owned(s)
  {
    var c, t := Cleared(s, p, u), Stored(Cleared(s, p, u), p, body).0;
    assert p in s.tree && s.tree[p].Link? ==> Coherent(s, p);
    assert c == s.(tree := c.tree);
    match ByHash(s.filedata, Hash(body))
    case None => assert t.filecount == s.filecount + 1;
    case Some(f) => assert t.filedata[f].numowners == s.filedata[f].numowners + 1;
  }

  lemma StrangerFails(s: State, u: Name, p: Path, body: Bytes)
    requires Valid(s) && Allowed(p, u) && p[0] != u && Inside(p) && p !in s.sharedata && !Uploadable(s, p)
    ensures Owned(Stored(Cleared(s, p, u), p, body).0) == Owned(s) <==> !NewBlob(s, body)
  {
    PlaceCleared(s, u, p);
    if Cleared(s, p, u) != s {
      ClearedIsCreatable(s, p, u);
    }
    var f := FileName(s.filecount);
    if ByHash(s.filedata, Hash(body)).None? {
      assert s.blobs[f := body] == s.blobs <==> f in s.blobs && s.blobs[f] == body by {
        assert s.blobs[f := body][f] == body;
      }
    }
  }

  lemma ErasedRemove(s: State, u: Name, p: Path)
    requires Valid(s) && Inside(p)
    ensures Owned(RemoveStep(s, u, p).0) == Owned(s)
  {
    if IsSharedFile(s.sharedata, p).AsSharer? {
      SharerPlace(s, p);
      SharedPlace(s, p[0], p);
      assert false;
    }
    StripWithout(s.tree, {p});
    if p in s.tree && s.tree[p].Link? {
      assert Coherent(s, p);
    }
  }

  lemma ErasedShare(s: State, u: Name, p: Path, sharee: Name, perm: string)
    ensures Owned(ShareStep(s, u, p, sharee, perm).0) == Owned(s)
  {
    if ShareRefusal(s, u, p, sharee, perm).None? && p in s.tree {
      StripSet(s.tree, SearchedPath(s, sharee, p), s.tree[p]);
    }
  }

  lemma ErasedUnshare(s: State, u: Name, p: Path, sharee: Name)
    requires Valid(s)
    ensures Owned(UnshareStep(s, u, p, sharee).0) == Owned(s)
  {
    var rows := Matching(s.sharedata, u, sharee, p);
    if |rows| == 1 {
      var k :| k in rows;
      MatchingOne(s, u, sharee, p, k);
      ShareesInside(s, rows);
      StripWithout(s.tree, rows);
    }
  }

  lemma ErasedStep(s: State, op: Op)
    requires Valid(s) && AllReadOnly(s) && Erased(op) && !Shows(s, op)
    ensures Owned(Step(s, op).0) == Owned(s)
  {
    match op
    case Mkdir(u, p) => StripSet(s.tree, p, Dir);
    case Upload(u, p, body) =>
      if Confined(p, u) {
        ErasedUpload(s, u, p, body);
      } else if u in s.users {
        StrangersUpload(s, u, p, body);
      }
    case Remove(u, p) => ErasedRemove(s, u, p);
    case Share(u, p, sharee, perm) => ErasedShare(s, u, p, sharee, perm);
    case Unshare(u, p, sharee) => ErasedUnshare(s, u, p, sharee);
    case _ =>
  }

  lemma KeptSharedUpload(s: State, u: Name, p: Path, body: Bytes)
    requires Valid(s) && u in s.users && Allowed(p, u) && IsSharedFile(s.sharedata, p).AsSharer?
    ensures Owned(SharerUploaded(s, u, p, body)) == Uploaded(Owned(s), p, u, body).0
    ensures Uploaded(Owned(s), p, u, body).1 == Ok
  {
    SharerPlace(s, p);
    SharedPlace(s, p[0], p);
    if p[0] == u {
      SharerUploadedOwned(s, u, p, body);
    } else {
      NoShareesFound(s, u, p);
      NobodyRelinked(s, u, p, body);
      UnconfinedUploadOkExactly(s, u, p, body);
      UploadedOwned(s, p, u, body);
    }
  }

  lemma OwnedUpload(s: State, u: Name, p: Path, body: Bytes)
    requires u in s.users && Allowed(p, u)
    ensures UploadStep(Owned(s), u, p, body) == Uploaded(Owned(s), p, u, body)
  {
  }

  lemma KeptUpload(s: State, u: Name, p: Path, body: Bytes)
    requires Valid(s) && !Inside(p) && (FullSharedDir(s, p) ==> Confined(p, u))
    ensures Owned(UploadStep(s, u, p, body).0) == UploadStep(Owned(s), u, p, body).0
    ensures UploadStep(s, u, p, body).1 == UploadStep(Owned(s), u, p, body).1
  {
    if u in s.users && Allowed(p, u) {
      OwnedUpload(s, u, p, body);
      match IsSharedFile(s.sharedata, p) {
        case Unshared => UploadedOwned(s, p, u, body);
        case AsSharer => KeptSharedUpload(s, u, p, body);
        case AsSharee =>
          ShareesInside(s, {p});
          assert false;
      }
    }
  }

  /** Removing a shared file is, without the shares, removing it. */
  lemma UnsharedOwned(s: State, u: Name, p: Path)
    requires Valid(s) && !Inside(p) && IsSharedFile(s.sharedata, p).AsSharer?
    ensures var gone := ShareesOf(s.sharedata, u, p);
            var d := s.(tree := s.tree - gone, sharedata := s.sharedata - gone);
            Owned(Removed(d, p, u).0) == Removed(Owned(s), p, u).0 && Removed(d, p, u).1 == Removed(Owned(s), p, u).1
  {
    var gone := ShareesOf(s.sharedata, u, p);
    var d := s.(tree := s.tree - gone, sharedata := s.sharedata - gone);
    ShareesInside(s, gone);
    StripWithout(s.tree, gone);
    if p != [] && InShared(p) {
      NotAnOrigin(s, p);
    }
    RemovedOwned(d, p, u);
  }

  lemma OutsideNoShare(s: State, p: Path)
    requires SharesOk(s) && !Inside(p)
    ensures p !in s.sharedata && !IsSharedFile(s.sharedata, p).AsSharee?
  {
    if p in s.sharedata {
      ShareesInside(s, {p});
      assert false;
    }
  }

  lemma KeptRemove(s: State, u: Name, p: Path)
    requires Valid(s) && !Inside(p) && (FullSharedDir(s, p) ==> Confined(p, u))
    ensures Owned(RemoveStep(s, u, p).0) == RemoveStep(Owned(s), u, p).0
    ensures RemoveStep(s, u, p).1 == RemoveStep(Owned(s), u, p).1
  {
    StatOwned(s, p);
    OutsideNoShare(s, p);
    if IsSharedFile(s.sharedata, p).Unshared? {
      RemovedOwned(s, p, u);
    } else {
      UnsharedOwned(s, u, p);
    }
  }

  lemma NewUserStripped(tree: map<Path, Node>, u: Name)
    ensures Strip(tree[Root(u) := Dir][SharedDir(u) := Dir]) == Strip(tree)[Root(u) := Dir][SharedDir(u) := Dir]
  {
    StripSet(tree, Root(u), Dir);
    StripSet(tree[Root(u) := Dir], SharedDir(u), Dir);
  }

  lemma KeptSignup(s: State, username: string, password: string)
    ensures Owned(SignupStep(s, username, password).0) == SignupStep(Owned(s), username, password).0
    ensures SignupStep(s, username, password).1 == SignupStep(Owned(s), username, password).1
  {
    if IsName(username) {
      NewUserStripped(s.tree, username);
    }
  }

  lemma KeptStep(s: State, op: Op)
    requires Valid(s) && !Erased(op) && !Shows(s, op)
    ensures Owned(Step(s, op).0) == Step(Owned(s), op).0
    ensures Step(s, op).1 == Step(Owned(s), op).1
  {
    match op
    case Signup(username, password) => KeptSignup(s, username, password);
    case Mkdir(u, p) =>
      CreateStripped(s.tree, p);
      StripSet(s.tree, p, Dir);
    case Upload(u, p, body) =>
      if u in s.users {
        KeptUpload(s, u, p, body);
      }
    case Remove(u, p) =>
      if u in s.users {
        KeptRemove(s, u, p);
      }
  }

  lemma StaysReadOnly(s: State, op: Op)
    requires Valid(s) && AllReadOnly(s) && GrantsNoWrite(op)
    ensures AllReadOnly(Step(s, op).0)
  {
    match op
    case Signup(username, password) =>
    case Mkdir(u, p) =>
    case Upload(u, p, body) => UploadRows(s, u, p, body);
    case Remove(u, p) => RemoveRows(s, u, p);
    case Share(u, p, sharee, perm) => ShareRowsReadOnly(s, u, p, sharee, perm);
    case Unshare(u, p, sharee) => UnshareRowsReadOnly(s, u, p, sharee);
    case Chperm(u, p, sharee, perm) => ChpermRowsReadOnly(s, u, p, sharee, perm);
  }

  lemma ShareRowsReadOnly(s: State, u: Name, p: Path, sharee: Name, perm: string)
    requires AllReadOnly(s) && perm != "rw"
    ensures AllReadOnly(ShareStep(s, u, p, sharee, perm).0)
  {
  }

  lemma UnshareRowsReadOnly(s: State, u: Name, p: Path, sharee: Name)
    requires AllReadOnly(s)
    ensures AllReadOnly(UnshareStep(s, u, p, sharee).0)
  {
  }

  lemma ChpermRowsReadOnly(s: State, u: Name, p: Path, sharee: Name, perm: string)
    requires AllReadOnly(s) && perm != "rw"
    ensures AllReadOnly(ChpermStep(s, u, p, sharee, perm).0)
  {
  }

  // ----- Exactly when erasing the shares makes no difference

  /** Erasing the shares makes no difference to the step: an erased request changes nothing else, and any
      other has the same effect and answer without them. */
  ghost predicate Hidden(s: State, op: Op) {
    if Erased(op) then Owned(Step(s, op).0) == Owned(s)
    else Owned(Step(s, op).0) == Step(Owned(s), op).0 && Step(s, op).1 == Step(Owned(s), op).1
  }

  lemma FullSharedDirIsDir(s: State, p: Path)
    requires Valid(s) && FullSharedDir(s, p)
    ensures s.tree[p].Dir? && IsSharedFile(s.sharedata, p).Unshared?
    ensures Stat(s.tree, s.blobs, p) == Here(true) && Lookup(KindsOf(Strip(s.tree)), p) == Here(true)
  {
    assert s.tree[p].Link? ==> Coherent(s, p) && ShareRowOk(s, p);
    NotAnOrigin(s, p);
    assert p in s.sharedata ==> ShareRowOk(s, p);
    EntryFound(s, p);
    LookupStripped(s.tree, p);
  }

  /** With the shares there a full Shared_with_me is refused; without them it is empty, and goes. */
  lemma RemovalShows(s: State, u: Name, p: Path)
    requires Valid(s) && u in s.users && Allowed(p, u) && p[0] != u && FullSharedDir(s, p)
    ensures RemoveStep(s, u, p) == (s, NotEmpty)
    ensures RemoveStep(Owned(s), u, p) == (Owned(s).(tree := Strip(s.tree) - {p}), Ok)
  {
    FullSharedDirIsDir(s, p);
    EntryFound(s, p);
    SharedDirStripped(s.tree, p);
    StatOwned(s, p);
  }

  lemma UploadOntoShows(s: State, u: Name, p: Path, body: Bytes)
    requires Valid(s) && u in s.users && Allowed(p, u) && p[0] != u && FullSharedDir(s, p)
    ensures UploadStep(s, u, p, body).1 == UploadFailed && UploadStep(s, u, p, body).0.tree == s.tree
    ensures Owned(UploadStep(s, u, p, body).0) != UploadStep(Owned(s), u, p, body).0
  {
    FullSharedDirIsDir(s, p);
    RemovalShows(s, u, p);
    assert Cleared(s, p, u) == s;
    StatOwned(s, p);
    assert Cleared(Owned(s), p, u).tree == Strip(s.tree) - {p};
    OwnedUpload(s, u, p, body);
    DirGone(Cleared(Owned(s), p, u), p, body);
    assert Owned(UploadStep(s, u, p, body).0).tree[p] == Dir;
  }

  lemma DirGone(s: State, p: Path, body: Bytes)
    requires p !in s.tree
    ensures p in Stored(s, p, body).0.tree ==> Stored(s, p, body).0.tree[p].Link?
  {
  }

  /** The requests that show are exactly the ones to which erasing the shares makes a difference. */
  lemma HiddenExactly(s: State, op: Op)
    requires Valid(s) && AllReadOnly(s)
    ensures Hidden(s, op) <==> !Shows(s, op)
  {
    if Shows(s, op) {
      match op
      case Upload(u, p, body) =>
        if Inside(p) {
          StrangersUpload(s, u, p, body);
        } else {
          UploadOntoShows(s, u, p, body);
        }
      case Remove(u, p) => RemovalShows(s, u, p);
    } else if Erased(op) {
      ErasedStep(s, op);
    } else {
      KeptStep(s, op);
    }
  }

  // ----- Requests that show

  /** bob's file, shared read-only with bobby. */
  const SHARED_ONCE: seq<Op> := TWO_SIGNUPS + [UPLOAD_BY_BOB] + [SHARE_WITH_BOBBY]

  lemma BobbysSharedDirFull()
    ensures var s := Run(INITIAL, SHARED_ONCE);
            Valid(s) && AllReadOnly(s) && BOB in s.users && BOB < BOBBY && FullSharedDir(s, [BOBBY, SHARED])
  {
    AfterTwoSignups();
    AfterSharing();
    var s := Run(INITIAL, SHARED_ONCE);
    var k: Path := [BOBBY, SHARED, "f"];
    assert Coherent(s, k) && RootsOk(s, BOBBY);
    assert SharedDir(BOBBY) == [BOBBY, SHARED];
    assert k in KindsOf(s.tree) && [BOBBY, SHARED] <= k;
  }

  /** bob removes bobby's Shared_with_me: refused with the share there, done without it. */
  lemma BobRemovesBobbysShares()
    ensures var s := Run(INITIAL, SHARED_ONCE);
            var op := Remove(BOB, [BOBBY, SHARED]);
            Valid(s) && AllReadOnly(s) && Shows(s, op) && Step(s, op).1 == NotEmpty && Step(Owned(s), op).1 == Ok
  {
    BobbysSharedDirFull();
    RemovalShows(Run(INITIAL, SHARED_ONCE), BOB, [BOBBY, SHARED]);
  }

  /** bob uploads onto it: refused with the share there, and without it no directory is left. */
  lemma BobUploadsOntoBobbysShares()
    ensures var s := Run(INITIAL, SHARED_ONCE);
            var op := Upload(BOB, [BOBBY, SHARED], []);
            && Valid(s) && AllReadOnly(s) && Shows(s, op) && Step(s, op).1 == UploadFailed
            && Owned(Step(s, op).0) != Step(Owned(s), op).0
  {
    BobbysSharedDirFull();
    UploadOntoShows(Run(INITIAL, SHARED_ONCE), BOB, [BOBBY, SHARED], []);
  }

  lemma FailsWithStray(s: State, u: Name, p: Path, body: Bytes)
    requires Valid(s) && u in s.users && Allowed(p, u) && p[0] != u && |p| > 1 && Parent(p) !in s.tree && p !in s.tree
    requires s.sharedata == map[] && s.filedata == map[] && s.blobs == map[]
    ensures UploadStep(s, u, p, body).1 == UploadFailed && UploadStep(s, u, p, body).0.blobs != s.blobs
  {
    TreeClosed(s);
    CreatePlace(KindsOf(s.tree), p);
    assert Cleared(s, p, u) == s;
    assert FileName(s.filecount) in UploadStep(s, u, p, body).0.blobs;
  }

  /** An upload inside bobby's Shared_with_me that fails: it is erased, and its stray blob stays. */
  lemma StrayShows()
    ensures var s := Run(INITIAL, TWO_SIGNUPS);
            var op := Upload(BOB, [BOBBY, SHARED, "d", "x"], []);
            && Valid(s) && AllReadOnly(s) && Erased(op) && Shows(s, op)
            && Step(s, op).1 == UploadFailed && Owned(Step(s, op).0) != Owned(s)
  {
    AfterTwoSignups();
    NoRowsNoBlobs();
    var p: Path := [BOBBY, SHARED, "d", "x"];
    assert Parent(p) == [BOBBY, SHARED, "d"];
    FailsWithStray(Run(INITIAL, TWO_SIGNUPS), BOB, p, []);
  }

  lemma NoRowsNoBlobs()
    ensures Run(INITIAL, TWO_SIGNUPS).filedata == map[] && Run(INITIAL, TWO_SIGNUPS).blobs == map[]
  {
    RunAppend(INITIAL, [], TWO_SIGNUPS[0]);
    RunAppend(INITIAL, [TWO_SIGNUPS[0]], TWO_SIGNUPS[1]);
    assert [] + [TWO_SIGNUPS[0]] == [TWO_SIGNUPS[0]] && [TWO_SIGNUPS[0]] + [TWO_SIGNUPS[1]] == TWO_SIGNUPS;
  }

  /** What the run answers, request by request. */
  ghost function Answers(s: State, ops: seq<Op>): seq<Outcome>
    decreases |ops|
  {
    if ops == [] then []
    else
      var n := |ops| - 1;
      Answers(s, ops[..n]) + [Step(Run(s, ops[..n]), ops[n]).1]
  }

  /** What it answers to the requests that stay when sharing is erased. */
  ghost function KeptAnswers(s: State, ops: seq<Op>): seq<Outcome>
    decreases |ops|
  {
    if ops == [] then []
    else
      var n := |ops| - 1;
      KeptAnswers(s, ops[..n]) + if Erased(ops[n]) then [] else [Step(Run(s, ops[..n]), ops[n]).1]
  }

  lemma AnswersAppend(s: State, ops: seq<Op>, op: Op)
    ensures Answers(s, ops + [op]) == Answers(s, ops) + [Step(Run(s, ops), op).1]
  {
    assert (ops + [op])[..|ops|] == ops;
  }

  /** No step of the run is one that shows. */
  ghost predicate ShowsNowhere(s: State, ops: seq<Op>)
    decreases |ops|
  {
    ops == [] ||
    var n := |ops| - 1;
    ShowsNowhere(s, ops[..n]) && !Shows(Run(s, ops[..n]), ops[n])
  }

  /** The theorem: in a run that grants nothing but read access and has no step that shows, what owners have
      and what every request outside Shared_with_me answers is what it would have been without any sharing. */
  lemma {:induction false} ReadOnlySharingInvisible(s: State, ops: seq<Op>)
    requires Valid(s) && AllReadOnly(s)
    requires KeepsThroughout(s, ops) && ShowsNowhere(s, ops) && forall op <- ops :: GrantsNoWrite(op)
    ensures AllReadOnly(Run(s, ops))
    ensures Owned(Run(s, ops)) == Run(Owned(s), Kept(ops))
    ensures KeptAnswers(s, ops) == Answers(Owned(s), Kept(ops))
    decreases |ops|
  {
    if ops != [] {
      var n := |ops| - 1;
      var m := Run(s, ops[..n]);
      ReadOnlySharingInvisible(s, ops[..n]);
      RunKeepsValidThroughout(s, ops[..n]);
      StaysReadOnly(m, ops[n]);
      if Erased(ops[n]) {
        ErasedStep(m, ops[n]);
        assert Kept(ops) == Kept(ops[..n]);
      } else {
        KeptStep(m, ops[n]);
        RunAppend(Owned(s), Kept(ops[..n]), ops[n]);
        AnswersAppend(Owned(s), Kept(ops[..n]), ops[n]);
      }
    }
  }
}
