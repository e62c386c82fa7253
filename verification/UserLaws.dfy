/** What users can count on, stated on downloads and answers alone. */
module UserLaws {
  import opened Decimal
  import opened Paths
  import opened Store
  import opened Handlers
  import opened Invariants
  import opened Steps
  import opened Confinement
  import opened PlainStore
  import opened Refinement

  /** The owner's place behind a path. */
  function OriginOf(s: State, p: Path): Path {
    if p in s.sharedata then s.sharedata[p].origpath else p
  }

  lemma ReadsOrigin(s: State, v: Name, q: Path)
    requires Valid(s) && v in s.users && Allowed(q, v)
    ensures DownloadStep(s, v, q) ==
              if OriginOf(s, q) in FilesSeen(s) then Some(FilesSeen(s)[OriginOf(s, q)]) else None
  {
    DownloadRefines(s, v, q);
    if q in s.sharedata {
      assert ShareRowOk(s, q);
    }
  }

  lemma PlainUploadEffect(a: Plain, u: Name, p: Path, body: Bytes)
    requires PlainUpload(a, u, p, body).1 == Ok
    requires p in a.shares ==> forall k <- a.shares :: a.shares[k].origpath != p
    ensures PlainUpload(a, u, p, body).0.users == a.users && PlainUpload(a, u, p, body).0.shares == a.shares
    ensures PlainUpload(a, u, p, body).0.files == a.files[(if p in a.shares then a.shares[p].origpath else p) := body]
  {
  }

  lemma UploadEffect(s: State, u: Name, p: Path, body: Bytes)
    requires Valid(s) && Confined(p, u) && UploadStep(s, u, p, body).1 == Ok
    ensures var t := UploadStep(s, u, p, body).0;
            Valid(t) && t.users == s.users && t.sharedata == s.sharedata && FilesSeen(t) == FilesSeen(s)[OriginOf(s, p) := body]
  {
    UploadKeepsValid(s, u, p, body);
    UploadRefines(s, u, p, body);
    if p in s.sharedata {
      assert ShareRowOk(s, p);
      ShareePlace(s, p);
    }
    PlainUploadEffect(Seen(s), u, p, body);
    var t := UploadStep(s, u, p, body).0;
    assert Seen(t).files == FilesSeen(t) && Seen(t).shares == t.sharedata && Seen(t).users == t.users;
  }

  /** Where the tree is well formed a download reads the link at the path, and nothing else. */
  lemma ReadsLink(s: State, v: Name, q: Path)
    requires Closed(KindsOf(s.tree)) && v in s.users && Allowed(q, v)
    ensures DownloadStep(s, v, q) ==
              if q in s.tree && s.tree[q].Link? && s.tree[q].target in s.blobs then Some(s.blobs[s.tree[q].target]) else None
  {
    if q in s.tree {
      LookupHere(KindsOf(s.tree), q);
    }
  }

  /** The reading of a write: v finds the body at q if q is the written file or a share of it, and what
      was there before otherwise. */
  predicate WriteSeenBy(s: State, t: State, p: Path, body: Bytes, v: Name, q: Path) {
    DownloadStep(t, v, q) == if OriginOf(s, q) == OriginOf(s, p) then Some(body) else DownloadStep(s, v, q)
  }

  lemma ConfinedWriteSeen(s: State, u: Name, p: Path, body: Bytes, v: Name, q: Path)
    requires Valid(s) && Confined(p, u) && v in s.users && Allowed(q, v)
    requires UploadStep(s, u, p, body).1 == Ok
    ensures WriteSeenBy(s, UploadStep(s, u, p, body).0, p, body, v, q)
  {
    UploadEffect(s, u, p, body);
    ReadsOrigin(s, v, q);
    ReadsOrigin(UploadStep(s, u, p, body).0, v, q);
  }

  lemma ClearedClosed(s: State, u: Name, p: Path)
    requires Valid(s)
    ensures Closed(KindsOf(Cleared(s, p, u).tree))
  {
    TreeClosed(s);
    if Cleared(s, p, u) != s {
      EntryFound(s, p);
      ClosedWithoutLeaf(KindsOf(s.tree), p);
      assert KindsOf(s.tree - {p}) == KindsOf(s.tree) - {p};
    }
  }

  /** What an uploader whom `checkpath` let out of its root writes to an unshared place, all find. */
  lemma UnsharedWriteSeen(s: State, u: Name, p: Path, body: Bytes, v: Name, q: Path)
    requires Valid(s) && Allowed(p, u) && p[0] != u && IsSharedFile(s.sharedata, p).Unshared?
    requires UploadStep(s, u, p, body).1 == Ok && v in s.users && Allowed(q, v)
    ensures WriteSeenBy(s, UploadStep(s, u, p, body).0, p, body, v, q)
  {
    UnconfinedWrites(s, u, p, body);
    ClearedClosed(s, u, p);
    LeafClosed(Cleared(s, p, u).tree, p, UploadStep(s, u, p, body).0.tree[p]);
    TreeClosed(s);
    ReadsLink(s, v, q);
    ReadsLink(UploadStep(s, u, p, body).0, v, q);
    assert OriginOf(s, p) == p && (q in s.sharedata ==> OriginOf(s, q) != p);
    if q != p && q in s.tree && s.tree[q].Link? {
      assert SameBytes(s, UploadStep(s, u, p, body).0, s.tree[q].target);
    }
  }

  /** What it writes over somebody's shared file the sharees find only if nothing changed. */
  lemma SharedWriteSeen(s: State, u: Name, p: Path, body: Bytes)
    requires Valid(s) && u in s.users && Allowed(p, u) && p[0] != u && IsSharedFile(s.sharedata, p).AsSharer?
    requires SameAndOwnedTwice(s, p, body)
    ensures forall v, q | v in s.users && Allowed(q, v) :: WriteSeenBy(s, UploadStep(s, u, p, body).0, p, body, v, q)
  {
    SharerPlace(s, p);
    SharedPlace(s, p[0], p);
    NoShareesFound(s, u, p);
    NobodyRelinked(s, u, p, body);
    RewriteSame(s, p, u, body);
    SeenLink(s, p);
    forall v, q | v in s.users && Allowed(q, v) ensures WriteSeenBy(s, UploadStep(s, u, p, body).0, p, body, v, q) {
      ReadsOrigin(s, v, q);
    }
  }

  lemma SharedWriteMissed(s: State, u: Name, p: Path, body: Bytes, k: Path)
    requires Valid(s) && u in s.users && Allowed(p, u) && p[0] != u
    requires k in s.sharedata && s.sharedata[k].origpath == p && !SameAndOwnedTwice(s, p, body)
    ensures s.sharedata[k].sharee in s.users && Allowed(k, s.sharedata[k].sharee)
    ensures !WriteSeenBy(s, UploadStep(s, u, p, body).0, p, body, s.sharedata[k].sharee, k)
  {
    SharerPlace(s, p);
    SharedPlace(s, p[0], p);
    NoShareesFound(s, u, p);
    NobodyRelinked(s, u, p, body);
    RewriteMoves(s, p, u, body);
    PlaceCleared(s, u, p);
    UnconfinedWrites(s, u, p, body);
    assert Coherent(s, k) && ShareRowOk(s, k);
  }

  /** A write is found by the owner and by everyone the file is shared with, and by nobody else, exactly
      when the path is in the writer's root, or is not shared, or the write changes nothing: an uploader
      whom `checkpath` let out of its root leaves the sharees of a shared file behind. */
  lemma UploadSeenExactly(s: State, u: Name, p: Path, body: Bytes)
    requires Valid(s) && UploadStep(s, u, p, body).1 == Ok
    ensures (forall v, q | v in s.users && Allowed(q, v) :: WriteSeenBy(s, UploadStep(s, u, p, body).0, p, body, v, q))
       <==> Confined(p, u) || !IsSharedFile(s.sharedata, p).AsSharer? || SameAndOwnedTwice(s, p, body)
  {
    if Confined(p, u) {
      forall v, q | v in s.users && Allowed(q, v) ensures WriteSeenBy(s, UploadStep(s, u, p, body).0, p, body, v, q) {
        ConfinedWriteSeen(s, u, p, body, v, q);
      }
    } else {
      match IsSharedFile(s.sharedata, p) {
        case Unshared =>
          forall v, q | v in s.users && Allowed(q, v) ensures WriteSeenBy(s, UploadStep(s, u, p, body).0, p, body, v, q) {
            UnsharedWriteSeen(s, u, p, body, v, q);
          }
        case AsSharer =>
          if SameAndOwnedTwice(s, p, body) {
            SharedWriteSeen(s, u, p, body);
          } else {
            var k :| k in s.sharedata && s.sharedata[k].origpath == p;
            SharedWriteMissed(s, u, p, body, k);
          }
        case AsSharee =>
          ShareePlace(s, p);
          assert false;
      }
    }
  }

  /** A sharee's upload succeeds exactly when its permission is read-write; otherwise nothing changes. */
  lemma ShareeWritesExactly(s: State, k: Path, body: Bytes)
    requires Valid(s) && k in s.sharedata && k != []
    ensures UploadStep(s, k[0], k, body).1 == if s.sharedata[k].perm == 1 then Ok else PermissionDenied
    ensures s.sharedata[k].perm != 1 ==> UploadStep(s, k[0], k, body).0 == s
  {
    ShareePlace(s, k);
    assert ShareRowOk(s, k);
  }

  /** An owner's upload to a place of its own outside Shared_with_me fails exactly when its parent is
      not a directory or it is a directory that is not empty. */
  lemma OwnerWritesExactly(s: State, u: Name, p: Path, body: Bytes)
    requires Valid(s) && u in s.users && p != [] && p[0] == u && !Reserved(p, u)
    ensures UploadStep(s, u, p, body).1 == if Uploadable(s, p) then Ok else UploadFailed
  {
    UploadKeepsValid(s, u, p, body);
    UploadRefines(s, u, p, body);
    PlaceSeen(s, p);
    match IsSharedFile(s.sharedata, p) {
      case AsSharer =>
        SharerPlace(s, p);
        SharedPlace(s, u, p);
      case AsSharee =>
        ShareePlace(s, p);
        assert false;
      case Unshared =>
    }
  }

  lemma PlainRemoveFiles(a: Plain, u: Name, p: Path)
    requires PlainRemove(a, u, p).1 == Ok && p !in a.dirs * (a.files.Keys + a.shares.Keys)
    requires p in a.shares ==> p !in a.files
    ensures PlainRemove(a, u, p).0.users == a.users
    ensures PlainRemove(a, u, p).0.files == a.files - {p}
  {
    assert p in PlainKinds(a);
  }

  lemma PlainRemoveRows(a: Plain, u: Name, p: Path)
    requires PlainRemove(a, u, p).1 == Ok && p !in a.dirs * (a.files.Keys + a.shares.Keys)
    ensures PlainRemove(a, u, p).0.shares ==
              if p in a.shares then a.shares - {p}
              else if p in a.dirs then a.shares
              else map k | k in a.shares && a.shares[k].origpath != p :: a.shares[k]
  {
    assert p in PlainKinds(a);
  }

  /** No path is a directory, an owner's file and a share at once, and no share is shared on. */
  lemma KindsApart(s: State, p: Path)
    requires Valid(s)
    ensures p in Seen(s).dirs ==> p !in Seen(s).files && p !in s.sharedata && forall k <- s.sharedata :: s.sharedata[k].origpath != p
    ensures p in s.sharedata ==> p !in Seen(s).files && forall k <- s.sharedata :: s.sharedata[k].origpath != p
  {
    forall k <- s.sharedata ensures p in Seen(s).dirs || p in s.sharedata ==> s.sharedata[k].origpath != p {
      assert Coherent(s, k);
      OriginsApart(s, k);
    }
    assert p in s.sharedata ==> Coherent(s, p) && ShareRowOk(s, p);
  }

  lemma RemoveFields(s: State, u: Name, p: Path)
    requires Valid(s) && Confined(p, u)
    ensures var t, a := RemoveStep(s, u, p).0, PlainRemove(Seen(s), u, p).0;
            Valid(t) && FilesSeen(t) == a.files && t.sharedata == a.shares && t.users == a.users
    ensures RemoveStep(s, u, p).1 == PlainRemove(Seen(s), u, p).1
  {
    RemoveKeepsValid(s, u, p);
    RemoveRefines(s, u, p);
    var t := RemoveStep(s, u, p).0;
    assert Seen(t).files == FilesSeen(t) && Seen(t).shares == t.sharedata && Seen(t).users == t.users;
  }

  lemma RemoveFilesEffect(s: State, u: Name, p: Path)
    requires Valid(s) && Confined(p, u) && RemoveStep(s, u, p).1 == Ok
    ensures var t := RemoveStep(s, u, p).0;
            Valid(t) && t.users == s.users && FilesSeen(t) == FilesSeen(s) - {p}
  {
    RemoveFields(s, u, p);
    KindsApart(s, p);
    PlainRemoveFiles(Seen(s), u, p);
  }

  lemma SeenApart(s: State, p: Path)
    requires Valid(s)
    ensures p !in Seen(s).dirs * (Seen(s).files.Keys + Seen(s).shares.Keys)
  {
    KindsApart(s, p);
  }

  /** Of a share only its row goes, of a directory none, of a file those of its shares: all in one. */
  lemma RowsLeft(s: State, p: Path, left: map<Path, ShareRow>)
    requires Valid(s)
    requires left == if p in s.sharedata then s.sharedata - {p}
                     else if p in Seen(s).dirs then s.sharedata
                     else map k | k in s.sharedata && s.sharedata[k].origpath != p :: s.sharedata[k]
    ensures left == map k | k in s.sharedata && k != p && s.sharedata[k].origpath != p :: s.sharedata[k]
  {
    KindsApart(s, p);
  }

  /** The rows that stay after a removal: all but the path's own and those of its shares. */
  lemma RemoveRowsEffect(s: State, u: Name, p: Path)
    requires Valid(s) && Confined(p, u) && RemoveStep(s, u, p).1 == Ok
    ensures RemoveStep(s, u, p).0.sharedata == map k | k in s.sharedata && k != p && s.sharedata[k].origpath != p :: s.sharedata[k]
  {
    RemoveFields(s, u, p);
    SeenApart(s, p);
    PlainRemoveRows(Seen(s), u, p);
    RowsLeft(s, p, RemoveStep(s, u, p).0.sharedata);
  }

  /** An upload that fails changes nothing but the stray blob, which no row and no link names. */
  lemma FailedUploadAtomic(s: State, u: Name, p: Path, body: Bytes)
    requires Valid(s) && UploadStep(s, u, p, body).1 != Ok
    ensures SameButStray(s, UploadStep(s, u, p, body).0)
    ensures FileName(s.filecount) !in s.filedata
    ensures forall v, q :: DownloadStep(UploadStep(s, u, p, body).0, v, q) == DownloadStep(s, v, q)
  {
    var t := UploadStep(s, u, p, body).0;
    if UploadStep(s, u, p, body).1 == UploadFailed {
      if Cleared(s, p, u) != s {
        ClearedIsCreatable(s, p, u);
      }
      StoreFails(s, p, body);
    }
    StrayUnread(s, t);
  }

  lemma StrayUnread(s: State, t: State)
    requires Valid(s) && SameButStray(s, t)
    ensures FileName(s.filecount) !in s.filedata
    ensures forall v, q :: DownloadStep(t, v, q) == DownloadStep(s, v, q)
  {
    StrayKeepsCore(s, t);
    NextNameFresh(s.filecount);
    assert FileName(s.filecount) in s.filedata ==> RowOk(s, FileName(s.filecount));
    forall v, q ensures DownloadStep(t, v, q) == DownloadStep(s, v, q) {
      if q in s.tree && s.tree[q].Link? {
        LinkRow(s, q);
      }
    }
  }

  // ----- Removals, read

  /** The reading of a removal: the path and every share of it read as nothing, and nothing else changes. */
  predicate RemovalSeenBy(s: State, t: State, p: Path, v: Name, q: Path) {
    DownloadStep(t, v, q) == if q == p || OriginOf(s, q) == p then None else DownloadStep(s, v, q)
  }

  lemma ConfinedRemovalSeen(s: State, u: Name, p: Path, v: Name, q: Path)
    requires Valid(s) && Confined(p, u) && v in s.users && Allowed(q, v)
    requires RemoveStep(s, u, p).1 == Ok
    ensures RemovalSeenBy(s, RemoveStep(s, u, p).0, p, v, q)
  {
    var t := RemoveStep(s, u, p).0;
    RemoveFilesEffect(s, u, p);
    RemoveRowsEffect(s, u, p);
    KindsApart(s, q);
    ReadsOrigin(s, v, q);
    ReadsOrigin(t, v, q);
  }

  lemma OneEntryGone(s: State, u: Name, p: Path, v: Name, q: Path)
    requires Valid(s) && Allowed(p, u) && p[0] != u && RemoveStep(s, u, p).1 == Ok
    requires v in s.users && Allowed(q, v) && (InShared(q) ==> !IsSharedFile(s.sharedata, p).AsSharer?)
    ensures RemovalSeenBy(s, RemoveStep(s, u, p).0, p, v, q)
  {
    var t := RemoveStep(s, u, p).0;
    UnconfinedRemoves(s, u, p);
    TreeClosed(s);
    ReadsLink(s, v, q);
    ReadsLink(t, v, q);
    if q in s.sharedata {
      assert ShareRowOk(s, q);
    }
    if q != p && q in s.tree && s.tree[q].Link? {
      assert SameBytes(s, t, s.tree[q].target);
    }
  }

  /** The file at p has no other owner link than p. */
  predicate SoleOwner(s: State, p: Path) {
    p in s.tree && s.tree[p].Link? && Owners(s.tree, s.tree[p].target) == {p}
  }

  /** Somebody else's removal of a shared file unlinks the owner's link and no more. */
  lemma SharedRemovalUnlinks(s: State, u: Name, p: Path)
    requires Valid(s) && u in s.users && Allowed(p, u) && p[0] != u && IsSharedFile(s.sharedata, p).AsSharer?
    ensures p in s.tree && s.tree[p].Link? && !InShared(p) && RemoveStep(s, u, p) == Unlinked(s, p) && Unlinked(s, p).1 == Ok
  {
    SharerPlace(s, p);
    SharedPlace(s, p[0], p);
    NoShareesFound(s, u, p);
    assert s.tree - {} == s.tree && s.sharedata - {} == s.sharedata;
    EntryFound(s, p);
    LinkFound(s, p);
    UnlinkRows(s, p);
  }

  /** A share's file stays behind it exactly when it is another file, or has another owner. */
  lemma ShareKeepsFile(s: State, p: Path, q: Path)
    requires Valid(s) && p in s.tree && s.tree[p].Link? && !InShared(p) && q in s.sharedata
    ensures q in s.tree && s.tree[q].Link?
    ensures s.sharedata[q].origpath == p ==> s.tree[q] == s.tree[p]
    ensures s.tree[q].target in Unlinked(s, p).0.blobs <==> !(s.sharedata[q].origpath == p && SoleOwner(s, p))
    ensures s.tree[q].target in Unlinked(s, p).0.blobs ==> SameBytes(s, Unlinked(s, p).0, s.tree[q].target)
  {
    assert Coherent(s, q) && ShareRowOk(s, q);
    UnlinkRows(s, p);
    LinkRow(s, p);
    LinkRow(s, q);
    assert p in Owners(s.tree, s.tree[p].target) && s.sharedata[q].origpath in Owners(s.tree, s.tree[q].target);
  }

  /** An owner's link removed by somebody else: a share of it is dead exactly when the file went too, and
      no other share is affected. */
  lemma ShareAfterUnlink(s: State, u: Name, p: Path, v: Name, q: Path)
    requires Valid(s) && u in s.users && Allowed(p, u) && p[0] != u && IsSharedFile(s.sharedata, p).AsSharer?
    requires v in s.users && Allowed(q, v) && q in s.sharedata
    ensures RemovalSeenBy(s, RemoveStep(s, u, p).0, p, v, q) <==> s.sharedata[q].origpath != p || SoleOwner(s, p)
  {
    var t := RemoveStep(s, u, p).0;
    SharedRemovalUnlinks(s, u, p);
    UnconfinedRemoves(s, u, p);
    TreeClosed(s);
    ReadsLink(s, v, q);
    ReadsLink(t, v, q);
    ShareKeepsFile(s, p, q);
    assert ShareRowOk(s, q);
    LinkRow(s, q);
  }

  /** After a removal the path and every share of it read as nothing and nothing else changes, exactly when
      the path is in the remover's root, or is not shared, or its file has no other owner: a remover whom
      `checkpath` let out of its root leaves the shares of a deduplicated file readable. */
  lemma RemovalSeenExactly(s: State, u: Name, p: Path)
    requires Valid(s) && RemoveStep(s, u, p).1 == Ok
    ensures (forall v, q | v in s.users && Allowed(q, v) :: RemovalSeenBy(s, RemoveStep(s, u, p).0, p, v, q))
       <==> Confined(p, u) || !IsSharedFile(s.sharedata, p).AsSharer? || SoleOwner(s, p)
  {
    var t := RemoveStep(s, u, p).0;
    if Confined(p, u) {
      forall v, q | v in s.users && Allowed(q, v) ensures RemovalSeenBy(s, t, p, v, q) {
        ConfinedRemovalSeen(s, u, p, v, q);
      }
    } else if !IsSharedFile(s.sharedata, p).AsSharer? {
      forall v, q | v in s.users && Allowed(q, v) ensures RemovalSeenBy(s, t, p, v, q) {
        OneEntryGone(s, u, p, v, q);
      }
    } else if SoleOwner(s, p) {
      forall v, q | v in s.users && Allowed(q, v) ensures RemovalSeenBy(s, t, p, v, q) {
        if q in s.sharedata {
          ShareAfterUnlink(s, u, p, v, q);
        } else {
          UnsharedPathAfterUnlink(s, u, p, v, q);
        }
      }
    } else {
      var k :| k in s.sharedata && s.sharedata[k].origpath == p;
      assert ShareRowOk(s, k);
      ShareAfterUnlink(s, u, p, s.sharedata[k].sharee, k);
    }
  }

  lemma UnsharedPathAfterUnlink(s: State, u: Name, p: Path, v: Name, q: Path)
    requires Valid(s) && Allowed(p, u) && p[0] != u && RemoveStep(s, u, p).1 == Ok
    requires v in s.users && Allowed(q, v) && q !in s.sharedata
    ensures RemovalSeenBy(s, RemoveStep(s, u, p).0, p, v, q)
  {
    UnconfinedRemoves(s, u, p);
    TreeClosed(s);
    ReadsLink(s, v, q);
    ReadsLink(RemoveStep(s, u, p).0, v, q);
    if q != p && q in s.tree && s.tree[q].Link? {
      OwnerLink(s, q);
      assert SameBytes(s, RemoveStep(s, u, p).0, s.tree[q].target);
    }
  }

  // ----- Shares, read

  /** A share, whoever makes it, gives the sharee at one new place the bytes the sharer reads; every
      other path reads as before. */
  lemma ShareThenRead(s: State, u: Name, p: Path, sharee: Name, perm: string, v: Name, q: Path)
    requires Valid(s) && v in s.users && Allowed(q, v)
    requires ShareStep(s, u, p, sharee, perm).1 == Ok
    ensures DownloadStep(ShareStep(s, u, p, sharee, perm).0, v, q) ==
              if q == ShareePath(KindsOf(s.tree), sharee, p) then DownloadStep(s, u, p) else DownloadStep(s, v, q)
    ensures DownloadStep(s, u, p).Some?
  {
    var t, k := ShareStep(s, u, p, sharee, perm).0, ShareePath(KindsOf(s.tree), sharee, p);
    TreeClosed(s);
    ShareGoesTo(s, u, p, sharee, perm);
    EntryFound(s, p);
    LinkRow(s, p);
    CreatePlace(KindsOf(s.tree), k);
    LeafClosed(s.tree, k, s.tree[p]);
    ReadsLink(s, u, p);
    ReadsLink(s, v, q);
    ReadsLink(t, v, q);
  }

  /** chperm gives exactly the one row of this sharer, sharee and path the new permission. */
  lemma ChpermSetsExactly(s: State, u: Name, p: Path, sharee: Name, perm: string, k: Path)
    requires Valid(s) && k in s.sharedata
    requires ChpermStep(s, u, p, sharee, perm).1 == Ok
    ensures var t := ChpermStep(s, u, p, sharee, perm).0;
            && k in t.sharedata
            && t.sharedata[k].perm == (if s.sharedata[k].sharee == sharee && s.sharedata[k].origpath == p
                                       then (if perm == "rw" then 1 else 0) else s.sharedata[k].perm)
            && t.sharedata[k].(perm := 0) == s.sharedata[k].(perm := 0)
            && t == s.(sharedata := t.sharedata)
    ensures exists j <- s.sharedata :: s.sharedata[j].sharee == sharee && s.sharedata[j].origpath == p
  {
    assert ShareRowOk(s, k);
    var rows := Matching(s.sharedata, u, sharee, p);
    assert rows != {};
    var j :| j in rows;
    assert ShareRowOk(s, j);
  }

  // ----- Listings

  /** The entries of a directory of the plain store. */
  function PlainList(a: Plain, u: Name, p: Path): Option<set<DirEnt>> {
    if u in a.users && Allowed(p, u) && p in a.dirs
    then Some(set q | q in PlainKinds(a) && q != [] && Parent(q) == p :: DirEnt(BaseName(q), q in a.dirs))
    else None
  }

  lemma ListRefines(s: State, u: Name, p: Path)
    requires Valid(s)
    ensures ListStep(s, u, p) == PlainList(Seen(s), u, p)
  {
    KindsSeen(s);
    if p in s.tree {
      EntryFound(s, p);
    }
    EntriesByKind(s.tree, p);
  }

  lemma EntriesByKind(tree: map<Path, Node>, p: Path)
    ensures Entries(tree, p) == set q | q in KindsOf(tree) && q != [] && Parent(q) == p :: DirEnt(BaseName(q), q in DirsOf(tree))
  {
    forall q | q in tree ensures q in KindsOf(tree) && (q in DirsOf(tree) <==> tree[q].Dir?) {
    }
  }
}
