/** The deduplicating, reference-counted, symlinked store behaves as the plain map. */
module Refinement {
  import opened Paths
  import opened Store
  import opened Handlers
  import opened Invariants
  import opened Steps
  import opened Confinement
  import opened PlainStore

  /** What users see of a state. */
  function Seen(s: State): Plain {
    Plain(
      s.users,
      s.unnamed,
      DirsOf(s.tree),
      FilesSeen(s),
      s.sharedata)
  }

  predicate OwnerFile(s: State, p: Path) {
    p in s.tree && s.tree[p].Link? && !InShared(p) && s.tree[p].target in s.blobs
  }

  function FilesSeen(s: State): map<Path, Bytes> {
    map p | p in s.tree && OwnerFile(s, p) :: s.blobs[s.tree[p].target]
  }

  lemma SeenLink(s: State, p: Path)
    requires Valid(s) && p in s.tree && s.tree[p].Link?
    ensures InShared(p) <==> p in s.sharedata
    ensures !InShared(p) <==> p in FilesSeen(s)
    ensures s.tree[p].target in s.blobs
  {
    LinkRow(s, p);
    if InShared(p) {
      assert Coherent(s, p);
    }
    assert p in s.sharedata ==> ShareRowOk(s, p);
  }

  lemma KindsSeen(s: State)
    requires Valid(s)
    ensures PlainKinds(Seen(s)) == KindsOf(s.tree)
  {
    forall p | p in s.tree && s.tree[p].Link? ensures p in s.sharedata || p in FilesSeen(s) {
      SeenLink(s, p);
    }
    forall p <- s.sharedata ensures p in s.tree && s.tree[p].Link? {
      assert Coherent(s, p);
    }
  }

  /** Links never dangle, so Stat is Lstat, and both are the lookup of the entry. */
  lemma StatIsLookup(s: State, p: Path)
    requires Valid(s) && p != []
    ensures Stat(s.tree, s.blobs, p) == Lookup(KindsOf(s.tree), p)
    ensures Lstat(s.tree, s.blobs, p) == Lookup(KindsOf(s.tree), p)
  {
    NothingDangles(s, p);
    if Lookup(KindsOf(s.tree), p) == Here(false) {
      LinkFound(s, p);
    }
  }

  lemma PlaceSeen(s: State, p: Path)
    requires Valid(s)
    ensures Uploadable(s, p) <==> Writable(Seen(s), p)
  {
    KindsSeen(s);
  }

  // ----- Uploads

  lemma OtherFileSeen(s: State, t: State, p: Path, q: Path)
    requires p in t.tree && t.tree == s.tree[p := t.tree[p]] && q != p
    requires q in s.tree && s.tree[q].Link? && !InShared(q) ==> SameBytes(s, t, s.tree[q].target)
    ensures q in FilesSeen(t) <==> q in FilesSeen(s)
    ensures q in FilesSeen(s) ==> FilesSeen(t)[q] == FilesSeen(s)[q]
  {
  }

  /** The body written at a place, and the bytes behind every other owner link left alone. */
  lemma PlaceWritten(s: State, t: State, p: Path, body: Bytes)
    requires p in t.tree && t.tree[p].Link? && t.tree[p].target in t.blobs && t.blobs[t.tree[p].target] == body
    requires t.tree == s.tree[p := t.tree[p]]
    requires forall q | q in s.tree && q != p && s.tree[q].Link? && !InShared(q) :: SameBytes(s, t, s.tree[q].target)
    ensures FilesSeen(t) == if InShared(p) then FilesSeen(s) else FilesSeen(s)[p := body]
  {
    forall q | q != p
      ensures q in FilesSeen(t) <==> q in FilesSeen(s)
      ensures q in FilesSeen(s) ==> FilesSeen(t)[q] == FilesSeen(s)[q]
    {
      OtherFileSeen(s, t, p, q);
    }
    assert OwnerFile(t, p) <==> !InShared(p);
  }

  lemma WriteSeen(s: State, t: State, p: Path, body: Bytes)
    requires WrittenAt(s, t, p, body) && !InShared(p)
    ensures FilesSeen(t) == FilesSeen(s)[p := body]
  {
    PlaceWritten(s, t, p, body);
  }

  lemma StraySeen(s: State, t: State)
    requires Core(s) && SameButStray(s, t)
    ensures FilesSeen(t) == FilesSeen(s)
  {
    StrayKeepsCore(s, t);
    forall q | q in s.tree && s.tree[q].Link? ensures SameBytes(s, t, s.tree[q].target) {
      LinkRow(s, q);
    }
  }

  /** The tree without what is inside the Shared_with_me directories. */
  function Outside(tree: map<Path, Node>): map<Path, Node> {
    map p | p in tree && !InShared(p) :: tree[p]
  }

  lemma OutsideSeen(s: State, t: State)
    requires t.blobs == s.blobs && Outside(t.tree) == Outside(s.tree)
    ensures FilesSeen(t) == FilesSeen(s)
  {
    forall q | !InShared(q) ensures (q in s.tree <==> q in t.tree) && (q in s.tree ==> s.tree[q] == t.tree[q]) {
      assert q in Outside(s.tree) <==> q in s.tree;
      assert q in Outside(t.tree) <==> q in t.tree;
      assert q in s.tree ==> Outside(s.tree)[q] == Outside(t.tree)[q];
    }
  }

  function DirsOf(tree: map<Path, Node>): set<Path> {
    set p | p in tree && tree[p].Dir?
  }

  lemma OutsideWithout(tree: map<Path, Node>, gone: set<Path>)
    requires forall k <- gone :: k in tree && tree[k].Link? && InShared(k)
    ensures Outside(tree - gone) == Outside(tree) && DirsOf(tree - gone) == DirsOf(tree)
  {
  }

  lemma OutsideWith(tree: map<Path, Node>, added: map<Path, Node>)
    requires forall k <- added :: added[k].Link? && InShared(k) && (k in tree ==> tree[k].Link?)
    ensures Outside(tree + added) == Outside(tree) && DirsOf(tree + added) == DirsOf(tree)
  {
  }

  lemma OverwriteDirs(tree: map<Path, Node>, p: Path, n: Node)
    requires n.Link?
    ensures DirsOf(tree[p := n]) == DirsOf(tree) - {p}
  {
  }

  /** The middle of a shared upload, as users see it. */
  lemma UploadUnlinkedSeen(s: State, sharer: Name, p: Path, body: Bytes)
    requires Valid(s) && SharedFrom(s, sharer, p)
    ensures var m := Uploaded(s.(tree := s.tree - ShareesOf(s.sharedata, sharer, p)), p, sharer, body).0;
            FilesSeen(m) == FilesSeen(s)[p := body] && DirsOf(m.tree) == DirsOf(s.tree)
  {
    var sharees := ShareesOf(s.sharedata, sharer, p);
    var d := s.(tree := s.tree - sharees);
    SharedPlace(s, sharer, p);
    DropSharees(s, sharees);
    UploadUnlinked(s, sharer, p, body);
    OutsideWithout(s.tree, sharees);
    OutsideSeen(s, d);
    var m := Uploaded(d, p, sharer, body).0;
    WriteSeen(d, m, p, body);
    OverwriteDirs(d.tree, p, m.tree[p]);
  }

  lemma RelinkSeen(s: State, m: State, sharees: set<Path>, n: Node)
    requires n.Link? && forall k <- sharees :: InShared(k) && k !in m.tree
    ensures Seen(m.(tree := m.tree + LinksTo(sharees, n))) == Seen(m)
  {
    OutsideWith(m.tree, LinksTo(sharees, n));
    OutsideSeen(m, m.(tree := m.tree + LinksTo(sharees, n)));
  }

  lemma SharerUploadSeen(s: State, sharer: Name, p: Path, body: Bytes)
    requires Valid(s) && SharedFrom(s, sharer, p)
    ensures Seen(SharerUploaded(s, sharer, p, body)) == Seen(s).(files := Seen(s).files[p := body])
  {
    var sharees := ShareesOf(s.sharedata, sharer, p);
    var m := Uploaded(s.(tree := s.tree - sharees), p, sharer, body).0;
    SharedPlace(s, sharer, p);
    DropSharees(s, sharees);
    UploadUnlinked(s, sharer, p, body);
    UploadUnlinkedSeen(s, sharer, p, body);
    RelinkSeen(s, m, sharees, m.tree[p]);
  }

  lemma OwnUploadSeen(s: State, u: Name, p: Path, body: Bytes)
    requires Valid(s) && Allowed(p, u) && p[0] in s.users && !InShared(p) && NoLiveShare(s, p)
    ensures var t := Stored(Cleared(s, p, u), p, body);
            if Writable(Seen(s), p)
            then t.1 == Ok && Seen(t.0) == Seen(s).(dirs := Seen(s).dirs - {p}, files := Seen(s).files[p := body])
            else t.1 == UploadFailed && Seen(t.0) == Seen(s)
  {
    var t := Stored(Cleared(s, p, u), p, body).0;
    ReplaceWorks(s, p, u, body);
    PlaceSeen(s, p);
    if Uploadable(s, p) {
      WriteSeen(s, t, p, body);
      OverwriteDirs(s.tree, p, t.tree[p]);
    } else {
      StraySeen(s, t);
    }
  }

  /** An upload to another user's tree that fails changes nothing that is seen. */
  lemma FailedUploadSeen(s: State, u: Name, p: Path, body: Bytes)
    requires Valid(s) && u in s.users && Allowed(p, u) && p[0] != u && IsSharedFile(s.sharedata, p).Unshared?
    requires Uploaded(s, p, u, body).1 != Ok
    ensures Uploaded(s, p, u, body).1 == UploadFailed && !Writable(Seen(s), p)
    ensures Seen(Uploaded(s, p, u, body).0) == Seen(s)
  {
    UnconfinedUploadOkExactly(s, u, p, body);
    PlaceSeen(s, p);
    if Cleared(s, p, u) != s {
      ClearedIsCreatable(s, p, u);
    }
    StoreFails(s, p, body);
    StraySeen(s, Uploaded(s, p, u, body).0);
  }

  lemma UnsharedUploadSeen(s: State, u: Name, p: Path, body: Bytes)
    requires Valid(s) && u in s.users && Allowed(p, u) && IsSharedFile(s.sharedata, p).Unshared?
    requires Valid(UploadStep(s, u, p, body).0)
    ensures Seen(Uploaded(s, p, u, body).0) == PlainUpload(Seen(s), u, p, body).0
    ensures Uploaded(s, p, u, body).1 == PlainUpload(Seen(s), u, p, body).1
  {
    NotOriginNoLiveShare(s, p);
    if p[0] == u {
      if !Reserved(p, u) {
        OwnUploadSeen(s, u, p, body);
      }
    } else if Uploaded(s, p, u, body).1 == Ok {
      UnsharedUploadExactly(s, u, p, body);
      PlaceHasOwner(s, p, u, body);
      OwnUploadSeen(s, u, p, body);
    } else {
      FailedUploadSeen(s, u, p, body);
    }
  }

  /** Somebody else's upload over a shared file that keeps the invariant changes nothing. */
  lemma StrangersUploadSame(s: State, u: Name, p: Path, body: Bytes)
    requires Valid(s) && u in s.users && Allowed(p, u) && p[0] != u && IsSharedFile(s.sharedata, p).AsSharer?
    requires Valid(SharerUploaded(s, u, p, body))
    ensures SharerUploaded(s, u, p, body) == s && FilesSeen(s)[p := body] == FilesSeen(s)
  {
    SharerPlace(s, p);
    SharedPlace(s, p[0], p);
    SharedUploadExactly(s, u, p, body);
    NoShareesFound(s, u, p);
    NobodyRelinked(s, u, p, body);
    RewriteSame(s, p, u, body);
    SeenLink(s, p);
    assert FilesSeen(s)[p] == body;
  }

  lemma SharedUploadSeen(s: State, u: Name, p: Path, body: Bytes)
    requires Valid(s) && u in s.users && Allowed(p, u) && IsSharedFile(s.sharedata, p).AsSharer?
    requires Valid(UploadStep(s, u, p, body).0)
    ensures Seen(SharerUploaded(s, u, p, body)) == PlainUpload(Seen(s), u, p, body).0
    ensures PlainUpload(Seen(s), u, p, body).1 == Ok
  {
    if p[0] == u {
      SharerPlace(s, p);
      SharerUploadSeen(s, u, p, body);
    } else {
      StrangersUploadSame(s, u, p, body);
    }
  }

  lemma ShareeUploadRefines(s: State, u: Name, p: Path, body: Bytes)
    requires Valid(s) && u in s.users && Allowed(p, u) && p in s.sharedata
    ensures Seen(UploadStep(s, u, p, body).0) == PlainUpload(Seen(s), u, p, body).0
    ensures UploadStep(s, u, p, body).1 == PlainUpload(Seen(s), u, p, body).1
  {
    ShareePlace(s, p);
    if s.sharedata[p].sharee == u && s.sharedata[p].perm != 0 {
      SharerUploadSeen(s, s.sharedata[p].sharer, s.sharedata[p].origpath, body);
    }
  }

  lemma UploadRefines(s: State, u: Name, p: Path, body: Bytes)
    requires Valid(s) && Valid(UploadStep(s, u, p, body).0)
    ensures Seen(UploadStep(s, u, p, body).0) == PlainUpload(Seen(s), u, p, body).0
    ensures UploadStep(s, u, p, body).1 == PlainUpload(Seen(s), u, p, body).1
  {
    if u in s.users && Allowed(p, u) {
      match IsSharedFile(s.sharedata, p) {
        case Unshared => UnsharedUploadSeen(s, u, p, body);
        case AsSharer => SharedUploadSeen(s, u, p, body);
        case AsSharee => ShareeUploadRefines(s, u, p, body);
      }
    }
  }

  // ----- Removals

  lemma FilesWithout(s: State, t: State, p: Path)
    requires p in s.tree && s.tree[p].Link? && t.tree == s.tree - {p}
    requires forall q | q in s.tree && q != p && s.tree[q].Link? :: SameBytes(s, t, s.tree[q].target)
    ensures FilesSeen(t) == FilesSeen(s) - {p} && DirsOf(t.tree) == DirsOf(s.tree)
  {
    forall q | q in t.tree ensures OwnerFile(s, q) <==> OwnerFile(t, q) {
      if t.tree[q].Link? { assert SameBytes(s, t, t.tree[q].target); }
    }
  }

  lemma UnlinkSeen(s: State, p: Path)
    requires Core(s) && p in s.tree && s.tree[p].Link? && p != [] && !InShared(p) && NoLiveShare(s, p)
    ensures Seen(Unlinked(s, p).0) == Seen(s).(files := Seen(s).files - {p})
  {
    var t := Unlinked(s, p).0;
    ClearedLink(s, p, p[0]);
    FilesWithout(s, t, p);
  }

  lemma DropSharesSeen(s: State, gone: set<Path>)
    requires Valid(s) && gone <= s.sharedata.Keys
    ensures Seen(s.(tree := s.tree - gone, sharedata := s.sharedata - gone)) == Seen(s).(shares := s.sharedata - gone)
  {
    var t := s.(tree := s.tree - gone, sharedata := s.sharedata - gone);
    DropShares(s, gone);
    OutsideWithout(s.tree, gone);
    OutsideSeen(s, t);
  }

  lemma RmdirSeen(s: State, p: Path)
    requires p in s.tree && s.tree[p].Dir?
    ensures Seen(s.(tree := s.tree - {p})) == Seen(s).(dirs := Seen(s).dirs - {p})
  {
    var t := s.(tree := s.tree - {p});
    assert FilesSeen(t) == FilesSeen(s);
    assert Seen(t).dirs == Seen(s).dirs - {p};
  }

  lemma PlainRemoveFile(a: Plain, u: Name, p: Path)
    requires u in a.users && Allowed(p, u) && Lookup(PlainKinds(a), p) == Here(false)
    requires p !in a.shares && forall k <- a.shares :: a.shares[k].origpath != p
    ensures PlainRemove(a, u, p) == (a.(files := a.files - {p}), Ok)
  {
    assert (map k | k in a.shares && a.shares[k].origpath != p :: a.shares[k]) == a.shares;
  }

  lemma PlainUnlink(s: State, u: Name, p: Path)
    requires Valid(s) && Allowed(p, u) && u in s.users && IsSharedFile(s.sharedata, p).Unshared?
    requires p in s.tree && s.tree[p].Link?
    ensures PlainRemove(Seen(s), u, p) == (Seen(s).(files := Seen(s).files - {p}), Ok)
  {
    KindsSeen(s);
    EntryFound(s, p);
    PlainRemoveFile(Seen(s), u, p);
  }

  lemma RemovedLinkSeen(s: State, u: Name, p: Path)
    requires Valid(s) && Allowed(p, u) && IsSharedFile(s.sharedata, p).Unshared?
    requires p in s.tree && s.tree[p].Link?
    ensures Removed(s, p, u).1 == Ok && Seen(Removed(s, p, u).0) == Seen(s).(files := Seen(s).files - {p})
  {
    EntryFound(s, p);
    OwnerLink(s, p);
    NotOriginNoLiveShare(s, p);
    UnlinkKeepsCore(s, p);
    UnlinkSeen(s, p);
  }

  lemma RemoveLinkRefines(s: State, u: Name, p: Path)
    requires Valid(s) && Allowed(p, u) && u in s.users && IsSharedFile(s.sharedata, p).Unshared?
    requires p in s.tree && s.tree[p].Link?
    ensures Seen(Removed(s, p, u).0) == PlainRemove(Seen(s), u, p).0
    ensures Removed(s, p, u).1 == PlainRemove(Seen(s), u, p).1
  {
    PlainUnlink(s, u, p);
    RemovedLinkSeen(s, u, p);
  }

  /** The Stat of removeHandler and the Lstat of remove agree. */
  lemma UnsharedIsRemoved(s: State, u: Name, p: Path)
    requires Valid(s) && Allowed(p, u) && u in s.users && IsSharedFile(s.sharedata, p).Unshared?
    ensures RemoveStep(s, u, p) == Removed(s, p, u)
  {
    StatIsLookup(s, p);
  }

  lemma RemoveDirRefines(s: State, u: Name, p: Path)
    requires Valid(s) && Allowed(p, u) && u in s.users && p in s.tree && s.tree[p].Dir?
    ensures Seen(Removed(s, p, u).0) == PlainRemove(Seen(s), u, p).0
    ensures Removed(s, p, u).1 == PlainRemove(Seen(s), u, p).1
  {
    KindsSeen(s);
    EntryFound(s, p);
    RmdirSeen(s, p);
  }

  lemma RemoveNothingRefines(s: State, u: Name, p: Path)
    requires Valid(s) && Allowed(p, u) && u in s.users && p !in s.tree
    ensures Seen(Removed(s, p, u).0) == PlainRemove(Seen(s), u, p).0
    ensures Removed(s, p, u).1 == PlainRemove(Seen(s), u, p).1
  {
    KindsSeen(s);
    StatIsLookup(s, p);
  }

  lemma RemoveUnsharedRefines(s: State, u: Name, p: Path)
    requires Valid(s) && Allowed(p, u) && u in s.users && IsSharedFile(s.sharedata, p).Unshared?
    ensures Seen(RemoveStep(s, u, p).0) == PlainRemove(Seen(s), u, p).0
    ensures RemoveStep(s, u, p).1 == PlainRemove(Seen(s), u, p).1
  {
    UnsharedIsRemoved(s, u, p);
    if p !in s.tree {
      RemoveNothingRefines(s, u, p);
    } else if s.tree[p].Link? {
      RemoveLinkRefines(s, u, p);
    } else {
      RemoveDirRefines(s, u, p);
    }
  }

  /** Removing a shared file: rows and sharees' links, then the owner link. */
  lemma RemoveSharedSeen(s: State, u: Name, p: Path)
    requires Valid(s) && SharedFrom(s, u, p)
    ensures var gone := ShareesOf(s.sharedata, u, p);
            var t := Removed(s.(tree := s.tree - gone, sharedata := s.sharedata - gone), p, u);
            t.1 == Ok && Seen(t.0) == Seen(s).(files := Seen(s).files - {p}, shares := s.sharedata - gone)
  {
    var gone := ShareesOf(s.sharedata, u, p);
    var d := s.(tree := s.tree - gone, sharedata := s.sharedata - gone);
    SharedPlace(s, u, p);
    UnsharedFirst(s, u, p);
    DropSharesSeen(s, gone);
    EntryFound(d, p);
    NotOriginNoLiveShare(d, p);
    UnlinkKeepsCore(d, p);
    UnlinkSeen(d, p);
  }

  lemma RemoveSharedRefines(s: State, u: Name, p: Path)
    requires Valid(s) && p != [] && p[0] == u && u in s.users && IsSharedFile(s.sharedata, p).AsSharer?
    ensures Seen(RemoveStep(s, u, p).0) == PlainRemove(Seen(s), u, p).0
    ensures RemoveStep(s, u, p).1 == PlainRemove(Seen(s), u, p).1
  {
    SharerPlace(s, p);
    SharedPlace(s, u, p);
    AllShareesFound(s, u, p);
    KindsSeen(s);
    StatIsLookup(s, p);
    EntryFound(s, p);
    RemoveSharedSeen(s, u, p);
    assert (map k | k in s.sharedata && s.sharedata[k].origpath != p :: s.sharedata[k])
        == s.sharedata - ShareesOf(s.sharedata, u, p);
  }

  lemma RemoveRefines(s: State, u: Name, p: Path)
    requires Valid(s) && Valid(RemoveStep(s, u, p).0)
    ensures Seen(RemoveStep(s, u, p).0) == PlainRemove(Seen(s), u, p).0
    ensures RemoveStep(s, u, p).1 == PlainRemove(Seen(s), u, p).1
  {
    if u in s.users && Allowed(p, u) {
      if p[0] != u && !IsSharedFile(s.sharedata, p).Unshared? {
        LosesShare(s, u, p);
      }
      match IsSharedFile(s.sharedata, p) {
        case Unshared => RemoveUnsharedRefines(s, u, p);
        case AsSharee =>
          ShareePlace(s, p);
          EntryFound(s, p);
          KindsSeen(s);
          StatIsLookup(s, p);
          DropSharesSeen(s, {p});
        case AsSharer => RemoveSharedRefines(s, u, p);
      }
    }
  }

  // ----- Sharing

  lemma MatchingCount(s: State, u: Name, sharee: Name, p: Path)
    requires UniqueShares(s.sharedata)
    ensures |Matching(s.sharedata, u, sharee, p)| == if Matching(s.sharedata, u, sharee, p) == {} then 0 else 1
  {
    MatchingAtMostOne(s, u, sharee, p);
  }

  lemma RefusalSeen(s: State, u: Name, p: Path, sharee: Name, perm: string)
    requires Valid(s)
    ensures ShareRefusal(s, u, p, sharee, perm) == PlainShareRefusal(Seen(s), u, p, sharee, perm)
  {
    KindsSeen(s);
    MatchingCount(s, u, sharee, p);
    if p != [] {
      StatIsLookup(s, p);
    }
    if PlainShareTests(Seen(s), u, p, sharee, perm).None? {
      if sharee in s.users {
        SearchFindsFree(s, sharee, p);
        UsersNoNul(s, sharee);
      }
      SearchEndsExactly(s, sharee, BaseName(p));
    }
  }

  /** A link put at a free place under a Shared_with_me is seen as its row alone. */
  lemma SharedAtSeen(s: State, u: Name, p: Path, sharee: Name, n: int, k: Path)
    requires Valid(s) && p in s.tree && s.tree[p].Link? && InShared(k) && CanCreate(KindsOf(s.tree), k)
    ensures SharedAt(s, u, p, sharee, n, k).1 == Ok
    ensures Seen(SharedAt(s, u, p, sharee, n, k).0) == Seen(s).(shares := s.sharedata[k := ShareRow(u, sharee, p, n)])
  {
    EntryFound(s, p);
    var t := SharedAt(s, u, p, sharee, n, k).0;
    OutsideWith(s.tree, map[k := s.tree[p]]);
    assert t.tree == s.tree + map[k := s.tree[p]];
    OutsideSeen(s, t);
  }

  /** Every share, whoever asks for it, is that of the plain map, except one of a path that is itself a
      share: that is a file to the server, and none to the plain map. */
  lemma ShareRefines(s: State, u: Name, p: Path, sharee: Name, perm: string)
    requires Valid(s) && (ShareStep(s, u, p, sharee, perm).1 == Ok ==> p !in s.sharedata)
    ensures Seen(ShareStep(s, u, p, sharee, perm).0) == PlainShare(Seen(s), u, p, sharee, perm).0
    ensures ShareStep(s, u, p, sharee, perm).1 == PlainShare(Seen(s), u, p, sharee, perm).1
  {
    RefusalSeen(s, u, p, sharee, perm);
    if ShareRefusal(s, u, p, sharee, perm).None? {
      ShareGoesTo(s, u, p, sharee, perm);
      KindsSeen(s);
      if p in s.tree {
        EntryFound(s, p);
        if s.tree[p].Link? {
          SeenLink(s, p);
          SharedAtSeen(s, u, p, sharee, PermOf(perm).value, ShareePath(KindsOf(s.tree), sharee, p));
        }
      } else {
        NotThere(s, p);
      }
    }
  }

  lemma NotThere(s: State, p: Path)
    requires Valid(s) && p !in s.tree && p != []
    ensures p !in FilesSeen(s) && p !in DirsOf(s.tree) && !Lookup(KindsOf(s.tree), p).Here?
  {
  }

  lemma UnshareRefines(s: State, u: Name, p: Path, sharee: Name)
    requires Valid(s)
    ensures Seen(UnshareStep(s, u, p, sharee).0) == PlainUnshare(Seen(s), u, p, sharee).0
    ensures UnshareStep(s, u, p, sharee).1 == PlainUnshare(Seen(s), u, p, sharee).1
  {
    var rows := Matching(s.sharedata, u, sharee, p);
    MatchingCount(s, u, sharee, p);
    if |rows| == 1 {
      var k :| k in rows;
      MatchingOne(s, u, sharee, p, k);
      assert Coherent(s, k);
      EntryFound(s, k);
      DropSharesSeen(s, rows);
    }
  }

  lemma RowsSeen(s: State, rows: map<Path, ShareRow>)
    ensures Seen(s.(sharedata := rows)) == Seen(s).(shares := rows)
  {
    OutsideSeen(s, s.(sharedata := rows));
  }

  lemma ChpermRefines(s: State, u: Name, p: Path, sharee: Name, perm: string)
    requires Valid(s)
    ensures Seen(ChpermStep(s, u, p, sharee, perm).0) == PlainChperm(Seen(s), u, p, sharee, perm).0
    ensures ChpermStep(s, u, p, sharee, perm).1 == PlainChperm(Seen(s), u, p, sharee, perm).1
  {
    MatchingCount(s, u, sharee, p);
    KindsSeen(s);
    if Allowed(p, u) {
      StatIsLookup(s, p);
    }
    if PermOf(perm).Some? {
      RowsSeen(s, WithPerm(s.sharedata, Matching(s.sharedata, u, sharee, p), PermOf(perm).value));
    }
  }

  lemma AddDirsSeen(s: State, added: set<Path>)
    requires forall p <- added :: p !in s.tree
    ensures FilesSeen(s.(tree := s.tree + LinksTo(added, Dir))) == FilesSeen(s)
    ensures DirsOf(s.tree + LinksTo(added, Dir)) == DirsOf(s.tree) + added
  {
    var t := s.(tree := s.tree + LinksTo(added, Dir));
    forall p | p in s.tree ensures p in t.tree && t.tree[p] == s.tree[p] {
    }
  }

  lemma MkdirRefines(s: State, u: Name, p: Path)
    requires Valid(s) && Valid(MkdirStep(s, u, p).0)
    ensures Seen(MkdirStep(s, u, p).0) == PlainMkdir(Seen(s), u, p).0
    ensures MkdirStep(s, u, p).1 == PlainMkdir(Seen(s), u, p).1
  {
    if u in s.users && Allowed(p, u) {
      KindsSeen(s);
      TreeClosed(s);
      CreatePlace(KindsOf(s.tree), p);
      if MkdirStep(s, u, p).1 == Ok {
        MkdirValidExactly(s, u, p);
      }
      if p !in s.tree {
        AddDirsSeen(s, {p});
        assert s.tree[p := Dir] == s.tree + LinksTo({p}, Dir);
      }
    }
  }

  lemma NewUserSeen(s: State, u: Name)
    requires TreeOk(s) && u !in s.users && '\0' !in u
    ensures Seen(s.(users := s.users + {u}, tree := s.tree[Root(u) := Dir][SharedDir(u) := Dir]))
         == Seen(s).(users := s.users + {u}, dirs := Seen(s).dirs + {Root(u), SharedDir(u)})
  {
    SignupTree(s, u);
    var added := {Root(u), SharedDir(u)};
    AddDirsSeen(s, added);
    assert s.tree[Root(u) := Dir][SharedDir(u) := Dir] == s.tree + LinksTo(added, Dir);
    var t := s.(tree := s.tree + LinksTo(added, Dir));
    assert FilesSeen(t.(users := s.users + {u})) == FilesSeen(t);
  }

  lemma SignupRefines(s: State, username: string, password: string)
    requires Valid(s)
    ensures Seen(SignupStep(s, username, password).0) == PlainSignup(Seen(s), username, password).0
    ensures SignupStep(s, username, password).1 == PlainSignup(Seen(s), username, password).1
  {
    if IsName(username) && username in s.users {
      UsersNoNul(s, username);
    }
    if NamesDir(username) && username !in s.users {
      SignupTree(s, username);
      NewUserSeen(s, username);
    } else if !NamesDir(username) {
      OutsideSeen(s, s.(unnamed := s.unnamed + {username}));
    }
  }

  lemma KeptShareOfOwnFile(s: State, u: Name, p: Path, sharee: Name, perm: string)
    requires Valid(s) && Valid(ShareStep(s, u, p, sharee, perm).0) && ShareStep(s, u, p, sharee, perm).1 == Ok
    ensures p !in s.sharedata
  {
    ShareValidExactlyConfined(s, u, p, sharee, perm);
    assert p in s.sharedata ==> ShareRowOk(s, p);
  }

  // ----- Steps, runs, downloads

  /** One handler, whenever it keeps the invariant: what users see afterwards, and the answer, are those
      of the plain map. */
  lemma StepRefines(s: State, op: Op)
    requires Valid(s) && Valid(Step(s, op).0)
    ensures Seen(Step(s, op).0) == PlainStep(Seen(s), op).0
    ensures Step(s, op).1 == PlainStep(Seen(s), op).1
  {
    match op
    case Signup(username, password) => SignupRefines(s, username, password);
    case Mkdir(u, p) => MkdirRefines(s, u, p);
    case Upload(u, p, body) => UploadRefines(s, u, p, body);
    case Remove(u, p) => RemoveRefines(s, u, p);
    case Share(u, p, sharee, perm) =>
      if Step(s, op).1 == Ok {
        KeptShareOfOwnFile(s, u, p, sharee, perm);
      }
      ShareRefines(s, u, p, sharee, perm);
    case Unshare(u, p, sharee) => UnshareRefines(s, u, p, sharee);
    case Chperm(u, p, sharee, perm) => ChpermRefines(s, u, p, sharee, perm);
  }

  lemma {:induction false} RunRefines(s: State, ops: seq<Op>)
    requires Valid(s) && KeepsThroughout(s, ops)
    ensures Seen(Run(s, ops)) == PlainRun(Seen(s), ops)
    decreases |ops|
  {
    if ops != [] {
      var n := |ops| - 1;
      RunRefines(s, ops[..n]);
      RunKeepsValidThroughout(s, ops[..n]);
      StepValidIff(Run(s, ops[..n]), ops[n]);
      StepRefines(Run(s, ops[..n]), ops[n]);
    }
  }

  lemma SharedReadRefines(s: State, u: Name, p: Path)
    requires Valid(s) && p in s.tree && s.tree[p].Link? && InShared(p)
    ensures DownloadStep(s, u, p) == PlainRead(Seen(s), u, p)
  {
    EntryFound(s, p);
    assert Coherent(s, p) && ShareRowOk(s, p);
    SeenLink(s, p);
    SeenLink(s, s.sharedata[p].origpath);
  }

  lemma MissingReadRefines(s: State, u: Name, p: Path)
    requires Valid(s) && p !in s.tree
    ensures DownloadStep(s, u, p).None? && PlainRead(Seen(s), u, p).None?
  {
    assert p in s.sharedata ==> Coherent(s, p);
    assert p !in FilesSeen(s);
  }

  /** Downloading any path gives what the plain map gives: owners and sharees read the same bytes. */
  lemma DownloadRefines(s: State, u: Name, p: Path)
    requires Valid(s)
    ensures DownloadStep(s, u, p) == PlainRead(Seen(s), u, p)
  {
    if p !in s.tree {
      MissingReadRefines(s, u, p);
    } else if s.tree[p].Link? && InShared(p) {
      SharedReadRefines(s, u, p);
    } else {
      EntryFound(s, p);
      assert p in s.sharedata ==> Coherent(s, p) && ShareRowOk(s, p);
      if s.tree[p].Link? {
        SeenLink(s, p);
      }
    }
  }

  /** Every run from the freshly initialized server that keeps the invariant throughout, and every download
      after it, is that of the plain map. */
  lemma ServerIsPlain(ops: seq<Op>, u: Name, p: Path)
    requires KeepsThroughout(INITIAL, ops)
    ensures DownloadStep(Run(INITIAL, ops), u, p) == PlainRead(PlainRun(NOTHING, ops), u, p)
  {
    InitialValid();
    RunKeepsValidThroughout(INITIAL, ops);
    RunRefines(INITIAL, ops);
    DownloadRefines(Run(INITIAL, ops), u, p);
    assert Seen(INITIAL) == NOTHING;
  }
}
