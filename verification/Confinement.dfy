/** Exactly which steps, and which runs, keep the invariant where `checkpath` accepts a path outside the
    user's root, and what such requests do. */
module Confinement {
  import opened Decimal
  import opened Paths
  import opened Store
  import opened Handlers
  import opened Invariants
  import opened Steps

  /** A share keeps the invariant exactly when the shared path is in the sharer's root. */
  lemma ShareValidExactlyConfined(s: State, u: Name, p: Path, sharee: Name, perm: string)
    requires Valid(s) && ShareStep(s, u, p, sharee, perm).1 == Ok
    ensures Valid(ShareStep(s, u, p, sharee, perm).0) <==> Confined(p, u)
  {
    if Confined(p, u) {
      ShareKeepsValid(s, u, p, sharee, perm);
    } else {
      var k := ShareePath(KindsOf(s.tree), sharee, p);
      ShareGoesTo(s, u, p, sharee, perm);
      assert !ShareRowOk(ShareStep(s, u, p, sharee, perm).0, k);
    }
  }

  /** A directory keeps the invariant exactly when it is not made beside the users' roots. */
  lemma MkdirValidExactly(s: State, u: Name, p: Path)
    requires Valid(s) && MkdirStep(s, u, p).1 == Ok
    ensures Valid(MkdirStep(s, u, p).0) <==> |p| > 1
  {
    var t := s.(tree := s.tree[p := Dir]);
    TreeClosed(s);
    CreatePlace(KindsOf(s.tree), p);
    if |p| > 1 {
      assert EntryOk(s, Parent(p));
      assert Parent(p)[0] == p[0];
      MkdirKeepsValid(s, p[0], p);
    } else {
      assert p[0] in s.users ==> RootsOk(s, p[0]);
      assert p == Root(p[0]);
      assert !EntryOk(t, p);
    }
  }

  // ----- Removals

  /** With no row of its own user's, an unconfined removal of a shared file removes only the owner's link. */
  lemma NoShareesFound(s: State, u: Name, p: Path)
    requires SharesOk(s) && p != [] && p[0] != u
    ensures ShareesOf(s.sharedata, u, p) == {}
  {
    forall k <- s.sharedata ensures s.sharedata[k].origpath == p ==> s.sharedata[k].sharer != u {
      assert ShareRowOk(s, k);
    }
  }

  lemma LosesShare(s: State, u: Name, p: Path)
    requires Valid(s) && u in s.users && Allowed(p, u) && p[0] != u && !IsSharedFile(s.sharedata, p).Unshared?
    ensures !Valid(RemoveStep(s, u, p).0)
  {
    var t := RemoveStep(s, u, p).0;
    if IsSharedFile(s.sharedata, p).AsSharer? {
      SharerPlace(s, p);
      SharedPlace(s, p[0], p);
      LinkFound(s, p);
      EntryFound(s, p);
      NoShareesFound(s, u, p);
      assert s.tree - {} == s.tree && s.sharedata - {} == s.sharedata;
      var k :| k in s.sharedata && s.sharedata[k].origpath == p;
      assert t == Unlinked(s, p).0;
      assert !Coherent(t, k);
    } else {
      ShareePlace(s, p);
      LinkFound(s, p);
      EntryFound(s, p);
      assert !Coherent(t, p);
    }
  }

  lemma KeepsRest(s: State, u: Name, p: Path)
    requires Valid(s) && u in s.users && Allowed(p, u) && p[0] != u && IsSharedFile(s.sharedata, p).Unshared?
    requires RemoveStep(s, u, p).1 == Ok
    ensures Valid(RemoveStep(s, u, p).0) <==> p != SharedDir(p[0])
  {
    var t := RemoveStep(s, u, p).0;
    assert p in s.tree && EntryOk(s, p) && RootsOk(s, p[0]);
    EntryFound(s, p);
    if s.tree[p].Link? {
      UnlinkKeepsValid(s, p);
    } else if p != SharedDir(p[0]) {
      RmdirKeepsCore(s, p);
      forall k <- t.sharedata ensures Coherent(t, k) {
        assert Coherent(s, k);
      }
    } else {
      assert !RootsOk(t, p[0]);
    }
  }

  /** A successful removal keeps the invariant exactly when the path is in the user's root, or is
      neither shared nor somebody's Shared_with_me. */
  lemma RemoveValidExactly(s: State, u: Name, p: Path)
    requires Valid(s) && RemoveStep(s, u, p).1 == Ok
    ensures Valid(RemoveStep(s, u, p).0)
       <==> Confined(p, u) || (IsSharedFile(s.sharedata, p).Unshared? && p != SharedDir(p[0]))
  {
    if Confined(p, u) {
      RemoveKeepsValid(s, u, p);
    } else if IsSharedFile(s.sharedata, p).Unshared? {
      KeepsRest(s, u, p);
    } else {
      LosesShare(s, u, p);
    }
  }

  // ----- Uploads

  lemma StoredFields(c: State, p: Path, body: Bytes)
    ensures var t := Stored(c, p, body);
            && t.0.users == c.users && t.0.sharedata == c.sharedata && t.0.tree - {p} == c.tree - {p}
            && (t.1 == Ok ==> p in t.0.tree && t.0.tree[p].Link?)
  {
  }

  /** A store that succeeds puts a link at the place and leaves users and shares alone. */
  lemma PutsLink(s: State, p: Path, u: Name, body: Bytes)
    requires Stored(Cleared(s, p, u), p, body).1 == Ok
    ensures var t := Stored(Cleared(s, p, u), p, body).0;
            p in t.tree && t.tree[p].Link? && t.sharedata == s.sharedata && t.users == s.users
  {
    ClearedFrame(s, p, u);
    StoredFields(Cleared(s, p, u), p, body);
  }

  lemma LinkOutOfPlace(s: State, t: State, p: Path)
    requires p != [] && p in t.tree && t.tree[p].Link? && p !in t.sharedata
    requires |p| == 1 || InShared(p)
    ensures !Valid(t)
  {
    if |p| == 1 {
      assert p == Root(p[0]);
      assert !EntryOk(t, p) || !RootsOk(t, p[0]);
    } else {
      assert !Coherent(t, p);
    }
  }

  lemma UnsharedUploadKeeps(s: State, u: Name, p: Path, body: Bytes)
    requires Valid(s) && Allowed(p, u) && p[0] != u && IsSharedFile(s.sharedata, p).Unshared?
    requires Uploaded(s, p, u, body).1 == Ok && |p| > 1 && !InShared(p)
    ensures Valid(Uploaded(s, p, u, body).0)
  {
    var t := Uploaded(s, p, u, body).0;
    PlaceHasOwner(s, p, u, body);
    NotOriginNoLiveShare(s, p);
    ReplaceWorks(s, p, u, body);
    forall k <- t.sharedata ensures Coherent(t, k) {
      assert Coherent(s, k);
    }
  }

  /** An unconfined upload to a place nobody shares keeps the invariant exactly outside every
      Shared_with_me and below some user's root. */
  lemma UnsharedUploadExactly(s: State, u: Name, p: Path, body: Bytes)
    requires Valid(s) && Allowed(p, u) && p[0] != u && IsSharedFile(s.sharedata, p).Unshared?
    requires Uploaded(s, p, u, body).1 == Ok
    ensures Valid(Uploaded(s, p, u, body).0) <==> |p| > 1 && !InShared(p)
  {
    if |p| > 1 && !InShared(p) {
      UnsharedUploadKeeps(s, u, p, body);
    } else {
      PutsLink(s, p, u, body);
      LinkOutOfPlace(s, Uploaded(s, p, u, body).0, p);
    }
  }

  lemma PlaceHasOwner(s: State, p: Path, u: Name, body: Bytes)
    requires Valid(s) && Allowed(p, u) && |p| > 1 && Uploaded(s, p, u, body).1 == Ok && !Reserved(p, u)
    ensures p[0] in s.users
  {
    if p in s.tree {
      assert EntryOk(s, p);
    } else {
      assert Cleared(s, p, u) == s;
      TreeClosed(s);
      CreatePlace(KindsOf(s.tree), p);
      assert EntryOk(s, Parent(p));
      assert Parent(p)[0] == p[0];
    }
  }

  /** What the owner's link leads to is the body already, and somebody else owns it too. */
  predicate SameAndOwnedTwice(s: State, p: Path, body: Bytes) {
    && p in s.tree && s.tree[p].Link?
    && var f := s.tree[p].target;
    f in s.filedata && f in s.blobs && s.blobs[f] == body && s.filedata[f].numowners >= 2
  }

  /** Clearing an owner's link of a file with another owner leaves the place free and the file's row, with
      its digest, the one that is found. */
  lemma ClearedStillFound(s: State, p: Path, u: Name, body: Bytes)
    requires Valid(s) && Allowed(p, u) && !InShared(p) && SameAndOwnedTwice(s, p, body)
    ensures var c := Cleared(s, p, u);
            && c == Unlinked(s, p).0 && CanCreate(KindsOf(c.tree), p)
            && ByHash(c.filedata, Hash(body)) == Some(s.tree[p].target)
  {
    var f, c := s.tree[p].target, Cleared(s, p, u);
    LinkRow(s, p);
    LinkFound(s, p);
    EntryFound(s, p);
    assert c == Unlinked(s, p).0;
    ClearedIsCreatable(s, p, u);
    forall g, h | g in c.filedata && h in c.filedata ensures HashesApart(c.filedata, g, h) {
      assert HashesApart(s.filedata, g, h);
    }
    ByHashFinds(c.filedata, f);
  }

  /** Writing the same bytes over a link of a file with another owner changes nothing at all. */
  lemma RewriteSame(s: State, p: Path, u: Name, body: Bytes)
    requires Valid(s) && Allowed(p, u) && !InShared(p) && SameAndOwnedTwice(s, p, body)
    ensures Stored(Cleared(s, p, u), p, body) == (s, Ok)
  {
    var f, c := s.tree[p].target, Cleared(s, p, u);
    ClearedStillFound(s, p, u, body);
    assert c.tree[p := Link(f)] == s.tree;
    assert c.filedata[f := s.filedata[f]] == s.filedata;
  }

  /** Any other upload over an owner's link moves it to another stored file. */
  lemma RewriteMoves(s: State, p: Path, u: Name, body: Bytes)
    requires Valid(s) && Allowed(p, u) && !InShared(p) && p in s.tree && s.tree[p].Link?
    requires !SameAndOwnedTwice(s, p, body)
    ensures var t, f := Stored(Cleared(s, p, u), p, body).0, s.tree[p].target;
            !(p in t.tree && t.tree[p] == Link(f)) && (f in t.blobs ==> t.blobs[f] != body)
  {
    var f := s.tree[p].target;
    var c := Cleared(s, p, u);
    LinkRow(s, p);
    LinkFound(s, p);
    EntryFound(s, p);
    assert c == Unlinked(s, p).0;
    NextNameFresh(s.filecount);
    assert f != FileName(s.filecount);
    assert f in c.filedata ==> c.filedata[f].filehash == Hash(s.blobs[f]) && s.blobs[f] != body;
  }

  /** With no row of its own user's, a shared upload is clearing and storing alone. */
  lemma NobodyRelinked(s: State, u: Name, p: Path, body: Bytes)
    requires ShareesOf(s.sharedata, u, p) == {} && !Reserved(p, u)
    ensures SharerUploaded(s, u, p, body) == Stored(Cleared(s, p, u), p, body).0
  {
    assert s.tree - {} == s.tree;
    var m := Stored(Cleared(s, p, u), p, body).0;
    assert Uploaded(s, p, u, body).0 == m;
    if p in m.tree {
      assert m.tree + LinksTo({}, m.tree[p]) == m.tree;
    }
  }

  /** Moving the owner's link alone parts it from its sharees'. */
  lemma MovedLinkBreaks(s: State, t: State, p: Path)
    requires Valid(s) && IsSharedFile(s.sharedata, p).AsSharer? && t.sharedata == s.sharedata
    requires t.tree - {p} == s.tree - {p} && !(p in t.tree && p in s.tree && t.tree[p] == s.tree[p])
    ensures !Valid(t)
  {
    var k :| k in s.sharedata && s.sharedata[k].origpath == p;
    assert Coherent(s, k);
    OriginsApart(s, k);
    assert k != p && k in s.tree - {p} && (s.tree - {p})[k] == s.tree[k];
    assert !Coherent(t, k);
  }

  lemma StoreTouchesPlace(s: State, u: Name, p: Path, body: Bytes)
    requires p in s.tree && s.tree[p].Link?
    ensures var t := Stored(Cleared(s, p, u), p, body).0;
            t.tree - {p} == s.tree - {p} && t.sharedata == s.sharedata
  {
    ClearedFrame(s, p, u);
    StoredFields(Cleared(s, p, u), p, body);
  }

  /** An unconfined upload over a shared file leaves its sharees behind, unless it changes nothing. */
  lemma SharedUploadExactly(s: State, u: Name, p: Path, body: Bytes)
    requires Valid(s) && Allowed(p, u) && p[0] != u && IsSharedFile(s.sharedata, p).AsSharer?
    ensures Valid(SharerUploaded(s, u, p, body)) <==> SameAndOwnedTwice(s, p, body)
  {
    SharerPlace(s, p);
    SharedPlace(s, p[0], p);
    NoShareesFound(s, u, p);
    NobodyRelinked(s, u, p, body);
    if SameAndOwnedTwice(s, p, body) {
      RewriteSame(s, p, u, body);
    } else {
      RewriteMoves(s, p, u, body);
      StoreTouchesPlace(s, u, p, body);
      MovedLinkBreaks(s, Stored(Cleared(s, p, u), p, body).0, p);
    }
  }

  /** A successful upload keeps the invariant exactly when the path is in the user's root; or nobody
      shares it and it is below a root, outside every Shared_with_me; or it is shared and the upload
      changes nothing. */
  lemma UploadValidExactly(s: State, u: Name, p: Path, body: Bytes)
    requires Valid(s) && UploadStep(s, u, p, body).1 == Ok
    ensures Valid(UploadStep(s, u, p, body).0) <==>
              || Confined(p, u)
              || (IsSharedFile(s.sharedata, p).Unshared? && |p| > 1 && !InShared(p))
              || (IsSharedFile(s.sharedata, p).AsSharer? && SameAndOwnedTwice(s, p, body))
  {
    if Confined(p, u) {
      UploadKeepsValid(s, u, p, body);
    } else {
      match IsSharedFile(s.sharedata, p) {
        case Unshared => UnsharedUploadExactly(s, u, p, body);
        case AsSharer => SharedUploadExactly(s, u, p, body);
        case AsSharee =>
          ShareePlace(s, p);
          assert false;
      }
    }
  }

  // ----- Every step

  lemma ClosedWithoutLeaf(kinds: Kinds, p: Path)
    requires Closed(kinds) && p in kinds && (kinds[p] ==> EmptyDir(kinds, p))
    ensures Closed(kinds - {p})
  {
    forall q | q in kinds - {p} ensures Seated(kinds - {p}, q) {
      assert Seated(kinds, q);
      assert |q| > 1 ==> Parent(q) <= q;
    }
  }

  lemma RootNotEmpty(s: State, u: Name)
    requires TreeOk(s) && u in s.users
    ensures Root(u) in s.tree && s.tree[Root(u)].Dir? && !EmptyDir(KindsOf(s.tree), Root(u))
  {
    assert RootsOk(s, u);
    assert SharedDir(u) in KindsOf(s.tree) && Root(u) <= SharedDir(u);
  }

  lemma ClearedIsCreatable(s: State, p: Path, u: Name)
    requires Valid(s) && Cleared(s, p, u) != s
    ensures CanCreate(KindsOf(Cleared(s, p, u).tree), p)
  {
    var kinds := KindsOf(s.tree);
    assert p in s.tree && Cleared(s, p, u).tree == s.tree - {p};
    assert EntryOk(s, p);
    var v := p[0];
    EntryFound(s, p);
    RootNotEmpty(s, v);
    assert |p| > 1 || p == Root(v);
    TreeClosed(s);
    ClosedWithoutLeaf(kinds, p);
    assert KindsOf(s.tree - {p}) == kinds - {p};
    CreatePlace(kinds - {p}, p);
  }

  lemma FailedUploadKeepsValid(s: State, u: Name, p: Path, body: Bytes)
    requires Valid(s) && UploadStep(s, u, p, body).1 != Ok
    ensures Valid(UploadStep(s, u, p, body).0)
  {
    var t := UploadStep(s, u, p, body).0;
    if UploadStep(s, u, p, body).1 == UploadFailed {
      if Cleared(s, p, u) != s {
        ClearedIsCreatable(s, p, u);
      }
      StoreFails(s, p, body);
      StrayKeepsCore(s, t);
      forall k <- t.sharedata ensures Coherent(t, k) {
        assert Coherent(s, k);
      }
    }
  }

  lemma FailedRemoveKeepsValid(s: State, u: Name, p: Path)
    requires Valid(s) && RemoveStep(s, u, p).1 != Ok
    ensures Valid(RemoveStep(s, u, p).0)
  {
    if u in s.users && Allowed(p, u) && IsSharedFile(s.sharedata, p).AsSharer? {
      SharerPlace(s, p);
      SharedPlace(s, p[0], p);
      EntryFound(s, p);
      if p[0] == u {
        RemoveKeepsValid(s, u, p);
      } else {
        NoShareesFound(s, u, p);
        assert s.tree - {} == s.tree && s.sharedata - {} == s.sharedata;
      }
    } else if p in s.tree && s.tree[p].Link? && IsSharedFile(s.sharedata, p).Unshared? {
      UnlinkKeepsValid(s, p);
    }
  }

  /** A step that fails keeps the invariant, confined or not. */
  lemma FailedStepKeepsValid(s: State, op: Op)
    requires Valid(s) && Step(s, op).1 != Ok
    ensures Valid(Step(s, op).0)
  {
    match op
    case Signup(username, password) => SignupKeepsValid(s, username, password);
    case Upload(u, p, body) => FailedUploadKeepsValid(s, u, p, body);
    case Remove(u, p) => FailedRemoveKeepsValid(s, u, p);
    case _ =>
  }

  /** Whether the step, if it succeeds, keeps the invariant, told from the state before it. This says
      nothing about whose bytes it changes. */
  predicate KeepsInvariant(s: State, op: Op) {
    ConfinedOp(op) ||
    match op
    case Mkdir(u, p) => |p| > 1
    case Upload(u, p, body) =>
      || (IsSharedFile(s.sharedata, p).Unshared? && |p| > 1 && !InShared(p))
      || (IsSharedFile(s.sharedata, p).AsSharer? && SameAndOwnedTwice(s, p, body))
    case Remove(u, p) => IsSharedFile(s.sharedata, p).Unshared? && p != [] && p != SharedDir(p[0])
    case Share(u, p, sharee, perm) => false
    case _ => true
  }

  /** Exactly which successful steps keep the invariant. */
  lemma StepValidExactly(s: State, op: Op)
    requires Valid(s) && Step(s, op).1 == Ok
    ensures Valid(Step(s, op).0) <==> KeepsInvariant(s, op)
  {
    match op
    case Signup(username, password) => SignupKeepsValid(s, username, password);
    case Mkdir(u, p) =>
      MkdirValidExactly(s, u, p);
      assert RootsOk(s, u) && (|p| == 1 && p[0] == u ==> p == Root(u));
    case Upload(u, p, body) => UploadValidExactly(s, u, p, body);
    case Remove(u, p) => RemoveValidExactly(s, u, p);
    case Share(u, p, sharee, perm) => ShareValidExactlyConfined(s, u, p, sharee, perm);
    case Unshare(u, p, sharee) => UnshareKeepsValid(s, u, p, sharee);
    case Chperm(u, p, sharee, perm) => ChpermKeepsValid(s, u, p, sharee, perm);
  }

  // ----- Runs

  /** Every step of the run fails, or is one that keeps the invariant. */
  ghost predicate KeepsThroughout(s: State, ops: seq<Op>)
    decreases |ops|
  {
    ops == [] ||
    var n := |ops| - 1;
    var m := Run(s, ops[..n]);
    KeepsThroughout(s, ops[..n]) && (Step(m, ops[n]).1 == Ok ==> KeepsInvariant(m, ops[n]))
  }

  lemma StepValidIff(s: State, op: Op)
    requires Valid(s)
    ensures Valid(Step(s, op).0) <==> (Step(s, op).1 == Ok ==> KeepsInvariant(s, op))
  {
    if Step(s, op).1 == Ok {
      StepValidExactly(s, op);
    } else {
      FailedStepKeepsValid(s, op);
    }
  }

  lemma {:induction false} KeepsThroughoutPrefix(s: State, ops: seq<Op>, i: nat)
    requires KeepsThroughout(s, ops) && i <= |ops|
    ensures KeepsThroughout(s, ops[..i])
    decreases |ops|
  {
    if i == |ops| {
      assert ops[..i] == ops;
    } else {
      KeepsThroughoutPrefix(s, ops[..|ops| - 1], i);
      assert ops[..|ops| - 1][..i] == ops[..i];
    }
  }

  lemma {:induction false} RunKeepsValidThroughout(s: State, ops: seq<Op>)
    requires Valid(s) && KeepsThroughout(s, ops)
    ensures Valid(Run(s, ops))
    decreases |ops|
  {
    if ops != [] {
      var n := |ops| - 1;
      RunKeepsValidThroughout(s, ops[..n]);
      StepValidIff(Run(s, ops[..n]), ops[n]);
    }
  }

  /** The state is valid after every step of a run exactly when every step that succeeds is one that
      keeps the invariant. */
  lemma {:induction false} RunValidExactly(s: State, ops: seq<Op>)
    requires Valid(s)
    ensures KeepsThroughout(s, ops) <==> forall i :: 0 <= i <= |ops| ==> Valid(Run(s, ops[..i]))
    decreases |ops|
  {
    if KeepsThroughout(s, ops) {
      forall i | 0 <= i <= |ops| ensures Valid(Run(s, ops[..i])) {
        KeepsThroughoutPrefix(s, ops, i);
        RunKeepsValidThroughout(s, ops[..i]);
      }
    } else {
      var n := |ops| - 1;
      RunValidExactly(s, ops[..n]);
      assert ops[..|ops|] == ops;
      if KeepsThroughout(s, ops[..n]) {
        RunKeepsValidThroughout(s, ops[..n]);
        StepValidIff(Run(s, ops[..n]), ops[n]);
        assert !Valid(Run(s, ops[..|ops|]));
      } else {
        var i :| 0 <= i <= n && !Valid(Run(s, ops[..n][..i]));
        assert ops[..n][..i] == ops[..i];
      }
    }
  }

  /** Confined requests always do. */
  lemma {:induction false} ConfinedKeepsThroughout(s: State, ops: seq<Op>)
    requires forall op <- ops :: ConfinedOp(op)
    ensures KeepsThroughout(s, ops)
    decreases |ops|
  {
    if ops != [] {
      ConfinedKeepsThroughout(s, ops[..|ops| - 1]);
    }
  }

  // ----- Where an upload succeeds

  lemma StoredOkIff(s: State, p: Path, body: Bytes)
    ensures Stored(s, p, body).1 == Ok <==> CanCreate(KindsOf(s.tree), p)
  {
  }

  lemma UnconfinedUploadIsStored(s: State, u: Name, p: Path, body: Bytes)
    requires Valid(s) && u in s.users && Allowed(p, u) && p[0] != u && p !in s.sharedata
    ensures UploadStep(s, u, p, body).0 == Stored(Cleared(s, p, u), p, body).0
    ensures UploadStep(s, u, p, body).1
         == if IsSharedFile(s.sharedata, p).AsSharer? then Ok else Stored(Cleared(s, p, u), p, body).1
  {
    if IsSharedFile(s.sharedata, p).AsSharer? {
      UnconfinedSharedPlace(s, u, p);
      NobodyRelinked(s, u, p, body);
    }
  }

  /** An unconfined upload that nobody's row is in the way of succeeds exactly at a place that can be
      written, or beside the users' roots where nothing is. */
  lemma UnconfinedUploadOkExactly(s: State, u: Name, p: Path, body: Bytes)
    requires Valid(s) && u in s.users && Allowed(p, u) && p[0] != u && p !in s.sharedata
    ensures UploadStep(s, u, p, body).1 == Ok <==> Uploadable(s, p) || (|p| == 1 && NoNul(p) && p !in s.tree)
    ensures UploadStep(s, u, p, body).0 == Stored(Cleared(s, p, u), p, body).0
    ensures UploadStep(s, u, p, body).1 == Ok <==> Stored(Cleared(s, p, u), p, body).1 == Ok
  {
    UnconfinedUploadIsStored(s, u, p, body);
    StoredOkIff(Cleared(s, p, u), p, body);
    PlaceCleared(s, u, p);
    if IsSharedFile(s.sharedata, p).AsSharer? {
      UnconfinedSharedPlace(s, u, p);
    }
  }

  lemma UnconfinedSharedPlace(s: State, u: Name, p: Path)
    requires Valid(s) && p != [] && p[0] != u && IsSharedFile(s.sharedata, p).AsSharer?
    ensures Uploadable(s, p) && ShareesOf(s.sharedata, u, p) == {} && !Reserved(p, u)
  {
    SharerPlace(s, p);
    SharedPlace(s, p[0], p);
    NoShareesFound(s, u, p);
  }

  /** What clearing leaves at a place nobody shares: the link can be created exactly where the place can
      be written, or beside the roots where nothing is. */
  lemma PlaceCleared(s: State, u: Name, p: Path)
    requires Valid(s) && Allowed(p, u) && p[0] != u && p !in s.sharedata
    ensures CanCreate(KindsOf(Cleared(s, p, u).tree), p) <==> Uploadable(s, p) || (|p| == 1 && NoNul(p) && p !in s.tree)
  {
    if p in s.tree {
      OccupiedPlaceCleared(s, u, p);
    } else {
      TreeClosed(s);
      CreatePlace(KindsOf(s.tree), p);
      assert Cleared(s, p, u) == s;
    }
  }

  lemma OccupiedPlaceCleared(s: State, u: Name, p: Path)
    requires Valid(s) && Allowed(p, u) && p[0] != u && p in s.tree
    ensures CanCreate(KindsOf(Cleared(s, p, u).tree), p) <==> Uploadable(s, p)
  {
    assert EntryOk(s, p);
    var v := p[0];
    EntryFound(s, p);
    RootNotEmpty(s, v);
    assert |p| > 1 || p == Root(v);
    if Cleared(s, p, u) != s {
      ClearedIsCreatable(s, p, u);
    } else if s.tree[p].Link? {
      LinkFound(s, p);
    }
  }

  lemma ClearedFrame(s: State, p: Path, u: Name)
    ensures var c := Cleared(s, p, u);
            && c.users == s.users && c.sharedata == s.sharedata
            && (c.tree == s.tree || c.tree == s.tree - {p})
  {
  }

  lemma StoredFrame(s: State, p: Path, u: Name, body: Bytes)
    requires StoredAt(Cleared(s, p, u), Stored(Cleared(s, p, u), p, body).0, p, body)
    ensures var t := Stored(Cleared(s, p, u), p, body).0;
            t.tree == s.tree[p := t.tree[p]] && t.users == s.users && t.sharedata == s.sharedata
  {
    ClearedFrame(s, p, u);
    RelinkedEntry(s.tree, p, Stored(Cleared(s, p, u), p, body).0.tree[p]);
  }

  /** What an upload outside the user's root writes: the body at the place. Other entries stay, and so do
      the bytes behind every other owner link - and behind every share's, unless the place is shared. */
  lemma UnconfinedWrites(s: State, u: Name, p: Path, body: Bytes)
    requires Valid(s) && Allowed(p, u) && p[0] != u && p !in s.sharedata
    requires Stored(Cleared(s, p, u), p, body).1 == Ok
    ensures var t := Stored(Cleared(s, p, u), p, body).0;
            && StoredAt(Cleared(s, p, u), t, p, body)
            && t.tree == s.tree[p := t.tree[p]] && t.users == s.users && t.sharedata == s.sharedata
            && forall q | q in s.tree && q != p && s.tree[q].Link? && (InShared(q) ==> IsSharedFile(s.sharedata, p).Unshared?) ::
                 SameBytes(s, t, s.tree[q].target)
  {
    var c := Cleared(s, p, u);
    ClearedRows(s, u, p);
    StoreWorks(c, p, body);
    StoredFrame(s, p, u, body);
    BytesThroughStore(s, c, Stored(c, p, body).0, p, body);
  }

  lemma BytesThroughStore(s: State, c: State, t: State, p: Path, body: Bytes)
    requires StoredAt(c, t, p, body)
    ensures forall f | f in c.filedata && SameBytes(s, c, f) :: SameBytes(s, t, f)
  {
  }

  lemma ClearedRows(s: State, u: Name, p: Path)
    requires Valid(s) && Allowed(p, u) && p[0] != u && p !in s.sharedata
    ensures RowsInOrder(Cleared(s, p, u))
    ensures forall q | q in s.tree && q != p && s.tree[q].Link? && (InShared(q) ==> IsSharedFile(s.sharedata, p).Unshared?) ::
              s.tree[q].target in Cleared(s, p, u).filedata && SameBytes(s, Cleared(s, p, u), s.tree[q].target)
  {
    var c := Cleared(s, p, u);
    if p in s.tree && s.tree[p].Link? {
      OwnerLink(s, p);
      EntryFound(s, p);
      LinkFound(s, p);
      UnlinkedRows(s, p);
    } else {
      assert c.filedata == s.filedata && c.blobs == s.blobs;
      forall f <- c.filedata ensures RowOk(c, f) {
        assert RowOk(s, f);
        if c != s {
          OwnersWithout(s.tree, {p}, f);
        }
      }
      forall q | q in s.tree && s.tree[q].Link? ensures s.tree[q].target in s.filedata && SameBytes(s, s, s.tree[q].target) {
        LinkRow(s, q);
      }
    }
  }

  lemma UnlinkedRows(s: State, p: Path)
    requires Valid(s) && p in s.tree && s.tree[p].Link? && !InShared(p)
    ensures RowsInOrder(Unlinked(s, p).0)
    ensures forall q | q in s.tree && q != p && s.tree[q].Link? && (InShared(q) ==> !IsSharedFile(s.sharedata, p).AsSharer?) ::
              s.tree[q].target in Unlinked(s, p).0.filedata && SameBytes(s, Unlinked(s, p).0, s.tree[q].target)
  {
    var t := Unlinked(s, p).0;
    UnlinkRows(s, p);
    forall q | q in s.tree && q != p && s.tree[q].Link? && (InShared(q) ==> !IsSharedFile(s.sharedata, p).AsSharer?)
      ensures s.tree[q].target in t.filedata && SameBytes(s, t, s.tree[q].target)
    {
      LinkRow(s, q);
      if InShared(q) {
        assert Coherent(s, q);
        assert ShareRowOk(s, q);
        assert s.sharedata[q].origpath in Owners(s.tree, s.tree[q].target);
      } else {
        assert q in Owners(s.tree, s.tree[q].target);
      }
      assert RowOk(t, s.tree[q].target);
    }
  }

  /** What an unconfined removal that succeeds does: it unlinks an owner's link, or takes one entry away. */
  lemma UnconfinedRemoved(s: State, u: Name, p: Path)
    requires Valid(s) && Allowed(p, u) && p[0] != u && RemoveStep(s, u, p).1 == Ok
    ensures p in s.tree && (s.tree[p].Dir? ==> EmptyDir(KindsOf(s.tree), p))
    ensures var t := RemoveStep(s, u, p).0;
            if s.tree[p].Link? && !InShared(p) then t == Unlinked(s, p).0
            else t.tree == s.tree - {p} && t.users == s.users && t.blobs == s.blobs
  {
    match IsSharedFile(s.sharedata, p) {
      case AsSharer =>
        SharerPlace(s, p);
        SharedPlace(s, p[0], p);
        NoShareesFound(s, u, p);
        assert s.tree - {} == s.tree && s.sharedata - {} == s.sharedata;
        EntryFound(s, p);
      case AsSharee =>
        ShareePlace(s, p);
      case Unshared =>
        EntryFound(s, p);
        if s.tree[p].Link? {
          OwnerLink(s, p);
        }
    }
  }

  /** Whoever removes it, only one entry goes from the tree, and no link to a file that stays is affected. */
  lemma UnconfinedRemoves(s: State, u: Name, p: Path)
    requires Valid(s) && Allowed(p, u) && p[0] != u && RemoveStep(s, u, p).1 == Ok
    ensures var t := RemoveStep(s, u, p).0;
            && p in s.tree && t.tree == s.tree - {p} && t.users == s.users && Closed(KindsOf(t.tree))
            && forall q | q in s.tree && q != p && s.tree[q].Link? && (InShared(q) ==> !IsSharedFile(s.sharedata, p).AsSharer?) ::
                 SameBytes(s, t, s.tree[q].target)
  {
    var t := RemoveStep(s, u, p).0;
    UnconfinedRemoved(s, u, p);
    TreeClosed(s);
    ClosedWithoutLeaf(KindsOf(s.tree), p);
    assert KindsOf(s.tree - {p}) == KindsOf(s.tree) - {p};
    if s.tree[p].Link? && !InShared(p) {
      UnlinkedRows(s, p);
    } else {
      forall q | q in s.tree && s.tree[q].Link? ensures SameBytes(s, t, s.tree[q].target) {
        LinkBytes(s, q);
      }
    }
  }

  // ----- Examples

  /** A new file under the Shared_with_me of a user whose name extends the uploader's gets a link that
      no row accounts for. */
  lemma SiblingUploadBreaks(s: State, u: Name, v: Name, n: Name, body: Bytes)
    requires Valid(s) && u in s.users && v in s.users && u < v
    requires SharedDir(v) + [n] !in s.tree && '\0' !in n
    ensures UploadStep(s, u, SharedDir(v) + [n], body).1 == Ok
    ensures !Valid(UploadStep(s, u, SharedDir(v) + [n], body).0)
  {
    var k := SharedDir(v) + [n];
    UsersNoNul(s, v);
    SharedPlaceNoNul(v, n);
    forall j <- s.sharedata ensures j != k && s.sharedata[j].origpath != k {
      assert Coherent(s, j);
    }
    assert IsSharedFile(s.sharedata, k).Unshared?;
    assert RootsOk(s, v);
    TreeClosed(s);
    CreatePlace(KindsOf(s.tree), k);
    assert Cleared(s, k, u) == s;
    StoreWorks(s, k, body);
    var t := UploadStep(s, u, k, body).0;
    assert t == Stored(s, k, body).0;
    assert t.tree[k].Link? && InShared(k) && !Coherent(t, k);
  }

  lemma SignupWorks(s: State, u: Name)
    requires Valid(s) && u !in s.users && u !in s.unnamed && '\0' !in u
    ensures var t := Step(s, Signup(u, "secret"));
            && t.1 == Ok && Valid(t.0)
            && t.0 == s.(users := s.users + {u}, tree := s.tree[Root(u) := Dir][SharedDir(u) := Dir])
  {
    SignupTree(s, u);
    SignupKeepsValid(s, u, "secret");
  }

  const BOB: Name := "bob"
  const BOBBY: Name := "bobby"

  /** Two users, the name of one extending the other's. */
  const TWO_SIGNUPS: seq<Op> := [Signup(BOB, "secret"), Signup(BOBBY, "secret")]

  lemma AfterTwoSignups()
    ensures var s := Run(INITIAL, TWO_SIGNUPS);
            && Valid(s) && s.users == {BOB, BOBBY} && s.sharedata == map[] && s.unnamed == {}
            && s.tree.Keys == {Root(BOB), SharedDir(BOB), Root(BOBBY), SharedDir(BOBBY)}
            && (forall p <- s.tree :: s.tree[p].Dir?)
    ensures BOB < BOBBY
  {
    InitialValid();
    SignupWorks(INITIAL, BOB);
    var s1 := Step(INITIAL, TWO_SIGNUPS[0]).0;
    SignupWorks(s1, BOBBY);
    RunAppend(INITIAL, [], TWO_SIGNUPS[0]);
    RunAppend(INITIAL, [TWO_SIGNUPS[0]], TWO_SIGNUPS[1]);
    assert [] + [TWO_SIGNUPS[0]] == [TWO_SIGNUPS[0]] && [TWO_SIGNUPS[0]] + [TWO_SIGNUPS[1]] == TWO_SIGNUPS;
    assert Run(INITIAL, []) == INITIAL;
    assert BOBBY[..3] == BOB;
  }

  /** So the invariant does not hold over all runs without confinement: a concrete run that loses it. */
  lemma ConfinementNeeded()
    ensures !Valid(Run(INITIAL, TWO_SIGNUPS + [Upload(BOB, [BOBBY, SHARED, "x"], [])]))
  {
    AfterTwoSignups();
    assert SharedDir(BOBBY) + ["x"] == [BOBBY, SHARED, "x"];
    SiblingUploadBreaks(Run(INITIAL, TWO_SIGNUPS), BOB, BOBBY, "x", []);
    RunAppend(INITIAL, TWO_SIGNUPS, Upload(BOB, [BOBBY, SHARED, "x"], []));
  }

  lemma TopPlaceFree(s: State, u: Name, n: Name)
    requires Valid(s) && u in s.users && '\0' !in n && [u, n] !in s.tree
    ensures Uploadable(s, [u, n])
  {
    assert Parent([u, n]) == Root(u);
    assert RootsOk(s, u);
    assert EntryOk(s, Root(u));
  }

  /** A file of one's own at the top of one's root can always be written. */
  lemma TopFileWritable(s: State, u: Name, n: Name, body: Bytes)
    requires Valid(s) && u in s.users && !(SHARED <= n) && '\0' !in n && [u, n] !in s.tree
    requires IsSharedFile(s.sharedata, [u, n]).Unshared?
    ensures var t := Step(s, Upload(u, [u, n], body));
            t.1 == Ok && Valid(t.0) && WrittenAt(s, t.0, [u, n], body)
  {
    TopPlaceFree(s, u, n);
    UploadKeepsValid(s, u, [u, n], body);
    UploadWorks(s, [u, n], u, body);
  }

  /** A first share of one's own file gets the file's own name under the sharee's Shared_with_me. */
  lemma FirstShareWorks(s: State, u: Name, n: Name, sharee: Name)
    requires Valid(s) && u in s.users && sharee in s.users && u != sharee && !(SHARED <= n)
    requires [u, n] in s.tree && s.tree[[u, n]].Link? && s.sharedata == map[] && [sharee, SHARED, n] !in s.tree
    ensures var t := Step(s, Share(u, [u, n], sharee, "r"));
            && t.1 == Ok && Valid(t.0) && t.0.users == s.users
            && t.0.sharedata == map[[sharee, SHARED, n] := ShareRow(u, sharee, [u, n], 0)]
  {
    var p, k: Path := [u, n], [sharee, SHARED, n];
    UsersNoNul(s, sharee);
    LinkFound(s, p);
    EntryFound(s, p);
    assert SharedDir(sharee) + [Candidate(n, 0)] == k && k !in KindsOf(s.tree);
    assert ShareePath(KindsOf(s.tree), sharee, p) == k;
    assert EntryOk(s, p);
    SearchFindsFree(s, sharee, p);
    assert Matching(s.sharedata, u, sharee, p) == {};
    ShareGoesTo(s, u, p, sharee, "r");
    ShareKeepsValid(s, u, p, sharee, "r");
  }

  const UPLOAD_BY_BOB: Op := Upload(BOB, [BOB, "f"], [])
  const SHARE_WITH_BOBBY: Op := Share(BOB, [BOB, "f"], BOBBY, "r")

  lemma AfterUpload()
    ensures var s := Run(INITIAL, TWO_SIGNUPS + [UPLOAD_BY_BOB]);
            && Valid(s) && s.users == {BOB, BOBBY} && s.sharedata == map[]
            && [BOB, "f"] in s.tree && s.tree[[BOB, "f"]].Link? && [BOBBY, SHARED, "f"] !in s.tree
  {
    AfterTwoSignups();
    TopFileWritable(Run(INITIAL, TWO_SIGNUPS), BOB, "f", []);
    RunAppend(INITIAL, TWO_SIGNUPS, UPLOAD_BY_BOB);
  }

  lemma AfterSharing()
    ensures var s := Run(INITIAL, TWO_SIGNUPS + [UPLOAD_BY_BOB] + [SHARE_WITH_BOBBY]);
            && Valid(s) && s.users == {BOB, BOBBY}
            && s.sharedata == map[[BOBBY, SHARED, "f"] := ShareRow(BOB, BOBBY, [BOB, "f"], 0)]
  {
    AfterUpload();
    FirstShareWorks(Run(INITIAL, TWO_SIGNUPS + [UPLOAD_BY_BOB]), BOB, "f", BOBBY);
    RunAppend(INITIAL, TWO_SIGNUPS + [UPLOAD_BY_BOB], SHARE_WITH_BOBBY);
  }

  /** The exit of getPerms is reachable: a concrete run whose next upload ends the process. */
  lemma ExitReached()
    ensures Step(Run(INITIAL, TWO_SIGNUPS + [UPLOAD_BY_BOB] + [SHARE_WITH_BOBBY]), Upload(BOB, [BOBBY, SHARED, "f"], [])).1 == Exited
  {
    AfterSharing();
    AfterTwoSignups();
    UploadExitsExactly(Run(INITIAL, TWO_SIGNUPS + [UPLOAD_BY_BOB] + [SHARE_WITH_BOBBY]), BOB, [BOBBY, SHARED, "f"], []);
  }
}
