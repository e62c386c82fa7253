/** What users can tell of a request - its answer, and every download after it - against the plain store, for
    every request from a valid state: exactly which ones differ. */
module Observation {
  import opened Decimal
  import opened Paths
  import opened Store
  import opened Handlers
  import opened Invariants
  import opened Steps
  import opened Confinement
  import opened PlainStore
  import opened Refinement
  import opened UserLaws

  /** The answer, and what every registered user reads at every path it may name, are the plain store's. */
  ghost predicate AsPlain(s: State, op: Op) {
    Step(s, op).1 == PlainStep(Seen(s), op).1 && ReadsAsPlain(Step(s, op).0, PlainStep(Seen(s), op).0)
  }

  ghost predicate ReadsAsPlain(t: State, a: Plain) {
    && t.users == a.users
    && forall v, q | v in t.users && Allowed(q, v) :: DownloadStep(t, v, q) == PlainRead(a, v, q)
  }

  /** The requests that differ, all let out of the user's root by `checkpath`: a directory or file made
      beside the roots; a write over, or a removal of, somebody's shared file that leaves its sharees behind;
      a share of what is itself a share. */
  ghost predicate Departs(s: State, op: Op) {
    match op
    case Mkdir(u, p) => u in s.users && Allowed(p, u) && BesideRoots(s, p)
    case Upload(u, p, body) =>
      && u in s.users && Allowed(p, u) && p[0] != u
      && (BesideRoots(s, p) || (IsSharedFile(s.sharedata, p).AsSharer? && !SameAndOwnedTwice(s, p, body)))
    case Remove(u, p) =>
      u in s.users && Allowed(p, u) && p[0] != u && IsSharedFile(s.sharedata, p).AsSharer? && !SoleOwner(s, p)
    case Share(u, p, sharee, perm) => ShareRefusal(s, u, p, sharee, perm).None? && p in s.sharedata
    case _ => false
  }

  predicate BesideRoots(s: State, p: Path) {
    |p| == 1 && NoNul(p) && p !in s.tree
  }

  lemma RefinedAsPlain(s: State, op: Op)
    requires Valid(s) && Valid(Step(s, op).0)
    ensures AsPlain(s, op)
  {
    var t := Step(s, op).0;
    StepRefines(s, op);
    assert Seen(t).users == t.users;
    forall v, q | v in t.users && Allowed(q, v) ensures DownloadStep(t, v, q) == PlainRead(PlainStep(Seen(s), op).0, v, q) {
      DownloadRefines(t, v, q);
    }
  }

  lemma SharesAreNoFiles(s: State)
    requires Valid(s)
    ensures forall k <- s.sharedata :: k !in FilesSeen(s)
  {
    forall k <- s.sharedata ensures k !in FilesSeen(s) {
      assert Coherent(s, k);
      SeenLink(s, k);
    }
  }

  // ----- Uploads

  /** A write in the plain store, read. */
  lemma PlainWriteRead(a: Plain, u: Name, p: Path, body: Bytes, v: Name, q: Path)
    requires PlainUpload(a, u, p, body).1 == Ok && v in a.users && Allowed(q, v)
    requires forall k <- a.shares :: k !in a.files && a.shares[k].origpath !in a.shares
    ensures var o, at := if p in a.shares then a.shares[p].origpath else p, if q in a.shares then a.shares[q].origpath else q;
            PlainRead(PlainUpload(a, u, p, body).0, v, q) == if at == o then Some(body) else PlainRead(a, v, q)
  {
    if p in a.shares {
      assert forall k <- a.shares :: a.shares[k].origpath != p;
    }
    PlainUploadEffect(a, u, p, body);
  }

  lemma UploadReadsPlain(s: State, u: Name, p: Path, body: Bytes)
    requires Valid(s) && UploadStep(s, u, p, body).1 == Ok && PlainUpload(Seen(s), u, p, body).1 == Ok
    ensures ReadsAsPlain(UploadStep(s, u, p, body).0, PlainUpload(Seen(s), u, p, body).0)
       <==> forall v, q | v in s.users && Allowed(q, v) :: WriteSeenBy(s, UploadStep(s, u, p, body).0, p, body, v, q)
  {
    var t, a := UploadStep(s, u, p, body).0, PlainUpload(Seen(s), u, p, body).0;
    SharesAreNoFiles(s);
    UploadUsers(s, u, p, body);
    PlainUploadUsers(Seen(s), u, p, body);
    forall k <- s.sharedata ensures s.sharedata[k].origpath !in s.sharedata {
      OriginsApart(s, k);
    }
    forall v, q | v in s.users && Allowed(q, v)
      ensures WriteSeenBy(s, t, p, body, v, q) <==> DownloadStep(t, v, q) == PlainRead(a, v, q)
    {
      PlainWriteRead(Seen(s), u, p, body, v, q);
      DownloadRefines(s, v, q);
    }
  }

  lemma UploadUsers(s: State, u: Name, p: Path, body: Bytes)
    ensures UploadStep(s, u, p, body).0.users == s.users
  {
    if u in s.users && Allowed(p, u) {
      match IsSharedFile(s.sharedata, p) {
        case Unshared => UploadedUsers(s, p, u, body);
        case AsSharer => SharerUploadedUsers(s, u, p, body);
        case AsSharee => SharerUploadedUsers(s, s.sharedata[p].sharer, s.sharedata[p].origpath, body);
      }
    }
  }

  lemma PlainUploadUsers(a: Plain, u: Name, p: Path, body: Bytes)
    ensures PlainUpload(a, u, p, body).0.users == a.users
  {
  }

  lemma UploadedUsers(s: State, p: Path, u: Name, body: Bytes)
    ensures Uploaded(s, p, u, body).0.users == s.users
  {
    ClearedFrame(s, p, u);
  }

  lemma SharerUploadedUsers(s: State, u: Name, p: Path, body: Bytes)
    ensures SharerUploaded(s, u, p, body).users == s.users
  {
    UploadedUsers(s.(tree := s.tree - ShareesOf(s.sharedata, u, p)), p, u, body);
  }

  /** A write that succeeds is one of the plain store, except beside the roots. */
  lemma UploadAnswersPlain(s: State, u: Name, p: Path, body: Bytes)
    requires Valid(s) && UploadStep(s, u, p, body).1 == Ok
    ensures PlainUpload(Seen(s), u, p, body).1 == (if BesideRoots(s, p) then UploadFailed else Ok)
    ensures BesideRoots(s, p) ==> p[0] != u
  {
    if p[0] == u {
      UploadKeepsValid(s, u, p, body);
      UploadRefines(s, u, p, body);
      assert RootsOk(s, u) && (|p| == 1 ==> p == Root(u));
    } else {
      match IsSharedFile(s.sharedata, p) {
        case AsSharee => ShareePlace(s, p);
        case AsSharer =>
          SharerPlace(s, p);
          SharedPlace(s, p[0], p);
        case Unshared =>
          UnconfinedUploadOkExactly(s, u, p, body);
          PlaceSeen(s, p);
      }
    }
  }

  lemma UploadDeparts(s: State, u: Name, p: Path, body: Bytes)
    requires Valid(s) && UploadStep(s, u, p, body).1 == Ok
    ensures AsPlain(s, Upload(u, p, body)) <==> !Departs(s, Upload(u, p, body))
  {
    UploadAnswersPlain(s, u, p, body);
    if !BesideRoots(s, p) {
      UploadReadsPlain(s, u, p, body);
      UploadSeenExactly(s, u, p, body);
    }
  }

  // ----- Removals

  lemma RemovalAnswersPlain(s: State, u: Name, p: Path)
    requires Valid(s) && RemoveStep(s, u, p).1 == Ok
    ensures PlainRemove(Seen(s), u, p).1 == Ok && RemoveStep(s, u, p).0.users == s.users
  {
    if Confined(p, u) {
      RemoveFields(s, u, p);
      RemoveFilesEffect(s, u, p);
    } else {
      UnconfinedRemoved(s, u, p);
      UnconfinedRemoves(s, u, p);
      KindsSeen(s);
      EntryFound(s, p);
    }
  }

  lemma PlainRemovalRead(a: Plain, u: Name, p: Path, v: Name, q: Path)
    requires PlainRemove(a, u, p).1 == Ok && v in a.users && Allowed(q, v)
    requires p !in a.dirs * (a.files.Keys + a.shares.Keys) && (p in a.shares ==> p !in a.files)
    requires forall k <- a.shares :: k !in a.files && (p in a.shares || p in a.dirs ==> a.shares[k].origpath != p)
    ensures PlainRead(PlainRemove(a, u, p).0, v, q)
         == if q == p || (q in a.shares && a.shares[q].origpath == p) then None else PlainRead(a, v, q)
  {
    PlainRemoveFiles(a, u, p);
    PlainRemoveRows(a, u, p);
  }

  lemma RemovalReadsPlain(s: State, u: Name, p: Path, v: Name, q: Path)
    requires Valid(s) && PlainRemove(Seen(s), u, p).1 == Ok && v in s.users && Allowed(q, v)
    ensures PlainRead(PlainRemove(Seen(s), u, p).0, v, q)
         == if q == p || OriginOf(s, q) == p then None else DownloadStep(s, v, q)
  {
    SharesAreNoFiles(s);
    KindsApart(s, p);
    PlainRemoveFiles(Seen(s), u, p);
    PlainRemovalRead(Seen(s), u, p, v, q);
    DownloadRefines(s, v, q);
  }

  /** Against a plain store in which the removal reads as it should. */
  lemma RemovalLaw(s: State, t: State, a: Plain, p: Path)
    requires t.users == s.users && a.users == s.users
    requires forall v, q | v in s.users && Allowed(q, v) ::
               PlainRead(a, v, q) == if q == p || OriginOf(s, q) == p then None else DownloadStep(s, v, q)
    ensures ReadsAsPlain(t, a) <==> forall v, q | v in s.users && Allowed(q, v) :: RemovalSeenBy(s, t, p, v, q)
  {
    if ReadsAsPlain(t, a) {
      forall v, q | v in s.users && Allowed(q, v) ensures RemovalSeenBy(s, t, p, v, q) {
        assert DownloadStep(t, v, q) == PlainRead(a, v, q);
      }
    } else {
      var v, q :| v in s.users && Allowed(q, v) && DownloadStep(t, v, q) != PlainRead(a, v, q);
      assert !RemovalSeenBy(s, t, p, v, q);
    }
  }

  lemma RemovalIsRead(s: State, u: Name, p: Path)
    requires Valid(s) && RemoveStep(s, u, p).1 == Ok
    ensures ReadsAsPlain(RemoveStep(s, u, p).0, PlainRemove(Seen(s), u, p).0)
       <==> forall v, q | v in s.users && Allowed(q, v) :: RemovalSeenBy(s, RemoveStep(s, u, p).0, p, v, q)
  {
    RemovalAnswersPlain(s, u, p);
    PlainRemovalUsers(Seen(s), u, p);
    forall v, q | v in s.users && Allowed(q, v)
      ensures PlainRead(PlainRemove(Seen(s), u, p).0, v, q) == if q == p || OriginOf(s, q) == p then None else DownloadStep(s, v, q)
    {
      RemovalReadsPlain(s, u, p, v, q);
    }
    RemovalLaw(s, RemoveStep(s, u, p).0, PlainRemove(Seen(s), u, p).0, p);
  }

  lemma PlainRemovalUsers(a: Plain, u: Name, p: Path)
    ensures PlainRemove(a, u, p).0.users == a.users
  {
  }

  lemma RemovalDeparts(s: State, u: Name, p: Path)
    requires Valid(s) && RemoveStep(s, u, p).1 == Ok
    ensures AsPlain(s, Remove(u, p)) <==> !Departs(s, Remove(u, p))
  {
    RemovalAnswersPlain(s, u, p);
    RemovalIsRead(s, u, p);
    RemovalSeenExactly(s, u, p);
  }

  // ----- Shares

  lemma PlainShareRead(a: Plain, k: Path, r: ShareRow, v: Name, q: Path)
    requires v in a.users && Allowed(q, v) && k !in a.files && k !in a.shares && r.origpath in a.files
    ensures PlainRead(a.(shares := a.shares[k := r]), v, q) == if q == k then Some(a.files[r.origpath]) else PlainRead(a, v, q)
  {
  }

  lemma ShareReadsPlain(s: State, u: Name, p: Path, sharee: Name, perm: string, v: Name, q: Path)
    requires Valid(s) && ShareStep(s, u, p, sharee, perm).1 == Ok && p in FilesSeen(s) && v in s.users && Allowed(q, v)
    ensures var k := ShareePath(KindsOf(s.tree), sharee, p);
            var a := Seen(s).(shares := s.sharedata[k := ShareRow(u, sharee, p, PermOf(perm).value)]);
            DownloadStep(ShareStep(s, u, p, sharee, perm).0, v, q) == PlainRead(a, v, q)
  {
    var k := ShareePath(KindsOf(s.tree), sharee, p);
    ShareGoesTo(s, u, p, sharee, perm);
    assert k in s.sharedata ==> Coherent(s, k);
    ShareThenRead(s, u, p, sharee, perm, v, q);
    PlainShareRead(Seen(s), k, ShareRow(u, sharee, p, PermOf(perm).value), v, q);
    DownloadRefines(s, v, q);
    DownloadRefines(s, u, p);
  }

  /** What a share of an owner's file does, to the server and to the plain store. */
  lemma ShareOfFile(s: State, u: Name, p: Path, sharee: Name, perm: string)
    requires Valid(s) && ShareStep(s, u, p, sharee, perm).1 == Ok && p !in s.sharedata
    ensures var k := ShareePath(KindsOf(s.tree), sharee, p);
            && p in FilesSeen(s) && ShareStep(s, u, p, sharee, perm).0.users == s.users
            && PlainShare(Seen(s), u, p, sharee, perm)
            == (Seen(s).(shares := s.sharedata[k := ShareRow(u, sharee, p, PermOf(perm).value)]), Ok)
  {
    ShareRefines(s, u, p, sharee, perm);
    RefusalSeen(s, u, p, sharee, perm);
    KindsSeen(s);
    EntryFound(s, p);
    SeenLink(s, p);
  }

  lemma ShareReadsAsPlain(s: State, u: Name, p: Path, sharee: Name, perm: string)
    requires Valid(s) && ShareStep(s, u, p, sharee, perm).1 == Ok && p !in s.sharedata
    ensures PlainShare(Seen(s), u, p, sharee, perm).1 == Ok
    ensures ReadsAsPlain(ShareStep(s, u, p, sharee, perm).0, PlainShare(Seen(s), u, p, sharee, perm).0)
  {
    var t, a := ShareStep(s, u, p, sharee, perm).0, PlainShare(Seen(s), u, p, sharee, perm).0;
    ShareOfFile(s, u, p, sharee, perm);
    forall v, q | v in t.users && Allowed(q, v) ensures DownloadStep(t, v, q) == PlainRead(a, v, q) {
      ShareReadsPlain(s, u, p, sharee, perm, v, q);
    }
  }

  lemma ShareAsPlain(s: State, u: Name, p: Path, sharee: Name, perm: string)
    requires Valid(s) && ShareStep(s, u, p, sharee, perm).1 == Ok && p !in s.sharedata
    ensures AsPlain(s, Share(u, p, sharee, perm))
  {
    ShareReadsAsPlain(s, u, p, sharee, perm);
  }

  /** A share of a share succeeds, and the plain store finds no file there. */
  lemma ShareOfShareDeparts(s: State, u: Name, p: Path, sharee: Name, perm: string)
    requires Valid(s) && ShareRefusal(s, u, p, sharee, perm).None? && p in s.sharedata
    ensures ShareStep(s, u, p, sharee, perm).1 == Ok && PlainShare(Seen(s), u, p, sharee, perm).1 == NoSuchResource
  {
    assert Coherent(s, p);
    SeenLink(s, p);
    EntryFound(s, p);
    ShareGoesTo(s, u, p, sharee, perm);
    RefusalSeen(s, u, p, sharee, perm);
  }

  // ----- Every request

  /** Exactly which requests users can tell from those of the plain store. */
  lemma AsPlainExactly(s: State, op: Op)
    requires Valid(s)
    ensures AsPlain(s, op) <==> !Departs(s, op)
  {
    StepValidIff(s, op);
    if Step(s, op).1 != Ok {
      RefinedAsPlain(s, op);
      FailsWithoutDeparting(s, op);
    } else {
      match op
      case Upload(u, p, body) => UploadDeparts(s, u, p, body);
      case Remove(u, p) => RemovalDeparts(s, u, p);
      case Mkdir(u, p) => MkdirDeparts(s, u, p);
      case Share(u, p, sharee, perm) =>
        if p in s.sharedata {
          ShareOfShareDeparts(s, u, p, sharee, perm);
        } else {
          ShareAsPlain(s, u, p, sharee, perm);
        }
      case _ => RefinedAsPlain(s, op);
    }
  }

  lemma MkdirDeparts(s: State, u: Name, p: Path)
    requires Valid(s) && MkdirStep(s, u, p).1 == Ok
    ensures AsPlain(s, Mkdir(u, p)) <==> !Departs(s, Mkdir(u, p))
  {
    MkdirValidExactly(s, u, p);
    if |p| > 1 {
      RefinedAsPlain(s, Mkdir(u, p));
    }
  }

  lemma FailsWithoutDeparting(s: State, op: Op)
    requires Valid(s) && Step(s, op).1 != Ok
    ensures !Departs(s, op)
  {
    match op
    case Mkdir(u, p) =>
      TreeClosed(s);
      if p != [] {
        CreatePlace(KindsOf(s.tree), p);
      }
    case Upload(u, p, body) =>
      if u in s.users && Allowed(p, u) && p[0] != u && p !in s.sharedata {
        UnconfinedUploadOkExactly(s, u, p, body);
      }
      assert p in s.sharedata ==> ShareRowOk(s, p);
      if p in s.sharedata {
        ShareePlaceOf(s, p);
      }
    case Remove(u, p) =>
      if u in s.users && Allowed(p, u) && p[0] != u && IsSharedFile(s.sharedata, p).AsSharer? {
        SharedRemovalUnlinks(s, u, p);
      }
    case Share(u, p, sharee, perm) =>
      if ShareRefusal(s, u, p, sharee, perm).None? && p in s.sharedata {
        ShareOfShareDeparts(s, u, p, sharee, perm);
      }
    case _ =>
  }

  lemma ShareePlaceOf(s: State, p: Path)
    requires Valid(s) && p in s.sharedata
    ensures |p| == 3 && !IsSharedFile(s.sharedata, p).AsSharer?
  {
    assert ShareRowOk(s, p);
    ShareePlace(s, p);
  }
}
