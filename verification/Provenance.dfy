/** Who can change the bytes at an owner's path and who can read them, step by step and over whole runs,
    and exactly which requests of users whom `checkpath` let out of their root break that. */
module Provenance {
  import opened Decimal
  import opened Paths
  import opened Store
  import opened Handlers
  import opened Invariants
  import opened Steps
  import opened Confinement
  import opened PlainStore
  import opened Refinement
  import opened UserLaws

  function At(files: map<Path, Bytes>, p: Path): Option<Bytes> {
    if p in files then Some(files[p]) else None
  }

  /** What the owner reads at a path. */
  function BytesAt(s: State, p: Path): Option<Bytes> {
    At(FilesSeen(s), p)
  }

  /** The owner uploads or removes there, or a sharee whose row has perm 1 uploads to its own path. */
  predicate MayWrite(shares: map<Path, ShareRow>, op: Op, p: Path) {
    match op
    case Upload(u, q, _) =>
      || (q == p && p != [] && u == p[0])
      || (q in shares && shares[q].origpath == p && shares[q].sharee == u && shares[q].perm == 1)
    case Remove(u, q) => q == p && p != [] && u == p[0]
    case _ => false
  }

  lemma PlainUploadProvenance(a: Plain, u: Name, q: Path, body: Bytes, p: Path)
    requires Confined(q, u)
    requires forall k <- a.shares :: k != [] && k[0] == a.shares[k].sharee && (a.shares[k].perm == 0 || a.shares[k].perm == 1)
    ensures At(PlainUpload(a, u, q, body).0.files, p) != At(a.files, p) ==> MayWrite(a.shares, Upload(u, q, body), p)
  {
  }

  lemma PlainProvenance(a: Plain, op: Op, p: Path)
    requires ConfinedOp(op)
    requires forall k <- a.shares :: k != [] && k[0] == a.shares[k].sharee && (a.shares[k].perm == 0 || a.shares[k].perm == 1)
    ensures At(PlainStep(a, op).0.files, p) != At(a.files, p) ==> MayWrite(a.shares, op, p)
  {
    match op
    case Upload(u, q, body) => PlainUploadProvenance(a, u, q, body, p);
    case _ =>
  }

  lemma ConfinedStepProvenance(s: State, op: Op, p: Path)
    requires Valid(s) && ConfinedOp(op)
    ensures BytesAt(Step(s, op).0, p) != BytesAt(s, p) ==> MayWrite(s.sharedata, op, p)
  {
    StepKeepsValid(s, op);
    StepRefines(s, op);
    forall k <- s.sharedata
      ensures k != [] && k[0] == s.sharedata[k].sharee && (s.sharedata[k].perm == 0 || s.sharedata[k].perm == 1)
    {
      assert ShareRowOk(s, k);
    }
    PlainProvenance(Seen(s), op, p);
    assert Seen(s).files == FilesSeen(s);
    assert Seen(Step(s, op).0).files == FilesSeen(Step(s, op).0);
  }

  /** The requests by which a user whom `checkpath` let out of its root changes what is not its own: an
      upload of other bytes at a place that can be written, in the root of a user whose name extends the
      uploader's or beside the roots, and the removal of such a user's file. */
  predicate Overreaches(s: State, op: Op) {
    match op
    case Upload(u, q, body) =>
      && u in s.users && Allowed(q, u) && q[0] != u && !InShared(q)
      && (Uploadable(s, q) || (|q| == 1 && NoNul(q) && q !in s.tree)) && BytesAt(s, q) != Some(body)
    case Remove(u, q) => u in s.users && Allowed(q, u) && q[0] != u && q in FilesSeen(s)
    case _ => false
  }

  // ----- What requests outside the user's root change

  lemma UnconfinedUploadFiles(s: State, u: Name, q: Path, body: Bytes)
    requires Valid(s) && u in s.users && Allowed(q, u) && q[0] != u
    ensures FilesSeen(UploadStep(s, u, q, body).0) ==
              if !InShared(q) && (Uploadable(s, q) || (|q| == 1 && NoNul(q) && q !in s.tree)) then FilesSeen(s)[q := body] else FilesSeen(s)
  {
    if q in s.sharedata {
      ShareePlace(s, q);
    } else {
      UnconfinedUploadOkExactly(s, u, q, body);
      if UploadStep(s, u, q, body).1 == Ok {
        UnconfinedWrites(s, u, q, body);
        PlaceWritten(s, UploadStep(s, u, q, body).0, q, body);
      } else {
        FailedUploadAtomic(s, u, q, body);
        StraySeen(s, UploadStep(s, u, q, body).0);
      }
    }
  }

  lemma UnconfinedRemoveFiles(s: State, u: Name, q: Path)
    requires Valid(s) && u in s.users && Allowed(q, u) && q[0] != u
    ensures FilesSeen(RemoveStep(s, u, q).0) == FilesSeen(s) - {q}
  {
    var t := RemoveStep(s, u, q).0;
    if RemoveStep(s, u, q).1 == Ok {
      UnconfinedRemoves(s, u, q);
      EntryGone(s, t, q);
    } else {
      FailedRemoveKeepsValid(s, u, q);
      RemoveRefines(s, u, q);
      assert Seen(t).files == FilesSeen(t) && Seen(s).files == FilesSeen(s);
      FailedPlainRemove(Seen(s), u, q);
      KindsSeen(s);
      if q in FilesSeen(s) {
        OwnerFileRemovable(s, u, q);
      }
    }
  }

  lemma EntryGone(s: State, t: State, q: Path)
    requires t.tree == s.tree - {q}
    requires forall p | p in s.tree && p != q && s.tree[p].Link? && !InShared(p) :: SameBytes(s, t, s.tree[p].target)
    ensures FilesSeen(t) == FilesSeen(s) - {q}
  {
    forall p | p in t.tree && !InShared(p) ensures OwnerFile(t, p) <==> OwnerFile(s, p) {
      if s.tree[p].Link? { assert SameBytes(s, t, s.tree[p].target); }
    }
  }

  lemma FailedPlainRemove(a: Plain, u: Name, q: Path)
    requires PlainRemove(a, u, q).1 != Ok
    ensures PlainRemove(a, u, q).0 == a
  {
  }

  lemma OwnerFileRemovable(s: State, u: Name, q: Path)
    requires Valid(s) && u in s.users && Allowed(q, u) && q in FilesSeen(s)
    ensures RemoveStep(s, u, q).1 == Ok
  {
    LinkFound(s, q);
    EntryFound(s, q);
    if IsSharedFile(s.sharedata, q).AsSharer? {
      SharerPlace(s, q);
      SharedPlace(s, q[0], q);
      assert KindsOf(s.tree)[q] == false;
      DropShares(s, ShareesOf(s.sharedata, u, q));
      EntryFound(s.(tree := s.tree - ShareesOf(s.sharedata, u, q), sharedata := s.sharedata - ShareesOf(s.sharedata, u, q)), q);
    }
    RemoveNeverStuck(s, u, q);
    assert q in s.sharedata ==> ShareRowOk(s, q);
  }

  lemma PlainOthers(a: Plain, op: Op)
    requires !op.Upload? && !op.Remove?
    ensures PlainStep(a, op).0.files == a.files
  {
  }

  lemma RefinedFiles(s: State, op: Op)
    requires Valid(s) && Valid(Step(s, op).0) && !op.Upload? && !op.Remove?
    ensures FilesSeen(Step(s, op).0) == FilesSeen(s)
  {
    StepRefines(s, op);
    PlainOthers(Seen(s), op);
    assert Seen(Step(s, op).0).files == FilesSeen(Step(s, op).0) && Seen(s).files == FilesSeen(s);
  }

  lemma MkdirFiles(s: State, u: Name, p: Path)
    ensures FilesSeen(MkdirStep(s, u, p).0) == FilesSeen(s)
  {
    if MkdirStep(s, u, p).1 == Ok {
      AddDirsSeen(s, {p});
      assert s.tree[p := Dir] == s.tree + LinksTo({p}, Dir);
    }
  }

  /** Directories, shares and signups leave every owner's bytes alone. */
  lemma OtherStepsFiles(s: State, op: Op)
    requires Valid(s) && !op.Upload? && !op.Remove?
    ensures FilesSeen(Step(s, op).0) == FilesSeen(s)
  {
    if op.Mkdir? {
      MkdirFiles(s, op.u, op.p);
    } else if op.Share? && Step(s, op).1 == Ok {
      ShareFiles(s, op.u, op.p, op.sharee, op.perm);
    } else {
      StepValidIff(s, op);
      RefinedFiles(s, op);
    }
  }

  lemma ShareFiles(s: State, u: Name, p: Path, sharee: Name, perm: string)
    requires Valid(s) && ShareStep(s, u, p, sharee, perm).1 == Ok
    ensures FilesSeen(ShareStep(s, u, p, sharee, perm).0) == FilesSeen(s)
  {
    var k := ShareePath(KindsOf(s.tree), sharee, p);
    ShareGoesTo(s, u, p, sharee, perm);
    EntryFound(s, p);
    SharedAtSeen(s, u, p, sharee, PermOf(perm).value, k);
    assert Seen(SharedAt(s, u, p, sharee, PermOf(perm).value, k).0).files == FilesSeen(s);
  }

  // ----- Who writes

  /** A step changes bytes only where it may, exactly when it does not overreach. */
  lemma StepProvenanceExactly(s: State, op: Op)
    requires Valid(s)
    ensures (forall p :: BytesAt(Step(s, op).0, p) != BytesAt(s, p) ==> MayWrite(s.sharedata, op, p)) <==> !Overreaches(s, op)
  {
    var t := Step(s, op).0;
    if ConfinedOp(op) {
      forall p ensures BytesAt(t, p) != BytesAt(s, p) ==> MayWrite(s.sharedata, op, p) {
        ConfinedStepProvenance(s, op, p);
      }
    } else {
      match op
      case Upload(u, q, body) =>
        if u in s.users {
          UnconfinedUploadFiles(s, u, q, body);
          assert q in s.sharedata ==> ShareRowOk(s, q);
          assert BytesAt(t, q) == BytesAt(s, q) || !MayWrite(s.sharedata, op, q);
        }
      case Remove(u, q) =>
        if u in s.users {
          UnconfinedRemoveFiles(s, u, q);
          assert BytesAt(t, q) == None;
        }
      case _ => OtherStepsFiles(s, op);
    }
  }

  /** The i-th step of the run was allowed to write at p, or overreached. */
  ghost predicate Accountable(s: State, ops: seq<Op>, i: nat, p: Path)
    requires i < |ops|
  {
    MayWrite(Run(s, ops[..i]).sharedata, ops[i], p) || Overreaches(Run(s, ops[..i]), ops[i])
  }

  lemma AccountablePrefix(s: State, ops: seq<Op>, n: nat, i: nat, p: Path)
    requires i < n <= |ops|
    ensures Accountable(s, ops[..n], i, p) == Accountable(s, ops, i, p)
  {
    assert ops[..n][..i] == ops[..i];
  }

  /** Over any run that keeps the invariant, a change of the bytes at p has a step in the run that was
      allowed to make it, or one that overreached. */
  lemma {:induction false} RunProvenance(s: State, ops: seq<Op>, p: Path)
    requires Valid(s) && KeepsThroughout(s, ops)
    requires BytesAt(Run(s, ops), p) != BytesAt(s, p)
    ensures exists i :: 0 <= i < |ops| && Accountable(s, ops, i, p)
    decreases |ops|
  {
    assert ops != [];
    var n := |ops| - 1;
    if BytesAt(Run(s, ops[..n]), p) != BytesAt(s, p) {
      RunProvenance(s, ops[..n], p);
      var i :| 0 <= i < n && Accountable(s, ops[..n], i, p);
      AccountablePrefix(s, ops, n, i, p);
    } else {
      RunKeepsValidThroughout(s, ops[..n]);
      StepProvenanceExactly(Run(s, ops[..n]), ops[n]);
      assert Accountable(s, ops, n, p);
    }
  }

  // ----- Where a sharee's rights come from

  datatype Right = ToRead | ToWrite

  /** The row's sharer gives its sharee the right: any share gives reading, an "rw" share or chperm gives
      writing. */
  predicate Gives(op: Op, right: Right, r: ShareRow) {
    match right
    case ToRead => op.Share? && op.u == r.sharer && op.p == r.origpath && op.sharee == r.sharee
    case ToWrite => op == Share(r.sharer, r.origpath, r.sharee, "rw") || op == Chperm(r.sharer, r.origpath, r.sharee, "rw")
  }

  /** The sharer is the owner of the path. */
  predicate OfOwner(r: ShareRow) {
    r.origpath != [] && r.sharer == r.origpath[0]
  }

  predicate Grants(op: Op, right: Right, r: ShareRow) {
    Gives(op, right, r) && OfOwner(r)
  }

  /** The row is there, whatever its permission, or is there and writable. */
  predicate Holds(shares: map<Path, ShareRow>, right: Right, k: Path, r: ShareRow) {
    k in shares && match right
      case ToRead => shares[k].(perm := r.perm) == r
      case ToWrite => shares[k] == r && r.perm == 1
  }

  predicate Gains(s: State, t: State, right: Right, k: Path, r: ShareRow) {
    Holds(t.sharedata, right, k, r) && !Holds(s.sharedata, right, k, r)
  }

  lemma ShareGives(s: State, u: Name, p: Path, sharee: Name, perm: string, right: Right, k: Path, r: ShareRow)
    requires Gains(s, ShareStep(s, u, p, sharee, perm).0, right, k, r)
    ensures Gives(Share(u, p, sharee, perm), right, r) && ShareStep(s, u, p, sharee, perm).1 == Ok
    ensures r.sharer == u && r.origpath == p
  {
  }

  lemma ChpermGives(s: State, u: Name, p: Path, sharee: Name, perm: string, right: Right, k: Path, r: ShareRow)
    requires Gains(s, ChpermStep(s, u, p, sharee, perm).0, right, k, r)
    ensures Gives(Chperm(u, p, sharee, perm), right, r)
    ensures k in s.sharedata && s.sharedata[k].sharer == r.sharer && s.sharedata[k].origpath == r.origpath
  {
    assert k in s.sharedata;
    assert k in Matching(s.sharedata, u, sharee, p);
  }

  /** From any state at all, a row gains a right only from its own sharer. */
  lemma GainIsGiven(s: State, op: Op, right: Right, k: Path, r: ShareRow)
    requires Gains(s, Step(s, op).0, right, k, r)
    ensures Gives(op, right, r)
  {
    match op
    case Upload(u, p, body) => UploadRows(s, u, p, body);
    case Remove(u, p) => RemoveRows(s, u, p);
    case Share(u, p, sharee, perm) => ShareGives(s, u, p, sharee, perm, right, k, r);
    case Chperm(u, p, sharee, perm) => ChpermGives(s, u, p, sharee, perm, right, k, r);
    case _ =>
  }

  /** A share of what is not the sharer's, let through by `checkpath`. */
  predicate Usurps(s: State, op: Op) {
    && op.Share? && op.u in s.users && Allowed(op.p, op.u) && op.p[0] != op.u
    && op.sharee in s.users && op.sharee != op.u && PermOf(op.perm).Some?
    && op.p in s.tree && s.tree[op.p].Link?
  }

  /** Such a share succeeds, and the sharee holds a right that no owner granted. */
  lemma UsurpingGains(s: State, op: Op)
    requires Valid(s) && Usurps(s, op)
    ensures var k, r := ShareePath(KindsOf(s.tree), op.sharee, op.p), ShareRow(op.u, op.sharee, op.p, PermOf(op.perm).value);
            Step(s, op).1 == Ok && Gains(s, Step(s, op).0, ToRead, k, r) && !Grants(op, ToRead, r)
  {
    LinkFound(s, op.p);
    EntryFound(s, op.p);
    assert EntryOk(s, op.p);
    NotYetShared(s, op.u, op.sharee, op.p);
    SearchFindsFree(s, op.sharee, op.p);
    ShareGoesTo(s, op.u, op.p, op.sharee, op.perm);
    var k := ShareePath(KindsOf(s.tree), op.sharee, op.p);
    assert k in s.sharedata ==> Coherent(s, k);
  }

  lemma NotYetShared(s: State, u: Name, sharee: Name, p: Path)
    requires Valid(s) && p != [] && p[0] != u
    ensures Matching(s.sharedata, u, sharee, p) == {}
  {
    NoShareesFound(s, u, p);
    forall k <- s.sharedata ensures k !in Matching(s.sharedata, u, sharee, p) {
      assert k !in ShareesOf(s.sharedata, u, p);
    }
  }

  lemma KeptGainIsGranted(s: State, op: Op, right: Right, k: Path, r: ShareRow)
    requires Valid(s) && !Usurps(s, op) && Gains(s, Step(s, op).0, right, k, r)
    ensures Grants(op, right, r)
  {
    GainIsGiven(s, op, right, k, r);
    if op.Share? {
      ShareGives(s, op.u, op.p, op.sharee, op.perm, right, k, r);
      EntryFoundIfHere(s, op.p);
    } else {
      ChpermGives(s, op.u, op.p, op.sharee, op.perm, right, k, r);
      assert ShareRowOk(s, k);
    }
  }

  lemma EntryFoundIfHere(s: State, p: Path)
    requires Valid(s) && Lookup(KindsOf(s.tree), p) == Here(false)
    ensures p in s.tree && s.tree[p].Link?
  {
  }

  /** Every right a step adds is the owner's grant, exactly when the step does not usurp. */
  lemma StepGrantsExactly(s: State, op: Op)
    requires Valid(s)
    ensures (forall right, k, r | Gains(s, Step(s, op).0, right, k, r) :: Grants(op, right, r)) <==> !Usurps(s, op)
  {
    if Usurps(s, op) {
      UsurpingGains(s, op);
    } else {
      forall right, k, r | Gains(s, Step(s, op).0, right, k, r) ensures Grants(op, right, r) {
        KeptGainIsGranted(s, op, right, k, r);
      }
    }
  }

  /** The row holds the right after the first m steps. */
  ghost predicate HoldsAfter(ops: seq<Op>, m: nat, right: Right, k: Path, r: ShareRow)
    requires m <= |ops|
  {
    Holds(Run(INITIAL, ops[..m]).sharedata, right, k, r)
  }

  /** At step j the sharer gave the right, and the row has held it ever since. */
  ghost predicate GivenAt(ops: seq<Op>, j: nat, right: Right, k: Path, r: ShareRow)
    requires j < |ops|
  {
    && Gives(ops[j], right, r)
    && forall m :: j < m <= |ops| ==> HoldsAfter(ops, m, right, k, r)
  }

  lemma HoldsAfterPrefix(ops: seq<Op>, n: nat, m: nat, right: Right, k: Path, r: ShareRow)
    requires m <= n <= |ops|
    ensures HoldsAfter(ops[..n], m, right, k, r) == HoldsAfter(ops, m, right, k, r)
  {
    assert ops[..n][..m] == ops[..m];
  }

  lemma GiftLasts(ops: seq<Op>, j: nat, right: Right, k: Path, r: ShareRow)
    requires ops != [] && j < |ops| - 1 && GivenAt(ops[..|ops| - 1], j, right, k, r) && HoldsAfter(ops, |ops|, right, k, r)
    ensures GivenAt(ops, j, right, k, r)
  {
    var n := |ops| - 1;
    forall m | j < m <= |ops| ensures HoldsAfter(ops, m, right, k, r) {
      if m <= n {
        HoldsAfterPrefix(ops, n, m, right, k, r);
      }
    }
  }

  /** In every run from the initial state, whatever its requests: a row that holds a right was given it by
      its sharer, and has held it in every state since. */
  lemma {:induction false} RightWasGiven(ops: seq<Op>, right: Right, k: Path, r: ShareRow)
    requires Holds(Run(INITIAL, ops).sharedata, right, k, r)
    ensures exists j :: 0 <= j < |ops| && GivenAt(ops, j, right, k, r)
    decreases |ops|
  {
    assert ops != [];
    var n := |ops| - 1;
    assert ops[..|ops|] == ops;
    if Holds(Run(INITIAL, ops[..n]).sharedata, right, k, r) {
      RightWasGiven(ops[..n], right, k, r);
      var j :| 0 <= j < n && GivenAt(ops[..n], j, right, k, r);
      GiftLasts(ops, j, right, k, r);
    } else {
      GainIsGiven(Run(INITIAL, ops[..n]), ops[n], right, k, r);
      assert GivenAt(ops, n, right, k, r);
    }
  }

  /** Somebody was granted the right to the path by its owner and holds it still. */
  ghost predicate Granted(ops: seq<Op>, right: Right, p: Path, v: Name) {
    exists j: nat, k: Path, r: ShareRow ::
      j < |ops| && r.origpath == p && r.sharee == v && OfOwner(r) && GivenAt(ops, j, right, k, r)
  }

  lemma RowIsGrant(ops: seq<Op>, right: Right, k: Path, r: ShareRow)
    requires Holds(Run(INITIAL, ops).sharedata, right, k, r) && OfOwner(r)
    ensures Granted(ops, right, r.origpath, r.sharee)
  {
    RightWasGiven(ops, right, k, r);
    var j :| 0 <= j < |ops| && GivenAt(ops, j, right, k, r);
  }

  /** Whoever changes an owner's bytes in a run from the initial state, by a step that does not overreach,
      is the owner, or a sharee the owner had granted read-write access to that very path, still held at
      that step. */
  lemma EveryWriterAuthorised(ops: seq<Op>, i: nat, p: Path)
    requires i < |ops| && KeepsThroughout(INITIAL, ops[..i]) && !Overreaches(Run(INITIAL, ops[..i]), ops[i])
    requires BytesAt(Run(INITIAL, ops[..i + 1]), p) != BytesAt(Run(INITIAL, ops[..i]), p)
    ensures p != []
    ensures ops[i].Upload? || ops[i].Remove?
    ensures ops[i].u == p[0] || Granted(ops[..i], ToWrite, p, ops[i].u)
  {
    var s, op := Run(INITIAL, ops[..i]), ops[i];
    InitialValid();
    RunKeepsValidThroughout(INITIAL, ops[..i]);
    assert ops[..i + 1][..i] == ops[..i];
    StepProvenanceExactly(s, op);
    if op.Upload? && op.p in s.sharedata && s.sharedata[op.p].origpath == p && s.sharedata[op.p].perm == 1 && s.sharedata[op.p].sharee == op.u {
      assert ShareRowOk(s, op.p);
      RowIsGrant(ops[..i], ToWrite, op.p, s.sharedata[op.p]);
    }
  }

  // ----- Who reads

  /** The owner reads there, or a sharee reads its own path to it. */
  predicate MayRead(shares: map<Path, ShareRow>, v: Name, q: Path, p: Path) {
    || (q == p && p != [] && v == p[0])
    || (q in shares && shares[q].origpath == p && shares[q].sharee == v)
  }

  /** A download gives the bytes of the owner's place behind the path, to a user entitled to them exactly
      when the path is in the user's root. */
  lemma ReadExactly(s: State, v: Name, q: Path)
    requires Valid(s) && DownloadStep(s, v, q).Some?
    ensures DownloadStep(s, v, q) == BytesAt(s, OriginOf(s, q))
    ensures MayRead(s.sharedata, v, q, OriginOf(s, q)) <==> Confined(q, v)
  {
    ReadsOrigin(s, v, q);
    if q in s.sharedata {
      assert ShareRowOk(s, q);
      OriginsApart(s, q);
    }
  }

  /** Whoever reads an owner's bytes from its own root after a run from the initial state is the owner, or
      somebody with whom the owner shared that very path, not revoked since. */
  lemma EveryReaderAuthorised(ops: seq<Op>, v: Name, q: Path)
    requires KeepsThroughout(INITIAL, ops) && Confined(q, v)
    requires DownloadStep(Run(INITIAL, ops), v, q).Some?
    ensures var p := OriginOf(Run(INITIAL, ops), q);
            p != [] && (v == p[0] || Granted(ops, ToRead, p, v))
  {
    var s := Run(INITIAL, ops);
    InitialValid();
    RunKeepsValidThroughout(INITIAL, ops);
    ReadExactly(s, v, q);
    if q in s.sharedata {
      assert ShareRowOk(s, q);
      RowIsGrant(ops, ToRead, q, s.sharedata[q]);
    }
  }

  /** What usurping costs: a third user reads, in its own root, what the sharer reads and does not own. */
  lemma UsurpedRead(s: State, op: Op)
    requires Valid(s) && Usurps(s, op)
    ensures var t, k := Step(s, op).0, ShareePath(KindsOf(s.tree), op.sharee, op.p);
            && Confined(k, op.sharee) && DownloadStep(t, op.sharee, k) == DownloadStep(s, op.u, op.p)
            && DownloadStep(s, op.u, op.p).Some? && !MayRead(s.sharedata, op.u, op.p, OriginOf(s, op.p))
  {
    var k := ShareePath(KindsOf(s.tree), op.sharee, op.p);
    UsurpingGains(s, op);
    EntryFound(s, op.p);
    assert EntryOk(s, op.p);
    ShareGoesTo(s, op.u, op.p, op.sharee, op.perm);
    ShareThenRead(s, op.u, op.p, op.sharee, op.perm, op.sharee, k);
    ReadExactly(s, op.u, op.p);
  }

  // ----- The requests that break both

  const X_BY_BOBBY: Op := Upload(BOBBY, [BOBBY, "x"], [1])

  lemma AfterBobbysUpload()
    ensures var s := Run(INITIAL, TWO_SIGNUPS + [X_BY_BOBBY]);
            && Valid(s) && s.users == {BOB, BOBBY} && s.unnamed == {} && BOB < BOBBY && s.sharedata == map[]
            && BytesAt(s, [BOBBY, "x"]) == Some([1])
  {
    var s0 := Run(INITIAL, TWO_SIGNUPS);
    AfterTwoSignups();
    TopFileWritable(s0, BOBBY, "x", [1]);
    RunAppend(INITIAL, TWO_SIGNUPS, X_BY_BOBBY);
    WriteSeen(s0, Step(s0, X_BY_BOBBY).0, [BOBBY, "x"], [1]);
  }

  /** An owner's file read and overwritten by a user whose name it extends, with the invariant kept. */
  lemma SiblingOverwrites(s: State, u: Name, q: Path, body: Bytes)
    requires Valid(s) && u in s.users && Allowed(q, u) && q[0] != u && q in FilesSeen(s) && FilesSeen(s)[q] != body
    requires IsSharedFile(s.sharedata, q).Unshared?
    ensures var op := Upload(u, q, body);
            && DownloadStep(s, u, q) == BytesAt(s, q) && !MayRead(s.sharedata, u, q, q)
            && Step(s, op).1 == Ok && KeepsInvariant(s, op) && Overreaches(s, op)
            && BytesAt(Step(s, op).0, q) == Some(body) && !MayWrite(s.sharedata, op, q)
  {
    ReadsOrigin(s, u, q);
    assert EntryOk(s, q);
    var v := q[0];
    RootNotEmpty(s, v);
    assert |q| > 1 || q == Root(v);
    UnconfinedUploadOkExactly(s, u, q, body);
    UnconfinedUploadFiles(s, u, q, body);
  }

  /** After bobby has written a file, bob reads it and overwrites it, and the invariant is kept all along. */
  lemma BobOverwritesBobby()
    ensures var s := Run(INITIAL, TWO_SIGNUPS + [X_BY_BOBBY]);
            var op := Upload(BOB, [BOBBY, "x"], []);
            && Valid(s) && BytesAt(s, [BOBBY, "x"]) == Some([1])
            && DownloadStep(s, BOB, [BOBBY, "x"]) == Some([1]) && !MayRead(s.sharedata, BOB, [BOBBY, "x"], [BOBBY, "x"])
            && Step(s, op).1 == Ok && KeepsInvariant(s, op) && Overreaches(s, op)
            && BytesAt(Step(s, op).0, [BOBBY, "x"]) == Some([]) && !MayWrite(s.sharedata, op, [BOBBY, "x"])
  {
    AfterBobbysUpload();
    SiblingOverwrites(Run(INITIAL, TWO_SIGNUPS + [X_BY_BOBBY]), BOB, [BOBBY, "x"], []);
  }

  const ALICE: Name := "alice"

  const BOB_SHARES_X: Op := Share(BOB, [BOBBY, "x"], ALICE, "r")

  const UP_TO_ALICE: seq<Op> := TWO_SIGNUPS + [X_BY_BOBBY] + [Signup(ALICE, "secret")]

  lemma AfterAlicesSignup()
    ensures var s := Run(INITIAL, UP_TO_ALICE);
            && Valid(s) && s.users == {BOB, BOBBY, ALICE} && BOB < BOBBY && s.sharedata == map[]
            && BytesAt(s, [BOBBY, "x"]) == Some([1]) && [ALICE, SHARED, "x"] !in s.tree
  {
    var s0 := Run(INITIAL, TWO_SIGNUPS + [X_BY_BOBBY]);
    AfterBobbysUpload();
    SignupWorks(s0, ALICE);
    RunAppend(INITIAL, TWO_SIGNUPS + [X_BY_BOBBY], Signup(ALICE, "secret"));
    OtherStepsFiles(s0, Signup(ALICE, "secret"));
    SignupTree(s0, ALICE);
    assert [ALICE, SHARED, "x"] in s0.tree ==> EntryOk(s0, [ALICE, SHARED, "x"]);
  }

  lemma FirstNameFree(kinds: Kinds, sharee: Name, p: Path)
    requires p != [] && SharedDir(sharee) + [BaseName(p)] !in kinds
    ensures ShareePath(kinds, sharee, p) == SharedDir(sharee) + [BaseName(p)]
  {
    assert SharedDir(sharee) + [Candidate(BaseName(p), 0)] == SharedDir(sharee) + [BaseName(p)];
  }

  lemma BobbyGrantedNothing()
    ensures forall op, right, r: ShareRow | op in UP_TO_ALICE + [BOB_SHARES_X] :: r.origpath == [BOBBY, "x"] ==> !Grants(op, right, r)
  {
  }

  /** bob shares bobby's file with alice, who reads it in her own root; bobby granted nobody anything. */
  lemma AliceReadsBobbys()
    ensures var t := Run(INITIAL, UP_TO_ALICE + [BOB_SHARES_X]);
            && Confined([ALICE, SHARED, "x"], ALICE)
            && DownloadStep(t, ALICE, [ALICE, SHARED, "x"]) == Some([1])
            && BytesAt(Run(INITIAL, UP_TO_ALICE), [BOBBY, "x"]) == Some([1])
    ensures forall op, right, r: ShareRow | op in UP_TO_ALICE + [BOB_SHARES_X] :: r.origpath == [BOBBY, "x"] ==> !Grants(op, right, r)
  {
    AfterAlicesSignup();
    RunAppend(INITIAL, UP_TO_ALICE, BOB_SHARES_X);
    FirstUsurpedRead(Run(INITIAL, UP_TO_ALICE), BOB, BOBBY, "x", ALICE);
    BobbyGrantedNothing();
  }

  lemma FirstUsurpedRead(s: State, u: Name, v: Name, n: Name, w: Name)
    requires Valid(s) && {u, w} <= s.users && u < v && u != w && s.sharedata == map[]
    requires [v, n] in FilesSeen(s) && [w, SHARED, n] !in s.tree
    ensures DownloadStep(Step(s, Share(u, [v, n], w, "r")).0, w, [w, SHARED, n]) == BytesAt(s, [v, n])
  {
    var k: Path := SharedDir(w) + [n];
    assert k == [w, SHARED, n] && BaseName([v, n]) == n;
    FirstNameFree(KindsOf(s.tree), w, [v, n]);
    UsurpedRead(s, Share(u, [v, n], w, "r"));
    ReadsOrigin(s, u, [v, n]);
  }
}
