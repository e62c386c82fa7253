/** From a valid state, exactly when each request succeeds and which shares it ends or changes, in terms
    of the request's own text, the entries and the rows. */
module Requests {
  import opened Decimal
  import opened Paths
  import opened Store
  import opened Handlers
  import opened Invariants
  import opened Steps
  import opened Confinement
  import opened Refinement
  import opened UserLaws

  /** A row says that the user shares the path with the sharee. */
  ghost predicate SharedWith(s: State, u: Name, sharee: Name, p: Path) {
    exists k <- s.sharedata :: s.sharedata[k].sharer == u && s.sharedata[k].sharee == sharee && s.sharedata[k].origpath == p
  }

  /** A registered user, and a path whose first component starts with its name. */
  predicate LetThrough(s: State, u: Name, p: Path) {
    u in s.users && p != [] && u <= p[0]
  }

  predicate OwnShared(p: Path, u: Name) {
    |p| >= 2 && p[0] == u && "Shared_with_me" <= p[1]
  }

  predicate NothingIn(tree: map<Path, Node>, p: Path) {
    forall q <- tree :: q != [] ==> q[..|q| - 1] != p
  }

  lemma RowsFound(s: State, u: Name, sharee: Name, p: Path)
    requires UniqueShares(s.sharedata)
    ensures |Matching(s.sharedata, u, sharee, p)| == if SharedWith(s, u, sharee, p) then 1 else 0
  {
    if SharedWith(s, u, sharee, p) {
      var k :| k in s.sharedata && s.sharedata[k].sharer == u && s.sharedata[k].sharee == sharee && s.sharedata[k].origpath == p;
      MatchingOne(s, u, sharee, p, k);
    } else {
      assert Matching(s.sharedata, u, sharee, p) == {};
    }
  }

  /** What a row says of itself and of the entries. */
  lemma RowFacts(s: State, k: Path)
    requires Valid(s) && k in s.sharedata
    ensures var r := s.sharedata[k];
            && |k| == 3 && k[0] == r.sharee && r.sharee in s.users && r.sharer in s.users && r.sharer != r.sharee
            && r.origpath != [] && r.origpath[0] == r.sharer && r.origpath !in s.sharedata
            && r.origpath in s.tree && s.tree[r.origpath].Link? && k in s.tree && s.tree[k].Link?
            && !OwnShared(r.origpath, r.sharer) && (r.perm == 0 || r.perm == 1)
  {
    assert ShareRowOk(s, k) && Coherent(s, k);
    assert s.sharedata[k].origpath in s.sharedata ==> ShareRowOk(s, s.sharedata[k].origpath);
  }

  // ----- When a request succeeds

  /** Exactly when a change of permission succeeds: a row is there, and the text is "r" or "rw". */
  lemma ChpermSucceeds(s: State, u: Name, p: Path, sharee: Name, perm: string)
    requires Valid(s)
    ensures ChpermStep(s, u, p, sharee, perm).1 == Ok
       <==> LetThrough(s, u, p) && SharedWith(s, u, sharee, p) && (perm == "r" || perm == "rw")
    ensures ChpermStep(s, u, p, sharee, perm).1 != Ok ==> ChpermStep(s, u, p, sharee, perm).0 == s
  {
    RowsFound(s, u, sharee, p);
    if SharedWith(s, u, sharee, p) {
      var k :| k in s.sharedata && s.sharedata[k].sharer == u && s.sharedata[k].sharee == sharee && s.sharedata[k].origpath == p;
      RowFacts(s, k);
      LinkFound(s, p);
    }
  }

  /** Whatever the state, no other text is a permission. */
  lemma OtherPermissionsRefused(s: State, u: Name, p: Path, sharee: Name, perm: string)
    requires perm != "r" && perm != "rw"
    ensures ShareStep(s, u, p, sharee, perm).1 != Ok && ShareStep(s, u, p, sharee, perm).0 == s
    ensures ChpermStep(s, u, p, sharee, perm).1 != Ok && ChpermStep(s, u, p, sharee, perm).0 == s
  {
  }

  lemma ShareOkNeeds(s: State, u: Name, p: Path, sharee: Name, perm: string)
    requires Valid(s) && ShareStep(s, u, p, sharee, perm).1 == Ok
    ensures LetThrough(s, u, p) && sharee in s.users && sharee != u && (perm == "r" || perm == "rw")
    ensures p in s.tree && s.tree[p].Link? && !OwnShared(p, u) && !SharedWith(s, u, sharee, p)
  {
    RowsFound(s, u, sharee, p);
    if p in s.tree {
      EntryFound(s, p);
    }
  }

  lemma ShareOkWhen(s: State, u: Name, p: Path, sharee: Name, perm: string)
    requires Valid(s)
    requires LetThrough(s, u, p) && sharee in s.users && sharee != u && (perm == "r" || perm == "rw")
    requires p in s.tree && s.tree[p].Link? && !OwnShared(p, u) && !SharedWith(s, u, sharee, p)
    ensures ShareStep(s, u, p, sharee, perm).1 == Ok
  {
    RowsFound(s, u, sharee, p);
    LinkFound(s, p);
    EntryFound(s, p);
    assert EntryOk(s, p);
    SearchFindsFree(s, sharee, p);
    assert ShareRefusal(s, u, p, sharee, perm).None?;
    ShareGoesTo(s, u, p, sharee, perm);
  }

  /** Exactly when a share succeeds: of a link, to another user who does not have it from this one. */
  lemma ShareSucceeds(s: State, u: Name, p: Path, sharee: Name, perm: string)
    requires Valid(s)
    ensures ShareStep(s, u, p, sharee, perm).1 == Ok
       <==> && LetThrough(s, u, p) && sharee in s.users && sharee != u && (perm == "r" || perm == "rw")
            && p in s.tree && s.tree[p].Link? && !OwnShared(p, u) && !SharedWith(s, u, sharee, p)
  {
    if ShareStep(s, u, p, sharee, perm).1 == Ok {
      ShareOkNeeds(s, u, p, sharee, perm);
    } else if LetThrough(s, u, p) && sharee in s.users && sharee != u && (perm == "r" || perm == "rw")
              && p in s.tree && s.tree[p].Link? && !OwnShared(p, u) && !SharedWith(s, u, sharee, p) {
      ShareOkWhen(s, u, p, sharee, perm);
    }
  }

  /** Exactly when an unshare succeeds: a row is there. */
  lemma UnshareSucceeds(s: State, u: Name, p: Path, sharee: Name)
    requires Valid(s)
    ensures UnshareStep(s, u, p, sharee).1 == Ok <==> LetThrough(s, u, p) && SharedWith(s, u, sharee, p)
  {
    RowsFound(s, u, sharee, p);
    UnshareKeepsValid(s, u, p, sharee);
    if SharedWith(s, u, sharee, p) {
      var k :| k in s.sharedata && s.sharedata[k].sharer == u && s.sharedata[k].sharee == sharee && s.sharedata[k].origpath == p;
      RowFacts(s, k);
    }
  }

  /** A file can be put there: below a directory, or beside the roots where nothing is, and not over a
      directory with something in it. */
  predicate PlaceWritable(tree: map<Path, Node>, p: Path)
    requires p != []
  {
    && (forall c <- p :: '\0' !in c)
    && (if |p| == 1 then p !in tree else p[..|p| - 1] in tree && tree[p[..|p| - 1]].Dir?)
    && (p in tree && tree[p].Dir? ==> NothingIn(tree, p))
  }

  lemma OwnUploadSucceeds(s: State, u: Name, p: Path, body: Bytes)
    requires Valid(s) && LetThrough(s, u, p) && p[0] == u && p !in s.sharedata
    ensures UploadStep(s, u, p, body).1 == Ok <==> !OwnShared(p, u) && PlaceWritable(s.tree, p)
  {
    if OwnShared(p, u) {
      forall k <- s.sharedata ensures s.sharedata[k].origpath != p {
        RowFacts(s, k);
      }
    } else {
      assert RootsOk(s, u) && (|p| == 1 ==> p == Root(u));
      OwnerWritesExactly(s, u, p, body);
      NoNulAll(p);
      ChildrenOf(s, p);
    }
  }

  lemma ShareUploadSucceeds(s: State, u: Name, k: Path, body: Bytes)
    requires Valid(s) && LetThrough(s, u, k) && k in s.sharedata
    ensures UploadStep(s, u, k, body).1 == Ok <==> k[0] == u && s.sharedata[k].perm == 1
  {
    if k[0] == u {
      ShareeWritesExactly(s, k, body);
    } else {
      UploadExitsExactly(s, u, k, body);
    }
  }

  /** Exactly when an upload succeeds: onto a share in the user's own root when the row says 1, and anywhere
      else where a file can be put and that does not look like the user's own Shared_with_me. */
  lemma UploadSucceeds(s: State, u: Name, p: Path, body: Bytes)
    requires Valid(s)
    ensures UploadStep(s, u, p, body).1 == Ok
       <==> && LetThrough(s, u, p)
            && if p in s.sharedata then p[0] == u && s.sharedata[p].perm == 1 else !OwnShared(p, u) && PlaceWritable(s.tree, p)
  {
    if LetThrough(s, u, p) {
      if p in s.sharedata {
        ShareUploadSucceeds(s, u, p, body);
      } else if p[0] == u {
        OwnUploadSucceeds(s, u, p, body);
      } else {
        UnconfinedUploadOkExactly(s, u, p, body);
        NoNulAll(p);
        ChildrenOf(s, p);
        RootsFull(s, p);
      }
    }
  }

  lemma RootsFull(s: State, p: Path)
    requires Valid(s)
    ensures |p| == 1 && p in s.tree ==> s.tree[p].Dir? && !NothingIn(s.tree, p)
  {
    if |p| == 1 && p in s.tree {
      assert EntryOk(s, p) && p == Root(p[0]);
      RootNotEmpty(s, p[0]);
      ChildrenOf(s, p);
    }
  }

  /** Exactly when a directory is made. */
  lemma MkdirSucceeds(s: State, u: Name, p: Path)
    requires Valid(s)
    ensures MkdirStep(s, u, p).1 == Ok
       <==> && LetThrough(s, u, p) && p !in s.tree && (forall c <- p :: '\0' !in c)
            && (|p| == 1 || (p[..|p| - 1] in s.tree && s.tree[p[..|p| - 1]].Dir?))
  {
    if p != [] {
      TreeClosed(s);
      CreatePlace(KindsOf(s.tree), p);
      NoNulAll(p);
    }
  }

  /** Exactly when a removal succeeds: of a link always, of a directory when nothing is in it and it is not
      the user's own Shared_with_me. */
  lemma RemoveSucceeds(s: State, u: Name, p: Path)
    requires Valid(s)
    ensures RemoveStep(s, u, p).1 == Ok
       <==> && LetThrough(s, u, p) && p in s.tree
            && (s.tree[p].Dir? ==> p != [u, "Shared_with_me"] && NothingIn(s.tree, p))
  {
    if p in s.tree && LetThrough(s, u, p) {
      if s.tree[p].Link? {
        LinkRemoved(s, u, p);
      } else {
        DirRemoved(s, u, p);
      }
    } else if p !in s.tree && p != [] {
      NotRemoved(s, u, p);
    }
  }

  lemma DirRemoved(s: State, u: Name, p: Path)
    requires Valid(s) && LetThrough(s, u, p) && p in s.tree && s.tree[p].Dir?
    ensures RemoveStep(s, u, p).1 == Ok <==> p != [u, "Shared_with_me"] && NothingIn(s.tree, p)
  {
    EntryFound(s, p);
    ChildrenOf(s, p);
    DirNoRow(s, p);
  }

  lemma ChildrenOf(s: State, p: Path)
    ensures EmptyDir(KindsOf(s.tree), p) <==> NothingIn(s.tree, p)
  {
    forall q <- s.tree ensures |q| == |p| + 1 && p <= q <==> q != [] && q[..|q| - 1] == p {
    }
  }

  lemma DirNoRow(s: State, p: Path)
    requires Valid(s) && p in s.tree && s.tree[p].Dir?
    ensures IsSharedFile(s.sharedata, p).Unshared?
  {
    forall k <- s.sharedata ensures k != p && s.sharedata[k].origpath != p {
      RowFacts(s, k);
    }
  }

  lemma LinkRemoved(s: State, u: Name, p: Path)
    requires Valid(s) && p in s.tree && s.tree[p].Link? && u in s.users && Allowed(p, u)
    ensures RemoveStep(s, u, p).1 == Ok
  {
    RemoveNeverStuck(s, u, p);
    LinkFound(s, p);
    if IsSharedFile(s.sharedata, p).AsSharer? {
      SharerRemoves(s, u, p);
    } else {
      EntryFound(s, p);
    }
  }

  /** The sharees' links and rows go first, and the file's own link is still there. */
  lemma SharerRemoves(s: State, u: Name, p: Path)
    requires Valid(s) && p != [] && IsSharedFile(s.sharedata, p).AsSharer? && Allowed(p, u)
    ensures var gone := ShareesOf(s.sharedata, u, p);
            Removed(s.(tree := s.tree - gone, sharedata := s.sharedata - gone), p, u).1 in {Ok, RemoveFailed}
  {
    var gone := ShareesOf(s.sharedata, u, p);
    var d := s.(tree := s.tree - gone, sharedata := s.sharedata - gone);
    SharerPlace(s, p);
    SharedPlace(s, p[0], p);
    DropShares(s, gone);
    EntryFound(d, p);
  }

  lemma NotRemoved(s: State, u: Name, p: Path)
    requires Valid(s) && p !in s.tree && p != []
    ensures RemoveStep(s, u, p).1 != Ok
  {
    forall k <- s.sharedata ensures k != p && s.sharedata[k].origpath != p {
      RowFacts(s, k);
    }
  }

  /** Exactly when a signup succeeds, and what the new user then finds. */
  lemma SignupSucceeds(s: State, username: string, password: string)
    requires Valid(s)
    ensures SignupStep(s, username, password).1 == Ok
       <==> && |password| >= 6 && username !in {"", ".", ".."} && (forall c <- username :: c != '/' && c != '\0')
            && !(IsName(username) && username in s.users) && username !in s.unnamed
    ensures SignupStep(s, username, password).1 == Ok ==>
              IsName(username) && ListStep(SignupStep(s, username, password).0, username, [username]) == Some({DirEnt("Shared_with_me", true)})
  {
    if NamesDir(username) && username !in s.users {
      SignupTree(s, username);
      if SignupStep(s, username, password).1 == Ok {
        NewRootLists(s, username, SignupStep(s, username, password).0);
      }
    }
  }

  /** A name is given out once, and is gone also where the signup ends the process. */
  lemma SecondSignupRefused(s: State, username: string, password: string, again: string)
    requires SignupStep(s, username, password).1 in {Ok, Exited}
    ensures SignupStep(SignupStep(s, username, password).0, username, again) == (SignupStep(s, username, password).0, SignupRefused)
  {
    assert NamesDir(username) ==> IsName(username);
  }

  lemma NewRootLists(s: State, u: Name, t: State)
    requires Valid(s) && '\0' !in u && u !in s.users
    requires t == s.(users := s.users + {u}, tree := s.tree[Root(u) := Dir][SharedDir(u) := Dir]) && TreeOk(t)
    ensures ListStep(t, u, [u]) == Some({DirEnt("Shared_with_me", true)})
  {
    var q := SharedDir(u);
    EntryFound(t, Root(u));
    assert Parent(q) == [u] && Parent(Root(u)) == [];
    forall p | p in t.tree && p != [] && Parent(p) == [u] ensures p == q {
      assert p[0] == Parent(p)[0] && p != Root(u);
      assert p in s.tree ==> EntryOk(s, p);
    }
    assert Entries(t.tree, [u]) == {DirEnt(BaseName(q), t.tree[q].Dir?)};
  }

  // ----- What every request answers

  predicate HasNul(p: Path) {
    exists c <- p :: '\0' in c
  }

  /** A link is where a directory should be on the way. */
  predicate FileInWay(tree: map<Path, Node>, p: Path) {
    exists n :: 0 < n < |p| && p[..n] in tree && tree[p[..n]].Link?
  }

  /** What makes Stat say that nothing is there. */
  predicate NothingThere(tree: map<Path, Node>, p: Path) {
    p !in tree && !HasNul(p) && !FileInWay(tree, p)
  }

  predicate HasUserRow(s: State, name: Name) {
    name in s.users || ('\0' in name && name in s.unnamed)
  }

  predicate Permission(perm: string) {
    perm == "r" || perm == "rw"
  }

  /** The answer to every request, by what is there and in the order the reasons to refuse it are looked
      at. An upload onto a share asks nothing but whose it is and its permission. */
  ghost function Answer(s: State, op: Op): Outcome {
    match op
    case Signup(username, password) =>
      if (IsName(username) && username in s.users) || username in s.unnamed then SignupRefused
      else if |password| < 6 || '/' in username then SignupRefused
      else if username in {"", ".", ".."} || '\0' in username then Exited
      else Ok
    case _ =>
      if op.u !in s.users then Reauth
      else if !LetThrough(s, op.u, op.p) then OutsideRoot
      else AnswerInside(s, op)
  }

  ghost function AnswerInside(s: State, op: Op): Outcome
    requires !op.Signup? && op.p != []
  {
    match op
    case Mkdir(u, p) =>
      if p in s.tree || HasNul(p) || (|p| > 1 && !(p[..|p| - 1] in s.tree && s.tree[p[..|p| - 1]].Dir?)) then CannotCreate
      else Ok
    case Upload(u, p, body) =>
      if p in s.sharedata then
        if p[0] != u then Exited else if s.sharedata[p].perm != 1 then PermissionDenied else Ok
      else if OwnShared(p, u) then ReservedDir
      else if !PlaceWritable(s.tree, p) then UploadFailed
      else Ok
    case Remove(u, p) =>
      if HasNul(p) then BadPath
      else if FileInWay(s.tree, p) then NotADirectory
      else if p !in s.tree then NoSuchResource
      else if p == [u, "Shared_with_me"] then SharedDirKept
      else if s.tree[p].Dir? && !NothingIn(s.tree, p) then NotEmpty
      else Ok
    case Share(u, p, sharee, perm) =>
      if u == sharee then SelfShare
      else if !Permission(perm) then BadPermission
      else if !HasUserRow(s, sharee) then NoSuchUser
      else if NothingThere(s.tree, p) then NoSuchResource
      else if OwnShared(p, u) then ReservedDir
      else if SharedWith(s, u, sharee, p) then AlreadyShared
      else if '\0' in sharee || '\0' in p[|p| - 1] then Hangs
      else if p !in s.tree then NoSuchResource
      else if s.tree[p].Dir? then NotAFile
      else Ok
    case Unshare(u, p, sharee) =>
      if u == sharee then SelfShare
      else if !HasUserRow(s, sharee) then NoSuchUser
      else if !SharedWith(s, u, sharee, p) then NotShared
      else Ok
    case Chperm(u, p, sharee, perm) =>
      if OwnShared(p, u) then ReservedDir
      else if NothingThere(s.tree, p) then NoSuchResource
      else if !SharedWith(s, u, sharee, p) then NotShared
      else if !Permission(perm) then BadPermission
      else Ok
  }

  /** From a valid state what a lookup finds, by what is there. */
  lemma LookupHow(s: State, p: Path)
    requires Valid(s) && p != []
    ensures Lookup(KindsOf(s.tree), p)
         == if HasNul(p) then Invalid
            else if p in s.tree then Here(s.tree[p].Dir?)
            else if FileInWay(s.tree, p) then NotDir
            else Missing
    ensures p in s.tree ==> !FileInWay(s.tree, p)
    ensures Stat(s.tree, s.blobs, p) == Lookup(KindsOf(s.tree), p)
  {
    var kinds := KindsOf(s.tree);
    StatIsLookup(s, p);
    NoNulAll(p);
    if p in s.tree {
      EntryFound(s, p);
      assert EntryOk(s, p);
      DirsAbove(s, p);
      forall n | 0 < n < |p| && p[..n] in s.tree ensures s.tree[p[..n]].Dir? {
        assert n <= |p| - 1 && kinds[p[..n]];
      }
    } else if !HasNul(p) {
      LookupExactly(kinds, p);
      if FileInWay(s.tree, p) {
        FileStopsLookup(s, p);
      }
      NotFoundHow(s, p);
    }
  }

  lemma {:induction false} DirsAbove(s: State, p: Path)
    requires TreeOk(s) && p in s.tree
    ensures p != [] && DirsTo(KindsOf(s.tree), p, |p| - 1)
    decreases |p|
  {
    assert EntryOk(s, p);
    if |p| > 1 {
      DirsAbove(s, Parent(p));
      forall i | 0 < i <= |p| - 1 ensures p[..i] in KindsOf(s.tree) && KindsOf(s.tree)[p[..i]] {
        assert p[..i] == Parent(p)[..i] && (i == |p| - 1 ==> p[..i] == Parent(p));
      }
    }
  }

  lemma FileStopsLookup(s: State, p: Path)
    requires TreeOk(s) && FileInWay(s.tree, p) && NoNul(p)
    ensures Lookup(KindsOf(s.tree), p) == NotDir
  {
    var kinds := KindsOf(s.tree);
    var n :| 0 < n < |p| && p[..n] in s.tree && s.tree[p[..n]].Link?;
    var m := n - 1;
    DirsAbove(s, p[..n]);
    forall i | 0 < i <= m ensures p[..i] in kinds && kinds[p[..i]] {
      assert p[..n][..i] == p[..i];
    }
    LookupExactly(kinds, p);
    assert DirsTo(kinds, p, m) && p[..m + 1] in kinds && !kinds[p[..m + 1]];
  }

  lemma NotFoundHow(s: State, p: Path)
    requires TreeOk(s) && p !in s.tree && p != [] && NoNul(p)
    ensures Lookup(KindsOf(s.tree), p) in {Missing, NotDir}
    ensures Lookup(KindsOf(s.tree), p) == NotDir ==> FileInWay(s.tree, p)
  {
    var kinds := KindsOf(s.tree);
    LookupExactly(kinds, p);
    assert p[..|p|] == p;
    if Lookup(kinds, p) == NotDir {
      var n :| 0 <= n < |p| - 1 && DirsTo(kinds, p, n) && p[..n + 1] in kinds && !kinds[p[..n + 1]];
      assert s.tree[p[..n + 1]].Link?;
    }
  }

  lemma MkdirAnswers(s: State, u: Name, p: Path)
    requires Valid(s)
    ensures MkdirStep(s, u, p).1 == Answer(s, Mkdir(u, p))
  {
    MkdirSucceeds(s, u, p);
  }

  lemma SignupAnswers(s: State, username: string, password: string)
    requires Valid(s)
    ensures SignupStep(s, username, password).1 == Answer(s, Signup(username, password))
  {
    SignupSucceeds(s, username, password);
    SignupKeepsValid(s, username, password);
  }

  lemma UploadAnswers(s: State, u: Name, p: Path, body: Bytes)
    requires Valid(s)
    ensures UploadStep(s, u, p, body).1 == Answer(s, Upload(u, p, body))
  {
    UploadSucceeds(s, u, p, body);
    UploadExitsExactly(s, u, p, body);
    if LetThrough(s, u, p) {
      if p in s.sharedata {
        ShareePlace(s, p);
      } else if IsSharedFile(s.sharedata, p).AsSharer? {
        NoOriginThere(s, u, p);
      }
    }
  }

  /** What somebody shares is no place an upload is refused at. */
  lemma NoOriginThere(s: State, u: Name, p: Path)
    requires Valid(s) && p != [] && IsSharedFile(s.sharedata, p).AsSharer?
    ensures !OwnShared(p, u)
  {
    var k :| k in s.sharedata && s.sharedata[k].origpath == p;
    RowFacts(s, k);
    assert ShareRowOk(s, k);
  }

  lemma NoEntryNoRow(s: State, p: Path)
    requires Valid(s) && p !in s.tree
    ensures IsSharedFile(s.sharedata, p).Unshared?
  {
    forall k <- s.sharedata ensures k != p && s.sharedata[k].origpath != p {
      RowFacts(s, k);
    }
  }

  lemma RemoveAnswers(s: State, u: Name, p: Path)
    requires Valid(s)
    ensures RemoveStep(s, u, p).1 == Answer(s, Remove(u, p))
  {
    if LetThrough(s, u, p) {
      LookupHow(s, p);
      StatIsLookup(s, p);
      assert RootsOk(s, u);
      if p !in s.tree {
        NoEntryNoRow(s, p);
      } else if s.tree[p].Dir? {
        assert EntryOk(s, p);
        NoNulAll(p);
        DirNoRow(s, p);
        ChildrenOf(s, p);
      } else {
        LinkRemoved(s, u, p);
        assert EntryOk(s, p);
        NoNulAll(p);
      }
    }
  }

  lemma ShareTestsAnswer(s: State, u: Name, p: Path, sharee: Name, perm: string)
    requires Valid(s) && LetThrough(s, u, p)
    ensures ShareTests(s, u, p, sharee, perm).Some? ==> ShareTests(s, u, p, sharee, perm).value == Answer(s, Share(u, p, sharee, perm))
    ensures ShareTests(s, u, p, sharee, perm).None?
       <==> && u != sharee && Permission(perm) && HasUserRow(s, sharee) && !NothingThere(s.tree, p) && !OwnShared(p, u)
            && !SharedWith(s, u, sharee, p)
  {
    RowsFound(s, u, sharee, p);
    LookupHow(s, p);
  }

  lemma ShareAnswers(s: State, u: Name, p: Path, sharee: Name, perm: string)
    requires Valid(s)
    ensures ShareStep(s, u, p, sharee, perm).1 == Answer(s, Share(u, p, sharee, perm))
  {
    if !LetThrough(s, u, p) {
      assert ShareTests(s, u, p, sharee, perm) == Some(if u !in s.users then Reauth else OutsideRoot);
    } else {
      ShareTestsAnswer(s, u, p, sharee, perm);
      if ShareTests(s, u, p, sharee, perm).None? {
        PassedAnswers(s, u, p, sharee, perm);
        AnswerPassed(s, u, p, sharee, perm);
      } else {
        assert ShareStep(s, u, p, sharee, perm).1 == ShareTests(s, u, p, sharee, perm).value;
      }
    }
  }

  lemma AnswerPassed(s: State, u: Name, p: Path, sharee: Name, perm: string)
    requires LetThrough(s, u, p) && u != sharee && Permission(perm) && HasUserRow(s, sharee) && !NothingThere(s.tree, p)
    requires !OwnShared(p, u) && !SharedWith(s, u, sharee, p)
    ensures Answer(s, Share(u, p, sharee, perm))
         == if '\0' in sharee || '\0' in p[|p| - 1] then Hangs
            else if p !in s.tree then NoSuchResource
            else if s.tree[p].Dir? then NotAFile
            else Ok
  {
  }

  lemma PassedAnswers(s: State, u: Name, p: Path, sharee: Name, perm: string)
    requires Valid(s) && p != [] && ShareTests(s, u, p, sharee, perm).None?
    ensures ShareStep(s, u, p, sharee, perm).1
         == if '\0' in sharee || '\0' in p[|p| - 1] then Hangs
            else if p !in s.tree then NoSuchResource
            else if s.tree[p].Dir? then NotAFile
            else Ok
  {
    if Endless(sharee, BaseName(p)) {
      HangsExactly(s, Share(u, p, sharee, perm));
    } else {
      PlacedAnswers(s, u, p, sharee, perm);
    }
  }

  lemma PlacedAnswers(s: State, u: Name, p: Path, sharee: Name, perm: string)
    requires Valid(s) && p != [] && ShareTests(s, u, p, sharee, perm).None? && !Endless(sharee, BaseName(p))
    ensures ShareStep(s, u, p, sharee, perm).1
         == if p !in s.tree then NoSuchResource else if s.tree[p].Dir? then NotAFile else Ok
  {
    SearchFindsFree(s, sharee, p);
    SearchEndsExactly(s, sharee, BaseName(p));
    assert ShareRefusal(s, u, p, sharee, perm).None?;
    ShareGoesTo(s, u, p, sharee, perm);
    LookupHow(s, p);
    if p in s.tree {
      EntryFound(s, p);
    }
  }

  lemma UnshareAnswers(s: State, u: Name, p: Path, sharee: Name)
    requires Valid(s)
    ensures UnshareStep(s, u, p, sharee).1 == Answer(s, Unshare(u, p, sharee))
  {
    UnshareSucceeds(s, u, p, sharee);
    RowsFound(s, u, sharee, p);
  }

  lemma ChpermAnswers(s: State, u: Name, p: Path, sharee: Name, perm: string)
    requires Valid(s)
    ensures ChpermStep(s, u, p, sharee, perm).1 == Answer(s, Chperm(u, p, sharee, perm))
  {
    RowsFound(s, u, sharee, p);
    if LetThrough(s, u, p) {
      LookupHow(s, p);
    }
  }

  /** Exactly what every request answers, from a valid state. */
  lemma AnswerExactly(s: State, op: Op)
    requires Valid(s)
    ensures Step(s, op).1 == Answer(s, op)
  {
    match op
    case Signup(username, password) => SignupAnswers(s, username, password);
    case Mkdir(u, p) => MkdirAnswers(s, u, p);
    case Upload(u, p, body) => UploadAnswers(s, u, p, body);
    case Remove(u, p) => RemoveAnswers(s, u, p);
    case Share(u, p, sharee, perm) => ShareAnswers(s, u, p, sharee, perm);
    case Unshare(u, p, sharee) => UnshareAnswers(s, u, p, sharee);
    case Chperm(u, p, sharee, perm) => ChpermAnswers(s, u, p, sharee, perm);
  }

  // ----- What is read

  /** A download gives the bytes behind the link at the path, and nothing anywhere else. */
  lemma DownloadGives(s: State, u: Name, p: Path)
    requires Valid(s)
    ensures LetThrough(s, u, p) && p in s.tree && s.tree[p].Link? ==>
              s.tree[p].target in s.blobs && DownloadStep(s, u, p) == Some(s.blobs[s.tree[p].target])
    ensures !(LetThrough(s, u, p) && p in s.tree && s.tree[p].Link?) ==> DownloadStep(s, u, p) == None
  {
    if p in s.tree {
      EntryFound(s, p);
      if s.tree[p].Link? {
        LinkRow(s, p);
      }
    }
  }

  /** A listing gives a directory's entries, each by its name and whether it is a directory. */
  lemma ListGives(s: State, u: Name, p: Path)
    requires Valid(s)
    ensures ListStep(s, u, p).Some? <==> LetThrough(s, u, p) && p in s.tree && s.tree[p].Dir?
    ensures ListStep(s, u, p).Some? ==> forall e: DirEnt ::
              e in ListStep(s, u, p).value <==> p + [e.name] in s.tree && s.tree[p + [e.name]].Dir? == e.isDir
  {
    if p in s.tree {
      EntryFound(s, p);
    }
    forall e: DirEnt ensures e in Entries(s.tree, p) <==> p + [e.name] in s.tree && s.tree[p + [e.name]].Dir? == e.isDir {
      EntryListed(s.tree, p, e);
    }
  }

  lemma EntryListed(tree: map<Path, Node>, p: Path, e: DirEnt)
    ensures e in Entries(tree, p) <==> p + [e.name] in tree && tree[p + [e.name]].Dir? == e.isDir
  {
    var q := p + [e.name];
    assert Parent(q) == p && BaseName(q) == e.name;
    if e in Entries(tree, p) {
      var r :| r in tree && r != [] && Parent(r) == p && e == DirEnt(BaseName(r), tree[r].Dir?);
      assert r == q;
    }
  }

  // ----- The name of a share

  /** The i-th name tried for a file: its own, and then with the number in front. */
  predicate NumberedName(n: Name, f: Name, i: nat) {
    if i == 0 then n == f else Itoa(i) <= n && n[|Itoa(i)|..] == f
  }

  lemma CandidateIsNumbered(f: Name, i: nat, n: Name)
    ensures NumberedName(n, f, i) <==> n == Candidate(f, i)
  {
    if i > 0 && Itoa(i) <= n {
      assert n == Itoa(i) + n[|Itoa(i)|..];
    }
  }

  ghost predicate TakenBefore(s: State, sharee: Name, f: Name, i: nat) {
    forall j: nat, m | j < i && NumberedName(m, f, j) :: !Stat(s.tree, s.blobs, SharedDir(sharee) + [m]).Missing?
  }

  /** From s to t the sharee got the sharer's link by that name, where Stat found nothing, and a row. */
  predicate PlacedAs(s: State, t: State, u: Name, p: Path, sharee: Name, perm: string, n: Name) {
    var k: Path := [sharee, "Shared_with_me", n];
    && Stat(s.tree, s.blobs, k).Missing? && p in s.tree
    && t == s.(tree := s.tree[k := s.tree[p]],
               sharedata := s.sharedata[k := ShareRow(u, sharee, p, if perm == "rw" then 1 else 0)])
  }

  /** From any state, where a share that succeeds puts the sharer's link: under the sharee's Shared_with_me,
      by the name with the least number at which Stat finds nothing. Link and row are all that is new. */
  lemma SharePlaced(s: State, u: Name, p: Path, sharee: Name, perm: string)
    requires ShareStep(s, u, p, sharee, perm).1 == Ok
    ensures p != [] && exists i, n ::
              NumberedName(n, BaseName(p), i) && TakenBefore(s, sharee, BaseName(p), i)
              && PlacedAs(s, ShareStep(s, u, p, sharee, perm).0, u, p, sharee, perm, n)
  {
    var f := BaseName(p);
    var i := FirstMissing(s, sharee, f, 0);
    var n := Candidate(f, i);
    CandidateIsNumbered(f, i, n);
    forall j: nat, m | j < i && NumberedName(m, f, j) ensures !Stat(s.tree, s.blobs, SharedDir(sharee) + [m]).Missing? {
      CandidateIsNumbered(f, j, m);
      assert !StatCandidate(s, sharee, f, j).Missing?;
    }
    assert TakenBefore(s, sharee, f, i);
    assert SharedDir(sharee) + [n] == [sharee, "Shared_with_me", n];
    assert StatCandidate(s, sharee, f, i).Missing?;
    assert PlacedAs(s, ShareStep(s, u, p, sharee, perm).0, u, p, sharee, perm, n);
  }

  /** The second file of a name gets the number 1 in front. */
  lemma SecondNameIsNumberedOne(s: State, u: Name, p: Path, sharee: Name, perm: string, n: Name)
    requires Valid(s) && ShareStep(s, u, p, sharee, perm).1 == Ok && p != [] && n == "1" + BaseName(p)
    requires [sharee, "Shared_with_me", BaseName(p)] in s.tree && [sharee, "Shared_with_me", n] !in s.tree
    ensures PlacedAs(s, ShareStep(s, u, p, sharee, perm).0, u, p, sharee, perm, n)
  {
    var f := BaseName(p);
    ShareOkNeeds(s, u, p, sharee, perm);
    assert EntryOk(s, p);
    assert forall c <- n :: c == '1' || c in f;
    EntryMissing(s, sharee, f);
    EntryMissing(s, sharee, n);
    assert SharedDir(sharee) + [f] == [sharee, "Shared_with_me", f] && SharedDir(sharee) + [n] == [sharee, "Shared_with_me", n];
    SharePlaced(s, u, p, sharee, perm);
    var i: nat, m :| NumberedName(m, f, i) && TakenBefore(s, sharee, f, i) && PlacedAs(s, ShareStep(s, u, p, sharee, perm).0, u, p, sharee, perm, m);
    assert Itoa(1) == "1" && NumberedName(n, f, 1);
    if i == 1 {
      assert m == "1" + m[1..] == n;
    }
  }

  // ----- The name of a stored file

  /** A stored file with a row, and its body. */
  predicate Keeps(s: State, f: string, body: Bytes) {
    f in s.filedata && f in s.blobs && s.blobs[f] == body
  }

  /** A body that no row has is stored under "file" and the counter, which then goes up; one that a row has
      is linked to the row's file. */
  lemma StoredUnder(s: State, p: Path, body: Bytes)
    requires RowsInOrder(s) && Stored(s, p, body).1 == Ok
    ensures var t := Stored(s, p, body).0;
            && p in t.tree && t.tree[p].Link?
            && if exists f :: Keeps(s, f, body)
               then Keeps(s, t.tree[p].target, body) && t.filecount == s.filecount
               else t.tree[p].target == "file" + Itoa(s.filecount) && t.filecount == s.filecount + 1
  {
    forall f <- s.filedata ensures s.filedata[f].filehash == Hash(body) <==> Keeps(s, f, body) {
      assert RowOk(s, f);
    }
  }

  /** A new file, while nothing is stored, is put at its place under that name. */
  lemma NewFileNamed(s: State, u: Name, p: Path, body: Bytes)
    requires Valid(s) && s.filedata == map[] && UploadStep(s, u, p, body).1 == Ok
    requires p != [] && p !in s.tree && IsSharedFile(s.sharedata, p).Unshared?
    ensures p in UploadStep(s, u, p, body).0.tree && UploadStep(s, u, p, body).0.tree[p] == Link("file" + Itoa(s.filecount))
  {
    LookupHow(s, p);
    assert Cleared(s, p, u) == s;
    StoredUnder(s, p, body);
  }

  /** The first file of all is "file1". */
  lemma FirstFile()
    ensures [BOB, "f"] in Run(INITIAL, TWO_SIGNUPS + [UPLOAD_BY_BOB]).tree
    ensures Run(INITIAL, TWO_SIGNUPS + [UPLOAD_BY_BOB]).tree[[BOB, "f"]] == Link("file1")
  {
    AfterTwoSignups();
    SignupsStoreNothing();
    TopFileWritable(Run(INITIAL, TWO_SIGNUPS), BOB, "f", []);
    NewFileNamed(Run(INITIAL, TWO_SIGNUPS), BOB, [BOB, "f"], []);
    RunAppend(INITIAL, TWO_SIGNUPS, UPLOAD_BY_BOB);
    assert Itoa(1) == "1";
  }

  lemma SignupsStoreNothing()
    ensures Run(INITIAL, TWO_SIGNUPS).filecount == 1 && Run(INITIAL, TWO_SIGNUPS).filedata == map[]
  {
    RunAppend(INITIAL, [], TWO_SIGNUPS[0]);
    RunAppend(INITIAL, [TWO_SIGNUPS[0]], TWO_SIGNUPS[1]);
    assert [] + [TWO_SIGNUPS[0]] == [TWO_SIGNUPS[0]] && [TWO_SIGNUPS[0]] + [TWO_SIGNUPS[1]] == TWO_SIGNUPS;
  }

  // ----- Which entries a request makes or takes away

  /** A directory that was made is listed, empty, and every entry there was is as it was. */
  lemma MkdirMakes(s: State, u: Name, p: Path)
    requires Valid(s) && MkdirStep(s, u, p).1 == Ok
    ensures ListStep(MkdirStep(s, u, p).0, u, p) == Some({})
    ensures forall q <- s.tree :: q in MkdirStep(s, u, p).0.tree && MkdirStep(s, u, p).0.tree[q] == s.tree[q]
    ensures forall q <- MkdirStep(s, u, p).0.tree :: q in s.tree || q == p
  {
    var t := MkdirStep(s, u, p).0;
    TreeClosed(s);
    LeafClosed(s.tree, p, Dir);
    LookupHere(KindsOf(t.tree), p);
    forall q | q in t.tree && q != [] ensures Parent(q) != p {
      assert q in s.tree ==> EntryOk(s, q);
    }
    assert Entries(t.tree, p) == {};
  }

  /** The links that go with a file: the sharees', where it is the sharer who removes it. */
  predicate GoesWith(s: State, u: Name, p: Path, q: Path) {
    q in s.sharedata && s.sharedata[q].sharer == u && s.sharedata[q].origpath == p
  }

  /** A removal takes away the entry, with the links that go with it, and no other. */
  lemma RemovalTakes(s: State, u: Name, p: Path)
    requires Valid(s) && RemoveStep(s, u, p).1 == Ok
    ensures forall q :: q in RemoveStep(s, u, p).0.tree <==> q in s.tree && q != p && !GoesWith(s, u, p, q)
  {
    RemoveSucceeds(s, u, p);
    if s.tree[p].Dir? {
      DirTaken(s, u, p);
    } else if IsSharedFile(s.sharedata, p).AsSharer? {
      SharerRemoves(s, u, p);
    } else {
      EntryFound(s, p);
      assert p in s.sharedata ==> IsSharedFile(s.sharedata, p).AsSharee?;
    }
  }

  lemma DirTaken(s: State, u: Name, p: Path)
    requires Valid(s) && p in s.tree && s.tree[p].Dir? && RemoveStep(s, u, p).1 == Ok
    ensures RemoveStep(s, u, p).0.tree == s.tree - {p} && forall q :: !GoesWith(s, u, p, q)
  {
    DirNoRow(s, p);
    EntryFound(s, p);
  }

  // ----- Which shares a request ends or changes

  lemma UnshareEnds(s: State, u: Name, p: Path, sharee: Name, k: Path)
    requires Valid(s) && k in s.sharedata
    ensures k !in UnshareStep(s, u, p, sharee).0.sharedata
       <==> s.sharedata[k].sharer == u && s.sharedata[k].origpath == p && s.sharedata[k].sharee == sharee
    ensures forall j | j in UnshareStep(s, u, p, sharee).0.sharedata ::
              j in s.sharedata && UnshareStep(s, u, p, sharee).0.sharedata[j] == s.sharedata[j]
  {
    UnshareSucceeds(s, u, p, sharee);
    RowFacts(s, k);
    var r := s.sharedata[k];
    if r.sharer == u && r.origpath == p && r.sharee == sharee {
      assert SharedWith(s, u, sharee, p) && k in Matching(s.sharedata, u, sharee, p);
    }
  }

  lemma RemovalEnds(s: State, u: Name, p: Path, k: Path)
    requires Valid(s) && k in s.sharedata
    ensures k !in RemoveStep(s, u, p).0.sharedata
       <==> (s.sharedata[k].sharer == u && s.sharedata[k].origpath == p) || (s.sharedata[k].sharee == u && k == p)
  {
    RowFacts(s, k);
    if p in s.sharedata {
      RowFacts(s, p);
      LinkFound(s, p);
      SharedRemoved(s, u, p);
    } else if exists j <- s.sharedata :: s.sharedata[j].origpath == p {
      var j :| j in s.sharedata && s.sharedata[j].origpath == p;
      RowFacts(s, j);
      LinkFound(s, p);
      OriginRemoved(s, u, p);
    } else {
      assert IsSharedFile(s.sharedata, p).Unshared?;
      RemovedRows(s, p, u);
    }
  }

  lemma SharedRemoved(s: State, u: Name, p: Path)
    requires Valid(s) && p in s.sharedata && p != []
    ensures RemoveStep(s, u, p).0.sharedata == if s.sharedata[p].sharee == u then s.sharedata - {p} else s.sharedata
  {
    RowFacts(s, p);
    ShareePlace(s, p);
    LinkFound(s, p);
    EntryFound(s, p);
  }

  lemma OriginRemoved(s: State, u: Name, p: Path)
    requires Valid(s) && p != [] && IsSharedFile(s.sharedata, p).AsSharer?
    ensures RemoveStep(s, u, p).0.sharedata
         == if LetThrough(s, u, p) then s.sharedata - ShareesOf(s.sharedata, u, p) else s.sharedata
  {
    var gone := ShareesOf(s.sharedata, u, p);
    SharerPlace(s, p);
    SharedPlace(s, p[0], p);
    LinkFound(s, p);
    RemovedRows(s.(tree := s.tree - gone, sharedata := s.sharedata - gone), p, u);
  }

  /** The row as a chperm leaves it. */
  function Rechecked(r: ShareRow, op: Op): ShareRow {
    if op == Chperm(r.sharer, r.origpath, r.sharee, "rw") then r.(perm := 1)
    else if op == Chperm(r.sharer, r.origpath, r.sharee, "r") then r.(perm := 0)
    else r
  }

  lemma ChpermChanges(s: State, op: Op, k: Path)
    requires Valid(s) && k in s.sharedata && op.Chperm?
    ensures k in Step(s, op).0.sharedata && Step(s, op).0.sharedata[k] == Rechecked(s.sharedata[k], op)
  {
    RowFacts(s, k);
    ChpermSucceeds(s, op.u, op.p, op.sharee, op.perm);
    var r := s.sharedata[k];
    if op.u == r.sharer && op.p == r.origpath && op.sharee == r.sharee {
      assert SharedWith(s, op.u, op.sharee, op.p) && k in Matching(s.sharedata, op.u, op.sharee, op.p);
    }
  }

  lemma ShareAdds(s: State, op: Op, k: Path)
    requires Valid(s) && k in s.sharedata && op.Share?
    ensures k in Step(s, op).0.sharedata && Step(s, op).0.sharedata[k] == s.sharedata[k]
  {
    if ShareRefusal(s, op.u, op.p, op.sharee, op.perm).None? {
      ShareGoesTo(s, op.u, op.p, op.sharee, op.perm);
      RowFacts(s, k);
    }
  }

  /** Exactly which request ends a share: its sharer's unshare, its sharer's removal of the file, and its
      sharee's removal of the share. Nobody else's does. */
  lemma ShareEndsExactly(s: State, op: Op, k: Path)
    requires Valid(s) && k in s.sharedata
    ensures k !in Step(s, op).0.sharedata
       <==> || op == Unshare(s.sharedata[k].sharer, s.sharedata[k].origpath, s.sharedata[k].sharee)
            || op == Remove(s.sharedata[k].sharer, s.sharedata[k].origpath)
            || op == Remove(s.sharedata[k].sharee, k)
  {
    match op
    case Upload(u, p, body) => UploadRows(s, u, p, body);
    case Remove(u, p) => RemovalEnds(s, u, p, k);
    case Share(u, p, sharee, perm) => ShareAdds(s, op, k);
    case Unshare(u, p, sharee) => UnshareEnds(s, u, p, sharee, k);
    case Chperm(u, p, sharee, perm) => ChpermChanges(s, op, k);
    case _ =>
  }

  /** And what changes one that stays: its sharer's chperm alone, to what its text says. */
  lemma ShareChangesExactly(s: State, op: Op, k: Path)
    requires Valid(s) && k in s.sharedata && k in Step(s, op).0.sharedata
    ensures Step(s, op).0.sharedata[k] == Rechecked(s.sharedata[k], op)
  {
    match op
    case Upload(u, p, body) => UploadRows(s, u, p, body);
    case Remove(u, p) => RemoveRows(s, u, p);
    case Share(u, p, sharee, perm) => ShareAdds(s, op, k);
    case Unshare(u, p, sharee) => UnshareEnds(s, u, p, sharee, k);
    case Chperm(u, p, sharee, perm) => ChpermChanges(s, op, k);
    case _ =>
  }
}
