/** What each handler does to the state, as a function: the specification the imperative server is
    proved against and the steps that runs are made of. */
module Handlers {
  import opened Decimal
  import opened Paths
  import opened Store

  /** How a handler ends. The source answers with a text; success is not always the empty text. */
  datatype Outcome =
    | Ok
    | Reauth             // no registered user behind the request
    | OutsideRoot        // checkpath refused
    | ReservedDir        // the Shared_with_me prefix test refused
    | NoSuchResource     // Stat or Lstat found nothing
    | NotADirectory      // Lstat went through a link
    | BadPath            // Lstat refused a NUL in the path
    | UploadFailed       // "Couldn't upload"
    | PermissionDenied
    | NotEmpty
    | SharedDirKept      // the user's own Shared_with_me cannot be removed
    | CannotCreate       // mkdir or symlink failed
    | BadPermission
    | SelfShare
    | NoSuchUser
    | AlreadyShared
    | NotShared
    | NotAFile
    | SignupRefused
    | RemoveFailed       // an unlink that cannot fail from a valid state
    | Exited             // os.Exit
    | Hangs              // the call never returns, and keeps the lock

  // ----- remove and uploadHelper

  /** `remove` on a symbolic link: unlink it, then lower the count, or reclaim blob and row. A count
      that is not found reads as 0. */
  function Unlinked(s: State, p: Path): (State, Outcome)
    requires p in s.tree && s.tree[p].Link?
  {
    var f := s.tree[p].target;
    var tree := s.tree - {p};
    var left := (if f in s.filedata then s.filedata[f].numowners else 0) - 1;
    if left > 0 then
      (s.(tree := tree, filedata := s.filedata[f := s.filedata[f].(numowners := left)]), Ok)
    else if f in s.blobs then
      (s.(tree := tree, blobs := s.blobs - {f}, filedata := s.filedata - {f}), Ok)
    else
      (s.(tree := tree), RemoveFailed)
  }

  function Removed(s: State, p: Path, u: Name): (State, Outcome) {
    if !Allowed(p, u) then (s, OutsideRoot)
    else match Lstat(s.tree, s.blobs, p)
      case Missing => (s, NoSuchResource)
      case NotDir => (s, NotADirectory)
      case Invalid => (s, BadPath)
      case Here(_) =>
        if p !in s.tree then (s, NoSuchResource)
        else if s.tree[p].Link? then Unlinked(s, p)
        else if p == SharedDir(u) then (s, SharedDirKept)
        else if !EmptyDir(KindsOf(s.tree), p) then (s, NotEmpty)
        else (s.(tree := s.tree - {p}), Ok)
  }

  ghost function ByHash(filedata: map<string, FileRow>, h: Digest): Option<string> {
    if exists f :: f in filedata && filedata[f].filehash == h
    then var f :| f in filedata && filedata[f].filehash == h; Some(f)
    else None
  }

  /** The deduplicating half of `uploadHelper`, at a place just cleared. */
  ghost function Stored(s: State, p: Path, body: Bytes): (State, Outcome) {
    match ByHash(s.filedata, Hash(body))
    case None =>
      var f := FileName(s.filecount);
      var t := s.(blobs := s.blobs[f := body]);
      if CanCreate(KindsOf(s.tree), p) then
        (t.(tree := s.tree[p := Link(f)],
            filedata := s.filedata[f := FileRow(Hash(body), 1)],
            filecount := s.filecount + 1), Ok)
      else (t, UploadFailed)
    case Some(f) =>
      if CanCreate(KindsOf(s.tree), p) then
        (s.(tree := s.tree[p := Link(f)],
            filedata := s.filedata[f := s.filedata[f].(numowners := s.filedata[f].numowners + 1)]), Ok)
      else (s, UploadFailed)
  }

  /** The first half of `uploadHelper`: whatever is at the place is removed, if it can be. */
  function Cleared(s: State, p: Path, u: Name): State {
    if Stat(s.tree, s.blobs, p).Here? then Removed(s, p, u).0 else s
  }

  ghost function Uploaded(s: State, p: Path, u: Name, body: Bytes): (State, Outcome) {
    if Reserved(p, u) then (s, ReservedDir) else Stored(Cleared(s, p, u), p, body)
  }

  // ----- Sharing

  /** SELECT shareepath FROM sharedata WHERE sharer = u AND origpath = p */
  function ShareesOf(sharedata: map<Path, ShareRow>, u: Name, p: Path): set<Path> {
    set k | k in sharedata && sharedata[k].sharer == u && sharedata[k].origpath == p
  }

  /** The rows with this sharer, sharee and origpath. */
  function Matching(sharedata: map<Path, ShareRow>, u: Name, sharee: Name, p: Path): set<Path> {
    set k | k in sharedata && sharedata[k].sharer == u && sharedata[k].sharee == sharee && sharedata[k].origpath == p
  }

  datatype Sharing = AsSharer | AsSharee | Unshared

  function IsSharedFile(sharedata: map<Path, ShareRow>, p: Path): Sharing {
    if exists k <- sharedata :: sharedata[k].origpath == p then AsSharer
    else if p in sharedata then AsSharee
    else Unshared
  }

  /** The places in a list. */
  function Places(list: seq<Path>): set<Path> {
    set k | k in list
  }

  /** The same link at each of the places. */
  function LinksTo(places: set<Path>, n: Node): map<Path, Node> {
    map k | k in places :: n
  }

  /** `sharerUpload`: unlink every sharee, upload at the owner's path, relink every sharee. */
  ghost function SharerUploaded(s: State, sharer: Name, p: Path, body: Bytes): State {
    var sharees := ShareesOf(s.sharedata, sharer, p);
    var t := Uploaded(s.(tree := s.tree - sharees), p, sharer, body).0;
    if p in t.tree && t.tree[p].Link?
    then t.(tree := t.tree + LinksTo(sharees, t.tree[p]))
    else t
  }

  /** `Itoa(i) + filename`, tried for i = 1, 2, ... after the name itself. */
  function Candidate(f: Name, i: nat): (c: Name) {
    if i == 0 then f
    else
      assert Itoa(i) == Digits(i) && '/' !in Itoa(i) && Itoa(i)[0] in Itoa(i);
      assert (Itoa(i) + f)[0] == Itoa(i)[0];
      Itoa(i) + f
  }

  /** The occupied candidates from the i-th on. */
  ghost function Pending(kinds: Kinds, dir: Path, f: Name, i: nat): set<Path> {
    set p | p in kinds && exists j: nat :: i <= j && p == dir + [Candidate(f, j)]
  }

  lemma CandidatesDistinct(f: Name, i: nat, j: nat)
    ensures Candidate(f, i) == Candidate(f, j) <==> i == j
  {
    if i != 0 && j != 0 {
      if Candidate(f, i) == Candidate(f, j) {
        assert |Itoa(i)| == |Itoa(j)|;
        assert Itoa(i) == Candidate(f, i)[..|Itoa(i)|] == Itoa(j);
        ItoaInjective(i, j);
      }
    } else if i != j {
      assert |Candidate(f, i)| != |Candidate(f, j)|;
    }
  }

  /** The pigeonhole step: an occupied candidate is pending no longer once it has been passed. */
  lemma PendingShrinks(kinds: Kinds, dir: Path, f: Name, i: nat)
    requires dir + [Candidate(f, i)] in kinds
    ensures Pending(kinds, dir, f, i + 1) < Pending(kinds, dir, f, i)
  {
    var c := dir + [Candidate(f, i)];
    assert c in Pending(kinds, dir, f, i);
    if c in Pending(kinds, dir, f, i + 1) {
      var j: nat :| i + 1 <= j && c == dir + [Candidate(f, j)];
      assert c[|dir|] == Candidate(f, j);
      CandidatesDistinct(f, i, j);
    }
  }

  /** The number of the first free candidate from i on. */
  ghost function FirstFree(kinds: Kinds, dir: Path, f: Name, i: nat): (n: nat)
    ensures i <= n && dir + [Candidate(f, n)] !in kinds
    ensures forall j :: i <= j < n ==> dir + [Candidate(f, j)] in kinds
    decreases Pending(kinds, dir, f, i)
  {
    if dir + [Candidate(f, i)] in kinds then
      PendingShrinks(kinds, dir, f, i);
      FirstFree(kinds, dir, f, i + 1)
    else i
  }

  function PermOf(perm: string): Option<int> {
    if perm == "rw" then Some(1) else if perm == "r" then Some(0) else None
  }

  /** UPDATE sharedata SET perm = n on the given rows. */
  function WithPerm(sharedata: map<Path, ShareRow>, rows: set<Path>, n: int): map<Path, ShareRow> {
    map k | k in sharedata :: if k in rows then sharedata[k].(perm := n) else sharedata[k]
  }

  function BaseName(p: Path): Name
    requires p != []
  {
    p[|p| - 1]
  }

  /** The first name that is free in the sharee's Shared_with_me directory. */
  ghost function ShareePath(kinds: Kinds, sharee: Name, p: Path): Path
    requires p != []
  {
    SharedDir(sharee) + [Candidate(BaseName(p), FirstFree(kinds, SharedDir(sharee), BaseName(p), 0))]
  }

  // ----- The name search

  /** What Stat answers for the i-th name tried. */
  function StatCandidate(s: State, sharee: Name, f: Name, i: nat): Found {
    Stat(s.tree, s.blobs, SharedDir(sharee) + [Candidate(f, i)])
  }

  /** Stat says of some name that nothing is there. */
  ghost predicate SearchEnds(s: State, sharee: Name, f: Name) {
    exists i: nat :: StatCandidate(s, sharee, f, i).Missing?
  }

  /** A NUL in one of the two names is in the path of every candidate. */
  predicate Endless(sharee: Name, f: Name) {
    '\0' in sharee || '\0' in f
  }

  /** When that is: no NUL is in the way, and what Stat finds at the Shared_with_me is a directory or
      nothing - not a file. */
  predicate CanEnd(s: State, sharee: Name, f: Name) {
    !Endless(sharee, f) && Stat(s.tree, s.blobs, SharedDir(sharee)) in {Here(true), Missing}
  }

  lemma CandidateNoNul(f: Name, i: nat)
    ensures '\0' in Candidate(f, i) <==> '\0' in f
  {
    if i > 0 {
      assert forall c <- Digits(i) :: IsDigit(c);
      assert forall c :: c in Itoa(i) + f <==> c in Itoa(i) || c in f;
    }
  }

  /** The path of a place under a Shared_with_me holds a NUL exactly when one of its names does. */
  lemma SharedPlaceNoNul(sharee: Name, n: Name)
    ensures Parent(SharedDir(sharee) + [n]) == SharedDir(sharee)
    ensures NoNul(SharedDir(sharee)) <==> '\0' !in sharee
    ensures NoNul(SharedDir(sharee) + [n]) <==> '\0' !in sharee && '\0' !in n
  {
    var dir := SharedDir(sharee);
    assert Parent(dir + [n]) == dir;
    assert Parent(dir) == [sharee] && Parent([sharee]) == [];
    assert NoNul([sharee]) <==> '\0' !in sharee;
  }

  /** Where the search can end, only an entry of the directory stands in the way of a name. */
  lemma TakenInKinds(s: State, sharee: Name, f: Name, i: nat)
    requires CanEnd(s, sharee, f) && !StatCandidate(s, sharee, f, i).Missing?
    ensures SharedDir(sharee) + [Candidate(f, i)] in KindsOf(s.tree)
  {
    CandidateNoNul(f, i);
    SharedPlaceNoNul(sharee, Candidate(f, i));
  }

  lemma TakenForEver(s: State, sharee: Name, f: Name, i: nat)
    requires !CanEnd(s, sharee, f)
    ensures StatCandidate(s, sharee, f, i) in {Invalid, NotDir}
  {
    CandidateNoNul(f, i);
    SharedPlaceNoNul(sharee, Candidate(f, i));
  }

  /** The number of the first name from i on that Stat says is free. */
  ghost function FirstMissing(s: State, sharee: Name, f: Name, i: nat): (n: nat)
    requires CanEnd(s, sharee, f)
    ensures i <= n && StatCandidate(s, sharee, f, n).Missing?
    ensures forall j :: i <= j < n ==> !StatCandidate(s, sharee, f, j).Missing?
    decreases Pending(KindsOf(s.tree), SharedDir(sharee), f, i)
  {
    if StatCandidate(s, sharee, f, i).Missing? then i
    else
      TakenInKinds(s, sharee, f, i);
      PendingShrinks(KindsOf(s.tree), SharedDir(sharee), f, i);
      FirstMissing(s, sharee, f, i + 1)
  }

  /** In any state at all, exactly when the search ends. */
  lemma SearchEndsExactly(s: State, sharee: Name, f: Name)
    ensures SearchEnds(s, sharee, f) <==> CanEnd(s, sharee, f)
  {
    if CanEnd(s, sharee, f) {
      assert StatCandidate(s, sharee, f, FirstMissing(s, sharee, f, 0)).Missing?;
    } else {
      forall i: nat ensures !StatCandidate(s, sharee, f, i).Missing? {
        TakenForEver(s, sharee, f, i);
      }
    }
  }

  /** The place the search finds. */
  ghost function SearchedPath(s: State, sharee: Name, p: Path): Path
    requires p != [] && CanEnd(s, sharee, BaseName(p))
  {
    SharedDir(sharee) + [Candidate(BaseName(p), FirstMissing(s, sharee, BaseName(p), 0))]
  }

  // ----- The handlers

  ghost function UploadStep(s: State, u: Name, p: Path, body: Bytes): (State, Outcome) {
    if u !in s.users then (s, Reauth)
    else if !Allowed(p, u) then (s, OutsideRoot)
    else match IsSharedFile(s.sharedata, p)
      case Unshared => Uploaded(s, p, u, body)
      case AsSharer => (SharerUploaded(s, u, p, body), Ok)
      case AsSharee =>
        if p !in s.sharedata || s.sharedata[p].sharee != u then (s, Exited)
        else if s.sharedata[p].perm == 0 then (s, PermissionDenied)
        else (SharerUploaded(s, s.sharedata[p].sharer, s.sharedata[p].origpath, body), Ok)
  }

  function RemoveStep(s: State, u: Name, p: Path): (State, Outcome) {
    if u !in s.users then (s, Reauth)
    else if !Allowed(p, u) then (s, OutsideRoot)
    else if Stat(s.tree, s.blobs, p).Missing? then (s, NoSuchResource)
    else match IsSharedFile(s.sharedata, p)
      case Unshared => Removed(s, p, u)
      case AsSharee =>
        if !CanRemove(KindsOf(s.tree), p) then (s, RemoveFailed)
        else (s.(tree := s.tree - {p},
                 sharedata := if p in s.sharedata && s.sharedata[p].sharee == u then s.sharedata - {p} else s.sharedata), Ok)
      case AsSharer =>
        var sharees := ShareesOf(s.sharedata, u, p);
        Removed(s.(tree := s.tree - sharees, sharedata := s.sharedata - sharees), p, u)
  }

  /** The end of `shareHandler`: the sharer's link is read and put at the place found for the sharee. */
  function SharedAt(s: State, u: Name, p: Path, sharee: Name, perm: int, k: Path): (State, Outcome) {
    match Lookup(KindsOf(s.tree), p)
    case Here(false) =>
      if p in s.tree && CanCreate(KindsOf(s.tree), k)
      then (s.(tree := s.tree[k := s.tree[p]], sharedata := s.sharedata[k := ShareRow(u, sharee, p, perm)]), Ok)
      else (s, CannotCreate)
    case Here(true) => (s, NotAFile)
    case _ => (s, NoSuchResource)
  }

  /** The name has a userdata row. Of the names without a directory only those with a NUL are names here. */
  predicate HasRow(users: set<Name>, unnamed: set<string>, name: Name) {
    name in users || ('\0' in name && name in unnamed)
  }

  /** What the tests of `shareHandler` answer, in their order, before the name search. */
  function ShareTests(s: State, u: Name, p: Path, sharee: Name, perm: string): (r: Option<Outcome>)
    ensures r.None? ==> Allowed(p, u) && PermOf(perm).Some?
  {
    if u !in s.users then Some(Reauth)
    else if !Allowed(p, u) then Some(OutsideRoot)
    else if u == sharee then Some(SelfShare)
    else if PermOf(perm).None? then Some(BadPermission)
    else if !HasRow(s.users, s.unnamed, sharee) then Some(NoSuchUser)
    else if Stat(s.tree, s.blobs, p).Missing? then Some(NoSuchResource)
    else if Reserved(p, u) then Some(ReservedDir)
    else if |Matching(s.sharedata, u, sharee, p)| == 1 then Some(AlreadyShared)
    else None
  }

  /** A share that passes the tests hangs where the name search does not end. */
  ghost function ShareRefusal(s: State, u: Name, p: Path, sharee: Name, perm: string): (r: Option<Outcome>)
    ensures r.None? ==> Allowed(p, u) && PermOf(perm).Some? && CanEnd(s, sharee, BaseName(p))
    ensures r.None? ==> u in s.users && sharee in s.users && u != sharee
  {
    match ShareTests(s, u, p, sharee, perm)
    case Some(o) => Some(o)
    case None =>
      SearchEndsExactly(s, sharee, BaseName(p));
      if SearchEnds(s, sharee, BaseName(p)) then None else Some(Hangs)
  }

  ghost function ShareStep(s: State, u: Name, p: Path, sharee: Name, perm: string): (State, Outcome) {
    match ShareRefusal(s, u, p, sharee, perm)
    case Some(o) => (s, o)
    case None => SharedAt(s, u, p, sharee, PermOf(perm).value, SearchedPath(s, sharee, p))
  }

  ghost function UnshareStep(s: State, u: Name, p: Path, sharee: Name): (State, Outcome) {
    if u !in s.users then (s, Reauth)
    else if !Allowed(p, u) then (s, OutsideRoot)
    else if u == sharee then (s, SelfShare)
    else if !HasRow(s.users, s.unnamed, sharee) then (s, NoSuchUser)
    else
      var rows := Matching(s.sharedata, u, sharee, p);
      if |rows| != 1 then (s, NotShared)
      else
        var k :| k in rows;
        if CanRemove(KindsOf(s.tree), k)
        then (s.(tree := s.tree - {k}, sharedata := s.sharedata - rows), Ok)
        else (s, RemoveFailed)
  }

  function ChpermStep(s: State, u: Name, p: Path, sharee: Name, perm: string): (State, Outcome) {
    if u !in s.users then (s, Reauth)
    else if !Allowed(p, u) then (s, OutsideRoot)
    else if Reserved(p, u) then (s, ReservedDir)
    else if Stat(s.tree, s.blobs, p).Missing? then (s, NoSuchResource)
    else
      var rows := Matching(s.sharedata, u, sharee, p);
      if |rows| == 0 then (s, NotShared)
      else match PermOf(perm)
        case None => (s, BadPermission)
        case Some(n) =>
          (s.(sharedata := WithPerm(s.sharedata, rows, n)), Ok)
  }

  function MkdirStep(s: State, u: Name, p: Path): (State, Outcome) {
    if u !in s.users then (s, Reauth)
    else if !Allowed(p, u) then (s, OutsideRoot)
    else if CanCreate(KindsOf(s.tree), p) then (s.(tree := s.tree[p := Dir]), Ok)
    else (s, CannotCreate)
  }

  /** A name that mkdir can make a directory of. */
  predicate NamesDir(username: string) {
    IsName(username) && '\0' !in username
  }

  /** The length test on the username can never fail: no length is both below 5 and above 16. The table
      row is inserted before the directories are made, and stays if the process exits there. */
  function SignupStep(s: State, username: string, password: string): (State, Outcome) {
    if (IsName(username) && username in s.users) || username in s.unnamed then (s, SignupRefused)
    else if |password| < 6 || '/' in username then (s, SignupRefused)
    else if !NamesDir(username) then (s.(unnamed := s.unnamed + {username}), Exited)
    else if Root(username) in s.tree then (s.(users := s.users + {username}), Exited)
    else (s.(users := s.users + {username},
             tree := s.tree[Root(username) := Dir][SharedDir(username) := Dir]), Ok)
  }

  /** `downloadHandler`: the bytes behind the link, or nothing. */
  function DownloadStep(s: State, u: Name, p: Path): Option<Bytes> {
    if u in s.users && Allowed(p, u) && Lookup(KindsOf(s.tree), p) == Here(false)
       && p in s.tree && s.tree[p].Link? && s.tree[p].target in s.blobs
    then Some(s.blobs[s.tree[p].target])
    else None
  }

  datatype DirEnt = DirEnt(name: Name, isDir: bool)

  /** `listHandler`: the entries of a directory. */
  function Entries(tree: map<Path, Node>, p: Path): set<DirEnt> {
    set q | q in tree && q != [] && Parent(q) == p :: DirEnt(BaseName(q), tree[q].Dir?)
  }

  function ListStep(s: State, u: Name, p: Path): Option<set<DirEnt>> {
    if u in s.users && Allowed(p, u) && Lookup(KindsOf(s.tree), p) == Here(true)
    then Some(Entries(s.tree, p))
    else None
  }

  datatype Op =
    | Signup(username: string, password: string)
    | Mkdir(u: Name, p: Path)
    | Upload(u: Name, p: Path, body: Bytes)
    | Remove(u: Name, p: Path)
    | Share(u: Name, p: Path, sharee: Name, perm: string)
    | Unshare(u: Name, p: Path, sharee: Name)
    | Chperm(u: Name, p: Path, sharee: Name, perm: string)

  predicate ConfinedOp(op: Op) {
    op.Signup? || Confined(op.p, op.u)
  }

  ghost function Step(s: State, op: Op): (State, Outcome) {
    match op
    case Signup(username, password) => SignupStep(s, username, password)
    case Mkdir(u, p) => MkdirStep(s, u, p)
    case Upload(u, p, body) => UploadStep(s, u, p, body)
    case Remove(u, p) => RemoveStep(s, u, p)
    case Share(u, p, sharee, perm) => ShareStep(s, u, p, sharee, perm)
    case Unshare(u, p, sharee) => UnshareStep(s, u, p, sharee)
    case Chperm(u, p, sharee, perm) => ChpermStep(s, u, p, sharee, perm)
  }

  ghost function Run(s: State, ops: seq<Op>): State
    decreases |ops|
  {
    if ops == [] then s else Step(Run(s, ops[..|ops| - 1]), ops[|ops| - 1]).0
  }
}
