/** What users are promised: directories, a map from owner path to bytes, and a share relation. No
    links, no deduplication, no counts. */
module PlainStore {
  import opened Decimal
  import opened Paths
  import opened Store
  import opened Handlers

  datatype Plain = Plain(
    users: set<Name>,
    unnamed: set<string>,
    dirs: set<Path>,
    files: map<Path, Bytes>,
    shares: map<Path, ShareRow>)

  const NOTHING := Plain({}, {}, {}, map[], map[])

  function PlainKinds(a: Plain): Kinds {
    map p | p in a.dirs + a.files.Keys + a.shares.Keys :: p in a.dirs
  }

  predicate Writable(a: Plain, p: Path) {
    |p| > 1 && NoNul(p) && Parent(p) in a.dirs && (p in a.dirs ==> EmptyDir(PlainKinds(a), p))
  }

  function PlainUpload(a: Plain, u: Name, p: Path, body: Bytes): (Plain, Outcome) {
    if u !in a.users then (a, Reauth)
    else if !Allowed(p, u) then (a, OutsideRoot)
    else match IsSharedFile(a.shares, p)
      case AsSharer => (a.(files := a.files[p := body]), Ok)
      case AsSharee =>
        if a.shares[p].sharee != u then (a, Exited)
        else if a.shares[p].perm == 0 then (a, PermissionDenied)
        else (a.(files := a.files[a.shares[p].origpath := body]), Ok)
      case Unshared =>
        if Reserved(p, u) then (a, ReservedDir)
        else if Writable(a, p) then (a.(dirs := a.dirs - {p}, files := a.files[p := body]), Ok)
        else (a, UploadFailed)
  }

  function PlainRemove(a: Plain, u: Name, p: Path): (Plain, Outcome) {
    if u !in a.users then (a, Reauth)
    else if !Allowed(p, u) then (a, OutsideRoot)
    else match Lookup(PlainKinds(a), p)
      case Missing => (a, NoSuchResource)
      case NotDir => (a, NotADirectory)
      case Invalid => (a, BadPath)
      case Here(true) =>
        if p == SharedDir(u) then (a, SharedDirKept)
        else if !EmptyDir(PlainKinds(a), p) then (a, NotEmpty)
        else (a.(dirs := a.dirs - {p}), Ok)
      case Here(false) =>
        if p in a.shares then (a.(shares := a.shares - {p}), Ok)
        else (a.(files := a.files - {p},
                 shares := map k | k in a.shares && a.shares[k].origpath != p :: a.shares[k]), Ok)
  }

  function PlainShareTests(a: Plain, u: Name, p: Path, sharee: Name, perm: string): (r: Option<Outcome>)
    ensures r.None? ==> Allowed(p, u) && PermOf(perm).Some?
  {
    if u !in a.users then Some(Reauth)
    else if !Allowed(p, u) then Some(OutsideRoot)
    else if u == sharee then Some(SelfShare)
    else if PermOf(perm).None? then Some(BadPermission)
    else if !HasRow(a.users, a.unnamed, sharee) then Some(NoSuchUser)
    else if Lookup(PlainKinds(a), p).Missing? then Some(NoSuchResource)
    else if Reserved(p, u) then Some(ReservedDir)
    else if Matching(a.shares, u, sharee, p) != {} then Some(AlreadyShared)
    else None
  }

  /** Here only a NUL makes the call hang. */
  function PlainShareRefusal(a: Plain, u: Name, p: Path, sharee: Name, perm: string): (r: Option<Outcome>)
    ensures r.None? ==> Allowed(p, u) && PermOf(perm).Some?
  {
    match PlainShareTests(a, u, p, sharee, perm)
    case Some(o) => Some(o)
    case None => if Endless(sharee, BaseName(p)) then Some(Hangs) else None
  }

  ghost function PlainShare(a: Plain, u: Name, p: Path, sharee: Name, perm: string): (Plain, Outcome) {
    match PlainShareRefusal(a, u, p, sharee, perm)
    case Some(o) => (a, o)
    case None =>
      if p in a.files then
        var k := ShareePath(PlainKinds(a), sharee, p);
        (a.(shares := a.shares[k := ShareRow(u, sharee, p, PermOf(perm).value)]), Ok)
      else if p in a.dirs then (a, NotAFile)
      else (a, NoSuchResource)
  }

  function PlainUnshare(a: Plain, u: Name, p: Path, sharee: Name): (Plain, Outcome) {
    if u !in a.users then (a, Reauth)
    else if !Allowed(p, u) then (a, OutsideRoot)
    else if u == sharee then (a, SelfShare)
    else if !HasRow(a.users, a.unnamed, sharee) then (a, NoSuchUser)
    else if Matching(a.shares, u, sharee, p) == {} then (a, NotShared)
    else (a.(shares := a.shares - Matching(a.shares, u, sharee, p)), Ok)
  }

  function PlainChperm(a: Plain, u: Name, p: Path, sharee: Name, perm: string): (Plain, Outcome) {
    if u !in a.users then (a, Reauth)
    else if !Allowed(p, u) then (a, OutsideRoot)
    else if Reserved(p, u) then (a, ReservedDir)
    else if Lookup(PlainKinds(a), p).Missing? then (a, NoSuchResource)
    else if Matching(a.shares, u, sharee, p) == {} then (a, NotShared)
    else match PermOf(perm)
      case None => (a, BadPermission)
      case Some(n) =>
        (a.(shares := WithPerm(a.shares, Matching(a.shares, u, sharee, p), n)), Ok)
  }

  function PlainMkdir(a: Plain, u: Name, p: Path): (Plain, Outcome) {
    if u !in a.users then (a, Reauth)
    else if !Allowed(p, u) then (a, OutsideRoot)
    else if |p| > 1 && NoNul(p) && p !in PlainKinds(a) && Parent(p) in a.dirs then (a.(dirs := a.dirs + {p}), Ok)
    else (a, CannotCreate)
  }

  function PlainSignup(a: Plain, username: string, password: string): (Plain, Outcome) {
    if |password| < 6 || '/' in username || username in a.unnamed then (a, SignupRefused)
    else if !NamesDir(username) then (a.(unnamed := a.unnamed + {username}), Exited)
    else if username in a.users then (a, SignupRefused)
    else (a.(users := a.users + {username}, dirs := a.dirs + {Root(username), SharedDir(username)}), Ok)
  }

  /** Reading an owner path gives its bytes; reading a shared path gives the owner's bytes. */
  function PlainRead(a: Plain, u: Name, p: Path): Option<Bytes> {
    if u !in a.users || !Allowed(p, u) then None
    else if p in a.files then Some(a.files[p])
    else if p in a.shares && a.shares[p].origpath in a.files then Some(a.files[a.shares[p].origpath])
    else None
  }

  ghost function PlainStep(a: Plain, op: Op): (Plain, Outcome) {
    match op
    case Signup(username, password) => PlainSignup(a, username, password)
    case Mkdir(u, p) => PlainMkdir(a, u, p)
    case Upload(u, p, body) => PlainUpload(a, u, p, body)
    case Remove(u, p) => PlainRemove(a, u, p)
    case Share(u, p, sharee, perm) => PlainShare(a, u, p, sharee, perm)
    case Unshare(u, p, sharee) => PlainUnshare(a, u, p, sharee)
    case Chperm(u, p, sharee, perm) => PlainChperm(a, u, p, sharee, perm)
  }

  ghost function PlainRun(a: Plain, ops: seq<Op>): Plain
    decreases |ops|
  {
    if ops == [] then a else PlainStep(PlainRun(a, ops[..|ops| - 1]), ops[|ops| - 1]).0
  }
}
