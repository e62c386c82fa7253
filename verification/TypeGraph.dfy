/** Handler admission: the search of a possibly cyclic type graph for a kind that cannot be sent. */
module TypeGraph {
  import opened Decimal

  datatype Kind =
    | Invalid | Bool | Int | Int8 | Int16 | Int32 | Int64 | Uint | Uint8 | Uint16 | Uint32 | Uint64 | Uintptr
    | Float32 | Float64 | Complex64 | Complex128 | Array | Chan | Func | Interface | Map | Ptr | Slice
    | String | Struct | UnsafePointer

  type TypeId = nat

  /** A type: its kind and the types its parts have. Only the parts its kind has are looked at. */
  datatype Type = Type(kind: Kind, elem: TypeId, key: TypeId, fields: seq<TypeId>)

  type Types = map<TypeId, Type>

  /** The validKinds table: every kind but Chan, Func, Interface and Ptr. */
  predicate ValidKind(k: Kind) {
    k !in {Kind.Invalid, Chan, Func, Interface, Ptr}
  }

  /** The parts of a type, in the order they are searched. */
  function Parts(t: Type): seq<TypeId> {
    match t.kind
    case Array | Slice => [t.elem]
    case Map => [t.key, t.elem]
    case Struct => t.fields
    case _ => []
  }

  /** Every part of a type is a type. */
  predicate Complete(types: Types) {
    forall t {:trigger PartsKnown(types, t)} | t in types :: PartsKnown(types, t)
  }

  predicate PartsKnown(types: Types, t: TypeId)
    requires t in types
  {
    forall e <- Parts(types[t]) :: e in types
  }

  // ----- Reachability

  predicate IsPath(types: Types, path: seq<TypeId>) {
    && path != []
    && (forall x <- path :: x in types)
    && (forall i :: 0 <= i < |path| - 1 ==> path[i + 1] in Parts(types[path[i]]))
  }

  ghost predicate Reachable(types: Types, from: TypeId, to: TypeId) {
    exists path :: IsPath(types, path) && path[0] == from && path[|path| - 1] == to
  }

  /** What validType is for: everything a value of the type can contain can be sent. */
  ghost predicate Sendable(types: Types, t: TypeId) {
    forall x | x in types && Reachable(types, t, x) :: ValidKind(types[x].kind)
  }

  lemma ReachSelf(types: Types, t: TypeId)
    requires t in types
    ensures Reachable(types, t, t)
  {
    assert IsPath(types, [t]);
  }

  lemma ReachThroughPart(types: Types, t: TypeId, e: TypeId, x: TypeId)
    requires t in types && e in Parts(types[t]) && Reachable(types, e, x)
    ensures Reachable(types, t, x)
  {
    var path :| IsPath(types, path) && path[0] == e && path[|path| - 1] == x;
    var longer := [t] + path;
    forall i | 0 <= i < |longer| - 1 ensures longer[i + 1] in Parts(types[longer[i]]) {
      if i > 0 {
        assert longer[i] == path[i - 1] && longer[i + 1] == path[i];
      }
    }
    assert IsPath(types, longer);
  }

  lemma BadPart(types: Types, t: TypeId, e: TypeId)
    requires t in types && e in Parts(types[t]) && !Sendable(types, e)
    ensures !Sendable(types, t)
  {
    var x :| x in types && Reachable(types, e, x) && !ValidKind(types[x].kind);
    ReachThroughPart(types, t, e, x);
  }

  // ----- Kind by kind

  lemma PathPart(types: Types, path: seq<TypeId>)
    requires IsPath(types, path) && |path| > 1
    ensures path[1] in Parts(types[path[0]]) && Reachable(types, path[1], path[|path| - 1])
  {
    var rest := path[1..];
    forall i | 0 <= i < |rest| - 1 ensures rest[i + 1] in Parts(types[rest[i]]) {
      assert rest[i] == path[i + 1] && rest[i + 1] == path[i + 2];
    }
    assert IsPath(types, rest) && rest[|rest| - 1] == path[|path| - 1];
  }

  lemma SendableByParts(types: Types, t: TypeId)
    requires t in types
    ensures Sendable(types, t) <==> ValidKind(types[t].kind) && forall e <- Parts(types[t]) :: Sendable(types, e)
  {
    ReachSelf(types, t);
    forall e <- Parts(types[t]) ensures !Sendable(types, e) ==> !Sendable(types, t) {
      if !Sendable(types, e) {
        BadPart(types, t, e);
      }
    }
    if ValidKind(types[t].kind) && forall e <- Parts(types[t]) :: Sendable(types, e) {
      forall x | x in types && Reachable(types, t, x) ensures ValidKind(types[x].kind) {
        var path :| IsPath(types, path) && path[0] == t && path[|path| - 1] == x;
        if |path| > 1 {
          PathPart(types, path);
          assert Sendable(types, path[1]);
        }
      }
    }
  }

  /** What it takes for a type to be sendable, kind by kind. */
  ghost predicate SendableAsIs(types: Types, t: TypeId)
    requires t in types
  {
    match types[t].kind
    case Array | Slice => Sendable(types, types[t].elem)
    case Map => Sendable(types, types[t].key) && Sendable(types, types[t].elem)
    case Struct => forall f <- types[t].fields :: Sendable(types, f)
    case Chan | Func | Interface | Ptr | Invalid => false
    case _ => true
  }

  /** A map needs its key and its element sendable, a slice or array its element, a struct every field; a
      channel, function, interface or pointer never is, and any other type always. */
  lemma SendableByKind(types: Types, t: TypeId)
    requires t in types
    ensures Sendable(types, t) <==> SendableAsIs(types, t)
  {
    SendableByParts(types, t);
    match types[t].kind {
      case Map =>
        assert types[t].key in Parts(types[t]) && types[t].elem in Parts(types[t]);
        assert forall e <- Parts(types[t]) :: e == types[t].key || e == types[t].elem;
      case Array | Slice =>
        assert types[t].elem in Parts(types[t]);
      case _ =>
    }
  }

  /** A marked type is settled when its kind is valid and all its parts are marked. */
  predicate Settled(types: Types, m: set<TypeId>, x: TypeId) {
    x in types && ValidKind(types[x].kind) && forall e <- Parts(types[x]) :: e in m
  }

  lemma {:induction false} PathStaysMarked(types: Types, m: set<TypeId>, path: seq<TypeId>, i: nat)
    requires IsPath(types, path) && path[0] in m && i < |path|
    requires forall x <- m :: Settled(types, m, x)
    ensures path[i] in m
  {
    if i > 0 {
      PathStaysMarked(types, m, path, i - 1);
      assert Settled(types, m, path[i - 1]);
    }
  }

  /** Answering nil for a type that is still being searched is harmless: once every marked type is
      settled, the marked set is closed and holds everything reachable. */
  lemma SettledIsSendable(types: Types, m: set<TypeId>, t: TypeId)
    requires t in m && forall x <- m :: Settled(types, m, x)
    ensures Sendable(types, t)
  {
    forall x | x in types && Reachable(types, t, x) ensures ValidKind(types[x].kind) {
      var path :| IsPath(types, path) && path[0] == t && path[|path| - 1] == x;
      PathStaysMarked(types, m, path, |path| - 1);
      assert Settled(types, m, x);
    }
  }

  // ----- The search

  class Search {
    const types: Types
    var m: set<TypeId>

    constructor (types: Types)
      ensures this.types == types && m == {}
    {
      this.types := types;
      m := {};
    }

    /** `validTypeHelper`. The types it newly marks are settled if it answers nil; otherwise a bad kind
        is reachable. The measure is the set of types not yet in m. */
    method ValidTypeHelper(t: TypeId) returns (ok: bool)
      requires Complete(types) && t in types && m <= types.Keys
      modifies this
      ensures old(m) <= m <= types.Keys && t in m
      ensures ok ==> forall x <- m - old(m) :: Settled(types, m, x)
      ensures !ok ==> !Sendable(types, t)
      decreases types.Keys - m, 1
    {
      if t in m {
        return true;
      }
      assert PartsKnown(types, t);
      m := m + {t};
      if !ValidKind(types[t].kind) {
        ReachSelf(types, t);
        return false;
      }
      match types[t].kind {
        case Array | Slice =>
          ok := ValidTypeHelper(types[t].elem);
          if !ok {
            BadPart(types, t, types[t].elem);
            return false;
          }
        case Map =>
          ok := ValidTypeHelper(types[t].key);
          if !ok {
            BadPart(types, t, types[t].key);
            return false;
          }
          ghost var before := m;
          ok := ValidTypeHelper(types[t].elem);
          if !ok {
            BadPart(types, t, types[t].elem);
            return false;
          }
          forall x <- before - old(m) - {t} ensures Settled(types, m, x) {
            assert Settled(types, before, x);
          }
        case Struct =>
          var fields := types[t].fields;
          for i := 0 to |fields|
            invariant old(m) + {t} <= m <= types.Keys
            invariant forall x <- m - old(m) - {t} :: Settled(types, m, x)
            invariant forall j :: 0 <= j < i ==> fields[j] in m
          {
            assert fields[i] in Parts(types[t]);
            ghost var before := m;
            ok := ValidTypeHelper(fields[i]);
            if !ok {
              BadPart(types, t, fields[i]);
              return false;
            }
            forall x <- m - old(m) - {t} ensures Settled(types, m, x) {
              assert x in before ==> Settled(types, before, x);
            }
          }
        case _ =>
      }
      assert Settled(types, m, t);
      ok := true;
    }
  }

  /** `validType`: nil exactly when every reachable type has a valid kind, on cyclic graphs too. */
  method ValidType(types: Types, t: TypeId) returns (ok: bool)
    requires Complete(types) && t in types
    ensures ok <==> Sendable(types, t)
    ensures ok <==> SendableAsIs(types, t)
  {
    SendableByKind(types, t);
    var search := new Search(types);
    ok := search.ValidTypeHelper(t);
    if ok {
      SettledIsSendable(types, search.m, t);
    }
  }

  // ----- Handlers

  /** What reflection tells about a handler value. */
  datatype Signature = Signature(isFunc: bool, outs: seq<TypeId>, variadic: bool, ins: seq<TypeId>)

  datatype Handler = Handler(args: seq<TypeId>, ret: Option<TypeId>)

  /** The shape getHandler asks for, with the kinds of its table. */
  ghost predicate MeetsTable(types: Types, f: Signature) {
    && f.isFunc && |f.outs| <= 1 && !f.variadic
    && (forall t <- f.outs :: Sendable(types, t))
    && (forall t <- f.ins :: Sendable(types, t))
  }

  /** The kinds the documentation of RegisterHandler rules out: pointers, functions, channels and
      interfaces. An unsafe.Pointer is a pointer. */
  predicate RuledOut(k: Kind) {
    k in {Ptr, UnsafePointer, Func, Chan, Interface}
  }

  /** The requirements that documentation states. */
  ghost predicate Documented(types: Types, f: Signature) {
    && f.isFunc && |f.outs| <= 1 && !f.variadic
    && forall t, x | t in f.outs + f.ins && x in types && Reachable(types, t, x) :: !RuledOut(types[x].kind)
  }

  /** Some argument or result can contain a value of this kind. */
  ghost predicate Mentions(types: Types, f: Signature, k: Kind) {
    exists t, x :: t in f.outs + f.ins && x in types && Reachable(types, t, x) && types[x].kind == k
  }

  lemma MeetsTableAllKinds(types: Types, f: Signature)
    requires f.isFunc && |f.outs| <= 1 && !f.variadic
    ensures MeetsTable(types, f)
       <==> forall t, x | t in f.outs + f.ins && x in types && Reachable(types, t, x) :: ValidKind(types[x].kind)
  {
    if MeetsTable(types, f) {
      forall t, x | t in f.outs + f.ins && x in types && Reachable(types, t, x) ensures ValidKind(types[x].kind) {
        assert Sendable(types, t);
      }
    } else if exists t :: t in f.outs && !Sendable(types, t) {
      var t :| t in f.outs && !Sendable(types, t);
      assert t in f.outs + f.ins;
    } else {
      var t :| t in f.ins && !Sendable(types, t);
      assert t in f.outs + f.ins;
    }
  }

  /** Where the table and the documentation part: of the handlers that meet the table, those that meet the
      documentation are exactly the ones without an unsafe.Pointer; and of those that meet the
      documentation, only one with an invalid kind - which no Go type has - fails the table. */
  lemma TableAgainstDocumentation(types: Types, f: Signature)
    ensures MeetsTable(types, f) ==> (Documented(types, f) <==> !Mentions(types, f, UnsafePointer))
    ensures Documented(types, f) ==> (MeetsTable(types, f) <==> !Mentions(types, f, Kind.Invalid))
  {
    if f.isFunc && |f.outs| <= 1 && !f.variadic {
      MeetsTableAllKinds(types, f);
    }
  }

  /** A handler that takes an unsafe.Pointer is accepted against the documentation. */
  lemma UnsafePointerMeetsTable()
    ensures var types, f := map[0 := Type(UnsafePointer, 0, 0, [])], Signature(true, [], false, [0]);
            Complete(types) && Known(types, f) && MeetsTable(types, f) && !Documented(types, f)
  {
    var types: Types := map[0 := Type(UnsafePointer, 0, 0, [])];
    ReachSelf(types, 0);
    assert 0 in [] + [0];
  }

  /** A handler with an argument that is a map with channels for keys is refused. */
  lemma ChanKeyRefused(types: Types, f: Signature, t: TypeId)
    requires t in f.ins && t in types && types[t].kind == Map && types[t].key in types && types[types[t].key].kind == Chan
    ensures !MeetsTable(types, f)
  {
    SendableByKind(types, t);
    SendableByKind(types, types[t].key);
  }

  predicate Known(types: Types, f: Signature) {
    (forall t <- f.outs :: t in types) && (forall t <- f.ins :: t in types)
  }

  /** The loop of `getHandler` that fills in the argument types. */
  method ArgTypes(types: Types, ins: seq<TypeId>) returns (args: Option<seq<TypeId>>)
    requires Complete(types) && forall t <- ins :: t in types
    ensures args.Some? <==> forall t <- ins :: Sendable(types, t)
    ensures args.Some? ==> args.value == ins
  {
    var filled: seq<TypeId> := [];
    for i := 0 to |ins|
      invariant filled == ins[..i]
      invariant forall j :: 0 <= j < i ==> Sendable(types, ins[j])
    {
      filled := filled + [ins[i]];
      var ok := ValidType(types, ins[i]);
      if !ok {
        return None;
      }
    }
    args := Some(filled);
  }

  lemma TableByKind(types: Types, f: Signature)
    requires Known(types, f)
    ensures MeetsTable(types, f)
       <==> f.isFunc && !f.variadic && |f.outs| < 2 && forall t <- f.outs + f.ins :: SendableAsIs(types, t)
  {
    forall t <- f.outs + f.ins ensures Sendable(types, t) <==> SendableAsIs(types, t) {
      SendableByKind(types, t);
    }
    assert forall t <- f.outs :: t in f.outs + f.ins;
    assert forall t <- f.ins :: t in f.outs + f.ins;
  }

  method GetHandler(types: Types, f: Signature) returns (h: Option<Handler>)
    requires Complete(types) && Known(types, f)
    ensures h.Some? <==> MeetsTable(types, f)
    ensures h.Some? <==> f.isFunc && !f.variadic && |f.outs| < 2 && forall t <- f.outs + f.ins :: SendableAsIs(types, t)
    ensures h.Some? ==> (Documented(types, f) <==> !Mentions(types, f, UnsafePointer))
    ensures h.Some? ==> h.value.args == f.ins && (h.value.ret == if f.outs == [] then None else Some(f.outs[0]))
  {
    TableAgainstDocumentation(types, f);
    TableByKind(types, f);
    if !f.isFunc {
      return None;
    }
    var ret: Option<TypeId> := None;
    if |f.outs| == 1 {
      ret := Some(f.outs[0]);
      var ok := ValidType(types, f.outs[0]);
      if !ok {
        return None;
      }
    } else if |f.outs| > 1 {
      return None;
    }
    if f.variadic {
      return None;
    }
    var args := ArgTypes(types, f.ins);
    if args.None? {
      return None;
    }
    h := Some(Handler(args.value, ret));
  }

  /** The table of registered handlers. A false answer stands for the panic. */
  class Registry {
    var handlers: map<string, Handler>

    constructor ()
      ensures handlers == map[]
    {
      handlers := map[];
    }

    method RegisterHandler(name: string, types: Types, f: Signature) returns (ok: bool)
      requires Complete(types) && Known(types, f)
      modifies this
      ensures ok <==> name !in old(handlers) && MeetsTable(types, f)
      ensures handlers == if ok
                          then old(handlers)[name := Handler(f.ins, if f.outs == [] then None else Some(f.outs[0]))]
                          else old(handlers)
    {
      if name in handlers {
        return false;
      }
      var h := GetHandler(types, f);
      if h.None? {
        return false;
      }
      handlers := handlers[name := h.value];
      ok := true;
    }
  }
}
