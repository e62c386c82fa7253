/** The RPC runtime's lock protocol: any number of concurrent requests, each handler a program of
    micro-steps, one mutex around each call, and a shutdown that takes the mutex for good. */
module Dispatch {

  /** One micro-step of a running handler: go on with a new local state, or return. */
  datatype Next<S, L> = Go(s: S, l: L) | Return(s: S)

  /** The registered handlers as code: which requests name one, how a call starts, its micro-steps,
      and what the finalizer writes. */
  datatype Code<!S, !R, !L> = Code(known: R -> bool, enter: R -> L, step: (S, L) -> Next<S, L>, finalize: S -> string)

  // ----- A handler run on its own

  datatype Config<S, L> = Mid(s: S, l: L) | End(s: S)

  /** Where n uninterrupted micro-steps lead. */
  ghost function Alone<S, R, L>(code: Code<S, R, L>, s: S, l: L, n: nat): Config<S, L> {
    if n == 0 then Mid(s, l)
    else match Alone(code, s, l, n - 1)
      case End(t) => End(t)
      case Mid(t, k) =>
        match code.step(t, k)
        case Go(t', k') => Mid(t', k')
        case Return(t') => End(t')
  }

  /** A handler that goes from each of these local states to the next, leaving the store alone. */
  lemma {:induction false} AloneLoops<S, R, L>(code: Code<S, R, L>, s: S, at: nat -> L, n: nat)
    requires forall i: nat :: code.step(s, at(i)) == Go(s, at(i + 1))
    ensures Alone(code, s, at(0), n) == Mid(s, at(n))
  {
    if n > 0 {
      AloneLoops(code, s, at, n - 1);
    }
  }

  lemma {:induction false} AloneShift<S, R, L>(code: Code<S, R, L>, s: S, l: L, t: S, k: L, n: nat)
    requires code.step(s, l) == Go(t, k)
    ensures Alone(code, s, l, n + 1) == Alone(code, t, k, n)
  {
    if n == 0 {
      assert Alone(code, s, l, 0) == Mid(s, l);
    } else {
      AloneShift(code, s, l, t, k, n - 1);
    }
  }

  /** Whenever a handler run on its own returns, the store is the one `big` says. */
  ghost predicate Implements<S(!new), R(!new), L(!new)>(code: Code<S, R, L>, big: (S, R) -> S) {
    forall s, r, n: nat | code.known(r) && Alone(code, s, code.enter(r), n).End? :: Alone(code, s, code.enter(r), n).s == big(s, r)
  }

  ghost function Serial<S, R>(big: (S, R) -> S, s: S, requests: seq<R>): S
    decreases |requests|
  {
    if requests == [] then s else big(Serial(big, s, requests[..|requests| - 1]), requests[|requests| - 1])
  }

  // ----- The concurrent server

  datatype Thread<R, L> = Waiting(req: R) | Running(l: L) | Answered

  /** invokeMtx: free, held by the call of a thread, or taken by the shutdown and never released. */
  datatype Lock = Free | Held(thread: nat) | Shut

  /** `log` and `ticks` only record: the requests in the order they took the lock, and how many
      micro-steps the latest has made. */
  datatype World<S, R, L> = World(
    store: S,
    lock: Lock,
    threads: map<nat, Thread<R, L>>,
    finalized: bool,
    file: string,
    log: seq<R>,
    ticks: nat)

  datatype Event<R> = Arrive(thread: nat, req: R) | Acquire(thread: nat) | Micro(thread: nat) | Shutdown | Finalize

  function Boot<S, R, L>(s: S, file: string): World<S, R, L> {
    World(s, Free, map[], false, file, [], 0)
  }

  /** Any enabled event may come next; a disabled one changes nothing. A running handler steps without
      looking at the lock: that nobody else runs is proved, not assumed. */
  ghost function Happen<S, R, L>(code: Code<S, R, L>, w: World<S, R, L>, e: Event<R>): World<S, R, L> {
    match e
    case Arrive(t, r) =>
      if t in w.threads then w else w.(threads := w.threads[t := Waiting(r)])
    case Acquire(t) =>
      if w.lock.Free? && t in w.threads && w.threads[t].Waiting? then
        var r := w.threads[t].req;
        if code.known(r)
        then w.(lock := Held(t), threads := w.threads[t := Running(code.enter(r))], log := w.log + [r], ticks := 0)
        else w.(threads := w.threads[t := Answered])
      else w
    case Micro(t) =>
      if t in w.threads && w.threads[t].Running? then
        match code.step(w.store, w.threads[t].l)
        case Go(s, l) => w.(store := s, threads := w.threads[t := Running(l)], ticks := w.ticks + 1)
        case Return(s) => w.(store := s, threads := w.threads[t := Answered], lock := Free)
      else w
    case Shutdown => if w.lock.Free? then w.(lock := Shut) else w
    case Finalize => if w.lock.Shut? && !w.finalized then w.(finalized := true, file := code.finalize(w.store)) else w
  }

  ghost function HappenAll<S, R, L>(code: Code<S, R, L>, w: World<S, R, L>, events: seq<Event<R>>): World<S, R, L>
    decreases |events|
  {
    if events == [] then w
    else Happen(code, HappenAll(code, w, events[..|events| - 1]), events[|events| - 1])
  }

  // ----- The invariant

  /** Only the holder of the lock runs. */
  predicate Exclusive<S, R, L>(w: World<S, R, L>) {
    forall t <- w.threads :: w.threads[t].Running? ==> w.lock == Held(t)
  }

  /** While a call holds the lock, the store is where that handler, run on its own from the serial
      state before it, would be; otherwise it is the serial state of the whole log. */
  ghost predicate InStep<S, R, L>(code: Code<S, R, L>, big: (S, R) -> S, s0: S, w: World<S, R, L>) {
    match w.lock
    case Held(t) =>
      && t in w.threads && w.threads[t].Running? && w.log != []
      && var n := |w.log| - 1;
      && code.known(w.log[n])
      && Alone(code, Serial(big, s0, w.log[..n]), code.enter(w.log[n]), w.ticks) == Mid(w.store, w.threads[t].l)
    case _ => w.store == Serial(big, s0, w.log)
  }

  predicate Persisted<S, R, L>(code: Code<S, R, L>, w: World<S, R, L>) {
    w.finalized ==> w.lock.Shut? && w.file == code.finalize(w.store)
  }

  ghost predicate Good<S, R, L>(code: Code<S, R, L>, big: (S, R) -> S, s0: S, w: World<S, R, L>) {
    Exclusive(w) && InStep(code, big, s0, w) && Persisted(code, w)
  }

  lemma AcquireGood<S(!new), R(!new), L(!new)>(code: Code<S, R, L>, big: (S, R) -> S, s0: S, w: World<S, R, L>, t: nat)
    requires Good(code, big, s0, w)
    ensures Good(code, big, s0, Happen(code, w, Acquire(t)))
  {
    if w.lock.Free? && t in w.threads && w.threads[t].Waiting? && code.known(w.threads[t].req) {
      var r := w.threads[t].req;
      assert (w.log + [r])[..|w.log|] == w.log;
    }
  }

  lemma MicroGood<S(!new), R(!new), L(!new)>(code: Code<S, R, L>, big: (S, R) -> S, s0: S, w: World<S, R, L>, t: nat)
    requires Implements(code, big) && Good(code, big, s0, w)
    ensures Good(code, big, s0, Happen(code, w, Micro(t)))
  {
    if t in w.threads && w.threads[t].Running? {
      assert w.lock == Held(t);
      var n := |w.log| - 1;
      var s, r := Serial(big, s0, w.log[..n]), w.log[n];
      assert Alone(code, s, code.enter(r), w.ticks) == Mid(w.store, w.threads[t].l);
      var next := Alone(code, s, code.enter(r), w.ticks + 1);
      if next.End? {
        assert next.s == big(s, r);
      }
    }
  }

  lemma HappenGood<S(!new), R(!new), L(!new)>(code: Code<S, R, L>, big: (S, R) -> S, s0: S, w: World<S, R, L>, e: Event<R>)
    requires Implements(code, big) && Good(code, big, s0, w)
    ensures Good(code, big, s0, Happen(code, w, e))
  {
    match e
    case Acquire(t) => AcquireGood(code, big, s0, w, t);
    case Micro(t) => MicroGood(code, big, s0, w, t);
    case _ =>
  }

  lemma {:induction false} AlwaysGood<S(!new), R(!new), L(!new)>(code: Code<S, R, L>, big: (S, R) -> S, s0: S, file: string, events: seq<Event<R>>)
    requires Implements(code, big)
    ensures Good(code, big, s0, HappenAll(code, Boot(s0, file), events))
    decreases |events|
  {
    if events != [] {
      var n := |events| - 1;
      AlwaysGood(code, big, s0, file, events[..n]);
      HappenGood(code, big, s0, HappenAll(code, Boot(s0, file), events[..n]), events[n]);
    }
  }

  // ----- Theorems

  /** Two handlers never run at once, and whenever no call holds the lock, the store is that of the
      requests executed one after the other in the order they took it. */
  lemma Serialisable<S(!new), R(!new), L(!new)>(code: Code<S, R, L>, big: (S, R) -> S, s0: S, file: string, events: seq<Event<R>>)
    requires Implements(code, big)
    ensures var w := HappenAll(code, Boot(s0, file), events);
            && (forall t, u | t in w.threads && u in w.threads && w.threads[t].Running? && w.threads[u].Running? :: t == u)
            && (!w.lock.Held? ==> w.store == Serial(big, s0, w.log))
  {
    AlwaysGood(code, big, s0, file, events);
    var w := HappenAll(code, Boot(s0, file), events);
    forall t, u | t in w.threads && u in w.threads && w.threads[t].Running? && w.threads[u].Running? ensures t == u {
      assert w.lock == Held(t) && w.lock == Held(u);
    }
  }

  lemma {:induction false} HappenAllAppend<S, R, L>(code: Code<S, R, L>, w: World<S, R, L>, a: seq<Event<R>>, b: seq<Event<R>>)
    ensures HappenAll(code, w, a + b) == HappenAll(code, HappenAll(code, w, a), b)
    decreases |b|
  {
    if b == [] {
      assert a + b == a;
    } else {
      var n := |b| - 1;
      HappenAllAppend(code, w, a, b[..n]);
      assert (a + b)[..|a + b| - 1] == a + b[..n];
    }
  }

  /** Once the shutdown has the lock no handler steps, and once the finalizer has run nothing changes
      what it wrote. */
  lemma {:induction false} NothingAfterShutdown<S(!new), R(!new), L(!new)>(
      code: Code<S, R, L>, big: (S, R) -> S, s0: S, file: string, before: seq<Event<R>>, after: seq<Event<R>>)
    requires Implements(code, big)
    requires HappenAll(code, Boot(s0, file), before).lock.Shut?
    ensures var w, v := HappenAll(code, Boot(s0, file), before), HappenAll(code, Boot(s0, file), before + after);
            && v.lock.Shut? && v.store == w.store && v.log == w.log
            && (w.finalized ==> v.finalized && v.file == w.file)
            && (v.finalized ==> v.file == code.finalize(w.store))
    decreases |after|
  {
    AlwaysGood(code, big, s0, file, before);
    if after == [] {
      assert before + after == before;
    } else {
      var n := |after| - 1;
      NothingAfterShutdown(code, big, s0, file, before, after[..n]);
      assert (before + after)[..|before + after| - 1] == before + after[..n];
      AlwaysGood(code, big, s0, file, before + after[..n]);
      AlwaysGood(code, big, s0, file, before + after);
    }
  }

  // ----- Progress

  function Micros<R>(t: nat, n: nat): seq<Event<R>> {
    seq(n, _ => Micro(t))
  }

  /** One micro-step of a thread that runs and does not return. */
  lemma OneMicro<S, R, L>(code: Code<S, R, L>, w: World<S, R, L>, v: World<S, R, L>, t: nat)
    requires t in v.threads && v.threads[t].Running? && code.step(v.store, v.threads[t].l).Go?
    requires v.threads == w.threads[t := v.threads[t]]
    ensures var next := code.step(v.store, v.threads[t].l);
            Happen(code, v, Micro(t)) == v.(store := next.s, threads := w.threads[t := Running(next.l)], ticks := v.ticks + 1)
  {
  }

  /** The world after n more micro-steps of a call that has not returned by then. */
  lemma {:induction false} MicrosStep<S, R, L>(code: Code<S, R, L>, w: World<S, R, L>, t: nat, n: nat)
    requires t in w.threads && w.threads[t].Running? && Alone(code, w.store, w.threads[t].l, n).Mid?
    ensures var c := Alone(code, w.store, w.threads[t].l, n);
            HappenAll(code, w, Micros(t, n)) == w.(store := c.s, threads := w.threads[t := Running(c.l)], ticks := w.ticks + n)
  {
    if n == 0 {
      assert w.threads[t := w.threads[t]] == w.threads;
    } else {
      MicrosStep(code, w, t, n - 1);
      assert Micros<R>(t, n)[..n - 1] == Micros(t, n - 1) && Micros<R>(t, n)[n - 1] == Micro(t);
      OneMicro(code, w, HappenAll(code, w, Micros(t, n - 1)), t);
    }
  }

  /** The micro-steps of a call to its end release the lock. */
  lemma MicrosReturn<S, R, L>(code: Code<S, R, L>, w: World<S, R, L>, t: nat, n: nat)
    requires t in w.threads && w.threads[t].Running?
    requires Alone(code, w.store, w.threads[t].l, n).Mid? && Alone(code, w.store, w.threads[t].l, n + 1).End?
    ensures HappenAll(code, w, Micros(t, n + 1))
         == w.(store := Alone(code, w.store, w.threads[t].l, n + 1).s, threads := w.threads[t := Answered], lock := Free, ticks := w.ticks + n)
  {
    MicrosStep(code, w, t, n);
    assert Micros<R>(t, n + 1)[..n] == Micros(t, n);
  }

  /** A call that returns has a last micro-step. */
  lemma {:induction false} LastStep<S, R, L>(code: Code<S, R, L>, s: S, l: L, n: nat) returns (m: nat)
    requires Alone(code, s, l, n).End?
    ensures m < n && Alone(code, s, l, m).Mid? && Alone(code, s, l, m + 1) == Alone(code, s, l, n)
  {
    if Alone(code, s, l, n - 1).Mid? {
      m := n - 1;
    } else {
      m := LastStep(code, s, l, n - 1);
    }
  }

  lemma {:induction false} AloneSplit<S, R, L>(code: Code<S, R, L>, s: S, l: L, m: nat, n: nat)
    requires Alone(code, s, l, m).Mid?
    ensures Alone(code, s, l, m + n) == Alone(code, Alone(code, s, l, m).s, Alone(code, s, l, m).l, n)
  {
    if n > 0 {
      AloneSplit(code, s, l, m, n - 1);
    }
  }

  lemma {:induction false} StaysEnded<S, R, L>(code: Code<S, R, L>, s: S, l: L, m: nat, n: nat)
    requires Alone(code, s, l, m).End? && m <= n
    ensures Alone(code, s, l, n) == Alone(code, s, l, m)
  {
    if m < n {
      StaysEnded(code, s, l, m, n - 1);
    }
  }

  /** A request that arrives waits, and changes nothing else. */
  lemma ArrivalWaits<S, R, L>(code: Code<S, R, L>, w: World<S, R, L>, t: nat, r: R)
    ensures t !in w.threads ==> HappenAll(code, w, [Arrive(t, r)]) == w.(threads := w.threads[t := Waiting(r)])
  {
    assert HappenAll(code, w, [Arrive(t, r)][..0]) == w;
  }

  /** With the lock free, a waiting request that names a handler and returns is served: it takes the lock,
      goes to the log, its micro-steps make the store what the handler alone makes of it, and the lock is
      free again. No other thread is touched. */
  lemma Served<S, R, L>(code: Code<S, R, L>, w: World<S, R, L>, t: nat, n: nat)
    requires w.lock.Free? && t in w.threads && w.threads[t].Waiting? && code.known(w.threads[t].req)
    requires var l := code.enter(w.threads[t].req); Alone(code, w.store, l, n).Mid? && Alone(code, w.store, l, n + 1).End?
    ensures var r := w.threads[t].req;
            HappenAll(code, w, [Acquire(t)] + Micros(t, n + 1)) ==
              w.(store := Alone(code, w.store, code.enter(r), n + 1).s, threads := w.threads[t := Answered], log := w.log + [r], ticks := n)
  {
    var v := HappenAll(code, w, [Acquire(t)]);
    assert HappenAll(code, w, [Acquire(t)][..0]) == w;
    MicrosReturn(code, v, t, n);
    HappenAllAppend(code, w, [Acquire(t)], Micros(t, n + 1));
    assert v.threads[t := Answered] == w.threads[t := Answered];
  }

  /** One that names no handler is answered with the lock taken and released, and nothing runs. */
  lemma UnknownAnswered<S, R, L>(code: Code<S, R, L>, w: World<S, R, L>, t: nat)
    requires w.lock.Free? && t in w.threads && w.threads[t].Waiting? && !code.known(w.threads[t].req)
    ensures HappenAll(code, w, [Acquire(t)]) == w.(threads := w.threads[t := Answered])
  {
    assert HappenAll(code, w, [Acquire(t)][..0]) == w;
  }

  /** The call that has the lock, if it returns, gives it back, with the store the handler alone would
      have made from where it took it. */
  lemma HolderReturns<S(!new), R(!new), L(!new)>(code: Code<S, R, L>, big: (S, R) -> S, s0: S, w: World<S, R, L>, end: nat)
    returns (n: nat)
    requires Good(code, big, s0, w) && w.lock.Held? && w.log != []
    requires var k := |w.log| - 1; Alone(code, Serial(big, s0, w.log[..k]), code.enter(w.log[k]), end).End?
    ensures var k, t, v := |w.log| - 1, w.lock.thread, HappenAll(code, w, Micros(w.lock.thread, n));
            && v.lock.Free? && v.log == w.log && v.threads == w.threads[t := Answered] && v.finalized == w.finalized
            && v.store == Alone(code, Serial(big, s0, w.log[..k]), code.enter(w.log[k]), end).s
  {
    var k, t := |w.log| - 1, w.lock.thread;
    var s, l := Serial(big, s0, w.log[..k]), code.enter(w.log[k]);
    if end <= w.ticks {
      StaysEnded(code, s, l, end, w.ticks);
    }
    AloneSplit(code, s, l, w.ticks, end - w.ticks);
    var m := LastStep(code, w.store, w.threads[t].l, end - w.ticks);
    MicrosReturn(code, w, t, m);
    n := m + 1;
  }

  /** The last call to take the lock, if it has it still, returns within so many micro-steps. */
  ghost predicate HolderEnds<S, R, L>(code: Code<S, R, L>, big: (S, R) -> S, s0: S, w: World<S, R, L>, end: nat) {
    w.lock.Held? && w.log != [] ==>
      var k := |w.log| - 1;
      Alone(code, Serial(big, s0, w.log[..k]), code.enter(w.log[k]), end).End?
  }

  /** The lock comes free by micro-steps of its holder alone, with the serial store of the whole log. */
  lemma LockComesFree<S(!new), R(!new), L(!new)>(code: Code<S, R, L>, big: (S, R) -> S, s0: S, w: World<S, R, L>, end: nat)
    returns (micros: seq<Event<R>>)
    requires Implements(code, big) && Good(code, big, s0, w) && !w.lock.Shut? && HolderEnds(code, big, s0, w, end)
    ensures var v := HappenAll(code, w, micros);
            && v.lock.Free? && v.log == w.log && v.finalized == w.finalized && v.store == Serial(big, s0, w.log)
            && forall u | u in w.threads && w.threads[u].Waiting? :: u in v.threads && v.threads[u] == w.threads[u]
  {
    if w.lock.Free? {
      micros := [];
    } else {
      var n := HolderReturns(code, big, s0, w, end);
      micros := Micros(w.lock.thread, n);
    }
  }

  /** From w to v the request of thread t was executed last, with this store; whoever else waited still does. */
  predicate ServedLast<S(==), R(==), L(==)>(w: World<S, R, L>, t: nat, r: R, store: S, v: World<S, R, L>) {
    && t in v.threads && v.threads[t].Answered? && v.lock.Free?
    && v.log == w.log + [r] && v.store == store
    && forall u | u in w.threads && u != t && w.threads[u].Waiting? :: u in v.threads && v.threads[u] == w.threads[u]
  }

  /** A request that waits on a free lock, and returns, is executed. */
  lemma WaiterServed<S, R, L>(code: Code<S, R, L>, w: World<S, R, L>, t: nat, end: nat) returns (events: seq<Event<R>>)
    requires w.lock.Free? && t in w.threads && w.threads[t].Waiting? && code.known(w.threads[t].req)
    requires Alone(code, w.store, code.enter(w.threads[t].req), end).End?
    ensures var r := w.threads[t].req;
            ServedLast(w, t, r, Alone(code, w.store, code.enter(r), end).s, HappenAll(code, w, events))
  {
    var n := LastStep(code, w.store, code.enter(w.threads[t].req), end);
    Served(code, w, t, n);
    events := [Acquire(t)] + Micros(t, n + 1);
  }

  /** A request that arrives while the server is not shut is executed, when it and the holder of the lock
      return: its arrival, micro-steps of the holder and its own make it the last in the log, and the
      store that of the serial execution. */
  lemma ArrivalServed<S(!new), R(!new), L(!new)>(
      code: Code<S, R, L>, big: (S, R) -> S, s0: S, w: World<S, R, L>, t: nat, r: R, holder: nat, own: nat)
    returns (after: seq<Event<R>>)
    requires Implements(code, big) && Good(code, big, s0, w) && !w.lock.Shut? && HolderEnds(code, big, s0, w, holder)
    requires t !in w.threads && code.known(r) && Alone(code, Serial(big, s0, w.log), code.enter(r), own).End?
    ensures ServedLast(w, t, r, Serial(big, s0, w.log + [r]), HappenAll(code, w, [Arrive(t, r)] + after))
  {
    var w1 := HappenAll(code, w, [Arrive(t, r)]);
    ArrivalWaits(code, w, t, r);
    HappenGood(code, big, s0, w, Arrive(t, r));
    assert w1 == Happen(code, w, Arrive(t, r));
    var micros := LockComesFree(code, big, s0, w1, holder);
    var v := HappenAll(code, w1, micros);
    var events := WaiterServed(code, v, t, own);
    HappenAllAppend(code, w1, micros, events);
    after := micros + events;
    HappenAllAppend(code, w, [Arrive(t, r)], after);
    assert (w.log + [r])[..|w.log|] == w.log;
  }

  /** With the lock free the server can be shut down: the finalizer runs once, on the store as it is. */
  lemma ShutsDown<S, R, L>(code: Code<S, R, L>, w: World<S, R, L>)
    requires w.lock.Free? && !w.finalized
    ensures HappenAll(code, w, [Shutdown, Finalize]) == w.(lock := Shut, finalized := true, file := code.finalize(w.store))
  {
    var both: seq<Event<R>>, first: seq<Event<R>> := [Shutdown, Finalize], [Shutdown];
    assert both[..1] == first && first[..0] == [];
  }

  /** The call goes on for ever and leaves the store alone. */
  ghost predicate NeverReturns<S, R, L>(code: Code<S, R, L>, s: S, r: R) {
    forall n: nat :: Alone(code, s, code.enter(r), n).Mid? && Alone(code, s, code.enter(r), n).s == s
  }

  /** The call that took the lock last never returns. */
  ghost predicate Hung<S, R, L>(code: Code<S, R, L>, big: (S, R) -> S, s0: S, w: World<S, R, L>) {
    w.lock.Held? && w.log != [] && NeverReturns(code, Serial(big, s0, w.log[..|w.log| - 1]), w.log[|w.log| - 1])
  }

  lemma StillHung<S(!new), R(!new), L(!new)>(code: Code<S, R, L>, big: (S, R) -> S, s0: S, w: World<S, R, L>, e: Event<R>)
    requires Implements(code, big) && Good(code, big, s0, w) && Hung(code, big, s0, w)
    ensures var v := Happen(code, w, e);
            v.lock == w.lock && v.log == w.log && !v.finalized && v.store == Serial(big, s0, w.log[..|w.log| - 1])
  {
    assert Alone(code, Serial(big, s0, w.log[..|w.log| - 1]), code.enter(w.log[|w.log| - 1]), w.ticks).Mid?;
    assert Alone(code, Serial(big, s0, w.log[..|w.log| - 1]), code.enter(w.log[|w.log| - 1]), w.ticks + 1).Mid?;
  }

  /** A call that never returns keeps the lock: no other request takes it, and no shutdown does. */
  lemma {:induction false} NeverReleased<S(!new), R(!new), L(!new)>(
      code: Code<S, R, L>, big: (S, R) -> S, s0: S, file: string, before: seq<Event<R>>, after: seq<Event<R>>)
    requires Implements(code, big)
    requires Hung(code, big, s0, HappenAll(code, Boot(s0, file), before))
    ensures var w, v := HappenAll(code, Boot(s0, file), before), HappenAll(code, Boot(s0, file), before + after);
            v.lock == w.lock && v.log == w.log && !v.finalized && v.store == Serial(big, s0, w.log[..|w.log| - 1])
    decreases |after|
  {
    var w := HappenAll(code, Boot(s0, file), before);
    AlwaysGood(code, big, s0, file, before);
    if after == [] {
      assert before + after == before;
      assert Alone(code, Serial(big, s0, w.log[..|w.log| - 1]), code.enter(w.log[|w.log| - 1]), w.ticks).Mid?;
    } else {
      var n := |after| - 1;
      NeverReleased(code, big, s0, file, before, after[..n]);
      assert (before + after)[..|before + after| - 1] == before + after[..n];
      AlwaysGood(code, big, s0, file, before + after[..n]);
      StillHung(code, big, s0, HappenAll(code, Boot(s0, file), before + after[..n]), after[n]);
    }
  }

  function Requests<R>(events: seq<Event<R>>): set<R> {
    set e | e in events && e.Arrive? :: e.req
  }

  /** Every request that took the lock had arrived. */
  lemma {:induction false} LogArrived<S, R, L>(code: Code<S, R, L>, s0: S, file: string, events: seq<Event<R>>)
    ensures var w := HappenAll(code, Boot(s0, file), events);
            && (forall r <- w.log :: r in Requests(events))
            && (forall t <- w.threads :: w.threads[t].Waiting? ==> w.threads[t].req in Requests(events))
    decreases |events|
  {
    if events != [] {
      var n := |events| - 1;
      LogArrived(code, s0, file, events[..n]);
      assert forall e <- events[..n] :: e in events;
      assert Requests(events[..n]) <= Requests(events);
      assert events[n].Arrive? ==> events[n].req in Requests(events);
    }
  }
}
