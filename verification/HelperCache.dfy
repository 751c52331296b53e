/**
 The helper's server port, cached for all threads: any number of threads open the helper at once, each
 reading the cached port without the lock and replacing it, under the lock, once it proved invalid.
 Ports are names, 0 being none.
 */
module HelperCache {
  import opened Options

  datatype Outcome = Success | InvalidDest | OtherError

  datatype Event = Tried(t: nat, port: nat, outcome: Outcome) | Looked(t: nat, port: nat) | Dropped(t: nat, port: nat)

  /** Where a thread is in `_SCHelperOpen`, and the port it has in hand. */
  datatype Pc =
    | Start
    | Have(server: nat)
    | Failed(server: nat)
    | Inside(server: nat)
    | Emptied(server: nat)
    | Settled
    | Finished(outcome: Outcome)
    | GaveUp

  type Threads = map<nat, Pc>

  function PcOf(threads: Threads, t: nat): Pc {
    if t in threads then threads[t] else Start
  }

  datatype State = State(cached: nat, lock: Option<nat>, threads: Threads, log: seq<Event>) {
    function At(t: nat): Pc {
      PcOf(threads, t)
    }

    function Move(t: nat, pc: Pc): State {
      this.(threads := threads[t := pc])
    }

    function Note(e: Event): State {
      this.(log := log + [e])
    }
  }

  /** What a thread does next, with what the outside world answers: a lookup that finds 0 failed. */
  datatype Action =
    | Begin(t: nat)
    | Attempt(t: nat, outcome: Outcome)
    | Lock(t: nat)
    | Drop(t: nat)
    | Lookup(t: nat, found: nat)
    | Leave(t: nat)

  const INIT := State(0, None, map[], [])

  /** One step; an action that is not the thread's next one changes nothing. */
  function Next(s: State, a: Action): State {
    match a
    case Begin(t) => if s.At(t).Start? then s.Move(t, Have(s.cached)) else s
    case Attempt(t, outcome) =>
      if !s.At(t).Have? then s
      else
        var server := s.At(t).server;
        if server == 0 then s.Move(t, Failed(0))
        else
          s.Note(Tried(t, server, outcome)).Move(t, if outcome == InvalidDest then Failed(server) else Finished(outcome))
    case Lock(t) =>
      if s.At(t).Failed? && s.lock == None then s.(lock := Some(t)).Move(t, Inside(s.At(t).server)) else s
    case Drop(t) =>
      if s.At(t).Inside? && s.cached != 0 && s.At(t).server == s.cached then
        s.Note(Dropped(t, s.cached)).Move(t, Emptied(s.cached))
      else s
    case Lookup(t, found) =>
      if (s.At(t).Inside? && s.cached == 0) || s.At(t).Emptied? then
        s.Note(Looked(t, found)).(cached := found).Move(t, Settled)
      else s
    case Leave(t) =>
      if s.At(t).Settled? || (s.At(t).Inside? && s.cached != 0 && s.At(t).server != s.cached) then
        s.(lock := None).Move(t, if s.cached == 0 then GaveUp else Have(s.cached))
      else s
  }

  function Run(s: State, actions: seq<Action>): State {
    if actions == [] then s else Next(Run(s, actions[..|actions| - 1]), actions[|actions| - 1])
  }

  // ----- counting rights

  /** How often a lookup found this port. */
  function LookedUp(log: seq<Event>, p: nat): nat {
    if log == [] then 0
    else
      var n := |log| - 1;
      LookedUp(log[..n], p) + if log[n].Looked? && log[n].port == p then 1 else 0
  }

  /** How often this port was deallocated. */
  function Deallocated(log: seq<Event>, p: nat): nat {
    if log == [] then 0
    else
      var n := |log| - 1;
      Deallocated(log[..n], p) + if log[n].Dropped? && log[n].port == p then 1 else 0
  }

  lemma CountNext(log: seq<Event>, e: Event, p: nat)
    ensures LookedUp(log + [e], p) == LookedUp(log, p) + if e.Looked? && e.port == p then 1 else 0
    ensures Deallocated(log + [e], p) == Deallocated(log, p) + if e.Dropped? && e.port == p then 1 else 0
  {
    assert (log + [e])[..|log|] == log;
  }

  lemma {:induction false} LookedUpIsLogged(log: seq<Event>, p: nat)
    requires LookedUp(log, p) > 0
    ensures exists i :: 0 <= i < |log| && log[i].Looked? && log[i].port == p
  {
    var n := |log| - 1;
    if !(log[n].Looked? && log[n].port == p) {
      LookedUpIsLogged(log[..n], p);
      var i :| 0 <= i < n && log[..n][i].Looked? && log[..n][i].port == p;
      assert log[i].Looked? && log[i].port == p;
    }
  }

  // ----- the invariant

  ghost predicate Critical(pc: Pc) {
    pc.Inside? || pc.Emptied? || pc.Settled?
  }

  /** The thread in the critical section is the one that holds the lock. */
  ghost predicate Exclusive(s: State) {
    forall t: nat :: Critical(s.At(t)) <==> s.lock == Some(t)
  }

  /** The cached port was deallocated and is not replaced yet. */
  ghost predicate Stale(s: State) {
    s.lock.Some? && s.At(s.lock.value).Emptied?
  }

  /** Of each port, exactly the cached one is held, once. */
  ghost predicate Balanced(s: State) {
    (Stale(s) ==> s.cached != 0) && forall p :: p != 0 ==> BalancedAt(s, p)
  }

  ghost predicate BalancedAt(s: State, p: nat) {
    LookedUp(s.log, p) == Deallocated(s.log, p) + if s.cached == p && !Stale(s) then 1 else 0
  }

  ghost predicate Consistent(s: State) {
    Exclusive(s) && Balanced(s)
  }

  lemma StepExclusive(s: State, a: Action)
    requires Exclusive(s)
    ensures Exclusive(Next(s, a))
  {
    var s' := Next(s, a);
    forall t: nat ensures Critical(s'.At(t)) <==> s'.lock == Some(t) {
      assert Critical(s.At(t)) <==> s.lock == Some(t);
      assert Critical(s.At(a.t)) <==> s.lock == Some(a.t);
    }
  }

  lemma StepBalanced(s: State, a: Action)
    requires Consistent(s)
    ensures Balanced(Next(s, a))
  {
    StepExclusive(s, a);
    assert Critical(s.At(a.t)) <==> s.lock == Some(a.t);
    forall p | p != 0 ensures BalancedAt(Next(s, a), p) {
      assert BalancedAt(s, p);
      match a
      case Begin(t) =>
      case Attempt(t, outcome) => AttemptBalanced(s, t, outcome, p);
      case Lock(t) =>
      case Drop(t) => DropBalanced(s, t, p);
      case Lookup(t, found) => LookupBalanced(s, t, found, p);
      case Leave(t) =>
    }
  }

  lemma AttemptBalanced(s: State, t: nat, outcome: Outcome, p: nat)
    requires Consistent(s) && p != 0 && BalancedAt(s, p)
    ensures BalancedAt(Next(s, Attempt(t, outcome)), p)
  {
    if s.At(t).Have? {
      assert !Critical(s.At(t));
      CountNext(s.log, Tried(t, s.At(t).server, outcome), p);
    }
  }

  lemma DropBalanced(s: State, t: nat, p: nat)
    requires Consistent(s) && p != 0 && BalancedAt(s, p)
    ensures BalancedAt(Next(s, Drop(t)), p)
  {
    if s.At(t).Inside? {
      assert Critical(s.At(t));
      CountNext(s.log, Dropped(t, s.cached), p);
    }
  }

  lemma LookupBalanced(s: State, t: nat, found: nat, p: nat)
    requires Consistent(s) && p != 0 && BalancedAt(s, p)
    ensures BalancedAt(Next(s, Lookup(t, found)), p)
  {
    if s.At(t).Inside? || s.At(t).Emptied? {
      assert Critical(s.At(t));
      CountNext(s.log, Looked(t, found), p);
    }
  }

  lemma {:induction false} RunConsistent(actions: seq<Action>)
    ensures Consistent(Run(INIT, actions))
  {
    if actions != [] {
      var before := actions[..|actions| - 1];
      RunConsistent(before);
      StepExclusive(Run(INIT, before), actions[|actions| - 1]);
      StepBalanced(Run(INIT, before), actions[|actions| - 1]);
    }
  }

  /**
   In every interleaving: at most one thread is in the critical section; while the lock is free, each
   port was looked up as often as it was deallocated, but for the cached one, which is held once.
   */
  lemma RightsAreBalanced(actions: seq<Action>)
    ensures var s := Run(INIT, actions);
            && (forall t: nat, u: nat :: Critical(s.At(t)) && Critical(s.At(u)) ==> t == u)
            && (s.lock == None ==> forall p :: p != 0 ==>
                  LookedUp(s.log, p) - Deallocated(s.log, p) == if s.cached == p then 1 else 0)
            && (forall p :: p != 0 ==> Deallocated(s.log, p) <= LookedUp(s.log, p) <= Deallocated(s.log, p) + 1)
  {
    var s := Run(INIT, actions);
    RunConsistent(actions);
    forall p | p != 0
      ensures Deallocated(s.log, p) <= LookedUp(s.log, p) <= Deallocated(s.log, p) + 1
      ensures s.lock == None ==> LookedUp(s.log, p) - Deallocated(s.log, p) == if s.cached == p then 1 else 0
    {
      assert BalancedAt(s, p);
    }
    forall t: nat, u: nat | Critical(s.At(t)) && Critical(s.At(u)) ensures t == u {
      assert s.lock == Some(t) && s.lock == Some(u);
    }
  }

  // ----- who deallocates what

  ghost predicate FoundBefore(log: seq<Event>, p: nat, i: nat) {
    exists l :: 0 <= l < i && l < |log| && log[l].Looked? && log[l].port == p
  }

  /** A failed attempt of thread t on port p, which some lookup had found by then. */
  ghost predicate FailedAttempt(log: seq<Event>, t: nat, p: nat, i: nat) {
    i < |log| && log[i] == Tried(t, p, InvalidDest) && FoundBefore(log, p, i)
  }

  ghost predicate HasFailed(log: seq<Event>, t: nat, p: nat) {
    exists i :: 0 <= i < |log| && FailedAttempt(log, t, p, i)
  }

  /** The port in a thread's hand was found by a lookup, and once refused was tried by the thread itself. */
  ghost predicate Grounded(log: seq<Event>, t: nat, pc: Pc) {
    match pc
    case Have(p) => p != 0 ==> FoundBefore(log, p, |log|)
    case Failed(p) => p != 0 ==> HasFailed(log, t, p)
    case Inside(p) => p != 0 ==> HasFailed(log, t, p)
    case _ => true
  }

  ghost predicate DropGrounded(log: seq<Event>, d: nat)
    requires d < |log|
  {
    log[d].Dropped? ==> exists i :: 0 <= i < d && FailedAttempt(log, log[d].t, log[d].port, i)
  }

  ghost predicate AllGrounded(cached: nat, threads: Threads, log: seq<Event>) {
    && (cached != 0 ==> FoundBefore(log, cached, |log|))
    && (forall t: nat :: Grounded(log, t, PcOf(threads, t)))
    && (forall d :: 0 <= d < |log| ==> DropGrounded(log, d))
  }

  lemma FoundStays(log: seq<Event>, e: Event, p: nat, i: nat)
    requires FoundBefore(log, p, i)
    ensures FoundBefore(log + [e], p, i) && FoundBefore(log + [e], p, i + 1)
  {
    var l :| 0 <= l < i && l < |log| && log[l].Looked? && log[l].port == p;
    assert (log + [e])[l] == log[l];
  }

  lemma FailedStays(log: seq<Event>, e: Event, t: nat, p: nat, i: nat)
    requires FailedAttempt(log, t, p, i)
    ensures FailedAttempt(log + [e], t, p, i)
  {
    FoundStays(log, e, p, i);
  }

  lemma GroundedStays(log: seq<Event>, e: Event, t: nat, pc: Pc)
    requires Grounded(log, t, pc)
    ensures Grounded(log + [e], t, pc)
  {
    if (pc.Failed? || pc.Inside?) && pc.server != 0 {
      var i :| 0 <= i < |log| && FailedAttempt(log, t, pc.server, i);
      FailedStays(log, e, t, pc.server, i);
    }
    if pc.Have? && pc.server != 0 { FoundStays(log, e, pc.server, |log|); }
  }

  lemma DropStays(log: seq<Event>, e: Event, d: nat)
    requires d < |log| && DropGrounded(log, d)
    ensures DropGrounded(log + [e], d)
  {
    if log[d].Dropped? {
      var i :| 0 <= i < d && FailedAttempt(log, log[d].t, log[d].port, i);
      FailedStays(log, e, log[d].t, log[d].port, i);
    }
  }

  lemma NewDropGrounded(log: seq<Event>, t: nat, p: nat)
    requires HasFailed(log, t, p)
    ensures DropGrounded(log + [Dropped(t, p)], |log|)
  {
    var i :| 0 <= i < |log| && FailedAttempt(log, t, p, i);
    FailedStays(log, Dropped(t, p), t, p, i);
  }

  /** An event keeps everything grounded; a thread deallocates only what it failed on. */
  lemma NoteGrounded(cached: nat, threads: Threads, log: seq<Event>, e: Event)
    requires AllGrounded(cached, threads, log) && (e.Dropped? ==> HasFailed(log, e.t, e.port))
    ensures AllGrounded(cached, threads, log + [e])
  {
    if cached != 0 { FoundStays(log, e, cached, |log|); }
    forall t: nat ensures Grounded(log + [e], t, PcOf(threads, t)) { GroundedStays(log, e, t, PcOf(threads, t)); }
    forall d | 0 <= d < |log + [e]| ensures DropGrounded(log + [e], d) {
      if d < |log| { DropStays(log, e, d); }
      else if e.Dropped? { NewDropGrounded(log, e.t, e.port); }
    }
  }

  lemma MoveGrounded(cached: nat, threads: Threads, log: seq<Event>, t: nat, pc: Pc)
    requires AllGrounded(cached, threads, log) && Grounded(log, t, pc)
    ensures AllGrounded(cached, threads[t := pc], log)
  {
    var moved := threads[t := pc];
    forall u: nat ensures Grounded(log, u, PcOf(moved, u)) {
      assert Grounded(log, u, PcOf(threads, u));
    }
  }

  lemma AttemptGrounded(s: State, t: nat, outcome: Outcome)
    requires AllGrounded(s.cached, s.threads, s.log)
    ensures var s' := Next(s, Attempt(t, outcome)); AllGrounded(s'.cached, s'.threads, s'.log)
  {
    if s.At(t).Have? {
      assert Grounded(s.log, t, s.At(t));
      var server := s.At(t).server;
      if server == 0 {
        MoveGrounded(s.cached, s.threads, s.log, t, Failed(0));
      } else {
        var e := Tried(t, server, outcome);
        NoteGrounded(s.cached, s.threads, s.log, e);
        FoundStays(s.log, e, server, |s.log|);
        assert outcome == InvalidDest ==> FailedAttempt(s.log + [e], t, server, |s.log|);
        MoveGrounded(s.cached, s.threads, s.log + [e], t, if outcome == InvalidDest then Failed(server) else Finished(outcome));
      }
    }
  }

  lemma LookupGrounded(s: State, t: nat, found: nat)
    requires AllGrounded(s.cached, s.threads, s.log)
    ensures var s' := Next(s, Lookup(t, found)); AllGrounded(s'.cached, s'.threads, s'.log)
  {
    var e := Looked(t, found);
    NoteGrounded(s.cached, s.threads, s.log, e);
    assert (s.log + [e])[|s.log|] == e;
    MoveGrounded(found, s.threads, s.log + [e], t, Settled);
  }

  lemma StepGrounded(s: State, a: Action)
    requires AllGrounded(s.cached, s.threads, s.log)
    ensures var s' := Next(s, a); AllGrounded(s'.cached, s'.threads, s'.log)
  {
    assert Grounded(s.log, a.t, s.At(a.t));
    match a
    case Begin(t) => MoveGrounded(s.cached, s.threads, s.log, t, Have(s.cached));
    case Attempt(t, outcome) => AttemptGrounded(s, t, outcome);
    case Lock(t) => if s.At(t).Failed? { MoveGrounded(s.cached, s.threads, s.log, t, Inside(s.At(t).server)); }
    case Drop(t) =>
      if Next(s, a) != s {
        NoteGrounded(s.cached, s.threads, s.log, Dropped(t, s.cached));
        MoveGrounded(s.cached, s.threads, s.log + [Dropped(t, s.cached)], t, Emptied(s.cached));
      }
    case Lookup(t, found) => LookupGrounded(s, t, found);
    case Leave(t) => MoveGrounded(s.cached, s.threads, s.log, t, if s.cached == 0 then GaveUp else Have(s.cached));
  }

  lemma {:induction false} RunGrounded(actions: seq<Action>)
    ensures var s := Run(INIT, actions); AllGrounded(s.cached, s.threads, s.log)
  {
    if actions != [] {
      RunGrounded(actions[..|actions| - 1]);
      StepGrounded(Run(INIT, actions[..|actions| - 1]), actions[|actions| - 1]);
    }
  }

  /** The port stands for the same right at both moments: no lookup found it in between. */
  ghost predicate SameRight(log: seq<Event>, p: nat, i: nat, d: nat) {
    forall k :: i < k < d && k < |log| && log[k].Looked? ==> log[k].port != p
  }

  /** The thread that deallocates the right was itself refused on that very right before. */
  ghost predicate OwnFailure(log: seq<Event>, d: nat)
    requires d < |log|
  {
    exists i :: 0 <= i < d && log[i] == Tried(log[d].t, log[d].port, InvalidDest) && SameRight(log, log[d].port, i, d)
  }

  lemma {:induction false} FoundTwice(log: seq<Event>, p: nat, l: nat, k: nat)
    requires l < k < |log| && log[l] == Looked(log[l].t, p) && log[k] == Looked(log[k].t, p)
    ensures LookedUp(log, p) >= 2
  {
    var n := |log| - 1;
    if k < n { FoundTwice(log[..n], p, l, k); } else { FoundOnce(log[..n], p, l); }
  }

  lemma {:induction false} FoundOnce(log: seq<Event>, p: nat, l: nat)
    requires l < |log| && log[l] == Looked(log[l].t, p)
    ensures LookedUp(log, p) >= 1
  {
    var n := |log| - 1;
    if l < n { FoundOnce(log[..n], p, l); }
  }

  /** A port that lookups have found at most once is deallocated only after the thread's own attempt on that very right was refused. */
  lemma OnlyOwnFailureDeallocates(actions: seq<Action>, d: nat)
    requires var log := Run(INIT, actions).log; d < |log| && log[d].Dropped? && LookedUp(log[..d], log[d].port) <= 1
    ensures OwnFailure(Run(INIT, actions).log, d)
  {
    RunGrounded(actions);
    var log := Run(INIT, actions).log;
    var p := log[d].port;
    assert DropGrounded(log, d);
    var i :| 0 <= i < d && FailedAttempt(log, log[d].t, p, i);
    var l :| 0 <= l < i && l < |log| && log[l].Looked? && log[l].port == p;
    forall k | i < k < d && log[k].Looked? ensures log[k].port != p {
      if log[k].port == p { FoundTwice(log[..d], p, l, k); }
    }
    assert SameRight(log, p, i, d);
  }

  /** In all runs, what is deallocated of port p after at most n lookups found it was tried by the thread. */
  ghost predicate DropsOwnUpTo(p: nat, n: nat) {
    forall actions, d :: DropsAfter(Run(INIT, actions).log, p, n, d) ==> OwnFailure(Run(INIT, actions).log, d)
  }

  ghost predicate DropsAfter(log: seq<Event>, p: nat, n: nat, d: nat) {
    d < |log| && log[d].Dropped? && log[d].port == p && LookedUp(log[..d], p) <= n
  }

  /** For each port, threads deallocate only rights they tried exactly as long as the port is found at most once. */
  lemma OwnFailureIffFoundOnce(p: nat, n: nat)
    requires p != 0
    ensures DropsOwnUpTo(p, n) <==> n <= 1
  {
    if n <= 1 {
      forall actions, d | DropsAfter(Run(INIT, actions).log, p, n, d) ensures OwnFailure(Run(INIT, actions).log, d) {
        OnlyOwnFailureDeallocates(actions, d);
      }
    } else {
      ReusedNameIsDroppedUntried(p);
      assert DropsAfter(Run(INIT, Reuse(p)).log, p, n, 5);
    }
  }

  // ----- a port that is found again

  function First(p: nat): seq<Action> {
    [Begin(0), Attempt(0, Success), Lock(0), Lookup(0, p), Leave(0), Begin(1)]
  }

  function BothFail(p: nat): seq<Action> {
    [Attempt(0, InvalidDest), Attempt(1, InvalidDest), Lock(0), Drop(0), Lookup(0, p), Leave(0)]
  }

  const SECOND := [Lock(1), Drop(1)]

  function Reuse(p: nat): seq<Action> {
    First(p) + BothFail(p) + SECOND
  }

  lemma {:induction false} RunConcat(s: State, a: seq<Action>, b: seq<Action>)
    ensures Run(s, a + b) == Run(Run(s, a), b)
  {
    if b == [] {
      assert a + b == a;
    } else {
      assert (a + b)[..|a + b| - 1] == a + b[..|b| - 1];
      RunConcat(s, a, b[..|b| - 1]);
    }
  }

  lemma RunNext(s: State, a: seq<Action>, x: Action)
    ensures Run(s, a + [x]) == Next(Run(s, a), x)
  {
    assert (a + [x])[..|a|] == a;
  }

  /**
   When a port number is found again, a thread deallocates a right it never tried: its attempt was on
   the right that went by this number before.
   */
  lemma ReusedNameIsDroppedUntried(p: nat)
    requires p != 0
    ensures var log := Run(INIT, Reuse(p)).log;
            log == [Looked(0, p), Tried(0, p, InvalidDest), Tried(1, p, InvalidDest), Dropped(0, p), Looked(0, p), Dropped(1, p)]
            && LookedUp(log[..5], p) == 2 && !OwnFailure(log, 5)
  {
    RunConcat(INIT, First(p) + BothFail(p), SECOND);
    RunConcat(INIT, First(p), BothFail(p));
    RunFirst(p);
    var s1 := Run(INIT, First(p));
    RunBothFail(s1, p);
    var s2 := Run(s1, BothFail(p));
    assert SECOND == [Lock(1)] + [Drop(1)] && [] + [Lock(1)] == [Lock(1)];
    RunNext(s2, [], Lock(1));
    RunNext(s2, [Lock(1)], Drop(1));
    Reused(Run(s2, SECOND).log, p);
  }

  lemma Reused(log: seq<Event>, p: nat)
    requires log == [Looked(0, p), Tried(0, p, InvalidDest), Tried(1, p, InvalidDest), Dropped(0, p), Looked(0, p), Dropped(1, p)]
    ensures LookedUp(log[..5], p) == 2 && !OwnFailure(log, 5)
  {
    forall n: nat | n < 5 ensures log[..n + 1] == log[..n] + [log[n]] { }
    CountNext(log[..0], log[0], p);
    CountNext(log[..1], log[1], p);
    CountNext(log[..2], log[2], p);
    CountNext(log[..3], log[3], p);
    CountNext(log[..4], log[4], p);
    assert log[4].Looked?;
  }

  lemma RunFirst(p: nat)
    requires p != 0
    ensures var s := Run(INIT, First(p));
            s.cached == p && s.lock == None && s.At(0) == Have(p) && s.At(1) == Have(p) && s.log == [Looked(0, p)]
  {
    RunSix(INIT, First(p));
  }

  lemma RunBothFail(s: State, p: nat)
    requires p != 0 && s.cached == p && s.lock == None && s.At(0) == Have(p) && s.At(1) == Have(p) && s.log == [Looked(0, p)]
    ensures var s' := Run(s, BothFail(p));
            && s'.cached == p && s'.lock == None && s'.At(1) == Failed(p)
            && s'.log == [Looked(0, p), Tried(0, p, InvalidDest), Tried(1, p, InvalidDest), Dropped(0, p), Looked(0, p)]
  {
    RunSix(s, BothFail(p));
  }

  lemma RunSix(s: State, a: seq<Action>)
    requires |a| == 6
    ensures Run(s, a) == Next(Next(Next(Next(Next(Next(s, a[0]), a[1]), a[2]), a[3]), a[4]), a[5])
  {
    assert Run(s, a[..0]) == s;
    forall i | 0 <= i < 6 ensures Run(s, a[..i + 1]) == Next(Run(s, a[..i]), a[i]) {
      assert a[..i + 1] == a[..i] + [a[i]];
      RunNext(s, a[..i], a[i]);
    }
    assert a[..6] == a;
  }

  // ----- the section under the lock, as it is written

  /** The shared variable `_helper_server`, and what was done to ports. */
  class Cache {
    var helperServer: nat
    ghost var log: seq<Event>

    constructor ()
      ensures helperServer == 0 && log == []
    {
      helperServer, log := 0, [];
    }

    /**
     Replaces the cached port unless another thread did, and hands out the new one; `found` is what
     `__SCHelperServerPort` answers. It does what the three steps under the lock do.
     */
    method Renew(t: nat, server: nat, found: nat, ghost s: State) returns (server': nat)
      requires s.At(t) == Inside(server) && s.cached == helperServer && s.log == log
      modifies this
      ensures var s' := Next(Next(Next(s, Drop(t)), Lookup(t, found)), Leave(t));
              && helperServer == s'.cached && log == s'.log && s'.lock == None
              && s'.At(t) == if server' == 0 then GaveUp else Have(server')
      ensures server' == 0 <==> found == 0 && (old(helperServer) == 0 || old(helperServer) == server)
    {
      if helperServer != 0 {
        if server == helperServer {
          log := log + [Dropped(t, helperServer)];
          helperServer := found;
          log := log + [Looked(t, found)];
        }
      } else {
        helperServer := found;
        log := log + [Looked(t, found)];
      }
      server' := helperServer;
    }
  }
}
