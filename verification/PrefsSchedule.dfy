/**
 Notifications of a preferences session: its dynamic store session, and the run loops or the dispatch
 queue it is scheduled on. Nothing else uses the session.
 */
module PrefsSchedule {
  import opened Options

  /** A run loop and a mode, by number. */
  datatype Spot = Spot(runLoop: nat, mode: nat)

  /** Where to schedule, or from where to unschedule: the queue is the one that is set, if any. */
  datatype Target = OnLoop(spot: Spot) | OnQueue(queue: nat)

  /** What the calls that may fail answer: create the session, set its keys, create the source, set the queue. */
  datatype Answers = Answers(session: bool, keys: bool, source: bool, queue: bool)

  /**
   The fields of the session, and what the system holds on its behalf: whether the dynamic store
   watches the keys, its queue, and the run loops and modes where the source is registered.
   */
  datatype State = State(
    session: bool,
    sessionRefcnt: int,
    scheduled: bool,
    rls: bool,
    rlList: Option<seq<Spot>>,
    dispatchQueue: Option<nat>,
    watching: bool,
    storeQueue: Option<nat>,
    registered: set<Spot>)

  const CLOSED := State(false, 0, false, false, None, None, false, None, {})

  // ----- the steps

  function AddSession(s: State, answer: bool): (bool, State) {
    if s.sessionRefcnt != 0 then (true, s.(sessionRefcnt := s.sessionRefcnt + 1))
    else (answer, s.(session := answer, sessionRefcnt := if answer then 1 else 0))
  }

  function RemoveSession(s: State): State {
    if s.sessionRefcnt > 0 then
      if s.sessionRefcnt == 1 then s.(sessionRefcnt := 0, session := false, watching := false, storeQueue := None)
      else s.(sessionRefcnt := s.sessionRefcnt - 1)
    else s
  }

  /** The first of these entries is gone. */
  function WithoutFirst(list: seq<Spot>, spot: Spot): seq<Spot> {
    if list == [] then []
    else if list[0] == spot then list[1..]
    else [list[0]] + WithoutFirst(list[1..], spot)
  }

  /** Becoming scheduled: a session, its keys, and for a run loop the source and an empty list. */
  function Start(s: State, onLoop: bool, a: Answers): (bool, State) {
    var (added, s1) := if s.session then (true, s) else AddSession(s, a.session);
    if !added then (false, s1)
    else if !a.keys then (false, s1)
    else
      var s2 := s1.(watching := true);
      if onLoop && !a.source then (false, s2.(rls := false))
      else if onLoop then (true, s2.(rls := true, rlList := Some([]), scheduled := true))
      else (true, s2.(scheduled := true))
  }

  function Schedule(s: State, target: Target, a: Answers): (bool, State) {
    if s.dispatchQueue != None || (target.OnQueue? && s.scheduled) then (false, s)
    else
      var (started, s1) := if s.scheduled then (true, s) else Start(s, target.OnLoop?, a);
      if !started then (false, s1)
      else
        match target
        case OnQueue(queue) =>
          if !a.queue then (false, RemoveSession(s1.(scheduled := false, watching := false)))
          else (true, s1.(dispatchQueue := Some(queue), storeQueue := Some(queue)))
        case OnLoop(spot) =>
          var list := if s1.rlList.Some? then s1.rlList.value else [];
          (true, s1.(registered := if spot in list then s1.registered else s1.registered + {spot}, rlList := Some(list + [spot])))
  }

  /** All notifications are unscheduled. */
  function Stop(s: State): State {
    RemoveSession(s.(scheduled := false, watching := false))
  }

  /** None stands for the dispatch queue. */
  function Unschedule(s: State, spot: Option<Spot>): (bool, State) {
    match spot
    case None =>
      if s.dispatchQueue == None then (false, s) else (true, Stop(s.(storeQueue := None, dispatchQueue := None)))
    case Some(sp) =>
      if !s.scheduled || s.dispatchQueue != None || s.rlList == None || sp !in s.rlList.value then (false, s)
      else
        var list := WithoutFirst(s.rlList.value, sp);
        var registered := if sp in list then s.registered else s.registered - {sp};
        if list == [] then (true, Stop(s.(rlList := None, rls := false, registered := {})))
        else (true, s.(rlList := Some(list), registered := registered))
  }

  // ----- what every step keeps

  ghost predicate Sound(s: State) {
    && (s.session <==> s.sessionRefcnt > 0) && 0 <= s.sessionRefcnt <= 1
    && (s.scheduled ==> s.session && s.watching) && (s.watching ==> s.session)
    && (s.scheduled <==> s.rls || s.dispatchQueue.Some?) && !(s.rls && s.dispatchQueue.Some?)
    && (s.rls <==> s.rlList.Some?) && (s.rlList.Some? ==> s.rlList.value != [])
    && s.storeQueue == s.dispatchQueue
    && forall spot :: spot in s.registered <==> s.rlList.Some? && spot in s.rlList.value
  }

  lemma {:induction false} WithoutFirstKeeps(list: seq<Spot>, spot: Spot)
    ensures forall x :: x != spot ==> (x in WithoutFirst(list, spot) <==> x in list)
    ensures forall x :: x in WithoutFirst(list, spot) ==> x in list
  {
    if list != [] {
      WithoutFirstKeeps(list[1..], spot);
      assert list == [list[0]] + list[1..];
    }
  }

  lemma UnscheduleSound(s: State, spot: Option<Spot>)
    requires Sound(s)
    ensures Sound(Unschedule(s, spot).1)
  {
    if spot.Some? && s.rlList.Some? { WithoutFirstKeeps(s.rlList.value, spot.value); }
  }

  // ----- runs

  datatype Op = Add(target: Target, answers: Answers) | Remove(spot: Option<Spot>)

  function Apply(s: State, op: Op): (bool, State) {
    match op
    case Add(target, answers) => Schedule(s, target, answers)
    case Remove(spot) => Unschedule(s, spot)
  }

  function Run(ops: seq<Op>): State {
    if ops == [] then CLOSED else Apply(Run(ops[..|ops| - 1]), ops[|ops| - 1]).1
  }

  predicate Succeeds(ops: seq<Op>, n: nat)
    requires n < |ops|
  {
    Apply(Run(ops[..n]), ops[n]).0
  }

  /**
   In every run, whatever fails: there is a session exactly while it is counted, at most once; being
   scheduled implies a session; a queue excludes a source; and the source is registered for a run loop
   and mode exactly while the list has an entry for them.
   */
  lemma {:induction false} RunSound(ops: seq<Op>)
    ensures Sound(Run(ops))
  {
    if ops != [] {
      RunSound(ops[..|ops| - 1]);
      match ops[|ops| - 1]
      case Add(target, answers) =>
      case Remove(spot) => UnscheduleSound(Run(ops[..|ops| - 1]), spot);
    }
  }

  /** How often the list names a run loop and mode. */
  function Entries(s: State, spot: Spot): nat {
    if s.rlList.Some? then multiset(s.rlList.value)[spot] else 0
  }

  /** Successful schedulings there less successful unschedulings. */
  function Net(ops: seq<Op>, spot: Spot): int {
    if ops == [] then 0
    else
      var n := |ops| - 1;
      Net(ops[..n], spot)
      + if !Succeeds(ops, n) then 0
        else if ops[n] == Remove(Some(spot)) then -1
        else if ops[n].Add? && ops[n].target == OnLoop(spot) then 1
        else 0
  }

  lemma {:induction false} WithoutFirstCount(list: seq<Spot>, spot: Spot)
    requires spot in list
    ensures multiset(WithoutFirst(list, spot)) == multiset(list) - multiset{spot}
  {
    assert list == [list[0]] + list[1..];
    if list[0] != spot {
      WithoutFirstCount(list[1..], spot);
      assert multiset([list[0]] + WithoutFirst(list[1..], spot)) == multiset{list[0]} + multiset(WithoutFirst(list[1..], spot));
    }
  }

  lemma ScheduleCount(s: State, target: Target, a: Answers, spot: Spot)
    requires Sound(s)
    ensures Entries(Schedule(s, target, a).1, spot)
         == Entries(s, spot) + if Schedule(s, target, a).0 && target == OnLoop(spot) then 1 else 0
  {
  }

  lemma UnscheduleCount(s: State, sp: Option<Spot>, spot: Spot)
    requires Sound(s)
    ensures Entries(Unschedule(s, sp).1, spot) == Entries(s, spot) - if Unschedule(s, sp).0 && sp == Some(spot) then 1 else 0
  {
    if sp.Some? && Unschedule(s, sp).0 {
      WithoutFirstCount(s.rlList.value, sp.value);
    }
  }

  /** In every run, the source is registered exactly where more schedulings than unschedulings succeeded. */
  lemma {:induction false} RegisteredWhereScheduled(ops: seq<Op>, spot: Spot)
    ensures Entries(Run(ops), spot) == Net(ops, spot)
    ensures spot in Run(ops).registered <==> Net(ops, spot) > 0
  {
    RunSound(ops);
    if ops != [] {
      var n := |ops| - 1;
      RegisteredWhereScheduled(ops[..n], spot);
      RunSound(ops[..n]);
      match ops[n]
      case Add(target, answers) => ScheduleCount(Run(ops[..n]), target, answers, spot);
      case Remove(sp) => UnscheduleCount(Run(ops[..n]), sp, spot);
    }
  }

  // ----- when a call succeeds, and what it does

  /**
   Scheduling on a run loop and mode succeeds exactly when there is no dispatch queue and, unless something
   is scheduled already, the session, its keys and the source can be had. Then the list has one more entry.
   */
  lemma LoopScheduled(s: State, spot: Spot, a: Answers)
    requires Sound(s)
    ensures var (ok, s') := Schedule(s, OnLoop(spot), a);
            && (ok <==> s.dispatchQueue == None && (s.scheduled || ((s.session || a.session) && a.keys && a.source)))
            && (ok ==> s'.scheduled && s'.session && s'.watching && s'.rls && s'.dispatchQueue == None
                       && s'.rlList == Some((if s.rlList.Some? then s.rlList.value else []) + [spot])
                       && s'.registered == s.registered + {spot})
            && (!ok ==> Unmoved(s, s'))
  {
  }

  /** On a dispatch queue it succeeds exactly when nothing is scheduled and session, keys and queue can be had. */
  lemma QueueScheduled(s: State, queue: nat, a: Answers)
    requires Sound(s)
    ensures var (ok, s') := Schedule(s, OnQueue(queue), a);
            && (ok <==> !s.scheduled && (s.session || a.session) && a.keys && a.queue)
            && (ok ==> s' == State(true, 1, true, false, None, Some(queue), true, Some(queue), {}))
            && (!ok ==> Unmoved(s, s'))
  {
    assert s.rlList == None ==> s.registered == {} by { NothingRegistered(s); }
  }

  lemma NothingRegistered(s: State)
    requires Sound(s)
    ensures s.rlList == None ==> s.registered == {}
  {
    if s.rlList == None {
      forall spot ensures spot !in s.registered { }
    }
  }

  /** Nothing about where the session is scheduled is different. */
  predicate Unmoved(s: State, s': State) {
    && s'.scheduled == s.scheduled && s'.rls == s.rls && s'.rlList == s.rlList && s'.registered == s.registered
    && s'.dispatchQueue == s.dispatchQueue && s'.storeQueue == s.storeQueue
  }

  /**
   Unscheduling from a run loop and mode succeeds exactly when the list has an entry for them, from the
   queue exactly when there is one. The last one out closes the session; else just that entry goes.
   */
  lemma Unscheduled(s: State, spot: Option<Spot>)
    requires Sound(s)
    ensures var (ok, s') := Unschedule(s, spot);
            && (ok <==> if spot.Some? then s.rlList.Some? && spot.value in s.rlList.value else s.dispatchQueue.Some?)
            && (!ok ==> s' == s)
            && (ok && (spot == None || s.rlList == Some([spot.value])) ==> s' == CLOSED)
            && (ok && spot.Some? && s.rlList != Some([spot.value]) ==>
                  && s' == s.(rlList := s'.rlList, registered := s'.registered)
                  && s'.rlList.Some? && multiset(s'.rlList.value) == multiset(s.rlList.value) - multiset{spot.value})
  {
    NothingRegistered(s);
    if spot.Some? && Unschedule(s, spot).0 {
      var list := s.rlList.value;
      WithoutFirstCount(list, spot.value);
      if WithoutFirst(list, spot.value) == [] {
        assert |multiset(list)| == |multiset(WithoutFirst(list, spot.value))| + 1;
        assert list == [list[0]];
      }
    }
  }

  /** A scheduling that succeeds where nothing is scheduled is undone by the matching unscheduling. */
  lemma UnscheduleUndoes(s: State, target: Target, a: Answers)
    requires Sound(s) && !s.scheduled && Schedule(s, target, a).0
    ensures Unschedule(Schedule(s, target, a).1, if target.OnLoop? then Some(target.spot) else None) == (true, CLOSED)
  {
    assert s.registered == {} by {
      forall spot ensures spot !in s.registered { assert s.rlList == None; }
    }
  }

  /**
   When nothing is scheduled a session is left over exactly when the last thing that was tried since
   is a scheduling that failed after the session was there and before the dispatch queue was set.
   */
  lemma LeftOver(s: State, op: Op)
    requires Sound(s)
    ensures var (ok, s') := Apply(s, op);
            s'.session && !s'.scheduled <==>
              !s.scheduled
              && (if op.Add? && (s.session || op.answers.session)
                  then !op.answers.keys || (op.target.OnLoop? && !op.answers.source)
                  else s.session)
  {
  }

  // ----- as it is written

  class Session {
    var session: bool
    var sessionRefcnt: int
    var scheduled: bool
    var rls: bool
    var rlList: Option<seq<Spot>>
    var dispatchQueue: Option<nat>
    var watching: bool
    var storeQueue: Option<nat>
    var registered: set<Spot>

    ghost function Value(): State
      reads this
    {
      State(session, sessionRefcnt, scheduled, rls, rlList, dispatchQueue, watching, storeQueue, registered)
    }

    constructor ()
      ensures Value() == CLOSED && Sound(Value())
    {
      session, sessionRefcnt, scheduled, rls, rlList := false, 0, false, false, None;
      dispatchQueue, watching, storeQueue, registered := None, false, None, {};
    }

    method Add(answer: bool) returns (ok: bool)
      modifies this
      ensures (ok, Value()) == AddSession(old(Value()), answer)
    {
      if sessionRefcnt == 0 {
        session := answer;
        if !session { return false; }
      }
      sessionRefcnt := sessionRefcnt + 1;
      return true;
    }

    method Remove()
      modifies this
      ensures Value() == RemoveSession(old(Value()))
    {
      if sessionRefcnt > 0 {
        sessionRefcnt := sessionRefcnt - 1;
        if sessionRefcnt == 0 {
          session, watching, storeQueue := false, false, None;
        }
      }
    }

    /** The part of `__SCPreferencesScheduleWithRunLoop` for a session not scheduled yet. */
    method Begin(onLoop: bool, a: Answers) returns (ok: bool)
      requires Sound(Value())
      modifies this
      ensures (ok, Value()) == Start(old(Value()), onLoop, a)
    {
      ok := true;
      if !session {
        ok := Add(a.session);
        if !ok { return; }
        assert session;
      }
      if !a.keys { return false; }
      watching := true;
      if onLoop {
        rls := a.source;
        if !rls { return false; }
        rlList := Some([]);
      }
      scheduled := true;
    }

    /** `__SCPreferencesScheduleWithRunLoop` */
    method ScheduleOn(target: Target, a: Answers) returns (ok: bool)
      requires Sound(Value())
      modifies this
      ensures (ok, Value()) == Schedule(old(Value()), target, a) && Sound(Value())
    {
      if dispatchQueue != None || (target.OnQueue? && scheduled) { return false; }
      if !scheduled {
        ok := Begin(target.OnLoop?, a);
        if !ok { return; }
      }
      match target {
        case OnQueue(queue) =>
          if !a.queue {
            scheduled := false;
            watching := false;
            Remove();
            return false;
          }
          storeQueue := Some(queue);
          dispatchQueue := Some(queue);
        case OnLoop(spot) =>
          var list := if rlList.Some? then rlList.value else [];
          if spot !in list { registered := registered + {spot}; }
          rlList := Some(list + [spot]);
      }
      ok := true;
    }

    /** `__SCPreferencesUnscheduleFromRunLoop` */
    method UnscheduleFrom(spot: Option<Spot>) returns (ok: bool)
      requires Sound(Value())
      modifies this
      ensures (ok, Value()) == Unschedule(old(Value()), spot) && Sound(Value())
    {
      UnscheduleSound(Value(), spot);
      if spot.Some? && !scheduled { return false; }
      if (spot == None && dispatchQueue == None) || (spot.Some? && dispatchQueue.Some?) { return false; }
      var n := 0;
      if spot == None {
        storeQueue := None;
        dispatchQueue := None;
      } else {
        if spot.value !in rlList.value { return false; }
        rlList := Some(WithoutFirst(rlList.value, spot.value));
        n := |rlList.value|;
        if n == 0 || spot.value !in rlList.value {
          registered := registered - {spot.value};
          if n == 0 {
            rlList := None;
            registered := {};
            rls := false;
          }
        }
      }
      if n == 0 {
        scheduled := false;
        watching := false;
        Remove();
      }
      ok := true;
    }
  }
}
