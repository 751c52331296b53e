/** How a thread's loop ends: what it answers, and what it has tried by then. */
module HelperAnswers {
  import opened Options
  import opened HelperCache

  predicate TriedBy(log: seq<Event>, t: nat, i: nat) {
    i < |log| && log[i].Tried? && log[i].t == t
  }

  /** Some attempt of the thread had another outcome than that the port is not valid. */
  ghost predicate Answered(log: seq<Event>, t: nat) {
    exists i: nat :: TriedBy(log, t, i) && log[i].outcome != InvalidDest
  }

  ghost predicate AnsweredWith(log: seq<Event>, t: nat, outcome: Outcome) {
    exists i: nat :: TriedBy(log, t, i) && log[i].outcome == outcome && log[i].port != 0
  }

  /** Some lookup of the thread found no port. */
  ghost predicate FoundNone(log: seq<Event>, t: nat) {
    exists i: nat :: i < |log| && log[i] == Looked(t, 0)
  }

  /** The thread tries again only after a port that is not valid. */
  ghost predicate RetriesInvalid(log: seq<Event>, t: nat) {
    forall i: nat, j: nat :: i < j && TriedBy(log, t, i) && TriedBy(log, t, j) ==> log[i].outcome == InvalidDest
  }

  ghost predicate Ends(log: seq<Event>, t: nat, pc: Pc, cached: nat) {
    && RetriesInvalid(log, t)
    && (pc.Finished? <==> Answered(log, t))
    && (pc.Finished? ==> pc.outcome != InvalidDest && AnsweredWith(log, t, pc.outcome))
    && (pc.GaveUp? || (pc.Settled? && cached == 0) <==> FoundNone(log, t))
  }

  lemma TriedNext(log: seq<Event>, e: Event, t: nat)
    ensures forall i: nat :: TriedBy(log + [e], t, i) <==> TriedBy(log, t, i) || (i == |log| && e.Tried? && e.t == t)
  {
  }

  lemma AnsweredNext(log: seq<Event>, e: Event, t: nat)
    ensures Answered(log + [e], t) <==> Answered(log, t) || (e.Tried? && e.t == t && e.outcome != InvalidDest)
  {
    TriedNext(log, e, t);
    if Answered(log, t) {
      var i: nat :| TriedBy(log, t, i) && log[i].outcome != InvalidDest;
      assert TriedBy(log + [e], t, i) && (log + [e])[i] == log[i];
    }
    if e.Tried? && e.t == t { assert TriedBy(log + [e], t, |log|); }
    if Answered(log + [e], t) {
      var i: nat :| TriedBy(log + [e], t, i) && (log + [e])[i].outcome != InvalidDest;
      if i < |log| { assert TriedBy(log, t, i); }
    }
  }

  lemma AnswerStays(log: seq<Event>, e: Event, t: nat, outcome: Outcome)
    requires AnsweredWith(log, t, outcome) || (e == Tried(t, e.port, outcome) && e.port != 0)
    ensures AnsweredWith(log + [e], t, outcome)
  {
    if AnsweredWith(log, t, outcome) {
      var i: nat :| TriedBy(log, t, i) && log[i].outcome == outcome && log[i].port != 0;
      assert TriedBy(log + [e], t, i) && (log + [e])[i] == log[i];
    } else {
      assert TriedBy(log + [e], t, |log|);
    }
  }

  lemma FoundNoneNext(log: seq<Event>, e: Event, t: nat)
    ensures FoundNone(log + [e], t) <==> FoundNone(log, t) || e == Looked(t, 0)
  {
    if FoundNone(log, t) {
      var i: nat :| i < |log| && log[i] == Looked(t, 0);
      assert (log + [e])[i] == log[i];
    }
    if e == Looked(t, 0) { assert (log + [e])[|log|] == e; }
    if FoundNone(log + [e], t) {
      var i: nat :| i < |log + [e]| && (log + [e])[i] == Looked(t, 0);
      if i < |log| { assert log[i] == Looked(t, 0); }
    }
  }

  lemma RetriesNext(log: seq<Event>, e: Event, t: nat)
    requires RetriesInvalid(log, t) && (e.Tried? && e.t == t ==> !Answered(log, t))
    ensures RetriesInvalid(log + [e], t)
  {
    TriedNext(log, e, t);
    forall i: nat, j: nat | i < j && TriedBy(log + [e], t, i) && TriedBy(log + [e], t, j)
      ensures (log + [e])[i].outcome == InvalidDest
    {
      assert TriedBy(log, t, i);
    }
  }

  /** One more event. */
  lemma EndsNext(log: seq<Event>, e: Event, t: nat, pc: Pc, cached: nat, pc': Pc, cached': nat)
    requires Ends(log, t, pc, cached) && (e.Tried? && e.t == t ==> !pc.Finished?)
    requires pc'.Finished? <==> pc.Finished? || (e.Tried? && e.t == t && e.outcome != InvalidDest)
    requires pc'.Finished? ==> (pc == pc' || (e == Tried(t, e.port, pc'.outcome) && e.port != 0 && pc'.outcome != InvalidDest))
    requires (pc'.GaveUp? || (pc'.Settled? && cached' == 0)) <==> (pc.GaveUp? || (pc.Settled? && cached == 0)) || e == Looked(t, 0)
    ensures Ends(log + [e], t, pc', cached')
  {
    RetriesNext(log, e, t);
    AnsweredNext(log, e, t);
    FoundNoneNext(log, e, t);
    if pc'.Finished? { AnswerStays(log, e, t, pc'.outcome); }
  }

  lemma StepEnds(s: State, a: Action, t: nat)
    requires Exclusive(s) && Ends(s.log, t, s.At(t), s.cached)
    ensures var s' := Next(s, a); Ends(s'.log, t, s'.At(t), s'.cached)
  {
    var s' := Next(s, a);
    assert Critical(s.At(t)) <==> s.lock == Some(t);
    assert Critical(s.At(a.t)) <==> s.lock == Some(a.t);
    if s'.log != s.log {
      var e := s'.log[|s.log|];
      assert s'.log == s.log + [e];
      EndsNext(s.log, e, t, s.At(t), s.cached, s'.At(t), s'.cached);
    }
  }

  lemma {:induction false} RunEnds(actions: seq<Action>, t: nat)
    ensures var s := Run(INIT, actions); Ends(s.log, t, s.At(t), s.cached)
  {
    if actions != [] {
      var n := |actions| - 1;
      RunEnds(actions[..n], t);
      RunConsistent(actions[..n]);
      StepEnds(Run(INIT, actions[..n]), actions[n], t);
    }
  }

  /**
   In every interleaving: a thread is done exactly when one of its attempts had another outcome than that the port
   is not valid, and that is its answer; it tries again only after a port that is not valid; and it gives up only
   after a lookup of its own that found no port.
   */
  lemma LoopAnswers(actions: seq<Action>, t: nat)
    ensures var s := Run(INIT, actions);
            && (s.At(t).Finished? <==> exists i: nat :: TriedBy(s.log, t, i) && s.log[i].outcome != InvalidDest)
            && (s.At(t).Finished? ==> exists i: nat :: TriedBy(s.log, t, i) && s.log[i].outcome == s.At(t).outcome && s.log[i].port != 0)
            && (forall i: nat, j: nat :: i < j && TriedBy(s.log, t, i) && TriedBy(s.log, t, j) ==> s.log[i].outcome == InvalidDest)
            && (s.At(t).GaveUp? || (s.At(t).Settled? && s.cached == 0) <==> exists i: nat :: i < |s.log| && s.log[i] == Looked(t, 0))
  {
    RunEnds(actions, t);
  }
}
