/**
 No deadlock in covering and reclaiming: whatever has happened, all callers can still come to their end. Callers inside
 the replacement first go on until each is gone or at a place where it starts over; then a reclaim under way can clear
 its link; then the callers can finish one after the other.
 */
module CoverProgress {
  import opened CoverProtocol
  import opened Options

  // ---------- callers inside the replacement ----------

  /** Gone, or where the loop starts over. */
  predicate Parked(p: Phase) {
    p.Start? || p.Waiting? || p.Looking? || p.Gone?
  }

  /** The steps to the next such place. */
  function Ahead(p: Phase): nat {
    match p
    case Start | Waiting | Looking | Gone => 0
    case Done(_) | Failed | Refused(_) => 1
    case GaveUp(_) | CreateFailed | Stored(_) => 2
    case Confirmed(_) | PutBy(_) => 3
    case Got(_) | ReferencedBy(_) => 4
    case LinkedBy(_) => 5
    case Made(_) => 6
    case Creating => 7
  }

  /** A caller inside the replacement comes nearer to such a place with every step: it never waits. */
  lemma Advances(s: State, t: nat, succeeds: bool)
    requires t < |s.threads| && VnodesExist(s) && !Parked(s.threads[t])
    ensures var u := ThreadStep(s, t, succeeds);
      && |u.threads| == |s.threads| && u.threads == s.threads[t := u.threads[t]]
      && Ahead(u.threads[t]) < Ahead(s.threads[t])
  {
  }

  function AheadOfAll(threads: seq<Phase>): nat {
    if threads == [] then 0 else Ahead(threads[0]) + AheadOfAll(threads[1..])
  }

  lemma {:induction false} AheadAfter(threads: seq<Phase>, t: nat, p: Phase)
    requires t < |threads|
    ensures AheadOfAll(threads[t := p]) == AheadOfAll(threads) - Ahead(threads[t]) + Ahead(p)
  {
    if t > 0 {
      AheadAfter(threads[1..], t - 1, p);
      assert threads[t := p][1..] == threads[1..][t - 1 := p];
    } else {
      assert threads[0 := p][1..] == threads[1..];
    }
  }

  lemma {:induction false} RunFurther(s: State, steps: seq<Step>, more: seq<Step>)
    ensures Run(s, steps + more) == Run(Run(s, steps), more)
  {
    if more == [] {
      assert steps + more == steps;
    } else {
      RunFurther(s, steps, more[..|more| - 1]);
      assert (steps + more)[..|steps + more| - 1] == steps + more[..|more| - 1];
    }
  }

  lemma RunFirst(s: State, step: Step, rest: seq<Step>)
    ensures Run(s, [step] + rest) == Run(Next(s, step), rest)
  {
    assert [step][..0] == [];
    assert Run(s, [step]) == Next(s, step);
    RunFurther(s, [step], rest);
  }

  lemma ThreadGoes(s: State, t: nat) returns (u: State)
    requires Inv(s) && t < |s.threads|
    ensures VnodesExist(s) && u == Next(s, Go(t, true)) == ThreadStep(s, t, true) && Inv(u)
  {
    Exist(s);
    ThreadStepKeeps(s, t, true);
    u := ThreadStep(s, t, true);
  }

  ghost predicate AllParked(s: State) {
    forall i: nat {:trigger s.threads[i]} :: i < |s.threads| ==> Parked(s.threads[i])
  }

  lemma {:induction false} ParkAll(s: State) returns (more: seq<Step>)
    requires Inv(s)
    ensures Inv(Run(s, more)) && AllParked(Run(s, more))
    decreases AheadOfAll(s.threads)
  {
    more := [];
    if t: nat :| t < |s.threads| && !Parked(s.threads[t]) {
      var u := ThreadGoes(s, t);
      Advances(s, t, true);
      AheadAfter(s.threads, t, u.threads[t]);
      more := ParkAll(u);
      RunFirst(s, Go(t, true), more);
      more := [Go(t, true)] + more;
    }
  }

  // ---------- a reclaim under way ----------

  /** The covered vnode has no covering vnode, or one that grants I/O references. */
  ghost predicate LinkLive(s: State) {
    s.covering == None || (s.covering.value < |s.vnodes| && !s.vnodes[s.covering.value].terminating)
  }

  lemma {:induction false} ParkedHoldNothing(threads: seq<Phase>, v: nat)
    requires forall i: nat {:trigger threads[i]} :: i < |threads| ==> Parked(threads[i])
    ensures HeldByAll(threads, Some(v)) == 0
  {
    if threads != [] {
      var rest := threads[1..];
      assert forall i: nat {:trigger rest[i]} :: i < |rest| ==> rest[i] == threads[i + 1];
      ParkedHoldNothing(rest, v);
      assert Parked(threads[0]);
    }
  }

  /** With nobody inside, the vnode linked is complete or being reclaimed, and nobody holds a reference on it. */
  lemma LinkedComplete(s: State)
    requires Inv(s) && AllParked(s) && s.covering != None
    ensures var v := s.covering.value;
      v < |s.vnodes| && s.vnodes[v].io == 0 &&
      (s.vnodes[v].stage.Taken? || (s.vnodes[v].stage.Referenced? && s.vnodes[v].knows))
  {
    var v := s.covering.value;
    assert VnodeOk(s, v) && IoOk(s, Some(v));
    ParkedHoldNothing(s.threads, v);
  }

  /** A reclaim of the vnode linked can clear the link. */
  lemma ClearLink(s: State) returns (more: seq<Step>)
    requires Inv(s) && AllParked(s)
    ensures var u := Run(s, more); Inv(u) && AllParked(u) && LinkLive(u)
  {
    more := [];
    assert Run(s, []) == s;
    if !LinkLive(s) {
      var v := s.covering.value;
      LinkedComplete(s);
      SystemStepKeeps(s, Take(v));
      var s1 := Next(s, Take(v));
      SystemStepKeeps(s1, Clear(v));
      var s2 := Next(s1, Clear(v));
      RunFirst(s, Take(v), [Clear(v)]);
      RunFirst(s1, Clear(v), []);
      assert [Clear(v)] + [] == [Clear(v)];
      more := [Take(v), Clear(v)];
      assert more == [Take(v)] + [Clear(v)];
    }
  }

  // ---------- one caller after the other ----------

  /** The steps of caller `t` to its end when nobody else is inside. */
  function ToEnd(p: Phase, linked: bool): nat {
    match p
    case Gone => 0
    case Done(_) | Failed => 1
    case GaveUp(_) | CreateFailed | Stored(_) => 2
    case Confirmed(_) | PutBy(_) => 3
    case Got(_) | ReferencedBy(_) => 4
    case LinkedBy(_) => 5
    case Made(_) => 6
    case Creating => 7
    case Looking => if linked then 5 else 9
    case Start => if linked then 6 else 8
    case Waiting => if linked then 6 else 10
    case Refused(_) => 0
  }

  /** Only caller `t` is inside, on no terminating vnode. */
  ghost predicate OnlyInside(s: State, t: nat) {
    && t < |s.threads| && LinkLive(s) && !s.threads[t].Refused?
    && (HasVnode(s.threads[t]) ==> s.threads[t].v < |s.vnodes| && !s.vnodes[s.threads[t].v].terminating)
    && (forall i: nat {:trigger s.threads[i]} :: i < |s.threads| && i != t ==> Parked(s.threads[i]))
  }

  /** Caller `t` is refused nowhere: the vnode linked and its own one are live, and no other caller creates one. */
  ghost predicate Unhindered(s: State, t: nat) {
    && t < |s.threads| && LinkLive(s) && !s.threads[t].Refused? && (s.threads[t].Start? ==> !s.beingCreated)
    && (HasVnode(s.threads[t]) ==> s.threads[t].v < |s.vnodes| && !s.vnodes[s.threads[t].v].terminating)
  }

  lemma ComesNearer(s: State, t: nat)
    requires Unhindered(s, t) && !s.threads[t].Gone? && VnodesExist(s)
    ensures var u := ThreadStep(s, t, true);
      && |u.threads| == |s.threads| && u.threads == s.threads[t := u.threads[t]] && !u.threads[t].Refused?
      && ToEnd(u.threads[t], u.covering != None) < ToEnd(s.threads[t], s.covering != None)
  {
  }

  lemma StaysLive(s: State, t: nat)
    requires Unhindered(s, t) && VnodesExist(s)
    ensures var u := ThreadStep(s, t, true);
      && |u.threads| == |s.threads| && LinkLive(u)
      && (HasVnode(u.threads[t]) ==> u.threads[t].v < |u.vnodes| && !u.vnodes[u.threads[t].v].terminating)
  {
  }

  lemma StaysInside(s: State, t: nat)
    requires Inv(s) && OnlyInside(s, t) && !s.threads[t].Gone? && VnodesExist(s)
    ensures var u := ThreadStep(s, t, true);
      && OnlyInside(u, t) && u.threads == s.threads[t := u.threads[t]]
      && ToEnd(u.threads[t], u.covering != None) < ToEnd(s.threads[t], s.covering != None)
  {
    assert s.threads[t].Start? ==> !s.beingCreated;
    ComesNearer(s, t);
    StaysLive(s, t);
  }

  lemma {:induction false} GoesHome(s: State, t: nat) returns (more: seq<Step>)
    requires Inv(s) && OnlyInside(s, t)
    ensures var u := Run(s, more);
      Inv(u) && OnlyInside(u, t) && u.threads == s.threads[t := Gone]
    decreases ToEnd(s.threads[t], s.covering != None)
  {
    more := [];
    if s.threads[t].Gone? {
      assert s.threads[t := Gone] == s.threads;
    } else {
      var u := ThreadGoes(s, t);
      StaysInside(s, t);
      more := GoesHome(u, t);
      RunFirst(s, Go(t, true), more);
      more := [Go(t, true)] + more;
      assert u.threads[t := Gone] == s.threads[t := Gone];
    }
  }

  ghost predicate AllGone(s: State) {
    forall i: nat {:trigger s.threads[i]} :: i < |s.threads| ==> s.threads[i].Gone?
  }

  /** The callers from `k` on come to their end one after the other. */
  lemma {:induction false} OneByOne(s: State, k: nat) returns (more: seq<Step>)
    requires Inv(s) && AllParked(s) && LinkLive(s) && k <= |s.threads|
    requires forall i: nat {:trigger s.threads[i]} :: i < k ==> s.threads[i].Gone?
    ensures AllGone(Run(s, more))
    decreases |s.threads| - k
  {
    more := [];
    if k < |s.threads| {
      assert Parked(s.threads[k]);
      var first := GoesHome(s, k);
      var u := Run(s, first);
      var rest := OneByOne(u, k + 1);
      RunFurther(s, first, rest);
      more := first + rest;
    }
  }

  /** Every run of callers and reclaims can go on until all callers have come to their end. */
  lemma AllCanFinish(n: nat, steps: seq<Step>)
    ensures exists more: seq<Step> {:trigger steps + more} :: AllGone(Run(Initial(n), steps + more))
  {
    RunKeeps(n, steps);
    var s := Run(Initial(n), steps);
    var parking := ParkAll(s);
    var clearing := ClearLink(Run(s, parking));
    var ending := OneByOne(Run(Run(s, parking), clearing), 0);
    RunFurther(s, parking, clearing);
    RunFurther(s, parking + clearing, ending);
    RunFurther(Initial(n), steps, parking + clearing + ending);
  }
}
