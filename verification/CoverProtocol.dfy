/**
 Covering a vnode and reclaiming its covering vnodes, as interleaved steps of any number of threads and of the system.
 A caller comes with one I/O reference on the covered vnode and leaves with one on the covering vnode, which holds a
 user reference on the covered one until its reclaim has ended.
 */
module CoverProtocol {
  import opened Options

  /** How far a covering vnode has come: created, linked to the covered vnode, its user reference taken; then its
      reclaim. */
  datatype Stage = Fresh | Linked | Referenced | Taken | Cleared | Released

  /** `io`: I/O references; `knows`: its pointer to the covered vnode is set; `terminating`: no new I/O reference is
      granted. */
  datatype Covering = Covering(stage: Stage, io: int, knows: bool, terminating: bool)

  datatype Phase =
    | Start
    // the creator
    | Creating
    | Made(v: nat)
    | LinkedBy(v: nat)
    | ReferencedBy(v: nat)
    | PutBy(v: nat)
    | Stored(v: nat)
    | CreateFailed
    // everybody else
    | Waiting
    | Looking
    | Got(v: nat)
    | Confirmed(v: nat)
    | GaveUp(v: nat)
    | Refused(v: nat)
    // returned
    | Done(v: nat)
    | Failed
    | Gone

  datatype State = State(
    covering: Option<nat>,       // the covered vnode's pointer to its covering vnode
    beingCreated: bool,
    io: int,                     // I/O references on the covered vnode
    userRefs: int,               // user references on the covered vnode
    vnodes: seq<Covering>,
    threads: seq<Phase>)

  datatype Step = Go(thread: nat, succeeds: bool) | Terminate(vnode: nat) | Take(vnode: nat) | Clear(vnode: nat)
      | Release(vnode: nat)

  function Goto(s: State, t: nat, p: Phase): State
    requires t < |s.threads|
  {
    s.(threads := s.threads[t := p])
  }

  function WithIo(s: State, v: nat, d: int): State
    requires v < |s.vnodes|
  {
    s.(vnodes := s.vnodes[v := s.vnodes[v].(io := s.vnodes[v].io + d)])
  }

  function At(s: State, v: nat, stage: Stage): State
    requires v < |s.vnodes|
  {
    s.(vnodes := s.vnodes[v := s.vnodes[v].(stage := stage)])
  }

  predicate HasVnode(p: Phase) {
    !(p.Start? || p.Creating? || p.CreateFailed? || p.Waiting? || p.Looking? || p.Failed? || p.Gone?)
  }

  ghost predicate VnodesExist(s: State) {
    && (s.covering != None ==> s.covering.value < |s.vnodes|)
    && (forall t: nat {:trigger s.threads[t]} :: t < |s.threads| && HasVnode(s.threads[t]) ==>
      s.threads[t].v < |s.vnodes|)
  }

  // ---------- the steps of a thread ----------

  /** Under the spin lock: wait for a creator, become the creator, or look at the covering vnode. A waiter may go on
      at any time: the wait need not be armed, and a wake-up may come from an earlier creation. */
  function Decide(s: State, t: nat): State
    requires t < |s.threads|
  {
    if s.beingCreated then Goto(s, t, Waiting)
    else if s.covering == None then Goto(s.(beingCreated := true), t, Creating)
    else Goto(s, t, Looking)
  }

  function Create(s: State, t: nat, succeeds: bool): State
    requires t < |s.threads|
  {
    if succeeds then Goto(s.(vnodes := s.vnodes + [Covering(Fresh, 1, false, false)]), t, Made(|s.vnodes|))
    else Goto(s, t, CreateFailed)
  }

  /** Under the shared lock: the pointer is read and an I/O reference asked for. */
  function Look(s: State, t: nat): State
    requires t < |s.threads| && VnodesExist(s)
  {
    if s.covering == None || s.vnodes[s.covering.value].terminating then Goto(s, t, Start)
    else Goto(WithIo(s, s.covering.value, 1), t, Got(s.covering.value))
  }

  function Confirm(s: State, t: nat, v: nat): State
    requires t < |s.threads| && v < |s.vnodes|
  {
    if s.vnodes[v].terminating then Goto(s, t, Refused(v)) else Goto(WithIo(s, v, 1), t, Confirmed(v))
  }

  function Finish(s: State, t: nat, p: Phase): State
    requires t < |s.threads|
  {
    Goto(s.(beingCreated := false), t, p)
  }

  function ThreadStep(s: State, t: nat, succeeds: bool): State
    requires t < |s.threads| && VnodesExist(s)
  {
    match s.threads[t]
    case Start => Decide(s, t)
    case Creating => Create(s, t, succeeds)
    case Made(v) => Goto(At(s, v, Linked).(covering := Some(v)), t, LinkedBy(v))
    case LinkedBy(v) => Goto(At(s, v, Referenced).(userRefs := s.userRefs + 1), t, ReferencedBy(v))
    case ReferencedBy(v) => Goto(s.(io := s.io - 1), t, PutBy(v))
    case PutBy(v) => Goto(s.(vnodes := s.vnodes[v := s.vnodes[v].(knows := true)]), t, Stored(v))
    case Stored(v) => Finish(s, t, Done(v))
    case CreateFailed => Finish(s, t, Failed)
    case Waiting => Goto(s, t, Looking)
    case Looking => Look(s, t)
    case Got(v) => Confirm(s, t, v)
    case Confirmed(v) => Goto(s.(io := s.io - 1), t, GaveUp(v))
    case GaveUp(v) => Goto(WithIo(s, v, -1), t, Done(v))
    case Refused(v) => Goto(WithIo(s, v, -1), t, Start)
    case Done(v) => Goto(WithIo(s, v, -1), t, Gone)
    case Failed => Goto(s.(io := s.io - 1), t, Gone)
    case Gone => s
  }

  // ---------- the steps of the system ----------

  /** A covering vnode is reclaimed in steps: its pointer is taken away, the covered vnode's pointer is cleared, the
      user reference is given back. */
  function SystemStep(s: State, step: Step): State
    requires !step.Go? && step.vnode < |s.vnodes|
  {
    var v := step.vnode;
    match step
    case Terminate(_) => s.(vnodes := s.vnodes[v := s.vnodes[v].(terminating := true)])
    case Take(_) =>
      if s.vnodes[v].terminating && s.vnodes[v].io == 0 && s.vnodes[v].knows
      then s.(vnodes := s.vnodes[v := s.vnodes[v].(stage := Taken, knows := false)]) else s
    case Clear(_) => if s.vnodes[v].stage == Taken then At(s, v, Cleared).(covering := None) else s
    case Release(_) => if s.vnodes[v].stage == Cleared then At(s, v, Released).(userRefs := s.userRefs - 1) else s
  }

  // ---------- references ----------

  /** The I/O references a thread holds: on the covered vnode (`None`), or on a covering vnode. */
  function Held(p: Phase, target: Option<nat>): nat {
    if target == None then (if p.PutBy? || p.Stored? || p.GaveUp? || p.Done? || p.Gone? then 0 else 1)
    else if !HasVnode(p) || p.v != target.value then 0
    else if p.Confirmed? || p.GaveUp? then 2
    else 1
  }

  function HeldByAll(threads: seq<Phase>, target: Option<nat>): nat {
    if threads == [] then 0 else Held(threads[0], target) + HeldByAll(threads[1..], target)
  }

  lemma {:induction false} HeldAfter(threads: seq<Phase>, t: nat, p: Phase, target: Option<nat>)
    requires t < |threads|
    ensures HeldByAll(threads[t := p], target) ==
      HeldByAll(threads, target) - Held(threads[t], target) + Held(p, target)
  {
    if t > 0 {
      HeldAfter(threads[1..], t - 1, p, target);
      assert threads[t := p][1..] == threads[1..][t - 1 := p];
    } else {
      assert threads[0 := p][1..] == threads[1..];
    }
  }

  lemma {:induction false} HeldBySome(threads: seq<Phase>, t: nat, target: Option<nat>)
    requires t < |threads|
    ensures Held(threads[t], target) <= HeldByAll(threads, target)
  {
    if t > 0 { HeldBySome(threads[1..], t - 1, target); }
  }

  predicate Refers(c: Covering) {
    c.stage.Referenced? || c.stage.Taken? || c.stage.Cleared?
  }

  function Referring(vnodes: seq<Covering>): nat {
    if vnodes == [] then 0 else Referring(vnodes[..|vnodes| - 1]) + if Refers(vnodes[|vnodes| - 1]) then 1 else 0
  }

  lemma {:induction false} ReferringAfter(vnodes: seq<Covering>, v: nat, c: Covering)
    requires v < |vnodes|
    ensures Referring(vnodes[v := c]) == Referring(vnodes) - (if Refers(vnodes[v]) then 1 else 0) + (if Refers(c) then 1
      else 0)
    ensures Refers(vnodes[v]) ==> Referring(vnodes) > 0
  {
    var n := |vnodes| - 1;
    if v < n {
      ReferringAfter(vnodes[..n], v, c);
      assert vnodes[v := c][..n] == vnodes[..n][v := c];
    } else {
      assert vnodes[n := c][..n] == vnodes[..n];
    }
  }

  // ---------- the invariant ----------

  predicate IsCreator(p: Phase) {
    p.Creating? || p.Made? || p.LinkedBy? || p.ReferencedBy? || p.PutBy? || p.Stored? || p.CreateFailed?
  }

  /** The I/O references on a vnode are those the threads hold. */
  ghost predicate IoOk(s: State, target: Option<nat>) {
    target != None ==> target.value < |s.vnodes| ==> s.vnodes[target.value].io == HeldByAll(s.threads, target)
  }

  /** What the phase of a thread says about the shared state. */
  ghost predicate ThreadOk(s: State, i: nat)
    requires i < |s.threads|
  {
    var p := s.threads[i];
    && (HasVnode(p) ==> p.v < |s.vnodes|)
    && (IsCreator(p) ==> s.beingCreated)
    && (p.Creating? || p.CreateFailed? ==> s.covering == None)
    && (p.Made? ==> s.covering == None && s.vnodes[p.v].stage == Fresh)
    && (p.LinkedBy? ==> s.vnodes[p.v].stage == Linked)
    && (p.ReferencedBy? || p.PutBy? ==> s.vnodes[p.v].stage == Referenced && !s.vnodes[p.v].knows)
    && (p.Stored? ==> s.vnodes[p.v].stage == Referenced)
    && (p.Got? || p.Confirmed? || p.GaveUp? || p.Refused? ==> s.vnodes[p.v].stage != Fresh)
  }

  ghost predicate OneCreator(s: State, i: nat, j: nat)
    requires i < |s.threads| && j < |s.threads|
  {
    IsCreator(s.threads[i]) && IsCreator(s.threads[j]) ==> i == j
  }

  /** A creator that has not yet finished with covering vnode `v`. */
  ghost predicate HasMaker(s: State, v: nat) {
    exists i: nat {:trigger s.threads[i]} :: i < |s.threads| && MakerAt(s.threads[i], s.vnodes, v)
  }

  predicate MakerAt(p: Phase, vnodes: seq<Covering>, v: nat) {
    && v < |vnodes|
    && match vnodes[v].stage
       case Fresh => p == Made(v)
       case Linked => p == LinkedBy(v)
       case Referenced => p == ReferencedBy(v) || p == PutBy(v)
       case _ => false
  }

  ghost predicate VnodeOk(s: State, v: nat)
    requires v < |s.vnodes|
  {
    var c := s.vnodes[v];
    && (c.stage.Linked? || c.stage.Referenced? || c.stage.Taken? <==> s.covering == Some(v))
    && (c.knows ==> c.stage == Referenced)
    && (c.stage.Fresh? || c.stage.Linked? || (c.stage.Referenced? && !c.knows) ==> HasMaker(s, v))
    && (c.stage.Taken? || c.stage.Cleared? || c.stage.Released? ==> c.terminating && c.io == 0)
  }

  ghost predicate Inv(s: State) {
    && (s.covering != None ==> s.covering.value < |s.vnodes|)
    && s.io == HeldByAll(s.threads, None) && s.userRefs == Referring(s.vnodes)
    && (forall target: Option<nat> {:trigger IoOk(s, target)} :: IoOk(s, target))
    && (forall i: nat {:trigger ThreadOk(s, i)} :: i < |s.threads| ==> ThreadOk(s, i))
    && (forall i: nat, j: nat {:trigger OneCreator(s, i, j)} :: i < |s.threads| && j < |s.threads| ==>
      OneCreator(s, i, j))
    && (forall v: nat {:trigger VnodeOk(s, v)} :: v < |s.vnodes| ==> VnodeOk(s, v))
    && (s.beingCreated ==> exists i: nat {:trigger s.threads[i]} :: i < |s.threads| && IsCreator(s.threads[i]))
  }

  // ---------- thread steps keep the invariant ----------

  /** Thread `t` moves and the I/O references move with it; new ones are granted on living vnodes only. */
  ghost predicate Moves(s: State, u: State, t: nat)
    requires t < |s.threads|
  {
    && |u.threads| == |s.threads| && u.threads == s.threads[t := u.threads[t]]
    && |s.vnodes| <= |u.vnodes|
    && u.io - s.io == Held(u.threads[t], None) - Held(s.threads[t], None)
    && forall v: nat {:trigger u.vnodes[v]} :: v < |s.vnodes| ==>
      && u.vnodes[v].io - s.vnodes[v].io == Held(u.threads[t], Some(v)) - Held(s.threads[t], Some(v))
      && u.vnodes[v].terminating == s.vnodes[v].terminating
      && (Held(u.threads[t], Some(v)) > Held(s.threads[t], Some(v)) ==> !s.vnodes[v].terminating)
  }

  /** Nothing about the creation and the links changes. */
  ghost predicate Quiet(s: State, u: State) {
    && u.covering == s.covering && u.beingCreated == s.beingCreated && u.userRefs == s.userRefs &&
      |u.vnodes| == |s.vnodes|
    && forall v: nat {:trigger u.vnodes[v]} :: v < |s.vnodes| ==>
      u.vnodes[v].stage == s.vnodes[v].stage && u.vnodes[v].knows == s.vnodes[v].knows
  }

  lemma CountsKept(s: State, u: State, t: nat)
    requires Inv(s) && t < |s.threads| && Moves(s, u, t)
    ensures u.io == HeldByAll(u.threads, None)
    ensures forall target: Option<nat> {:trigger IoOk(u, target)} :: (target != None ==> target.value < |s.vnodes|) ==>
      IoOk(u, target)
    ensures forall v: nat {:trigger u.vnodes[v]} :: v < |s.vnodes| && s.vnodes[v].terminating && s.vnodes[v].io == 0 ==>
      u.vnodes[v].terminating && u.vnodes[v].io == 0
  {
    HeldAfter(s.threads, t, u.threads[t], None);
    forall target: Option<nat> {:trigger IoOk(u, target)} | target != None ==> target.value < |s.vnodes|
      ensures IoOk(u, target) {
      assert IoOk(s, target);
      HeldAfter(s.threads, t, u.threads[t], target);
    }
    forall v: nat {:trigger u.vnodes[v]} | v < |s.vnodes| && s.vnodes[v].terminating && s.vnodes[v].io == 0
      ensures u.vnodes[v].io == 0 {
      assert IoOk(s, Some(v));
      HeldBySome(s.threads, t, Some(v));
    }
  }

  lemma {:induction false} ReferringSame(a: seq<Covering>, b: seq<Covering>)
    requires |a| == |b| && forall v: nat {:trigger b[v]} :: v < |a| ==> b[v].stage == a[v].stage
    ensures Referring(a) == Referring(b)
  {
    if a != [] {
      var n := |a| - 1;
      assert b[n].stage == a[n].stage;
      ReferringSame(a[..n], b[..n]);
    }
  }

  lemma MakerStays(s: State, u: State, t: nat, v: nat)
    requires Inv(s) && t < |s.threads| && |u.threads| == |s.threads| && u.threads == s.threads[t := u.threads[t]]
    requires v < |s.vnodes| <= |u.vnodes| && u.vnodes[v].stage == s.vnodes[v].stage && HasMaker(s, v) &&
      !IsCreator(s.threads[t])
    ensures HasMaker(u, v)
  {
    var i: nat :| i < |s.threads| && MakerAt(s.threads[i], s.vnodes, v);
    assert u.threads[i] == s.threads[i] && MakerAt(u.threads[i], u.vnodes, v);
  }

  /** A step outside the creation. */
  lemma QuietKeeps(s: State, u: State, t: nat)
    requires Inv(s) && t < |s.threads| && Moves(s, u, t) && Quiet(s, u)
    requires !IsCreator(s.threads[t]) && !IsCreator(u.threads[t]) && ThreadOk(u, t)
    ensures Inv(u)
  {
    CountsKept(s, u, t);
    ReferringSame(s.vnodes, u.vnodes);
    forall i: nat {:trigger ThreadOk(u, i)} | i < |u.threads| && i != t ensures ThreadOk(u, i) {
      assert ThreadOk(s, i);
    }
    forall i: nat, j: nat {:trigger OneCreator(u, i, j)} | i < |u.threads| && j < |u.threads|
      ensures OneCreator(u, i, j) {
      assert OneCreator(s, i, j);
    }
    forall v: nat {:trigger VnodeOk(u, v)} | v < |u.vnodes| ensures VnodeOk(u, v) {
      assert VnodeOk(s, v) && u.vnodes[v].stage == s.vnodes[v].stage;
      if HasMaker(s, v) { MakerStays(s, u, t, v); }
    }
    if s.beingCreated {
      var i: nat :| i < |s.threads| && IsCreator(s.threads[i]);
      assert u.threads[i] == s.threads[i];
    }
  }

  lemma QuietStep(s: State, t: nat, succeeds: bool)
    requires Inv(s) && t < |s.threads| && VnodesExist(s)
    requires !IsCreator(s.threads[t]) && !IsCreator(ThreadStep(s, t, succeeds).threads[t])
    ensures Inv(ThreadStep(s, t, succeeds))
  {
    assert ThreadOk(s, t);
    if s.threads[t].Looking? && s.covering != None { assert VnodeOk(s, s.covering.value); }
    QuietChange(s, t, succeeds);
    QuietKeeps(s, ThreadStep(s, t, succeeds), t);
  }

  lemma QuietChange(s: State, t: nat, succeeds: bool)
    requires t < |s.threads| && VnodesExist(s) && ThreadOk(s, t)
    requires s.threads[t].Looking? && s.covering != None ==> VnodeOk(s, s.covering.value)
    requires !IsCreator(s.threads[t]) && !IsCreator(ThreadStep(s, t, succeeds).threads[t])
    ensures Moves(s, ThreadStep(s, t, succeeds), t) && Quiet(s, ThreadStep(s, t, succeeds)) &&
      ThreadOk(ThreadStep(s, t, succeeds), t)
  {
    if HasVnode(s.threads[t]) {
      VnodeChange(s, t, succeeds);
    }
  }

  lemma VnodeChange(s: State, t: nat, succeeds: bool)
    requires t < |s.threads| && VnodesExist(s) && ThreadOk(s, t) && HasVnode(s.threads[t]) && !IsCreator(s.threads[t])
    ensures Moves(s, ThreadStep(s, t, succeeds), t) && Quiet(s, ThreadStep(s, t, succeeds)) &&
      ThreadOk(ThreadStep(s, t, succeeds), t)
  {
    VnodeMoves(s, t, succeeds);
    VnodeUpdated(s, t, succeeds);
  }

  /** The step changes the thread's own vnode and not its stage. */
  lemma VnodeUpdated(s: State, t: nat, succeeds: bool)
    requires t < |s.threads| && VnodesExist(s) && ThreadOk(s, t) && HasVnode(s.threads[t]) && !IsCreator(s.threads[t])
    ensures var u, w := ThreadStep(s, t, succeeds), s.threads[t].v;
      u.vnodes == s.vnodes[w := u.vnodes[w]] && u.vnodes[w].stage == s.vnodes[w].stage
  {
  }

  lemma VnodeMoves(s: State, t: nat, succeeds: bool)
    requires t < |s.threads| && VnodesExist(s) && ThreadOk(s, t) && HasVnode(s.threads[t]) && !IsCreator(s.threads[t])
    ensures Moves(s, ThreadStep(s, t, succeeds), t) && ThreadOk(ThreadStep(s, t, succeeds), t)
  {
    VnodeUpdated(s, t, succeeds);
    OneVnodeMoves(s, ThreadStep(s, t, succeeds), t, s.threads[t].v);
  }

  /** A thread that changes the counts of its own vnode only, as its phase says. */
  lemma OneVnodeMoves(s: State, u: State, t: nat, w: nat)
    requires t < |s.threads| && |u.threads| == |s.threads| && u.threads == s.threads[t := u.threads[t]]
    requires w < |s.vnodes| && |u.vnodes| == |s.vnodes| && u.vnodes == s.vnodes[w := u.vnodes[w]]
    requires HasVnode(s.threads[t]) && s.threads[t].v == w && (HasVnode(u.threads[t]) ==> u.threads[t].v == w)
    requires u.io - s.io == Held(u.threads[t], None) - Held(s.threads[t], None)
    requires u.vnodes[w].io - s.vnodes[w].io == Held(u.threads[t], Some(w)) - Held(s.threads[t], Some(w))
    requires u.vnodes[w].terminating == s.vnodes[w].terminating
    requires Held(u.threads[t], Some(w)) > Held(s.threads[t], Some(w)) ==> !s.vnodes[w].terminating
    ensures Moves(s, u, t)
  {
    forall v: nat {:trigger u.vnodes[v]} | v < |s.vnodes|
      ensures u.vnodes[v].io - s.vnodes[v].io == Held(u.threads[t], Some(v)) - Held(s.threads[t], Some(v))
      ensures u.vnodes[v].terminating == s.vnodes[v].terminating
      ensures Held(u.threads[t], Some(v)) > Held(s.threads[t], Some(v)) ==> !s.vnodes[v].terminating
    {
      if v != w {
        assert u.vnodes[v] == s.vnodes[v];
        assert Held(u.threads[t], Some(v)) == 0 == Held(s.threads[t], Some(v));
      }
    }
  }

  /** A step of the only creator. */
  lemma CreatorKeeps(s: State, u: State, t: nat)
    requires Inv(s) && t < |s.threads| && Moves(s, u, t) && ThreadOk(u, t)
    requires forall i: nat {:trigger s.threads[i]} :: i < |s.threads| && i != t ==> !IsCreator(s.threads[i])
    requires forall v: nat {:trigger u.vnodes[v]} :: v < |s.vnodes| && s.vnodes[v].stage != Fresh ==>
      u.vnodes[v].stage != Fresh
    requires u.beingCreated == IsCreator(u.threads[t])
    requires forall v: nat {:trigger VnodeOk(u, v)} :: v < |u.vnodes| ==> VnodeOk(u, v)
    requires forall target: Option<nat> {:trigger IoOk(u, target)} ::
      target != None && |s.vnodes| <= target.value < |u.vnodes| ==> IoOk(u, target)
    requires (u.covering != None ==> u.covering.value < |u.vnodes|) && u.userRefs == Referring(u.vnodes)
    ensures Inv(u)
  {
    CountsKept(s, u, t);
    forall target: Option<nat> {:trigger IoOk(u, target)} ensures IoOk(u, target) {
    }
    forall i: nat {:trigger ThreadOk(u, i)} | i < |u.threads| && i != t ensures ThreadOk(u, i) {
      assert ThreadOk(s, i) && u.threads[i] == s.threads[i];
    }
    forall i: nat, j: nat {:trigger OneCreator(u, i, j)} | i < |u.threads| && j < |u.threads|
      ensures OneCreator(u, i, j) {
      assert i != t ==> u.threads[i] == s.threads[i];
      assert j != t ==> u.threads[j] == s.threads[j];
    }
  }

  /** While a thread creates, or may begin to, no other thread does. */
  lemma Alone(s: State, t: nat)
    requires Inv(s) && t < |s.threads| && (IsCreator(s.threads[t]) || !s.beingCreated)
    ensures forall i: nat {:trigger s.threads[i]} :: i < |s.threads| && i != t ==> !IsCreator(s.threads[i])
  {
    forall i: nat {:trigger s.threads[i]} | i < |s.threads| && i != t ensures !IsCreator(s.threads[i]) {
      assert ThreadOk(s, i) && OneCreator(s, i, t);
    }
  }

  /** The only thread that can be the maker of a vnode is the creator. */
  lemma MakerIs(s: State, t: nat, v: nat)
    requires Inv(s) && t < |s.threads| && (IsCreator(s.threads[t]) || !s.beingCreated) && HasMaker(s, v)
    ensures MakerAt(s.threads[t], s.vnodes, v)
  {
    Alone(s, t);
    var i: nat :| i < |s.threads| && MakerAt(s.threads[i], s.vnodes, v);
    assert i == t;
  }

  lemma Begins(s: State, t: nat)
    requires Inv(s) && t < |s.threads| && VnodesExist(s) && s.threads[t].Start? && !s.beingCreated && s.covering == None
    ensures Inv(ThreadStep(s, t, true))
  {
    var u := ThreadStep(s, t, true);
    assert ThreadOk(s, t);
    Alone(s, t);
    forall v: nat {:trigger VnodeOk(u, v)} | v < |u.vnodes| ensures VnodeOk(u, v) {
      assert VnodeOk(s, v);
      if HasMaker(s, v) { MakerIs(s, t, v); }
    }
    CreatorKeeps(s, u, t);
  }

  lemma {:induction false} NobodyHolds(threads: seq<Phase>, v: nat)
    requires forall t: nat {:trigger threads[t]} :: t < |threads| && HasVnode(threads[t]) ==> threads[t].v != v
    ensures HeldByAll(threads, Some(v)) == 0
  {
    if threads != [] {
      var rest := threads[1..];
      assert forall t: nat {:trigger rest[t]} :: t < |rest| ==> rest[t] == threads[t + 1];
      NobodyHolds(rest, v);
    }
  }

  lemma Creates(s: State, t: nat)
    requires Inv(s) && t < |s.threads| && VnodesExist(s) && s.threads[t].Creating?
    ensures Inv(ThreadStep(s, t, true))
  {
    var u, n := ThreadStep(s, t, true), |s.vnodes|;
    assert ThreadOk(s, t);
    Alone(s, t);
    NobodyHolds(s.threads, n);
    HeldAfter(s.threads, t, Made(n), Some(n));
    assert u.threads[t] == Made(n) && MakerAt(u.threads[t], u.vnodes, n);
    assert u.vnodes[..n] == s.vnodes;
    forall v: nat {:trigger VnodeOk(u, v)} | v < |u.vnodes| ensures VnodeOk(u, v) {
      if v < n {
        assert VnodeOk(s, v);
        if HasMaker(s, v) { MakerIs(s, t, v); }
      }
    }
    CreatorKeeps(s, u, t);
  }

  lemma CreationEnds(s: State, t: nat, succeeds: bool)
    requires Inv(s) && t < |s.threads| && VnodesExist(s)
    requires (s.threads[t].Creating? && !succeeds) || s.threads[t].CreateFailed? || s.threads[t].Stored?
    ensures Inv(ThreadStep(s, t, succeeds))
  {
    var u := ThreadStep(s, t, succeeds);
    assert ThreadOk(s, t);
    Alone(s, t);
    forall v: nat {:trigger VnodeOk(u, v)} | v < |u.vnodes| ensures VnodeOk(u, v) {
      assert VnodeOk(s, v);
      if HasMaker(s, v) { MakerIs(s, t, v); }
    }
    CreatorKeeps(s, u, t);
  }

  lemma Links(s: State, t: nat)
    requires Inv(s) && t < |s.threads| && VnodesExist(s) && s.threads[t].Made?
    ensures Inv(ThreadStep(s, t, true))
  {
    var u, w := ThreadStep(s, t, true), s.threads[t].v;
    assert ThreadOk(s, t) && VnodeOk(s, w);
    Alone(s, t);
    ReferringAfter(s.vnodes, w, u.vnodes[w]);
    assert u.threads[t] == LinkedBy(w) && MakerAt(u.threads[t], u.vnodes, w);
    forall v: nat {:trigger VnodeOk(u, v)} | v < |u.vnodes| ensures VnodeOk(u, v) {
      assert VnodeOk(s, v);
      if HasMaker(s, v) { MakerIs(s, t, v); }
    }
    CreatorKeeps(s, u, t);
  }

  lemma TakesReference(s: State, t: nat)
    requires Inv(s) && t < |s.threads| && VnodesExist(s) && s.threads[t].LinkedBy?
    ensures Inv(ThreadStep(s, t, true))
  {
    var u, w := ThreadStep(s, t, true), s.threads[t].v;
    assert ThreadOk(s, t) && VnodeOk(s, w);
    Alone(s, t);
    ReferringAfter(s.vnodes, w, u.vnodes[w]);
    assert u.threads[t] == ReferencedBy(w) && MakerAt(u.threads[t], u.vnodes, w);
    forall v: nat {:trigger VnodeOk(u, v)} | v < |u.vnodes| ensures VnodeOk(u, v) {
      assert VnodeOk(s, v);
      if HasMaker(s, v) { MakerIs(s, t, v); }
    }
    CreatorKeeps(s, u, t);
  }

  lemma PutsAndStores(s: State, t: nat)
    requires Inv(s) && t < |s.threads| && VnodesExist(s) && (s.threads[t].ReferencedBy? || s.threads[t].PutBy?)
    ensures Inv(ThreadStep(s, t, true))
  {
    var u, w := ThreadStep(s, t, true), s.threads[t].v;
    assert ThreadOk(s, t) && VnodeOk(s, w);
    Alone(s, t);
    ReferringAfter(s.vnodes, w, u.vnodes[w]);
    assert s.threads[t].ReferencedBy? ==>
      u.threads[t] == PutBy(w) && MakerAt(u.threads[t], u.vnodes, w) && u.vnodes == s.vnodes;
    forall v: nat {:trigger VnodeOk(u, v)} | v < |u.vnodes| ensures VnodeOk(u, v) {
      assert VnodeOk(s, v);
      if HasMaker(s, v) { MakerIs(s, t, v); }
    }
    CreatorKeeps(s, u, t);
  }

  lemma ThreadStepKeeps(s: State, t: nat, succeeds: bool)
    requires Inv(s) && t < |s.threads| && VnodesExist(s)
    ensures Inv(ThreadStep(s, t, succeeds))
  {
    var p := s.threads[t];
    if p.Start? && !s.beingCreated && s.covering == None {
      Begins(s, t);
    } else if p.Creating? && succeeds {
      Creates(s, t);
    } else if p.Creating? || p.CreateFailed? || p.Stored? {
      CreationEnds(s, t, succeeds);
    } else if p.Made? {
      Links(s, t);
    } else if p.LinkedBy? {
      TakesReference(s, t);
    } else if p.ReferencedBy? || p.PutBy? {
      PutsAndStores(s, t);
    } else {
      QuietStep(s, t, succeeds);
    }
  }

  lemma Exist(s: State)
    requires Inv(s)
    ensures VnodesExist(s)
  {
    forall t: nat {:trigger s.threads[t]} | t < |s.threads| && HasVnode(s.threads[t])
      ensures s.threads[t].v < |s.vnodes| {
      assert ThreadOk(s, t);
    }
  }

  // ---------- system steps keep the invariant ----------

  lemma MakerHolds(s: State, v: nat)
    requires Inv(s) && v < |s.vnodes| && HasMaker(s, v)
    ensures s.vnodes[v].io > 0 && (s.io > 0 || s.vnodes[v].stage == Referenced)
  {
    var i: nat :| i < |s.threads| && MakerAt(s.threads[i], s.vnodes, v);
    assert IoOk(s, Some(v));
    HeldBySome(s.threads, i, Some(v));
    if !s.threads[i].PutBy? { HeldBySome(s.threads, i, None); }
  }

  /** One covering vnode becomes `c`; the threads and the I/O references stay as they are. */
  ghost predicate OwnChange(s: State, u: State, w: nat, c: Covering)
    requires w < |s.vnodes|
  {
    && u.threads == s.threads && u.io == s.io && u.beingCreated == s.beingCreated
    && u.vnodes == s.vnodes[w := c] && c.io == s.vnodes[w].io
    && u.userRefs - s.userRefs == (if Refers(c) then 1 else 0) - (if Refers(s.vnodes[w]) then 1 else 0)
    && (u.covering == s.covering || (s.covering == Some(w) && u.covering == None))
    && (c.stage != s.vnodes[w].stage ==>
      !HasMaker(s, w) && c.stage != Fresh && c.stage != Referenced && s.vnodes[w].stage != Fresh)
    && (s.vnodes[w].stage == Referenced && c.stage != Referenced ==> s.vnodes[w].io == 0)
    && (c.knows ==> s.vnodes[w].knows)
  }

  lemma VnodeStepKeeps(s: State, u: State, w: nat, c: Covering)
    requires Inv(s) && w < |s.vnodes| && OwnChange(s, u, w, c) && VnodeOk(u, w)
    ensures Inv(u)
  {
    ReferringAfter(s.vnodes, w, c);
    forall target: Option<nat> {:trigger IoOk(u, target)} ensures IoOk(u, target) {
      assert IoOk(s, target);
    }
    forall i: nat {:trigger ThreadOk(u, i)} | i < |u.threads| ensures ThreadOk(u, i) {
      SameThread(s, u, w, c, i);
    }
    forall i: nat, j: nat {:trigger OneCreator(u, i, j)} | i < |u.threads| && j < |u.threads|
      ensures OneCreator(u, i, j) {
      assert OneCreator(s, i, j);
    }
    forall v: nat {:trigger VnodeOk(u, v)} | v < |u.vnodes| && v != w ensures VnodeOk(u, v) {
      assert VnodeOk(s, v) && u.vnodes[v] == s.vnodes[v];
      if HasMaker(s, v) {
        var i: nat :| i < |s.threads| && MakerAt(s.threads[i], s.vnodes, v);
        assert MakerAt(u.threads[i], u.vnodes, v);
      }
    }
  }

  lemma SameThread(s: State, u: State, w: nat, c: Covering, i: nat)
    requires Inv(s) && w < |s.vnodes| && OwnChange(s, u, w, c) && i < |s.threads|
    ensures ThreadOk(u, i)
  {
    assert ThreadOk(s, i);
    var p := s.threads[i];
    if HasVnode(p) && p.v == w {
      assert MakerAt(p, s.vnodes, w) ==> HasMaker(s, w);
      assert IoOk(s, Some(w));
      HeldBySome(s.threads, i, Some(w));
    }
  }

  lemma SystemStepKeeps(s: State, step: Step)
    requires Inv(s) && !step.Go? && step.vnode < |s.vnodes|
    ensures Inv(SystemStep(s, step))
  {
    var u, w := SystemStep(s, step), step.vnode;
    assert VnodeOk(s, w);
    if u != s {
      var c := u.vnodes[w];
      assert u.vnodes == s.vnodes[w := c];
      if HasMaker(s, w) {
        MakerHolds(s, w);
        var i: nat :| i < |s.threads| && MakerAt(s.threads[i], s.vnodes, w);
        assert ThreadOk(s, i);
        assert c.stage == s.vnodes[w].stage ==> MakerAt(u.threads[i], u.vnodes, w);
      }
      VnodeStepKeeps(s, u, w, c);
    }
  }

  // ---------- runs ----------

  /** A step that cannot be taken changes nothing. */
  ghost function Next(s: State, step: Step): State {
    if step.Go? then if step.thread < |s.threads| && VnodesExist(s) then ThreadStep(s, step.thread, step.succeeds)
      else s
    else if step.vnode < |s.vnodes| then SystemStep(s, step)
    else s
  }

  ghost function Run(s: State, steps: seq<Step>): State {
    if steps == [] then s else Next(Run(s, steps[..|steps| - 1]), steps[|steps| - 1])
  }

  /** `n` callers, each with an I/O reference on the covered vnode. */
  function Initial(n: nat): State {
    State(None, false, n, 0, [], seq(n, _ => Start))
  }

  lemma {:induction false} InitialHeld(n: nat)
    ensures HeldByAll(seq(n, _ => Start), None) == n
  {
    if n > 0 {
      InitialHeld(n - 1);
      assert seq(n, _ => Start)[1..] == seq(n - 1, _ => Start);
    }
  }

  lemma {:induction false} RunKeeps(n: nat, steps: seq<Step>)
    ensures Inv(Run(Initial(n), steps))
  {
    if steps == [] {
      InitialHeld(n);
      assert forall target: Option<nat> {:trigger IoOk(Initial(n), target)} :: IoOk(Initial(n), target);
    } else {
      RunKeeps(n, steps[..|steps| - 1]);
      var s, step := Run(Initial(n), steps[..|steps| - 1]), steps[|steps| - 1];
      Exist(s);
      if step.Go? {
        if step.thread < |s.threads| { ThreadStepKeeps(s, step.thread, step.succeeds); }
      } else if step.vnode < |s.vnodes| {
        SystemStepKeeps(s, step);
      }
    }
  }

  // ---------- who fails, and what a caller achieves alone ----------

  predicate Fails(p: Phase) {
    p.CreateFailed? || p.Failed?
  }

  /** At some step of the run the creation of a covering vnode by thread `t` fails. */
  ghost predicate OwnCreationFails(n: nat, steps: seq<Step>, t: nat) {
    exists i: nat {:trigger steps[..i]} :: i < |steps| && CreationFailsAt(Run(Initial(n), steps[..i]), steps[i], t)
  }

  ghost predicate CreationFailsAt(s: State, step: Step, t: nat) {
    step == Go(t, false) && t < |s.threads| && s.threads[t].Creating?
  }

  lemma NextThreads(s: State, step: Step)
    ensures |Next(s, step).threads| == |s.threads|
    ensures forall t: nat {:trigger Next(s, step).threads[t]} :: t < |s.threads| && !(step.Go? && step.thread == t) ==>
      Next(s, step).threads[t] == s.threads[t]
  {
    if step.Go? && step.thread < |s.threads| && VnodesExist(s) {
      OnlyOwnPhase(s, step.thread, step.succeeds);
    }
  }

  lemma OnlyOwnPhase(s: State, t: nat, succeeds: bool)
    requires t < |s.threads| && VnodesExist(s)
    ensures var u := ThreadStep(s, t, succeeds);
      |u.threads| == |s.threads| && u.threads == s.threads[t := u.threads[t]]
  {
  }

  /** One step makes a thread fail exactly when it is the failure of the thread's own creation. */
  lemma FailingStep(s: State, step: Step, t: nat)
    requires Inv(s) && t < |s.threads|
    ensures |Next(s, step).threads| == |s.threads|
    ensures var p, q := s.threads[t], Next(s, step).threads[t];
      && (Fails(q) ==> Fails(p) || CreationFailsAt(s, step, t))
      && (Fails(p) || p.Gone? ==> Fails(q) || q.Gone?)
      && (CreationFailsAt(s, step, t) ==> Fails(q))
  {
    Exist(s);
    NextThreads(s, step);
    if step.Go? && step.thread == t { FailingPhase(s, t, step.succeeds); }
  }

  lemma FailingPhase(s: State, t: nat, succeeds: bool)
    requires t < |s.threads| && VnodesExist(s)
    ensures |ThreadStep(s, t, succeeds).threads| == |s.threads|
    ensures var p, q := s.threads[t], ThreadStep(s, t, succeeds).threads[t];
      && (Fails(q) <==> p.CreateFailed? || (p.Creating? && !succeeds))
      && (Fails(p) || p.Gone? ==> Fails(q) || q.Gone?)
  {
  }

  lemma OwnCreationStep(n: nat, before: seq<Step>, step: Step, t: nat)
    ensures OwnCreationFails(n, before + [step], t) <==>
      OwnCreationFails(n, before, t) || CreationFailsAt(Run(Initial(n), before), step, t)
  {
    var steps := before + [step];
    assert steps[..|before|] == before;
    assert forall i: nat {:trigger steps[..i]} {:trigger before[..i]} :: i < |before| ==>
      steps[..i] == before[..i] && steps[i] == before[i];
    if i: nat :| i < |before| && CreationFailsAt(Run(Initial(n), before[..i]), before[i], t) {
      assert CreationFailsAt(Run(Initial(n), steps[..i]), steps[i], t);
    }
  }

  /** In every run a caller fails if and only if its own creation of a covering vnode has failed: a refusal by a
      covering
      vnode that is going away, or a lost race, only makes it try again. */
  lemma FailsIff(n: nat, steps: seq<Step>, t: nat)
    requires t < n
    ensures |Run(Initial(n), steps).threads| == n
    ensures var p := Run(Initial(n), steps).threads[t];
      Fails(p) <==> OwnCreationFails(n, steps, t) && !p.Gone?
  {
    FailureKnown(n, steps, t);
  }

  /** A failed caller's creation has failed; a caller whose creation has failed has failed, or returned. */
  ghost predicate FailureOk(p: Phase, ownFails: bool) {
    (Fails(p) ==> ownFails) && (ownFails ==> Fails(p) || p.Gone?)
  }

  lemma FailingRun(n: nat, before: seq<Step>, step: Step, t: nat)
    requires t < n && |Run(Initial(n), before).threads| == n
    requires FailureOk(Run(Initial(n), before).threads[t], OwnCreationFails(n, before, t))
    ensures var steps := before + [step];
      |Run(Initial(n), steps).threads| == n && FailureOk(Run(Initial(n), steps).threads[t],
        OwnCreationFails(n, steps, t))
  {
    assert (before + [step])[..|before|] == before;
    RunKeeps(n, before);
    FailingStep(Run(Initial(n), before), step, t);
    OwnCreationStep(n, before, step, t);
  }

  lemma {:induction false} FailureKnown(n: nat, steps: seq<Step>, t: nat)
    requires t < n
    ensures |Run(Initial(n), steps).threads| == n
    ensures FailureOk(Run(Initial(n), steps).threads[t], OwnCreationFails(n, steps, t))
    decreases |steps|
  {
    if steps == [] {
      assert !OwnCreationFails(n, [], t);
    } else {
      var before, step := steps[..|steps| - 1], steps[|steps| - 1];
      FailureKnown(n, before, t);
      FailingRun(n, before, step, t);
      assert before + [step] == steps;
    }
  }

  /** Thread `t` takes `k` steps with nobody between them, and no call fails. */
  ghost function Solo(s: State, t: nat, k: nat): State {
    if k == 0 then s else Next(Solo(s, t, k - 1), Go(t, true))
  }

  /** The thread takes one more step alone, from `u` to `v`. */
  lemma SoloNext(s: State, t: nat, k: nat, u: State, v: State)
    requires Solo(s, t, k) == u && t < |u.threads| && VnodesExist(u) && ThreadStep(u, t, true) == v
    ensures Solo(s, t, k + 1) == v
  {
  }

  /** Vnodes stay when a thread has moved to phase `p`. */
  lemma StillExist(s: State, u: State, t: nat, p: Phase)
    requires VnodesExist(s) && t < |s.threads| && u.threads == s.threads[t := p] && |s.vnodes| <= |u.vnodes|
    requires u.covering != None ==> u.covering.value < |u.vnodes|
    requires HasVnode(p) ==> p.v < |u.vnodes|
    ensures VnodesExist(u)
  {
    forall i: nat {:trigger u.threads[i]} | i < |u.threads| && HasVnode(u.threads[i])
      ensures u.threads[i].v < |u.vnodes| {
      if i != t { assert u.threads[i] == s.threads[i]; }
    }
  }

  /** A caller that finds the vnode uncovered and nobody at work covers it: with a new covering vnode that is linked,
      holds
      one I/O reference for the caller and the user reference on the covered vnode, for the caller's own I/O reference.
      */
  lemma CoversAlone(s: State, t: nat)
    requires VnodesExist(s) && t < |s.threads| && s.threads[t].Start? && !s.beingCreated && s.covering == None
    ensures Solo(s, t, 7) == State(Some(|s.vnodes|), false, s.io - 1, s.userRefs + 1,
      s.vnodes + [Covering(Referenced, 1, true, false)], s.threads[t := Done(|s.vnodes|)])
  {
    var v := |s.vnodes|;
    var u4 := LinksAlone(s, t);
    var u5 := u4.(io := s.io - 1, threads := s.threads[t := PutBy(v)]);
    StillExist(s, u4, t, ReferencedBy(v));
    SoloNext(s, t, 4, u4, u5);
    var u6 := u5.(vnodes := s.vnodes + [Covering(Referenced, 1, true, false)], threads := s.threads[t := Stored(v)]);
    StillExist(s, u5, t, PutBy(v));
    SoloNext(s, t, 5, u5, u6);
    StillExist(s, u6, t, Stored(v));
    SoloNext(s, t, 6, u6, u6.(beingCreated := false, threads := s.threads[t := Done(v)]));
  }

  /** Half way: the new covering vnode is linked and referenced. */
  lemma LinksAlone(s: State, t: nat) returns (u: State)
    requires VnodesExist(s) && t < |s.threads| && s.threads[t].Start? && !s.beingCreated && s.covering == None
    ensures Solo(s, t, 4) == u == State(Some(|s.vnodes|), true, s.io, s.userRefs + 1,
      s.vnodes + [Covering(Referenced, 1, false, false)], s.threads[t := ReferencedBy(|s.vnodes|)])
  {
    var v := |s.vnodes|;
    var u1 := s.(beingCreated := true, threads := s.threads[t := Creating]);
    SoloNext(s, t, 0, s, u1);
    var u2 := u1.(vnodes := s.vnodes + [Covering(Fresh, 1, false, false)], threads := s.threads[t := Made(v)]);
    StillExist(s, u1, t, Creating);
    SoloNext(s, t, 1, u1, u2);
    var u3 := u2.(covering := Some(v), vnodes := s.vnodes + [Covering(Linked, 1, false, false)], threads :=
      s.threads[t := LinkedBy(v)]);
    StillExist(s, u2, t, Made(v));
    SoloNext(s, t, 2, u2, u3);
    u := u3.(userRefs := s.userRefs + 1, vnodes := s.vnodes + [Covering(Referenced, 1, false, false)], threads :=
      s.threads[t := ReferencedBy(v)]);
    StillExist(s, u3, t, LinkedBy(v));
    SoloNext(s, t, 3, u3, u);
  }

  /** A caller that finds the vnode covered, and the covering vnode not going away, shares it: one I/O reference more on
      the
      covering vnode for one less on the covered one. */
  lemma JoinsAlone(s: State, t: nat)
    requires VnodesExist(s) && t < |s.threads| && s.threads[t].Start? && !s.beingCreated && s.covering != None
    requires !s.vnodes[s.covering.value].terminating
    ensures var v := s.covering.value;
      Solo(s, t, 5) == s.(io := s.io - 1, vnodes := s.vnodes[v := s.vnodes[v].(io := s.vnodes[v].io + 1)],
        threads := s.threads[t := Done(v)])
  {
    var v := s.covering.value;
    var c := s.vnodes[v];
    var u := GivesUpAlone(s, t, v);
    var u' := u.(vnodes := u.vnodes[v := c.(io := c.io + 1)], threads := u.threads[t := Done(v)]);
    PutsExtra(u, t, v, c.(io := c.io + 1));
    SoloNext(s, t, 4, u, u');
    assert u'.vnodes == s.vnodes[v := c.(io := c.io + 1)];
    assert u'.threads == s.threads[t := Done(v)];
  }

  /** The own I/O reference on the covered vnode is given up. */
  lemma GivesUpAlone(s: State, t: nat, v: nat) returns (u: State)
    requires VnodesExist(s) && t < |s.threads| && s.threads[t].Start? && !s.beingCreated && s.covering == Some(v)
    requires v < |s.vnodes| && !s.vnodes[v].terminating
    ensures VnodesExist(u) && Solo(s, t, 4) == u
    ensures u == s.(io := s.io - 1, vnodes := s.vnodes[v := s.vnodes[v].(io := s.vnodes[v].io + 2)], threads :=
      s.threads[t := GaveUp(v)])
  {
    var u3 := ConfirmsAlone(s, t, v);
    u := u3.(io := s.io - 1, threads := s.threads[t := GaveUp(v)]);
    StillExist(s, u3, t, Confirmed(v));
    SoloNext(s, t, 3, u3, u);
    StillExist(s, u, t, GaveUp(v));
  }

  lemma PutsExtra(u: State, t: nat, v: nat, c: Covering)
    requires VnodesExist(u) && t < |u.threads| && u.threads[t] == GaveUp(v)
    requires v < |u.vnodes| && c == u.vnodes[v].(io := u.vnodes[v].io - 1)
    ensures ThreadStep(u, t, true) == u.(vnodes := u.vnodes[v := c], threads := u.threads[t := Done(v)])
  {
  }

  /** Half way: the covering vnode is found and confirmed. */
  lemma ConfirmsAlone(s: State, t: nat, v: nat) returns (u: State)
    requires VnodesExist(s) && t < |s.threads| && s.threads[t].Start? && !s.beingCreated && s.covering == Some(v)
    requires v < |s.vnodes| && !s.vnodes[v].terminating
    ensures Solo(s, t, 3) == u == s.(vnodes := s.vnodes[v := s.vnodes[v].(io := s.vnodes[v].io + 2)], threads :=
      s.threads[t := Confirmed(v)])
  {
    var c := s.vnodes[v];
    var u1 := s.(threads := s.threads[t := Looking]);
    SoloNext(s, t, 0, s, u1);
    var u2 := s.(vnodes := s.vnodes[v := c.(io := c.io + 1)], threads := s.threads[t := Got(v)]);
    StillExist(s, u1, t, Looking);
    SoloNext(s, t, 1, u1, u2);
    u := s.(vnodes := s.vnodes[v := c.(io := c.io + 2)], threads := s.threads[t := Confirmed(v)]);
    StillExist(s, u2, t, Got(v));
    SoloNext(s, t, 2, u2, u);
  }

  /** A reclaim of a covering vnode that nobody uses, from its beginning to its end: the link of the covered vnode is
      cleared, and the user reference is given back. */
  lemma ReclaimsAlone(s: State, v: nat)
    requires v < |s.vnodes| && s.vnodes[v].stage == Referenced && s.vnodes[v].knows && s.vnodes[v].io == 0
    ensures var s1 := SystemStep(s, Terminate(v));
      |s1.vnodes| == |s.vnodes| &&
      var s2 := SystemStep(s1, Take(v));
      |s2.vnodes| == |s.vnodes| &&
      var s3 := SystemStep(s2, Clear(v));
      |s3.vnodes| == |s.vnodes| &&
      SystemStep(s3, Release(v)) == s.(covering := None, userRefs := s.userRefs - 1, vnodes :=
        s.vnodes[v := Covering(Released, 0, false, true)])
  {
    var s1 := SystemStep(s, Terminate(v));
    assert s1.vnodes[v] == Covering(Referenced, 0, true, true);
    var s2 := SystemStep(s1, Take(v));
    assert s2.vnodes[v] == Covering(Taken, 0, false, true);
    var s3 := SystemStep(s2, Clear(v));
    assert s3.vnodes[v] == Covering(Cleared, 0, false, true);
    assert SystemStep(s3, Release(v)).vnodes == s.vnodes[v := Covering(Released, 0, false, true)];
  }

  // ---------- what holds in every reachable state ----------

  /** One creator at most, one installed covering vnode at most, and it is the one the covered vnode points to. */
  lemma OneCreatorOneCovering(n: nat, steps: seq<Step>, i: nat, j: nat, v: nat, w: nat)
    requires var s := Run(Initial(n), steps); i < |s.threads| && j < |s.threads| && v < |s.vnodes| && w < |s.vnodes|
    ensures var s := Run(Initial(n), steps);
      && (IsCreator(s.threads[i]) && IsCreator(s.threads[j]) ==> i == j)
      && (Installed(s.vnodes[v]) <==> s.covering == Some(v))
      && (Installed(s.vnodes[v]) && Installed(s.vnodes[w]) ==> v == w)
  {
    var s := Run(Initial(n), steps);
    RunKeeps(n, steps);
    assert OneCreator(s, i, j) && VnodeOk(s, v) && VnodeOk(s, w);
  }

  /** Linked to the covered vnode and not yet cleared. */
  predicate Installed(c: Covering) {
    c.stage.Linked? || c.stage.Referenced? || c.stage.Taken?
  }

  /** A reclaim has taken its pointer away. */
  predicate Reclaimed(c: Covering) {
    c.stage.Taken? || c.stage.Cleared? || c.stage.Released?
  }

  /** However late a reclaim clears the covered vnode's pointer, the pointer is still its own; and a reclaim always
      finds the covered vnode. */
  lemma ReclaimClearsItsOwn(n: nat, steps: seq<Step>, v: nat)
    requires var s := Run(Initial(n), steps); v < |s.vnodes|
    ensures var s := Run(Initial(n), steps);
      && (Next(s, Clear(v)) != s ==> s.covering == Some(v))
      && (s.vnodes[v].io == 0 && !Reclaimed(s.vnodes[v]) ==> s.vnodes[v].knows)
  {
    var s := Run(Initial(n), steps);
    RunKeeps(n, steps);
    assert VnodeOk(s, v);
    if HasMaker(s, v) { MakerHolds(s, v); }
  }

  function NotReleased(vnodes: seq<Covering>): nat {
    if vnodes == [] then 0 else NotReleased(vnodes[..|vnodes| - 1]) + if vnodes[|vnodes| - 1].stage.Released? then 0
      else 1
  }

  function CountDone(threads: seq<Phase>, v: nat): nat {
    if threads == [] then 0 else (if threads[0] == Done(v) then 1 else 0) + CountDone(threads[1..], v)
  }

  function CountFailed(threads: seq<Phase>): nat {
    if threads == [] then 0 else (if threads[0].Failed? then 1 else 0) + CountFailed(threads[1..])
  }

  predicate Returned(p: Phase) {
    p.Done? || p.Failed? || p.Gone?
  }

  lemma {:induction false} HeldByReturned(threads: seq<Phase>, v: nat)
    requires forall t: nat {:trigger threads[t]} :: t < |threads| ==> Returned(threads[t])
    ensures HeldByAll(threads, Some(v)) == CountDone(threads, v) && HeldByAll(threads, None) == CountFailed(threads)
  {
    if threads != [] {
      var rest := threads[1..];
      assert forall t: nat {:trigger rest[t]} :: t < |rest| ==> rest[t] == threads[t + 1];
      HeldByReturned(rest, v);
      assert Returned(threads[0]);
    }
  }

  lemma {:induction false} ReferringOrReleased(vnodes: seq<Covering>)
    requires forall v: nat {:trigger vnodes[v]} :: v < |vnodes| ==> !vnodes[v].stage.Fresh? && !vnodes[v].stage.Linked?
    ensures Referring(vnodes) == NotReleased(vnodes)
  {
    if vnodes != [] {
      ReferringOrReleased(vnodes[..|vnodes| - 1]);
    }
  }

  /**
   When every caller has returned, a caller that succeeded holds one I/O reference on its covering vnode and none on
   the covered one, a caller that failed still holds its own, and the user references on the covered vnode are the
   covering vnodes not yet released.
   */
  lemma ReferencesWhenQuiet(n: nat, steps: seq<Step>, v: nat)
    requires var s := Run(Initial(n), steps);
      v < |s.vnodes| && forall t: nat {:trigger s.threads[t]} :: t < |s.threads| ==> Returned(s.threads[t])
    ensures var s := Run(Initial(n), steps);
      && s.io == CountFailed(s.threads)
      && s.vnodes[v].io == CountDone(s.threads, v)
      && s.userRefs == NotReleased(s.vnodes)
  {
    var s := Run(Initial(n), steps);
    RunKeeps(n, steps);
    HeldByReturned(s.threads, v);
    assert IoOk(s, Some(v));
    forall w: nat {:trigger s.vnodes[w]} | w < |s.vnodes|
      ensures !s.vnodes[w].stage.Fresh? && !s.vnodes[w].stage.Linked? {
      assert VnodeOk(s, w);
      assert forall i: nat {:trigger s.threads[i]} :: i < |s.threads| ==>
        Returned(s.threads[i]) && !MakerAt(s.threads[i], s.vnodes, w);
    }
    ReferringOrReleased(s.vnodes);
  }

  /** The covered vnode is never left without any reference while a covering vnode exists that is not released. */
  lemma CoveredStaysReferenced(n: nat, steps: seq<Step>, v: nat)
    requires var s := Run(Initial(n), steps); v < |s.vnodes| && !s.vnodes[v].stage.Released?
    ensures var s := Run(Initial(n), steps); s.io > 0 || s.userRefs > 0
  {
    var s := Run(Initial(n), steps);
    RunKeeps(n, steps);
    assert VnodeOk(s, v);
    ReferringAfter(s.vnodes, v, s.vnodes[v]);
    if HasMaker(s, v) { MakerHolds(s, v); }
  }

  lemma {:induction false} NobodyRefers(vnodes: seq<Covering>)
    requires forall v: nat {:trigger vnodes[v]} :: v < |vnodes| ==> !Refers(vnodes[v])
    ensures Referring(vnodes) == 0
  {
    if vnodes != [] {
      NobodyRefers(vnodes[..|vnodes| - 1]);
    }
  }

  ghost predicate SomeCleared(s: State) {
    exists w: nat {:trigger s.vnodes[w]} :: w < |s.vnodes| && s.vnodes[w].stage.Cleared?
  }

  /**
   A caller that found a covering vnode gives up its I/O reference on the covered one. A user reference protects the
   covered vnode then, unless the new covering vnode's creator has not taken it yet and no older covering vnode is
   still to be released. Without a creation under way it always does.
   */
  lemma ConfirmedReferencedIff(n: nat, steps: seq<Step>, t: nat)
    requires var s := Run(Initial(n), steps); t < |s.threads| && s.threads[t].Confirmed?
    ensures var s := Run(Initial(n), steps);
      && s.threads[t].v < |s.vnodes|
      && (s.userRefs > 0 <==> !s.vnodes[s.threads[t].v].stage.Linked? || SomeCleared(s))
      && (!s.beingCreated ==> s.userRefs > 0)
  {
    var s := Run(Initial(n), steps);
    RunKeeps(n, steps);
    var v := s.threads[t].v;
    assert ThreadOk(s, t) && VnodeOk(s, v) && IoOk(s, Some(v));
    HeldBySome(s.threads, t, Some(v));
    ReferringAfter(s.vnodes, v, s.vnodes[v]);
    if w: nat :| w < |s.vnodes| && s.vnodes[w].stage.Cleared? {
      ReferringAfter(s.vnodes, w, s.vnodes[w]);
    } else if s.vnodes[v].stage.Linked? {
      forall w: nat {:trigger s.vnodes[w]} | w < |s.vnodes| ensures !Refers(s.vnodes[w]) { assert VnodeOk(s, w); }
      NobodyRefers(s.vnodes);
    }
    if HasMaker(s, v) {
      var i: nat :| i < |s.threads| && MakerAt(s.threads[i], s.vnodes, v);
      assert ThreadOk(s, i);
    }
  }

  ghost predicate Reachable(n: nat, s: State) {
    exists steps: seq<Step> {:trigger Run(Initial(n), steps)} :: Run(Initial(n), steps) == s
  }

  lemma Goes(n: nat, s: State, step: Step, u: State)
    requires Reachable(n, s) && Next(s, step) == u
    ensures Reachable(n, u)
  {
    var steps: seq<Step> :| Run(Initial(n), steps) == s;
    assert (steps + [step])[..|steps|] == steps;
    assert Run(Initial(n), steps + [step]) == u;
  }

  /** The first caller covers the vnode and goes; the second has seen the covering vnode and is about to look at it. */
  lemma CoveredOnce() returns (s: State)
    ensures Reachable(3, s)
    ensures s == State(Some(0), false, 2, 1, [Covering(Referenced, 0, true, false)], [Gone, Looking, Start])
  {
    var s3 := CoveredOnceStart();
    var s4 := s3.(userRefs := 1, vnodes := [Covering(Referenced, 1, false, false)], threads :=
      [ReferencedBy(0), Start, Start]);
    Goes(3, s3, Go(0, true), s4);
    var s5 := s4.(io := 2, threads := [PutBy(0), Start, Start]);
    Goes(3, s4, Go(0, true), s5);
    var s6 := s5.(vnodes := [Covering(Referenced, 1, true, false)], threads := [Stored(0), Start, Start]);
    Goes(3, s5, Go(0, true), s6);
    s := CoveredOnceEnd(s6);
  }

  lemma CoveredOnceStart() returns (s: State)
    ensures Reachable(3, s)
    ensures s == State(Some(0), true, 3, 0, [Covering(Linked, 1, false, false)], [LinkedBy(0), Start, Start])
  {
    var s0 := State(None, false, 3, 0, [], [Start, Start, Start]);
    assert Run(Initial(3), []) == s0;
    var s1 := s0.(beingCreated := true, threads := [Creating, Start, Start]);
    Goes(3, s0, Go(0, true), s1);
    var s2 := s1.(vnodes := [Covering(Fresh, 1, false, false)], threads := [Made(0), Start, Start]);
    Goes(3, s1, Go(0, true), s2);
    s := s2.(covering := Some(0), vnodes := [Covering(Linked, 1, false, false)], threads :=
      [LinkedBy(0), Start, Start]);
    Goes(3, s2, Go(0, true), s);
  }

  lemma CoveredOnceEnd(s6: State) returns (s: State)
    requires Reachable(3, s6)
    requires s6 == State(Some(0), true, 2, 1, [Covering(Referenced, 1, true, false)], [Stored(0), Start, Start])
    ensures Reachable(3, s)
    ensures s == State(Some(0), false, 2, 1, [Covering(Referenced, 0, true, false)], [Gone, Looking, Start])
  {
    var s7 := s6.(beingCreated := false, threads := [Done(0), Start, Start]);
    Goes(3, s6, Go(0, true), s7);
    s := CoveredOnceLooking(s7);
  }

  lemma CoveredOnceLooking(s7: State) returns (s: State)
    requires Reachable(3, s7)
    requires s7 == State(Some(0), false, 2, 1, [Covering(Referenced, 1, true, false)], [Done(0), Start, Start])
    ensures Reachable(3, s)
    ensures s == State(Some(0), false, 2, 1, [Covering(Referenced, 0, true, false)], [Gone, Looking, Start])
  {
    var s8 := s7.(vnodes := [Covering(Referenced, 0, true, false)], threads := [Gone, Start, Start]);
    Goes(3, s7, Go(0, true), s8);
    s := s8.(threads := [Gone, Looking, Start]);
    Goes(3, s8, Go(1, true), s);
  }

  lemma ReclaimedOnce(s0: State) returns (s: State)
    requires Reachable(3, s0)
    requires s0 == State(Some(0), false, 2, 1, [Covering(Referenced, 0, true, false)], [Gone, Looking, Start])
    ensures Reachable(3, s)
    ensures s == State(None, false, 2, 0, [Covering(Released, 0, false, true)], [Gone, Looking, Start])
  {
    var s1 := s0.(vnodes := [Covering(Referenced, 0, true, true)]);
    Goes(3, s0, Terminate(0), s1);
    var s2 := s1.(vnodes := [Covering(Taken, 0, false, true)]);
    Goes(3, s1, Take(0), s2);
    var s3 := s2.(covering := None, vnodes := [Covering(Cleared, 0, false, true)]);
    Goes(3, s2, Clear(0), s3);
    s := s3.(userRefs := 0, vnodes := [Covering(Released, 0, false, true)]);
    Goes(3, s3, Release(0), s);
  }

  lemma LinkedAgain() returns (s: State)
    ensures Reachable(3, s)
    ensures s == State(Some(1), true, 2, 0, [Covering(Released, 0, false, true), Covering(Linked, 1, false, false)],
      [Gone, Looking, LinkedBy(1)])
  {
    var s0 := CoveredOnce();
    var r := ReclaimedOnce(s0);
    var gone := Covering(Released, 0, false, true);
    var s1 := r.(beingCreated := true, threads := [Gone, Looking, Creating]);
    Goes(3, r, Go(2, true), s1);
    var s2 := s1.(vnodes := [gone, Covering(Fresh, 1, false, false)], threads := [Gone, Looking, Made(1)]);
    Goes(3, s1, Go(2, true), s2);
    s := s2.(covering := Some(1), vnodes := [gone, Covering(Linked, 1, false, false)], threads :=
      [Gone, Looking, LinkedBy(1)]);
    Goes(3, s2, Go(2, true), s);
  }

  /**
   A caller can be about to give up its I/O reference on the covered vnode although no covering vnode holds a user
   reference yet: it saw an old covering vnode, and found the pointer of a new one whose creator has not taken its
   reference. Only the creator's own I/O reference keeps the covered vnode then (`CoveredStaysReferenced`).
   */
  lemma GivesUpBeforeReference()
    ensures exists s: State :: Reachable(3, s) && |s.threads| == 3 && s.threads[1] == Confirmed(1) && s.userRefs == 0
  {
    var s := LinkedAgain();
    var s4 := s.(vnodes := [s.vnodes[0], Covering(Linked, 2, false, false)], threads := [Gone, Got(1), LinkedBy(1)]);
    Goes(3, s, Go(1, true), s4);
    var s5 := s4.(vnodes := [s.vnodes[0], Covering(Linked, 3, false, false)], threads :=
      [Gone, Confirmed(1), LinkedBy(1)]);
    Goes(3, s4, Go(1, true), s5);
  }
}
