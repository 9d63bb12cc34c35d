/**
 The lock-free registration of the service's client: notifiers count themselves in before they look at the client,
 and an unregistration takes the client pointer away first and releases the client only after it has seen the count
 at zero. Every shared access is a step of its own; any number of threads take steps in any order.
 */
module ClientRegistration {
  import opened Options

  /** One successful registration: the pointer is the client, the number tells registrations of one client apart. */
  datatype Registration = Registration(id: nat, client: nat)

  /** Where a thread stands. */
  datatype Phase =
    | Idle
    // a notification
    | Seen                                    // the client pointer was not NULL
    | Checked                                 // and no unregistration was pending
    | Counted                                 // counted in
    | Loaded(loaded: Option<nat>)             // read the client pointer
    | Matched(matched: Registration)          // the pointer still was that client
    | Using(used: Registration)               // and was not NULL: the client is used until the count is taken back
    | Backing                                 // a check failed: only the count is taken back
    // a registration
    | Allowed(allowed: nat)
    | Installed(installed: Registration)      // the pointer is set, the reference not yet taken
    // an unregistration
    | Found(found: nat)
    | Announced(announced: nat)               // the pending flag is set
    | Draining(draining: Registration)        // the pointer is taken away
    | Drained(drained: Registration)          // the count was seen at zero
    | Clearing                                // the pending flag is still to be cleared

  datatype State = State(
    user: Option<Registration>,
    next: nat,
    invocations: int,
    pending: bool,
    retained: set<nat>,
    released: set<nat>,
    threads: seq<Phase>)

  datatype Call = Notify | Register(client: nat) | Unregister(client: nat)

  /** A thread that is counted. */
  predicate IsCounted(p: Phase) {
    p.Counted? || p.Loaded? || p.Matched? || p.Using? || p.Backing?
  }

  /** What thread `t` does next; `call` is the function an idle thread enters. */
  function Next(s: State, t: nat, call: Call): State
    requires t < |s.threads|
  {
    match s.threads[t]
    case Idle =>
      (match call
       case Notify => if s.user == None then s else Goto(s, t, Seen)
       case Register(client) => if s.pending then s else Goto(s, t, Allowed(client))
       case Unregister(client) => if s.user == None || s.user.value.client != client then s
         else Goto(s, t, Found(client)))
    case Seen => Goto(s, t, if s.pending then Idle else Checked)
    case Checked => Goto(s.(invocations := s.invocations + 1), t, Counted)
    case Counted => Goto(s, t, Loaded(if s.user == None then None else Some(s.user.value.client)))
    case Loaded(loaded) =>
      if loaded != None && s.user != None && s.user.value.client == loaded.value then Goto(s, t, Matched(s.user.value))
      else Goto(s, t, Backing)
    case Matched(r) => Goto(s, t, if s.user == None then Backing else Using(r))
    case Using(r) => Goto(s.(invocations := s.invocations - 1), t, Idle)
    case Backing => Goto(s.(invocations := s.invocations - 1), t, Idle)
    case Allowed(client) =>
      if s.user != None then Goto(s, t, Idle)
      else
        var r := Registration(s.next, client);
        Goto(s.(user := Some(r), next := s.next + 1), t, Installed(r))
    case Installed(r) => Goto(s.(retained := s.retained + {r.id}), t, Idle)
    case Found(client) => Goto(s.(pending := true), t, Announced(client))
    case Announced(client) =>
      if s.user != None && s.user.value.client == client then Goto(s.(user := None), t, Draining(s.user.value))
      else Goto(s, t, Clearing)
    case Draining(r) => if s.invocations != 0 then s else Goto(s, t, Drained(r))
    case Drained(r) => Goto(s.(released := s.released + {r.id}), t, Clearing)
    case Clearing => Goto(s.(pending := false), t, Idle)
  }

  function Goto(s: State, t: nat, p: Phase): State
    requires t < |s.threads|
  {
    s.(threads := s.threads[t := p])
  }

  // ---------- the invariant ----------

  function CountedThreads(threads: seq<Phase>): nat {
    if threads == [] then 0 else (if IsCounted(threads[0]) then 1 else 0) + CountedThreads(threads[1..])
  }

  lemma {:induction false} CountAfter(threads: seq<Phase>, t: nat, p: Phase)
    requires t < |threads|
    ensures CountedThreads(threads[t := p])
            == CountedThreads(threads) - (if IsCounted(threads[t]) then 1 else 0) + (if IsCounted(p) then 1 else 0)
  {
    if t > 0 {
      CountAfter(threads[1..], t - 1, p);
      assert threads[t := p][1..] == threads[1..][t - 1 := p];
    } else {
      assert threads[0 := p][1..] == threads[1..];
    }
  }

  lemma {:induction false} NobodyCounted(threads: seq<Phase>, t: nat)
    requires CountedThreads(threads) == 0 && t < |threads|
    ensures !IsCounted(threads[t])
  {
    if t > 0 { NobodyCounted(threads[1..], t - 1); }
  }

  /** The registration a thread is going to release. */
  function Owes(p: Phase): Option<Registration> {
    if p.Draining? then Some(p.draining) else if p.Drained? then Some(p.drained) else None
  }

  /** The registration a notifier works with. */
  function Holds(p: Phase): Option<Registration> {
    if p.Matched? then Some(p.matched) else if p.Using? then Some(p.used) else None
  }

  ghost predicate UserOk(s: State) {
    s.user != None ==> s.user.value.id < s.next && s.user.value.id !in s.released
  }

  /** What is true of one thread's registrations. */
  ghost predicate ThreadOk(s: State, i: nat)
    requires i < |s.threads|
  {
    var p := s.threads[i];
    && (Holds(p) != None ==> Holds(p).value.id < s.next && Holds(p).value.id !in s.released)
    && (Owes(p) != None ==>
      Owes(p).value.id < s.next && Owes(p).value.id !in s.released &&
      (s.user != None ==> s.user.value.id != Owes(p).value.id))
    && (p.Installed? ==> p.installed.id < s.next && p.installed.id !in s.retained)
  }

  /** What is true of two threads: nobody works with what is ready for release, and nothing is released or retained
      twice. */
  ghost predicate PairOk(s: State, i: nat, j: nat)
    requires i < |s.threads| && j < |s.threads|
  {
    var p, q := s.threads[i], s.threads[j];
    && (p.Drained? && Holds(q) != None ==> Holds(q).value.id != p.drained.id)
    && (i != j && Owes(p) != None && Owes(q) != None ==> Owes(p).value.id != Owes(q).value.id)
    && (i != j && p.Installed? && q.Installed? ==> p.installed.id != q.installed.id)
  }

  /** A thread that has made registration `id` visible and not yet taken its reference. */
  ghost predicate StillInstalled(threads: seq<Phase>, id: nat) {
    exists j: nat {:trigger threads[j]} :: j < |threads| && threads[j].Installed? && threads[j].installed.id == id
  }

  /** A registration made has its reference unless the registering thread is just about to take it. */
  ghost predicate RetainOk(s: State, id: nat) {
    id !in s.retained <==> StillInstalled(s.threads, id)
  }

  /** Some thread is going to release registration `id`. */
  ghost predicate StillOwed(threads: seq<Phase>, id: nat) {
    exists j: nat {:trigger threads[j]} :: j < |threads| && Owes(threads[j]) != None && Owes(threads[j]).value.id == id
  }

  predicate IsUser(s: State, id: nat) {
    s.user != None && s.user.value.id == id
  }

  /** A registration made is released, unless it is the current one or some thread is going to release it. */
  ghost predicate ReleaseOk(s: State, id: nat) {
    id !in s.released <==> IsUser(s, id) || StillOwed(s.threads, id)
  }

  ghost predicate Inv(s: State) {
    && s.invocations == CountedThreads(s.threads)
    && UserOk(s)
    && (forall id: nat {:trigger RetainOk(s, id)} :: id < s.next ==> RetainOk(s, id))
    && (forall id: nat {:trigger ReleaseOk(s, id)} :: id < s.next ==> ReleaseOk(s, id))
    && (forall id: nat :: id in s.released || id in s.retained ==> id < s.next)
    && (forall i: nat {:trigger ThreadOk(s, i)} :: i < |s.threads| ==> ThreadOk(s, i))
    && (forall i: nat, j: nat {:trigger PairOk(s, i, j)} :: i < |s.threads| && j < |s.threads| ==> PairOk(s, i, j))
  }

  function Initial(n: nat): State {
    State(None, 0, 0, false, {}, {}, seq(n, _ => Idle))
  }

  lemma {:induction false} InitialCount(n: nat)
    ensures CountedThreads(seq(n, _ => Idle)) == 0
  {
    if n > 0 {
      InitialCount(n - 1);
      assert seq(n, _ => Idle)[1..] == seq(n - 1, _ => Idle);
    }
  }

  lemma InitialInv(n: nat)
    ensures Inv(Initial(n))
  {
    InitialCount(n);
  }

  /** What a step of thread `t` from `s` to `u` can change. */
  ghost predicate Changes(s: State, u: State, t: nat)
    requires t < |s.threads|
  {
    && |u.threads| == |s.threads| && u.threads == s.threads[t := u.threads[t]]
    && var p, q := s.threads[t], u.threads[t];
    && u.invocations == s.invocations - (if IsCounted(p) then 1 else 0) + (if IsCounted(q) then 1 else 0)
    && u.next == s.next + (if q.Installed? && q != p then 1 else 0)
    && (Holds(q) == None || Holds(q) == Holds(p) || (Holds(q) == s.user && u.user == s.user))
    && (Owes(q) == None || (Owes(q) == Owes(p) && u.user == s.user) || (Owes(q) == s.user && u.user == None))
    && (q.Drained? ==> s.invocations == 0)
    && (q.Installed? ==> u.user == Some(q.installed) && q.installed.id == s.next < u.next)
    && (p.Installed? ==> q.Idle? && u.retained == s.retained + {p.installed.id})
    && (u.user == s.user || (u.user == None && Owes(q) == s.user) || (s.user == None && q.Installed?))
    && (Owes(p) == None || Owes(q) == Owes(p) || (p.Drained? && u.released == s.released + {p.drained.id}))
    && (u.released == s.released || (p.Drained? && q.Clearing? && u.user == s.user &&
      u.released == s.released + {p.drained.id}))
    && (u.retained == s.retained || (p.Installed? && q.Idle? && u.retained == s.retained + {p.installed.id}))
  }

  predicate Notifies(p: Phase) {
    p.Seen? || p.Checked? || p.Counted? || p.Loaded? || p.Matched? || p.Using? || p.Backing?
  }

  lemma NotifierChanges(s: State, t: nat, call: Call)
    requires t < |s.threads| && Notifies(s.threads[t])
    ensures Changes(s, Next(s, t, call), t)
  {
  }

  lemma OwnerChanges(s: State, t: nat, call: Call)
    requires t < |s.threads| && !Notifies(s.threads[t])
    ensures Changes(s, Next(s, t, call), t)
  {
  }

  lemma NextChanges(s: State, t: nat, call: Call)
    requires t < |s.threads|
    ensures Changes(s, Next(s, t, call), t)
  {
    if Notifies(s.threads[t]) { NotifierChanges(s, t, call); } else { OwnerChanges(s, t, call); }
  }

  lemma MovingThread(s: State, u: State, t: nat)
    requires Inv(s) && t < |s.threads| && Changes(s, u, t)
    ensures ThreadOk(u, t)
  {
    assert ThreadOk(s, t) && PairOk(s, t, t);
  }

  lemma OtherThread(s: State, u: State, t: nat, i: nat)
    requires Inv(s) && t < |s.threads| && Changes(s, u, t) && i < |s.threads| && i != t
    ensures ThreadOk(u, i)
  {
    assert ThreadOk(s, i) && ThreadOk(s, t) && PairOk(s, t, i) && PairOk(s, i, t);
  }

  lemma PairStays(s: State, u: State, t: nat, i: nat, j: nat)
    requires Inv(s) && t < |s.threads| && Changes(s, u, t) && i < |s.threads| && j < |s.threads|
    ensures PairOk(u, i, j)
  {
    assert ThreadOk(s, i) && ThreadOk(s, j) && PairOk(s, i, j) && PairOk(s, j, i);
    assert i == j || j == t || i != t || u.threads[j] == s.threads[j];
    if s.invocations == 0 {
      NobodyCounted(s.threads, i);
      NobodyCounted(s.threads, j);
    }
  }

  /** Every step keeps the invariant. */
  lemma NextKeeps(s: State, t: nat, call: Call)
    requires Inv(s) && t < |s.threads|
    ensures Inv(Next(s, t, call)) && |Next(s, t, call).threads| == |s.threads|
  {
    NextChanges(s, t, call);
    ChangesKeep(s, Next(s, t, call), t);
  }

  lemma RetainStays(s: State, u: State, t: nat, id: nat)
    requires Inv(s) && t < |s.threads| && Changes(s, u, t) && id < u.next
    ensures RetainOk(u, id)
  {
    if id < s.next {
      assert RetainOk(s, id);
      if j: nat :| j < |s.threads| && s.threads[j].Installed? && s.threads[j].installed.id == id {
        assert PairOk(s, t, j);
        assert j != t ==> u.threads[j] == s.threads[j];
      }
      if StillInstalled(u.threads, id) {
        var j: nat :| j < |u.threads| && u.threads[j].Installed? && u.threads[j].installed.id == id;
        assert j != t ==> s.threads[j] == u.threads[j] && PairOk(s, t, j);
      }
    } else {
      assert u.threads[t].Installed? && u.threads[t].installed.id == id;
    }
  }

  lemma ReleaseStays(s: State, u: State, t: nat, id: nat)
    requires Inv(s) && t < |s.threads| && Changes(s, u, t) && id < u.next
    ensures ReleaseOk(u, id)
  {
    assert ThreadOk(s, t) && u.threads[t] == u.threads[t];
    if id < s.next {
      assert ReleaseOk(s, id);
      if j: nat :| j < |s.threads| && Owes(s.threads[j]) != None && Owes(s.threads[j]).value.id == id {
        assert PairOk(s, t, j) && ThreadOk(s, j);
        assert j != t ==> u.threads[j] == s.threads[j];
      }
      if j: nat :| j < |u.threads| && Owes(u.threads[j]) != None && Owes(u.threads[j]).value.id == id {
        assert j != t ==> s.threads[j] == u.threads[j] && PairOk(s, t, j) && ThreadOk(s, j);
      }
    }
  }

  lemma ChangesKeep(s: State, u: State, t: nat)
    requires Inv(s) && t < |s.threads| && Changes(s, u, t)
    ensures Inv(u)
  {
    assert ThreadOk(s, t);
    CountAfter(s.threads, t, u.threads[t]);
    forall id: nat {:trigger RetainOk(u, id)} | id < u.next ensures RetainOk(u, id) { RetainStays(s, u, t, id); }
    forall id: nat {:trigger ReleaseOk(u, id)} | id < u.next ensures ReleaseOk(u, id) { ReleaseStays(s, u, t, id); }
    forall i: nat {:trigger ThreadOk(u, i)} | i < |u.threads| ensures ThreadOk(u, i) {
      if i == t { MovingThread(s, u, t); } else { OtherThread(s, u, t, i); }
    }
    forall i: nat, j: nat {:trigger PairOk(u, i, j)} | i < |u.threads| && j < |u.threads| ensures PairOk(u, i, j) {
      PairStays(s, u, t, i, j);
    }
  }

  // ---------- runs ----------

  datatype Step = Step(thread: nat, call: Call)

  /** The state after one step. */
  function Moved(s: State, step: Step): State {
    if step.thread < |s.threads| then Next(s, step.thread, step.call) else s
  }

  function Run(s: State, steps: seq<Step>): State {
    if steps == [] then s else Moved(Run(s, steps[..|steps| - 1]), steps[|steps| - 1])
  }

  lemma {:induction false} RunKeeps(n: nat, steps: seq<Step>)
    ensures Inv(Run(Initial(n), steps))
  {
    if steps == [] {
      InitialInv(n);
    } else {
      RunKeeps(n, steps[..|steps| - 1]);
      var before, step := Run(Initial(n), steps[..|steps| - 1]), steps[|steps| - 1];
      if step.thread < |before.threads| { NextKeeps(before, step.thread, step.call); }
    }
  }

  /** In no interleaving has the registration a notifier works with been released; each reference is released at most
      once. */
  lemma NeverReleasedInUse(n: nat, steps: seq<Step>, i: nat)
    requires i < |Run(Initial(n), steps).threads|
    ensures var s := Run(Initial(n), steps);
      && s.invocations == CountedThreads(s.threads)
      && (s.threads[i].Matched? ==> s.threads[i].matched.id !in s.released)
      && (s.threads[i].Using? ==> s.threads[i].used.id !in s.released)
      && (s.threads[i].Drained? ==> s.threads[i].drained.id !in s.released)
      && (s.threads[i].Installed? ==> s.threads[i].installed.id !in s.retained)
  {
    RunKeeps(n, steps);
    assert ThreadOk(Run(Initial(n), steps), i);
  }

  /** An unregistration gets past its wait only when no thread is counted, and then no notifier works with its
      registration until it is released. */
  lemma WaitsForAll(n: nat, steps: seq<Step>, t: nat, call: Call, i: nat)
    requires var s := Run(Initial(n), steps); t < |s.threads| && i < |s.threads|
    ensures var s := Run(Initial(n), steps);
      && (s.threads[t].Draining? && Next(s, t, call).threads[t].Drained? ==> !IsCounted(s.threads[i]))
      && (s.threads[t].Drained? && s.threads[i].Using? ==> s.threads[i].used != s.threads[t].drained)
  {
    var s := Run(Initial(n), steps);
    RunKeeps(n, steps);
    assert PairOk(s, t, i);
    if s.threads[t].Draining? && s.invocations == 0 {
      NobodyCounted(s.threads, i);
    }
  }

  /** A notifier works with a registration that has no reference of its own exactly while some thread has made it
      visible and not yet taken the reference. */
  lemma LacksReferenceIff(n: nat, steps: seq<Step>, i: nat)
    requires i < |Run(Initial(n), steps).threads| && Run(Initial(n), steps).threads[i].Using?
    ensures var s := Run(Initial(n), steps);
      s.threads[i].used.id !in s.retained <==> StillInstalled(s.threads, s.threads[i].used.id)
  {
    var s := Run(Initial(n), steps);
    RunKeeps(n, steps);
    assert ThreadOk(s, i) && RetainOk(s, s.threads[i].used.id);
  }

  /** In every run a registration made has been released if and only if it is not the current one and no unregistration
      is
      still on its way to release it. */
  lemma ReleasedIff(n: nat, steps: seq<Step>, id: nat)
    requires id < Run(Initial(n), steps).next
    ensures var s := Run(Initial(n), steps);
      id in s.released <==> !IsUser(s, id) && !StillOwed(s.threads, id)
  {
    RunKeeps(n, steps);
    assert ReleaseOk(Run(Initial(n), steps), id);
  }

  /** When all calls have returned, every registration has its reference, and all but the current one are released. */
  lemma ReferencesWhenIdle(n: nat, steps: seq<Step>, id: nat)
    requires var s := Run(Initial(n), steps);
      forall i: nat {:trigger s.threads[i]} :: i < |s.threads| ==> s.threads[i].Idle?
    ensures var s := Run(Initial(n), steps);
      && (id in s.retained <==> id < s.next)
      && (id in s.released <==> id < s.next && !IsUser(s, id))
  {
    var s := Run(Initial(n), steps);
    RunKeeps(n, steps);
    if id < s.next { assert ReleaseOk(s, id) && RetainOk(s, id); }
  }

  // ---------- what one call achieves alone ----------

  /** Thread `t` takes `k` steps of a call with nobody between them. */
  function Solo(s: State, t: nat, call: Call, k: nat): (u: State)
    requires t < |s.threads|
    ensures |u.threads| == |s.threads|
  {
    if k == 0 then s else Next(Solo(s, t, call, k - 1), t, call)
  }

  lemma SoloNext(s: State, t: nat, call: Call, k: nat, u: State, v: State)
    requires t < |s.threads| && Solo(s, t, call, k) == u && t < |u.threads| && Next(u, t, call) == v
    ensures Solo(s, t, call, k + 1) == v
  {
  }

  /** A registration with no client registered and none pending installs the client and takes its reference. */
  lemma RegistersAlone(s: State, t: nat, client: nat)
    requires t < |s.threads| && s.threads[t].Idle? && s.user == None && !s.pending
    ensures Solo(s, t, Register(client), 3) ==
      s.(user := Some(Registration(s.next, client)), next := s.next + 1, retained := s.retained + {s.next})
  {
    var r, call := Registration(s.next, client), Register(client);
    var u1 := Goto(s, t, Allowed(client));
    SoloNext(s, t, call, 0, s, u1);
    var u2 := Goto(s.(user := Some(r), next := s.next + 1), t, Installed(r));
    SoloNext(s, t, call, 1, u1, u2);
    SoloNext(s, t, call, 2, u2, s.(user := Some(r), next := s.next + 1, retained := s.retained + {s.next}));
  }

  /** An unregistration of the current client, with no notifier counted, takes the client away and releases it. */
  lemma UnregistersAlone(s: State, t: nat, r: Registration)
    requires t < |s.threads| && s.threads[t].Idle? && s.user == Some(r) && s.invocations == 0
    ensures Solo(s, t, Unregister(r.client), 6) ==
      s.(user := None, pending := false, released := s.released + {r.id})
  {
    var call := Unregister(r.client);
    var u1 := Goto(s, t, Found(r.client));
    SoloNext(s, t, call, 0, s, u1);
    var u2 := Goto(s.(pending := true), t, Announced(r.client));
    SoloNext(s, t, call, 1, u1, u2);
    var u3 := Goto(s.(pending := true, user := None), t, Draining(r));
    SoloNext(s, t, call, 2, u2, u3);
    var u4 := Goto(u3, t, Drained(r));
    SoloNext(s, t, call, 3, u3, u4);
    var u5 := Goto(u3.(released := s.released + {r.id}), t, Clearing);
    SoloNext(s, t, call, 4, u4, u5);
    SoloNext(s, t, call, 5, u5, s.(user := None, pending := false, released := s.released + {r.id}));
  }

  /** A notification while a client is registered and no unregistration is pending gets to use that client, and leaves
      no
      trace. */
  lemma NotifiesAlone(s: State, t: nat, r: Registration)
    requires t < |s.threads| && s.threads[t].Idle? && s.user == Some(r) && !s.pending
    ensures Solo(s, t, Notify, 6) == s.(invocations := s.invocations + 1, threads := s.threads[t := Using(r)])
    ensures Solo(s, t, Notify, 7) == s
  {
    SoloNext(s, t, Notify, 0, s, Goto(s, t, Seen));
    SoloNext(s, t, Notify, 1, Goto(s, t, Seen), Goto(s, t, Checked));
    var counted := s.(invocations := s.invocations + 1);
    SoloNext(s, t, Notify, 2, Goto(s, t, Checked), Goto(counted, t, Counted));
    SoloNext(s, t, Notify, 3, Goto(counted, t, Counted), Goto(counted, t, Loaded(Some(r.client))));
    SoloNext(s, t, Notify, 4, Goto(counted, t, Loaded(Some(r.client))), Goto(counted, t, Matched(r)));
    SoloNext(s, t, Notify, 5, Goto(counted, t, Matched(r)), Goto(counted, t, Using(r)));
    SoloNext(s, t, Notify, 6, Goto(counted, t, Using(r)), s);
  }

  /** A registration while one is pending or a client is there, an unregistration of another client, and a notification
      with nobody registered or an unregistration pending return without a trace. */
  lemma TurnedAway(s: State, t: nat, client: nat)
    requires t < |s.threads| && s.threads[t].Idle?
    ensures s.pending || s.user != None ==> Solo(s, t, Register(client), 2) == s
    ensures s.user == None || s.user.value.client != client ==> Solo(s, t, Unregister(client), 1) == s
    ensures s.user == None || s.pending ==> Solo(s, t, Notify, 2) == s
  {
    assert Goto(Goto(s, t, Allowed(client)), t, Idle) == s && Goto(Goto(s, t, Seen), t, Idle) == s;
    var entered := Next(s, t, Register(client));
    SoloNext(s, t, Register(client), 0, s, entered);
    if s.pending || s.user != None { SoloNext(s, t, Register(client), 1, entered, s); }
    var noticed := Next(s, t, Notify);
    SoloNext(s, t, Notify, 0, s, noticed);
    if s.user == None || s.pending { SoloNext(s, t, Notify, 1, noticed, s); }
    if s.user == None || s.user.value.client != client { SoloNext(s, t, Unregister(client), 0, s, s); }
  }

  /** An unregistration that finds its client gone only clears the pending flag again. */
  lemma ComesTooLate(s: State, t: nat, call: Call)
    requires t < |s.threads| && s.threads[t].Announced?
    requires s.user == None || s.user.value.client != s.threads[t].announced
    ensures Solo(s, t, call, 2) == Goto(s.(pending := false), t, Idle)
  {
    SoloNext(s, t, call, 0, s, Goto(s, t, Clearing));
    SoloNext(s, t, call, 1, Goto(s, t, Clearing), Goto(s.(pending := false), t, Idle));
  }

  /** A notifier works with a client only if that is the client it read and it is still registered, and an
      unregistration
      takes away nothing but its own client. */
  lemma OwnClientOnly(s: State, t: nat, call: Call)
    requires t < |s.threads|
    ensures var p, q := s.threads[t], Next(s, t, call).threads[t];
      && (p.Loaded? && q.Matched? ==> p.loaded == Some(q.matched.client) && s.user == Some(q.matched))
      && (q.Using? && q != p ==> p == Matched(q.used) && s.user != None)
      && (q.Draining? && q != p ==> p == Announced(q.draining.client) && s.user == Some(q.draining))
  {
  }

  // ---------- a notification is turned back only when its client is taken away ----------

  /** Not turned back, and concerned with registration `r` if with any. */
  predicate NotTurnedBack(p: Phase, r: Registration) {
    && !p.Backing?
    && (p.Loaded? ==> p.loaded == Some(r.client))
    && (Holds(p) != None ==> Holds(p).value == r)
  }

  /** Registration `r` is the current one before, between and after the steps. */
  ghost predicate StaysRegistered(s: State, steps: seq<Step>, r: Registration) {
    forall k: nat {:trigger steps[..k]} :: k <= |steps| ==> Run(s, steps[..k]).user == Some(r)
  }

  lemma NotTurnedBackNow(s: State, step: Step, t: nat, r: Registration)
    requires t < |s.threads| && s.user == Some(r) && NotTurnedBack(s.threads[t], r)
    ensures |Moved(s, step).threads| == |s.threads| && NotTurnedBack(Moved(s, step).threads[t], r)
  {
  }

  /** While one registration stays the current one no notifier is turned back, whatever the others do meanwhile. */
  lemma {:induction false} NeverTurnedBack(s: State, steps: seq<Step>, t: nat, r: Registration)
    requires t < |s.threads| && NotTurnedBack(s.threads[t], r) && StaysRegistered(s, steps, r)
    ensures |Run(s, steps).threads| == |s.threads| && NotTurnedBack(Run(s, steps).threads[t], r)
  {
    if steps != [] {
      var before := steps[..|steps| - 1];
      forall k: nat {:trigger before[..k]} | k <= |before| ensures Run(s, before[..k]).user == Some(r) {
        assert before[..k] == steps[..k];
      }
      NeverTurnedBack(s, before, t, r);
      assert before[..|before|] == before;
      NotTurnedBackNow(Run(s, before), steps[|steps| - 1], t, r);
    }
  }

  // ---------- every call can return ----------

  /** The steps a call still takes at most, not counting those in which it waits. */
  function Left(p: Phase): nat {
    match p
    case Idle => 0
    case Using(_) | Backing | Installed(_) | Clearing => 1
    case Matched(_) | Allowed(_) | Drained(_) => 2
    case Loaded(_) | Draining(_) => 3
    case Counted | Announced(_) => 4
    case Checked | Found(_) => 5
    case Seen => 6
  }

  /** An unregistration that waits for the notifiers. */
  predicate Waits(s: State, t: nat)
    requires t < |s.threads|
  {
    s.threads[t].Draining? && s.invocations != 0
  }

  /** A call that has begun comes nearer to its end with every step, unless it waits; then nothing changes. */
  lemma Advances(s: State, t: nat, call: Call)
    requires t < |s.threads| && !s.threads[t].Idle?
    ensures var u := Next(s, t, call);
      && |u.threads| == |s.threads| && u.threads == s.threads[t := u.threads[t]]
      && if Waits(s, t) then u == s else Left(u.threads[t]) < Left(s.threads[t])
  {
    assert s.threads[t := s.threads[t]] == s.threads;
  }

  function LeftToAll(threads: seq<Phase>): nat {
    if threads == [] then 0 else Left(threads[0]) + LeftToAll(threads[1..])
  }

  lemma {:induction false} LeftAfter(threads: seq<Phase>, t: nat, p: Phase)
    requires t < |threads|
    ensures LeftToAll(threads[t := p]) == LeftToAll(threads) - Left(threads[t]) + Left(p)
  {
    if t > 0 {
      LeftAfter(threads[1..], t - 1, p);
      assert threads[t := p][1..] == threads[1..][t - 1 := p];
    } else {
      assert threads[0 := p][1..] == threads[1..];
    }
  }

  lemma {:induction false} SomebodyCounted(threads: seq<Phase>) returns (t: nat)
    requires CountedThreads(threads) > 0
    ensures t < |threads| && IsCounted(threads[t])
  {
    if IsCounted(threads[0]) {
      t := 0;
    } else {
      t := SomebodyCounted(threads[1..]);
      t := t + 1;
    }
  }

  /** When a call has begun, some call has that does not wait: notifiers never do. */
  lemma SomebodyAdvances(s: State, t: nat) returns (i: nat)
    requires Inv(s) && t < |s.threads| && !s.threads[t].Idle?
    ensures i < |s.threads| && !s.threads[i].Idle? && !Waits(s, i)
  {
    i := t;
    if Waits(s, t) { i := SomebodyCounted(s.threads); }
  }

  lemma {:induction false} RunFurther(s: State, steps: seq<Step>, more: seq<Step>)
    ensures Run(s, steps + more) == Run(Run(s, steps), more)
  {
    if more == [] {
      assert steps + more == steps;
    } else {
      RunFurther(s, steps, more[..|more| - 1]);
      assert (steps + more)[..|steps + more| - 1] == steps + more[..|more| - 1];
    }
  }

  ghost predicate AllIdle(s: State) {
    forall i: nat {:trigger s.threads[i]} :: i < |s.threads| ==> s.threads[i].Idle?
  }

  lemma {:induction false} FinishAll(s: State) returns (more: seq<Step>)
    requires Inv(s)
    ensures AllIdle(Run(s, more))
    decreases LeftToAll(s.threads)
  {
    more := [];
    if t: nat :| t < |s.threads| && !s.threads[t].Idle? {
      var i := SomebodyAdvances(s, t);
      Advances(s, i, Notify);
      NextKeeps(s, i, Notify);
      var u := Next(s, i, Notify);
      LeftAfter(s.threads, i, u.threads[i]);
      var rest := FinishAll(u);
      assert [Step(i, Notify)][..0] == [];
      assert Run(s, [Step(i, Notify)]) == u;
      RunFurther(s, [Step(i, Notify)], rest);
      more := [Step(i, Notify)] + rest;
    }
  }

  /** No deadlock: every run can go on until all calls have returned. */
  lemma AllCanReturn(n: nat, steps: seq<Step>)
    ensures exists more: seq<Step> {:trigger steps + more} :: AllIdle(Run(Initial(n), steps + more))
  {
    RunKeeps(n, steps);
    var more := FinishAll(Run(Initial(n), steps));
    RunFurther(Initial(n), steps, more);
  }

  // ---------- how far the pending flag can be relied on ----------

  /** Between setting the pending flag and clearing it. */
  predicate Unregisters(p: Phase) {
    p.Announced? || p.Draining? || p.Drained? || p.Clearing?
  }

  ghost predicate OneUnregistration(s: State) {
    forall i: nat, j: nat {:trigger s.threads[i], s.threads[j]} ::
      i < |s.threads| && j < |s.threads| && Unregisters(s.threads[i]) && Unregisters(s.threads[j]) ==> i == j
  }

  /** At no moment of the run are two threads inside an unregistration. */
  ghost predicate OneAtATime(n: nat, steps: seq<Step>) {
    forall k: nat {:trigger steps[..k]} :: k <= |steps| ==> OneUnregistration(Run(Initial(n), steps[..k]))
  }

  ghost predicate SomeUnregisters(s: State) {
    exists i: nat {:trigger s.threads[i]} :: i < |s.threads| && Unregisters(s.threads[i])
  }

  /** When unregistrations do not overlap, the flag is set exactly while one of them is under way. */
  lemma {:induction false} PendingWhenOneAtATime(n: nat, steps: seq<Step>)
    requires OneAtATime(n, steps)
    ensures Run(Initial(n), steps).pending <==> SomeUnregisters(Run(Initial(n), steps))
  {
    if steps != [] {
      var before := steps[..|steps| - 1];
      forall k: nat {:trigger before[..k]} | k <= |before| ensures OneUnregistration(Run(Initial(n), before[..k])) {
        assert before[..k] == steps[..k];
      }
      PendingWhenOneAtATime(n, before);
      assert before[..|before|] == before && steps[..|steps|] == steps;
      var s, step := Run(Initial(n), before), steps[|steps| - 1];
      if step.thread < |s.threads| { PendingStep(s, step.thread, step.call); }
    }
  }

  lemma PendingStep(s: State, t: nat, call: Call)
    requires t < |s.threads| && OneUnregistration(s) && (s.pending <==> SomeUnregisters(s))
    ensures Next(s, t, call).pending <==> SomeUnregisters(Next(s, t, call))
  {
    var u := Next(s, t, call);
    assert forall i: nat {:trigger u.threads[i]} :: i < |s.threads| && i != t ==> u.threads[i] == s.threads[i];
    if i: nat :| i < |s.threads| && Unregisters(s.threads[i]) {
      assert s.threads[t].Clearing? ==> i == t;
      assert !s.threads[t].Clearing? ==> Unregisters(u.threads[i]);
    } else {
      assert s.threads[t].Found? ==> Unregisters(u.threads[t]);
    }
  }

  /** What one step does to the pending flag. */
  datatype Write = SetBy(thread: nat) | ClearBy(thread: nat) | NoWrite

  function WriteOf(s: State, step: Step): Write {
    if step.thread >= |s.threads| then NoWrite
    else if s.threads[step.thread].Found? then SetBy(step.thread)
    else if s.threads[step.thread].Clearing? then ClearBy(step.thread)
    else NoWrite
  }

  /** The writes of a run to the pending flag, step by step. */
  function Writes(n: nat, steps: seq<Step>): (w: seq<Write>)
    ensures |w| == |steps|
  {
    if steps == [] then [] else
      var before := steps[..|steps| - 1];
      Writes(n, before) + [WriteOf(Run(Initial(n), before), steps[|steps| - 1])]
  }

  /** Write `k` clears the flag and no later one sets it. */
  ghost predicate ClearedLast(w: seq<Write>, k: nat) {
    k < |w| && w[k].ClearBy? && forall m: nat {:trigger w[m]} :: k < m < |w| ==> !w[m].SetBy?
  }

  ghost predicate NeverSet(w: seq<Write>) {
    forall m: nat {:trigger w[m]} :: m < |w| ==> !w[m].SetBy?
  }

  /** Clear, as far as the writes tell. */
  ghost predicate ReadsClear(w: seq<Write>) {
    NeverSet(w) || exists k: nat {:trigger ClearedLast(w, k)} :: ClearedLast(w, k)
  }

  lemma ReadsClearAfter(w: seq<Write>, x: Write)
    ensures ReadsClear(w + [x]) <==> x.ClearBy? || (x.NoWrite? && ReadsClear(w))
  {
    var v := w + [x];
    assert v[|w|] == x;
    assert forall m: nat {:trigger w[m]} {:trigger v[m]} :: m < |w| ==> v[m] == w[m];
    assert x.ClearBy? ==> ClearedLast(v, |w|);
    if k: nat :| ClearedLast(w, k) { assert x.NoWrite? ==> ClearedLast(v, k); }
    if k: nat :| ClearedLast(v, k) { assert x.NoWrite? ==> ClearedLast(w, k); }
  }

  lemma LastStep(n: nat, steps: seq<Step>)
    requires steps != []
    ensures var before, step := steps[..|steps| - 1], steps[|steps| - 1];
      && Run(Initial(n), steps) == Moved(Run(Initial(n), before), step)
      && Writes(n, steps) == Writes(n, before) + [WriteOf(Run(Initial(n), before), step)]
  {
  }

  /** One step leaves in the flag what it writes there. */
  lemma FlagFollows(s: State, step: Step)
    ensures Moved(s, step).pending <==> WriteOf(s, step).SetBy? || (WriteOf(s, step).NoWrite? && s.pending)
  {
  }

  lemma {:induction false} FlagIsLastWrite(n: nat, steps: seq<Step>)
    ensures Run(Initial(n), steps).pending <==> !ReadsClear(Writes(n, steps))
  {
    if steps != [] {
      var before, step := steps[..|steps| - 1], steps[|steps| - 1];
      var s := Run(Initial(n), before);
      FlagIsLastWrite(n, before);
      LastStep(n, steps);
      FlagFollows(s, step);
      ReadsClearAfter(Writes(n, before), WriteOf(s, step));
    }
  }

  /** Write `m` is the announcement of the unregistration that thread `t` is in. */
  ghost predicate AnnouncedAt(w: seq<Write>, t: nat, m: nat) {
    m < |w| && w[m] == SetBy(t) && forall k: nat {:trigger w[k]} :: m < k < |w| ==> w[k] != ClearBy(t)
  }

  lemma AnnouncedAfter(w: seq<Write>, x: Write, t: nat, m: nat)
    requires if m < |w| then AnnouncedAt(w, t, m) && x != ClearBy(t) else m == |w| && x == SetBy(t)
    ensures AnnouncedAt(w + [x], t, m)
  {
  }

  /** Nobody unregisters at the start. */
  lemma SomeStepTaken(n: nat, steps: seq<Step>, t: nat)
    requires t < |Run(Initial(n), steps).threads| && Unregisters(Run(Initial(n), steps).threads[t])
    ensures steps != []
  {
    assert t < |Initial(n).threads| ==> !Unregisters(Initial(n).threads[t]);
  }

  lemma {:induction false} Announces(n: nat, steps: seq<Step>, t: nat) returns (m: nat)
    requires t < |Run(Initial(n), steps).threads| && Unregisters(Run(Initial(n), steps).threads[t])
    ensures AnnouncedAt(Writes(n, steps), t, m)
    decreases |steps|
  {
    SomeStepTaken(n, steps, t);
    var before, step := steps[..|steps| - 1], steps[|steps| - 1];
    var s := Run(Initial(n), before);
    LastStep(n, steps);
    assert |s.threads| == |Moved(s, step).threads|;
    StaysInside(s, step, t);
    if WriteOf(s, step) == SetBy(t) {
      m := |before|;
    } else {
      m := Announces(n, before, t);
    }
    AnnouncedAfter(Writes(n, before), WriteOf(s, step), t, m);
  }

  lemma StaysInside(s: State, step: Step, t: nat)
    requires t < |s.threads|
    requires t < |Moved(s, step).threads| && Unregisters(Moved(s, step).threads[t])
    ensures WriteOf(s, step) == SetBy(t) || (Unregisters(s.threads[t]) && WriteOf(s, step) != ClearBy(t))
  {
  }

  /** Behind the announcement of thread `t`, a clear that is last is another thread's. */
  lemma ClearedByAnother(w: seq<Write>, t: nat, m: nat, k: nat)
    requires AnnouncedAt(w, t, m) && ClearedLast(w, k)
    ensures w[k].thread != t
  {
    assert w[m].SetBy? && w[k].ClearBy?;
    assert m < k;
  }

  /** While thread `t` waits for the notifiers, the flag is clear exactly when another thread has cleared it and nobody
      has set it since. */
  lemma PendingClearIff(n: nat, steps: seq<Step>, t: nat)
    requires t < |Run(Initial(n), steps).threads| && Run(Initial(n), steps).threads[t].Draining?
    ensures var w := Writes(n, steps);
      !Run(Initial(n), steps).pending <==> exists k: nat {:trigger ClearedLast(w, k)} ::
        ClearedLast(w, k) && w[k].thread != t
  {
    FlagIsLastWrite(n, steps);
    var w := Writes(n, steps);
    var m := Announces(n, steps, t);
    assert !NeverSet(w) by { assert w[m].SetBy?; }
    forall k: nat {:trigger ClearedLast(w, k)} | ClearedLast(w, k) ensures w[k].thread != t {
      ClearedByAnother(w, t, m, k);
    }
  }

  ghost predicate Reachable(n: nat, s: State) {
    exists steps: seq<Step> {:trigger Run(Initial(n), steps)} :: Run(Initial(n), steps) == s
  }

  lemma Starts(n: nat)
    ensures Reachable(n, Initial(n))
  {
    assert Run(Initial(n), []) == Initial(n);
  }

  lemma Goes(n: nat, s: State, t: nat, call: Call, u: State)
    requires Reachable(n, s) && t < |s.threads| && Next(s, t, call) == u
    ensures Reachable(n, u)
  {
    var steps: seq<Step> :| Run(Initial(n), steps) == s;
    assert (steps + [Step(t, call)])[..|steps|] == steps;
    assert Run(Initial(n), steps + [Step(t, call)]) == u;
  }

  /** A notification that finds a registration gets to use it. */
  lemma NotifierEnters(n: nat, s: State, t: nat)
    requires Reachable(n, s) && t < |s.threads| && s.threads[t].Idle? && s.user != None && !s.pending
    ensures Reachable(n, s.(invocations := s.invocations + 1, threads := s.threads[t := Using(s.user.value)]))
  {
    var r := s.user.value;
    var counted := s.(invocations := s.invocations + 1);
    Goes(n, s, t, Notify, Goto(s, t, Seen));
    Goes(n, Goto(s, t, Seen), t, Notify, Goto(s, t, Checked));
    Goes(n, Goto(s, t, Checked), t, Notify, Goto(counted, t, Counted));
    Goes(n, Goto(counted, t, Counted), t, Notify, Goto(counted, t, Loaded(Some(r.client))));
    Goes(n, Goto(counted, t, Loaded(Some(r.client))), t, Notify, Goto(counted, t, Matched(r)));
    Goes(n, Goto(counted, t, Matched(r)), t, Notify, Goto(counted, t, Using(r)));
  }

  /** An unregistration of the current client gets to announce itself. */
  lemma UnregistrationEnters(n: nat, s: State, t: nat)
    requires Reachable(n, s) && t < |s.threads| && s.threads[t].Idle? && s.user != None
    ensures Reachable(n, s.(pending := true, threads := s.threads[t := Announced(s.user.value.client)]))
  {
    var client := s.user.value.client;
    Goes(n, s, t, Unregister(client), Goto(s, t, Found(client)));
    Goes(n, Goto(s, t, Found(client)), t, Notify, Goto(s.(pending := true), t, Announced(client)));
  }

  lemma Registered(n: nat) returns (s: State)
    requires n > 0
    ensures s == State(Some(Registration(0, 7)), 1, 0, false, {}, {},
      seq(n, _ => Idle)[0 := Installed(Registration(0, 7))])
    ensures Reachable(n, s)
  {
    Starts(n);
    s := State(Some(Registration(0, 7)), 1, 0, false, {}, {}, seq(n, _ => Idle)[0 := Installed(Registration(0, 7))]);
    Goes(n, Initial(n), 0, Register(7), Goto(Initial(n), 0, Allowed(7)));
    assert Goto(Initial(n), 0, Allowed(7)).threads[0 := Installed(Registration(0, 7))] == s.threads;
    Goes(n, Goto(Initial(n), 0, Allowed(7)), 0, Register(7), s);
  }

  /** A notifier may work with a registration before its reference has been taken. */
  lemma RetainComesLate()
    ensures exists s: State ::
      Reachable(2, s) && |s.threads| == 2 && s.threads[1].Using? && s.threads[1].used.id !in s.retained
  {
    var s := Registered(2);
    NotifierEnters(2, s, 1);
  }

  /** Two unregistrations of the same client, both past their check, while a notifier works with it. */
  lemma TwoUnregistrations() returns (s: State)
    ensures s == State(Some(Registration(0, 7)), 1, 1, true, {0}, {},
      [Announced(7), Announced(7), Using(Registration(0, 7))])
    ensures Reachable(3, s)
  {
    var r := Registration(0, 7);
    var s0 := Registered(3);
    var kept := State(Some(r), 1, 0, false, {0}, {}, [Idle, Idle, Idle]);
    assert s0.threads[0 := Idle] == kept.threads;
    Goes(3, s0, 0, Register(7), kept);
    NotifierEnters(3, kept, 2);
    var used := State(Some(r), 1, 1, false, {0}, {}, [Idle, Idle, Using(r)]);
    assert kept.threads[2 := Using(r)] == used.threads;
    UnregistrationEnters(3, used, 0);
    var one := used.(pending := true, threads := [Announced(7), Idle, Using(r)]);
    assert used.threads[0 := Announced(7)] == one.threads;
    UnregistrationEnters(3, one, 1);
    s := one.(threads := [Announced(7), Announced(7), Using(r)]);
    assert one.threads[1 := Announced(7)] == s.threads;
  }

  /**
   The pending flag does not say that an unregistration is still waiting: a second unregistration of the same client
   that comes too late clears it while the first one waits for a notifier.
   */
  lemma SecondUnregistrationClearsPending()
    ensures exists s: State ::
      Reachable(3, s) && |s.threads| == 3 && s.threads[0].Draining? && s.threads[2].Using? && !s.pending
  {
    var r := Registration(0, 7);
    var s := TwoUnregistrations();
    var taken := s.(user := None, threads := [Draining(r), Announced(7), Using(r)]);
    Goes(3, s, 0, Notify, taken);
    Goes(3, taken, 1, Notify, taken.(threads := [Draining(r), Clearing, Using(r)]));
    Goes(3, taken.(threads := [Draining(r), Clearing, Using(r)]), 1, Notify,
      taken.(pending := false, threads := [Draining(r), Idle, Using(r)]));
  }
}
