/** What the pool's calls come to, and that they can come to it: submissions, lifecycle calls and removals. */
module ThreadPoolProgress {
  import opened Common
  import opened ThreadPools
  import opened ThreadPoolSafety
  import opened ThreadPoolTheorems

  // ----- what workers alone can do -----

  /** Workers have run and nobody else: tasks may have been taken, and everything that is not theirs is as it was. */
  ghost predicate WorkersRan(s: Pool, t: Pool) {
    && Inv(t) && |t.workers| == |s.workers| && |t.queue| <= |s.queue|
    && t.status == s.status && t.clients == s.clients && t.control == s.control && t.removal == s.removal && t.max == s.max
    && t.accepted == s.accepted && t.sealed == s.sealed
    && forall w :: 0 <= w < |s.workers| ==> (Live(s.workers[w]) ==> Live(t.workers[w])) && (Ended(s.workers[w]) ==> Ended(t.workers[w]))
  }

  /** Nobody who sleeps wakes up without a notification. */
  predicate Quiet(s: Pool, a: Action) {
    !(a.WorkerStep? && a.w < |s.workers| && s.workers[a.w].pc == Sleeping(false))
  }

  ghost predicate QuietRun(s: Pool, acts: seq<Action>)
    decreases |acts|
  {
    acts != [] ==> Quiet(s, acts[0]) && (Step(s, acts[0]).Some? ==> QuietRun(Step(s, acts[0]).value, acts[1..]))
  }

  lemma {:induction false} QuietAppend(s: Pool, first: seq<Action>, second: seq<Action>)
    requires Run(s, first).Some? && QuietRun(s, first) && QuietRun(Run(s, first).value, second)
    ensures QuietRun(s, first + second)
    decreases |first|
  {
    if first == [] {
      assert first + second == second;
    } else {
      assert (first + second)[1..] == first[1..] + second;
      QuietAppend(Step(s, first[0]).value, first[1..], second);
    }
  }

  lemma OneWorker(s: Pool, w: nat)
    requires Inv(s) && w < |s.workers| && StepWorker(s, w).Some?
    ensures WorkersRan(s, StepWorker(s, w).value)
    ensures forall v :: 0 <= v < |s.workers| && v != w ==> StepWorker(s, w).value.workers[v] == s.workers[v]
  {
    WorkerStepInv(s, w);
    WorkerStepFrame(s, w);
  }

  lemma RanTwice(s: Pool, t: Pool, u: Pool)
    requires WorkersRan(s, t) && WorkersRan(t, u)
    ensures WorkersRan(s, u)
  {
  }

  /** How far a worker is from giving the queue lock back. */
  function Hold(pc: Pc): nat {
    match pc case After => 4 case Empty => 3 case Before => 2 case Waiting => 1 case _ => 0
  }

  lemma HolderGoesOn(s: Pool, w: nat)
    requires Inv(s) && s.owner == Some(w)
    ensures w < |s.workers| && StepWorker(s, w).Some? && !s.workers[w].pc.Sleeping?
    ensures var t := StepWorker(s, w).value;
            t.owner == None || (t.owner == Some(w) && w < |t.workers| && Hold(t.workers[w].pc) < Hold(s.workers[w].pc))
  {
    assert WorkerOk(s.workers[w], true);
  }

  /** Whoever has the queue lock can give it back, without any other worker. */
  lemma {:induction false} QueueFreed(s: Pool) returns (acts: seq<Action>)
    requires Inv(s)
    ensures QuietRun(s, acts) && Run(s, acts).Some? && WorkersRan(s, Run(s, acts).value) && Run(s, acts).value.owner == None
    ensures forall v :: 0 <= v < |s.workers| && s.owner != Some(v) ==> Run(s, acts).value.workers[v] == s.workers[v]
    decreases if s.owner.Some? && s.owner.value < |s.workers| then 1 + Hold(s.workers[s.owner.value].pc) else 0
  {
    if s.owner == None {
      acts := [];
    } else {
      var w := s.owner.value;
      HolderGoesOn(s, w);
      var t := StepWorker(s, w).value;
      OneWorker(s, w);
      var rest := QueueFreed(t);
      acts := [WorkerStep(w)] + rest;
      assert acts[1..] == rest;
      RanTwice(s, t, Run(t, rest).value);
    }
  }

  // ----- submitting -----

  predicate HasRoom(s: Pool) {
    s.max == 0 || |s.queue| < s.max
  }

  /** The steps of a submitter that has entered. */
  predicate OwnStep(c: nat, a: Action) {
    (a.SubmitCheck? || a.SubmitPush? || a.SubmitNotify?) && a.c == c
  }

  ghost predicate Alone(c: nat, acts: seq<Action>) {
    forall i :: 0 <= i < |acts| ==> OwnStep(c, acts[i])
  }

  ghost predicate Accepts(s: Pool, acts: seq<Action>, task: nat) {
    Run(s, acts).Some? && Run(s, acts).value.accepted == s.accepted + [task]
  }

  lemma ChecksAndPushes(s: Pool, c: nat)
    requires Inv(s) && c < |s.clients| && s.clients[c].Entered? && s.owner == None && HasRoom(s)
    ensures Accepts(s, [SubmitCheck(c), SubmitPush(c)], s.clients[c].task)
  {
    var t := WithClient(s, c, Passed(s.clients[c].task));
    assert Step(s, SubmitCheck(c)) == Some(t);
    assert Step(t, SubmitPush(c)) == Some(Push(t, c));
    PathRuns([s, t, Push(t, c)], [SubmitCheck(c), SubmitPush(c)]);
  }

  /** With the queue unlocked, a submitter left to itself gets its task accepted exactly when there is room. */
  lemma AcceptedExactly(s: Pool, c: nat)
    requires Inv(s) && c < |s.clients| && s.clients[c].Entered? && s.owner == None
    ensures (exists acts :: Alone(c, acts) && Accepts(s, acts, s.clients[c].task)) <==> HasRoom(s)
  {
    if HasRoom(s) {
      ChecksAndPushes(s, c);
      assert Alone(c, [SubmitCheck(c), SubmitPush(c)]);
    } else {
      forall acts | Alone(c, acts) ensures !Accepts(s, acts, s.clients[c].task) {
        if acts != [] && Step(s, acts[0]).Some? {
          assert OwnStep(c, acts[0]);
          RefusedStays(Step(s, acts[0]).value, c, acts[1..]);
        }
      }
    }
  }

  lemma RefusedStays(s: Pool, c: nat, acts: seq<Action>)
    requires c < |s.clients| && s.clients[c] == Idle && Alone(c, acts)
    ensures Run(s, acts) == if acts == [] then Some(s) else None
  {
    assert acts != [] ==> OwnStep(c, acts[0]);
  }

  /** And whoever has the lock, a task that finds room can get in. */
  lemma CanBeAccepted(s: Pool, c: nat) returns (acts: seq<Action>)
    requires Inv(s) && c < |s.clients| && s.clients[c].Entered? && HasRoom(s)
    ensures Accepts(s, acts, s.clients[c].task)
  {
    var first := QueueFreed(s);
    var t := Run(s, first).value;
    ChecksAndPushes(t, c);
    RunAppend(s, first, [SubmitCheck(c), SubmitPush(c)]);
    acts := first + [SubmitCheck(c), SubmitPush(c)];
  }

  // ----- the limit exceeded -----

  /** A running pool of workers that have not begun, with these clients and tasks. */
  function Loaded(workers: nat, clients: seq<Client>, max: nat, tasks: seq<nat>): Pool {
    Pool(Running, seq(workers, _ => NEW_WORKER), clients, NoControl, NoRemoval, None, tasks, max, tasks, [], None, 0)
  }

  lemma Enters(workers: nat, cs: seq<Client>, max: nat, tasks: seq<nat>, c: nat, task: nat)
    requires c < |cs| && cs[c] == Idle && |tasks| < max
    ensures Run(Loaded(workers, cs, max, tasks), [SubmitEnter(c, task), SubmitCheck(c)])
            == Some(Loaded(workers, cs[c := Passed(task)], max, tasks))
  {
    var s, t := Loaded(workers, cs, max, tasks), Loaded(workers, cs[c := Entered(task)], max, tasks);
    var u := Loaded(workers, cs[c := Passed(task)], max, tasks);
    assert Step(s, SubmitEnter(c, task)) == Some(t);
    assert cs[c := Entered(task)][c := Passed(task)] == cs[c := Passed(task)];
    assert Step(t, SubmitCheck(c)) == Some(u);
    PathRuns([s, t, u], [SubmitEnter(c, task), SubmitCheck(c)]);
  }

  lemma Pushes(workers: nat, cs: seq<Client>, max: nat, tasks: seq<nat>, c: nat)
    requires c < |cs| && cs[c].Passed?
    ensures Run(Loaded(workers, cs, max, tasks), [SubmitPush(c), SubmitNotify(c, 0)])
            == Some(Loaded(workers, cs[c := Idle], max, tasks + [cs[c].task]))
  {
    var s, t := Loaded(workers, cs, max, tasks), Loaded(workers, cs[c := Notifying], max, tasks + [cs[c].task]);
    var u := Loaded(workers, cs[c := Idle], max, tasks + [cs[c].task]);
    assert Step(s, SubmitPush(c)) == Some(t);
    assert cs[c := Notifying][c := Idle] == cs[c := Idle];
    assert Step(t, SubmitNotify(c, 0)) == Some(u);
    PathRuns([s, t, u], [SubmitPush(c), SubmitNotify(c, 0)]);
  }

  lemma {:induction false} FillsUp(workers: nat, cs: seq<Client>, max: nat, n: nat) returns (acts: seq<Action>, tasks: seq<nat>)
    requires cs != [] && cs[0] == Idle && n < max
    ensures |tasks| == n && Run(Loaded(workers, cs, max, []), acts) == Some(Loaded(workers, cs, max, tasks))
  {
    if n == 0 {
      acts, tasks := [], [];
    } else {
      var first, before := FillsUp(workers, cs, max, n - 1);
      var enter, push := [SubmitEnter(0, n), SubmitCheck(0)], [SubmitPush(0), SubmitNotify(0, 0)];
      Enters(workers, cs, max, before, 0, n);
      Pushes(workers, cs[0 := Passed(n)], max, before, 0);
      assert cs[0 := Passed(n)][0 := Idle] == cs;
      RunAppend(Loaded(workers, cs, max, before), enter, push);
      RunAppend(Loaded(workers, cs, max, []), first, enter + push);
      acts, tasks := first + (enter + push), before + [n];
    }
  }

  /** The clients from c on are past the check. */
  function PassedFrom(clients: nat, c: nat): seq<Client> {
    seq(clients, i => if i < c then Idle else Passed(i))
  }

  lemma {:induction false} AllEnter(workers: nat, clients: nat, max: nat, tasks: seq<nat>, c: nat) returns (acts: seq<Action>)
    requires c <= clients && |tasks| < max
    ensures Run(Loaded(workers, PassedFrom(clients, clients), max, tasks), acts) == Some(Loaded(workers, PassedFrom(clients, c), max, tasks))
    decreases clients - c
  {
    if c == clients {
      acts := [];
    } else {
      var first := AllEnter(workers, clients, max, tasks, c + 1);
      Enters(workers, PassedFrom(clients, c + 1), max, tasks, c, c);
      assert PassedFrom(clients, c + 1)[c := Passed(c)] == PassedFrom(clients, c);
      RunAppend(Loaded(workers, PassedFrom(clients, clients), max, tasks), first, [SubmitEnter(c, c), SubmitCheck(c)]);
      acts := first + [SubmitEnter(c, c), SubmitCheck(c)];
    }
  }

  lemma {:induction false} AllPush(workers: nat, clients: nat, max: nat, tasks: seq<nat>, c: nat) returns (acts: seq<Action>, more: seq<nat>)
    requires c <= clients
    ensures |more| == |tasks| + c
    ensures Run(Loaded(workers, PassedFrom(clients, 0), max, tasks), acts) == Some(Loaded(workers, PassedFrom(clients, c), max, more))
  {
    if c == 0 {
      acts, more := [], tasks;
    } else {
      var first, before := AllPush(workers, clients, max, tasks, c - 1);
      Pushes(workers, PassedFrom(clients, c - 1), max, before, c - 1);
      assert PassedFrom(clients, c - 1)[c - 1 := Idle] == PassedFrom(clients, c);
      RunAppend(Loaded(workers, PassedFrom(clients, 0), max, tasks), first, [SubmitPush(c - 1), SubmitNotify(c - 1, 0)]);
      acts, more := first + [SubmitPush(c - 1), SubmitNotify(c - 1, 0)], before + [c - 1];
    }
  }

  lemma {:induction false} AllPassed(cs: seq<Client>)
    requires forall c :: 0 <= c < |cs| ==> cs[c].Passed?
    ensures PassedCount(cs) == |cs|
  {
    if cs != [] {
      AllPassed(cs[1..]);
    }
  }

  lemma NewPoolLoaded(workers: nat, clients: nat, max: nat)
    ensures NewPool(workers, clients, max) == Loaded(workers, PassedFrom(clients, clients), max, [])
  {
    assert seq(clients, _ => Idle) == PassedFrom(clients, clients);
  }

  /** The bound of `Overshoot` is reached from every new pool: first by S submitters past the check of a queue one short of
      its limit, and then by the queue itself. */
  lemma OvershootReached(workers: nat, clients: nat, max: nat) returns (acts: seq<Action>, more: seq<Action>)
    requires clients > 0 && max > 0
    ensures Run(NewPool(workers, clients, max), acts).Some? && Run(NewPool(workers, clients, max), acts + more).Some?
    ensures var t := Run(NewPool(workers, clients, max), acts).value; |t.queue| == max - 1 && PassedCount(t.clients) == clients
    ensures |Run(NewPool(workers, clients, max), acts + more).value.queue| == max - 1 + clients
  {
    var s := NewPool(workers, clients, max);
    NewPoolLoaded(workers, clients, max);
    var first, tasks := FillsUp(workers, PassedFrom(clients, clients), max, max - 1);
    var second := AllEnter(workers, clients, max, tasks, 0);
    RunAppend(s, first, second);
    acts := first + second;
    AllPassed(PassedFrom(clients, 0));
    var last, all := AllPush(workers, clients, max, tasks, clients);
    RunAppend(s, acts, last);
    more := last;
  }
}
