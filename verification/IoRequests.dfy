/** Requests that nothing interleaves with: each does what it is for. */
module IoRequests {
  import opened Common
  import opened BlockFile
  import opened TablesSpec
  import opened TwoMaps
  import opened IoProtocol
  import opened IoSafety
  import opened IoTheorems
  import opened IoReads

  /** Nobody has the write buffer, and thread c can begin. */
  ghost predicate Ready(s: System, c: nat) {
    Inv(s) && s.lock == Free && NoReader(s) && c < |s.threads| && s.threads[c] == Idle
  }

  // ----- PUT and DEL -----

  /** The buffer has become W by whole PUTs and is not flushed. */
  ghost predicate Refilled(s: System, t: System, W: Texts) {
    t.specs != [] && t == s.(W := W, specs := t.specs)
  }

  /** A PUT that does not overflow puts its key and value into the buffer, and changes nothing else but the history. */
  lemma PutAlone(s: System, c: nat, k: int32, v: Value) returns (t: System)
    requires s.specs != [] && |s.jobs| == |s.queues| && c < |s.threads| && s.threads[c] == Idle && s.lock == Free && NoReader(s)
    ensures Run(s, [PutLock(c, k, v), PutInsert(c), PutReturn(c)]) == Some(t) && Refilled(s, t, s.W[k := v])
  {
    var s1 := At(s, c, PutLocked(k, v)).(lock := Held(c));
    assert Step(s, PutLock(c, k, v)) == Some(s1);
    var s2 := Insert(s1, c);
    assert Step(s1, PutInsert(c)) == Some(s2);
    t := At(s2, c, Idle).(lock := Free);
    assert Step(s2, PutReturn(c)) == Some(t);
    assert t.threads == s.threads;
    PathRuns([s, s1, s2, t], [PutLock(c, k, v), PutInsert(c), PutReturn(c)]);
  }

  /** A DEL takes its key out of the buffer and of W, and changes nothing else. */
  lemma DelAlone(s: System, c: nat, k: int32) returns (acts: seq<Action>)
    requires Ready(s, c)
    ensures Run(s, acts) == Some(s.(W := s.W - {k}, specs := s.specs + [Spec(Now(s).W - {k}, Now(s).D)]))
  {
    var t := At(s, c, DelLocked(k)).(lock := Held(c));
    assert Step(s, DelLock(c, k)) == Some(t);
    ErasesOnly(s, t, c, k);
    acts := [DelLock(c, k), DelErase(c)];
    PathRuns([s, t, Erase(t, c)], acts);
  }

  lemma ErasesOnly(s: System, t: System, c: nat, k: int32)
    requires Ready(s, c) && t == At(s, c, DelLocked(k)).(lock := Held(c))
    ensures Step(t, DelErase(c)) == Some(Erase(t, c))
    ensures Erase(t, c) == s.(W := s.W - {k}, specs := s.specs + [Spec(Now(s).W - {k}, Now(s).D)])
  {
    assert t.threads[c := Idle] == s.threads;
  }

  // ----- GET -----

  /** The GET has ended with the answer of the two maps, and has changed at most the read buffer and what is asleep. */
  ghost predicate AnsweredNow(s: System, t: System, k: int32)
    requires s.specs != []
  {
    && t.log == s.log + [Reply(k, SpecGet(Now(s), k), |s.specs| - 1, |s.specs|, true)]
    && t.W == s.W && t.lock == s.lock && t.threads == s.threads && t.index == s.index && t.blocks == s.blocks
    && t.queues == s.queues && t.specs == s.specs
  }

  /** A GET has locked the buffer and looked there. */
  lemma Searches(s: System, k: int32, c: nat) returns (acts: seq<Action>)
    requires Ready(s, c)
    ensures Run(s, acts) == Some(Search(At(s, c, GetLocked(k, |s.specs| - 1)), c))
  {
    var t := At(s, c, GetLocked(k, |s.specs| - 1));
    assert Step(s, GetLock(c, k)) == Some(t);
    assert Step(t, GetSearch(c)) == Some(Search(t, c));
    acts := [GetLock(c, k), GetSearch(c)];
    PathRuns([s, t, Search(t, c)], acts);
  }

  lemma BufferAnswers(s: System, k: int32, c: nat) returns (acts: seq<Action>)
    requires Ready(s, c) && Text(s.W, k) != []
    ensures Run(s, acts).Some? && AnsweredNow(s, Run(s, acts).value, k)
  {
    acts := Searches(s, k, c);
    assert s.threads[c := GetLocked(k, |s.specs| - 1)][c := Idle] == s.threads;
  }

  lemma UnmappedAnswers(s: System, k: int32, c: nat) returns (acts: seq<Action>)
    requires Ready(s, c) && Text(s.W, k) == [] && k !in s.index
    ensures Run(s, acts).Some? && AnsweredNow(s, Run(s, acts).value, k)
  {
    var t, u := At(s, c, GetLocked(k, |s.specs| - 1)), At(s, c, GetMissed(k, |s.specs| - 1));
    var first := Searches(s, k, c);
    AtAgain(s, c, t.threads[c], u.threads[c]);
    LooksUpNothing(s, u, k, c);
    PathRuns([u, LookUp(u, c)], [GetLookup(c)]);
    RunAppend(s, first, [GetLookup(c)]);
    acts := first + [GetLookup(c)];
  }

  lemma LooksUpNothing(s: System, u: System, k: int32, c: nat)
    requires Ready(s, c) && Text(s.W, k) == [] && k !in s.index && u == At(s, c, GetMissed(k, |s.specs| - 1))
    ensures Step(u, GetLookup(c)) == Some(LookUp(u, c)) && AnsweredNow(s, LookUp(u, c), k)
  {
    assert u.threads[c := Idle] == s.threads;
    assert DiskOk(s, k);
  }

  lemma LoadedAnswers(s: System, k: int32, c: nat) returns (acts: seq<Action>)
    requires OnDiskOnly(s, k, c) && s.index[k] == s.readBlock == s.readFrom
    ensures Run(s, acts).Some? && AnsweredNow(s, Run(s, acts).value, k)
  {
    acts := DeclaredRead(s, k, c);
    AnswerNow(s, k);
  }

  /** The load has been submitted and its notification is out. */
  lemma SubmitsAndNotifies(s: System, k: int32, c: nat) returns (acts: seq<Action>, t: System)
    requires OnDiskOnly(s, k, c) && s.index[k] != s.readBlock && Unburdened(s, k)
    ensures Run(s, acts) == Some(t) && OnItsWay(s, t, k)
  {
    var first := ClaimingGet(s, k, c);
    var u := Submitted(s, k, c);
    var q := Notifies(u, c);
    t := Step(u, Notify(c, q)).value;
    NotifiesLoad(s, u, t, k, c, q);
    PathRuns([u, t], [Notify(c, q)]);
    RunAppend(s, first, [Notify(c, q)]);
    acts := first + [Notify(c, q)];
    RunInv(s, acts);
  }

  lemma NotifiesLoad(s: System, u: System, t: System, k: int32, c: nat, q: nat)
    requires OnDiskOnly(s, k, c) && Unburdened(s, k) && u == Submitted(s, k, c) && Step(u, Notify(c, q)) == Some(t)
    requires t.threads == u.threads[c := Idle] && t == u.(threads := t.threads, jobs := t.jobs)
    ensures |t.jobs| == |s.jobs| && t.jobs[s.index[k] - 1] == Looking
    ensures t == s.(readBlock := s.index[k], jobs := t.jobs, queues := s.queues[s.index[k] - 1 := [Load(s.index[k], k, |s.specs| - 1)]])
  {
    assert s.queues[s.index[k] - 1] + [Load(s.index[k], k, |s.specs| - 1)] == [Load(s.index[k], k, |s.specs| - 1)];
    assert t.threads == s.threads;
  }

  /** The load is alone in its queue, its worker is awake, and nothing else has changed. */
  ghost predicate OnItsWay(s: System, t: System, k: int32)
    requires Unburdened(s, k) && s.specs != []
  {
    && Inv(t) && |t.jobs| == |s.jobs| && t.jobs[s.index[k] - 1] == Looking
    && t == s.(readBlock := s.index[k], jobs := t.jobs, queues := s.queues[s.index[k] - 1 := [Load(s.index[k], k, |s.specs| - 1)]])
  }

  lemma LoadAnswered(s: System, t: System, k: int32, c: nat) returns (acts: seq<Action>)
    requires OnDiskOnly(s, k, c) && Unburdened(s, k) && OnItsWay(s, t, k)
    ensures Run(t, acts).Some? && AnsweredNow(s, Run(t, acts).value, k)
  {
    var b, since := s.index[k], |s.specs| - 1;
    var first := LoadRuns(t, b - 1, k, since);
    var u := Run(t, first).value;
    assert u.queues == s.queues;
    DiskAnswer(s, k, c);
    var last := LastStep(s, u, k);
    RunAppend(t, first, last);
    acts := first + last;
  }

  lemma LastStep(s: System, u: System, k: int32) returns (acts: seq<Action>)
    requires Unburdened(s, k) && s.specs != [] && |u.jobs| == |u.queues| && s.index[k] <= |u.jobs|
    requires u == s.(readBlock := s.index[k], readBuf := BlockTexts(s, s.index[k]), readFrom := s.index[k], jobs := u.jobs)
    requires u.jobs[s.index[k] - 1] == Answering(s.index[k], k, |s.specs| - 1)
    requires SpecGet(Now(s), k) == Text(BlockTexts(s, s.index[k]), k)
    ensures Run(u, acts).Some? && AnsweredNow(s, Run(u, acts).value, k)
  {
    var a := IoStep(s.index[k] - 1, 0);
    var v := StepIo(u, s.index[k] - 1, 0).value;
    assert Step(u, a) == Some(v);
    acts := [a];
    PathRuns([u, v], acts);
  }

  lemma DiskAnswer(s: System, k: int32, c: nat)
    requires OnDiskOnly(s, k, c)
    ensures SpecGet(Now(s), k) == Text(BlockTexts(s, s.index[k]), k)
  {
    assert DiskOk(s, k) && KeyOk(s, k);
    UsedIsWritten(s, s.index[k]);
  }

  /** The read tier can serve the key at once: its block is declared and loaded, or its worker is free to load it. */
  ghost predicate Servable(s: System, k: int32) {
    k in s.index && Text(s.W, k) == [] ==> if s.index[k] == s.readBlock then s.readFrom == s.readBlock else Unburdened(s, k)
  }

  /** A GET answers what the two maps have: from the write buffer, from the index, from the read buffer, or after a load. */
  lemma GetAlone(s: System, k: int32, c: nat) returns (acts: seq<Action>)
    requires Ready(s, c) && Servable(s, k)
    ensures Run(s, acts).Some? && AnsweredNow(s, Run(s, acts).value, k)
  {
    if Text(s.W, k) != [] {
      acts := BufferAnswers(s, k, c);
    } else if k !in s.index {
      acts := UnmappedAnswers(s, k, c);
    } else if s.index[k] == s.readBlock {
      acts := LoadedAnswers(s, k, c);
    } else {
      var first, t := SubmitsAndNotifies(s, k, c);
      var last := LoadAnswered(s, t, k, c);
      RunAppend(s, first, last);
      acts := first + last;
    }
  }
}
