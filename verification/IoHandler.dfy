/** The interrupt handler's flush, made without the write lock, beside a flush that a worker of the I/O pool has not
    stored yet. */
module IoHandler {
  import opened Common
  import opened BlockFile
  import opened TablesSpec
  import opened TwoMaps
  import opened IoProtocol
  import opened IoSafety
  import opened IoTheorems

  /** The handler maps the keys of the buffer to the lowest free block, writes it and empties the buffer. */
  function HandlerFlush(s: System): System {
    var c := FirstFree(s.used, 0);
    if c >= |s.used| then s
    else s.(W := map[], used := s.used[c := true], blocks := s.blocks[c := s.W],
            index := map k | k in s.index.Keys + s.W.Keys :: if k in s.index then s.index[k] else c)
  }

  /** What the disk has for a key: the text in the block that the index names. */
  function OnDisk(s: System, k: int32): Value {
    if k in s.index then Text(BlockTexts(s, s.index[k]), k) else []
  }

  /** The worker has not stored the buffer, and is not walking it. */
  ghost predicate BeforeStoring(s: System, b: nat) {
    && Inv(s) && s.lock == HandedOver(b) && 0 < b < NUM_BLOCKS
    && (s.jobs[b - 1] == Looking || s.jobs[b - 1] == Sleeping(true) || s.jobs[b - 1] == Storing(b))
  }

  /** The worker has stored an empty buffer in its block. */
  ghost predicate StoredEmpty(s: System, t: System, b: nat) {
    !t.lock.HandedOver? && t.index == s.index && t.blocks == s.blocks[b := map[]]
  }

  /** From its storing on the worker finishes. */
  lemma StoresEmpty(s: System, b: nat) returns (acts: seq<Action>)
    requires s.specs != [] && 0 < b <= |s.jobs| == |s.queues| && s.jobs[b - 1] == Storing(b) && s.W == map[]
    ensures OnlyWorker(acts, b - 1) && Run(s, acts).Some? && StoredEmpty(s, Run(s, acts).value, b)
  {
    var q, a := b - 1, IoStep(b - 1, 0);
    var s1 := Store(s, q, b);
    var s2 := s1.(jobs := s1.jobs[q := Releasing(b)]);
    var s3 := s2.(lock := Dropped(s.threads), jobs := s2.jobs[q := Looking]);
    assert Step(s, a) == Some(s1);
    assert Step(s1, a) == Some(s2);
    assert Step(s2, a) == Some(s3);
    KeeperIs(s.threads, 0);
    acts := [a, a, a];
    PathRuns([s, s1, s2, s3], acts);
  }

  /** From its queue on the worker finds no key to map. */
  lemma MapsNothing(s: System, b: nat) returns (acts: seq<Action>)
    requires s.specs != [] && 0 < b <= |s.jobs| == |s.queues| && s.jobs[b - 1] == Looking && s.queues[b - 1] == [Flush(b)] && s.W == map[]
    ensures OnlyWorker(acts, b - 1) && Run(s, acts).Some? && StoredEmpty(s, Run(s, acts).value, b)
  {
    var q, a := b - 1, IoStep(b - 1, 0);
    var s1 := Fetch(s, q);
    var s2 := Work(s1, q, Storing(b));
    assert Step(s, a) == Some(s1);
    assert Step(s1, a) == Some(s2);
    PathRuns([s, s1, s2], [a, a]);
    var rest := StoresEmpty(s2, b);
    RunAppend(s, [a, a], rest);
    acts := [a, a] + rest;
  }

  lemma WorkerGoesOn(s: System, b: nat) returns (acts: seq<Action>)
    requires s.specs != [] && 0 < b <= |s.jobs| == |s.queues| && s.W == map[]
    requires s.jobs[b - 1] == Storing(b) || (s.queues[b - 1] == [Flush(b)] && (s.jobs[b - 1] == Looking || s.jobs[b - 1] == Sleeping(true)))
    ensures OnlyWorker(acts, b - 1) && Run(s, acts).Some? && StoredEmpty(s, Run(s, acts).value, b)
  {
    if s.jobs[b - 1].Storing? {
      acts := StoresEmpty(s, b);
    } else if s.jobs[b - 1].Looking? {
      acts := MapsNothing(s, b);
    } else {
      var a, t := IoStep(b - 1, 0), Work(s, b - 1, Looking);
      assert Step(s, a) == Some(t);
      var rest := MapsNothing(t, b);
      RunOne(s, a, rest);
      acts := [a] + rest;
    }
  }

  /** When the handler's flush comes between the submission of another and its storing, and the worker then goes on, the
      disk has for a key what one flush would have left there, unless the worker had already mapped the key to its own
      block: that block is then stored empty, and the key's text is lost. */
  lemma SecondFlush(s: System, b: nat) returns (acts: seq<Action>)
    requires BeforeStoring(s, b) && FirstFree(s.used, 0) < NUM_BLOCKS
    ensures OnlyWorker(acts, b - 1) && Run(HandlerFlush(s), acts).Some? && !Run(HandlerFlush(s), acts).value.lock.HandedOver?
    ensures forall k :: OnDisk(Run(HandlerFlush(s), acts).value, k) == Text(SpecFlush(Now(s)).D, k) <==> !LosesText(s, b, k)
  {
    assert QueueOk(s, b - 1);
    acts := WorkerGoesOn(HandlerFlush(s), b);
    var t := Run(HandlerFlush(s), acts).value;
    forall k ensures OnDisk(t, k) == Text(SpecFlush(Now(s)).D, k) <==> !LosesText(s, b, k) {
      KeyAfter(s, b, k, t);
    }
  }

  /** The index names the block of the flush for a key with a text. */
  predicate LosesText(s: System, b: nat, k: int32) {
    k in s.index && s.index[k] == b && Text(s.W, k) != []
  }

  lemma KeyAfter(s: System, b: nat, k: int32, t: System)
    requires BeforeStoring(s, b) && FirstFree(s.used, 0) < NUM_BLOCKS && StoredEmpty(HandlerFlush(s), t, b)
    ensures OnDisk(t, k) == Text(SpecFlush(Now(s)).D, k) <==> !LosesText(s, b, k)
  {
    FirstFreeIs(s.used, 0);
    assert QueueOk(s, b - 1) && DiskOk(s, k);
    if k in s.index {
      MappedKeyAfter(s, b, k);
    }
  }

  lemma MappedKeyAfter(s: System, b: nat, k: int32)
    requires BeforeStoring(s, b) && k in s.index
    ensures s.index[k] < NUM_BLOCKS && s.used[s.index[k]] && (s.index[k] in s.blocks <==> s.index[k] != b)
  {
    assert KeyOk(s, k);
    assert QueueOk(s, b - 1);
    if s.index[k] != b {
      UsedIsWritten(s, s.index[k]);
    }
  }

  /** Once the worker has mapped the buffer's keys, that is every text of a key that no older block has. */
  lemma AllTextsLost(s: System, b: nat, k: int32)
    requires BeforeStoring(s, b) && s.jobs[b - 1].Storing? && k in s.W
    ensures LosesText(s, b, k) <==> k !in Now(s).D && s.W[k] != []
  {
    assert QueueOk(s, b - 1) && DiskOk(s, k) && KeyOk(s, k);
    if s.index[k] != b {
      UsedIsWritten(s, s.index[k]);
    }
  }
}
