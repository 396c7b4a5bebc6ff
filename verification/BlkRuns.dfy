/** Whole requests of the block driver against a device: whether each chain stays in one hand. */
module BlkRuns {
  import opened Machine
  import opened Counters
  import opened DescriptorLists
  import opened Virtqueues
  import opened VirtqueueRuns
  import opened VirtioBlk

  predicate DeviceOnly(acts: seq<Op>) { forall i :: 0 <= i < |acts| ==> acts[i].Take? || acts[i].Return? }

  /** A request has built its chain of three descriptors and offered it. */
  ghost function Posted(s: Chan): Chan
    requires |s.free| >= 3
  {
    s.(free := s.free[3..], chains := s.chains[s.free[0] := s.free[..3]], submitted := s.submitted + [s.free[0]])
  }

  ghost predicate HasAnswer(s: Chan) { s.popped < |s.returned| }

  /** The end of a request: pop whatever answer there is, without looking at whose, and free the chain. */
  ghost function Ended(s: Chan, head: u16): Chan
    requires head in s.chains
  {
    if HasAnswer(s) then Freed(After(s, Pop), head) else Freed(s, head)
  }

  /** The queue between requests: no chain in anyone's hands. */
  ghost predicate Quiet(s: Chan) { Sound(s) && s.chains == map[] }

  /** One chain is out, somewhere between submission and being popped. */
  ghost predicate OneOut(s: Chan, head: u16) { Sound(s) && s.chains.Keys == {head} && s.idle == {} }

  lemma PostOne(s: Chan)
    requires Quiet(s) && |s.free| >= 3
    ensures OneOut(Posted(s), s.free[0])
  {
    hide HandsOf;
    var h := s.free[0];
    NoneOut(s);
    NewHead(s.chains.Keys, s.idle, s.submitted, s.taken, s.held, s.returned, s.popped, h);
    GiveHead(s.chains.Keys + {h}, s.idle + {h}, s.submitted, s.taken, s.held, s.returned, s.popped, h, 0x1_0000);
    assert Posted(s).chains.Keys == s.chains.Keys + {h} == {h};
    assert s.idle + {h} - {h} == s.idle;
  }

  lemma NoneOut(s: Chan)
    requires Quiet(s)
    ensures s.taken == |s.submitted| && s.popped == |s.returned| && s.held == {} && s.idle == {}
  {
    SomeIn(s.submitted[s.taken..]);
    SomeIn(s.returned[s.popped..]);
  }

  lemma SomeIn(line: seq<u16>)
    ensures line == [] || exists x :: x in line
  {
    assert line == [] || line[0] in line;
  }

  lemma DeviceKeepsOneOut(s: Chan, head: u16, op: Op)
    requires OneOut(s, head) && (op.Take? || op.Return?)
    ensures OneOut(After(s, op), head)
    ensures After(s, op).free == s.free && After(s, op).chains == s.chains && After(s, op).popped == s.popped
  {
    hide HandsOf;
    if op.Take? {
      if s.taken < |s.submitted| {
        TakeHead(s.chains.Keys, s.idle, s.submitted, s.taken, s.held, s.returned, s.popped);
      }
    } else if op.head in s.held {
      HandBack(s, op.head);
    }
  }

  lemma HandBack(s: Chan, head: u16)
    requires Sound(s) && head in s.held
    ensures Sound(s.(held := s.held - {head}, returned := s.returned + [head]))
  {
    hide HandsOf;
    ReturnHead(s.chains.Keys, s.idle, s.submitted, s.taken, s.held, s.returned, s.popped, head, 0x1_0000);
  }

  lemma {:induction false} DeviceKeeps(s: Chan, head: u16, acts: seq<Op>)
    requires OneOut(s, head) && DeviceOnly(acts)
    ensures OneOut(AfterAll(s, acts), head) && AfterAll(s, acts).free == s.free && AfterAll(s, acts).chains == s.chains
  {
    hide OneOut;
    if acts != [] {
      DeviceKeeps(s, head, acts[..|acts| - 1]);
      DeviceKeepsOneOut(AfterAll(s, acts[..|acts| - 1]), head, acts[|acts| - 1]);
    }
  }

  /** With one chain out, the answer is that chain's. */
  lemma OwnAnswer(s: Chan, head: u16)
    requires OneOut(s, head) && HasAnswer(s)
    ensures s.returned[s.popped] == head
  {
    assert s.returned[s.popped] in s.returned[s.popped..];
  }

  /** Freeing a chain keeps every chain in one hand exactly when the chain is in the driver's. */
  lemma FreeExactly(s: Chan, head: u16)
    requires Sound(s) && head in s.chains
    ensures Sound(Freed(s, head)) <==> head in s.idle
  {
    var keys := s.chains.Keys;
    assert Freed(s, head).chains.Keys == keys - {head};
    if head in s.idle {
      DropHead(keys, s.idle, s.submitted, s.taken, s.held, s.returned, s.popped, head);
    }
  }

  /** The device takes the chain it was offered and later returns it. */
  predicate TakesThenReturns(acts: seq<Op>, head: u16) {
    exists i, j :: 0 <= i < j < |acts| && acts[i].Take? && IsReturn(acts[j], head)
  }

  predicate Takes(acts: seq<Op>) { exists i :: 0 <= i < |acts| && acts[i].Take? }

  predicate IsReturn(op: Op, head: u16) { op.Return? && op.head == head }

  lemma OneMoreAct(acts: seq<Op>, head: u16)
    requires acts != []
    ensures var before, op := acts[..|acts| - 1], acts[|acts| - 1];
      && (Takes(acts) <==> Takes(before) || op.Take?)
      && (TakesThenReturns(acts, head) <==> TakesThenReturns(before, head) || (Takes(before) && IsReturn(op, head)))
  {
    var before, n := acts[..|acts| - 1], |acts| - 1;
    forall i | 0 <= i < n ensures before[i] == acts[i] {}
    if Takes(before) {
      var i :| 0 <= i < |before| && before[i].Take?;
      assert acts[i].Take?;
    }
    if i, j :| 0 <= i < j < |before| && before[i].Take? && IsReturn(before[j], head) {
      assert acts[i].Take? && IsReturn(acts[j], head);
    }
    if i, j :| 0 <= i < j < |acts| && acts[i].Take? && IsReturn(acts[j], head) {
      assert before[i].Take?;
      if j < n { assert IsReturn(before[j], head); }
    }
  }

  /** Where the one chain is, read off the device's steps: still offered until a take, answered once returned
      after that, with the device in between. */
  ghost predicate Whereabouts(s: Chan, head: u16, took: bool, answered: bool) {
    && OneOut(s, head) && s.taken <= |s.submitted| && s.popped <= |s.returned|
    && (took <==> s.taken == |s.submitted|) && (!took ==> s.submitted[s.taken..] == [head] && !answered)
    && (answered <==> HasAnswer(s)) && (took && !answered ==> s.held == {head}) && (!took || answered ==> s.held == {})
  }

  lemma StartsOffered(s: Chan)
    requires Quiet(s) && |s.free| >= 3
    ensures Whereabouts(Posted(s), s.free[0], false, false)
  {
    PostOne(s);
    hide HandsOf;
    NoneOut(s);
    assert Posted(s).submitted[s.taken..] == [s.free[0]];
  }

  lemma StepTells(s: Chan, head: u16, took: bool, answered: bool, op: Op)
    requires Whereabouts(s, head, took, answered) && (op.Take? || op.Return?)
    ensures Whereabouts(After(s, op), head, took || op.Take?, answered || (took && IsReturn(op, head)))
  {
    hide HandsOf, Sound;
    DeviceKeepsOneOut(s, head, op);
    if op.Take? && !took {
      assert s.submitted[s.taken] == head && |s.submitted| == s.taken + 1;
    }
  }

  lemma {:induction false} StepsTell(s: Chan, acts: seq<Op>)
    requires Quiet(s) && |s.free| >= 3 && DeviceOnly(acts)
    ensures Whereabouts(AfterAll(Posted(s), acts), s.free[0], Takes(acts), TakesThenReturns(acts, s.free[0]))
  {
    hide Whereabouts, After;
    if acts == [] {
      StartsOffered(s);
    } else {
      OneMoreAct(acts, s.free[0]);
      hide Takes, TakesThenReturns;
      var before := acts[..|acts| - 1];
      StepsTell(s, before);
      StepTells(AfterAll(Posted(s), before), s.free[0], Takes(before), TakesThenReturns(before, s.free[0]),
        acts[|acts| - 1]);
    }
  }

  /** So a request leaves the queue as it found it exactly when the device, before the timeout, took the chain
      and returned it, and then the answer it popped was its own. */
  lemma KeptExactly(s: Chan, acts: seq<Op>)
    requires Quiet(s) && |s.free| >= 3 && DeviceOnly(acts)
    ensures var head, s1 := s.free[0], AfterAll(Posted(s), acts);
      && head in s1.chains && (Sound(Ended(s1, head)) <==> TakesThenReturns(acts, head))
      && (HasAnswer(s1) <==> TakesThenReturns(acts, head))
      && (HasAnswer(s1) ==> s1.returned[s1.popped] == head && Quiet(Ended(s1, head)))
      && SameDescriptors(s.free, Ended(s1, head).free)
  {
    hide HandsOf, After;
    var head, s1 := s.free[0], AfterAll(Posted(s), acts);
    PostOne(s);
    DeviceKeeps(Posted(s), head, acts);
    GivenBack(s.free, s1, head);
    assert HasAnswer(s1) <==> TakesThenReturns(acts, head) by { StepsTell(s, acts); }
    if HasAnswer(s1) {
      OwnAnswer(s1, head);
      PopOwn(s1, head);
      FreeExactly(After(s1, Pop), head);
      assert Ended(s1, head).chains == map[];
    } else {
      FreeExactly(s1, head);
    }
  }

  lemma PopOwn(s: Chan, head: u16)
    requires OneOut(s, head) && HasAnswer(s) && s.returned[s.popped] == head
    ensures var s' := After(s, Pop); Sound(s') && s'.chains == s.chains && s'.idle == {head} && s'.free == s.free
  {
    hide HandsOf;
    PopHead(s.chains.Keys, s.idle, s.submitted, s.taken, s.held, s.returned, s.popped);
  }

  lemma GivenBack(free: seq<u16>, s: Chan, head: u16)
    requires |free| >= 3 && head in s.chains && s.free == free[3..] && s.chains[head] == free[..3]
    ensures SameDescriptors(free, Ended(s, head).free)
  {
    var f := free;
    assert f == [f[0], f[1], f[2]] + f[3..] && f[..3] == [f[0], f[1], f[2]];
    ReversedThree(f[0], f[1], f[2]);
  }

  /** After a timeout the next request can be completed by the answer to the one that timed out: the device
      answers the first chain while the second waits, and the driver takes that for the second's. */
  lemma LateAnswer(s: Chan, len: u32)
    requires Quiet(s) && |s.free| >= 3 && NoDup(s.free)
    ensures var first, timedOut := s.free[0], Ended(Posted(s), s.free[0]);
      && !HasAnswer(Posted(s)) && |timedOut.free| >= 3
      && var second, late := timedOut.free[0], AfterAll(Posted(timedOut), [Take, Return(first, len)]);
         second != first && HasAnswer(late) && late.returned[late.popped] == first && second in late.chains
  {
    var f := s.free;
    var first := f[0];
    NoneOut(s);
    assert f == [f[0], f[1], f[2]] + f[3..] && f[..3] == [f[0], f[1], f[2]];
    ReversedThree(f[0], f[1], f[2]);
    var timedOut := Ended(Posted(s), first);
    assert timedOut.free == [f[2], f[1], f[0]] + f[3..];
    var s2 := Posted(timedOut);
    assert s2.submitted[s2.taken] == first;
    assert [Take, Return(first, len)][..1] == [Take] && [Take][..0] == [];
    assert AfterAll(s2, []) == s2;
    assert AfterAll(s2, [Take]) == After(s2, Take);
    assert AfterAll(s2, [Take, Return(first, len)]) == After(After(s2, Take), Return(first, len));
  }

  /** The queue part of `blk_transfer` with a device that does `acts` before the driver stops polling. */
  method Request(ch: Channel, req: u64, data: u64, bytes: u32, status: u64, dataFlags: u16, acts: seq<Op>)
    returns (answered: bool)
    requires ch.Valid() && Quiet(ch.State()) && DeviceOnly(acts) && |ch.vq.descs.free| >= 3
    modifies ch, ch.vq, ch.vq.avail, ch.vq.used, ch.vq.descs, ch.vq.descs.desc
    ensures var s1 := AfterAll(Posted(old(ch.State())), acts);
      && answered == TakesThenReturns(acts, old(ch.vq.descs.free)[0]) && old(ch.vq.descs.free)[0] in s1.chains
      && ch.State() == Ended(s1, old(ch.vq.descs.free)[0])
    ensures answered <==> ch.Valid()
    ensures answered ==> Quiet(ch.State())
  {
    hide Descriptors.Valid, RingOf, HandsOf, After, Quiet, AfterAll, Sound, TakesThenReturns;
    ghost var s := ch.State();
    KeptExactly(s, acts);
    var head := Offer(ch, req, data, bytes, status, dataFlags);
    ch.Run(acts);
    answered := ch.vq.lastUsed != ch.vq.usedIdx;
    AnswerSeen(ch);
    if answered {
      var h := ch.PopChain();
      IdleOwn(AfterAll(Posted(s), acts), head);
      ch.FreeIdle(head);
    } else {
      ch.vq.descs.FreeChain(head);
      ch.idle := ch.idle - {head};
    }
  }

  lemma IdleOwn(s: Chan, head: u16)
    requires HasAnswer(s) && s.returned[s.popped] == head
    ensures head in After(s, Pop).idle
  {
  }

  lemma AnswerSeen(ch: Channel)
    requires ch.Valid()
    ensures ch.vq.lastUsed != ch.vq.usedIdx <==> HasAnswer(ch.State())
  {
    hide Descriptors.Valid, RingOf, HandsOf;
    ch.Bounds();
    RingPop(Ids(ch.vq.used[..]), ch.vq.usedIdx, ch.vq.lastUsed, ch.returned, ch.popped, ch.vq.size, 0x1_0000);
  }

  /** Building the chain and submitting it. */
  method Offer(ch: Channel, req: u64, data: u64, bytes: u32, status: u64, dataFlags: u16) returns (head: u16)
    requires ch.Valid() && |ch.vq.descs.free| >= 3
    modifies ch`idle, ch`submitted, ch.vq, ch.vq.avail, ch.vq.descs, ch.vq.descs.desc
    ensures ch.Valid() && head == old(ch.vq.descs.free)[0] && ch.State() == Posted(old(ch.State()))
  {
    hide Descriptors.Valid, RingOf, HandsOf;
    ghost var keys, free := ch.vq.descs.chains.Keys, ch.vq.descs.free;
    ghost var idle := ch.idle;
    head := BuildChain(ch.vq.descs, req, data, bytes, status, dataFlags);
    assert free[..3] == [free[0], free[1], free[2]];
    NewHead(keys, ch.idle, ch.submitted, ch.taken, ch.held, ch.returned, ch.popped, head);
    assert ch.vq.descs.chains.Keys == keys + {head};
    ch.idle := ch.idle + {head};
    NotIdleYet(keys, idle, ch.submitted, ch.taken, ch.held, ch.returned, ch.popped, head);
    ch.SubmitChain(head);
    assert ch.idle == idle;
  }

  lemma NotIdleYet(keys: set<u16>, idle: set<u16>, submitted: seq<u16>, taken: nat, held: set<u16>, returned: seq<u16>,
                   popped: nat, x: u16)
    requires HandsOf(keys, idle, submitted, taken, held, returned, popped) && x !in keys
    ensures x !in idle
  {
  }

  /** Any number of requests in turn, each with whatever the device does meanwhile, up to the first
      timeout: as long as all are answered the queue ends quiet, with the descriptors it had. */
  method Requests(ch: Channel, req: u64, data: u64, bytes: u32, status: u64, dataFlags: u16, script: seq<seq<Op>>)
    returns (answered: nat)
    requires ch.Valid() && Quiet(ch.State()) && |ch.vq.descs.free| >= 3
    requires forall i :: 0 <= i < |script| ==> DeviceOnly(script[i])
    modifies ch, ch.vq, ch.vq.avail, ch.vq.used, ch.vq.descs, ch.vq.descs.desc
    ensures answered <= |script| && SameDescriptors(old(ch.vq.descs.free), ch.vq.descs.free)
    ensures answered == |script| <==> ch.Valid()
    ensures answered == |script| ==> Quiet(ch.State())
  {
    hide Descriptors.Valid, RingOf, HandsOf, Channel.Valid, Quiet, AfterAll, Ended, Posted, HasAnswer, DeviceOnly;
    for i := 0 to |script|
      invariant ch.Valid() && Quiet(ch.State()) && SameDescriptors(old(ch.vq.descs.free), ch.vq.descs.free)
    {
      ghost var s := ch.State();
      KeptExactly(s, script[i]);
      var ok := Request(ch, req, data, bytes, status, dataFlags, script[i]);
      if !ok { return i; }
    }
    answered := |script|;
  }

  // ----- on after a timeout -----

  /** The device's steps touch neither descriptors nor what the driver has popped and submitted. */
  ghost predicate SameDriver(s: Chan, s': Chan) {
    s'.free == s.free && s'.chains == s.chains && s'.idle == s.idle && s'.submitted == s.submitted
      && s'.popped == s.popped
  }

  lemma {:induction false} DeviceSteps(s: Chan, acts: seq<Op>)
    requires DeviceOnly(acts)
    ensures SameDriver(s, AfterAll(s, acts))
  {
    if acts != [] { DeviceSteps(s, acts[..|acts| - 1]); }
  }

  /** One request, whatever state the queue is in; with fewer than three descriptors it does nothing. */
  ghost function Requested(s: Chan, acts: seq<Op>): Chan
    requires DeviceOnly(acts)
  {
    if |s.free| < 3 then s else
    DeviceSteps(Posted(s), acts);
    Ended(AfterAll(Posted(s), acts), s.free[0])
  }

  ghost predicate TimesOut(s: Chan, acts: seq<Op>) { |s.free| >= 3 && !HasAnswer(AfterAll(Posted(s), acts)) }

  ghost predicate DevicesOnly(script: seq<seq<Op>>) { forall i :: 0 <= i < |script| ==> DeviceOnly(script[i]) }

  ghost function AfterRequests(s: Chan, script: seq<seq<Op>>): Chan
    requires DevicesOnly(script)
  {
    if script == [] then s else Requested(AfterRequests(s, script[..|script| - 1]), script[|script| - 1])
  }

  ghost function Timeouts(s: Chan, script: seq<seq<Op>>): nat
    requires DevicesOnly(script)
  {
    if script == [] then 0
    else
      var before := script[..|script| - 1];
      Timeouts(s, before) + if TimesOut(AfterRequests(s, before), script[|script| - 1]) then 1 else 0
  }

  /** Between requests: no chain is allocated and the three descriptors of the next are there. */
  ghost predicate Resting(s: Chan) { s.chains == map[] && |s.free| >= 3 }

  lemma OneRequest(s: Chan, acts: seq<Op>)
    requires Resting(s) && DeviceOnly(acts)
    ensures var s' := Requested(s, acts);
      && Resting(s') && SameDescriptors(s.free, s'.free)
      && |s'.submitted| - s'.popped == |s.submitted| - s.popped + (if TimesOut(s, acts) then 1 else 0)
  {
    DeviceSteps(Posted(s), acts);
    var s1 := AfterAll(Posted(s), acts);
    hide AfterAll;
    GivenBack(s.free, s1, s.free[0]);
    assert Ended(s1, s.free[0]).chains == map[];
  }

  lemma QuietBalances(s: Chan)
    requires Quiet(s)
    ensures |s.submitted| == s.popped
  {
    NoneOut(s);
    assert s.submitted[s.taken..] == [];
    assert multiset(s.submitted) == multiset(s.returned);
    assert |multiset(s.submitted)| == |multiset(s.returned)|;
  }

  /** Over any number of requests, timeouts included: the descriptors come back every time, as many submitted
      heads are still to be popped at the end as there were timeouts, and the queue is in order exactly when
      there was none. */
  lemma {:induction false} EveryRequestRun(s: Chan, script: seq<seq<Op>>)
    requires Quiet(s) && Resting(s) && DevicesOnly(script)
    ensures var s' := AfterRequests(s, script);
      && Resting(s') && SameDescriptors(s.free, s'.free)
      && |s'.submitted| - s'.popped == Timeouts(s, script) && (Quiet(s') <==> Timeouts(s, script) == 0)
  {
    hide Quiet, Requested, TimesOut;
    QuietBalances(s);
    if script != [] {
      var before, acts := script[..|script| - 1], script[|script| - 1];
      EveryRequestRun(s, before);
      var s0 := AfterRequests(s, before);
      OneRequest(s0, acts);
      if Quiet(s0) { QuietRequest(s0, acts); }
    }
    var s' := AfterRequests(s, script);
    if Quiet(s') { QuietBalances(s'); }
  }

  lemma QuietRequest(s: Chan, acts: seq<Op>)
    requires Quiet(s) && Resting(s) && DeviceOnly(acts)
    ensures !TimesOut(s, acts) ==> Quiet(Requested(s, acts))
  {
    hide HandsOf, Sound, After, AfterAll;
    KeptExactly(s, acts);
  }
}
