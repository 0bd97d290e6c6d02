/**
 The background indexer of fixed-size chain sections. Its lock-protected parts are atomic steps; between
 them the chain may grow or reorganise, and one section may be in flight.

 `world` is every header there is, keyed by hash: which header a hash names never changes, only which
 hashes are canonical does. What a step reads from the chain is a parameter of the step.
 */
module ChainIndexers {
  import opened Basics
  import opened BlockTree

  /** The section being processed without the lock, and the section head it started from. */
  datatype Job = Job(section: nat, oldHead: Hash)

  datatype IndexerState = IndexerState(
    heads: map<nat, Hash>,
    storedSections: nat,
    knownSections: nat,
    checkpointSections: nat,
    checkpointHead: Hash,
    job: Option<Job>)

  /** A missing section head reads as the zero hash. */
  function SectionHead(heads: map<nat, Hash>, section: int): Hash {
    if section in heads then heads[section] else ZERO_HASH
  }

  ghost predicate Keyed(world: Store) {
    forall h | h in world :: world[h].hash == h
  }

  /** `b` is reached from `a` by exactly `n` parent links. */
  ghost predicate Descends(world: Store, a: Hash, b: Hash, n: nat)
    decreases n
  {
    if n == 0 then a == b else b in world && Descends(world, a, world[b].parentHash, n - 1)
  }

  /**
   Section heads are kept below the stored count only, the last one is always there, and past the checkpoint
   each descends from the one before by exactly one section.
   */
  ghost predicate Inv(s: IndexerState, world: Store, size: nat) {
    && (forall i | i in s.heads :: i < s.storedSections && s.heads[i] != ZERO_HASH)
    && (s.storedSections > 0 ==> s.storedSections - 1 in s.heads)
    && (forall i: nat | s.checkpointSections <= i < s.storedSections :: LinkedSection(s.heads, world, size, i))
    && (s.job.Some? && s.job.value.section > 0 ==> s.job.value.oldHead != ZERO_HASH)
    && (s.job.Some? && s.job.value.section == 0 ==> s.job.value.oldHead == ZERO_HASH)
  }

  ghost predicate LinkedSection(heads: map<nat, Hash>, world: Store, size: nat, i: nat) {
    && i in heads
    && (i > 0 ==> i - 1 in heads)
    && Descends(world, SectionHead(heads, i - 1), heads[i], size)
  }

  // Steps, on values.

  ghost function SetValid(s: IndexerState, sections: nat): IndexerState {
    s.(heads := s.heads - (set i | i in s.heads && i >= sections && i < s.storedSections), storedSections := sections)
  }

  ghost function NewHead(s: IndexerState, head: nat, synced: Hash, size: nat, confirms: nat): IndexerState
    requires size > 0
  {
    if head < confirms then s
    else
      var full := (head + 1 - confirms) / size;
      var sections := if full < s.checkpointSections then 0 else full;
      if sections <= s.knownSections || (s.knownSections < s.checkpointSections && synced != s.checkpointHead) then s
      else s.(knownSections := sections)
  }

  ghost function Reorged(s: IndexerState, head: nat, size: nat): IndexerState
    requires size > 0
  {
    var full := (head + 1) / size;
    var known := if full < s.checkpointSections then 0 else full;
    var stored := if full < s.checkpointSections then s.checkpointSections else full;
    var s' := if known < s.knownSections then s.(knownSections := known) else s;
    if stored < s.storedSections then SetValid(s', stored) else s'
  }

  ghost function Checkpointed(s: IndexerState, section: nat, shead: Hash): IndexerState {
    if s.checkpointSections >= section + 1 || section < s.storedSections then s
    else
      var noted := s.(checkpointSections := section + 1, checkpointHead := shead, heads := s.heads[section := shead]);
      SetValid(noted, section + 1)
  }

  /** Drops sections from the top until the last one is canonical or the checkpoint is reached. */
  ghost function Verified(s: IndexerState, canon: map<nat, Hash>, size: nat): IndexerState
    requires size > 0
    decreases s.storedSections
  {
    if s.storedSections == 0 || s.storedSections <= s.checkpointSections || LastIsCanonical(s, canon, size) then s
    else Verified(SetValid(s, s.storedSections - 1), canon, size)
  }

  ghost predicate LastIsCanonical(s: IndexerState, canon: map<nat, Hash>, size: nat)
    requires s.storedSections > 0 && size > 0
  {
    SectionHead(s.heads, s.storedSections - 1) == SectionHead(canon, s.storedSections * size - 1)
  }

  ghost function Begun(s: IndexerState, canon: map<nat, Hash>, size: nat): IndexerState
    requires size > 0
  {
    if s.knownSections <= s.storedSections then s
    else
      var v := Verified(s, canon, size);
      v.(job := Some(Job(v.storedSections, SectionHead(v.heads, v.storedSections - 1))))
  }

  ghost function Finished(s: IndexerState, result: Option<Hash>, canon: map<nat, Hash>, size: nat): IndexerState
    requires size > 0 && s.job.Some?
  {
    var section, oldHead := s.job.value.section, s.job.value.oldHead;
    if result.Some? && (section == 0 || oldHead == SectionHead(s.heads, section - 1)) then
      SetValid(s.(heads := s.heads[section := result.value], job := None), section + 1)
    else
      var v := Verified(s, canon, size);
      v.(knownSections := v.storedSections, job := None)
  }

  /** The outcome of processing a section: a head exactly one section above where it started, or a failure. */
  ghost predicate SectionResult(world: Store, size: nat, oldHead: Hash, result: Option<Hash>) {
    result.Some? ==> result.value != ZERO_HASH && Descends(world, oldHead, result.value, size)
  }

  datatype Step =
    | StepNewHead(head: nat, synced: Hash)
    | StepReorg(head: nat)
    | StepCheckpoint(section: nat, shead: Hash)
    | StepVerify(canon: map<nat, Hash>)
    | StepBegin(canon: map<nat, Hash>)
    | StepBackendReset
    | StepFinish(result: Option<Hash>, canon: map<nat, Hash>)

  ghost predicate Enabled(s: IndexerState, step: Step, world: Store, size: nat) {
    match step
    case StepCheckpoint(_, shead) => shead != ZERO_HASH
    case StepBegin(_) => s.job.None?
    case StepBackendReset => s.job.Some?
    case StepFinish(result, _) => s.job.Some? && SectionResult(world, size, s.job.value.oldHead, result)
    case _ => true
  }

  ghost function After(s: IndexerState, step: Step, size: nat, confirms: nat): IndexerState
    requires size > 0 && (step.StepFinish? ==> s.job.Some?)
  {
    match step
    case StepNewHead(head, synced) => NewHead(s, head, synced, size, confirms)
    case StepReorg(head) => Reorged(s, head, size)
    case StepCheckpoint(section, shead) => Checkpointed(s, section, shead)
    case StepVerify(canon) => Verified(s, canon, size)
    case StepBegin(canon) => Begun(s, canon, size)
    case StepBackendReset => SetValid(s, 0)
    case StepFinish(result, canon) => Finished(s, result, canon, size)
  }

  lemma LowerKeepsInv(s: IndexerState, sections: nat, world: Store, size: nat)
    requires Inv(s, world, size) && sections <= s.storedSections && (sections >= s.checkpointSections || sections == 0)
    ensures Inv(SetValid(s, sections), world, size)
  {
    var s' := SetValid(s, sections);
    if 0 < sections < s.storedSections {
      assert LinkedSection(s.heads, world, size, sections);
    }
    forall i: nat | s.checkpointSections <= i < sections ensures LinkedSection(s'.heads, world, size, i) {
      assert LinkedSection(s.heads, world, size, i);
    }
  }

  lemma {:induction false} VerifyKeepsInv(s: IndexerState, canon: map<nat, Hash>, world: Store, size: nat)
    requires Inv(s, world, size) && size > 0
    ensures var v := Verified(s, canon, size);
            && Inv(v, world, size)
            && v == s.(heads := v.heads, storedSections := v.storedSections)
            && v.storedSections <= s.storedSections
            && (v.storedSections == 0 || v.storedSections <= v.checkpointSections || LastIsCanonical(v, canon, size))
    decreases s.storedSections
  {
    if !(s.storedSections == 0 || s.storedSections <= s.checkpointSections || LastIsCanonical(s, canon, size)) {
      LowerKeepsInv(s, s.storedSections - 1, world, size);
      VerifyKeepsInv(SetValid(s, s.storedSections - 1), canon, world, size);
    }
  }

  lemma FinishKeepsInv(s: IndexerState, result: Option<Hash>, canon: map<nat, Hash>, world: Store, size: nat)
    requires Inv(s, world, size) && size > 0
    requires s.job.Some? && SectionResult(world, size, s.job.value.oldHead, result)
    ensures Inv(Finished(s, result, canon, size), world, size)
  {
    var section, oldHead := s.job.value.section, s.job.value.oldHead;
    if result.Some? && (section == 0 || oldHead == SectionHead(s.heads, section - 1)) {
      var s' := Finished(s, result, canon, size);
      forall i: nat | s'.checkpointSections <= i < s'.storedSections ensures LinkedSection(s'.heads, world, size, i) {
        if i < section {
          assert LinkedSection(s.heads, world, size, i);
        }
      }
    } else {
      VerifyKeepsInv(s, canon, world, size);
    }
  }

  lemma ReorgKeepsInv(s: IndexerState, head: nat, world: Store, size: nat)
    requires Inv(s, world, size) && size > 0
    ensures Inv(Reorged(s, head, size), world, size)
  {
    var full := (head + 1) / size;
    var stored := if full < s.checkpointSections then s.checkpointSections else full;
    var known := if full < s.checkpointSections then 0 else full;
    var s' := if known < s.knownSections then s.(knownSections := known) else s;
    if stored < s.storedSections {
      LowerKeepsInv(s', stored, world, size);
    }
  }

  /** One step keeps the invariant. */
  lemma StepKeepsInv(s: IndexerState, step: Step, world: Store, size: nat, confirms: nat)
    requires Inv(s, world, size) && size > 0 && Enabled(s, step, world, size)
    ensures Inv(After(s, step, size, confirms), world, size)
  {
    match step
    case StepNewHead(_, _) =>
    case StepReorg(head) => ReorgKeepsInv(s, head, world, size);
    case StepCheckpoint(_, _) =>
    case StepVerify(canon) => VerifyKeepsInv(s, canon, world, size);
    case StepBegin(canon) => VerifyKeepsInv(s, canon, world, size);
    case StepBackendReset => LowerKeepsInv(s, 0, world, size);
    case StepFinish(result, canon) => FinishKeepsInv(s, result, canon, world, size);
  }

  /** A run: each step is enabled in the state the earlier ones lead to. */
  ghost predicate Run(s: IndexerState, steps: seq<Step>, s': IndexerState, world: Store, size: nat, confirms: nat)
    requires size > 0
    decreases |steps|
  {
    if steps == [] then s' == s
    else
      && Enabled(s, steps[0], world, size)
      && Run(After(s, steps[0], size, confirms), steps[1..], s', world, size, confirms)
  }

  /** In every interleaving of heads, reorganisations, checkpoints and section processing the invariant holds. */
  lemma {:induction false} EveryInterleaving(s: IndexerState, steps: seq<Step>, s': IndexerState, world: Store,
      size: nat, confirms: nat)
    requires size > 0 && Inv(s, world, size) && Run(s, steps, s', world, size, confirms)
    ensures Inv(s', world, size)
    decreases |steps|
  {
    if steps != [] {
      StepKeepsInv(s, steps[0], world, size, confirms);
      EveryInterleaving(After(s, steps[0], size, confirms), steps[1..], s', world, size, confirms);
    }
  }

  /** A canonical chain at one moment: each entry's parent is the entry below. */
  ghost predicate Coherent(world: Store, canon: map<nat, Hash>) {
    forall k: nat | k in canon && k > 0 ::
      canon[k] in world && k - 1 in canon && world[canon[k]].parentHash == canon[k - 1]
  }

  lemma {:induction false} DescendsOnCanon(world: Store, canon: map<nat, Hash>, a: Hash, k: nat, n: nat)
    requires Coherent(world, canon) && k in canon && n <= k && Descends(world, a, canon[k], n)
    ensures k - n in canon && a == canon[k - n]
    decreases n
  {
    if n > 0 {
      DescendsOnCanon(world, canon, a, k - 1, n - 1);
    }
  }

  /**
   Checking the last section head alone is enough: if it is canonical, every section head past the
   checkpoint is, and so is the checkpoint's own.
   */
  lemma {:induction false} LastHeadDecides(s: IndexerState, world: Store, canon: map<nat, Hash>, size: nat, i: nat)
    requires size > 0 && Inv(s, world, size) && Coherent(world, canon)
    requires s.checkpointSections < s.storedSections && LastIsCanonical(s, canon, size)
    requires i < s.storedSections && i + 1 >= s.checkpointSections
    ensures HeadCanonical(s, canon, size, i)
    decreases s.storedSections - i
  {
    if i + 1 < s.storedSections {
      LastHeadDecides(s, world, canon, size, i + 1);
      assert LinkedSection(s.heads, world, size, i + 1);
      assert (i + 2) * size - 1 == (i + 1) * size - 1 + size;
      assert (i + 1) * size >= size;
      DescendsOnCanon(world, canon, s.heads[i], (i + 2) * size - 1, size);
    }
  }

  /** What the chain and the backend must answer for block `i` of a section. */
  ghost predicate Continues(lastHead: Hash, answers: seq<(Hash, Option<Header>)>, backendOk: seq<bool>, i: nat)
    requires i < |answers| == |backendOk|
  {
    && answers[i].0 != ZERO_HASH && answers[i].1.Some? && backendOk[i]
    && answers[i].1.value.parentHash == if i == 0 then lastHead else answers[i - 1].0
  }

  /** What the chain answers are headers under their hashes. */
  ghost predicate Answered(world: Store, answers: seq<(Hash, Option<Header>)>, size: nat) {
    && Keyed(world) && |answers| == size
    && forall i | 0 <= i < size && answers[i].1.Some? ::
         answers[i].0 in world && world[answers[i].0] == answers[i].1.value
  }

  /** A section whose every block continues the one before and is accepted. */
  ghost predicate Unbroken(lastHead: Hash, answers: seq<(Hash, Option<Header>)>, backendOk: seq<bool>, size: nat)
    requires |answers| == |backendOk| == size
  {
    forall i | 0 <= i < size :: Continues(lastHead, answers, backendOk, i)
  }

  /** Every section head past the checkpoint, and the checkpoint's own, is on the canonical chain. */
  ghost predicate HeadsCanonical(s: IndexerState, canon: map<nat, Hash>, size: nat) {
    forall i: nat | s.checkpointSections <= i + 1 && i < s.storedSections :: HeadCanonical(s, canon, size, i)
  }

  ghost predicate HeadCanonical(s: IndexerState, canon: map<nat, Hash>, size: nat, i: nat) {
    i in s.heads && (i + 1) * size - 1 in canon && s.heads[i] == canon[(i + 1) * size - 1]
  }

  lemma AllHeadsCanonical(s: IndexerState, world: Store, canon: map<nat, Hash>, size: nat)
    requires size > 0 && Inv(s, world, size) && Coherent(world, canon)
    requires s.checkpointSections < s.storedSections && LastIsCanonical(s, canon, size)
    ensures HeadsCanonical(s, canon, size)
  {
    forall i: nat | s.checkpointSections <= i + 1 && i < s.storedSections ensures HeadCanonical(s, canon, size, i) {
      LastHeadDecides(s, world, canon, size, i);
    }
  }

  /** The first `k` sections lie below the head with the required confirmations on top. */
  ghost predicate Confirmed(k: nat, head: nat, size: nat, confirms: nat) {
    k == 0 || Blocks(k, size) + confirms <= head + 1
  }

  /** The number of blocks in `k` sections. */
  ghost function Blocks(k: nat, size: nat): nat {
    k * size
  }

  lemma FullSections(head: nat, size: nat, confirms: nat)
    requires size > 0 && confirms <= head
    ensures forall k: nat :: Confirmed(k, head, size, confirms) <==> k <= (head + 1 - confirms) / size
  {
    forall k: nat ensures Confirmed(k, head, size, confirms) <==> k <= (head + 1 - confirms) / size {
      WholeSections(k, head + 1 - confirms, size);
    }
  }

  lemma WholeSections(k: nat, n: nat, size: nat)
    requires size > 0
    ensures Blocks(k, size) <= n <==> k <= n / size
  {
    var q := n / size;
    assert Blocks(q, size) <= n < Blocks(q + 1, size);
    if k <= q {
      BlocksGrow(k, q, size);
    } else {
      BlocksGrow(q + 1, k, size);
    }
  }

  lemma BlocksGrow(j: nat, k: nat, size: nat)
    requires j <= k
    ensures Blocks(j, size) <= Blocks(k, size)
  {
    assert Blocks(k, size) - Blocks(j, size) == (k - j) * size;
  }

  lemma AllWhole(n: nat, size: nat)
    requires size > 0
    ensures forall k: nat :: Blocks(k, size) <= n <==> k <= n / size
  {
    forall k: nat ensures Blocks(k, size) <= n <==> k <= n / size {
      WholeSections(k, n, size);
    }
  }

  /** The same heads below a section. */
  ghost predicate SameHeads(was: map<nat, Hash>, now: map<nat, Hash>, below: nat) {
    forall i: nat | i < below :: (i in now <==> i in was) && (i in now ==> now[i] == was[i])
  }

  /** The head of the `k`-th section is what the chain lists at that section's last block. */
  ghost predicate HeadIsCanonical(heads: map<nat, Hash>, canon: map<nat, Hash>, size: nat, k: nat)
    requires k > 0
  {
    SectionHead(heads, k - 1) == SectionHead(canon, Blocks(k, size) - 1)
  }

  /** Exactly the last sections without a canonical head were dropped, down to the checkpoint's at most. */
  ghost predicate Trimmed(was: map<nat, Hash>, stored: nat, checkpoint: nat, canon: map<nat, Hash>, size: nat,
      now: map<nat, Hash>, left: nat)
  {
    && left <= stored && SameHeads(was, now, left)
    && (left < stored ==> left >= checkpoint)
    && (forall k: nat | left < k <= stored :: !HeadIsCanonical(was, canon, size, k))
    && (left == 0 || left <= checkpoint || HeadIsCanonical(now, canon, size, left))
  }

  lemma SameHeadsCanonical(was: map<nat, Hash>, now: map<nat, Hash>, canon: map<nat, Hash>, size: nat, k: nat)
    requires SameHeads(was, now, k) && k > 0
    ensures HeadIsCanonical(now, canon, size, k) <==> HeadIsCanonical(was, canon, size, k)
  {
    var i: nat := k - 1;
    assert i < k;
  }

  lemma TrimmedStep(was: map<nat, Hash>, stored: nat, checkpoint: nat, canon: map<nat, Hash>, size: nat,
      mid: map<nat, Hash>, next: nat, now: map<nat, Hash>, left: nat)
    requires next + 1 == stored && stored > checkpoint && !HeadIsCanonical(was, canon, size, stored)
    requires SameHeads(was, mid, next) && Trimmed(mid, next, checkpoint, canon, size, now, left)
    ensures Trimmed(was, stored, checkpoint, canon, size, now, left)
  {
    forall k: nat | left < k <= stored ensures !HeadIsCanonical(was, canon, size, k) {
      if k <= next {
        assert !HeadIsCanonical(mid, canon, size, k);
        SameHeadsCanonical(was, mid, canon, size, k);
      }
    }
    assert SameHeads(was, now, left);
  }

  /** A canonical last head keeps all sections. */
  lemma NothingTrimmed(was: map<nat, Hash>, stored: nat, checkpoint: nat, canon: map<nat, Hash>, size: nat,
      now: map<nat, Hash>, left: nat)
    requires Trimmed(was, stored, checkpoint, canon, size, now, left) && stored > 0
    requires HeadIsCanonical(was, canon, size, stored)
    ensures left == stored && SectionHead(now, stored - 1) == SectionHead(was, stored - 1)
  {
    var last: nat := stored - 1;
    assert left == stored ==> last < left;
  }

  lemma TrimmedOfOld(was: map<nat, Hash>, stored: nat, checkpoint: nat, canon: map<nat, Hash>, size: nat,
      now: map<nat, Hash>, left: nat)
    requires Trimmed(was, stored, checkpoint, canon, size, now, left)
    ensures Trimmed(was, stored, checkpoint, canon, size, was, left)
  {
    if left > 0 {
      SameHeadsCanonical(was, now, canon, size, left);
    }
  }

  lemma {:induction false} VerifiedTrims(s: IndexerState, canon: map<nat, Hash>, size: nat)
    requires size > 0
    ensures var v := Verified(s, canon, size);
            Trimmed(s.heads, s.storedSections, s.checkpointSections, canon, size, v.heads, v.storedSections)
    decreases s.storedSections
  {
    if !(s.storedSections == 0 || s.storedSections <= s.checkpointSections || LastIsCanonical(s, canon, size)) {
      var next: nat := s.storedSections - 1;
      var mid := SetValid(s, next);
      VerifiedTrims(mid, canon, size);
      var v := Verified(mid, canon, size);
      TrimmedStep(s.heads, s.storedSections, s.checkpointSections, canon, size, mid.heads, next, v.heads,
                  v.storedSections);
    }
  }

  class ChainIndexer {
    const sectionSize: nat
    const confirmsReq: nat
    var heads: map<nat, Hash>
    var storedSections: nat
    var knownSections: nat
    var checkpointSections: nat
    var checkpointHead: Hash
    var job: Option<Job>

    ghost function State(): IndexerState
      reads this
    {
      IndexerState(heads, storedSections, knownSections, checkpointSections, checkpointHead, job)
    }

    constructor (section: nat, confirm: nat)
      requires section > 0
      ensures sectionSize == section && confirmsReq == confirm
      ensures forall world :: Inv(State(), world, section)
    {
      sectionSize, confirmsReq := section, confirm;
      heads, storedSections, knownSections := map[], 0, 0;
      checkpointSections, checkpointHead, job := 0, ZERO_HASH, None;
    }

    /** Sets the number of stored sections; lowering it removes exactly the heads that are no longer stored. */
    method SetValidSections(sections: nat)
      modifies this`heads, this`storedSections
      ensures State() == SetValid(old(State()), sections) && storedSections == sections
      ensures forall i :: i in heads <==> i in old(heads) && !(sections <= i < old(storedSections))
      ensures forall i | i in heads :: heads[i] == old(heads)[i]
    {
      ghost var was := storedSections;
      while storedSections > sections
        invariant storedSections <= was && (was >= sections ==> storedSections >= sections)
        invariant was < sections ==> storedSections == was
        invariant heads == old(heads) - (set i | i in old(heads) && i >= sections && storedSections <= i < was)
        decreases storedSections
      {
        storedSections := storedSections - 1;
        heads := heads - {storedSections};
      }
      storedSections := sections;
    }

    /** Takes a checkpoint past the stored sections and any earlier checkpoint; it is then the last stored section. */
    method AddCheckpoint(section: nat, shead: Hash)
      modifies this
      ensures State() == Checkpointed(old(State()), section, shead)
      ensures knownSections == old(knownSections) && job == old(job)
      ensures section < old(checkpointSections) || section < old(storedSections) ==> State() == old(State())
      ensures section >= old(checkpointSections) && section >= old(storedSections) ==>
                && checkpointSections == storedSections == section + 1 && checkpointHead == shead
                && section in heads && heads[section] == shead && SameHeads(old(heads), heads, section)
    {
      if checkpointSections >= section + 1 || section < storedSections {
        return;
      }
      checkpointSections, checkpointHead := section + 1, shead;
      heads := heads[section := shead];
      SetValidSections(section + 1);
    }

    /**
     Known sections only grow: to all that are confirmed, at least to the checkpoint, and past the checkpoint only
     on a chain that has its head.
     */
    method OnNewHead(head: nat, synced: Hash)
      requires sectionSize > 0
      modifies this`knownSections
      ensures State() == NewHead(old(State()), head, synced, sectionSize, confirmsReq)
      ensures knownSections >= old(knownSections)
      ensures knownSections > old(knownSections) ==>
                && knownSections * sectionSize + confirmsReq <= head + 1
                && head + 1 < (knownSections + 1) * sectionSize + confirmsReq
      ensures knownSections > old(knownSections) ==>
                && Confirmed(knownSections, head, sectionSize, confirmsReq)
                && !Confirmed(knownSections + 1, head, sectionSize, confirmsReq)
                && knownSections >= checkpointSections
                && (old(knownSections) < checkpointSections ==> synced == checkpointHead)
      ensures knownSections == old(knownSections) ==>
                forall k | k > knownSections && k >= checkpointSections
                           && Confirmed(k, head, sectionSize, confirmsReq) ::
                  knownSections < checkpointSections && synced != checkpointHead
    {
      if head >= confirmsReq {
        var sections := (head + 1 - confirmsReq) / sectionSize;
        FullSections(head, sectionSize, confirmsReq);
        if sections < checkpointSections {
          sections := 0;
        }
        if sections > knownSections {
          if knownSections < checkpointSections && synced != checkpointHead {
            return;
          }
          knownSections := sections;
        }
      }
    }

    /**
     After a reorganisation down to block `head` the stored sections that are left lie below it or within the
     checkpoint, and no more were dropped than that takes; known sections likewise, but none within the checkpoint.
     */
    method OnReorg(head: nat)
      requires sectionSize > 0
      modifies this`heads, this`storedSections, this`knownSections
      ensures State() == Reorged(old(State()), head, sectionSize)
      ensures storedSections <= old(storedSections) && SameHeads(old(heads), heads, storedSections)
      ensures storedSections <= checkpointSections || Blocks(storedSections, sectionSize) <= head + 1
      ensures forall k: nat
                | k <= old(storedSections) && (k <= checkpointSections || Blocks(k, sectionSize) <= head + 1)
                :: k <= storedSections
      ensures knownSections <= old(knownSections) && Blocks(knownSections, sectionSize) <= head + 1
      ensures Blocks(checkpointSections, sectionSize) > head + 1 ==> knownSections == 0
      ensures forall k: nat | k <= old(knownSections) && Blocks(k, sectionSize) <= head + 1
                :: Blocks(checkpointSections, sectionSize) <= head + 1 ==> k <= knownSections
    {
      AllWhole(head + 1, sectionSize);
      var known := (head + 1) / sectionSize;
      var stored := known;
      if known < checkpointSections {
        known := 0;
      }
      if stored < checkpointSections {
        stored := checkpointSections;
      }
      if known < knownSections {
        knownSections := known;
      }
      if stored < storedSections {
        SetValidSections(stored);
      }
    }

    /**
     Drops stored sections from the last one down, each because its head is not canonical, until one is, or only
     those of the checkpoint are left.
     */
    method VerifyLastHead(canon: map<nat, Hash>)
      requires sectionSize > 0
      modifies this`heads, this`storedSections
      ensures State() == Verified(old(State()), canon, sectionSize)
      ensures Trimmed(old(heads), old(storedSections), checkpointSections, canon, sectionSize, heads, storedSections)
    {
      VerifiedTrims(State(), canon, sectionSize);
      DropStale(canon);
    }

    method DropStale(canon: map<nat, Hash>)
      requires sectionSize > 0
      modifies this`heads, this`storedSections
      ensures State() == Verified(old(State()), canon, sectionSize)
    {
      while storedSections > 0 && storedSections > checkpointSections
        invariant Verified(State(), canon, sectionSize) == Verified(old(State()), canon, sectionSize)
        decreases storedSections
      {
        if SectionHead(heads, storedSections - 1) == SectionHead(canon, storedSections * sectionSize - 1) {
          return;
        }
        SetValidSections(storedSections - 1);
      }
    }

    /** The section before is still the one that a job started from. */
    ghost predicate StillFits(job: Job)
      reads this
    {
      job.section == 0 || SectionHead(heads, job.section - 1) == job.oldHead
    }

    /** Locks, checks the last head and notes the section to process next. */
    method BeginSection(canon: map<nat, Hash>)
      requires sectionSize > 0 && job.None?
      modifies this
      ensures State() == Begun(old(State()), canon, sectionSize)
      ensures old(knownSections) <= old(storedSections) ==> State() == old(State())
      ensures old(knownSections) > old(storedSections) ==>
                && Trimmed(old(heads), old(storedSections), checkpointSections, canon, sectionSize, heads,
                           storedSections)
                && job.Some? && job.value.section == storedSections
                && (storedSections == 0 ==> job.value.oldHead == ZERO_HASH)
                && (storedSections - 1 in heads ==> job.value.oldHead == heads[storedSections - 1])
      ensures knownSections == old(knownSections)
      ensures checkpointSections == old(checkpointSections) && checkpointHead == old(checkpointHead)
    {
      if knownSections > storedSections {
        VerifyLastHead(canon);
        var oldHead := if storedSections > 0 then SectionHead(heads, storedSections - 1) else ZERO_HASH;
        job := Some(Job(storedSections, oldHead));
      }
    }

    /**
     Locks again. If the section succeeded and its predecessor is still the one it started from, it is stored as the
     last section. Otherwise the stored sections are verified, and whatever was known beyond them is forgotten.
     */
    method FinishSection(result: Option<Hash>, canon: map<nat, Hash>)
      requires sectionSize > 0 && job.Some?
      modifies this
      ensures State() == Finished(old(State()), result, canon, sectionSize) && job == None
      ensures checkpointSections == old(checkpointSections) && checkpointHead == old(checkpointHead)
      ensures old(StillFits(job.value)) && result.Some? ==>
                && storedSections == old(job).value.section + 1 && storedSections - 1 in heads
                && heads[storedSections - 1] == result.value
                && SameHeads(old(heads), heads, storedSections - 1) && knownSections == old(knownSections)
      ensures !(old(StillFits(job.value)) && result.Some?) ==>
                && Trimmed(old(heads), old(storedSections), checkpointSections, canon, sectionSize, heads,
                           storedSections)
                && knownSections == storedSections
    {
      var section, oldHead := job.value.section, job.value.oldHead;
      if result.Some? && (section == 0 || oldHead == SectionHead(heads, section - 1)) {
        heads := heads[section := result.value];
        SetValidSections(section + 1);
      } else {
        VerifyLastHead(canon);
        knownSections := storedSections;
      }
      job := None;
    }

    /**
     Crunches one section without the lock. `answers` is what the chain answered, block by block: the canonical
     hash and the header found under it, each at its own moment. Success means the section is unbroken.
     */
    method ProcessSection(ghost world: Store, lastHead: Hash, answers: seq<(Hash, Option<Header>)>,
        backendOk: seq<bool>, commitOk: bool)
        returns (result: Option<Hash>)
      requires sectionSize > 0 && Answered(world, answers, sectionSize) && |backendOk| == sectionSize
      ensures SectionResult(world, sectionSize, lastHead, result)
      ensures result.Some? <==> commitOk && Unbroken(lastHead, answers, backendOk, sectionSize)
      ensures result.Some? ==> result.value == answers[sectionSize - 1].0
    {
      var last := lastHead;
      for i := 0 to sectionSize
        invariant Descends(world, lastHead, last, i)
        invariant last == if i == 0 then lastHead else answers[i - 1].0
        invariant i > 0 ==> last != ZERO_HASH
        invariant forall j | 0 <= j < i :: Continues(lastHead, answers, backendOk, j)
      {
        var (hash, header) := answers[i];
        if hash == ZERO_HASH || header.None? || header.value.parentHash != last || !backendOk[i] {
          assert !Continues(lastHead, answers, backendOk, i);
          return None;
        }
        last := header.value.hash;
      }
      if !commitOk {
        return None;
      }
      result := Some(last);
    }

    /** How many sections are stored, after dropping those that left the canonical chain, and the last head. */
    method Sections(canon: map<nat, Hash>, ghost world: Store) returns (count: nat, head: Hash)
      requires sectionSize > 0 && Inv(State(), world, sectionSize)
      modifies this`heads, this`storedSections
      ensures Inv(State(), world, sectionSize) && State() == Verified(old(State()), canon, sectionSize)
      ensures count == storedSections && head == SectionHead(heads, storedSections - 1)
      ensures Trimmed(old(heads), old(storedSections), checkpointSections, canon, sectionSize, heads, storedSections)
      ensures Coherent(world, canon) && count > checkpointSections ==> HeadsCanonical(State(), canon, sectionSize)
    {
      VerifyKeepsInv(State(), canon, world, sectionSize);
      VerifyLastHead(canon);
      count, head := storedSections, SectionHead(heads, storedSections - 1);
      if Coherent(world, canon) && count > checkpointSections {
        AllHeadsCanonical(State(), world, canon, sectionSize);
      }
    }

    /** One section from begin to end without interference; `before` were left after verification. */
    method IndexOne(ghost world: Store, canon: map<nat, Hash>, answers: seq<(Hash, Option<Header>)>,
        backendOk: seq<bool>, commitOk: bool)
        returns (ghost before: nat, ghost beforeHead: Hash)
      requires sectionSize > 0 && job.None? && knownSections > storedSections && Inv(State(), world, sectionSize)
      requires Answered(world, answers, sectionSize) && |backendOk| == sectionSize
      modifies this
      ensures Inv(State(), world, sectionSize) && job == None && checkpointSections == old(checkpointSections)
      ensures Trimmed(old(heads), old(storedSections), checkpointSections, canon, sectionSize, old(heads), before)
      ensures beforeHead == if before == 0 then ZERO_HASH else SectionHead(old(heads), before - 1)
      ensures Unbroken(beforeHead, answers, backendOk, sectionSize) && commitOk ==>
                && storedSections == before + 1 && SectionHead(heads, before) == answers[sectionSize - 1].0
                && SameHeads(old(heads), heads, before) && knownSections == old(knownSections)
    {
      StepKeepsInv(State(), StepBegin(canon), world, sectionSize, confirmsReq);
      BeginSection(canon);
      before, beforeHead := storedSections, job.value.oldHead;
      TrimmedOfOld(old(heads), old(storedSections), checkpointSections, canon, sectionSize, heads, before);
      var result := ProcessSection(world, job.value.oldHead, answers, backendOk, commitOk);
      StepKeepsInv(State(), StepFinish(result, canon), world, sectionSize, confirmsReq);
      FinishSection(result, canon);
    }

    /** After that the query reports one section more with that head, if the chain lists it. */
    method IndexAndQuery(ghost world: Store, canon: map<nat, Hash>, answers: seq<(Hash, Option<Header>)>,
        backendOk: seq<bool>, commitOk: bool)
        returns (count: nat, head: Hash, ghost before: nat, ghost beforeHead: Hash)
      requires sectionSize > 0 && job.None? && knownSections > storedSections && Inv(State(), world, sectionSize)
      requires Answered(world, answers, sectionSize) && |backendOk| == sectionSize
      modifies this
      ensures Trimmed(old(heads), old(storedSections), checkpointSections, canon, sectionSize, old(heads), before)
      ensures beforeHead == if before == 0 then ZERO_HASH else SectionHead(old(heads), before - 1)
      ensures Unbroken(beforeHead, answers, backendOk, sectionSize) && commitOk
              && SectionHead(canon, Blocks(before + 1, sectionSize) - 1) == answers[sectionSize - 1].0 ==>
                count == before + 1 && head == answers[sectionSize - 1].0
    {
      before, beforeHead := IndexOne(world, canon, answers, backendOk, commitOk);
      ghost var were, stored := heads, storedSections;
      count, head := Sections(canon, world);
      if stored > 0 && HeadIsCanonical(were, canon, sectionSize, stored) {
        NothingTrimmed(were, stored, checkpointSections, canon, sectionSize, heads, storedSections);
      }
    }
  }
}
