/**
 The chain indexer (core/chain_indexer.go): sections of the chain are processed by an update loop that drops its
 lock meanwhile, while chain events call newHead. Both are modelled as threads whose steps interleave freely.
 */
module Indexer {
  import opened Basics
  import opened ChainStore

  /** What the indexer reads of a header. */
  datatype Header = Header(number: nat, parent: Hash)

  /** The chain database: headers filed under their hashes, and the canonical hash of each number. */
  datatype Chain = Chain(headers: map<Hash, Header>, canonical: map<nat, Hash>) {
    function Canonical(number: nat): Hash { if number in canonical then canonical[number] else NO_HASH }

    ghost predicate Proper() { NO_HASH !in headers }
  }

  /** Headers are only ever added; the canonical hashes may change in any way. */
  ghost predicate Evolves(c: Chain, c': Chain) {
    c'.Proper() && forall h | h in c.headers :: h in c'.headers && c'.headers[h] == c.headers[h]
  }

  /** `top` is reached from `bottom` by exactly `n` child steps. */
  ghost predicate Descends(headers: map<Hash, Header>, top: Hash, bottom: Hash, n: nat)
    decreases n
  {
    if n == 0 then top == bottom else top in headers && Descends(headers, headers[top].parent, bottom, n - 1)
  }

  lemma {:induction false} DescendsGrows(c: Chain, c': Chain, top: Hash, bottom: Hash, n: nat)
    requires Evolves(c, c') && Descends(c.headers, top, bottom, n)
    ensures Descends(c'.headers, top, bottom, n)
    decreases n
  {
    if n > 0 { DescendsGrows(c, c', c.headers[top].parent, bottom, n - 1); }
  }

  // ---------- The two threads ----------

  /**
   Where a run of setValidSections is. The counter is a plain field, so every access to it is a step of its own:
   the guard reads it, the decrement reads it and then writes it, and the removal reads it once more.
   */
  datatype Phase = Saving | Testing | Loading | Storing(loaded: nat) | Choosing | Removing(victim: nat) | Ending

  /** The update loop. Only `Idle` to `Resetting` and `Finished` to `Idle` happen under the lock. */
  datatype Updater =
    | Idle
    | Resetting(section: nat, oldHead: Hash)
    | Clearing(section: nat, oldHead: Hash, phase: Phase)
    | Reading(section: nat, oldHead: Hash, number: nat, last: Hash)
    | Finished(section: nat, oldHead: Hash, result: Option<Hash>)

  /** newHead; inside setValidSections it holds the lock. */
  datatype Notifier = Quiet | Shrinking(target: nat, phase: Phase)

  /** The section heads, the count in memory and the one in the database, and the threads. */
  datatype State = State(heads: map<nat, Hash>, stored: nat, saved: nat, known: nat, chain: Chain, updater: Updater,
                         notifier: Notifier)

  /** SectionHead: the zero hash if there is none. */
  function HeadOf(heads: map<nat, Hash>, section: int): Hash { if section in heads then heads[section] else NO_HASH }

  datatype Event =
    | ChainChanges(chain: Chain)
    | NewHead(head: nat)
    | Reorg(head: nat)
    | Shrink
    | Start
    | ResetOk
    | ResetFails
    | Clear
    | Read
    | Commit(ok: bool)
    | Finish

  // ---------- Steps ----------

  /** newHead without a reorg. */
  function NewHeadStep(s: State, head: nat, size: nat, confirms: nat): State
    requires size > 0
  {
    var sections := if head >= confirms then (head + 1 - confirms) / size else 0;
    if sections > s.known then s.(known := sections) else s
  }

  /** newHead with a reorg, up to the call of setValidSections. */
  function ReorgStep(s: State, head: nat, size: nat): State
    requires size > 0
  {
    var changed := head / size;
    var s1 := if changed < s.known then s.(known := changed) else s;
    if changed < s.stored then s1.(notifier := Shrinking(changed, Saving)) else s1
  }

  const TWO_TO_THE_64 := 0x1_0000_0000_0000_0000

  /** The decrement of an unsigned 64-bit counter. */
  function Decremented(n: nat): nat { if n == 0 then TWO_TO_THE_64 - 1 else n - 1 }

  /** One step of setValidSections; without a next phase it has returned. */
  function ShrinkStep(s: State, target: nat, phase: Phase): (State, Option<Phase>) {
    match phase
    case Saving => (s.(saved := target), Some(Testing))
    case Testing => (s, Some(if s.stored > target then Loading else Ending))
    case Loading => (s, Some(Storing(s.stored)))
    case Storing(loaded) => (s.(stored := Decremented(loaded)), Some(Choosing))
    case Choosing => (s, Some(Removing(s.stored)))
    case Removing(victim) => (s.(heads := s.heads - {victim}), Some(Testing))
    case Ending => (s.(stored := target), None)
  }

  function NotifierStep(s: State): State
    requires s.notifier.Shrinking?
  {
    var (s1, phase) := ShrinkStep(s, s.notifier.target, s.notifier.phase);
    s1.(notifier := if phase.Some? then Shrinking(s.notifier.target, phase.value) else Quiet)
  }

  function ClearStep(s: State): State
    requires s.updater.Clearing?
  {
    var u := s.updater;
    var (s1, phase) := ShrinkStep(s, 0, u.phase);
    s1.(updater := if phase.Some? then Clearing(u.section, u.oldHead, phase.value)
        else Finished(u.section, u.oldHead, None))
  }

  function StartStep(s: State): State {
    s.(updater := Resetting(s.stored, if s.stored > 0 then HeadOf(s.heads, s.stored - 1) else NO_HASH))
  }

  /** One iteration of the loop of processSection. */
  function ReadStep(s: State): State
    requires s.updater.Reading?
  {
    var u := s.updater;
    var hash := s.chain.Canonical(u.number);
    if hash != NO_HASH && hash in s.chain.headers && s.chain.headers[hash].number == u.number
      && s.chain.headers[hash].parent == u.last
    then s.(updater := Reading(u.section, u.oldHead, u.number + 1, hash))
    else s.(updater := Finished(u.section, u.oldHead, None))
  }

  /** A whole run of setValidSections: the heads of the sections between the new count and the old are removed. */
  function Trimmed(heads: map<nat, Hash>, sections: nat, stored: nat): map<nat, Hash> {
    map k | k in heads && !(sections <= k < stored) :: heads[k]
  }

  /** The end of the update loop's body, back under the lock. */
  function FinishStep(s: State): State
    requires s.updater.Finished?
  {
    var u := s.updater;
    if u.result.Some? && u.oldHead == HeadOf(s.heads, u.section - 1)
    then s.(heads := Trimmed(s.heads[u.section := u.result.value], u.section + 1, s.stored),
            stored := u.section + 1, saved := u.section + 1, updater := Idle)
    else s.(known := s.stored, updater := Idle)
  }

  ghost predicate Enabled(s: State, e: Event, size: nat) {
    match e
    case ChainChanges(chain) => Evolves(s.chain, chain)
    case NewHead(_) => s.notifier.Quiet?
    case Reorg(_) => s.notifier.Quiet?
    case Shrink => s.notifier.Shrinking?
    case Start => s.notifier.Quiet? && s.updater.Idle? && s.known > s.stored
    case ResetOk => s.updater.Resetting?
    case ResetFails => s.updater.Resetting?
    case Clear => s.updater.Clearing?
    case Read => s.updater.Reading? && s.updater.number < (s.updater.section + 1) * size
    case Commit(_) => s.updater.Reading? && s.updater.number >= (s.updater.section + 1) * size
    case Finish => s.notifier.Quiet? && s.updater.Finished?
  }

  ghost function Step(s: State, e: Event, size: nat, confirms: nat): State
    requires Enabled(s, e, size) && size > 0
  {
    match e
    case ChainChanges(chain) => s.(chain := chain)
    case NewHead(head) => NewHeadStep(s, head, size, confirms)
    case Reorg(head) => ReorgStep(s, head, size)
    case Shrink => NotifierStep(s)
    case Start => StartStep(s)
    case ResetOk => s.(updater := Reading(s.updater.section, s.updater.oldHead, s.updater.section * size,
                                          s.updater.oldHead))
    case ResetFails => s.(updater := Clearing(s.updater.section, s.updater.oldHead, Saving))
    case Clear => ClearStep(s)
    case Read => ReadStep(s)
    case Commit(ok) => s.(updater := Finished(s.updater.section, s.updater.oldHead,
                                               if ok then Some(s.updater.last) else None))
    case Finish => FinishStep(s)
  }

  // ---------- The invariant ----------

  /** Between counting down and removing, one head too many is stored. */
  predicate Dropping(s: State) {
    || (s.updater.Clearing? && (s.updater.phase.Choosing? || s.updater.phase.Removing?))
    || (s.notifier.Shrinking? && (s.notifier.phase.Choosing? || s.notifier.phase.Removing?))
  }

  /** What a run of setValidSections knows of the counts while no other run is under way. */
  predicate Undisturbed(s: State, target: nat, phase: Phase) {
    && target <= s.stored && s.saved == (if phase.Saving? then s.stored else target)
    && match phase
       case Loading => s.stored > target
       case Storing(loaded) => loaded == s.stored > target
       case Removing(victim) => victim == s.stored
       case Ending => s.stored == target
       case _ => true
  }

  ghost predicate HeadsCounted(s: State) {
    forall k {:trigger k in s.heads} :: k in s.heads <==> 0 <= k < s.stored || (Dropping(s) && k == s.stored)
  }

  ghost predicate LinkedAt(chain: Chain, heads: map<nat, Hash>, size: nat, k: nat) {
    k in heads && heads[k] != NO_HASH && Descends(chain.headers, heads[k], HeadOf(heads, k - 1), size)
  }

  /** Every stored head is exactly one section above the previous one; the first starts at the zero hash. */
  ghost predicate HeadsLinked(chain: Chain, heads: map<nat, Hash>, stored: nat, size: nat) {
    forall k {:trigger LinkedAt(chain, heads, size, k)} | 0 <= k < stored :: LinkedAt(chain, heads, size, k)
  }

  /** What the update loop has established about the section it is working on. */
  ghost predicate Working(s: State, size: nat) {
    match s.updater
    case Idle => true
    case Resetting(section, oldHead) => Onto(s.stored, section, oldHead)
    case Clearing(section, oldHead, _) => Onto(s.stored, section, oldHead)
    case Reading(section, oldHead, number, last) =>
      && Onto(s.stored, section, oldHead)
      && section * size <= number <= (section + 1) * size
      && Descends(s.chain.headers, last, oldHead, number - section * size)
      && (number > section * size ==> last != NO_HASH)
    case Finished(section, oldHead, result) =>
      && Onto(s.stored, section, oldHead)
      && (result.Some? ==> result.value != NO_HASH && Descends(s.chain.headers, result.value, oldHead, size))
  }

  ghost predicate Onto(stored: nat, section: nat, oldHead: Hash) {
    stored <= section && (section > 0 <==> oldHead != NO_HASH)
  }

  /** setValidSections(0) runs without the lock; this says that it does not run beside newHead's own. */
  predicate Calm(s: State) { !(s.updater.Clearing? && s.notifier.Shrinking?) }

  ghost predicate Inv(s: State, size: nat) {
    && size > 0 && s.chain.Proper() && Calm(s)
    && HeadsCounted(s) && HeadsLinked(s.chain, s.heads, s.stored, size) && Working(s, size)
    && (s.notifier.Shrinking? ==> Undisturbed(s, s.notifier.target, s.notifier.phase))
    && (s.updater.Clearing? ==> Undisturbed(s, 0, s.updater.phase))
    && (s.notifier.Quiet? && !s.updater.Clearing? ==> s.saved == s.stored)
  }

  // ---------- Every step keeps the invariant ----------

  lemma LinksGrow(c: Chain, c': Chain, heads: map<nat, Hash>, stored: nat, size: nat)
    requires Evolves(c, c') && HeadsLinked(c, heads, stored, size)
    ensures HeadsLinked(c', heads, stored, size)
  {
    forall k: nat | k < stored ensures LinkedAt(c', heads, size, k) {
      assert LinkedAt(c, heads, size, k);
      DescendsGrows(c, c', heads[k], HeadOf(heads, k - 1), size);
    }
  }

  lemma ChainStepKeeps(s: State, chain: Chain, size: nat)
    requires Inv(s, size) && Evolves(s.chain, chain)
    ensures Inv(s.(chain := chain), size)
  {
    LinksGrow(s.chain, chain, s.heads, s.stored, size);
    match s.updater
    case Reading(section, oldHead, number, last) =>
      DescendsGrows(s.chain, chain, last, oldHead, number - section * size);
    case Finished(section, oldHead, result) =>
      if result.Some? { DescendsGrows(s.chain, chain, result.value, oldHead, size); }
    case _ =>
  }

  /** Fewer sections, and heads that agree below the new count. */
  lemma LinksShrink(chain: Chain, heads: map<nat, Hash>, stored: nat, heads': map<nat, Hash>, stored': nat, size: nat)
    requires HeadsLinked(chain, heads, stored, size) && stored' <= stored
    requires forall k | 0 <= k < stored' && k in heads :: k in heads' && heads'[k] == heads[k]
    ensures HeadsLinked(chain, heads', stored', size)
  {
    forall k: nat | k < stored' ensures LinkedAt(chain, heads', size, k) {
      assert LinkedAt(chain, heads, size, k);
      if k > 0 { assert LinkedAt(chain, heads, size, k - 1); }
    }
  }

  lemma NotifierStepKeeps(s: State, size: nat)
    requires Inv(s, size) && s.notifier.Shrinking?
    ensures Inv(NotifierStep(s), size)
  {
    var s' := NotifierStep(s);
    LinksShrink(s.chain, s.heads, s.stored, s'.heads, s'.stored, size);
  }

  lemma ClearStepKeeps(s: State, size: nat)
    requires Inv(s, size) && s.updater.Clearing?
    ensures Inv(ClearStep(s), size)
  {
    var s' := ClearStep(s);
    LinksShrink(s.chain, s.heads, s.stored, s'.heads, s'.stored, size);
  }

  lemma StartStepKeeps(s: State, size: nat)
    requires Inv(s, size) && s.notifier.Quiet? && s.updater.Idle?
    ensures Inv(StartStep(s), size)
  {
    if s.stored > 0 { assert LinkedAt(s.chain, s.heads, size, s.stored - 1); }
  }

  lemma DescendsExtends(headers: map<Hash, Header>, top: Hash, bottom: Hash, n: nat)
    requires top in headers && Descends(headers, headers[top].parent, bottom, n)
    ensures Descends(headers, top, bottom, n + 1)
  {
  }

  lemma ReadStepKeeps(s: State, size: nat)
    requires Inv(s, size) && s.updater.Reading? && s.updater.number < (s.updater.section + 1) * size
    ensures Inv(ReadStep(s), size)
  {
    var u := s.updater;
    var hash := s.chain.Canonical(u.number);
    if hash in s.chain.headers && s.chain.headers[hash].parent == u.last {
      DescendsExtends(s.chain.headers, hash, u.oldHead, u.number - u.section * size);
    }
  }

  lemma CommitKeeps(s: State, ok: bool, size: nat)
    requires Inv(s, size) && s.updater.Reading? && s.updater.number >= (s.updater.section + 1) * size
    ensures Inv(s.(updater := Finished(s.updater.section, s.updater.oldHead,
                                        if ok then Some(s.updater.last) else None)), size)
  {
    var u := s.updater;
    assert u.number - u.section * size == size;
  }

  /** When the previous head is still there, no section was lost meanwhile, so the count is where it was. */
  lemma NothingLost(s: State, size: nat)
    requires Inv(s, size) && s.notifier.Quiet? && s.updater.Finished?
             && s.updater.oldHead == HeadOf(s.heads, s.updater.section - 1)
    ensures s.stored == s.updater.section
  {
    var u := s.updater;
    if u.section > 0 { assert (u.section - 1) in s.heads; }
  }

  lemma FinishStepKeeps(s: State, size: nat)
    requires Inv(s, size) && s.notifier.Quiet? && s.updater.Finished?
    ensures Inv(FinishStep(s), size)
  {
    var u, s' := s.updater, FinishStep(s);
    if u.result.Some? && u.oldHead == HeadOf(s.heads, u.section - 1) {
      NothingLost(s, size);
      assert s'.heads == s.heads[u.section := u.result.value];
      forall k: nat | k < s'.stored ensures LinkedAt(s'.chain, s'.heads, size, k) {
        if k < s.stored { assert LinkedAt(s.chain, s.heads, size, k); }
      }
    }
  }

  lemma StepKeepsInv(s: State, e: Event, size: nat, confirms: nat)
    requires Inv(s, size) && Enabled(s, e, size) && Calm(Step(s, e, size, confirms))
    ensures Inv(Step(s, e, size, confirms), size)
  {
    match e
    case ChainChanges(chain) => ChainStepKeeps(s, chain, size);
    case Shrink => NotifierStepKeeps(s, size);
    case Start => StartStepKeeps(s, size);
    case Clear => ClearStepKeeps(s, size);
    case Read => ReadStepKeeps(s, size);
    case Commit(ok) => CommitKeeps(s, ok, size);
    case Finish => FinishStepKeeps(s, size);
    case _ =>
  }

  // ---------- Runs ----------

  /** A run: each state follows from the one before by an enabled event. */
  ghost predicate IsRun(states: seq<State>, events: seq<Event>, size: nat, confirms: nat) {
    && size > 0 && |states| == |events| + 1
    && forall i | 0 <= i < |events| ::
         Enabled(states[i], events[i], size) && states[i + 1] == Step(states[i], events[i], size, confirms)
  }

  /** An empty index. */
  ghost predicate Fresh(s: State) {
    s.heads == map[] && s.stored == s.saved == 0 && s.chain.Proper() && s.updater.Idle? && s.notifier.Quiet?
  }

  /**
   The index is exact: the counts agree, and there are heads for exactly
   the counted sections, each one section above the previous one.
   */
  ghost predicate Exact(s: State, size: nat) {
    && s.saved == s.stored
    && (forall k {:trigger k in s.heads} :: k in s.heads <==> 0 <= k < s.stored)
    && HeadsLinked(s.chain, s.heads, s.stored, size)
  }

  lemma {:induction false} RunKeepsInv(states: seq<State>, events: seq<Event>, size: nat, confirms: nat, i: nat)
    requires IsRun(states, events, size, confirms) && Fresh(states[0]) && i < |states|
    requires forall j | 0 <= j <= i :: Calm(states[j])
    ensures Inv(states[i], size)
    decreases i
  {
    if i > 0 {
      RunKeepsInv(states, events, size, confirms, i - 1);
      assert Calm(states[i]) && states[i] == Step(states[i - 1], events[i - 1], size, confirms);
      StepKeepsInv(states[i - 1], events[i - 1], size, confirms);
    }
  }

  ghost predicate Settled(s: State) { s.notifier.Quiet? && !s.updater.Clearing? }

  /**
   In every interleaving in which a failed reset does not clear the index beside a running newHead, the index is
   exact whenever no thread is in the middle of setValidSections.
   */
  lemma CalmRunsAreExact(states: seq<State>, events: seq<Event>, size: nat, confirms: nat, i: nat)
    requires IsRun(states, events, size, confirms) && Fresh(states[0]) && i < |states|
    requires forall j | 0 <= j <= i :: Calm(states[j])
    requires Settled(states[i])
    ensures Exact(states[i], size)
  {
    RunKeepsInv(states, events, size, confirms, i);
  }

  // ---------- What each operation is for ----------

  /** A section lies below a number exactly if all its blocks do. */
  lemma SectionBelow(k: nat, number: nat, size: nat)
    requires size > 0
    ensures k < number / size <==> (k + 1) * size <= number
  {
    var q := number / size;
    assert q * size <= number < (q + 1) * size;
    if k < q { Times(k + 1, q, size); } else { Times(q + 1, k + 1, size); }
  }

  lemma Times(a: nat, b: nat, size: nat)
    requires a <= b
    ensures a * size <= b * size
  {
  }

  /** newHead without a reorg makes known exactly the sections whose blocks are all confirmed, and forgets none. */
  lemma ConfirmedAreKnown(s: State, head: nat, size: nat, confirms: nat, k: nat)
    requires size > 0 && s.notifier.Quiet?
    ensures var s' := Step(s, NewHead(head), size, confirms);
            && (k < s'.known <==> k < s.known || (k + 1) * size + confirms <= head + 1)
            && s' == s.(known := s'.known)
  {
    if head >= confirms {
      SectionBelow(k, head + 1 - confirms, size);
    } else {
      Times(1, k + 1, size);
    }
  }

  /** What newHead aims at after a reorg: the known sections below it, and the stored ones if there are others. */
  lemma ReorgAims(s: State, head: nat, size: nat, k: nat)
    requires size > 0 && s.notifier.Quiet?
    ensures var s' := ReorgStep(s, head, size);
            && (k < s'.known <==> k < s.known && (k + 1) * size <= head)
            && if s'.notifier.Shrinking? then k < s'.notifier.target <==> (k + 1) * size <= head
               else k < s.stored ==> (k + 1) * size <= head
  {
    SectionBelow(k, head, size);
  }

  /** What a run of setValidSections on behalf of newHead has left alone so far. */
  ghost predicate KeepsBelow(s: State, s': State, target: nat) {
    && s'.known == s.known && target <= s'.stored <= s.stored
    && forall k: nat | k < target :: (k in s'.heads <==> k in s.heads) && (k in s.heads ==> s'.heads[k] == s.heads[k])
  }

  /** Either it is still on its way to `target`, or it has arrived. */
  ghost predicate Retreats(s: State, t: State, size: nat, target: nat) {
    && Inv(t, size) && KeepsBelow(s, t, target)
    && if t.notifier.Quiet? then t.stored == target && !t.updater.Clearing? else t.notifier.target == target
  }

  lemma RetreatsNext(s: State, t: State, e: Event, t': State, size: nat, confirms: nat, target: nat)
    requires Retreats(s, t, size, target) && t.notifier.Shrinking?
    requires Enabled(t, e, size) && t' == Step(t, e, size, confirms) && Calm(t')
    ensures Retreats(s, t', size, target)
  {
    StepKeepsInv(t, e, size, confirms);
  }

  lemma {:induction false} ReorgRuns(states: seq<State>, events: seq<Event>, size: nat, confirms: nat, i: nat, m: nat,
                                     target: nat)
    requires IsRun(states, events, size, confirms) && i <= m < |states|
    requires Retreats(states[i], states[i], size, target)
    requires forall k | i <= k <= m :: Calm(states[k])
    requires forall k | i <= k < m :: states[k].notifier.Shrinking?
    ensures Retreats(states[i], states[m], size, target)
    decreases m
  {
    if m > i {
      var n := m - 1;
      ReorgRuns(states, events, size, confirms, i, n, target);
      assert Calm(states[m]) && states[n].notifier.Shrinking?;
      assert Enabled(states[n], events[n], size) && states[n + 1] == Step(states[n], events[n], size, confirms);
      RetreatsNext(states[i], states[n], events[n], states[m], size, confirms, target);
    }
  }

  /**
   A reorg drops exactly the sections it changes. When newHead has ended without the updater clearing the index beside
   it, the stored and the known sections are those of before whose blocks all lie below the given number; and the heads
   of these are as they were.
   */
  lemma ReorgDropsChanged(states: seq<State>, events: seq<Event>, size: nat, confirms: nat, i: nat, j: nat, head: nat,
                          k: nat)
    requires IsRun(states, events, size, confirms) && i < j < |states| && Inv(states[i], size)
    requires events[i] == Reorg(head) && states[j].notifier.Quiet? && forall m | i <= m <= j :: Calm(states[m])
    requires forall m | i < m < j :: states[m].notifier.Shrinking?
    requires !states[i].updater.Clearing?
    ensures k < states[j].stored <==> k < states[i].stored && (k + 1) * size <= head
    ensures k < states[j].known <==> k < states[i].known && (k + 1) * size <= head
    ensures k in states[j].heads <==> k in states[i].heads && (k + 1) * size <= head
    ensures k in states[j].heads ==> states[j].heads[k] == states[i].heads[k]
  {
    ReorgAims(states[i], head, size, k);
    assert Enabled(states[i], events[i], size) && states[i + 1] == Step(states[i], events[i], size, confirms);
    if states[i + 1].notifier.Shrinking? {
      StepKeepsInv(states[i], events[i], size, confirms);
      ReorgRuns(states, events, size, confirms, i + 1, j, states[i + 1].notifier.target);
    } else {
      assert j == i + 1;
    }
  }

  /** The canonical headers from `number` on, `n` of them, are all stored and continue the chain from `last`. */
  ghost predicate Continues(chain: Chain, last: Hash, number: nat, n: nat)
    decreases n
  {
    n > 0 ==>
      var hash := chain.Canonical(number);
      && hash != NO_HASH && hash in chain.headers && chain.headers[hash] == Header(number, last)
      && Continues(chain, hash, number + 1, n - 1)
  }

  // ---------- What the missing lock costs ----------

  ghost predicate Reaches(s: State, events: seq<Event>, s': State, size: nat, confirms: nat)
    requires size > 0
    decreases |events|
  {
    if events == [] then s' == s
    else Enabled(s, events[0], size) && Reaches(Step(s, events[0], size, confirms), events[1..], s', size, confirms)
  }

  lemma {:induction false} ReachesOn(s: State, events: seq<Event>, s1: State, more: seq<Event>, s2: State, size: nat,
                                     confirms: nat)
    requires size > 0 && Reaches(s, events, s1, size, confirms) && Reaches(s1, more, s2, size, confirms)
    ensures Reaches(s, events + more, s2, size, confirms)
    decreases |events|
  {
    if events == [] {
      assert events + more == more;
    } else {
      ReachesOn(Step(s, events[0], size, confirms), events[1..], s1, more, s2, size, confirms);
      assert (events + more)[1..] == events[1..] + more;
    }
  }

  /** Only the two runs of setValidSections proceed. */
  ghost predicate Shrinks(events: seq<Event>) {
    forall i | 0 <= i < |events| :: events[i].Clear? || events[i].Shrink?
  }

  /** Zero was read to be decremented: the counter wraps around. */
  predicate Underflows(s: State) {
    (s.updater.Clearing? && s.updater.phase == Storing(0)) || (s.notifier.Shrinking? && s.notifier.phase == Storing(0))
  }

  ghost predicate Sound(s: State, size: nat) { !Underflows(s) && (Settled(s) ==> Exact(s, size)) }

  /** However the two runs of setValidSections interleave, the counter never wraps and they end with an exact index. */
  ghost predicate Harmless(s: State, size: nat, confirms: nat)
    requires size > 0
  {
    forall events, s' | Shrinks(events) && Reaches(s, events, s', size, confirms) :: Sound(s', size)
  }

  /** The first moment at which a failed reset and newHead are both inside setValidSections: one of them just begins. */
  ghost predicate Overlap(s: State, size: nat) {
    && size > 0 && s.updater.Clearing? && s.notifier.Shrinking?
    && HeadsCounted(s) && HeadsLinked(s.chain, s.heads, s.stored, size)
    && (|| (s.updater.phase.Saving? && Undisturbed(s, s.notifier.target, s.notifier.phase))
        || (s.notifier.phase.Saving? && s.notifier.target < s.stored && Undisturbed(s, 0, s.updater.phase)))
  }

  /** Until two runs of setValidSections meet, the invariant holds; when they meet, the state is an overlap. */
  lemma MeetingOverlaps(s: State, e: Event, size: nat, confirms: nat)
    requires Inv(s, size) && Enabled(s, e, size) && !Calm(Step(s, e, size, confirms))
    ensures Overlap(Step(s, e, size, confirms), size)
  {
  }

  predicate Active(s: State, e: Event) { (e.Clear? && s.updater.Clearing?) || (e.Shrink? && s.notifier.Shrinking?) }

  function PhaseOf(s: State, e: Event): Phase
    requires Active(s, e)
  {
    if e.Clear? then s.updater.phase else s.notifier.phase
  }

  function TargetOf(s: State, e: Event): nat
    requires Active(s, e)
  {
    if e.Clear? then 0 else s.notifier.target
  }

  predicate OtherSame(s: State, s': State, e: Event)
  {
    if e.Clear? then s'.notifier == s.notifier else s'.updater == s.updater
  }

  /** A run of setValidSections that goes on alone from here does not wrap the counter. */
  predicate Steady(s: State, target: nat, phase: Phase) {
    && (phase.Loading? ==> s.stored > target)
    && (phase.Storing? ==> phase.loaded > target)
  }

  /** The head of section 0 will have been removed when such a run down to zero ends. */
  predicate Empties(s: State, phase: Phase) {
    match phase
    case Storing(_) => true
    case Choosing => true
    case Removing(victim) => victim == 0 || s.stored > 0
    case Ending => false
    case _ => s.stored > 0
  }

  function Rank(phase: Phase): nat {
    match phase
    case Choosing => 6
    case Removing(_) => 5
    case Saving => 4
    case Testing => 3
    case Loading => 2
    case Storing(_) => 1
    case Ending => 0
  }

  function CountOf(s: State, phase: Phase): nat { if phase.Storing? then phase.loaded else s.stored }

  lemma ReachesFirst(s: State, e: Event, rest: seq<Event>, s': State, size: nat, confirms: nat)
    requires size > 0 && Enabled(s, e, size) && Reaches(Step(s, e, size, confirms), rest, s', size, confirms)
    requires Shrinks(rest) && (e.Clear? || e.Shrink?)
    ensures Shrinks([e] + rest) && Reaches(s, [e] + rest, s', size, confirms)
  {
    assert ([e] + rest)[1..] == rest;
  }

  /** Run one thread alone to the end of setValidSections. */
  lemma {:induction false} RunAlone(s: State, e: Event, size: nat, confirms: nat)
    returns (events: seq<Event>, s': State)
    requires size > 0 && Active(s, e) && Steady(s, TargetOf(s, e), PhaseOf(s, e))
    ensures Shrinks(events) && Reaches(s, events, s', size, confirms)
    ensures !Active(s', e) && OtherSame(s, s', e) && s'.stored == TargetOf(s, e)
    ensures s'.heads.Keys <= s.heads.Keys
    ensures TargetOf(s, e) == 0 && Empties(s, PhaseOf(s, e)) ==> 0 !in s'.heads
    decreases CountOf(s, PhaseOf(s, e)), Rank(PhaseOf(s, e))
  {
    var s1 := Step(s, e, size, confirms);
    var rest := [];
    s' := s1;
    if Active(s1, e) { rest, s' := RunAlone(s1, e, size, confirms); }
    events := [e] + rest;
    ReachesFirst(s, e, rest, s', size, confirms);
  }

  /** newHead was to keep some sections: it sets the count back after everything is gone, or wraps the counter. */
  lemma KeepingBreaks(s: State, size: nat, confirms: nat)
    requires Overlap(s, size) && s.notifier.target > 0
    ensures !Harmless(s, size, confirms)
  {
    var events1, s1 := RunAlone(s, Clear, size, confirms);
    var events2, s2 := [Shrink], Step(s1, Shrink, size, confirms);
    if s1.notifier.phase.Loading? {
      ReachesFirst(s1, Shrink, [], s2, size, confirms);
      assert [Shrink] + [] == [Shrink];
    } else {
      events2, s2 := RunAlone(s1, Shrink, size, confirms);
      assert 0 !in s2.heads && s2.stored > 0;
    }
    assert !Sound(s2, size);
    ReachesOn(s, events1, s1, events2, s2, size, confirms);
  }

  /** One step before the counter is zero, and the thread is not about to leave. */
  predicate AtLast(s: State, phase: Phase) {
    s.stored == 1 && (phase.Saving? || phase.Testing? || phase.Loading? || phase == Storing(1))
  }

  /** Run one thread alone until one section is left. */
  lemma {:induction false} DownToOne(s: State, e: Event, size: nat, confirms: nat)
    returns (events: seq<Event>, s': State)
    requires size > 0 && Active(s, e) && TargetOf(s, e) == 0 && s.stored > 0
    requires !PhaseOf(s, e).Ending? && (PhaseOf(s, e).Storing? ==> PhaseOf(s, e).loaded == s.stored)
    ensures Shrinks(events) && Reaches(s, events, s', size, confirms)
    ensures Active(s', e) && OtherSame(s, s', e) && TargetOf(s', e) == 0 && AtLast(s', PhaseOf(s', e))
    decreases s.stored, Rank(PhaseOf(s, e))
  {
    events, s' := [], s;
    if !AtLast(s, PhaseOf(s, e)) {
      var rest;
      rest, s' := DownToOne(Step(s, e, size, confirms), e, size, confirms);
      events := [e] + rest;
      ReachesFirst(s, e, rest, s', size, confirms);
    }
  }

  lemma {:induction false} DownToZero(s: State, e: Event, size: nat, confirms: nat)
    returns (events: seq<Event>, s': State)
    requires size > 0 && Active(s, e) && TargetOf(s, e) == 0 && AtLast(s, PhaseOf(s, e))
    ensures Shrinks(events) && Reaches(s, events, s', size, confirms) && OtherSame(s, s', e) && s'.stored == 0
    decreases Rank(PhaseOf(s, e))
  {
    var s1, rest := Step(s, e, size, confirms), [];
    s' := s1;
    if s1.stored != 0 { rest, s' := DownToZero(s1, e, size, confirms); }
    events := [e] + rest;
    ReachesFirst(s, e, rest, s', size, confirms);
  }

  /** Both threads pass the guard while one section is left; the second decrement wraps the counter. */
  lemma LastTwiceUnderflows(s: State, e: Event, other: Event, size: nat, confirms: nat)
    returns (events: seq<Event>, s': State)
    requires size > 0 && Active(s, e) && Active(s, other) && {e, other} == {Clear, Shrink} && s.notifier.target == 0
    requires AtLast(s, PhaseOf(s, e)) && PhaseOf(s, other).Saving?
    ensures Shrinks(events) && Reaches(s, events, s', size, confirms) && Underflows(s')
  {
    var s1 := Step(s, other, size, confirms);
    var s2 := Step(s1, other, size, confirms);
    var rest, s3 := DownToZero(s2, e, size, confirms);
    s' := Step(s3, other, size, confirms);
    ReachesThen(s2, rest, s3, other, s', size, confirms);
    ReachesFirst(s1, other, rest + [other], s', size, confirms);
    events := [other] + ([other] + (rest + [other]));
    ReachesFirst(s, other, [other] + (rest + [other]), s', size, confirms);
  }

  /** newHead was to remove everything too: both threads can decrement the last count. */
  lemma EmptyingBreaks(s: State, size: nat, confirms: nat)
    requires Overlap(s, size) && s.notifier.target == 0 && s.stored > 0
    ensures !Harmless(s, size, confirms)
  {
    var e := if s.updater.phase.Saving? then Shrink else Clear;
    var other := if s.updater.phase.Saving? then Clear else Shrink;
    var events1, s1 := DownToOne(s, e, size, confirms);
    var events2, s2 := LastTwiceUnderflows(s1, e, other, size, confirms);
    assert !Sound(s2, size);
    ReachesOn(s, events1, s1, events2, s2, size, confirms);
  }

  /** Nothing is left to count down; at most the last removal is still to come. */
  ghost predicate Drained(s: State) {
    && s.stored == s.saved == 0 && (forall k | k in s.heads :: k == 0)
    && (s.updater.Clearing? ==> Draining(s.updater.phase))
    && (s.notifier.Shrinking? ==> s.notifier.target == 0 && Draining(s.notifier.phase))
    && (0 in s.heads ==> Dropping(s))
  }

  predicate Draining(phase: Phase) {
    phase.Saving? || phase.Testing? || phase.Choosing? || phase == Removing(0) || phase.Ending?
  }

  lemma {:induction false} DrainedStays(s: State, events: seq<Event>, s': State, size: nat, confirms: nat)
    requires size > 0 && Drained(s) && Shrinks(events) && Reaches(s, events, s', size, confirms)
    ensures Sound(s', size)
    decreases |events|
  {
    if events != [] {
      var s1 := Step(s, events[0], size, confirms);
      assert Drained(s1);
      assert Shrinks(events[1..]);
      DrainedStays(s1, events[1..], s', size, confirms);
    }
  }

  /**
   When a failed reset clears the index beside newHead, the two do no harm in any interleaving if and only if the
   count has already reached zero when the second of them begins.
   */
  lemma OverlapHarmlessIff(s: State, size: nat, confirms: nat)
    requires Overlap(s, size)
    ensures Harmless(s, size, confirms) <==> s.stored == 0
  {
    if s.notifier.target > 0 {
      KeepingBreaks(s, size, confirms);
    } else if s.stored > 0 {
      EmptyingBreaks(s, size, confirms);
    } else {
      assert Drained(s);
      forall events, s' | Shrinks(events) && Reaches(s, events, s', size, confirms) ensures Sound(s', size) {
        DrainedStays(s, events, s', size, confirms);
      }
    }
  }

  /**
   Every run from an empty index, up to the first meeting of two runs of setValidSections: as long as they do not
   meet, the index is exact whenever none is under way; when they meet, whatever follows of the two is harmless
   exactly if the count is then zero.
   */
  lemma RunsUntilOverlap(states: seq<State>, events: seq<Event>, size: nat, confirms: nat, i: nat)
    requires IsRun(states, events, size, confirms) && Fresh(states[0]) && i < |states|
    requires forall j | 0 <= j < i :: Calm(states[j])
    ensures Calm(states[i]) ==> Sound(states[i], size)
    ensures !Calm(states[i]) ==>
              Overlap(states[i], size) && (Harmless(states[i], size, confirms) <==> states[i].stored == 0)
  {
    if Calm(states[i]) {
      RunKeepsInv(states, events, size, confirms, i);
    } else {
      RunKeepsInv(states, events, size, confirms, i - 1);
      assert states[i] == Step(states[i - 1], events[i - 1], size, confirms);
      MeetingOverlaps(states[i - 1], events[i - 1], size, confirms);
      OverlapHarmlessIff(states[i], size, confirms);
    }
  }

  /** After an overlap that began with nothing to remove, until both runs of setValidSections have ended. */
  ghost predicate Emptying(s: State, size: nat) {
    && size > 0 && s.chain.Proper() && Drained(s) && Working(s, size)
    && (s.updater.Clearing? || (s.updater.Finished? && s.updater.result.None? && s.notifier.Shrinking?))
  }

  lemma OverlapDrains(s: State, e: Event, size: nat, confirms: nat)
    requires Inv(s, size) && Enabled(s, e, size) && !Calm(Step(s, e, size, confirms))
             && Step(s, e, size, confirms).stored == 0
    ensures Emptying(Step(s, e, size, confirms), size)
  {
    MeetingOverlaps(s, e, size, confirms);
    var s' := Step(s, e, size, confirms);
    assert Drained(s');
  }

  /** Whatever happens meanwhile, it stays like that, or both have ended and the invariant holds again. */
  lemma DrainStepKeeps(s: State, e: Event, size: nat, confirms: nat)
    requires Emptying(s, size) && Enabled(s, e, size)
    ensures var s' := Step(s, e, size, confirms); Emptying(s', size) || Inv(s', size)
  {
    var s' := Step(s, e, size, confirms);
    if Settled(s') {
      assert s'.heads == map[];
      assert HeadsCounted(s');
    } else {
      assert Drained(s');
    }
  }

  /** Wherever two runs of setValidSections meet, there is nothing left to remove. */
  ghost predicate MeetsEmpty(states: seq<State>) {
    forall i: nat | i + 1 < |states| && Calm(states[i]) && !Calm(states[i + 1]) :: states[i + 1].stored == 0
  }

  ghost predicate Good(s: State, size: nat) { Inv(s, size) || Emptying(s, size) }

  lemma StepStaysGood(s: State, e: Event, size: nat, confirms: nat)
    requires Good(s, size) && Enabled(s, e, size) && size > 0
    requires Calm(s) && !Calm(Step(s, e, size, confirms)) ==> Step(s, e, size, confirms).stored == 0
    ensures Good(Step(s, e, size, confirms), size)
  {
    if Inv(s, size) {
      if Calm(Step(s, e, size, confirms)) { StepKeepsInv(s, e, size, confirms); } else {
        OverlapDrains(s, e, size, confirms);
      }
    } else {
      DrainStepKeeps(s, e, size, confirms);
    }
  }

  lemma {:induction false} RunStaysGood(states: seq<State>, events: seq<Event>, size: nat, confirms: nat, i: nat)
    requires IsRun(states, events, size, confirms) && Fresh(states[0]) && i < |states| && MeetsEmpty(states)
    ensures Good(states[i], size)
    decreases i
  {
    if i > 0 {
      RunStaysGood(states, events, size, confirms, i - 1);
      assert Enabled(states[i - 1], events[i - 1], size)
        && states[i - 1 + 1] == Step(states[i - 1], events[i - 1], size, confirms);
      StepStaysGood(states[i - 1], events[i - 1], size, confirms);
    }
  }

  /**
   Every run from an empty index, overlaps and all: if two runs of setValidSections only ever meet when the count is
   zero, then the counter never wraps, and the index is exact whenever none is under way.
   */
  lemma RunsAreSoundIf(states: seq<State>, events: seq<Event>, size: nat, confirms: nat, i: nat)
    requires IsRun(states, events, size, confirms) && Fresh(states[0]) && i < |states| && MeetsEmpty(states)
    ensures Sound(states[i], size)
  {
    RunStaysGood(states, events, size, confirms, i);
  }

  lemma ReachesThen(s: State, events: seq<Event>, s1: State, e: Event, s2: State, size: nat, confirms: nat)
    requires size > 0 && Reaches(s, events, s1, size, confirms) && Enabled(s1, e, size)
             && s2 == Step(s1, e, size, confirms)
    ensures Reaches(s, events + [e], s2, size, confirms)
  {
    assert [e][1..] == [] && Reaches(s2, [], s2, size, confirms);
    ReachesOn(s, events, s1, [e], s2, size, confirms);
  }

  /** An undisturbed pass of the update loop over a section of one block. */
  lemma OneSection(s: State, events: seq<Event>, t: State, hash: Hash) returns (events': seq<Event>, t': State)
    requires Reaches(s, events, t, 1, 0) && t.updater.Idle? && t.notifier.Quiet? && t.known > t.stored
    requires hash != NO_HASH && t.chain.Canonical(t.stored) == hash && hash in t.chain.headers
    requires t.chain.headers[hash] == Header(t.stored, HeadOf(t.heads, t.stored - 1))
             && (t.stored == 0 ==> HeadOf(t.heads, -1) == NO_HASH)
    ensures Reaches(s, events', t', 1, 0)
            && t' == t.(heads := Trimmed(t.heads[t.stored := hash], t.stored + 1, t.stored), stored := t.stored + 1,
                        saved := t.stored + 1)
  {
    var oldHead := HeadOf(t.heads, t.stored - 1);
    var t1 := t.(updater := Resetting(t.stored, oldHead));
    ReachesThen(s, events, t, Start, t1, 1, 0);
    var t2 := t.(updater := Reading(t.stored, oldHead, t.stored, oldHead));
    ReachesThen(s, events + [Start], t1, ResetOk, t2, 1, 0);
    var t3 := t.(updater := Reading(t.stored, oldHead, t.stored + 1, hash));
    ReachesThen(s, events + [Start] + [ResetOk], t2, Read, t3, 1, 0);
    var t4 := t.(updater := Finished(t.stored, oldHead, Some(hash)));
    ReachesThen(s, events + [Start] + [ResetOk] + [Read], t3, Commit(true), t4, 1, 0);
    t' := t.(heads := Trimmed(t.heads[t.stored := hash], t.stored + 1, t.stored), stored := t.stored + 1,
             saved := t.stored + 1);
    events' := events + [Start] + [ResetOk] + [Read] + [Commit(true)] + [Finish];
    ReachesThen(s, events + [Start] + [ResetOk] + [Read] + [Commit(true)], t4, Finish, t', 1, 0);
  }

  /** The pass of the update loop over a section, from its first read on. */
  lemma {:induction false} ReadsOn(s: State, size: nat, confirms: nat, n: nat)
    returns (events: seq<Event>, s': State)
    requires size > 0 && s.updater.Reading? && s.updater.number + n == (s.updater.section + 1) * size
    requires s.chain.Proper()
    ensures Reaches(s, events, s', size, confirms)
    ensures var u := s.updater;
            s' == s.(updater := if Continues(s.chain, u.last, u.number, n)
                                then u.(number := u.number + n,
                                        last := if n == 0 then u.last else s.chain.Canonical(u.number + n - 1))
                                else Finished(u.section, u.oldHead, None))
    decreases n
  {
    if n == 0 {
      events, s' := [], s;
    } else {
      var t := Step(s, Read, size, confirms);
      if t.updater.Reading? {
        var more;
        more, s' := ReadsOn(t, size, confirms, n - 1);
        events := [Read] + more;
        assert events[1..] == more;
      } else {
        events, s' := [Read], t;
        assert [Read][1..] == [];
      }
    }
  }

  /** The state after a pass that nothing else disturbs. */
  ghost function Indexed(s: State, size: nat, ok: bool): State
    requires size > 0
  {
    var last := s.chain.Canonical((s.stored + 1) * size - 1);
    if ok && Continues(s.chain, HeadOf(s.heads, s.stored - 1), s.stored * size, size)
    then s.(heads := s.heads[s.stored := last], stored := s.stored + 1, saved := s.stored + 1)
    else s.(known := s.stored)
  }

  /**
   What the update loop is for: left alone, a pass stores the next section exactly if its canonical headers continue the
   last stored head and the backend commits it, under the hash of its last block; otherwise nothing is stored, and the
   section is no longer known.
   */
  lemma PassIndexesIff(s: State, size: nat, confirms: nat, ok: bool) returns (events: seq<Event>)
    requires Inv(s, size) && s.updater.Idle? && s.notifier.Quiet? && s.known > s.stored
    ensures Reaches(s, events, Indexed(s, size, ok), size, confirms)
  {
    var oldHead := HeadOf(s.heads, s.stored - 1);
    var s2 := s.(updater := Reading(s.stored, oldHead, s.stored * size, oldHead));
    assert Reaches(s, [], s, size, confirms);
    ReachesThen(s, [], s, Start, s.(updater := Resetting(s.stored, oldHead)), size, confirms);
    ReachesThen(s, [] + [Start], s.(updater := Resetting(s.stored, oldHead)), ResetOk, s2, size, confirms);
    NextSection(s.stored, size);
    var passed, s3 := ReadsOn(s2, size, confirms, size);
    ReachesOn(s, [] + [Start] + [ResetOk], s2, passed, s3, size, confirms);
    events := [] + [Start] + [ResetOk] + passed;
    var s4 := s3;
    if s3.updater.Reading? {
      s4 := Step(s3, Commit(ok), size, confirms);
      ReachesThen(s, events, s3, Commit(ok), s4, size, confirms);
      events := events + [Commit(ok)];
    }
    PassEnds(s, s4, size, ok);
    ReachesThen(s, events, s4, Finish, FinishStep(s4), size, confirms);
    events := events + [Finish];
  }

  lemma NextSection(section: nat, size: nat)
    ensures section * size + size == (section + 1) * size
  {
  }

  lemma PassEnds(s: State, t: State, size: nat, ok: bool)
    requires Inv(s, size) && s.updater.Idle? && s.notifier.Quiet?
    requires var good := ok && Continues(s.chain, HeadOf(s.heads, s.stored - 1), s.stored * size, size);
             var last := s.chain.Canonical(s.stored * size + size - 1);
             t == s.(updater := Finished(s.stored, HeadOf(s.heads, s.stored - 1), if good then Some(last) else None))
    ensures FinishStep(t) == Indexed(s, size, ok)
  {
    NextSection(s.stored, size);
    assert forall k | k in s.heads :: k < s.stored + 1;
    assert Trimmed(s.heads[s.stored := t.updater.oldHead], s.stored + 1, s.stored) ==
      s.heads[s.stored := t.updater.oldHead];
  }

  const ONE_BLOCK := Chain(map[1 := Header(0, 0)], map[0 := 1])

  const START := State(map[], 0, 0, 2, ONE_BLOCK, Idle, Quiet)

  /** One section is indexed, the reset for a second fails, and a reorg keeps none. */
  const BESIDE := State(map[0 := 1], 1, 1, 0, ONE_BLOCK, Clearing(1, 1, Saving), Shrinking(0, Saving))

  lemma BesideOverlaps()
    ensures Overlap(BESIDE, 1) && !Harmless(BESIDE, 1, 0)
  {
    assert HeadsCounted(BESIDE);
    forall k: nat | k < 1 ensures LinkedAt(ONE_BLOCK, BESIDE.heads, 1, k) {
      assert Descends(ONE_BLOCK.headers, 0, 0, 0);
    }
    OverlapHarmlessIff(BESIDE, 1, 0);
  }

  /** The overlap does happen, and does harm, as soon as one section is indexed. */
  lemma OverlapHappens() returns (events: seq<Event>)
    ensures Fresh(START) && Reaches(START, events, BESIDE, 1, 0) && Overlap(BESIDE, 1) && !Harmless(BESIDE, 1, 0)
  {
    var events1, s1 := OneSection(START, [], START, 1);
    assert s1.heads == map[0 := 1];
    var s2 := s1.(updater := Resetting(1, 1));
    ReachesThen(START, events1, s1, Start, s2, 1, 0);
    var s3 := s2.(known := 0, notifier := Shrinking(0, Saving));
    ReachesThen(START, events1 + [Start], s2, Reorg(0), s3, 1, 0);
    ReachesThen(START, events1 + [Start] + [Reorg(0)], s3, ResetFails, BESIDE, 1, 0);
    events := events1 + [Start] + [Reorg(0)] + [ResetFails];
    BesideOverlaps();
  }

  // ---------- The two loops, run alone ----------

  class ChainIndexer {
    const size: nat
    var heads: map<nat, Hash>
    var stored: nat
    var saved: nat

    method SetValidSections(sections: nat)
      modifies this
      ensures stored == saved == sections && heads == Trimmed(old(heads), sections, old(stored))
      ensures forall k :: k in heads <==> k in old(heads) && (k < sections || k >= old(stored))
      ensures forall k | k in heads :: heads[k] == old(heads)[k]
    {
      saved := sections;
      assert heads == Trimmed(heads, stored, stored);
      while stored > sections
        invariant stored <= old(stored) && (stored >= sections || stored == old(stored)) && saved == sections
        invariant heads == Trimmed(old(heads), stored, old(stored))
      {
        stored := stored - 1;
        heads := heads - {stored};
      }
      assert old(stored) <= sections ==> heads == Trimmed(old(heads), sections, old(stored));
      stored := sections;
    }

    /**
     The loop of processSection: it succeeds exactly if the section
     continues the given head, and then returns the section's last block.
     */
    method ReadSection(chain: Chain, section: nat, lastHead: Hash, commitOk: bool) returns (r: Option<Hash>)
      requires size > 0 && chain.Proper()
      ensures r.Some? <==> Continues(chain, lastHead, section * size, size) && commitOk
      ensures r.Some? ==>
                r.value == chain.Canonical((section + 1) * size - 1) && Descends(chain.headers, r.value, lastHead, size)
    {
      var number, last := section * size, lastHead;
      var end := (section + 1) * size;
      assert end == number + size;
      while number < end
        invariant section * size <= number <= end
        invariant Continues(chain, lastHead, section * size, size) <==> Continues(chain, last, number, end - number)
        invariant Descends(chain.headers, last, lastHead, number - section * size)
        invariant number > section * size ==> last == chain.Canonical(number - 1)
      {
        var hash := chain.Canonical(number);
        if hash == NO_HASH || hash !in chain.headers || chain.headers[hash].number != number { return None; }
        if chain.headers[hash].parent != last { return None; }
        DescendsExtends(chain.headers, hash, lastHead, number - section * size);
        number, last := number + 1, hash;
      }
      r := if commitOk then Some(last) else None;
    }

    /** A failed reset clears the index; otherwise nothing is changed here. */
    method ProcessSection(chain: Chain, section: nat, lastHead: Hash, resetOk: bool, commitOk: bool)
      returns (r: Option<Hash>)
      requires size > 0 && chain.Proper()
      modifies this
      ensures r.Some? <==> resetOk && Continues(chain, lastHead, section * size, size) && commitOk
      ensures r.Some? ==>
                r.value == chain.Canonical((section + 1) * size - 1) && Descends(chain.headers, r.value, lastHead, size)
      ensures resetOk ==> unchanged(this)
      ensures !resetOk ==> stored == saved == 0 && heads == Trimmed(old(heads), 0, old(stored))
    {
      if !resetOk {
        SetValidSections(0);
        return None;
      }
      r := ReadSection(chain, section, lastHead, commitOk);
    }
  }
}
