/** Any number of join-pair workers on the same two lists, crashing anywhere: acknowledgements remove by
    value, and nothing ever takes a claimed job back. */
module JoinPairFleet {
  import opened Text
  import opened ReliableQueue
  import JoinPair

  /** How far a worker is with its job. */
  datatype Progress = Claimed | Written | HandedOn

  datatype Hand = Hand(job: string, progress: Progress)

  /** The two lists (head first), what each worker has in hand, and the history: the jobs in arrival and
      in claim order, and how often each was acknowledged, abandoned (by a crash, a failed
      acknowledgement or because it is the empty text), written and handed on. */
  datatype Fleet = Fleet(
    queue: seq<string>,
    processing: seq<string>,
    hands: map<nat, Hand>,
    enqueued: seq<string>,
    claimed: seq<string>,
    acked: multiset<string>,
    abandoned: multiset<string>,
    written: multiset<string>,
    handedOn: multiset<string>)

  datatype Step =
    | Arrive(job: string)
    | Take(w: nat)
    | Write(w: nat, world: JoinPair.World)
    | HandOn(w: nat)
    | Acknowledge(w: nat)
    | Abandon(w: nat)

  const Empty: Fleet := Fleet([], [], map[], [], [], multiset{}, multiset{}, multiset{}, multiset{})

  type Parser = string -> Option<JoinPair.Payload>

  predicate Enabled(parse: Parser, f: Fleet, step: Step) {
    match step
    case Arrive(_) => true
    case Take(w) => w !in f.hands && f.queue != []
    case Write(w, world) =>
      && w in f.hands && f.hands[w].job != "" && f.hands[w].progress == Claimed
      && parse(f.hands[w].job).Some? && JoinPair.Writes(parse(f.hands[w].job).value, world)
    case HandOn(w) => w in f.hands && f.hands[w].progress == Written
    case Acknowledge(w) => w in f.hands && f.hands[w].job != ""
    case Abandon(w) => w in f.hands
  }

  function Apply(parse: Parser, f: Fleet, step: Step): (r: Fleet)
    requires Enabled(parse, f, step)
  {
    match step
    case Arrive(job) => f.(queue := [job] + f.queue, enqueued := f.enqueued + [job])
    case Take(w) =>
      var job := Last(f.queue);
      f.(queue := Front(f.queue), processing := [job] + f.processing,
         hands := f.hands[w := Hand(job, Claimed)], claimed := f.claimed + [job])
    case Write(w, _) =>
      var job := f.hands[w].job;
      f.(hands := f.hands[w := Hand(job, Written)], written := f.written + multiset{job})
    case HandOn(w) =>
      var job := f.hands[w].job;
      f.(hands := f.hands[w := Hand(job, HandedOn)], handedOn := f.handedOn + multiset{job})
    case Acknowledge(w) =>
      var job := f.hands[w].job;
      f.(processing := Lrem(f.processing, job), hands := f.hands - {w}, acked := f.acked + multiset{job})
    case Abandon(w) => f.(hands := f.hands - {w}, abandoned := f.abandoned + multiset{f.hands[w].job})
  }

  ghost predicate Runs(parse: Parser, f: Fleet, steps: seq<Step>, g: Fleet)
    decreases |steps|
  {
    if steps == [] then f == g
    else Enabled(parse, f, steps[0]) && Runs(parse, Apply(parse, f, steps[0]), steps[1..], g)
  }

  // ---------------------------------------------------------------------------
  // What every step keeps
  // ---------------------------------------------------------------------------

  type Hands = map<nat, Hand>

  /** The workers with exactly `h` in hand. */
  function Having(hands: Hands, h: Hand): (r: set<nat>) { set w | w in hands && hands[w] == h }

  /** How many workers are that far with `job`, and how many have it in hand at all. */
  function At(f: Fleet, job: string, p: Progress): (n: nat) { |Having(f.hands, Hand(job, p))| }

  function InHand(f: Fleet, job: string): (n: nat) { At(f, job, Claimed) + At(f, job, Written) + At(f, job, HandedOn) }

  /** Claims and their ends; `processing`; writes; pushes. */
  ghost predicate Balanced(f: Fleet, job: string) {
    && Count(f.claimed, job) == f.acked[job] + f.abandoned[job] + InHand(f, job)
    && Count(f.processing, job) == f.abandoned[job] + InHand(f, job)
    && f.written[job] + At(f, job, Claimed) <= Count(f.claimed, job)
    && f.handedOn[job] + At(f, job, Written) <= f.written[job]
  }

  ghost predicate Sound(parse: Parser, f: Fleet) {
    && f.enqueued == f.claimed + JoinPair.Reversed(f.queue)
    && (forall job :: Balanced(f, job))
    && (forall job :: job in f.written ==> parse(job).Some? && JoinPair.ContractHolds(parse(job).value))
  }

  lemma PutCount(hands: Hands, w: nat, h: Hand, x: Hand)
    requires w !in hands
    ensures |Having(hands[w := h], x)| == |Having(hands, x)| + if x == h then 1 else 0
  {
    assert Having(hands[w := h], x) == Having(hands, x) + if x == h then {w} else {};
  }

  lemma DropCount(hands: Hands, w: nat, x: Hand)
    requires w in hands
    ensures |Having(hands, x)| == |Having(hands - {w}, x)| + if x == hands[w] then 1 else 0
  {
    assert Having(hands, x) == Having(hands - {w}, x) + if x == hands[w] then {w} else {};
  }

  lemma Taken(f: Fleet, g: Fleet, w: nat, job: string, x: string, p: Progress)
    requires w !in f.hands && g.hands == f.hands[w := Hand(job, Claimed)]
    ensures At(g, x, p) == At(f, x, p) + if x == job && p == Claimed then 1 else 0
  {
    hide Having;
    PutCount(f.hands, w, Hand(job, Claimed), Hand(x, p));
  }

  lemma Released(f: Fleet, g: Fleet, w: nat, x: string, p: Progress)
    requires w in f.hands && g.hands == f.hands - {w}
    ensures At(f, x, p) == At(g, x, p) + if f.hands[w] == Hand(x, p) then 1 else 0
  {
    hide Having;
    DropCount(f.hands, w, Hand(x, p));
  }

  lemma Advanced(f: Fleet, g: Fleet, w: nat, next: Progress, x: string, p: Progress)
    requires w in f.hands && g.hands == f.hands[w := Hand(f.hands[w].job, next)]
    ensures At(g, x, p) + (if f.hands[w] == Hand(x, p) then 1 else 0) ==
            At(f, x, p) + (if Hand(f.hands[w].job, next) == Hand(x, p) then 1 else 0)
  {
    hide Having;
    var rest := f.hands - {w};
    assert g.hands == rest[w := Hand(f.hands[w].job, next)];
    DropCount(f.hands, w, Hand(x, p));
    PutCount(rest, w, Hand(f.hands[w].job, next), Hand(x, p));
  }

  /** A job in hand is in `processing`, so an acknowledgement always finds a copy to remove. */
  lemma InHandIsProcessing(f: Fleet, w: nat)
    requires w in f.hands && Balanced(f, f.hands[w].job)
    ensures f.hands[w].job in f.processing
  {
    var Hand(job, p) := f.hands[w];
    assert w in Having(f.hands, Hand(job, p));
    hide Having;
    match p
    case Claimed => assert At(f, job, Claimed) > 0;
    case Written => assert At(f, job, Written) > 0;
    case HandedOn => assert At(f, job, HandedOn) > 0;
  }

  lemma BalancedTake(parse: Parser, f: Fleet, w: nat, x: string)
    requires Enabled(parse, f, Take(w)) && Balanced(f, x)
    ensures Balanced(Apply(parse, f, Take(w)), x)
  {
    var g := Apply(parse, f, Take(w));
    assert Count(f.claimed + [Last(f.queue)], x) == Count(f.claimed, x) + if x == Last(f.queue) then 1 else 0;
    assert Count([Last(f.queue)] + f.processing, x) == Count(f.processing, x) + if x == Last(f.queue) then 1 else 0;
    hide Count, At;
    Taken(f, g, w, Last(f.queue), x, Claimed);
    Taken(f, g, w, Last(f.queue), x, Written);
    Taken(f, g, w, Last(f.queue), x, HandedOn);
  }

  lemma BalancedAdvance(parse: Parser, f: Fleet, step: Step, x: string)
    requires Enabled(parse, f, step) && Balanced(f, x) && (step.Write? || step.HandOn?)
    ensures Balanced(Apply(parse, f, step), x)
  {
    var g := Apply(parse, f, step);
    var next := if step.Write? then Written else HandedOn;
    hide At, Count, JoinPair.Writes;
    Advanced(f, g, step.w, next, x, Claimed);
    Advanced(f, g, step.w, next, x, Written);
    Advanced(f, g, step.w, next, x, HandedOn);
  }

  lemma ReleasedHands(f: Fleet, g: Fleet, w: nat, x: string)
    requires w in f.hands && g.hands == f.hands - {w}
    ensures InHand(f, x) == InHand(g, x) + if x == f.hands[w].job then 1 else 0
    ensures At(g, x, Claimed) <= At(f, x, Claimed) && At(g, x, Written) <= At(f, x, Written)
  {
    hide At;
    Released(f, g, w, x, Claimed);
    Released(f, g, w, x, Written);
    Released(f, g, w, x, HandedOn);
    match f.hands[w].progress
    case Claimed => assert f.hands[w] == Hand(f.hands[w].job, Claimed);
    case Written => assert f.hands[w] == Hand(f.hands[w].job, Written);
    case HandedOn => assert f.hands[w] == Hand(f.hands[w].job, HandedOn);
  }

  lemma BalancedAcknowledge(parse: Parser, f: Fleet, w: nat, x: string)
    requires Enabled(parse, f, Acknowledge(w)) && Balanced(f, x) && f.hands[w].job in f.processing
    ensures Balanced(Apply(parse, f, Acknowledge(w)), x)
  {
    hide At, InHand, Lrem, Count;
    CountLrem(f.processing, f.hands[w].job, x);
    ReleasedHands(f, Apply(parse, f, Acknowledge(w)), w, x);
  }

  lemma BalancedAbandon(parse: Parser, f: Fleet, w: nat, x: string)
    requires Enabled(parse, f, Abandon(w)) && Balanced(f, x)
    ensures Balanced(Apply(parse, f, Abandon(w)), x)
  {
    hide At, InHand, Count;
    ReleasedHands(f, Apply(parse, f, Abandon(w)), w, x);
  }

  lemma BalancedKept(parse: Parser, f: Fleet, step: Step, x: string)
    requires Enabled(parse, f, step) && forall job :: Balanced(f, job)
    ensures Balanced(Apply(parse, f, step), x)
  {
    assert Balanced(f, x);
    match step
    case Arrive(job) =>
    case Take(w) => BalancedTake(parse, f, w, x);
    case Write(_, _) => BalancedAdvance(parse, f, step, x);
    case HandOn(_) => BalancedAdvance(parse, f, step, x);
    case Acknowledge(w) =>
      InHandIsProcessing(f, w);
      BalancedAcknowledge(parse, f, w, x);
    case Abandon(w) => BalancedAbandon(parse, f, w, x);
  }

  lemma OrderKept(parse: Parser, f: Fleet, step: Step)
    requires Enabled(parse, f, step) && f.enqueued == f.claimed + JoinPair.Reversed(f.queue)
    ensures var g := Apply(parse, f, step); g.enqueued == g.claimed + JoinPair.Reversed(g.queue)
  {
    hide JoinPair.Reversed, Lrem;
    if step.Arrive? { JoinPair.QueueGrows(f.claimed, f.queue, step.job); }
    if step.Take? {
      JoinPair.ReversedLast(f.queue);
      var (job, rest) := (Last(f.queue), JoinPair.Reversed(Front(f.queue)));
      assert f.claimed + ([job] + rest) == f.claimed + [job] + rest;
    }
  }

  lemma {:induction false} ReversedCount(q: seq<string>, x: string)
    ensures Count(JoinPair.Reversed(q), x) == Count(q, x)
  {
    if q != [] {
      ReversedCount(q[1..], x);
      assert q == [q[0]] + q[1..];
    }
  }

  lemma SoundKept(parse: Parser, f: Fleet, step: Step)
    requires Enabled(parse, f, step) && Sound(parse, f)
    ensures Sound(parse, Apply(parse, f, step))
  {
    hide Balanced, JoinPair.ContractHolds, JoinPair.Reversed, Lrem;
    OrderKept(parse, f, step);
    forall x ensures Balanced(Apply(parse, f, step), x) { BalancedKept(parse, f, step, x); }
  }

  lemma {:induction false} SoundAlways(parse: Parser, f: Fleet, steps: seq<Step>, g: Fleet)
    requires Sound(parse, f) && Runs(parse, f, steps, g)
    ensures Sound(parse, g)
    decreases |steps|
  {
    if steps != [] {
      SoundKept(parse, f, steps[0]);
      SoundAlways(parse, Apply(parse, f, steps[0]), steps[1..], g);
    }
  }

  // ---------------------------------------------------------------------------
  // Whole runs
  // ---------------------------------------------------------------------------

  lemma EmptySound(parse: Parser)
    ensures Sound(parse, Empty)
  {
    forall job ensures Balanced(Empty, job) {
      forall p ensures At(Empty, job, p) == 0 { assert Having(map[], Hand(job, p)) == {}; }
    }
  }

  /** In every reachable state jobs were claimed in the order they arrived. For every job: `processing`
      holds one copy per worker that has it in hand and one per abandoned claim; each acknowledged claim
      took one copy out; it is not claimed more often than it was enqueued, written more often than it
      was claimed or handed on more often than it was written; and it is written only if it meets its
      contract. */
  lemma FleetExactly(parse: Parser, steps: seq<Step>, f: Fleet, job: string)
    requires Runs(parse, Empty, steps, f)
    ensures Count(f.processing, job) == InHand(f, job) + f.abandoned[job]
    ensures f.enqueued == f.claimed + JoinPair.Reversed(f.queue)
    ensures Count(f.enqueued, job) == Count(f.queue, job) + Count(f.processing, job) + f.acked[job]
    ensures f.handedOn[job] <= f.written[job] <= Count(f.claimed, job) <= Count(f.enqueued, job)
    ensures job in f.written ==> parse(job).Some? && JoinPair.ContractHolds(parse(job).value)
  {
    EmptySound(parse);
    SoundAlways(parse, Empty, steps, f);
    assert Balanced(f, job);
    ReversedCount(f.queue, job);
    hide JoinPair.Reversed, InHand, At, Runs;
    var waiting := JoinPair.Reversed(f.queue);
    assert Count(f.claimed + waiting, job) == Count(f.claimed, job) + Count(waiting, job);
  }

  /** A claim that was abandoned is stuck for good: no step ever takes its copy out of `processing`. */
  lemma {:induction false} AbandonedStays(parse: Parser, f: Fleet, steps: seq<Step>, g: Fleet, job: string)
    requires Sound(parse, f) && Runs(parse, f, steps, g)
    ensures f.abandoned[job] <= g.abandoned[job] <= Count(g.processing, job)
    decreases |steps|
  {
    if steps == [] {
      assert Balanced(f, job);
    } else {
      SoundKept(parse, f, steps[0]);
      AbandonedStays(parse, Apply(parse, f, steps[0]), steps[1..], g, job);
    }
  }
}
