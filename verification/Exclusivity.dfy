/** How many workers process one message at the same time: exactly when a recovery is safe, what that
    gives over whole runs, and how often a message is claimed. */
module Exclusivity {
  import opened Text
  import opened ReliableQueue

  // ---------------------------------------------------------------------------
  // Holders of a message
  // ---------------------------------------------------------------------------

  predicate IsHolder(s: State, w: nat, m: string) {
    && w in s.workers && HasAttempt(s.workers[w])
    && s.workers[w].attempt < |s.claims| && s.claims[s.workers[w].attempt] == m
  }

  /** The workers with an attempt on `m` in hand. */
  function Holders(s: State, m: string): (r: set<nat>) { set w | w in s.workers && IsHolder(s, w, m) }

  /** No message has more workers than copies in `processing`. */
  ghost predicate Exclusive(s: State) { forall m :: |Holders(s, m)| <= Count(s.processing, m) }

  /** The message a recovery would take back has a copy that no worker holds. */
  predicate Unheld(s: State) {
    s.processing != [] && |Holders(s, Last(s.processing))| < Count(s.processing, Last(s.processing))
  }

  lemma HoldersMove(s: State, t: State, w: nat, p: Phase, m: string)
    requires t.workers == s.workers[w := p] && t.claims == s.claims
    requires HasAttempt(p) ==> w in s.workers && HasAttempt(s.workers[w]) && s.workers[w].attempt == p.attempt
    ensures Holders(t, m) == if HasAttempt(p) then Holders(s, m) else Holders(s, m) - {w}
  {
  }

  lemma HoldersClaim(s: State, t: State, w: nat, m: string, x: string)
    requires Attempts(s) && t.workers == s.workers[w := Working(|s.claims|)] && t.claims == s.claims + [m]
    requires w in s.workers ==> !HasAttempt(s.workers[w])
    ensures w !in Holders(s, x) && Holders(t, x) == Holders(s, x) + if x == m then {w} else {}
  {
  }

  lemma Smaller(a: set<nat>, w: nat)
    ensures |a - {w}| <= |a| && (w in a ==> |a - {w}| == |a| - 1)
  {
    if w !in a { assert a - {w} == a; }
  }

  // ---------------------------------------------------------------------------
  // What each step does to exclusiveness
  // ---------------------------------------------------------------------------

  /** Moving on, with or without the attempt, never adds a holder. */
  lemma ExclusiveMove(s: State, t: State, w: nat, p: Phase)
    requires Exclusive(s) && t.workers == s.workers[w := p] && t.claims == s.claims && t.processing == s.processing
    requires HasAttempt(p) ==> w in s.workers && HasAttempt(s.workers[w]) && s.workers[w].attempt == p.attempt
    ensures Exclusive(t)
  {
    hide Holders;
    forall m ensures |Holders(t, m)| <= Count(t.processing, m) {
      HoldersMove(s, t, w, p, m);
      Smaller(Holders(s, m), w);
    }
  }

  /** More copies in `processing` do no harm. */
  lemma ExclusiveMore(s: State, t: State)
    requires Exclusive(s) && t.workers == s.workers && t.claims == s.claims
    requires forall m :: Count(s.processing, m) <= Count(t.processing, m)
    ensures Exclusive(t)
  {
    forall m ensures |Holders(t, m)| <= Count(t.processing, m) { assert Holders(t, m) == Holders(s, m); }
  }

  lemma ExclusiveClaim(s: State, t: State, w: nat)
    requires Exclusive(s) && Attempts(s) && s.queue != [] && (w in s.workers ==> !HasAttempt(s.workers[w]))
    requires t.workers == s.workers[w := Working(|s.claims|)] && t.claims == s.claims + [Last(s.queue)]
    requires t.processing == [Last(s.queue)] + s.processing
    ensures Exclusive(t)
  {
    hide Holders;
    forall m ensures |Holders(t, m)| <= Count(t.processing, m) { HoldersClaim(s, t, w, Last(s.queue), m); }
  }

  /** An acknowledgement gives up one copy and one holder. */
  lemma ExclusiveRemove(s: State, w: nat, next: Phase)
    requires Exclusive(s) && w in s.workers && HasAttempt(s.workers[w]) && s.workers[w].attempt < |s.claims|
    requires !HasAttempt(next)
    ensures Exclusive(SetPhase(Removing(s, s.workers[w].attempt), w, next))
  {
    var m := s.claims[s.workers[w].attempt];
    var t := SetPhase(Removing(s, s.workers[w].attempt), w, next);
    assert w in Holders(s, m);
    hide Holders, Lrem;
    forall x ensures |Holders(t, x)| <= Count(t.processing, x) {
      HoldersMove(s, t, w, next, x);
      Smaller(Holders(s, x), w);
      if m in s.processing { CountLrem(s.processing, m, x); }
    }
  }

  /** Taking a message back keeps exclusiveness iff that message has a copy no worker holds. */
  lemma RecoverExactly(s: State, t: State)
    requires Exclusive(s) && s.processing != []
    requires t.workers == s.workers && t.claims == s.claims && t.processing == Front(s.processing)
    ensures Exclusive(t) <==> Unheld(s)
  {
    var m := Last(s.processing);
    forall x ensures Holders(t, x) == Holders(s, x)
                     && Count(s.processing, x) == Count(t.processing, x) + if x == m then 1 else 0
    {
      CountLast(s.processing, x);
    }
    hide Holders;
    if Exclusive(t) { assert |Holders(t, m)| <= Count(t.processing, m); }
  }

  lemma ExclusiveClean(s: State, w: nat, ok: bool)
    requires Exclusive(s) && w in s.workers && s.workers[w].Reported? && s.workers[w].attempt < |s.claims|
    ensures Exclusive(Cleaning(s, w, s.workers[w], ok))
  {
    hide Exclusive, Removing;
    var p := s.workers[w];
    var next := if p.failClosed then Down else Idle;
    if p.remove && ok { ExclusiveRemove(s, w, next); } else { ExclusiveMove(s, SetPhase(s, w, next), w, next); }
  }

  lemma ExclusiveReport(cfg: Config, s: State, w: nat, refused: Option<Exc>)
    requires Exclusive(s) && w in s.workers && s.workers[w].Failed? && s.workers[w].attempt < |s.claims|
    ensures Exclusive(Reporting(cfg, s, w, s.workers[w], refused))
  {
    hide Exclusive, RunId, ShouldDiscardFailedMessage;
    var t := Reporting(cfg, s, w, s.workers[w], refused);
    ExclusiveMove(s, t, w, t.workers[w]);
  }

  lemma ExclusivePhase(cfg: Config, s: State, step: Step)
    requires Enabled(cfg, s, step) && Exclusive(s)
    requires step.Start? || step.RecoverEnd? || step.Return? || step.Raise? || step.AckRaise? || step.Crash?
    ensures Exclusive(Apply(cfg, s, step))
  {
    hide Exclusive;
    var t := Apply(cfg, s, step);
    match step
    case Start(w) => ExclusiveMove(s, t, w, Recovering);
    case RecoverEnd(w) => ExclusiveMove(s, t, w, Idle);
    case Return(w) => ExclusiveMove(s, t, w, Returned(s.workers[w].attempt));
    case Raise(w, f) => ExclusiveMove(s, t, w, Failed(s.workers[w].attempt, f));
    case AckRaise(w, f) => ExclusiveMove(s, t, w, Failed(s.workers[w].attempt, f));
    case Crash(w) => ExclusiveMove(s, t, w, Down);
  }

  /** Every step but a recovery keeps exclusiveness, and a recovery keeps it exactly when the message
      it takes back has a copy that no worker holds. */
  lemma StepExactly(cfg: Config, s: State, step: Step)
    requires Enabled(cfg, s, step) && Attempts(s) && Exclusive(s)
    ensures Exclusive(Apply(cfg, s, step)) <==> (step.Recover? ==> Unheld(s))
  {
    hide Exclusive, Attempts, Unheld, Reporting, Cleaning, Removing;
    var t := Apply(cfg, s, step);
    match step
    case Enqueue(_) => ExclusiveMore(s, t);
    case ClaimLost(_) => ExclusiveMore(s, t);
    case Recover(_) => RecoverExactly(s, t);
    case Claim(w) => ExclusiveClaim(s, t, w);
    case AckOk(w) => ExclusiveRemove(s, w, Idle);
    case Report(w, refused) => ExclusiveReport(cfg, s, w, refused);
    case Clean(w, ok) => ExclusiveClean(s, w, ok);
    case _ => ExclusivePhase(cfg, s, step);
  }

  // ---------------------------------------------------------------------------
  // Whole runs
  // ---------------------------------------------------------------------------

  ghost predicate ExclusiveThroughout(cfg: Config, s: State, steps: seq<Step>)
    decreases |steps|
  {
    && Exclusive(s)
    && (steps != [] ==>
          Enabled(cfg, s, steps[0]) && ExclusiveThroughout(cfg, Apply(cfg, s, steps[0]), steps[1..]))
  }

  /** Every recovery of the run takes back a message with a copy that no worker holds. */
  ghost predicate RecoversUnheld(cfg: Config, s: State, steps: seq<Step>)
    decreases |steps|
  {
    steps != [] ==>
      && Enabled(cfg, s, steps[0]) && (steps[0].Recover? ==> Unheld(s))
      && RecoversUnheld(cfg, Apply(cfg, s, steps[0]), steps[1..])
  }

  /** A run is exclusive throughout iff each of its recoveries takes back an unheld copy. */
  lemma {:induction false} ExclusiveExactly(cfg: Config, s: State, steps: seq<Step>, t: State)
    requires Inv(cfg, s) && Exclusive(s) && Reaches(cfg, s, steps, t)
    ensures ExclusiveThroughout(cfg, s, steps) <==> RecoversUnheld(cfg, s, steps)
    ensures RecoversUnheld(cfg, s, steps) ==> Exclusive(t)
    decreases |steps|
  {
    if steps != [] {
      var u := Apply(cfg, s, steps[0]);
      StepExactly(cfg, s, steps[0]);
      FlowKept(cfg, s, steps[0]);
      AttemptsKept(cfg, s, steps[0]);
      HistoryKept(cfg, s, steps[0]);
      hide Exclusive, Flow, Attempts, History, Unheld, Enabled, Apply;
      if Exclusive(u) { ExclusiveExactly(cfg, u, steps[1..], t); }
      assert ExclusiveThroughout(cfg, u, steps[1..]) ==> Exclusive(u);
    }
  }

  lemma InitialExclusive()
    ensures Exclusive(Initial)
  {
    forall m ensures |Holders(Initial, m)| <= Count(Initial.processing, m) { assert Holders(Initial, m) == {}; }
  }

  /** With recoveries of unheld copies only, no message is in the hands of more workers than it was
      enqueued times. */
  lemma OneWorkerPerCopy(cfg: Config, steps: seq<Step>, t: State, m: string)
    requires Reaches(cfg, Initial, steps, t) && RecoversUnheld(cfg, Initial, steps)
    ensures |Holders(t, m)| <= Count(t.processing, m) <= t.enqueued[m]
  {
    InitialInv(cfg);
    InitialExclusive();
    ExclusiveExactly(cfg, Initial, steps, t);
    Conservation(cfg, steps, t);
    hide Reaches, RecoversUnheld, ExclusiveThroughout, Holders;
    assert t.enqueued[m] == multiset(t.queue)[m] + multiset(t.processing)[m] + t.gone[m];
  }

  /** No worker but possibly `w` is up. */
  ghost predicate OthersDown(s: State, w: nat) { forall v :: v in s.workers && v != w ==> s.workers[v].Down? }

  /** At most one worker is up. */
  ghost predicate Alone(s: State) { exists w :: OthersDown(s, w) }

  /** Every worker of the run starts while all others are down. */
  ghost predicate StartsAlone(cfg: Config, s: State, steps: seq<Step>)
    decreases |steps|
  {
    steps != [] ==>
      && Enabled(cfg, s, steps[0]) && (steps[0].Start? ==> OthersDown(s, steps[0].w))
      && StartsAlone(cfg, Apply(cfg, s, steps[0]), steps[1..])
  }

  lemma AloneKept(cfg: Config, s: State, step: Step)
    requires Enabled(cfg, s, step) && Alone(s) && (step.Start? ==> OthersDown(s, step.w))
    ensures Alone(Apply(cfg, s, step))
  {
    hide RunId, ShouldDiscardFailedMessage, Lrem;
    var w :| OthersDown(s, w);
    var t := Apply(cfg, s, step);
    assert OthersDown(t, if step.Start? then step.w else w);
  }

  lemma AloneRecovers(cfg: Config, s: State, step: Step)
    requires Enabled(cfg, s, step) && step.Recover? && Alone(s)
    ensures Unheld(s)
  {
    var m := Last(s.processing);
    assert Holders(s, m) == {};
    CountLast(s.processing, m);
  }

  /** One worker at a time is enough: crash and restart as often as you like, as long as no worker
      starts before its predecessor is down, and every recovery is of an unheld copy. */
  lemma {:induction false} RestartsAreSafe(cfg: Config, s: State, steps: seq<Step>)
    requires Alone(s) && StartsAlone(cfg, s, steps)
    ensures RecoversUnheld(cfg, s, steps)
    decreases |steps|
  {
    if steps != [] {
      AloneKept(cfg, s, steps[0]);
      if steps[0].Recover? { AloneRecovers(cfg, s, steps[0]); }
      hide Alone, OthersDown, Unheld, Apply, Enabled;
      RestartsAreSafe(cfg, Apply(cfg, s, steps[0]), steps[1..]);
    }
  }

  /** No worker has an attempt in hand. */
  predicate Quiet(s: State) { forall w :: w in s.workers ==> !HasAttempt(s.workers[w]) }

  /** Every recovery of the run happens while no worker has an attempt in hand. */
  ghost predicate RecoversQuietly(cfg: Config, s: State, steps: seq<Step>)
    decreases |steps|
  {
    steps != [] ==>
      && Enabled(cfg, s, steps[0]) && (steps[0].Recover? ==> Quiet(s))
      && RecoversQuietly(cfg, Apply(cfg, s, steps[0]), steps[1..])
  }

  /** Nor does it matter how many workers there are, if recoveries happen while none has work. */
  lemma {:induction false} QuietRecoveriesAreSafe(cfg: Config, s: State, steps: seq<Step>)
    requires RecoversQuietly(cfg, s, steps)
    ensures RecoversUnheld(cfg, s, steps)
    decreases |steps|
  {
    if steps != [] {
      if steps[0].Recover? {
        assert Holders(s, Last(s.processing)) == {};
        CountLast(s.processing, Last(s.processing));
      }
      hide Quiet, Unheld, Apply, Enabled;
      QuietRecoveriesAreSafe(cfg, Apply(cfg, s, steps[0]), steps[1..]);
    }
  }

  // ---------------------------------------------------------------------------
  // How often a message is claimed
  // ---------------------------------------------------------------------------

  function Spots(claims: seq<string>, m: string): (r: set<nat>) { set a: nat | a < |claims| && claims[a] == m }

  lemma {:induction false} SpotsCount(claims: seq<string>, m: string)
    ensures |Spots(claims, m)| == Count(claims, m)
  {
    if claims == [] {
      assert Spots(claims, m) == {};
    } else {
      var (front, last) := (Front(claims), |claims| - 1);
      SpotsCount(front, m);
      CountLast(claims, m);
      assert Spots(claims, m) == Spots(front, m) + if claims[last] == m then {last} else {};
    }
  }

  /** The attempts on `m` that some worker has in hand. */
  function Held(s: State, m: string): (r: set<nat>)
  {
    set w | w in Holders(s, m) :: s.workers[w].attempt
  }

  lemma {:induction false} HeldCount(s: State, ws: set<nat>)
    requires Attempts(s) && forall w :: w in ws ==> w in s.workers && HasAttempt(s.workers[w])
    ensures |set w | w in ws :: s.workers[w].attempt| == |ws|
  {
    if ws != {} {
      var w :| w in ws;
      var rest := ws - {w};
      HeldCount(s, rest);
      assert s.workers[w].attempt !in set v | v in rest :: s.workers[v].attempt;
      hide Attempts;
      assert (set v | v in ws :: s.workers[v].attempt) ==
             (set v | v in rest :: s.workers[v].attempt) + {s.workers[w].attempt};
    }
  }

  /** The attempts on `m` that nobody has in hand and that removed nothing: cut short by a crash, or
      over without a removal. */
  function Abandoned(s: State, m: string): (r: set<nat>) { Spots(s.claims, m) - s.removed - Held(s, m) }

  /** The attempts on `m` that removed it and those in somebody's hands do not overlap. */
  lemma ClaimSets(cfg: Config, s: State, m: string)
    requires Inv(cfg, s)
    ensures var (all, gone, held) := (Spots(s.claims, m), OnMessage(s, s.removed, m), Held(s, m));
            gone <= all && held <= all && gone !! held && Abandoned(s, m) == all - gone - held
  {
    hide Flow;
  }

  lemma PartsAddUp(all: set<nat>, a: set<nat>, b: set<nat>)
    requires a <= all && b <= all && a !! b
    ensures |all| == |a| + |b| + |all - a - b|
  {
    assert all == a + b + (all - a - b);
  }

  lemma HoldersHold(cfg: Config, s: State, m: string)
    requires Inv(cfg, s)
    ensures |Held(s, m)| == |Holders(s, m)| && |OnMessage(s, s.removed, m)| == s.gone[m]
  {
    HeldCount(s, Holders(s, m));
    hide Holders, OnMessage, Flow, Attempts;
  }

  /** Every claim of a message removed it, is in some worker's hands, or was abandoned. */
  lemma ClaimsSplit(cfg: Config, s: State, m: string)
    requires Inv(cfg, s)
    ensures Count(s.claims, m) == s.gone[m] + |Holders(s, m)| + |Abandoned(s, m)|
  {
    hide *;
    SpotsCount(s.claims, m);
    HoldersHold(cfg, s, m);
    ClaimSets(cfg, s, m);
    PartsAddUp(Spots(s.claims, m), OnMessage(s, s.removed, m), Held(s, m));
  }

  /** Exactly when claims are paid for: a message has no more workers than copies in `processing` iff
      its claims and waiting copies do not exceed what was enqueued plus the abandoned attempts. */
  lemma ClaimsBounded(cfg: Config, steps: seq<Step>, t: State, m: string)
    requires Reaches(cfg, Initial, steps, t)
    ensures Count(t.claims, m) == t.gone[m] + |Holders(t, m)| + |Abandoned(t, m)|
    ensures |Holders(t, m)| <= Count(t.processing, m) <==>
            Count(t.claims, m) + Count(t.queue, m) <= t.enqueued[m] + |Abandoned(t, m)|
    ensures RecoversUnheld(cfg, Initial, steps) ==> Count(t.claims, m) <= t.enqueued[m] + |Abandoned(t, m)|
  {
    InitialInv(cfg);
    InvAlways(cfg, Initial, steps, t);
    ClaimsSplit(cfg, t, m);
    Conservation(cfg, steps, t);
    assert t.enqueued[m] == multiset(t.queue)[m] + multiset(t.processing)[m] + t.gone[m];
    if RecoversUnheld(cfg, Initial, steps) { OneWorkerPerCopy(cfg, steps, t, m); }
  }

  // ---------------------------------------------------------------------------
  // A second worker
  // ---------------------------------------------------------------------------

  /** Every worker of the run starts while no worker has an attempt in hand. */
  ghost predicate StartsQuietly(cfg: Config, s: State, steps: seq<Step>)
    decreases |steps|
  {
    steps != [] ==>
      && Enabled(cfg, s, steps[0]) && (steps[0].Start? ==> Quiet(s))
      && StartsQuietly(cfg, Apply(cfg, s, steps[0]), steps[1..])
  }

  lemma StepFirst(cfg: Config, s: State, step: Step, u: State, rest: seq<Step>, t: State)
    requires Enabled(cfg, s, step) && Apply(cfg, s, step) == u && (step.Start? ==> Quiet(s))
    requires Reaches(cfg, u, rest, t) && StartsQuietly(cfg, u, rest)
    ensures Reaches(cfg, s, [step] + rest, t) && StartsQuietly(cfg, s, [step] + rest)
  {
    assert ([step] + rest)[1..] == rest;
  }

  function Lists(queue: seq<string>, processing: seq<string>, workers: map<nat, Phase>, claims: seq<string>, m: string,
                 requeued: multiset<string>): (s: State)
  {
    State(queue, processing, workers, claims, {}, {}, {}, {}, multiset{m}, requeued, multiset{}, multiset{})
  }

  function TwoClaims(m: string): (s: State) {
    Lists([], [m], map[0 := Working(0), 1 := Working(1)], [m, m], m, multiset{m})
  }

  const Up: State := Initial.(workers := map[0 := Idle, 1 := Recovering])

  /** The message is in the first worker's hands while the second one is recovering. */
  function Contended(m: string): (s: State) {
    Lists([], [m], map[0 := Working(0), 1 := Recovering], [m], m, multiset{})
  }

  lemma TakenBack(cfg: Config, m: string)
    ensures var steps := [Recover(1)] + ([RecoverEnd(1)] + ([Claim(1)] + []));
            Reaches(cfg, Contended(m), steps, TwoClaims(m)) && StartsQuietly(cfg, Contended(m), steps)
  {
    var s3 := Lists([m], [], map[0 := Working(0), 1 := Recovering], [m], m, multiset{m});
    var s4 := Lists([m], [], map[0 := Working(0), 1 := Idle], [m], m, multiset{m});
    var t := TwoClaims(m);
    assert Reaches(cfg, t, [], t) && StartsQuietly(cfg, t, []);
    hide Reaches, StartsQuietly;
    StepFirst(cfg, s4, Claim(1), t, [], t);
    StepFirst(cfg, s3, RecoverEnd(1), s4, [Claim(1)] + [], t);
    StepFirst(cfg, Contended(m), Recover(1), s3, [RecoverEnd(1)] + ([Claim(1)] + []), t);
  }

  lemma FirstWorkerClaims(cfg: Config, m: string, rest: seq<Step>, t: State)
    requires Reaches(cfg, Contended(m), rest, t) && StartsQuietly(cfg, Contended(m), rest)
    ensures var steps := [Enqueue(m)] + ([Claim(0)] + rest);
            Reaches(cfg, Up, steps, t) && StartsQuietly(cfg, Up, steps)
  {
    var s1 := Lists([m], [], map[0 := Idle, 1 := Recovering], [], m, multiset{});
    hide Reaches, StartsQuietly;
    StepFirst(cfg, s1, Claim(0), Contended(m), rest, t);
    StepFirst(cfg, Up, Enqueue(m), s1, [Claim(0)] + rest, t);
  }

  lemma TwoWorkersUp(cfg: Config, rest: seq<Step>, t: State)
    requires Reaches(cfg, Up, rest, t) && StartsQuietly(cfg, Up, rest)
    ensures var steps := [Start(0)] + ([RecoverEnd(0)] + ([Start(1)] + rest));
            Reaches(cfg, Initial, steps, t) && StartsQuietly(cfg, Initial, steps)
  {
    var one := Initial.(workers := map[0 := Recovering]);
    var idle := Initial.(workers := map[0 := Idle]);
    hide Reaches, StartsQuietly;
    StepFirst(cfg, idle, Start(1), Up, rest, t);
    StepFirst(cfg, one, RecoverEnd(0), idle, [Start(1)] + rest, t);
    StepFirst(cfg, Initial, Start(0), one, [RecoverEnd(0)] + ([Start(1)] + rest), t);
  }

  /** Delivery is only at least once. Two workers are up, the second still recovering; a message arrives
      and the first one claims it; the second one takes it back and claims it too. The message was
      enqueued once and ends up in the hands of two workers, in a run in which every worker even starts
      while none has anything in hand. */
  lemma ClaimedTwice(cfg: Config, m: string)
    ensures exists steps: seq<Step>, t: State ::
      Reaches(cfg, Initial, steps, t) && StartsQuietly(cfg, Initial, steps) && t.enqueued == multiset{m} &&
      t.claims == [m, m] && Holders(t, m) == {0, 1}
  {
    hide Reaches, StartsQuietly;
    var back := [Recover(1)] + ([RecoverEnd(1)] + ([Claim(1)] + []));
    TakenBack(cfg, m);
    FirstWorkerClaims(cfg, m, back, TwoClaims(m));
    TwoWorkersUp(cfg, [Enqueue(m)] + ([Claim(0)] + back), TwoClaims(m));
    assert Holders(TwoClaims(m), m) == {0, 1};
  }

  // ---------------------------------------------------------------------------
  // A whole recovery
  // ---------------------------------------------------------------------------

  function Recoveries(w: nat, n: nat): (steps: seq<Step>) {
    if n == 0 then [RecoverEnd(w)] else [Recover(w)] + Recoveries(w, n - 1)
  }

  lemma {:induction false} RecoveryDrains(cfg: Config, s: State, w: nat) returns (t: State)
    requires PhaseOf(s, w).Recovering?
    ensures Reaches(cfg, s, Recoveries(w, |s.processing|), t)
    ensures t.queue == s.processing + s.queue && t.processing == [] && t.workers == s.workers[w := Idle]
    ensures t.enqueued == s.enqueued && t.gone == s.gone && t.claims == s.claims
    decreases |s.processing|
  {
    var step := if s.processing == [] then RecoverEnd(w) else Recover(w);
    var u := Apply(cfg, s, step);
    if s.processing == [] {
      t := u;
      assert Recoveries(w, 0)[1..] == [];
    } else {
      assert Recoveries(w, |s.processing|)[1..] == Recoveries(w, |u.processing|);
      t := RecoveryDrains(cfg, u, w);
      assert Front(s.processing) + ([Last(s.processing)] + s.queue) == s.processing + s.queue;
    }
  }

  /** A restart after everything went down: a worker that starts and recovers puts every message that
      was not removed back into the queue, waiting ones in front, recovered ones in their order. */
  lemma RestartRestores(cfg: Config, steps: seq<Step>, s: State, w: nat) returns (t: State)
    requires Reaches(cfg, Initial, steps, s) && PhaseOf(s, w).Down?
    ensures Reaches(cfg, s, [Start(w)] + Recoveries(w, |s.processing|), t)
    ensures t.queue == s.processing + s.queue && t.processing == []
    ensures multiset(t.queue) == t.enqueued - t.gone
    ensures OthersDown(s, w) ==> StartsAlone(cfg, s, [Start(w)] + Recoveries(w, |s.processing|))
  {
    var u := Apply(cfg, s, Start(w));
    t := RecoveryDrains(cfg, u, w);
    assert ([Start(w)] + Recoveries(w, |s.processing|))[1..] == Recoveries(w, |s.processing|);
    Conservation(cfg, steps, s);
    assert multiset(t.queue) == multiset(s.processing) + multiset(s.queue);
    NoFurtherStart(cfg, u, w);
  }

  lemma {:induction false} NoFurtherStart(cfg: Config, s: State, w: nat)
    requires PhaseOf(s, w).Recovering?
    ensures StartsAlone(cfg, s, Recoveries(w, |s.processing|))
    decreases |s.processing|
  {
    if s.processing == [] {
      assert Recoveries(w, 0)[1..] == [];
    } else {
      var u := Apply(cfg, s, Recover(w));
      assert Recoveries(w, |s.processing|)[1..] == Recoveries(w, |u.processing|);
      NoFurtherStart(cfg, u, w);
    }
  }
}
