/** What the dispatch queue delivers: the effect of every turn on its message, the order of claims, and
    that nothing stays behind without a fault. */
module Delivery {
  import opened Text
  import opened ReliableQueue
  import opened Exclusivity

  // ---------------------------------------------------------------------------
  // Removing a message
  // ---------------------------------------------------------------------------

  /** LREM with count 1 takes out the first occurrence and nothing else. */
  lemma {:induction false} LremFirst(s: seq<string>, m: string) returns (i: nat)
    requires m in s
    ensures i < |s| && s[i] == m && m !in s[..i] && Lrem(s, m) == s[..i] + s[i + 1..]
  {
    if s[0] == m {
      i := 0;
    } else {
      var j := LremFirst(s[1..], m);
      i := j + 1;
      assert s[..i] == [s[0]] + s[1..][..j] && s[i + 1..] == s[1..][j + 1..];
    }
  }

  /** The message of attempt `a` is out of `processing`: one copy of it, and of nothing else. */
  ghost predicate TookOut(s: State, t: State, a: nat) {
    && a < |s.claims| && a in t.removed && t.queue == s.queue
    && (forall x :: Count(t.processing, x) == Count(s.processing, x) - if x == s.claims[a] then 1 else 0)
    && (forall x :: t.gone[x] == s.gone[x] + if x == s.claims[a] then 1 else 0)
  }

  lemma RemovingTakesOut(s: State, a: nat)
    requires a < |s.claims| && s.claims[a] in s.processing
    ensures TookOut(s, Removing(s, a), a)
  {
    hide Lrem;
    forall x ensures Count(Lrem(s.processing, s.claims[a]), x) ==
                     Count(s.processing, x) - if x == s.claims[a] then 1 else 0
    {
      CountLrem(s.processing, s.claims[a], x);
    }
    hide Count;
  }

  /** A successful turn: after the return and the acknowledgement the message is out of `processing`, if
      it still was in it, and the worker is idle again. */
  lemma SuccessfulTurn(cfg: Config, s: State, w: nat) returns (u: State, t: State)
    requires PhaseOf(s, w).Working? && PhaseOf(s, w).attempt < |s.claims|
    requires cfg.parse(s.claims[PhaseOf(s, w).attempt]).Some?
    ensures Enabled(cfg, s, Return(w)) && u == Apply(cfg, s, Return(w))
    ensures Enabled(cfg, u, AckOk(w)) && t == Apply(cfg, u, AckOk(w))
    ensures var a := PhaseOf(s, w).attempt;
            && t.workers == s.workers[w := Idle] && t.returned == s.returned + {a} && t.queue == s.queue
            && (s.claims[a] in s.processing ==> TookOut(s, t, a))
            && (s.claims[a] !in s.processing ==> t.processing == s.processing && t.gone == s.gone)
  {
    var a := PhaseOf(s, w).attempt;
    u := Apply(cfg, s, Return(w));
    t := Apply(cfg, u, AckOk(w));
    if s.claims[a] in s.processing { RemovingTakesOut(u, a); }
    hide Lrem, Count;
  }

  /** When a failed turn removes its message: it names a run, and the report got through or was refused
      as the discard rule wants. */
  predicate FailureRemoves(cfg: Config, m: string, refused: Option<Exc>) {
    && cfg.parse(m).Some? && cfg.parse(m).value != ""
    && (refused.None? || refused.value == WorkerError("GX_API_REQUEST_FAILED", Some(404)))
  }

  /** A failed turn, whether processing or the acknowledgement raised: the message leaves `processing` iff
      the failure removes it and the clean-up goes through, and the worker stops iff the failure is one
      to stop for. */
  lemma FailedTurn(cfg: Config, s: State, w: nat, raised: Step, refused: Option<Exc>, ok: bool) returns (t: State)
    requires HasAttempt(PhaseOf(s, w)) && PhaseOf(s, w).attempt < |s.claims| && Enabled(cfg, s, raised)
    requires (raised.Raise? || raised.AckRaise?) && raised.w == w
    ensures var u := Apply(cfg, s, raised);
            && Enabled(cfg, u, Report(w, refused))
            && Enabled(cfg, Apply(cfg, u, Report(w, refused)), Clean(w, ok))
            && t == Apply(cfg, Apply(cfg, u, Report(w, refused)), Clean(w, ok))
    ensures var (a, m) := (PhaseOf(s, w).attempt, s.claims[PhaseOf(s, w).attempt]);
            && t.workers == s.workers[w := if raised.failClosed then Down else Idle] && t.queue == s.queue
            && (if FailureRemoves(cfg, m, refused) && ok && m in s.processing then TookOut(s, t, a)
                else t.processing == s.processing && t.gone == s.gone && t.removed == s.removed)
  {
    var (a, m) := (PhaseOf(s, w).attempt, s.claims[PhaseOf(s, w).attempt]);
    hide FailureRemoves, TookOut, Apply, Enabled;
    var v := FailureReport(cfg, s, w, raised, refused);
    t := CleanUp(cfg, v, w, ok);
    if TookOut(v, t, a) { SameTookOut(s, v, t, a); }
  }

  lemma SameTookOut(s: State, v: State, t: State, a: nat)
    requires v.claims == s.claims && v.queue == s.queue && v.processing == s.processing && v.gone == s.gone
    requires TookOut(v, t, a)
    ensures TookOut(s, t, a)
  {
  }

  lemma CleanUp(cfg: Config, v: State, w: nat, ok: bool) returns (t: State)
    requires PhaseOf(v, w).Reported? && PhaseOf(v, w).attempt < |v.claims|
    ensures Enabled(cfg, v, Clean(w, ok)) && t == Apply(cfg, v, Clean(w, ok))
    ensures var p := PhaseOf(v, w);
            && t.workers == v.workers[w := if p.failClosed then Down else Idle] && t.queue == v.queue
            && (if p.remove && ok && v.claims[p.attempt] in v.processing then TookOut(v, t, p.attempt)
                else t.processing == v.processing && t.gone == v.gone && t.removed == v.removed)
  {
    var a := PhaseOf(v, w).attempt;
    t := Apply(cfg, v, Clean(w, ok));
    if v.claims[a] in v.processing { RemovingTakesOut(v, a); }
    hide Lrem, Count;
  }

  lemma FailureReport(cfg: Config, s: State, w: nat, raised: Step, refused: Option<Exc>) returns (v: State)
    requires HasAttempt(PhaseOf(s, w)) && PhaseOf(s, w).attempt < |s.claims| && Enabled(cfg, s, raised)
    requires (raised.Raise? || raised.AckRaise?) && raised.w == w
    ensures Enabled(cfg, Apply(cfg, s, raised), Report(w, refused))
    ensures v == Apply(cfg, Apply(cfg, s, raised), Report(w, refused))
    ensures var a := PhaseOf(s, w).attempt;
            && v.workers == s.workers[w := Reported(a, raised.failClosed, FailureRemoves(cfg, s.claims[a], refused))]
            && v.queue == s.queue && v.processing == s.processing && v.claims == s.claims
            && v.removed == s.removed && v.gone == s.gone
  {
    v := Apply(cfg, Apply(cfg, s, raised), Report(w, refused));
  }

  // ---------------------------------------------------------------------------
  // First in, first out
  // ---------------------------------------------------------------------------

  /** The messages that arrive in a run, in order. */
  function Arrivals(steps: seq<Step>): (r: seq<string>) {
    if steps == [] then []
    else (if steps[0].Enqueue? then [steps[0].m] else []) + Arrivals(steps[1..])
  }

  function Reversed(q: seq<string>): (r: seq<string>)
    ensures |r| == |q|
  {
    if q == [] then [] else Reversed(q[1..]) + [q[0]]
  }

  lemma {:induction false} ReversedLast(q: seq<string>)
    requires q != []
    ensures Reversed(q) == [Last(q)] + Reversed(Front(q))
  {
    if |q| > 1 {
      ReversedLast(q[1..]);
      assert Last(q[1..]) == Last(q) && Front(q[1..]) == Front(q)[1..];
    }
  }

  /** Claimed so far, then waiting, oldest first. */
  function Line(s: State): (r: seq<string>) { s.claims + Reversed(s.queue) }

  lemma LineStep(cfg: Config, s: State, step: Step)
    requires Enabled(cfg, s, step) && !step.Recover? && !step.ClaimLost?
    ensures Line(Apply(cfg, s, step)) == Line(s) + Arrivals([step])
  {
    assert [step][1..] == [];
    if step.Enqueue? {
      assert ([step.m] + s.queue)[1..] == s.queue;
      assert Reversed([step.m] + s.queue) == Reversed(s.queue) + [step.m];
      hide Reversed;
      assert s.claims + (Reversed(s.queue) + [step.m]) == s.claims + Reversed(s.queue) + [step.m];
    } else if step.Claim? {
      ReversedLast(s.queue);
      hide Reversed;
      var (m, rest) := (Last(s.queue), Reversed(Front(s.queue)));
      assert s.claims + ([m] + rest) == s.claims + [m] + rest;
      assert Line(Apply(cfg, s, step)) == s.claims + [m] + rest;
      assert Line(s) + [] == Line(s);
    } else {
      QuietLine(cfg, s, step);
      hide Apply, Enabled, Reversed;
      assert Line(s) + [] == Line(s);
    }
  }

  lemma QuietLine(cfg: Config, s: State, step: Step)
    requires Enabled(cfg, s, step) && !step.Recover? && !step.ClaimLost? && !step.Enqueue? && !step.Claim?
    ensures Apply(cfg, s, step).claims == s.claims && Apply(cfg, s, step).queue == s.queue
  {
    hide Lrem, RunId, ShouldDiscardFailedMessage;
  }

  lemma ArrivalsSplit(steps: seq<Step>)
    requires steps != []
    ensures Arrivals(steps) == Arrivals([steps[0]]) + Arrivals(steps[1..])
  {
    assert [steps[0]][1..] == [];
  }

  lemma {:induction false} LineGrows(cfg: Config, s: State, steps: seq<Step>, t: State)
    requires Reaches(cfg, s, steps, t)
    requires forall i :: 0 <= i < |steps| ==> !steps[i].Recover? && !steps[i].ClaimLost?
    ensures Line(t) == Line(s) + Arrivals(steps)
    decreases |steps|
  {
    if steps != [] {
      var u := Apply(cfg, s, steps[0]);
      LineStep(cfg, s, steps[0]);
      LineGrows(cfg, u, steps[1..], t);
      ArrivalsSplit(steps);
      hide Line, Arrivals, Apply, Enabled;
      var (x, y) := (Arrivals([steps[0]]), Arrivals(steps[1..]));
      assert Line(s) + x + y == Line(s) + (x + y);
    }
  }

  /** As long as nothing is taken back or lost on the way, messages are claimed in the order they
      arrived, whatever the workers do. */
  lemma ClaimsInOrder(cfg: Config, steps: seq<Step>, t: State)
    requires Reaches(cfg, Initial, steps, t)
    requires forall i :: 0 <= i < |steps| ==> !steps[i].Recover? && !steps[i].ClaimLost?
    ensures Arrivals(steps) == t.claims + Reversed(t.queue)
  {
    LineGrows(cfg, Initial, steps, t);
    assert Line(Initial) + Arrivals(steps) == Arrivals(steps);
  }

  /** A claim whose reply is lost still moves the message; no worker has it in hand. */
  lemma LostClaim(cfg: Config, s: State, w: nat)
    requires Enabled(cfg, s, ClaimLost(w))
    ensures var t := Apply(cfg, s, ClaimLost(w));
            && t.workers == s.workers && t.claims == s.claims && s.queue == t.queue + [Last(s.queue)]
            && t.processing == [Last(s.queue)] + s.processing
  {
  }

  /** An idle worker can claim whenever something waits: it gets the oldest message, which goes to the head
      of `processing`, and starts a new attempt on it. */
  lemma ClaimTakesOldest(cfg: Config, s: State, w: nat)
    requires PhaseOf(s, w).Idle? && s.queue != []
    ensures Enabled(cfg, s, Claim(w))
    ensures var t := Apply(cfg, s, Claim(w));
            && s.queue == t.queue + [Last(s.queue)] && t.processing == [Last(s.queue)] + s.processing
            && t.claims == s.claims + [Last(s.queue)] && PhaseOf(t, w) == Working(|s.claims|)
  {
  }

  /** A crash takes the worker down with whatever it had in hand and leaves both lists as they are. */
  lemma CrashLeaves(cfg: Config, s: State, w: nat)
    ensures Enabled(cfg, s, Crash(w))
    ensures var t := Apply(cfg, s, Crash(w));
            && PhaseOf(t, w).Down? && (forall v :: v != w ==> PhaseOf(t, v) == PhaseOf(s, v))
            && t.queue == s.queue && t.processing == s.processing && t.claims == s.claims && t.removed == s.removed
  {
  }

  predicate OnlyClaims(step: Step) {
    !step.Recover? && !step.ClaimLost? && !step.AckOk? && !step.Clean?
  }

  lemma {:induction false} NewestFirstFrom(cfg: Config, s: State, steps: seq<Step>, t: State)
    requires Reaches(cfg, s, steps, t) && forall i :: 0 <= i < |steps| ==> OnlyClaims(steps[i])
    requires s.processing == Reversed(s.claims)
    ensures t.processing == Reversed(t.claims)
    decreases |steps|
  {
    if steps != [] {
      var (step, u) := (steps[0], Apply(cfg, s, steps[0]));
      assert OnlyClaims(step);
      if step.Claim? {
        ReversedLast(u.claims);
        assert Front(u.claims) == s.claims;
      }
      hide Reversed;
      assert u.processing == Reversed(u.claims);
      NewestFirstFrom(cfg, u, steps[1..], t);
    }
  }

  /** `processing` has its newest claim at the head, as long as nothing leaves it. */
  lemma NewestFirst(cfg: Config, steps: seq<Step>, t: State)
    requires Reaches(cfg, Initial, steps, t) && forall i :: 0 <= i < |steps| ==> OnlyClaims(steps[i])
    ensures t.processing == Reversed(t.claims)
  {
    NewestFirstFrom(cfg, Initial, steps, t);
  }

  // ---------------------------------------------------------------------------
  // What stays behind
  // ---------------------------------------------------------------------------

  /** The attempts of a run, and those some worker has in hand. */
  function AllAttempts(s: State): (r: set<nat>) { set a: nat | a < |s.claims| && IsAttempt(s, a) }

  predicate IsAttempt(s: State, a: nat) { a < |s.claims| }

  function InHands(s: State): (r: set<nat>) {
    set w | w in s.workers && HasAttempt(s.workers[w]) :: s.workers[w].attempt
  }

  function Failing(s: State): (r: set<nat>) {
    set w | w in s.workers && (s.workers[w].Failed? || s.workers[w].Reported?) :: s.workers[w].attempt
  }

  /** The attempts that a fault has hit: over without a removal, or on their way to the failure report. */
  function Hit(s: State): (r: set<nat>) { AllAttempts(s) - s.removed - (InHands(s) - Failing(s)) }

  /** How many faults a run has: crashes, failed processing and failed acknowledgements. */
  function Faults(steps: seq<Step>): (n: nat) {
    if steps == [] then 0
    else (if steps[0].Crash? || steps[0].Raise? || steps[0].AckRaise? then 1 else 0) + Faults(steps[1..])
  }

  predicate IsFault(step: Step) { step.Crash? || step.Raise? || step.AckRaise? }

  /** A worker moves on; only a fault or a missed removal can add its attempt. */
  lemma HitMoves(s: State, t: State, w: nat, p: Phase)
    requires Attempts(s) && t.workers == s.workers[w := p] && t.claims == s.claims && s.removed <= t.removed
    requires HasAttempt(p) ==> w in s.workers && HasAttempt(s.workers[w]) && s.workers[w].attempt == p.attempt
    ensures w !in s.workers || !HasAttempt(s.workers[w]) ==> Hit(t) <= Hit(s)
    ensures w in s.workers && HasAttempt(s.workers[w]) ==> Hit(t) <= Hit(s) + {s.workers[w].attempt}
    ensures w in s.workers && HasAttempt(s.workers[w]) && s.workers[w].attempt in t.removed ==> Hit(t) <= Hit(s)
    ensures w in s.workers && HasAttempt(s.workers[w]) && (p.Working? || p.Returned?) ==> Hit(t) <= Hit(s)
    ensures w in s.workers && (s.workers[w].Failed? || s.workers[w].Reported?) ==> Hit(t) <= Hit(s)
  {
    forall a | a in Hit(t) && a !in Hit(s)
      ensures w in s.workers && HasAttempt(s.workers[w]) && a == s.workers[w].attempt
    {
      assert a in InHands(s) - Failing(s);
      var v :| v in s.workers && HasAttempt(s.workers[v]) && s.workers[v].attempt == a;
      if v != w { assert t.workers[v] == s.workers[v]; NotFailing(s, t, v, w, p); }
    }
    if w in s.workers && (s.workers[w].Failed? || s.workers[w].Reported?) {
      assert s.workers[w].attempt in Failing(s);
    }
    if w in s.workers && HasAttempt(s.workers[w]) && (p.Working? || p.Returned?) {
      assert t.workers[w] == p;
      NotFailing(s, t, w, w, p);
    }
  }

  /** An attempt in hand that is not failing keeps off the failing ones. */
  lemma NotFailing(s: State, t: State, v: nat, w: nat, p: Phase)
    requires Attempts(s) && t.workers == s.workers[w := p]
    requires v in t.workers && HasAttempt(t.workers[v]) && !t.workers[v].Failed? && !t.workers[v].Reported?
    requires v in s.workers && HasAttempt(s.workers[v]) && s.workers[v].attempt == t.workers[v].attempt
    requires HasAttempt(p) ==> w in s.workers && HasAttempt(s.workers[w]) && s.workers[w].attempt == p.attempt
    ensures t.workers[v].attempt in InHands(t) - Failing(t)
  {
  }

  lemma HitMovesOn(cfg: Config, s: State, step: Step)
    requires Enabled(cfg, s, step) && Attempts(s)
    requires step.Start? || step.RecoverEnd? || step.Return? || step.Raise? || step.AckRaise? || step.Crash?
    ensures |Hit(Apply(cfg, s, step))| <= |Hit(s)| + if IsFault(step) then 1 else 0
  {
    hide Hit, Attempts;
    var t := Apply(cfg, s, step);
    match step
    case Start(w) => Moved(s, t, w, Recovering);
    case RecoverEnd(w) => Moved(s, t, w, Idle);
    case Return(w) => Moved(s, t, w, Returned(s.workers[w].attempt));
    case Raise(w, f) => Moved(s, t, w, Failed(s.workers[w].attempt, f));
    case AckRaise(w, f) => Moved(s, t, w, Failed(s.workers[w].attempt, f));
    case Crash(w) => Moved(s, t, w, Down);
  }

  lemma HitReported(cfg: Config, s: State, w: nat, refused: Option<Exc>)
    requires Attempts(s) && w in s.workers && s.workers[w].Failed? && s.workers[w].attempt < |s.claims|
    ensures |Hit(Reporting(cfg, s, w, s.workers[w], refused))| <= |Hit(s)|
  {
    hide Hit, Attempts, RunId, ShouldDiscardFailedMessage;
    var t := Reporting(cfg, s, w, s.workers[w], refused);
    Moved(s, t, w, t.workers[w]);
  }

  lemma HitCleaned(s: State, w: nat, ok: bool)
    requires Attempts(s) && w in s.workers && s.workers[w].Reported? && s.workers[w].attempt < |s.claims|
    ensures |Hit(Cleaning(s, w, s.workers[w], ok))| <= |Hit(s)|
  {
    hide Hit, Attempts, Lrem;
    var t := Cleaning(s, w, s.workers[w], ok);
    Moved(s, t, w, t.workers[w]);
  }

  /** One step adds at most one attempt to those a fault has hit, and only a fault does. */
  lemma HitStep(cfg: Config, s: State, step: Step)
    requires Enabled(cfg, s, step) && Inv(cfg, s) && Exclusive(s)
    ensures |Hit(Apply(cfg, s, step))| <= |Hit(s)| + if IsFault(step) then 1 else 0
  {
    var t := Apply(cfg, s, step);
    assert step.Report? || step.Clean? ==> step.w in s.workers;
    hide Hit, Flow, Attempts, History, Exclusive, Reporting, Cleaning, Removing;
    match step
    case Enqueue(_) => SameHit(s, t);
    case ClaimLost(_) => SameHit(s, t);
    case Recover(_) => SameHit(s, t);
    case Claim(w) => HitClaims(cfg, s, w);
    case AckOk(w) => HitAcknowledged(cfg, s, w);
    case Report(w, refused) => HitReported(cfg, s, w, refused);
    case Clean(w, ok) => HitCleaned(s, w, ok);
    case _ => HitMovesOn(cfg, s, step);
  }

  lemma AtMostOneMore(a: set<nat>, b: set<nat>, x: nat)
    ensures a <= b ==> |a| <= |b|
    ensures a <= b + {x} ==> |a| <= |b| + 1
  {
    if a <= b { SubsetCard(a, b); }
    if a <= b + {x} {
      SubsetCard(a, b + {x});
      assert |b + {x}| <= |b| + 1;
    }
  }

  lemma SameHit(s: State, t: State)
    requires t.workers == s.workers && t.claims == s.claims && t.removed == s.removed
    ensures Hit(t) == Hit(s)
  {
    assert AllAttempts(t) == AllAttempts(s);
  }

  lemma Moved(s: State, t: State, w: nat, p: Phase)
    requires Attempts(s) && t.workers == s.workers[w := p] && t.claims == s.claims && s.removed <= t.removed
    requires HasAttempt(p) ==> w in s.workers && HasAttempt(s.workers[w]) && s.workers[w].attempt == p.attempt
    ensures |Hit(t)| <= |Hit(s)| + 1
    ensures w !in s.workers || !HasAttempt(s.workers[w]) ==> |Hit(t)| <= |Hit(s)|
    ensures w in s.workers && HasAttempt(s.workers[w]) && (p.Working? || p.Returned?) ==> |Hit(t)| <= |Hit(s)|
    ensures w in s.workers && (s.workers[w].Failed? || s.workers[w].Reported?) ==> |Hit(t)| <= |Hit(s)|
  {
    HitMoves(s, t, w, p);
    hide Hit, Attempts;
    AtMostOneMore(Hit(t), Hit(s), if w in s.workers && HasAttempt(s.workers[w]) then s.workers[w].attempt else 0);
  }

  lemma HitClaims(cfg: Config, s: State, w: nat)
    requires Enabled(cfg, s, Claim(w)) && Inv(cfg, s)
    ensures |Hit(Apply(cfg, s, Claim(w)))| <= |Hit(s)|
  {
    hide Flow, History, Attempts, Hit;
    HitClaimed(s, Apply(cfg, s, Claim(w)), w);
  }

  lemma HitClaimed(s: State, t: State, w: nat)
    requires Attempts(s) && t.workers == s.workers[w := Working(|s.claims|)] && t.removed == s.removed
    requires |t.claims| == |s.claims| + 1 && (w in s.workers ==> !HasAttempt(s.workers[w]))
    ensures |Hit(t)| <= |Hit(s)|
  {
    hide Attempts, Hit, Safe;
    ClaimIsHeld(s, t, w);
    forall a | a in Hit(t) ensures a in Hit(s) {
      HitExactly(s, a);
      HitExactly(t, a);
      if Safe(s, a) { StillInHands(s, t, w, a); }
    }
    SubsetCard(Hit(t), Hit(s));
  }

  /** Some worker has the attempt in hand and it has not failed. */
  ghost predicate Safe(s: State, a: nat) { a in InHands(s) - Failing(s) }

  lemma HitExactly(s: State, a: nat)
    ensures a in Hit(s) <==> a < |s.claims| && a !in s.removed && !Safe(s, a)
  {
    assert IsAttempt(s, a) <==> a < |s.claims|;
    hide InHands, Failing;
  }

  lemma ClaimIsHeld(s: State, t: State, w: nat)
    requires Attempts(s) && t.workers == s.workers[w := Working(|s.claims|)]
    ensures Safe(t, |s.claims|)
  {
    assert t.workers[w] == Working(|s.claims|);
  }

  lemma StillInHands(s: State, t: State, w: nat, a: nat)
    requires Attempts(s) && t.workers == s.workers[w := Working(|s.claims|)]
    requires (w in s.workers ==> !HasAttempt(s.workers[w])) && Safe(s, a)
    ensures Safe(t, a)
  {
    var v :| v in s.workers && HasAttempt(s.workers[v]) && s.workers[v].attempt == a;
    hide Attempts, InHands, Failing;
    StillHeld(s, t, w, v);
  }

  lemma StillHeld(s: State, t: State, w: nat, v: nat)
    requires Attempts(s) && t.workers == s.workers[w := Working(|s.claims|)]
    requires v in s.workers && HasAttempt(s.workers[v]) && (w in s.workers ==> !HasAttempt(s.workers[w]))
    requires s.workers[v].attempt !in Failing(s)
    ensures s.workers[v].attempt in InHands(t) - Failing(t)
  {
    assert t.workers[v] == s.workers[v];
  }

  /** In an exclusive state an acknowledgement finds its message, so it is no fault. */
  lemma HitAcknowledged(cfg: Config, s: State, w: nat)
    requires Enabled(cfg, s, AckOk(w)) && Inv(cfg, s) && Exclusive(s)
    ensures |Hit(Apply(cfg, s, AckOk(w)))| <= |Hit(s)|
  {
    var (t, a) := (Apply(cfg, s, AckOk(w)), s.workers[w].attempt);
    HolderInProcessing(s, w);
    assert a in t.removed && t.workers == s.workers[w := Idle] && t.claims == s.claims;
    HitMoves(s, t, w, Idle);
    hide Hit, Lrem;
    SubsetCard(Hit(t), Hit(s));
  }

  lemma HolderInProcessing(s: State, w: nat)
    requires Exclusive(s) && w in s.workers && HasAttempt(s.workers[w]) && s.workers[w].attempt < |s.claims|
    ensures s.claims[s.workers[w].attempt] in s.processing
  {
    var m := s.claims[s.workers[w].attempt];
    assert w in Holders(s, m);
    hide Holders;
    assert |Holders(s, m)| <= Count(s.processing, m);
  }

  /** No more attempts are left without a removal than there were faults. */
  lemma {:induction false} HitsAreFaults(cfg: Config, s: State, steps: seq<Step>, t: State)
    requires Inv(cfg, s) && Exclusive(s) && Reaches(cfg, s, steps, t) && RecoversUnheld(cfg, s, steps)
    ensures |Hit(t)| <= |Hit(s)| + Faults(steps)
    decreases |steps|
  {
    if steps != [] {
      var u := Apply(cfg, s, steps[0]);
      HitStep(cfg, s, steps[0]);
      StepExactly(cfg, s, steps[0]);
      FlowKept(cfg, s, steps[0]);
      AttemptsKept(cfg, s, steps[0]);
      HistoryKept(cfg, s, steps[0]);
      hide Exclusive, Flow, Attempts, History, Unheld, Enabled, Apply, Hit;
      HitsAreFaults(cfg, u, steps[1..], t);
    }
  }

  lemma {:induction false} NothingLost(cfg: Config, s: State, steps: seq<Step>, t: State)
    requires Reaches(cfg, s, steps, t) && forall i :: 0 <= i < |steps| ==> !steps[i].ClaimLost?
    ensures t.stranded == s.stranded
    decreases |steps|
  {
    if steps != [] {
      assert !steps[0].ClaimLost?;
      NothingLost(cfg, Apply(cfg, s, steps[0]), steps[1..], t);
    }
  }

  lemma AbandonedAreHit(s: State, m: string)
    requires Attempts(s)
    ensures Abandoned(s, m) <= Hit(s)
  {
    forall a | a in Abandoned(s, m) ensures a in Hit(s) {
      assert IsAttempt(s, a);
    }
  }

  /** What is in `processing`: the copies in somebody's hands, those of abandoned attempts and those of
      lost claims, less what was taken back; and no more attempts are abandoned than there were faults. */
  lemma ProcessingExactly(cfg: Config, steps: seq<Step>, t: State, m: string)
    requires Reaches(cfg, Initial, steps, t)
    ensures Count(t.processing, m) + t.requeued[m] == |Holders(t, m)| + |Abandoned(t, m)| + t.stranded[m]
    ensures RecoversUnheld(cfg, Initial, steps) ==> |Abandoned(t, m)| <= Faults(steps)
  {
    InitialInv(cfg);
    InvAlways(cfg, Initial, steps, t);
    ClaimsSplit(cfg, t, m);
    assert Count(t.claims, m) + t.stranded[m] == t.requeued[m] + t.gone[m] + Count(t.processing, m);
    if RecoversUnheld(cfg, Initial, steps) {
      InitialExclusive();
      HitsAreFaults(cfg, Initial, steps, t);
      assert Hit(Initial) == {};
      AbandonedAreHit(t, m);
      hide Hit, Abandoned, Holders, RecoversUnheld, Reaches;
      SubsetCard(Abandoned(t, m), Hit(t));
    }
  }

  /** Without a fault or a lost claim, and with recoveries of unheld copies only, nothing is left in
      `processing` once no worker has an attempt in hand: all that was enqueued is waiting or removed. */
  lemma NothingStaysBehind(cfg: Config, steps: seq<Step>, t: State)
    requires Reaches(cfg, Initial, steps, t) && RecoversUnheld(cfg, Initial, steps)
    requires Faults(steps) == 0 && (forall i :: 0 <= i < |steps| ==> !steps[i].ClaimLost?) && Quiet(t)
    ensures t.processing == [] && t.enqueued == multiset(t.queue) + t.gone
  {
    NothingLost(cfg, Initial, steps, t);
    Conservation(cfg, steps, t);
    forall m ensures Count(t.processing, m) == 0 {
      ProcessingExactly(cfg, steps, t, m);
      assert Holders(t, m) == {};
    }
    assert forall i :: 0 <= i < |t.processing| ==> Count(t.processing, t.processing[i]) > 0;
  }
}
