/** The dispatch queue: any number of workers move messages between two Redis lists, acknowledge by
    removing, report failures, crash at any point and recover at start-up. */
module ReliableQueue {
  import opened Text

  // ---------------------------------------------------------------------------
  // Failure reports and the discard guard
  // ---------------------------------------------------------------------------

  datatype Exc = WorkerError(failureCode: string, statusCode: Option<int>) | OtherError

  predicate ShouldDiscardFailedMessage(e: Exc) {
    e.WorkerError? && e.failureCode == "GX_API_REQUEST_FAILED" && e.statusCode == Some(404)
  }

  /** What one HTTP exchange of a report can come to. */
  datatype Exchange = Response(status: int) | Unreachable | NoToken

  /** The exception that the report request raises, if any. */
  function ReportException(x: Exchange): (r: Option<Exc>) {
    match x
    case Response(status) =>
      if status >= 400 then Some(WorkerError("DQ_API_REQUEST_FAILED", Some(status))) else None
    case Unreachable => Some(WorkerError("DQ_API_REQUEST_FAILED", None))
    case NoToken => Some(OtherError)
  }

  /** The guard waits for a failure code that the report request never raises, not even on a 404. */
  lemma DiscardNeverFires(x: Exchange)
    ensures ReportException(x).None? <==> x.Response? && x.status < 400
    ensures ReportException(x).Some? ==> !ShouldDiscardFailedMessage(ReportException(x).value)
    ensures ShouldDiscardFailedMessage(WorkerError("GX_API_REQUEST_FAILED", Some(404)))
  {
    assert "DQ_API_REQUEST_FAILED"[0] != "GX_API_REQUEST_FAILED"[0];
  }

  // ---------------------------------------------------------------------------
  // State and steps
  // ---------------------------------------------------------------------------

  /** `parse(m)` is the run id of a message that is a JSON object ("" when it names none), and
      `None` for a message that is not a JSON object. */
  datatype Config = Config(parse: string -> Option<string>)

  /** A worker between two actions; `attempt` numbers the claims of the whole run. */
  datatype Phase =
    | Down
    | Recovering
    | Idle
    | Working(attempt: nat)
    | Returned(attempt: nat)
    | Failed(attempt: nat, failClosed: bool)
    | Reported(attempt: nat, failClosed: bool, remove: bool)

  /** The two lists (head first) and the workers, with the history of the run: `claims[a]` is the
      message of attempt `a`; the sets hold the attempts that returned, were reported failed, hit
      the discard rule, or removed a message; the multisets count messages. */
  datatype State = State(
    queue: seq<string>,
    processing: seq<string>,
    workers: map<nat, Phase>,
    claims: seq<string>,
    returned: set<nat>,
    reported: set<nat>,
    discarded: set<nat>,
    removed: set<nat>,
    enqueued: multiset<string>,
    requeued: multiset<string>,
    stranded: multiset<string>,
    gone: multiset<string>)

  datatype Step =
    | Enqueue(m: string)
    | Start(w: nat)
    | Recover(w: nat)
    | RecoverEnd(w: nat)
    | Claim(w: nat)
    | ClaimLost(w: nat)
    | Return(w: nat)
    | Raise(w: nat, failClosed: bool)
    | AckOk(w: nat)
    | AckRaise(w: nat, failClosed: bool)
    | Report(w: nat, refused: Option<Exc>)
    | Clean(w: nat, ok: bool)
    | Crash(w: nat)

  const Initial: State :=
    State([], [], map[], [], {}, {}, {}, {}, multiset{}, multiset{}, multiset{}, multiset{})

  function PhaseOf(s: State, w: nat): (p: Phase) { if w in s.workers then s.workers[w] else Down }

  function Last(s: seq<string>): (m: string)
    requires s != []
  { s[|s| - 1] }

  function Front(s: seq<string>): (r: seq<string>)
    requires s != []
  { s[..|s| - 1] }

  /** LREM with count 1: the first occurrence, if any. */
  function Lrem(s: seq<string>, m: string): (r: seq<string>) {
    if s == [] then [] else if s[0] == m then s[1..] else [s[0]] + Lrem(s[1..], m)
  }

  function RunId(cfg: Config, m: string): (r: string) {
    if cfg.parse(m).Some? then cfg.parse(m).value else ""
  }

  predicate HasAttempt(p: Phase) { p.Working? || p.Returned? || p.Failed? || p.Reported? }

  predicate Enabled(cfg: Config, s: State, step: Step) {
    match step
    case Enqueue(_) => true
    case Start(w) => PhaseOf(s, w).Down?
    case Recover(w) => PhaseOf(s, w).Recovering? && s.processing != []
    case RecoverEnd(w) => PhaseOf(s, w).Recovering?
    case Claim(w) => PhaseOf(s, w).Idle? && s.queue != []
    case ClaimLost(w) => PhaseOf(s, w).Idle? && s.queue != []
    case Return(w) =>
      PhaseOf(s, w).Working? && PhaseOf(s, w).attempt < |s.claims| && cfg.parse(s.claims[PhaseOf(s, w).attempt]).Some?
    case Raise(w, _) => PhaseOf(s, w).Working?
    case AckOk(w) => PhaseOf(s, w).Returned? && PhaseOf(s, w).attempt < |s.claims|
    case AckRaise(w, _) => PhaseOf(s, w).Returned?
    case Report(w, _) => PhaseOf(s, w).Failed? && PhaseOf(s, w).attempt < |s.claims|
    case Clean(w, _) => PhaseOf(s, w).Reported? && PhaseOf(s, w).attempt < |s.claims|
    case Crash(w) => true
  }

  function SetPhase(s: State, w: nat, p: Phase): (t: State) { s.(workers := s.workers[w := p]) }

  /** LREM by attempt `a`; it finds nothing when another worker took the message back. */
  function Removing(s: State, a: nat): (t: State)
    requires a < |s.claims|
  {
    var m := s.claims[a];
    if m in s.processing then
      s.(processing := Lrem(s.processing, m), removed := s.removed + {a}, gone := s.gone + multiset{m})
    else s
  }

  /** BRPOPLPUSH from `queue` to `processing`. */
  function Claiming(s: State): (t: State)
    requires s.queue != []
  {
    s.(queue := Front(s.queue), processing := [Last(s.queue)] + s.processing)
  }

  function Reporting(cfg: Config, s: State, w: nat, p: Phase, refused: Option<Exc>): (t: State)
    requires p.Failed? && p.attempt < |s.claims|
  {
    var a := p.attempt;
    if RunId(cfg, s.claims[a]) == "" then SetPhase(s, w, Reported(a, p.failClosed, false))
    else if refused.None? then
      SetPhase(s.(reported := s.reported + {a}), w, Reported(a, p.failClosed, true))
    else if ShouldDiscardFailedMessage(refused.value) then
      SetPhase(s.(discarded := s.discarded + {a}), w, Reported(a, p.failClosed, true))
    else SetPhase(s, w, Reported(a, p.failClosed, false))
  }

  function Cleaning(s: State, w: nat, p: Phase, ok: bool): (t: State)
    requires p.Reported? && p.attempt < |s.claims|
  {
    var next := if p.failClosed then Down else Idle;
    SetPhase(if p.remove && ok then Removing(s, p.attempt) else s, w, next)
  }

  function Apply(cfg: Config, s: State, step: Step): (t: State)
    requires Enabled(cfg, s, step)
  {
    match step
    case Enqueue(m) => s.(queue := [m] + s.queue, enqueued := s.enqueued + multiset{m})
    case Start(w) => SetPhase(s, w, Recovering)
    case Recover(w) =>
      var m := Last(s.processing);
      s.(processing := Front(s.processing), queue := [m] + s.queue, requeued := s.requeued + multiset{m})
    case RecoverEnd(w) => SetPhase(s, w, Idle)
    case Claim(w) => SetPhase(Claiming(s).(claims := s.claims + [Last(s.queue)]), w, Working(|s.claims|))
    case ClaimLost(w) => Claiming(s).(stranded := s.stranded + multiset{Last(s.queue)})
    case Return(w) =>
      var a := PhaseOf(s, w).attempt;
      SetPhase(s.(returned := s.returned + {a}), w, Returned(a))
    case Raise(w, failClosed) => SetPhase(s, w, Failed(PhaseOf(s, w).attempt, failClosed))
    case AckOk(w) => SetPhase(Removing(s, PhaseOf(s, w).attempt), w, Idle)
    case AckRaise(w, failClosed) => SetPhase(s, w, Failed(PhaseOf(s, w).attempt, failClosed))
    case Report(w, refused) => Reporting(cfg, s, w, PhaseOf(s, w), refused)
    case Clean(w, ok) => Cleaning(s, w, PhaseOf(s, w), ok)
    case Crash(w) => SetPhase(s, w, Down)
  }

  /** `steps` is a run of the system from `s` to `t`. */
  ghost predicate Reaches(cfg: Config, s: State, steps: seq<Step>, t: State)
    decreases |steps|
  {
    if steps == [] then s == t
    else Enabled(cfg, s, steps[0]) && Reaches(cfg, Apply(cfg, s, steps[0]), steps[1..], t)
  }

  // ---------------------------------------------------------------------------
  // What every step keeps
  // ---------------------------------------------------------------------------

  function Count(s: seq<string>, m: string): (n: nat) { multiset(s)[m] }

  /** Messages flow: what entered the queue left it by a claim or is there, and what was claimed
      went back, was removed, or is being processed. */
  ghost predicate Flow(s: State) {
    forall m ::
      && s.enqueued[m] + s.requeued[m] == Count(s.claims, m) + s.stranded[m] + Count(s.queue, m)
      && Count(s.claims, m) + s.stranded[m] == s.requeued[m] + s.gone[m] + Count(s.processing, m)
  }

  function Settled(s: State): (r: set<nat>) { s.returned + s.reported + s.discarded }

  function OnMessage(s: State, attempts: set<nat>, m: string): (r: set<nat>) {
    set a | a in attempts && a < |s.claims| && s.claims[a] == m
  }

  /** An attempt in progress has a number of its own and has removed nothing yet; an attempt about
      to remove is settled. */
  ghost predicate Attempts(s: State) {
    && (forall w :: w in s.workers && HasAttempt(s.workers[w]) ==>
          s.workers[w].attempt < |s.claims| && s.workers[w].attempt !in s.removed)
    && (forall w, v :: w in s.workers && v in s.workers && w != v ==>
          HasAttempt(s.workers[w]) && HasAttempt(s.workers[v]) ==> s.workers[w].attempt != s.workers[v].attempt)
    && (forall w :: w in s.workers && s.workers[w].Returned? ==> s.workers[w].attempt in s.returned)
    && (forall w :: w in s.workers && s.workers[w].Reported? && s.workers[w].remove ==>
          s.workers[w].attempt in Settled(s))
  }

  ghost predicate History(cfg: Config, s: State) {
    && s.removed <= Settled(s)
    && (forall a :: a in Settled(s) ==> a < |s.claims|)
    && (forall a :: a in s.returned ==> cfg.parse(s.claims[a]).Some?)
    && (forall a :: a in s.reported + s.discarded ==> RunId(cfg, s.claims[a]) != "")
    && (forall m :: s.gone[m] == |OnMessage(s, s.removed, m)|)
  }

  ghost predicate Inv(cfg: Config, s: State) { Flow(s) && Attempts(s) && History(cfg, s) }

  lemma {:induction false} CountLrem(s: seq<string>, m: string, x: string)
    requires m in s
    ensures Count(Lrem(s, m), x) == Count(s, x) - if x == m then 1 else 0
  {
    assert s == [s[0]] + s[1..];
    if s[0] != m {
      CountLrem(s[1..], m, x);
    }
  }

  lemma CountLast(s: seq<string>, x: string)
    requires s != []
    ensures Count(s, x) == Count(Front(s), x) + if x == Last(s) then 1 else 0
  {
    assert s == Front(s) + [Last(s)];
  }

  lemma RemovingFlow(s: State, a: nat)
    requires a < |s.claims| && Flow(s)
    ensures Flow(Removing(s, a))
  {
    var (m, t) := (s.claims[a], Removing(s, a));
    if m in s.processing {
      forall x ensures Count(t.processing, x) == Count(s.processing, x) - if x == m then 1 else 0 {
        CountLrem(s.processing, m, x);
      }
      hide Count, Lrem;
      assert Flow(t);
    }
  }

  lemma ClaimingFlow(s: State)
    requires s.queue != []
    ensures var (t, m) := (Claiming(s), Last(s.queue));
      forall x :: && Count(s.queue, x) == Count(t.queue, x) + (if x == m then 1 else 0)
                  && Count(t.processing, x) == Count(s.processing, x) + (if x == m then 1 else 0)
                  && Count(s.claims + [m], x) == Count(s.claims, x) + (if x == m then 1 else 0)
  {
    forall x { CountLast(s.queue, x); }
  }

  lemma RecoverFlow(s: State)
    requires s.processing != []
    ensures var m := Last(s.processing);
      forall x :: && Count(s.processing, x) == Count(Front(s.processing), x) + (if x == m then 1 else 0)
                  && Count([m] + s.queue, x) == Count(s.queue, x) + (if x == m then 1 else 0)
  {
    forall x { CountLast(s.processing, x); }
  }

  lemma RequeueFlow(s: State)
    requires Flow(s) && s.processing != []
    ensures var m := Last(s.processing);
            Flow(s.(processing := Front(s.processing), queue := [m] + s.queue, requeued := s.requeued + multiset{m}))
  {
    RecoverFlow(s);
    hide Count;
  }

  lemma ClaimFlow(s: State)
    requires Flow(s) && s.queue != []
    ensures Flow(Claiming(s).(claims := s.claims + [Last(s.queue)]))
  {
    ClaimingFlow(s);
    hide Count;
  }

  lemma LostFlow(s: State)
    requires Flow(s) && s.queue != []
    ensures Flow(Claiming(s).(stranded := s.stranded + multiset{Last(s.queue)}))
  {
    ClaimingFlow(s);
    hide Count;
  }

  lemma EnqueueFlow(s: State, m: string)
    requires Flow(s)
    ensures Flow(s.(queue := [m] + s.queue, enqueued := s.enqueued + multiset{m}))
  {
  }

  lemma SameFlow(s: State, t: State)
    requires Flow(s) && t.queue == s.queue && t.processing == s.processing && t.claims == s.claims
    requires t.enqueued == s.enqueued && t.requeued == s.requeued && t.stranded == s.stranded && t.gone == s.gone
    ensures Flow(t)
  {
    hide Count;
  }

  lemma FlowKept(cfg: Config, s: State, step: Step)
    requires Enabled(cfg, s, step) && Flow(s)
    ensures Flow(Apply(cfg, s, step))
  {
    hide Flow, RunId, ShouldDiscardFailedMessage, Lrem, Claiming;
    var t := Apply(cfg, s, step);
    match step
    case Enqueue(m) => EnqueueFlow(s, m);
    case Recover(_) => RequeueFlow(s);
    case Claim(_) =>
      ClaimFlow(s);
      SameFlow(Claiming(s).(claims := s.claims + [Last(s.queue)]), t);
    case ClaimLost(_) => LostFlow(s);
    case AckOk(w) =>
      RemovingFlow(s, PhaseOf(s, w).attempt);
      SameFlow(Removing(s, PhaseOf(s, w).attempt), t);
    case Clean(w, ok) =>
      var p := PhaseOf(s, w);
      RemovingFlow(s, p.attempt);
      SameFlow(if p.remove && ok then Removing(s, p.attempt) else s, t);
    case _ => SameFlow(s, t);
  }

  /** A worker moves on with the same attempt, or with none. */
  lemma PhaseAttempts(s: State, t: State, w: nat, p: Phase)
    requires Attempts(s) && t.workers == s.workers[w := p] && t.claims == s.claims && t.removed == s.removed
    requires s.returned <= t.returned && Settled(s) <= Settled(t)
    requires HasAttempt(p) ==> w in s.workers && HasAttempt(s.workers[w]) && s.workers[w].attempt == p.attempt
    requires p.Returned? ==> p.attempt in t.returned
    requires p.Reported? && p.remove ==> p.attempt in Settled(t)
    ensures Attempts(t)
  {
    hide Settled;
  }

  lemma ClaimAttempts(s: State, t: State, w: nat)
    requires Attempts(s) && s.claims <= t.claims && |t.claims| == |s.claims| + 1 && t.removed == s.removed
    requires forall a :: a in s.removed ==> a < |s.claims|
    requires t.workers == s.workers[w := Working(|s.claims|)] && s.returned == t.returned && Settled(s) == Settled(t)
    ensures Attempts(t)
  {
    hide Settled;
  }

  lemma RemovingAttempts(s: State, w: nat, next: Phase)
    requires Attempts(s) && w in s.workers && HasAttempt(s.workers[w]) && s.workers[w].attempt < |s.claims|
    requires !HasAttempt(next)
    ensures Attempts(SetPhase(Removing(s, s.workers[w].attempt), w, next))
  {
    hide Lrem;
    var t := SetPhase(Removing(s, s.workers[w].attempt), w, next);
    assert Settled(t) == Settled(s);
    hide Settled;
  }

  lemma AttemptsKeptQuiet(cfg: Config, s: State, step: Step)
    requires Enabled(cfg, s, step) && Attempts(s)
    requires !(step.Claim? || step.AckOk? || step.Clean? || step.Report?)
    ensures Attempts(Apply(cfg, s, step))
  {
    var t := Apply(cfg, s, step);
    hide Attempts;
    match step
    case Enqueue(_) => SameWorkers(s, t);
    case Recover(_) => SameWorkers(s, t);
    case ClaimLost(_) => SameWorkers(s, t);
    case Start(w) => PhaseAttempts(s, t, w, Recovering);
    case RecoverEnd(w) => PhaseAttempts(s, t, w, Idle);
    case Return(w) => PhaseAttempts(s, t, w, Returned(s.workers[w].attempt));
    case Raise(w, f) => PhaseAttempts(s, t, w, Failed(s.workers[w].attempt, f));
    case AckRaise(w, f) => PhaseAttempts(s, t, w, Failed(s.workers[w].attempt, f));
    case Crash(w) => PhaseAttempts(s, t, w, Down);
  }

  lemma ReportingAttempts(cfg: Config, s: State, w: nat, refused: Option<Exc>)
    requires Attempts(s) && w in s.workers && s.workers[w].Failed? && s.workers[w].attempt < |s.claims|
    ensures Attempts(Reporting(cfg, s, w, s.workers[w], refused))
  {
    hide Attempts, RunId, ShouldDiscardFailedMessage;
    var t := Reporting(cfg, s, w, s.workers[w], refused);
    PhaseAttempts(s, t, w, t.workers[w]);
  }

  lemma AttemptsKept(cfg: Config, s: State, step: Step)
    requires Enabled(cfg, s, step) && Attempts(s) && History(cfg, s)
    ensures Attempts(Apply(cfg, s, step))
  {
    hide Attempts, Lrem, Reporting, Cleaning, Removing;
    assert forall a :: a in s.removed ==> a < |s.claims|;
    hide History;
    match step
    case Claim(w) => ClaimAttempts(s, Apply(cfg, s, step), w);
    case AckOk(w) => RemovingAttempts(s, w, Idle);
    case Clean(w, ok) => CleaningAttempts(s, w, ok);
    case Report(w, refused) => ReportingAttempts(cfg, s, w, refused);
    case _ => AttemptsKeptQuiet(cfg, s, step);
  }

  lemma SameWorkers(s: State, t: State)
    requires Attempts(s) && t.workers == s.workers && t.claims == s.claims && t.removed == s.removed
    requires s.returned == t.returned && Settled(s) == Settled(t)
    ensures Attempts(t)
  {
    hide Settled;
  }

  lemma CleaningAttempts(s: State, w: nat, ok: bool)
    requires Attempts(s) && w in s.workers && s.workers[w].Reported? && s.workers[w].attempt < |s.claims|
    ensures Attempts(Cleaning(s, w, s.workers[w], ok))
  {
    hide Attempts, Lrem;
    var p := s.workers[w];
    var next := if p.failClosed then Down else Idle;
    if p.remove && ok { RemovingAttempts(s, w, next); } else { PhaseAttempts(s, SetPhase(s, w, next), w, next); }
  }

  lemma OneMoreRemoval(s: State, t: State, a: nat, m: string)
    requires t.claims == s.claims && a < |s.claims| && a !in s.removed && t.removed == s.removed + {a}
    ensures |OnMessage(t, t.removed, m)| == |OnMessage(s, s.removed, m)| + if s.claims[a] == m then 1 else 0
  {
    assert OnMessage(t, t.removed, m) == OnMessage(s, s.removed, m) + if s.claims[a] == m then {a} else {};
  }

  lemma RemovingHistory(cfg: Config, s: State, a: nat)
    requires a < |s.claims| && a in Settled(s) && a !in s.removed && History(cfg, s)
    ensures History(cfg, Removing(s, a))
  {
    hide Lrem, RunId, OnMessage;
    var t := Removing(s, a);
    if s.claims[a] in s.processing {
      forall m ensures t.gone[m] == |OnMessage(t, t.removed, m)| { OneMoreRemoval(s, t, a, m); }
    }
  }

  lemma SameHistory(cfg: Config, s: State, t: State)
    requires History(cfg, s) && s.claims <= t.claims && s.removed == t.removed && s.gone == t.gone
    requires Settled(s) <= Settled(t) && forall a :: a in Settled(t) ==> a < |t.claims|
    requires forall a :: a in t.returned ==> cfg.parse(t.claims[a]).Some?
    requires forall a :: a in t.reported + t.discarded ==> RunId(cfg, t.claims[a]) != ""
    ensures History(cfg, t)
  {
    forall m ensures t.gone[m] == |OnMessage(t, t.removed, m)| {
      assert OnMessage(t, t.removed, m) == OnMessage(s, s.removed, m);
    }
  }

  lemma OneMoreReport(cfg: Config, s: State, t: State, more: set<nat>)
    requires History(cfg, s) && t.claims == s.claims && t.removed == s.removed && t.gone == s.gone
    requires t.returned == s.returned && t.reported + t.discarded == s.reported + s.discarded + more
    requires forall a :: a in more ==> a < |s.claims| && RunId(cfg, s.claims[a]) != ""
    ensures History(cfg, t)
  {
    hide RunId, OnMessage;
    assert Settled(t) == Settled(s) + more;
    SameHistory(cfg, s, t);
  }

  lemma ReportingHistory(cfg: Config, s: State, w: nat, refused: Option<Exc>)
    requires Attempts(s) && History(cfg, s) && w in s.workers && s.workers[w].Failed?
    ensures s.workers[w].attempt < |s.claims| && History(cfg, Reporting(cfg, s, w, s.workers[w], refused))
  {
    var (a, t) := (s.workers[w].attempt, Reporting(cfg, s, w, s.workers[w], refused));
    hide ShouldDiscardFailedMessage, RunId, Attempts, History;
    if t.reported == s.reported && t.discarded == s.discarded {
      OneMoreReport(cfg, s, t, {});
    } else {
      OneMoreReport(cfg, s, t, {a});
    }
  }

  lemma CleaningHistory(cfg: Config, s: State, w: nat, ok: bool)
    requires Attempts(s) && History(cfg, s) && w in s.workers && s.workers[w].Reported?
    ensures s.workers[w].attempt < |s.claims| && History(cfg, Cleaning(s, w, s.workers[w], ok))
  {
    hide RunId, OnMessage, Lrem;
    var p := s.workers[w];
    if p.remove && ok { RemovingHistory(cfg, s, p.attempt); }
    SameHistory(cfg, if p.remove && ok then Removing(s, p.attempt) else s, Cleaning(s, w, p, ok));
  }

  lemma HistoryKept(cfg: Config, s: State, step: Step)
    requires Enabled(cfg, s, step) && Attempts(s) && History(cfg, s)
    ensures History(cfg, Apply(cfg, s, step))
  {
    hide RunId, Lrem, OnMessage, Reporting, Cleaning;
    match step
    case AckOk(w) =>
      RemovingHistory(cfg, s, s.workers[w].attempt);
      SameHistory(cfg, Removing(s, s.workers[w].attempt), Apply(cfg, s, step));
    case Clean(w, ok) => CleaningHistory(cfg, s, w, ok);
    case Report(w, refused) => ReportingHistory(cfg, s, w, refused);
    case _ => SameHistory(cfg, s, Apply(cfg, s, step));
  }

  /** Every reachable state satisfies the invariant. */
  lemma {:induction false} InvAlways(cfg: Config, s: State, steps: seq<Step>, t: State)
    requires Inv(cfg, s) && Reaches(cfg, s, steps, t)
    ensures Inv(cfg, t)
    decreases |steps|
  {
    if steps != [] {
      FlowKept(cfg, s, steps[0]);
      AttemptsKept(cfg, s, steps[0]);
      HistoryKept(cfg, s, steps[0]);
      InvAlways(cfg, Apply(cfg, s, steps[0]), steps[1..], t);
    }
  }

  lemma InitialInv(cfg: Config)
    ensures Inv(cfg, Initial)
  {
    forall m ensures Initial.gone[m] == |OnMessage(Initial, Initial.removed, m)| {
      assert OnMessage(Initial, {}, m) == {};
    }
  }

  // ---------------------------------------------------------------------------
  // Safety over whole runs
  // ---------------------------------------------------------------------------

  /** Nothing is lost or invented: every enqueued message is waiting, being processed, or removed. */
  lemma Conservation(cfg: Config, steps: seq<Step>, t: State)
    requires Reaches(cfg, Initial, steps, t)
    ensures t.enqueued == multiset(t.queue) + multiset(t.processing) + t.gone
  {
    InitialInv(cfg);
    InvAlways(cfg, Initial, steps, t);
    forall m ensures t.enqueued[m] == (multiset(t.queue) + multiset(t.processing) + t.gone)[m] {
      assert t.enqueued[m] + t.requeued[m] == Count(t.claims, m) + t.stranded[m] + Count(t.queue, m);
    }
  }

  lemma SubsetCard(a: set<nat>, b: set<nat>)
    requires a <= b
    ensures |a| <= |b|
  {
    assert b == a + (b - a);
  }

  /** No message value is removed more often than attempts on it returned, were reported failed
      or hit the discard rule. */
  lemma RemovalsAreSettled(cfg: Config, steps: seq<Step>, t: State, m: string)
    requires Reaches(cfg, Initial, steps, t)
    ensures t.gone[m] <= |OnMessage(t, Settled(t), m)|
  {
    InitialInv(cfg);
    InvAlways(cfg, Initial, steps, t);
    SubsetCard(OnMessage(t, t.removed, m), OnMessage(t, Settled(t), m));
  }

  /** A message that is not a JSON object is never removed: it stays in one of the two lists. */
  lemma InvalidNeverRemoved(cfg: Config, steps: seq<Step>, t: State, m: string)
    requires Reaches(cfg, Initial, steps, t) && cfg.parse(m).None?
    ensures t.gone[m] == 0 && multiset(t.queue)[m] + multiset(t.processing)[m] == t.enqueued[m]
  {
    InitialInv(cfg);
    InvAlways(cfg, Initial, steps, t);
    Conservation(cfg, steps, t);
    assert OnMessage(t, t.removed, m) == {};
  }

  /** Report exceptions that come from the report request as the worker is wired. */
  ghost predicate Wired(step: Step) {
    step.Report? && step.refused.Some? ==> exists x :: ReportException(x) == step.refused
  }

  /** As wired, the discard rule is dead: only attempts that returned or were reported failed ever
      remove a message. */
  lemma {:induction false} WiredRunsNeverDiscard(cfg: Config, s: State, steps: seq<Step>, t: State)
    requires Reaches(cfg, s, steps, t) && forall i :: 0 <= i < |steps| ==> Wired(steps[i])
    ensures t.discarded == s.discarded
    decreases |steps|
  {
    if steps != [] {
      var step := steps[0];
      if step.Report? && step.refused.Some? {
        var x :| ReportException(x) == step.refused;
        DiscardNeverFires(x);
      }
      WiredRunsNeverDiscard(cfg, Apply(cfg, s, step), steps[1..], t);
    }
  }

  lemma WiredRemovals(cfg: Config, steps: seq<Step>, t: State)
    requires Reaches(cfg, Initial, steps, t) && forall i :: 0 <= i < |steps| ==> Wired(steps[i])
    ensures t.removed <= t.returned + t.reported
  {
    InitialInv(cfg);
    InvAlways(cfg, Initial, steps, t);
    WiredRunsNeverDiscard(cfg, Initial, steps, t);
  }

  // ---------------------------------------------------------------------------
  // The recovery loop
  // ---------------------------------------------------------------------------

  class RedisLists {
    var queue: seq<string>
    var processing: seq<string>

    constructor (queue: seq<string>, processing: seq<string>)
      ensures this.queue == queue && this.processing == processing
    {
      this.queue, this.processing := queue, processing;
    }

    /** RPOPLPUSH from `processing` to `queue`. */
    method RequeueOne() returns (msg: Option<string>)
      modifies this
      ensures old(processing) == [] ==> msg.None? && queue == old(queue) && processing == old(processing)
      ensures old(processing) != [] ==>
                && msg == Some(Last(old(processing)))
                && processing == Front(old(processing)) && queue == [msg.value] + old(queue)
    {
      if processing == [] {
        msg := None;
      } else {
        msg := Some(Last(processing));
        queue, processing := [Last(processing)] + queue, Front(processing);
      }
    }

    /** Requeues until the list is empty, or until the client fails after `budget` moves. Either
        way `processing` followed by `queue` is the same list as before, so nothing is lost or
        duplicated, recovered messages keep their order and waiting ones stay in front of them. */
    method RecoverAll(budget: Option<nat>) returns (recovered: nat)
      modifies this
      ensures processing + queue == old(processing) + old(queue)
      ensures recovered == |old(processing)| - |processing|
      ensures budget.None? ==> processing == [] && queue == old(processing) + old(queue)
      ensures budget.Some? ==> recovered == if budget.value < |old(processing)| then budget.value else |old(processing)|
    {
      recovered := 0;
      while budget.None? || recovered < budget.value
        invariant processing + queue == old(processing) + old(queue)
        invariant recovered + |processing| == |old(processing)|
        invariant budget.Some? ==> recovered <= budget.value
        decreases |processing|
      {
        label before:
        ghost var (p, q) := (processing, queue);
        var msg := RequeueOne();
        if msg.None? {
          break;
        }
        assert Front(p) + ([Last(p)] + q) == p + q;
        recovered := recovered + 1;
      }
    }
  }
}
