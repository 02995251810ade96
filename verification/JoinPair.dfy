/** The join-pair stage: jobs are claimed, checked against their contract, materialized, handed on to
    the next queue and acknowledged whatever came of them. */
module JoinPair {
  import opened Text
  import opened ReliableQueue

  // ---------------------------------------------------------------------------
  // Payloads and their contract
  // ---------------------------------------------------------------------------

  /** A join key as written: an object with two attributes, or something else. */
  datatype RawPair = RawPair(left: string, right: string) | NotAPair

  datatype KeyPair = KeyPair(left: string, right: string)

  /** A source is the text of its `data_object_version_id`, or `None` when it is not an object. */
  datatype Materialization = Materialization(
    left: Option<string>,
    right: Option<string>,
    pairs: seq<RawPair>,
    keys: seq<string>,
    joinType: string)

  /** The payload to hand on: its queue key as written and its serialized text. */
  datatype Next = Next(queueKey: string, text: string)

  datatype Payload = Payload(
    runId: string,
    messageId: string,
    shape: string,
    materialization: Option<Materialization>,
    next: Option<Next>)

  function RunIdOf(p: Payload): (r: string) { Strip(if p.runId != "" then p.runId else p.messageId) }

  /** The pairs of which both attributes are named. */
  function NamedPairs(raw: seq<RawPair>): (r: seq<KeyPair>) {
    if raw == [] then [] else NamedPairs(raw[..|raw| - 1]) + Named(raw[|raw| - 1])
  }

  function Named(x: RawPair): (r: seq<KeyPair>) {
    if x.RawPair? && Strip(x.left) != "" && Strip(x.right) != "" then [KeyPair(Strip(x.left), Strip(x.right))] else []
  }

  function NamedKeys(raw: seq<string>): (r: seq<KeyPair>) {
    if raw == [] then []
    else NamedKeys(raw[..|raw| - 1]) + Named(RawPair(raw[|raw| - 1], raw[|raw| - 1]))
  }

  /** Plain join keys count only when no pair is named. */
  function JoinKeys(m: Materialization): (r: seq<KeyPair>) {
    if NamedPairs(m.pairs) != [] then NamedPairs(m.pairs) else NamedKeys(m.keys)
  }

  lemma NextPair(raw: seq<RawPair>, i: nat)
    requires i < |raw|
    ensures NamedPairs(raw[..i + 1]) == NamedPairs(raw[..i]) + Named(raw[i])
  {
    assert raw[..i + 1][..i] == raw[..i];
  }

  lemma NextKey(raw: seq<string>, i: nat)
    requires i < |raw|
    ensures NamedKeys(raw[..i + 1]) == NamedKeys(raw[..i]) + Named(RawPair(raw[i], raw[i]))
  {
    assert raw[..i + 1][..i] == raw[..i];
  }

  method CollectPairs(raw: seq<RawPair>) returns (pairs: seq<KeyPair>)
    ensures pairs == NamedPairs(raw)
  {
    pairs := [];
    assert raw[..0] == [];
    for i := 0 to |raw|
      invariant pairs == NamedPairs(raw[..i])
    {
      NextPair(raw, i);
      hide NamedPairs, Strip;
      if raw[i].RawPair? {
        var (left, right) := (Strip(raw[i].left), Strip(raw[i].right));
        if left != "" && right != "" {
          pairs := pairs + [KeyPair(left, right)];
        }
      }
    }
    assert raw[..|raw|] == raw;
  }

  method CollectKeys(raw: seq<string>) returns (pairs: seq<KeyPair>)
    ensures pairs == NamedKeys(raw)
  {
    pairs := [];
    assert raw[..0] == [];
    for i := 0 to |raw|
      invariant pairs == NamedKeys(raw[..i])
    {
      NextKey(raw, i);
      hide NamedKeys, Strip;
      var attribute := Strip(raw[i]);
      if attribute != "" {
        pairs := pairs + [KeyPair(attribute, attribute)];
      }
    }
    assert raw[..|raw|] == raw;
  }

  method RequireMapping(m: Materialization) returns (r: Result<seq<KeyPair>>)
    ensures r == if JoinKeys(m) != [] then Ok(JoinKeys(m)) else Err("GX_JOIN_PAIR_ETL_INVALID_CONTRACT")
  {
    var pairs := CollectPairs(m.pairs);
    if pairs != [] {
      return Ok(pairs);
    }
    pairs := CollectKeys(m.keys);
    r := if pairs != [] then Ok(pairs) else Err("GX_JOIN_PAIR_ETL_INVALID_CONTRACT");
  }

  function ResolveJoinType(joinType: string): (r: Result<string>) {
    var normalized := LowerCase(Strip(if joinType != "" then joinType else "inner"));
    if normalized in ["inner", "left", "right"] then Ok(normalized)
    else if normalized in ["full", "outer"] then Ok("outer")
    else Err("GX_JOIN_PAIR_ETL_INVALID_CONTRACT")
  }

  /** Everything the stage asks of a payload. */
  predicate ContractHolds(p: Payload) {
    && RunIdOf(p) != "" && Strip(p.shape) == "join_pair"
    && p.materialization.Some? && p.next.Some? && Strip(p.next.value.queueKey) != ""
    && SourcesNamed(p.materialization.value)
    && JoinKeys(p.materialization.value) != [] && ResolveJoinType(p.materialization.value.joinType).Ok?
  }

  predicate SourcesNamed(m: Materialization) {
    && m.left.Some? && m.right.Some?
    && Strip(m.left.value) != "" && Strip(m.right.value) != ""
  }

  /** The checks made before anything is started, in order, with the failure code of the first that
      fails. */
  function EarlyFailure(p: Payload): (code: Option<string>) {
    if RunIdOf(p) == "" then Some("GX_JOIN_PAIR_ETL_INVALID_PAYLOAD")
    else if Strip(p.shape) != "join_pair" then Some("GX_JOIN_PAIR_ETL_INVALID_PAYLOAD")
    else if p.materialization.None? then Some("GX_JOIN_PAIR_ETL_INVALID_CONTRACT")
    else if p.next.None? then Some("GX_JOIN_PAIR_ETL_INVALID_PAYLOAD")
    else if Strip(p.next.value.queueKey) == "" then Some("GX_JOIN_PAIR_ETL_INVALID_PAYLOAD")
    else if p.materialization.value.left.None? || p.materialization.value.right.None? then
      Some("GX_JOIN_PAIR_ETL_INVALID_CONTRACT")
    else if !SourcesNamed(p.materialization.value) then Some("GX_JOIN_PAIR_ETL_INVALID_CONTRACT")
    else None
  }

  /** The early checks cover the contract except for the join keys and the join type, and blame the
      payload rather than the contract exactly for a missing run, shape or next dispatch. */
  lemma EarlyMeaning(p: Payload)
    ensures ContractHolds(p) <==>
            && EarlyFailure(p).None?
            && JoinKeys(p.materialization.value) != [] && ResolveJoinType(p.materialization.value.joinType).Ok?
    ensures EarlyFailure(p).Some? ==>
              EarlyFailure(p).value in ["GX_JOIN_PAIR_ETL_INVALID_PAYLOAD", "GX_JOIN_PAIR_ETL_INVALID_CONTRACT"]
    ensures EarlyFailure(p) == Some("GX_JOIN_PAIR_ETL_INVALID_PAYLOAD") <==>
            || RunIdOf(p) == "" || Strip(p.shape) != "join_pair"
            || (p.materialization.Some? && (p.next.None? || Strip(p.next.value.queueKey) == ""))
  {
    hide Strip, JoinKeys, ResolveJoinType, RunIdOf;
    var (payload, contract) := ("GX_JOIN_PAIR_ETL_INVALID_PAYLOAD", "GX_JOIN_PAIR_ETL_INVALID_CONTRACT");
    assert payload[25] != contract[25];
  }

  // ---------------------------------------------------------------------------
  // What the surroundings do in one iteration
  // ---------------------------------------------------------------------------

  /** Which of the external actions of one iteration succeed. `read` holds the columns of the two
      datasets. An action that fails has no effect on the lists. A process that dies in the middle of
      a turn is a world in which none of the later actions succeeds, the acknowledgement included; the
      next turn is then the first one of its successor, since there is no recovery. */
  datatype World = World(
    arrivals: seq<string>,
    started: bool,
    resolved: bool,
    target: bool,
    session: bool,
    progressed: bool,
    read: Option<(seq<string>, seq<string>)>,
    write: bool,
    stop: bool,
    push: bool,
    completed: bool,
    report: bool,
    ack: bool)

  predicate KeysExist(keys: seq<KeyPair>, columns: (seq<string>, seq<string>)) {
    forall i :: 0 <= i < |keys| ==> keys[i].left in columns.0 && keys[i].right in columns.1
  }

  /** The joined dataset can be built. */
  predicate Joins(p: Payload, w: World) {
    && ContractHolds(p)
    && w.started && w.resolved && w.target && w.session && w.progressed
    && w.read.Some? && KeysExist(JoinKeys(p.materialization.value), w.read.value)
  }

  /** It is built and stored. */
  predicate Writes(p: Payload, w: World) { Joins(p, w) && w.write }

  predicate Pushes(p: Payload, w: World) { Writes(p, w) && w.stop && w.push }

  datatype Push = Push(queueKey: string, text: string)

  function PushOf(p: Payload): (r: Push)
    requires ContractHolds(p)
  {
    Push(Strip(p.next.value.queueKey), p.next.value.text)
  }

  /** Everything a job and its turn need so that its payload is handed on, said without the checks. */
  ghost predicate Delivers(p: Payload, w: World) {
    && Strip(if p.runId != "" then p.runId else p.messageId) != "" && Strip(p.shape) == "join_pair"
    && p.next.Some? && Strip(p.next.value.queueKey) != ""
    && p.materialization.Some? && MaterializationGood(p.materialization.value, w)
    && w.started && w.resolved && w.target && w.session && w.progressed && w.write && w.stop && w.push
  }

  /** Both sources are named, the join type is one of five, there are join keys, and each is a column of
      its dataset. */
  ghost predicate MaterializationGood(m: Materialization, w: World) {
    && m.left.Some? && Strip(m.left.value) != "" && m.right.Some? && Strip(m.right.value) != ""
    && (m.joinType == "" || LowerCase(Strip(m.joinType)) in ["inner", "left", "right", "full", "outer"])
    && JoinKeys(m) != [] && w.read.Some?
    && forall key :: key in JoinKeys(m) ==> key.left in w.read.value.0 && key.right in w.read.value.1
  }

  lemma MaterializationChecks(m: Materialization, w: World)
    requires w.read.Some?
    ensures MaterializationGood(m, w) <==>
            && SourcesNamed(m) && JoinKeys(m) != [] && ResolveJoinType(m.joinType).Ok?
            && KeysExist(JoinKeys(m), w.read.value)
  {
    JoinTypeExactly(m.joinType);
    hide ResolveJoinType, JoinKeys, Strip, LowerCase;
  }

  /** The spelling of a join type does not matter; "full" is "outer" and a missing one is "inner". */
  lemma JoinTypeExactly(joinType: string)
    ensures ResolveJoinType(joinType).Ok? <==>
            joinType == "" || LowerCase(Strip(joinType)) in ["inner", "left", "right", "full", "outer"]
    ensures joinType == "" ==> ResolveJoinType(joinType) == Ok("inner")
    ensures joinType != "" && LowerCase(Strip(joinType)) in ["inner", "left", "right"] ==>
              ResolveJoinType(joinType) == Ok(LowerCase(Strip(joinType)))
    ensures joinType != "" && LowerCase(Strip(joinType)) in ["full", "outer"] ==>
              ResolveJoinType(joinType) == Ok("outer")
  {
    if joinType == "" {
      StripAround("", "inner", "");
      assert "" + "inner" + "" == "inner";
      assert LowerCase("inner") == "inner";
    }
    hide Strip, LowerCase;
  }

  /** A job adds exactly its own next payload, under the trimmed queue key, and exactly when the job and
      its turn meet all that is asked. */
  lemma DeliveredExactly(parse: string -> Option<Payload>, raw: string, w: World)
    ensures raw != "" && parse(raw).Some? && Delivers(parse(raw).value, w) ==>
              var next := parse(raw).value.next.value;
              Delivered(parse, raw, w) == [Push(Strip(next.queueKey), next.text)]
    ensures raw == "" || parse(raw).None? || !Delivers(parse(raw).value, w) ==> Delivered(parse, raw, w) == []
  {
    if parse(raw).Some? && parse(raw).value.materialization.Some? && w.read.Some? {
      MaterializationChecks(parse(raw).value.materialization.value, w);
    }
    hide Strip, JoinKeys, ResolveJoinType, KeysExist, MaterializationGood, SourcesNamed;
  }

  /** What one job adds to the payloads handed on. The empty text is not processed at all. */
  function Delivered(parse: string -> Option<Payload>, raw: string, w: World): (r: seq<Push>) {
    if raw != "" && parse(raw).Some? && Pushes(parse(raw).value, w) then [PushOf(parse(raw).value)] else []
  }

  /** A failure is reported for a job that names a run and did not get through. That includes a job
      whose payload was handed on and only whose last progress report failed. */
  predicate ReportsFailure(parse: string -> Option<Payload>, raw: string, w: World) {
    Reportable(parse, raw, w) && !Succeeds(parse, raw, w)
  }

  predicate Reportable(parse: string -> Option<Payload>, raw: string, w: World) {
    parse(raw).Some? && RunIdOf(parse(raw).value) != "" && w.report
  }

  predicate Succeeds(parse: string -> Option<Payload>, raw: string, w: World) {
    parse(raw).Some? && Pushes(parse(raw).value, w) && w.completed
  }

  /** A failure is reported for a job that names a run, unless everything went through. */
  lemma ReportsExactly(parse: string -> Option<Payload>, raw: string, w: World)
    ensures ReportsFailure(parse, raw, w) <==>
            && parse(raw).Some? && w.report && !(Delivers(parse(raw).value, w) && w.completed)
            && Strip(if parse(raw).value.runId != "" then parse(raw).value.runId else parse(raw).value.messageId) != ""
  {
    if parse(raw).Some? && parse(raw).value.materialization.Some? && w.read.Some? {
      MaterializationChecks(parse(raw).value.materialization.value, w);
    }
    hide Strip, JoinKeys, ResolveJoinType, KeysExist, MaterializationGood, SourcesNamed;
  }

  // ---------------------------------------------------------------------------
  // History
  // ---------------------------------------------------------------------------

  /** What was done for attempt `attempt`, the one of `turns[attempt]`. */
  datatype Event = Written(attempt: nat) | Pushed(attempt: nat, push: Push)

  /** A claimed job and what the surroundings did in its turn. */
  datatype Turn = Turn(raw: string, world: World)

  function Raws(turns: seq<Turn>): (r: seq<string>)
    ensures |r| == |turns|
  {
    seq(|turns|, i requires 0 <= i < |turns| => turns[i].raw)
  }

  /** The job meets its contract, and everything up to and including the write succeeded. */
  predicate Stored(parse: string -> Option<Payload>, t: Turn) {
    parse(t.raw).Some? && Writes(parse(t.raw).value, t.world)
  }

  /** The pushed payload is the next payload of a job whose turn succeeded up to the push. */
  predicate Justified(parse: string -> Option<Payload>, t: Turn, push: Push) {
    parse(t.raw).Some? && Pushes(parse(t.raw).value, t.world) && push == PushOf(parse(t.raw).value)
  }

  /** A write is recorded only where one happened; every push is justified by its turn and comes
      after the recorded write of the job's output; the pushing attempts strictly increase. */
  ghost predicate StageHistory(parse: string -> Option<Payload>, turns: seq<Turn>, log: seq<Event>) {
    && (forall i :: 0 <= i < |log| ==> log[i].attempt < |turns|)
    && (forall i :: 0 <= i < |log| && log[i].Written? ==> Stored(parse, turns[log[i].attempt]))
    && (forall i :: 0 <= i < |log| && log[i].Pushed? ==>
          Justified(parse, turns[log[i].attempt], log[i].push) && Written(log[i].attempt) in log[..i])
    && (forall i, j :: 0 <= i < j < |log| && log[i].Pushed? && log[j].Pushed? ==> log[i].attempt < log[j].attempt)
  }

  /** No push of attempt `a` yet. */
  ghost predicate Unpushed(log: seq<Event>, a: nat) {
    forall i :: 0 <= i < |log| && log[i].Pushed? ==> log[i].attempt < a
  }

  lemma HistoryClaim(parse: string -> Option<Payload>, turns: seq<Turn>, log: seq<Event>, t: Turn)
    requires StageHistory(parse, turns, log)
    ensures StageHistory(parse, turns + [t], log) && Unpushed(log, |turns|)
  {
    hide Justified, Stored;
  }

  lemma HistoryWrite(parse: string -> Option<Payload>, turns: seq<Turn>, log: seq<Event>, a: nat)
    requires StageHistory(parse, turns, log) && a < |turns| && Stored(parse, turns[a]) && Unpushed(log, a)
    ensures StageHistory(parse, turns, log + [Written(a)]) && Unpushed(log + [Written(a)], a)
    ensures PushesOf(log + [Written(a)]) == PushesOf(log)
  {
    hide Justified, Stored;
    forall i | 0 <= i < |log| ensures (log + [Written(a)])[..i] == log[..i] {}
    PushesOfStep(log, Written(a));
  }

  lemma HistoryPush(parse: string -> Option<Payload>, turns: seq<Turn>, log: seq<Event>, a: nat, push: Push)
    requires StageHistory(parse, turns, log) && Unpushed(log, a) && a < |turns| && Justified(parse, turns[a], push)
    requires Written(a) in log
    ensures StageHistory(parse, turns, log + [Pushed(a, push)])
    ensures PushesOf(log + [Pushed(a, push)]) == PushesOf(log) + [push]
  {
    hide Justified, Stored;
    var all := log + [Pushed(a, push)];
    forall i | 0 <= i < |log| ensures all[..i] == log[..i] && all[i] == log[i] {}
    assert all[..|log|] == log;
    PushesOfStep(log, Pushed(a, push));
  }

  function PushesOf(log: seq<Event>): (r: seq<Push>) {
    if log == [] then []
    else
      var e := log[|log| - 1];
      PushesOf(log[..|log| - 1]) + if e.Pushed? then [e.push] else []
  }

  lemma PushesOfStep(log: seq<Event>, e: Event)
    ensures PushesOf(log + [e]) == PushesOf(log) + if e.Pushed? then [e.push] else []
  {
    assert (log + [e])[..|log|] == log;
  }

  lemma HistoryPrefix(parse: string -> Option<Payload>, turns: seq<Turn>, log: seq<Event>)
    requires StageHistory(parse, turns, log) && log != []
    ensures StageHistory(parse, turns, log[..|log| - 1])
  {
    hide Justified, Stored;
    var front := log[..|log| - 1];
    forall i | 0 <= i < |front| ensures front[..i] == log[..i] && front[i] == log[i] {}
  }

  /** No more pushes than claims. */
  lemma PushesBounded(parse: string -> Option<Payload>, turns: seq<Turn>, log: seq<Event>)
    requires StageHistory(parse, turns, log)
    ensures |PushesOf(log)| <= |turns|
  {
    PushesUpTo(parse, turns, log, |turns|);
  }

  lemma {:induction false} PushesUpTo(parse: string -> Option<Payload>, turns: seq<Turn>, log: seq<Event>, bound: nat)
    requires StageHistory(parse, turns, log) && Unpushed(log, bound)
    ensures |PushesOf(log)| <= bound
  {
    if log != [] {
      HistoryPrefix(parse, turns, log);
      hide Justified, Stored;
      var (front, e) := (log[..|log| - 1], log[|log| - 1]);
      if e.Pushed? {
        PushesUpTo(parse, turns, front, e.attempt);
      } else {
        PushesUpTo(parse, turns, front, bound);
      }
    }
  }

  /** `log[i]` hands on `push`: the next payload of a job claimed before, which met its contract and
      whose output had been written, as its turn says and as the log records before the push. */
  ghost predicate Origin(parse: string -> Option<Payload>, turns: seq<Turn>, log: seq<Event>, i: nat, push: Push) {
    && i < |log| && log[i].Pushed? && log[i].push == push
    && log[i].attempt < |turns| && Justified(parse, turns[log[i].attempt], push)
    && Written(log[i].attempt) in log[..i] && Stored(parse, turns[log[i].attempt])
  }

  lemma {:induction false} PushOrigin(parse: string -> Option<Payload>, turns: seq<Turn>, log: seq<Event>, k: nat)
    requires StageHistory(parse, turns, log) && k < |PushesOf(log)|
    ensures exists i: nat :: Origin(parse, turns, log, i, PushesOf(log)[k])
  {
    var front := log[..|log| - 1];
    if k < |PushesOf(front)| {
      HistoryPrefix(parse, turns, log);
      PushOrigin(parse, turns, front, k);
      assert PushesOf(log)[k] == PushesOf(front)[k];
      hide StageHistory, PushesOf, Origin;
      var i: nat :| Origin(parse, turns, front, i, PushesOf(front)[k]);
      OriginStays(parse, turns, log, i, PushesOf(front)[k]);
    } else {
      var e := log[|log| - 1];
      assert e.Pushed? && e.push == PushesOf(log)[k];
      hide PushesOf;
      LastOrigin(parse, turns, log);
    }
  }

  lemma OriginStays(parse: string -> Option<Payload>, turns: seq<Turn>, log: seq<Event>, i: nat, push: Push)
    requires log != [] && Origin(parse, turns, log[..|log| - 1], i, push)
    ensures Origin(parse, turns, log, i, push)
  {
    hide Justified, Stored;
    var front := log[..|log| - 1];
    assert log[i] == front[i] && log[..i] == front[..i];
  }

  lemma LastOrigin(parse: string -> Option<Payload>, turns: seq<Turn>, log: seq<Event>)
    requires StageHistory(parse, turns, log) && log != [] && log[|log| - 1].Pushed?
    ensures Origin(parse, turns, log, |log| - 1, log[|log| - 1].push)
  {
    hide Justified, Stored;
    var last := |log| - 1;
    assert Written(log[last].attempt) in log[..last];
    var j :| 0 <= j < last && log[..last][j] == Written(log[last].attempt);
    assert log[j] == Written(log[last].attempt);
  }

  lemma NothingYet(parse: string -> Option<Payload>)
    ensures StageHistory(parse, [], []) && PushesOf([]) == [] && Raws([]) == []
    ensures Unacked([], {}) == [] && Reversed([]) == []
  {
  }

  /** What a sequence of turns hands on, read off the turns alone. */
  function AllDelivered(parse: string -> Option<Payload>, turns: seq<Turn>): (r: seq<Push>) {
    if turns == [] then []
    else
      var t := turns[|turns| - 1];
      AllDelivered(parse, turns[..|turns| - 1]) + Delivered(parse, t.raw, t.world)
  }

  lemma DeliveredStep(parse: string -> Option<Payload>, turns: seq<Turn>, t: Turn)
    ensures AllDelivered(parse, turns + [t]) == AllDelivered(parse, turns) + Delivered(parse, t.raw, t.world)
  {
    assert (turns + [t])[..|turns|] == turns;
  }

  // ---------------------------------------------------------------------------
  // The lists
  // ---------------------------------------------------------------------------

  function Reversed(q: seq<string>): (r: seq<string>)
    ensures |r| == |q|
  {
    if q == [] then [] else Reversed(q[1..]) + [q[0]]
  }

  lemma QueueGrows(claims: seq<string>, queue: seq<string>, job: string)
    ensures claims + Reversed([job] + queue) == claims + Reversed(queue) + [job]
  {
    assert ([job] + queue)[1..] == queue;
  }

  lemma {:induction false} ReversedLast(q: seq<string>)
    requires q != []
    ensures Reversed(q) == [Last(q)] + Reversed(Front(q))
  {
    if |q| > 1 {
      ReversedLast(q[1..]);
      assert Last(q[1..]) == Last(q) && Front(q[1..]) == Front(q)[1..];
    }
  }

  /** The claimed jobs that were not acknowledged, newest first. */
  function Unacked(claims: seq<string>, acked: set<nat>): (r: seq<string>) {
    if claims == [] then []
    else (if |claims| - 1 in acked then [] else [Last(claims)]) + Unacked(Front(claims), acked)
  }

  lemma {:induction false} UnackedFrame(claims: seq<string>, acked: set<nat>, a: nat)
    requires a >= |claims|
    ensures Unacked(claims, acked + {a}) == Unacked(claims, acked)
  {
    if claims != [] { UnackedFrame(Front(claims), acked, a); }
  }

  /** Acknowledging the newest claim takes the head off `processing`. */
  lemma UnackedNewest(claims: seq<string>, acked: set<nat>)
    requires claims != [] && |claims| - 1 !in acked
    ensures var (before, after) := (Unacked(claims, acked), Unacked(claims, acked + {|claims| - 1}));
            before == [Last(claims)] + after && Lrem(before, Last(claims)) == after
  {
    UnackedFrame(Front(claims), acked, |claims| - 1);
  }

  lemma UnackedStep(claims: seq<string>, acked: set<nat>, raw: string)
    ensures Unacked(claims + [raw], acked) == (if |claims| in acked then [] else [raw]) + Unacked(claims, acked)
  {
    assert Front(claims + [raw]) == claims;
  }

  // ---------------------------------------------------------------------------
  // The worker
  // ---------------------------------------------------------------------------

  /** The two lists of the stage (head first) and the payloads handed on, in order, with the history
      of the run: jobs in arrival order, turns in claim order, events, attempts acknowledged and attempts
      reported failed. */
  class Stage {
    const parse: string -> Option<Payload>
    var queue: seq<string>
    var processing: seq<string>
    var downstream: seq<Push>
    ghost var enqueued: seq<string>
    ghost var turns: seq<Turn>
    ghost var log: seq<Event>
    ghost var acked: set<nat>
    ghost var reported: set<nat>

    ghost function Claims(): (r: seq<string>)
      reads this`turns
      ensures |r| == |turns|
    {
      Raws(turns)
    }

    /** Jobs are claimed once each, in arrival order; `processing` holds exactly the claimed jobs that
        were not acknowledged; what was handed on is what the history justifies. */
    ghost predicate Valid()
      reads this
    {
      Lists() && Records()
    }

    ghost predicate Lists()
      reads this`queue, this`processing, this`enqueued, this`turns, this`acked, this`reported
    {
      && enqueued == Claims() + Reversed(queue)
      && processing == Unacked(Claims(), acked) && (forall a :: a in acked ==> a < |turns|)
      && (forall a :: a in reported ==> a < |turns|)
    }

    ghost predicate Records()
      reads this`downstream, this`turns, this`log
    {
      StageHistory(parse, turns, log) && downstream == PushesOf(log)
    }

    /** The turn under way: the newest claim, with no push of its own yet. */
    ghost predicate Working(raw: string, w: World)
      reads this`turns, this`log
    {
      turns != [] && turns[|turns| - 1] == Turn(raw, w) && Unpushed(log, |turns| - 1)
    }

    lemma Waiting()
      requires Valid()
      ensures |turns| <= |enqueued| && (queue == [] <==> |enqueued| == |turns|)
    {
      hide Unacked, Records;
    }

    constructor (parse: string -> Option<Payload>)
      ensures Valid() && this.parse == parse && enqueued == [] && turns == [] && downstream == []
    {
      this.parse, queue, processing, downstream := parse, [], [], [];
      enqueued, turns, log, acked, reported := [], [], [], {}, {};
      new;
      NothingYet(parse);
      hide StageHistory, PushesOf, Unacked, Reversed, Raws;
    }

    method Enqueue(job: string)
      requires Valid()
      modifies this`queue, this`enqueued
      ensures Valid() && queue == [job] + old(queue) && enqueued == old(enqueued) + [job]
    {
      hide Records, Unacked, Reversed, Raws;
      QueueGrows(Claims(), queue, job);
      queue, enqueued := [job] + queue, enqueued + [job];
    }

    method EnqueueAll(jobs: seq<string>)
      requires Valid()
      modifies this`queue, this`enqueued
      ensures Valid() && enqueued == old(enqueued) + jobs
      ensures |turns| <= |enqueued| && (queue == [] <==> |enqueued| == |turns|)
    {
      hide Valid;
      for i := 0 to |jobs|
        invariant Valid() && enqueued == old(enqueued) + jobs[..i]
      {
        assert jobs[..i + 1] == jobs[..i] + [jobs[i]];
        Enqueue(jobs[i]);
      }
      assert jobs[..|jobs|] == jobs;
      Waiting();
    }

    /** BRPOPLPUSH: the job that arrived first. */
    method Claim(w: World) returns (raw: string)
      requires Valid() && queue != []
      modifies this`queue, this`processing, this`turns
      ensures Valid() && Working(raw, w) && queue == Front(old(queue))
      ensures processing == [raw] + old(processing) && turns == old(turns) + [Turn(raw, w)]
      ensures |old(turns)| !in acked && |old(turns)| !in reported
      ensures |old(turns)| < |enqueued| && raw == enqueued[|old(turns)|]
    {
      raw := Last(queue);
      ghost var t := Turn(raw, w);
      ReversedLast(queue);
      HistoryClaim(parse, turns, log, t);
      UnackedStep(Claims(), acked, raw);
      assert Raws(turns + [t]) == Claims() + [raw];
      hide StageHistory, PushesOf, Unacked, Reversed, Raws;
      assert Claims() + ([raw] + Reversed(Front(queue))) == (Claims() + [raw]) + Reversed(Front(queue));
      queue, processing, turns := Front(queue), [raw] + processing, turns + [t];
    }

    /** LREM of the newest claim, which is at the head of `processing`. */
    method Acknowledge(raw: string)
      requires Valid() && turns != [] && turns[|turns| - 1].raw == raw && |turns| - 1 !in acked
      modifies this`processing, this`acked
      ensures Valid() && acked == old(acked) + {|turns| - 1}
      ensures old(processing) != [] && processing == old(processing)[1..]
    {
      UnackedNewest(Claims(), acked);
      assert Last(Claims()) == raw;
      hide Records, Unacked, Lrem, Raws;
      processing, acked := Lrem(processing, raw), acked + {|turns| - 1};
    }

    /** The write of the joined dataset; it is recorded exactly when it succeeds. */
    method WriteJoined(p: Payload, raw: string, w: World) returns (ok: bool)
      requires Valid() && Working(raw, w) && parse(raw) == Some(p) && Joins(p, w)
      modifies this`log
      ensures Valid() && Working(raw, w) && ok == w.write
      ensures log == old(log) + if w.write then [Written(|turns| - 1)] else []
    {
      hide Lists, StageHistory, PushesOf, Unpushed, Joins;
      if w.write {
        HistoryWrite(parse, turns, log, |turns| - 1);
        log := log + [Written(|turns| - 1)];
      }
      ok := w.write;
    }

    /** The part of a job inside the Spark session. */
    method JoinAndWrite(p: Payload, raw: string, w: World) returns (r: Result<()>)
      requires Valid() && Working(raw, w) && parse(raw) == Some(p) && EarlyFailure(p).None?
      requires w.started && w.resolved && w.target && w.session
      modifies this`log
      ensures Valid() && Working(raw, w)
      ensures r.Ok? <==> Writes(p, w)
      ensures log == old(log) + if r.Ok? then [Written(|turns| - 1)] else []
    {
      hide Valid, Working, EarlyFailure, Joins;
      var built := BuildJoined(p, w);
      if built.Err? {
        return Err(built.message);
      }
      var ok := WriteJoined(p, raw, w);
      r := if ok then Ok(()) else Err("GX_WORKER_FAILED");
    }

    /** A recorded write happened. */
    lemma WrittenMeansStored(p: Payload, raw: string, w: World)
      requires Valid() && Working(raw, w) && parse(raw) == Some(p) && Written(|turns| - 1) in log
      ensures Writes(p, w)
    {
      hide Lists, PushesOf, Unpushed, Joins;
    }

    method PushNext(next: Push, raw: string, w: World)
      requires Valid() && Working(raw, w) && Written(|turns| - 1) in log && Justified(parse, Turn(raw, w), next)
      modifies this`downstream, this`log
      ensures Valid() && downstream == old(downstream) + [next]
    {
      hide Lists, Justified, StageHistory, PushesOf, Unpushed;
      HistoryPush(parse, turns, log, |turns| - 1, next);
      downstream, log := downstream + [next], log + [Pushed(|turns| - 1, next)];
    }

    /** Hands the next payload on after the write, once the Spark session is stopped. */
    method HandOn(p: Payload, raw: string, w: World) returns (ok: bool)
      requires Valid() && Working(raw, w) && parse(raw) == Some(p) && Written(|turns| - 1) in log
      modifies this`downstream, this`log
      ensures Valid() && Writes(p, w) && ok == (w.stop && w.push && w.completed)
      ensures downstream == old(downstream) + if w.stop && w.push then [PushOf(p)] else []
    {
      hide Valid, Working, ContractHolds, KeysExist, PushOf;
      WrittenMeansStored(p, raw, w);
      if !w.stop || !w.push {
        return false;
      }
      PushNext(PushOf(p), raw, w);
      ok := w.completed;
    }

    /** Succeeds iff the contract holds and every external action succeeds. A payload is handed on
        exactly when everything up to the push succeeds, hence also when only the last progress
        report fails. */
    method ProcessJob(raw: string, w: World) returns (r: Result<()>)
      requires Valid() && Working(raw, w) && raw != ""
      modifies this`downstream, this`log
      ensures Valid()
      ensures r.Ok? <==> Succeeds(parse, raw, w)
      ensures downstream == old(downstream) + Delivered(parse, raw, w)
      ensures parse(raw).None? ==> r == Err("DQ_DISPATCH_INVALID_JSON")
      ensures parse(raw).Some? && EarlyFailure(parse(raw).value).Some? ==>
                r == Err(EarlyFailure(parse(raw).value).value)
    {
      hide Valid, Working, ContractHolds, EarlyFailure, KeysExist;
      if parse(raw).None? {
        return Err("DQ_DISPATCH_INVALID_JSON");
      }
      var p := parse(raw).value;
      EarlyMeaning(p);
      if EarlyFailure(p).Some? {
        return Err(EarlyFailure(p).value);
      }
      if !w.started || !w.resolved || !w.target || !w.session {
        return Err("GX_WORKER_FAILED");
      }
      var joined := JoinAndWrite(p, raw, w);
      if joined.Err? {
        return Err(joined.message);
      }
      hide PushOf;
      var ok := HandOn(p, raw, w);
      r := if ok then Ok(()) else Err("GX_WORKER_FAILED");
    }

    /** Reports the failure of a job that names a run; what the report does is not looked at. */
    method ReportFailure(raw: string, w: World)
      requires Valid() && turns != []
      modifies this`reported
      ensures Valid()
      ensures reported == old(reported) + if Reportable(parse, raw, w) then {|turns| - 1} else {}
    {
      hide Unacked, Reversed, Records, RunIdOf, Raws;
      if parse(raw).Some? && RunIdOf(parse(raw).value) != "" && w.report {
        reported := reported + {|turns| - 1};
      }
    }

    /** One turn of the loop. A job leaves `processing` in the turn that claimed it, whatever came of
        it, iff it is not the empty text and the acknowledgement goes through. */
    method RunIteration(w: World)
      requires Valid()
      modifies this
      ensures Valid() && enqueued == old(enqueued) + w.arrivals
      ensures |enqueued| == |old(turns)| ==>
                turns == old(turns) && processing == old(processing) && downstream == old(downstream)
      ensures |enqueued| > |old(turns)| ==>
                var raw := enqueued[|old(turns)|];
                && turns == old(turns) + [Turn(raw, w)]
                && processing == (if raw != "" && w.ack then [] else [raw]) + old(processing)
                && downstream == old(downstream) + Delivered(parse, raw, w)
                && (|old(turns)| in reported <==> raw != "" && ReportsFailure(parse, raw, w))
    {
      NothingDelivered(parse, w);
      hide Valid, Delivered, ReportsFailure, Working;
      EnqueueAll(w.arrivals);
      if queue == [] {
        return;
      }
      var raw := Claim(w);
      if raw == "" {
        return;
      }
      FinishTurn(raw, w);
    }

    /** The rest of the turn once a job is claimed. */
    method FinishTurn(raw: string, w: World)
      requires Valid() && Working(raw, w) && raw != "" && |turns| - 1 !in acked && |turns| - 1 !in reported
      modifies this`processing, this`downstream, this`log, this`acked, this`reported
      ensures Valid()
      ensures if w.ack then old(processing) != [] && processing == old(processing)[1..]
              else processing == old(processing)
      ensures downstream == old(downstream) + Delivered(parse, raw, w)
      ensures |turns| - 1 in reported <==> ReportsFailure(parse, raw, w)
    {
      hide Valid, Delivered, Reportable, Succeeds, Unpushed, EarlyFailure;
      var r := ProcessJob(raw, w);
      if r.Err? {
        ReportFailure(raw, w);
      }
      if w.ack {
        Acknowledge(raw);
      }
    }
  }

  lemma NothingDelivered(parse: string -> Option<Payload>, w: World)
    ensures Delivered(parse, "", w) == []
  {
  }

  /** The joined dataset is built iff the contract holds, the steps up to there succeed and every join
      key is a column of its dataset. */
  method BuildJoined(p: Payload, w: World) returns (r: Result<seq<KeyPair>>)
    requires EarlyFailure(p).None?
    requires w.started && w.resolved && w.target && w.session
    ensures r.Ok? <==> Joins(p, w)
  {
    if !w.progressed {
      return Err("GX_WORKER_FAILED");
    }
    var keys := RequireMapping(p.materialization.value);
    if keys.Err? {
      return keys;
    }
    var joinType := ResolveJoinType(p.materialization.value.joinType);
    if joinType.Err? {
      return Err(joinType.message);
    }
    if w.read.None? {
      return Err("GX_WORKER_FAILED");
    }
    r := if KeysExist(keys.value, w.read.value) then keys else Err("GX_JOIN_PAIR_ETL_INVALID_CONTRACT");
  }

  // ---------------------------------------------------------------------------
  // Whole runs
  // ---------------------------------------------------------------------------

  /** Any number of turns from an empty stage, with crashes: jobs are claimed at most once each and in
      arrival order; what is handed on is exactly what the turns deliver, in order, so no more than
      was claimed; and `processing` ends empty when every acknowledgement goes through and no job is
      the empty text. */
  method Run(parse: string -> Option<Payload>, worlds: seq<World>) returns (stage: Stage)
    ensures stage.Valid() && stage.parse == parse
    ensures stage.Claims() <= stage.enqueued && |stage.turns| <= |worlds|
    ensures stage.downstream == AllDelivered(parse, stage.turns) && |stage.downstream| <= |stage.turns|
    ensures (forall i :: 0 <= i < |worlds| ==> worlds[i].ack) && "" !in stage.enqueued ==> stage.processing == []
  {
    stage := new Stage(parse);
    for i := 0 to |worlds|
      invariant fresh(stage) && stage.Valid() && stage.parse == parse
      invariant |stage.turns| <= i && stage.downstream == AllDelivered(parse, stage.turns)
      invariant (forall j :: 0 <= j < i ==> worlds[j].ack) && "" !in stage.enqueued ==> stage.processing == []
    {
      hide *;
      ghost var (before, done) := (stage.enqueued, stage.turns);
      stage.RunIteration(worlds[i]);
      assert forall raw :: raw in before ==> raw in stage.enqueued;
      if |stage.enqueued| > |done| {
        DeliveredStep(parse, done, stage.turns[|done|]);
      }
    }
    PushesBounded(parse, stage.turns, stage.log);
  }
}
