/** The Kafka publisher: normalization of violation records and the tracking batch. */
module Kafka {
  import opened Text

  // ---------------------------------------------------------------------------
  // Normalization
  // ---------------------------------------------------------------------------

  datatype Ops = Missing | Mapping(entries: map<string, string>) | NotMapping

  /** A violation record: its text fields and its two metadata keys. */
  datatype Raw = Raw(fields: map<string, string>, opsSnake: Ops, opsCamel: Ops)

  /** The required fields, snake-case key first. */
  const FIELDS: seq<(string, string)> := [
    ("violation_id", "violationId"),
    ("data_object_version_id", "dataObjectVersionId"),
    ("execution_run_id", "executionRunId"),
    ("rule_id", "ruleId"),
    ("record_identifier_type", "recordIdentifierType"),
    ("record_identifier_value", "recordIdentifierValue"),
    ("reason_code", "reasonCode"),
    ("reason_text", "reasonText"),
    ("detected_at", "detectedAt")]

  const DETECTED_AT: nat := 8

  /** A normalized record: the value of each required field, in the order of `FIELDS`. */
  datatype Violation = Violation(values: seq<string>, ops: map<string, string>)

  function Get(m: map<string, string>, key: string): (v: string) { if key in m then m[key] else "" }

  /** `raw.get(snake) or raw.get(camel) or ""`. */
  function Either(m: map<string, string>, keys: (string, string)): (v: string) {
    if Get(m, keys.0) != "" then Get(m, keys.0) else Get(m, keys.1)
  }

  function Values(m: map<string, string>): (vs: seq<string>)
    ensures |vs| == |FIELDS|
  {
    seq(|FIELDS|, i requires 0 <= i < |FIELDS| => Either(m, FIELDS[i]))
  }

  lemma ValuesKnown(m: map<string, string>)
    ensures "" !in Values(m) <==>
            forall i :: 0 <= i < |FIELDS| ==> Get(m, FIELDS[i].0) != "" || Get(m, FIELDS[i].1) != ""
    ensures forall i :: 0 <= i < |FIELDS| ==> Values(m)[i] == Either(m, FIELDS[i]) && Values(m)[i] in Values(m)
  {
    var vs := Values(m);
    forall i | 0 <= i < |FIELDS|
      ensures vs[i] == "" <==> Get(m, FIELDS[i].0) == "" && Get(m, FIELDS[i].1) == ""
    {
    }
    if "" in vs {
      var i :| 0 <= i < |vs| && vs[i] == "";
      assert Get(m, FIELDS[i].0) == "" && Get(m, FIELDS[i].1) == "";
    } else {
      forall i | 0 <= i < |FIELDS| ensures Get(m, FIELDS[i].0) != "" || Get(m, FIELDS[i].1) != "" {
        assert vs[i] in vs;
      }
    }
  }

  function OpsOf(raw: Raw): (o: Ops) { if raw.opsSnake.Missing? then raw.opsCamel else raw.opsSnake }

  /** `iso` decides whether a text is an ISO-8601 timestamp. */
  function Normalize(raw: Raw, iso: string -> bool): (r: Result<Violation>)
    ensures r.Ok? <==>
            && !(raw.opsSnake.NotMapping? || (raw.opsSnake.Missing? && raw.opsCamel.NotMapping?))
            && (forall i :: 0 <= i < |FIELDS| ==>
                  Get(raw.fields, FIELDS[i].0) != "" || Get(raw.fields, FIELDS[i].1) != "")
            && iso(Either(raw.fields, ("detected_at", "detectedAt")))
    ensures r.Ok? ==> |r.value.values| == |FIELDS| && forall i :: 0 <= i < |FIELDS| ==>
              && r.value.values[i] != ""
              && (Get(raw.fields, FIELDS[i].0) != "" ==> r.value.values[i] == Get(raw.fields, FIELDS[i].0))
              && (Get(raw.fields, FIELDS[i].0) == "" ==> r.value.values[i] == Get(raw.fields, FIELDS[i].1))
    ensures r.Ok? && raw.opsSnake.Mapping? ==> r.value.ops == raw.opsSnake.entries
    ensures r.Ok? && raw.opsSnake.Missing? && raw.opsCamel.Mapping? ==> r.value.ops == raw.opsCamel.entries
    ensures r.Ok? && raw.opsSnake.Missing? && raw.opsCamel.Missing? ==> r.value.ops == map[]
  {
    var ops := OpsOf(raw);
    var values := Values(raw.fields);
    ValuesKnown(raw.fields);
    if ops.NotMapping? then Err("opsMetadata must be an object")
    else if "" in values then Err("missing required fields")
    else if !iso(values[DETECTED_AT]) then Err("detectedAt is not ISO-8601")
    else Ok(Violation(values, if ops.Mapping? then ops.entries else map[]))
  }

  /** A normalized record as the dictionary it is. */
  function AsRaw(v: Violation): (raw: Raw)
    requires |v.values| == |FIELDS|
  {
    Raw(Keyed(v.values, |FIELDS|), Missing, Mapping(v.ops))
  }

  /** The first `n` values under their camel-case keys. */
  function Keyed(values: seq<string>, n: nat): (m: map<string, string>)
    requires |values| == |FIELDS| && n <= |FIELDS|
  {
    if n == 0 then map[] else Keyed(values, n - 1)[FIELDS[n - 1].1 := values[n - 1]]
  }

  /** No two required keys coincide. */
  lemma KeysApart(i: nat, j: nat)
    requires i < |FIELDS| && j < |FIELDS|
    ensures FIELDS[i].0 != FIELDS[j].1 && (i != j ==> FIELDS[i].1 != FIELDS[j].1)
  {
  }

  lemma {:induction false} KeyedGet(values: seq<string>, n: nat, i: nat)
    requires |values| == |FIELDS| && n <= |FIELDS| && i < |FIELDS|
    ensures Get(Keyed(values, n), FIELDS[i].0) == ""
    ensures Get(Keyed(values, n), FIELDS[i].1) == if i < n then values[i] else ""
  {
    if n > 0 {
      KeysApart(i, n - 1);
      KeyedGet(values, n - 1, i);
    }
  }

  /** Normalizing a normalized record changes nothing. */
  lemma NormalizeIdempotent(raw: Raw, iso: string -> bool)
    requires Normalize(raw, iso).Ok?
    ensures |Normalize(raw, iso).value.values| == |FIELDS|
    ensures Normalize(AsRaw(Normalize(raw, iso).value), iso) == Normalize(raw, iso)
  {
    var v := Normalize(raw, iso).value;
    forall i | 0 <= i < |FIELDS| ensures Values(AsRaw(v).fields)[i] == v.values[i] {
      KeyedGet(v.values, |FIELDS|, i);
    }
    assert Values(AsRaw(v).fields) == v.values;
  }

  // ---------------------------------------------------------------------------
  // The tracking batch
  // ---------------------------------------------------------------------------

  /** A message carries its ordering key and the size of the batch it joins. */
  datatype Message = Message(key: string, violation: Violation, batchSize: nat, batchBytes: nat)

  /** The data object version and the violation, which together order the messages of the topic. */
  function KeyOf(v: Violation): (key: string)
    ensures |v.values| == |FIELDS| ==>
              key == Get(AsRaw(v).fields, "dataObjectVersionId") + ":" + Get(AsRaw(v).fields, "violationId")
  {
    if |v.values| == |FIELDS| then
      KeyedGet(v.values, |FIELDS|, 0);
      KeyedGet(v.values, |FIELDS|, 1);
      v.values[1] + ":" + v.values[0]
    else ""
  }

  function NormalizeAll(raws: seq<Raw>, iso: string -> bool): (r: Result<seq<Violation>>)
    ensures r.Ok? ==> |r.value| == |raws|
    ensures r.Ok? <==> forall i :: 0 <= i < |raws| ==> Normalize(raws[i], iso).Ok?
    ensures r.Ok? ==> forall i :: 0 <= i < |raws| ==> Normalize(raws[i], iso) == Ok(r.value[i])
  {
    if raws == [] then Ok([])
    else match Normalize(raws[0], iso)
      case Err(e) => Err(e)
      case Ok(v) =>
        match NormalizeAll(raws[1..], iso)
        case Err(e) => assert exists i :: 0 <= i < |raws[1..]| && Normalize(raws[1..][i], iso).Err?; Err(e)
        case Ok(vs) =>
          assert forall i :: 0 < i < |raws| ==> raws[i] == raws[1..][i - 1];
          Ok([v] + vs)
  }

  function TotalSize(ms: seq<Message>, size: Message -> nat): (n: nat) {
    if ms == [] then 0 else TotalSize(ms[..|ms| - 1], size) + size(ms[|ms| - 1])
  }

  /** The violations whose send is accepted, in order. */
  function Accepted(vs: seq<Violation>, accepts: nat -> bool): (r: seq<Violation>) {
    if vs == [] then []
    else Accepted(vs[..|vs| - 1], accepts) + if accepts(|vs| - 1) then [vs[|vs| - 1]] else []
  }

  /** The records whose send is accepted, in order. */
  function AcceptedRaws(raws: seq<Raw>, accepts: nat -> bool): (r: seq<Raw>) {
    if raws == [] then []
    else AcceptedRaws(raws[..|raws| - 1], accepts) + if accepts(|raws| - 1) then [raws[|raws| - 1]] else []
  }

  /** `vs` are the records `raws`, normalized one by one. */
  ghost predicate Images(vs: seq<Violation>, raws: seq<Raw>, iso: string -> bool) {
    |vs| == |raws| && forall i :: 0 <= i < |raws| ==> Normalize(raws[i], iso) == Ok(vs[i])
  }

  lemma {:induction false} AcceptedImages(vs: seq<Violation>, raws: seq<Raw>, accepts: nat -> bool, iso: string -> bool)
    requires Images(vs, raws, iso)
    ensures Images(Accepted(vs, accepts), AcceptedRaws(raws, accepts), iso)
  {
    hide Normalize;
    if vs != [] {
      AcceptedImages(vs[..|vs| - 1], raws[..|raws| - 1], accepts, iso);
    }
  }

  lemma AllImages(vs: seq<Violation>, raws: seq<Raw>, accepts: nat -> bool, iso: string -> bool)
    requires NormalizeAll(raws, iso) == Ok(vs)
    ensures Images(Accepted(vs, accepts), AcceptedRaws(raws, accepts), iso)
  {
    hide Normalize;
    AcceptedImages(vs, raws, accepts, iso);
  }

  function ViolationsOf(ms: seq<Message>): (vs: seq<Violation>)
    ensures |vs| == |ms|
  {
    seq(|ms|, i requires 0 <= i < |ms| => ms[i].violation)
  }

  /** What the publisher is asked to do, with the producer's answers to each send. */
  datatype Op = Publish(raws: seq<Raw>, accepts: nat -> bool) | PeriodicFlush

  /** What an operation puts on the topic: nothing unless there is a producer and every record of the
      call is valid. */
  function Emitted(connected: bool, op: Op, iso: string -> bool): (vs: seq<Violation>) {
    if connected && op.Publish? && NormalizeAll(op.raws, iso).Ok?
    then Accepted(NormalizeAll(op.raws, iso).value, op.accepts)
    else []
  }

  function AllEmitted(connected: bool, ops: seq<Op>, iso: string -> bool): (vs: seq<Violation>) {
    if ops == [] then [] else AllEmitted(connected, ops[..|ops| - 1], iso) + Emitted(connected, ops[|ops| - 1], iso)
  }

  lemma EmittedStep(connected: bool, ops: seq<Op>, k: nat, iso: string -> bool)
    requires k < |ops|
    ensures AllEmitted(connected, ops[..k + 1], iso) ==
            AllEmitted(connected, ops[..k], iso) + Emitted(connected, ops[k], iso)
  {
    assert ops[..k + 1][..k] == ops[..k];
  }

  class Publisher {
    const batchLimit: nat
    const byteLimit: nat
    const size: Message -> nat
    const connected: bool
    var batch: seq<Message>
    var batchBytes: nat
    var sent: seq<Message>
    ghost var flushed: nat

    /** The batch is what was sent since the last flush, and the byte counter is its serialized size. */
    ghost predicate Tracks()
      reads this
    {
      && batchBytes == TotalSize(batch, size)
      && flushed <= |sent| && batch == sent[flushed..]
    }

    /** Every message sent carries sizes below both limits. */
    ghost predicate Stamped()
      reads this
    {
      forall i :: 0 <= i < |sent| ==> sent[i].batchSize < batchLimit && sent[i].batchBytes < byteLimit
    }

    /** Between two calls the batch is below both limits. */
    ghost predicate Valid()
      reads this
    {
      Tracks() && Stamped() && |batch| < batchLimit && batchBytes < byteLimit
    }

    constructor (batchLimit: nat, byteLimit: nat, size: Message -> nat, connected: bool)
      requires batchLimit > 0 && byteLimit > 0
      ensures Valid() && batch == [] && sent == [] && this.connected == connected
    {
      this.batchLimit, this.byteLimit, this.size, this.connected := batchLimit, byteLimit, size, connected;
      batch, batchBytes, sent, flushed := [], 0, [], 0;
    }

    method FlushBatch()
      requires Tracks() && Stamped()
      modifies this
      ensures Tracks() && Stamped() && batch == [] && batchBytes == 0 && sent == old(sent)
    {
      if batch == [] {
        return;
      }
      batch, batchBytes, flushed := [], 0, |sent|;
    }

    /** The message for a record, as the batch stands. */
    function Stamp(violation: Violation): (m: Message)
      reads this
    {
      Message(KeyOf(violation), violation, |batch|, batchBytes)
    }

    method SendOne(violation: Violation, accepted: bool)
      requires Valid()
      modifies this
      ensures Valid()
      ensures sent == old(sent) + if accepted then [old(Stamp(violation))] else []
      ensures !accepted ==> batch == old(batch)
      ensures accepted ==>
                batch == if |old(batch)| + 1 >= batchLimit || old(batchBytes + size(Stamp(violation))) >= byteLimit
                         then [] else old(batch) + [old(Stamp(violation))]
    {
      if accepted {
        var message := Message(KeyOf(violation), violation, |batch|, batchBytes);
        sent := sent + [message];
        assert (batch + [message])[..|batch|] == batch;
        batch := batch + [message];
        batchBytes := batchBytes + size(message);
        if |batch| >= batchLimit {
          FlushBatch();
        } else if batchBytes >= byteLimit {
          FlushBatch();
        }
      }
    }

    /** One invalid record means that nothing of the call is sent; otherwise exactly the accepted
        records go out, in order. Either way the batch ends up tracked and below both limits. */
    method PublishViolations(raws: seq<Raw>, iso: string -> bool, accepts: nat -> bool) returns (r: Result<()>)
      requires Valid()
      modifies this
      ensures Valid()
      ensures !connected || NormalizeAll(raws, iso).Err? ==>
                sent == old(sent) && batch == old(batch) && batchBytes == old(batchBytes)
      ensures r.Ok? <==> !connected || forall i :: 0 <= i < |raws| ==> Normalize(raws[i], iso).Ok?
      ensures ViolationsOf(sent) == old(ViolationsOf(sent)) + Emitted(connected, Publish(raws, accepts), iso)
      ensures connected && r.Ok? ==>
                Images(Emitted(connected, Publish(raws, accepts), iso), AcceptedRaws(raws, accepts), iso)
    {
      hide Valid, Normalize, NormalizeAll, Images, AcceptedRaws, Accepted, ViolationsOf;
      assert ViolationsOf(sent) + [] == ViolationsOf(sent);
      if !connected {
        return Ok(());
      }
      var normalized := NormalizeAll(raws, iso);
      if normalized.Err? {
        return Err(normalized.message);
      }
      AllImages(normalized.value, raws, accepts, iso);
      SendAll(normalized.value, accepts);
      r := Ok(());
    }

    /** Sends the records one by one. */
    method SendAll(vs: seq<Violation>, accepts: nat -> bool)
      requires Valid()
      modifies this
      ensures Valid()
      ensures ViolationsOf(sent) == old(ViolationsOf(sent)) + Accepted(vs, accepts)
    {
      assert vs[..0] == [] && Accepted([], accepts) == [];
      hide Valid, Accepted;
      assert ViolationsOf(sent) + [] == ViolationsOf(sent);
      for k := 0 to |vs|
        invariant Valid()
        invariant ViolationsOf(sent) == old(ViolationsOf(sent)) + Accepted(vs[..k], accepts)
      {
        ghost var before := sent;
        SendOne(vs[k], accepts(k));
        AcceptedStep(vs, k, accepts);
        assert ViolationsOf(sent) == ViolationsOf(before) + if accepts(k) then [vs[k]] else [];
      }
      assert vs[..|vs|] == vs;
    }

    method Perform(op: Op, iso: string -> bool)
      requires Valid()
      modifies this
      ensures Valid()
      ensures ViolationsOf(sent) == old(ViolationsOf(sent)) + Emitted(connected, op, iso)
    {
      hide Emitted, ViolationsOf, NormalizeAll;
      match op {
        case Publish(raws, accepts) =>
          var _ := PublishViolations(raws, iso, accepts);
        case PeriodicFlush =>
          FlushBatch();
          NothingEmitted(connected, iso);
      }
    }

    /** Over every sequence of publishes, send errors and periodic flushes the invariant holds, and
        the topic receives exactly what the calls without an invalid record had accepted. */
    method RunAll(ops: seq<Op>, iso: string -> bool)
      requires Valid()
      modifies this
      ensures Valid()
      ensures ViolationsOf(sent) == old(ViolationsOf(sent)) + AllEmitted(connected, ops, iso)
    {
      hide Valid, Emitted, ViolationsOf;
      ghost var (start, out) := (ViolationsOf(sent), []);
      for k := 0 to |ops|
        invariant Valid()
        invariant out == AllEmitted(connected, ops[..k], iso)
        invariant ViolationsOf(sent) == start + out
      {
        EmittedStep(connected, ops, k, iso);
        Perform(ops[k], iso);
        out := out + Emitted(connected, ops[k], iso);
      }
      assert ops[..|ops|] == ops;
    }
  }

  lemma NothingEmitted(connected: bool, iso: string -> bool)
    ensures Emitted(connected, PeriodicFlush, iso) == []
  {
  }

  lemma AcceptedStep(vs: seq<Violation>, k: nat, accepts: nat -> bool)
    requires k < |vs|
    ensures Accepted(vs[..k + 1], accepts) == Accepted(vs[..k], accepts) + if accepts(k) then [vs[k]] else []
  {
    assert vs[..k + 1][..k] == vs[..k];
  }
}
