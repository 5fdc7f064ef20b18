/** The step records of the two stores: objects in an array, and rows that are written out and read back. */
module StoreSteps {
  import opened Common
  import opened Sequences

  /**
   * A step record. The fields a row has defaults for may be absent from an object in the array; `details`
   * holds the optional fields that are present (timestamps, output, error, quality gate and the like),
   * which a row stores and gives back unchanged, null standing for absence.
   */
  datatype Step = Step(
    runId: string,
    id: string,
    createdAt: int,
    name: string,
    executor: string,
    input: Option<string>,
    dependsOn: Option<seq<string>>,
    status: Option<string>,
    attempt: Option<int>,
    maxAttempts: Option<int>,
    details: map<string, string>)

  const EMPTY_INPUT := "{}"

  /** A property of an update object: not there, or there with a value that may itself be absent. */
  datatype Change<+T> = Keep | Set(value: T)

  datatype Update = Update(
    runId: Change<string>,
    id: Change<string>,
    createdAt: Change<int>,
    name: Change<string>,
    executor: Change<string>,
    input: Change<Option<string>>,
    dependsOn: Change<Option<seq<string>>>,
    status: Change<Option<string>>,
    attempt: Change<Option<int>>,
    maxAttempts: Change<Option<int>>,
    details: map<string, Option<string>>)

  function Apply<T>(current: T, change: Change<T>): T {
    match change
    case Keep => current
    case Set(value) => value
  }

  /** `{ ...step, ...updates }`, and `Object.assign(step, updates)`. */
  function Merged(step: Step, u: Update): Step {
    Step(
      Apply(step.runId, u.runId), Apply(step.id, u.id), Apply(step.createdAt, u.createdAt),
      Apply(step.name, u.name), Apply(step.executor, u.executor), Apply(step.input, u.input),
      Apply(step.dependsOn, u.dependsOn), Apply(step.status, u.status), Apply(step.attempt, u.attempt),
      Apply(step.maxAttempts, u.maxAttempts), MergedDetails(step.details, u.details))
  }

  function MergedDetails(details: map<string, string>, changes: map<string, Option<string>>): map<string, string> {
    map k | k in details.Keys + changes.Keys && (k in changes ==> changes[k].Some?) ::
      if k in changes then changes[k].value else details[k]
  }

  // ----- The row of a step -----

  datatype Row = Row(
    runId: string, id: string, createdAt: int, name: string, executor: string,
    input: string, dependsOn: seq<string>, status: string, attempt: int, maxAttempts: int, details: map<string, string>)

  /** `upsertStepRow`: `||` replaces every falsy value, `??` only an absent one. */
  function WriteRow(step: Step, createdAt: int): Row {
    Row(
      step.runId, step.id, createdAt, step.name, step.executor,
      if step.input.Some? then step.input.value else EMPTY_INPUT,
      if step.dependsOn.Some? then step.dependsOn.value else [],
      if step.status.Some? && step.status.value != "" then step.status.value else "pending",
      if step.attempt.Some? then step.attempt.value else 0,
      if step.maxAttempts.Some? then step.maxAttempts.value else 1,
      step.details)
  }

  /** `rowToStep`. */
  function ReadRow(row: Row): Step {
    Step(
      row.runId, row.id, row.createdAt, row.name, row.executor, Some(row.input), Some(row.dependsOn),
      Some(if row.status != "" then row.status else "pending"),
      Some(row.attempt),
      Some(if row.maxAttempts != 0 then row.maxAttempts else 1),
      row.details)
  }

  /** What a step looks like once it has been through a row. */
  function Normal(step: Step): Step {
    ReadRow(WriteRow(step, step.createdAt))
  }

  /** A step survives the row unchanged exactly when it has every field with a default, a status and a non-zero attempt limit. */
  lemma NormalIsIdentityExactly(step: Step)
    ensures Normal(step) == step <==>
            && step.input.Some? && step.dependsOn.Some? && step.attempt.Some?
            && step.status.Some? && step.status.value != ""
            && step.maxAttempts.Some? && step.maxAttempts.value != 0
  {
  }

  // ----- The stores -----

  predicate HasKey(step: Step, runId: string, id: string) {
    step.runId == runId && step.id == id
  }

  /** `find`: the first step with this key. */
  function Find(steps: seq<Step>, runId: string, id: string): (at: Option<nat>)
    ensures at.Some? ==> at.value < |steps| && HasKey(steps[at.value], runId, id)
    ensures at.Some? ==> forall k | 0 <= k < at.value :: !HasKey(steps[k], runId, id)
    ensures at.None? ==> forall k | 0 <= k < |steps| :: !HasKey(steps[k], runId, id)
  {
    if steps == [] then None
    else
      var n := |steps| - 1;
      var before := Find(steps[..n], runId, id);
      if before.Some? then before else if HasKey(steps[n], runId, id) then Some(n) else None
  }

  function JsonUpdated(steps: seq<Step>, runId: string, id: string, u: Update): seq<Step> {
    match Find(steps, runId, id)
    case None => steps
    case Some(i) => steps[i := Merged(steps[i], u)]
  }

  class JsonStore {
    var steps: seq<Step>

    constructor ()
      ensures steps == []
    {
      steps := [];
    }

    method CreateStep(step: Step)
      modifies this
      ensures steps == old(steps) + [step]
    {
      steps := steps + [step];
    }

    method GetStep(runId: string, id: string) returns (r: Option<Step>)
      ensures r == match Find(steps, runId, id) case None => None case Some(i) => Some(steps[i])
    {
      var at := Find(steps, runId, id);
      r := if at.Some? then Some(steps[at.value]) else None;
    }

    method ListSteps(runId: string) returns (r: seq<Step>)
      ensures r == JsonList(steps, runId)
    {
      r := JsonList(steps, runId);
    }

    method UpdateStep(runId: string, id: string, u: Update)
      modifies this
      ensures steps == JsonUpdated(old(steps), runId, id, u)
    {
      var at := Find(steps, runId, id);
      if at.Some? {
        steps := steps[at.value := Merged(steps[at.value], u)];
      }
    }
  }

  /** The primary key of the table. */
  datatype Key = Key(runId: string, id: string)

  function KeyOf(step: Step): Key {
    Key(step.runId, step.id)
  }

  /** `INSERT OR REPLACE`. */
  function Upsert(table: map<Key, Row>, row: Row): map<Key, Row> {
    table[Key(row.runId, row.id) := row]
  }

  /** The update reads the row, merges, and writes back under the key of the merged step. */
  function SqliteUpdated(table: map<Key, Row>, runId: string, id: string, u: Update): map<Key, Row> {
    var key := Key(runId, id);
    if key in table then Upsert(table, WriteRow(Merged(ReadRow(table[key]), u), table[key].createdAt)) else table
  }

  /** What `ORDER BY created_at ASC` may do with the rows that a query selects; ties come in any order. */
  ghost predicate IsOldestFirstQuery(order: set<Row> -> seq<Row>) {
    forall rows :: multiset(order(rows)) == multiset(rows) && OldestFirst(order(rows))
  }

  predicate OldestFirst(rows: seq<Row>) {
    forall i, j | 0 <= i < j < |rows| :: rows[i].createdAt <= rows[j].createdAt
  }

  function RowsOfRun(table: map<Key, Row>, runId: string): set<Row> {
    set key <- table | table[key].runId == runId :: table[key]
  }

  class SqliteStore {
    var table: map<Key, Row>
    const order: set<Row> -> seq<Row>

    constructor (order: set<Row> -> seq<Row>)
      ensures table == map[] && this.order == order
    {
      table := map[];
      this.order := order;
    }

    method CreateStep(step: Step)
      modifies this
      ensures table == Upsert(old(table), WriteRow(step, step.createdAt))
    {
      table := Upsert(table, WriteRow(step, step.createdAt));
    }

    method GetStep(runId: string, id: string) returns (r: Option<Step>)
      ensures r == SqliteGet(table, runId, id)
    {
      var key := Key(runId, id);
      r := if key in table then Some(ReadRow(table[key])) else None;
    }

    method ListSteps(runId: string) returns (r: seq<Step>)
      ensures r == SqliteList(table, runId, order)
    {
      r := Map(order(RowsOfRun(table, runId)), ReadRow);
    }

    method UpdateStep(runId: string, id: string, u: Update)
      modifies this
      ensures table == SqliteUpdated(old(table), runId, id, u)
    {
      var key := Key(runId, id);
      if key in table {
        var row := table[key];
        table := Upsert(table, WriteRow(Merged(ReadRow(row), u), row.createdAt));
      }
    }
  }

  function SqliteGet(table: map<Key, Row>, runId: string, id: string): Option<Step> {
    if Key(runId, id) in table then Some(ReadRow(table[Key(runId, id)])) else None
  }

  function SqliteList(table: map<Key, Row>, runId: string, order: set<Row> -> seq<Row>): seq<Step> {
    Map(order(RowsOfRun(table, runId)), ReadRow)
  }

  // ----- Agreement -----

  datatype Operation = Create(step: Step) | Modify(runId: string, id: string, update: Update)

  predicate KeysDistinct(steps: seq<Step>) {
    forall i, j | 0 <= i < j < |steps| :: KeyOf(steps[i]) != KeyOf(steps[j])
  }

  predicate IsFresh(steps: seq<Step>, step: Step) {
    forall k | 0 <= k < |steps| :: KeyOf(steps[k]) != KeyOf(step)
  }

  /** The update names the key and the creation time not at all, or with the values the step already has. */
  predicate KeepsIdentity(step: Step, u: Update) {
    && Apply(step.runId, u.runId) == step.runId
    && Apply(step.id, u.id) == step.id
    && Apply(step.createdAt, u.createdAt) == step.createdAt
  }

  /** Steps are created under new keys, and an update that finds a step leaves its key and creation time alone. */
  predicate Allowed(steps: seq<Step>, op: Operation) {
    match op
    case Create(step) => IsFresh(steps, step)
    case Modify(runId, id, u) =>
      match Find(steps, runId, id)
      case None => true
      case Some(i) => KeepsIdentity(steps[i], u)
  }

  function JsonStep(steps: seq<Step>, op: Operation): seq<Step> {
    match op
    case Create(step) => steps + [step]
    case Modify(runId, id, u) => JsonUpdated(steps, runId, id, u)
  }

  function SqliteStep(table: map<Key, Row>, op: Operation): map<Key, Row> {
    match op
    case Create(step) => Upsert(table, WriteRow(step, step.createdAt))
    case Modify(runId, id, u) => SqliteUpdated(table, runId, id, u)
  }

  function JsonRun(ops: seq<Operation>): seq<Step> {
    if ops == [] then [] else JsonStep(JsonRun(ops[..|ops| - 1]), ops[|ops| - 1])
  }

  function SqliteRun(ops: seq<Operation>): map<Key, Row> {
    if ops == [] then map[] else SqliteStep(SqliteRun(ops[..|ops| - 1]), ops[|ops| - 1])
  }

  /** Every operation was allowed when its turn came. */
  predicate AllAllowed(ops: seq<Operation>) {
    ops != [] ==> AllAllowed(ops[..|ops| - 1]) && Allowed(JsonRun(ops[..|ops| - 1]), ops[|ops| - 1])
  }

  /** The stores held the same steps before, between and after the operations. */
  ghost predicate AgreeThroughout(ops: seq<Operation>) {
    Agree(JsonRun(ops), SqliteRun(ops)) && (ops != [] ==> AgreeThroughout(ops[..|ops| - 1]))
  }

  /** The table holds, under its key, the normal form of every step of the array, and nothing else. */
  ghost predicate Agree(steps: seq<Step>, table: map<Key, Row>) {
    && KeysDistinct(steps)
    && (forall k | 0 <= k < |steps| :: HoldsStep(table, steps[k]))
    && (forall key <- table :: exists k | 0 <= k < |steps| :: KeyOf(steps[k]) == key)
  }

  predicate HoldsStep(table: map<Key, Row>, step: Step) {
    KeyOf(step) in table && ReadRow(table[KeyOf(step)]) == Normal(step)
  }

  /** Merging into what was read back, and writing that, is the same as merging into the step itself. */
  lemma MergeThroughRow(step: Step, u: Update)
    ensures ReadRow(WriteRow(Merged(Normal(step), u), Apply(step.createdAt, u.createdAt))) == Normal(Merged(step, u))
  {
  }

  lemma RowKeepsKey(step: Step, createdAt: int)
    ensures var row := WriteRow(step, createdAt); row.runId == step.runId && row.id == step.id
  {
  }

  lemma HeldRowKeepsKey(table: map<Key, Row>, step: Step)
    requires HoldsStep(table, step)
    ensures var row := table[KeyOf(step)];
            row.runId == step.runId && row.id == step.id && row.createdAt == step.createdAt
  {
  }

  lemma CreateKeepsAgreement(steps: seq<Step>, table: map<Key, Row>, step: Step)
    requires Agree(steps, table) && IsFresh(steps, step)
    ensures Agree(steps + [step], Upsert(table, WriteRow(step, step.createdAt)))
  {
    RowKeepsKey(step, step.createdAt);
    hide ReadRow, WriteRow;
    var all, after := steps + [step], Upsert(table, WriteRow(step, step.createdAt));
    forall k | 0 <= k < |all|
      ensures HoldsStep(after, all[k])
    {
      assert k < |steps| ==> HoldsStep(table, steps[k]);
    }
    forall key <- after
      ensures exists k | 0 <= k < |all| :: KeyOf(all[k]) == key
    {
      if key in table {
        var k :| 0 <= k < |steps| && KeyOf(steps[k]) == key;
        assert KeyOf(all[k]) == key;
      } else {
        assert KeyOf(all[|steps|]) == key;
      }
    }
  }

  /** An update of a step that the table holds changes its row, to the merged step's, and no other. */
  lemma UpdatedTable(table: map<Key, Row>, step: Step, u: Update)
    requires HoldsStep(table, step) && KeepsIdentity(step, u)
    ensures var after := SqliteUpdated(table, step.runId, step.id, u);
            && KeyOf(Merged(step, u)) == KeyOf(step)
            && after.Keys == table.Keys
            && HoldsStep(after, Merged(step, u))
            && forall key <- table :: key != KeyOf(step) ==> after[key] == table[key]
  {
    HeldRowKeepsKey(table, step);
    MergeThroughRow(step, u);
    hide ReadRow, WriteRow;
    var read := Merged(Normal(step), u);
    RowKeepsKey(read, step.createdAt);
    NormalKeepsKey(step);
  }

  lemma NormalKeepsKey(step: Step)
    ensures KeyOf(Normal(step)) == KeyOf(step)
  {
  }

  lemma FoundKeepsAgreement(steps: seq<Step>, table: map<Key, Row>, i: nat, u: Update)
    requires Agree(steps, table) && i < |steps| && KeepsIdentity(steps[i], u)
    ensures HoldsStep(table, steps[i])
    ensures Agree(steps[i := Merged(steps[i], u)], SqliteUpdated(table, steps[i].runId, steps[i].id, u))
  {
    assert HoldsStep(table, steps[i]);
    var merged := Merged(steps[i], u);
    var all, after := steps[i := merged], SqliteUpdated(table, steps[i].runId, steps[i].id, u);
    UpdatedTable(table, steps[i], u);
    hide ReadRow, Merged, WriteRow, SqliteUpdated, Normal;
    forall k | 0 <= k < |all|
      ensures HoldsStep(after, all[k]) && KeyOf(all[k]) == KeyOf(steps[k])
    {
      assert HoldsStep(table, steps[k]);
      assert k != i ==> KeyOf(steps[k]) != KeyOf(steps[i]);
    }
    forall key <- after
      ensures exists k | 0 <= k < |all| :: KeyOf(all[k]) == key
    {
      var k :| 0 <= k < |steps| && KeyOf(steps[k]) == key;
      assert KeyOf(all[k]) == key;
    }
  }

  /** Moving a step to another key leaves its old row behind, under a key that no step of the array has. */
  lemma MovedKeyDisagrees(steps: seq<Step>, table: map<Key, Row>, i: nat, u: Update)
    requires Agree(steps, table) && i < |steps| && KeyOf(Merged(steps[i], u)) != KeyOf(steps[i])
    ensures !Agree(steps[i := Merged(steps[i], u)], SqliteUpdated(table, steps[i].runId, steps[i].id, u))
  {
    hide Merged, ReadRow, WriteRow, Normal;
    var key := KeyOf(steps[i]);
    var all, after := steps[i := Merged(steps[i], u)], SqliteUpdated(table, steps[i].runId, steps[i].id, u);
    assert HoldsStep(table, steps[i]);
    assert key in after;
    forall k | 0 <= k < |all|
      ensures KeyOf(all[k]) != key
    {
      assert k != i ==> KeyOf(steps[k]) != KeyOf(steps[i]);
    }
  }

  /** A new creation time reaches the array and never the table. */
  lemma MovedTimeDisagrees(steps: seq<Step>, table: map<Key, Row>, i: nat, u: Update)
    requires Agree(steps, table) && i < |steps| && KeyOf(Merged(steps[i], u)) == KeyOf(steps[i])
    requires Apply(steps[i].createdAt, u.createdAt) != steps[i].createdAt
    ensures !Agree(steps[i := Merged(steps[i], u)], SqliteUpdated(table, steps[i].runId, steps[i].id, u))
  {
    var merged := Merged(steps[i], u);
    var all, after := steps[i := merged], SqliteUpdated(table, steps[i].runId, steps[i].id, u);
    assert HoldsStep(table, steps[i]);
    HeldRowKeepsKey(table, steps[i]);
    NormalKeepsKey(steps[i]);
    assert after[KeyOf(merged)].createdAt == steps[i].createdAt;
    hide Agree, ReadRow, WriteRow, SqliteUpdated, Merged;
    if Agree(all, after) {
      HeldStep(all, after, i);
      HeldRowKeepsKey(after, all[i]);
    }
  }

  lemma HeldStep(steps: seq<Step>, table: map<Key, Row>, i: nat)
    requires Agree(steps, table) && i < |steps|
    ensures HoldsStep(table, steps[i])
  {
  }

  lemma TakenKeyDisagrees(steps: seq<Step>, table: map<Key, Row>, step: Step)
    requires !IsFresh(steps, step)
    ensures !Agree(steps + [step], table)
  {
    hide ReadRow, Normal;
    var k :| 0 <= k < |steps| && KeyOf(steps[k]) == KeyOf(step);
    var all := steps + [step];
    assert KeyOf(all[k]) == KeyOf(all[|steps|]);
  }

  /**
   * One operation, exactly: it takes stores that hold the same steps to stores that hold the same steps
   * if and only if it creates a step under a new key, or updates no step, or updates one without changing
   * its key or its creation time.
   */
  lemma StepAgreesExactly(steps: seq<Step>, table: map<Key, Row>, op: Operation)
    requires Agree(steps, table)
    ensures Agree(JsonStep(steps, op), SqliteStep(table, op)) <==> Allowed(steps, op)
  {
    hide Agree, Upsert, SqliteUpdated, KeepsIdentity, IsFresh;
    match op {
      case Create(step) =>
        if IsFresh(steps, step) {
          CreateKeepsAgreement(steps, table, step);
        } else {
          TakenKeyDisagrees(steps, Upsert(table, WriteRow(step, step.createdAt)), step);
        }
      case Modify(runId, id, u) => UpdateAgreesExactly(steps, table, runId, id, u);
    }
  }

  lemma UpdateAgreesExactly(steps: seq<Step>, table: map<Key, Row>, runId: string, id: string, u: Update)
    requires Agree(steps, table)
    ensures Agree(JsonUpdated(steps, runId, id, u), SqliteUpdated(table, runId, id, u))
       <==> Allowed(steps, Modify(runId, id, u))
  {
    match Find(steps, runId, id) {
      case None => UnknownStepIsIgnored(steps, table, runId, id, u);
      case Some(i) =>
        hide Agree, SqliteUpdated;
        if KeepsIdentity(steps[i], u) {
          FoundKeepsAgreement(steps, table, i, u);
        } else if KeyOf(Merged(steps[i], u)) != KeyOf(steps[i]) {
          MovedKeyDisagrees(steps, table, i, u);
        } else {
          MovedTimeDisagrees(steps, table, i, u);
        }
    }
  }

  lemma UnknownStepIsIgnored(steps: seq<Step>, table: map<Key, Row>, runId: string, id: string, u: Update)
    requires Agree(steps, table) && Find(steps, runId, id) == None
    ensures SqliteUpdated(table, runId, id, u) == table
  {
    assert forall k | 0 <= k < |steps| :: KeyOf(steps[k]) != Key(runId, id);
  }

  /** Whole runs, exactly: the stores hold the same steps all along if and only if every operation is allowed. */
  lemma {:induction false} StoresAgreeExactly(ops: seq<Operation>)
    ensures AgreeThroughout(ops) <==> AllAllowed(ops)
  {
    hide JsonStep, SqliteStep, Agree, Allowed;
    if ops == [] {
      NothingAgrees();
    } else {
      var front := ops[..|ops| - 1];
      StoresAgreeExactly(front);
      if AgreeThroughout(front) {
        StepAgreesExactly(JsonRun(front), SqliteRun(front), ops[|ops| - 1]);
      }
    }
  }

  /** After any allowed operations, in any order, the two stores hold the same steps. */
  lemma StoresAgree(ops: seq<Operation>)
    requires AllAllowed(ops)
    ensures Agree(JsonRun(ops), SqliteRun(ops))
  {
    StoresAgreeExactly(ops);
  }

  lemma NothingAgrees()
    ensures Agree([], map[])
  {
  }

  /** `getStep` finds the same step in both, up to its normal form, or in neither. */
  lemma GetsAgree(ops: seq<Operation>, runId: string, id: string)
    requires AllAllowed(ops)
    ensures var at := Find(JsonRun(ops), runId, id);
            SqliteGet(SqliteRun(ops), runId, id) == match at case None => None case Some(i) => Some(Normal(JsonRun(ops)[i]))
  {
    StoresAgree(ops);
    hide ReadRow, Normal;
    var steps, table := JsonRun(ops), SqliteRun(ops);
    match Find(steps, runId, id) {
      case Some(i) => assert HoldsStep(table, steps[i]);
      case None => assert forall k | 0 <= k < |steps| :: KeyOf(steps[k]) != Key(runId, id);
    }
  }

  // ----- The order of listings -----

  /** Steps were created at increasing times. */
  predicate InCreationOrder(steps: seq<Step>) {
    forall i, j | 0 <= i < j < |steps| :: steps[i].createdAt < steps[j].createdAt
  }

  /** `steps.filter((step) => step.runId === runId)`. */
  function JsonList(steps: seq<Step>, runId: string): seq<Step> {
    if steps == [] then []
    else
      var n := |steps| - 1;
      JsonList(steps[..n], runId) + (if steps[n].runId == runId then [steps[n]] else [])
  }

  lemma {:induction false} JsonListMembers(steps: seq<Step>, runId: string)
    ensures forall x :: x in JsonList(steps, runId) <==> x in steps && x.runId == runId
  {
    if steps != [] {
      var n := |steps| - 1;
      JsonListMembers(steps[..n], runId);
      assert steps == steps[..n] + [steps[n]];
    }
  }

  lemma {:induction false} JsonListKeys(steps: seq<Step>, runId: string)
    requires KeysDistinct(steps)
    ensures KeysDistinct(JsonList(steps, runId))
  {
    if steps != [] {
      var n := |steps| - 1;
      JsonListKeys(steps[..n], runId);
      JsonListMembers(steps[..n], runId);
      var before := JsonList(steps[..n], runId);
      forall i | 0 <= i < |before|
        ensures KeyOf(before[i]) != KeyOf(steps[n])
      {
        assert before[i] in steps[..n];
      }
    }
  }

  predicate StrictlyOldestFirst(rows: seq<Row>) {
    forall i, j | 0 <= i < j < |rows| :: rows[i].createdAt < rows[j].createdAt
  }

  /** With distinct creation times there is only one oldest-first order. */
  lemma {:induction false} OrderIsUnique(ordered: seq<Row>, rows: seq<Row>)
    requires StrictlyOldestFirst(rows) && OldestFirst(ordered) && multiset(ordered) == multiset(rows)
    ensures ordered == rows
  {
    if rows == [] {
      assert |multiset(ordered)| == |ordered|;
    } else {
      OldestIsFirst(ordered, rows);
      TailsArePermutations(ordered, rows);
      TailsStayOrdered(ordered, rows);
      hide StrictlyOldestFirst, OldestFirst;
      OrderIsUnique(ordered[1..], rows[1..]);
      assert ordered == [ordered[0]] + ordered[1..] && rows == [rows[0]] + rows[1..];
    }
  }

  lemma TailsArePermutations(ordered: seq<Row>, rows: seq<Row>)
    requires multiset(ordered) == multiset(rows) && ordered != [] && rows != [] && ordered[0] == rows[0]
    ensures multiset(ordered[1..]) == multiset(rows[1..])
  {
    MultisetOfFirst(ordered);
    MultisetOfFirst(rows);
    MultisetCancel(multiset(ordered[1..]), multiset(rows[1..]), rows[0]);
  }

  lemma TailsStayOrdered(ordered: seq<Row>, rows: seq<Row>)
    requires ordered != [] && rows != [] && StrictlyOldestFirst(rows) && OldestFirst(ordered)
    ensures StrictlyOldestFirst(rows[1..]) && OldestFirst(ordered[1..])
  {
  }

  lemma OldestIsFirst(ordered: seq<Row>, rows: seq<Row>)
    requires StrictlyOldestFirst(rows) && OldestFirst(ordered) && multiset(ordered) == multiset(rows) && rows != []
    ensures ordered != [] && ordered[0] == rows[0]
  {
    MembersOfPermutation(ordered, rows);
    assert rows[0] in ordered && ordered[0] in rows;
    assert forall r <- ordered :: ordered[0].createdAt <= r.createdAt;
    assert forall r <- rows :: r == rows[0] || rows[0].createdAt < r.createdAt;
  }

  function RowOf(table: map<Key, Row>, step: Step): Row
    requires HoldsStep(table, step)
  {
    table[KeyOf(step)]
  }

  /** The rows of the listed steps, in their order. */
  function RowsInOrder(table: map<Key, Row>, listed: seq<Step>): (rows: seq<Row>)
    requires forall x <- listed :: HoldsStep(table, x)
    ensures |rows| == |listed|
    ensures forall i | 0 <= i < |listed| :: rows[i] == RowOf(table, listed[i])
  {
    seq(|listed|, i requires 0 <= i < |listed| => RowOf(table, listed[i]))
  }

  lemma {:induction false} NoDuplicatesIsSet(rows: seq<Row>, all: set<Row>)
    requires StrictlyOldestFirst(rows)
    requires forall r :: r in rows <==> r in all
    ensures multiset(rows) == multiset(all)
  {
    if rows == [] {
      assert all == {};
    } else {
      var n := |rows| - 1;
      FrontIsTheRest(rows, all);
      hide StrictlyOldestFirst;
      NoDuplicatesIsSet(rows[..n], all - {rows[n]});
      MultisetOfLast(rows);
      assert multiset(all) == multiset(all - {rows[n]}) + multiset{rows[n]};
    }
  }

  lemma FrontIsTheRest(rows: seq<Row>, all: set<Row>)
    requires StrictlyOldestFirst(rows) && rows != []
    requires forall r :: r in rows <==> r in all
    ensures var n := |rows| - 1;
            && StrictlyOldestFirst(rows[..n]) && rows[n] in all
            && forall r :: r in rows[..n] <==> r in all - {rows[n]}
  {
    var n := |rows| - 1;
    assert forall i | 0 <= i < n :: rows[..n][i] == rows[i] && rows[i].createdAt < rows[n].createdAt;
    assert rows == rows[..n] + [rows[n]];
    assert rows[n] in rows;
  }

  /** Created at increasing times, the steps of a run are listed by both stores in the same order. */
  lemma ListsAgree(ops: seq<Operation>, runId: string, order: set<Row> -> seq<Row>)
    requires AllAllowed(ops) && IsOldestFirstQuery(order) && InCreationOrder(JsonList(JsonRun(ops), runId))
    ensures SqliteList(SqliteRun(ops), runId, order) == Map(JsonList(JsonRun(ops), runId), Normal)
  {
    var steps, table := JsonRun(ops), SqliteRun(ops);
    StoresAgree(ops);
    hide AllAllowed, JsonRun, SqliteRun;
    var listed := JsonList(steps, runId);
    JsonListMembers(steps, runId);
    assert forall x <- listed :: HoldsStep(table, x);
    var rows := RowsInOrder(table, listed);
    ListedRowsAreTheRows(steps, table, runId);
    ListedRowsAreOrdered(table, listed);
    NoDuplicatesIsSet(rows, RowsOfRun(table, runId));
    OrderIsUnique(order(RowsOfRun(table, runId)), rows);
    ReadListed(table, listed);
  }

  /** The same order, but for two rows of one set. */
  function Exchanged(order: set<Row> -> seq<Row>, rows: set<Row>, i: nat, j: nat): set<Row> -> seq<Row>
    requires i < |order(rows)| && j < |order(rows)|
  {
    var ordered := order(rows);
    var exchanged := ordered[i := ordered[j]][j := ordered[i]];
    (all: set<Row>) => if all == rows then exchanged else order(all)
  }

  lemma ExchangedIsQuery(order: set<Row> -> seq<Row>, rows: set<Row>, i: nat, j: nat)
    requires IsOldestFirstQuery(order) && i < j < |order(rows)|
    requires order(rows)[i].createdAt == order(rows)[j].createdAt
    ensures IsOldestFirstQuery(Exchanged(order, rows, i, j))
  {
    var ordered, query := order(rows), Exchanged(order, rows, i, j);
    assert multiset(ordered) == multiset(rows) && OldestFirst(ordered);
    forall all: set<Row>
      ensures multiset(query(all)) == multiset(all) && OldestFirst(query(all))
    {
      if all == rows {
        assert multiset(query(all)) == multiset(ordered);
      }
    }
  }

  /** Where a listing agrees although two of its steps are not in order, exchanging the two rows makes it disagree. */
  lemma TiedStepsListApart(table: map<Key, Row>, listed: seq<Step>, runId: string, order: set<Row> -> seq<Row>)
    requires IsOldestFirstQuery(order) && KeysDistinct(listed) && !InCreationOrder(listed)
    requires SqliteList(table, runId, order) == Map(listed, Normal)
    ensures exists query :: IsOldestFirstQuery(query) && SqliteList(table, runId, query) != Map(listed, Normal)
  {
    var rows := RowsOfRun(table, runId);
    var ordered := order(rows);
    var i, j :| 0 <= i < j < |listed| && !(listed[i].createdAt < listed[j].createdAt);
    ListedAt(ordered, listed, i);
    ListedAt(ordered, listed, j);
    assert OldestFirst(ordered);
    ExchangedIsQuery(order, rows, i, j);
    var query := Exchanged(order, rows, i, j);
    assert query(rows)[i] == ordered[j];
    assert KeyOf(listed[i]) != KeyOf(listed[j]);
    hide ReadRow, Normal, IsOldestFirstQuery, RowsOfRun, Exchanged;
    MapAt(query(rows), ReadRow, i);
    MapAt(listed, Normal, i);
  }

  lemma ListedAt(ordered: seq<Row>, listed: seq<Step>, i: nat)
    requires Map(ordered, ReadRow) == Map(listed, Normal) && i < |listed|
    ensures |ordered| == |listed| && ReadRow(ordered[i]) == Normal(listed[i])
    ensures ordered[i].createdAt == listed[i].createdAt && KeyOf(Normal(listed[i])) == KeyOf(listed[i])
  {
    MapAt(ordered, ReadRow, i);
    MapAt(listed, Normal, i);
  }

  /** The steps of this run were created at increasing times. */
  predicate CreatedInOrder(steps: seq<Step>, runId: string) {
    forall i, j | 0 <= i < j < |steps| && steps[i].runId == runId && steps[j].runId == runId ::
      steps[i].createdAt < steps[j].createdAt
  }

  lemma {:induction false} ListKeepsOrder(steps: seq<Step>, runId: string)
    ensures InCreationOrder(JsonList(steps, runId)) <==> CreatedInOrder(steps, runId)
  {
    if steps != [] {
      var n := |steps| - 1;
      ListKeepsOrder(steps[..n], runId);
      JsonListMembers(steps[..n], runId);
      OneMoreInOrder(steps, runId);
      hide CreatedInOrder, InCreationOrder;
      var before := JsonList(steps[..n], runId);
      if steps[n].runId == runId {
        OneMoreListed(before, steps[n]);
      } else {
        assert before + [] == before;
      }
    }
  }

  lemma OneMoreInOrder(steps: seq<Step>, runId: string)
    requires steps != []
    ensures var n := |steps| - 1;
            CreatedInOrder(steps, runId) <==>
            && CreatedInOrder(steps[..n], runId)
            && (steps[n].runId == runId ==> forall x <- steps[..n] :: x.runId == runId ==> x.createdAt < steps[n].createdAt)
  {
    var n := |steps| - 1;
    assert forall i | 0 <= i < n :: steps[..n][i] == steps[i];
    if CreatedInOrder(steps, runId) && steps[n].runId == runId {
      forall x | x in steps[..n] && x.runId == runId
        ensures x.createdAt < steps[n].createdAt
      {
        var i :| 0 <= i < n && steps[..n][i] == x;
      }
    }
    forall i | 0 <= i < n
      ensures steps[i] in steps[..n]
    {
      assert steps[..n][i] == steps[i];
    }
  }

  lemma OneMoreListed(before: seq<Step>, last: Step)
    ensures InCreationOrder(before + [last]) <==>
            InCreationOrder(before) && forall x <- before :: x.createdAt < last.createdAt
  {
    var all := before + [last];
    assert forall i | 0 <= i < |before| :: all[i] == before[i] && before[i] in before;
    assert all[|before|] == last;
  }

  /**
   * `listSteps`, exactly: both stores list a run in the same order, in whatever order ties come, if and only
   * if its steps were created at increasing times.
   */
  lemma ListsAgreeExactly(ops: seq<Operation>, runId: string, order: set<Row> -> seq<Row>)
    requires AllAllowed(ops) && IsOldestFirstQuery(order)
    ensures (forall query :: IsOldestFirstQuery(query) ==>
               SqliteList(SqliteRun(ops), runId, query) == Map(JsonList(JsonRun(ops), runId), Normal))
       <==> CreatedInOrder(JsonRun(ops), runId)
  {
    ListKeepsOrder(JsonRun(ops), runId);
    hide SqliteList, IsOldestFirstQuery, InCreationOrder, CreatedInOrder, AllAllowed, HoldsStep, Map, Normal;
    var steps, table := JsonRun(ops), SqliteRun(ops);
    if InCreationOrder(JsonList(steps, runId)) {
      forall query | IsOldestFirstQuery(query)
        ensures SqliteList(table, runId, query) == Map(JsonList(steps, runId), Normal)
      {
        ListsAgree(ops, runId, query);
      }
    } else if SqliteList(table, runId, order) == Map(JsonList(steps, runId), Normal) {
      StoresAgree(ops);
      JsonListKeys(steps, runId);
      TiedStepsListApart(table, JsonList(steps, runId), runId, order);
    }
  }

  lemma ListedRowsAreOrdered(table: map<Key, Row>, listed: seq<Step>)
    requires InCreationOrder(listed) && forall x <- listed :: HoldsStep(table, x)
    ensures StrictlyOldestFirst(RowsInOrder(table, listed))
  {
    var rows := RowsInOrder(table, listed);
    forall i | 0 <= i < |rows|
      ensures rows[i].createdAt == listed[i].createdAt
    {
      assert HoldsStep(table, listed[i]);
    }
  }

  lemma ListedRowsAreTheRows(steps: seq<Step>, table: map<Key, Row>, runId: string)
    requires Agree(steps, table)
    requires forall x <- JsonList(steps, runId) :: HoldsStep(table, x)
    ensures forall r :: r in RowsInOrder(table, JsonList(steps, runId)) <==> r in RowsOfRun(table, runId)
  {
    hide HoldsStep, JsonList;
    var listed := JsonList(steps, runId);
    var rows := RowsInOrder(table, listed);
    JsonListMembers(steps, runId);
    forall r | r in rows
      ensures r in RowsOfRun(table, runId)
    {
      var i :| 0 <= i < |rows| && rows[i] == r;
      assert listed[i] in listed;
      HeldRowKeepsKey(table, listed[i]);
      HeldIsThere(table, listed[i]);
    }
    forall r | r in RowsOfRun(table, runId)
      ensures r in rows
    {
      var key :| key in table && table[key] == r && r.runId == runId;
      var k :| 0 <= k < |steps| && KeyOf(steps[k]) == key;
      HeldRowKeepsKey(table, steps[k]);
      assert steps[k] in listed;
      var i :| 0 <= i < |listed| && listed[i] == steps[k];
      assert rows[i] == RowOf(table, listed[i]);
    }
  }

  lemma HeldIsThere(table: map<Key, Row>, step: Step)
    requires HoldsStep(table, step)
    ensures KeyOf(step) in table
  {
  }

  lemma {:induction false} ReadListed(table: map<Key, Row>, listed: seq<Step>)
    requires forall x <- listed :: HoldsStep(table, x)
    ensures Map(RowsInOrder(table, listed), ReadRow) == Map(listed, Normal)
  {
    hide ReadRow, Normal;
    if listed != [] {
      var n := |listed| - 1;
      assert forall x <- listed[..n] :: x in listed;
      ReadListed(table, listed[..n]);
      var rows := RowsInOrder(table, listed);
      assert rows[..n] == RowsInOrder(table, listed[..n]);
      assert HoldsStep(table, listed[n]);
    }
  }

  /** A witness: the array renames a step, the table keeps the old row beside the new one. */
  lemma RenamingDisagrees(step: Step, id: string)
    requires id != step.id
    ensures var u := Update(Keep, Set(id), Keep, Keep, Keep, Keep, Keep, Keep, Keep, Keep, map[]);
            var ops := [Create(step), Modify(step.runId, step.id, u)];
            && Find(JsonRun(ops), step.runId, step.id) == None
            && SqliteGet(SqliteRun(ops), step.runId, step.id) == Some(Normal(step))
  {
    var u := Update(Keep, Set(id), Keep, Keep, Keep, Keep, Keep, Keep, Keep, Keep, map[]);
    var ops := [Create(step), Modify(step.runId, step.id, u)];
    assert ops[..1] == [Create(step)] && [Create(step)][..0] == [];
    RenamedInArray(step, u, id);
    RenamedInTable(step, u, id);
    assert JsonRun([Create(step)]) == [] + [step];
    assert SqliteRun([Create(step)]) == Upsert(map[], WriteRow(step, step.createdAt));
  }

  /** Another: a new creation time shows in the array and not in the table. */
  lemma RedatingDisagrees(step: Step, time: int)
    requires time != step.createdAt
    ensures var u := Update(Keep, Keep, Set(time), Keep, Keep, Keep, Keep, Keep, Keep, Keep, map[]);
            var ops := [Create(step), Modify(step.runId, step.id, u)];
            && JsonRun(ops) == [Merged(step, u)] && Merged(step, u).createdAt == time
            && SqliteGet(SqliteRun(ops), step.runId, step.id) == Some(Normal(step))
  {
    var u := Update(Keep, Keep, Set(time), Keep, Keep, Keep, Keep, Keep, Keep, Keep, map[]);
    var ops := [Create(step), Modify(step.runId, step.id, u)];
    assert ops[..1] == [Create(step)] && [Create(step)][..0] == [];
    RedatedInArray(step, u);
    RedatedInTable(step, u);
    assert JsonRun([Create(step)]) == [] + [step];
    assert SqliteRun([Create(step)]) == Upsert(map[], WriteRow(step, step.createdAt));
  }

  lemma RedatedInArray(step: Step, u: Update)
    ensures JsonUpdated([step], step.runId, step.id, u) == [Merged(step, u)]
  {
    assert [step][..0] == [];
    assert Find([step], step.runId, step.id) == Some(0);
  }

  lemma RedatedInTable(step: Step, u: Update)
    requires u.createdAt.Set? && u == Update(Keep, Keep, u.createdAt, Keep, Keep, Keep, Keep, Keep, Keep, Keep, map[])
    ensures var table := Upsert(map[], WriteRow(step, step.createdAt));
            SqliteGet(SqliteUpdated(table, step.runId, step.id, u), step.runId, step.id) == Some(Normal(step))
  {
    var read := Merged(Normal(step), u);
    assert read == Normal(step).(createdAt := u.createdAt.value);
  }

  lemma RenamedInArray(step: Step, u: Update, id: string)
    requires id != step.id && u.id == Set(id)
    ensures Find(JsonUpdated([step], step.runId, step.id, u), step.runId, step.id) == None
  {
    assert [step][..0] == [];
    assert Find([step], step.runId, step.id) == Some(0);
  }

  lemma RenamedInTable(step: Step, u: Update, id: string)
    requires id != step.id && u.id == Set(id)
    ensures var table := Upsert(map[], WriteRow(step, step.createdAt));
            SqliteGet(SqliteUpdated(table, step.runId, step.id, u), step.runId, step.id) == Some(Normal(step))
  {
    RowKeepsKey(step, step.createdAt);
    hide ReadRow;
    var read := Merged(Normal(step), u);
    assert KeyOf(read).id == id;
    RowKeepsKey(read, step.createdAt);
  }
}
