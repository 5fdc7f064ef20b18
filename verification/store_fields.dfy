/** What `getStep` gives after a step was created or updated, field by field, in either store. */
module StoreFields {
  import opened Common
  import opened StoreSteps

  /** The property has the value the update sets, and where it sets none the value it had. */
  predicate Tells<T(==)>(before: T, change: Change<T>, after: T) {
    match change
    case Keep => after == before
    case Set(value) => after == value
  }

  predicate DetailsTell(before: map<string, string>, changes: map<string, Option<string>>, after: map<string, string>) {
    && (forall k <- changes :: if changes[k].Some? then k in after && after[k] == changes[k].value else k !in after)
    && (forall k <- before :: k !in changes ==> k in after && after[k] == before[k])
    && (forall k <- after :: k in before || k in changes)
  }

  /** A property that a row fills in when it is absent. */
  predicate TellsOrDefault<T(==)>(before: Option<T>, change: Change<Option<T>>, after: Option<T>, default: T) {
    match change
    case Keep => after == before
    case Set(value) => after == Some(if value.Some? then value.value else default)
  }

  /** The object in the array, before and after an update. */
  predicate ObjectTells(before: Step, u: Update, after: Step) {
    && Tells(before.runId, u.runId, after.runId) && Tells(before.id, u.id, after.id)
    && Tells(before.createdAt, u.createdAt, after.createdAt)
    && Tells(before.name, u.name, after.name) && Tells(before.executor, u.executor, after.executor)
    && Tells(before.input, u.input, after.input) && Tells(before.dependsOn, u.dependsOn, after.dependsOn)
    && Tells(before.status, u.status, after.status) && Tells(before.attempt, u.attempt, after.attempt)
    && Tells(before.maxAttempts, u.maxAttempts, after.maxAttempts)
    && DetailsTell(before.details, u.details, after.details)
  }

  /** What the table gave before, and gives after, an update that leaves key and creation time alone. */
  predicate RowTells(before: Step, u: Update, after: Step) {
    && after.runId == before.runId && after.id == before.id && after.createdAt == before.createdAt
    && Tells(before.name, u.name, after.name) && Tells(before.executor, u.executor, after.executor)
    && TellsOrDefault(before.input, u.input, after.input, "{}")
    && TellsOrDefault(before.dependsOn, u.dependsOn, after.dependsOn, [])
    && TellsOrDefault(before.status, if u.status == Set(Some("")) then Set(None) else u.status, after.status, "pending")
    && TellsOrDefault(before.attempt, u.attempt, after.attempt, 0)
    && TellsOrDefault(before.maxAttempts, if u.maxAttempts == Set(Some(0)) then Set(None) else u.maxAttempts,
                      after.maxAttempts, 1)
    && DetailsTell(before.details, u.details, after.details)
  }

  /** A created step, as the table gives it back. */
  predicate RowHolds(step: Step, got: Step) {
    && got.runId == step.runId && got.id == step.id && got.createdAt == step.createdAt
    && got.name == step.name && got.executor == step.executor && got.details == step.details
    && got.input == Some(if step.input.Some? then step.input.value else "{}")
    && got.dependsOn == Some(if step.dependsOn.Some? then step.dependsOn.value else [])
    && got.status == (if step.status in {None, Some("")} then Some("pending") else step.status)
    && got.attempt == Some(if step.attempt.Some? then step.attempt.value else 0)
    && got.maxAttempts == (if step.maxAttempts in {None, Some(0)} then Some(1) else step.maxAttempts)
  }

  lemma MergedTells(step: Step, u: Update)
    ensures ObjectTells(step, u, Merged(step, u))
  {
  }

  lemma NormalHolds(step: Step)
    ensures RowHolds(step, Normal(step))
  {
  }

  lemma MergedRowTells(step: Step, u: Update)
    requires KeepsIdentity(step, u)
    ensures RowTells(Normal(step), u, Normal(Merged(step, u)))
  {
  }

  /** An update of a known step that leaves its key and creation time alone: both stores have the new values and the old. */
  lemma UpdateIsRead(steps: seq<Step>, table: map<Key, Row>, i: nat, u: Update)
    requires Agree(steps, table) && i < |steps| && KeepsIdentity(steps[i], u)
    ensures var runId, id := steps[i].runId, steps[i].id;
            var after, got := JsonUpdated(steps, runId, id, u), SqliteGet(SqliteUpdated(table, runId, id, u), runId, id);
            && |after| == |steps| && Find(after, runId, id) == Some(i) && ObjectTells(steps[i], u, after[i])
            && (forall k | 0 <= k < |steps| && k != i :: after[k] == steps[k])
            && SqliteGet(table, runId, id).Some? && got.Some?
            && RowTells(SqliteGet(table, runId, id).value, u, got.value)
            && RowHolds(after[i], got.value)
  {
    var runId, id := steps[i].runId, steps[i].id;
    OnlyOne(steps, i);
    FoundKeepsAgreement(steps, table, i, u);
    MergedTells(steps[i], u);
    NormalHolds(Merged(steps[i], u));
    MergedRowTells(steps[i], u);
    var after := JsonUpdated(steps, runId, id, u);
    hide ObjectTells, RowTells, RowHolds, ReadRow, WriteRow, Merged, Normal, SqliteUpdated;
    assert after == steps[i := Merged(steps[i], u)];
    assert HoldsStep(table, steps[i]);
    assert HoldsStep(SqliteUpdated(table, runId, id, u), after[i]);
    SameKey(steps[i], u);
    OnlyOne(after, i);
  }

  lemma SameKey(step: Step, u: Update)
    requires KeepsIdentity(step, u)
    ensures Merged(step, u).runId == step.runId && Merged(step, u).id == step.id
  {
  }

  lemma OnlyOne(steps: seq<Step>, i: nat)
    requires KeysDistinct(steps) && i < |steps|
    ensures Find(steps, steps[i].runId, steps[i].id) == Some(i)
  {
    hide Find;
    var at := Find(steps, steps[i].runId, steps[i].id);
    assert HasKey(steps[i], steps[i].runId, steps[i].id);
    assert at.Some?;
    assert KeyOf(steps[at.value]) == KeyOf(steps[i]);
  }

  /** A step created under a new key is what `getStep` then gives, with the table's defaults where it was silent. */
  lemma CreatedIsRead(steps: seq<Step>, table: map<Key, Row>, step: Step)
    requires Agree(steps, table) && IsFresh(steps, step)
    ensures var after := JsonStep(steps, Create(step));
            Find(after, step.runId, step.id) == Some(|steps|) && after[|steps|] == step && after[..|steps|] == steps
    ensures var got := SqliteGet(SqliteStep(table, Create(step)), step.runId, step.id);
            got.Some? && RowHolds(step, got.value)
  {
    CreateKeepsAgreement(steps, table, step);
    NormalHolds(step);
    var after := steps + [step];
    hide RowHolds, ReadRow, WriteRow, Normal, Upsert;
    assert HoldsStep(SqliteStep(table, Create(step)), after[|steps|]);
    OnlyOne(after, |steps|);
  }
}
