/** What the write and remember routes share: their database step, snapshot
    then upsert. */
module HeartRoutes {
  import opened Wrappers
  import opened MemoryTypes
  import opened MemoryStore

  /** The tables after the snapshot step: an existing row is copied into the
      change log, otherwise nothing happens. */
  function Snapshotted(t: Tables, filename: string, changedAt: string): (u: Tables)
    requires Valid(t)
    ensures Valid(u) && u.memories == t.memories
    ensures filename !in t.memories ==> u == t
    ensures filename in t.memories ==> u == AppendChange(t, t.memories[filename], changedAt)
  {
    match Lookup(t, filename)
    case Some(existing) => AppendChange(t, existing, changedAt)
    case None => t
  }

  /** The tables after the route's database steps: snapshot, then upsert. */
  function Committed(t: Tables, parsed: ParsedMemory, changedAt: string): (u: Tables)
    requires Valid(t)
    ensures Valid(u)
  {
    Upsert(Snapshotted(t, parsed.filename, changedAt), parsed)
  }

  /** Snapshot before upsert: when a row existed, the change log gains exactly
      one entry, a copy of the row as it was before the write, and the new row
      keeps the row's id and first `created_at`; otherwise the log is unchanged
      and a fresh row is inserted. Every other row is untouched. */
  lemma SnapshotBeforeUpsert(t: Tables, parsed: ParsedMemory, changedAt: string)
    requires Valid(t)
    ensures var u := Committed(t, parsed, changedAt);
      var f := parsed.filename;
      f in u.memories &&
      (forall g :: g in t.memories && g != f ==> g in u.memories && u.memories[g] == t.memories[g]) &&
      (f in t.memories ==>
        u.changes == t.changes + [ChangeOf(t.memories[f], t.nextChangeId, changedAt)] &&
        u.changes[|t.changes|].content == t.memories[f].content &&
        u.memories[f].id == t.memories[f].id &&
        u.memories[f].createdAt == t.memories[f].createdAt &&
        u.memories[f].content == parsed.content) &&
      (f !in t.memories ==> u.changes == t.changes && u.memories[f] == RecordOf(parsed, t.nextMemoryId))
  {
    var f := parsed.filename;
    var s := Snapshotted(t, f, changedAt);
    assert s.nextMemoryId == t.nextMemoryId;
    assert Lookup(s, f) == Lookup(t, f);
  }

}
