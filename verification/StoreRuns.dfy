/** A sealed database answers every run of operations as a plain map of records
    does, and so as a plain database does: both the methods of the store and, for
    every choice of nonces, what they do to the database as functions of it. */
module StoreRuns {
  import opened Blocks
  import opened Records
  import opened Stores
  import opened Wrappers

  datatype Op =
    | Get(t: Table, name: string)
    | Put(t: Table, name: string, value: seq<byte>, nonce: seq<byte>)
    | Remove(tables: seq<Table>, name: string)
    | Entries(t: Table)
    | Forget(id: string)

  datatype Answer =
    | Nothing
    | Value(value: seq<byte>)
    | All(entries: set<(string, seq<byte>)>)
    | Unreadable

  /** What callers stick to: the markers are nobody's records. */
  ghost predicate Allowed(op: Op) {
    match op
    case Get(t, name) => !Marker(t, name)
    case Put(t, name, value, nonce) => !Marker(t, name) && |nonce| == NONCE
    case Entries(t) => !t.Meta?
    case _ => true
  }

  // ---- On a plain map ----

  ghost function PlainAnswer(records: Db, op: Op): Answer {
    match op
    case Get(t, name) => if (t, name) in records then Value(records[(t, name)]) else Nothing
    case Entries(t) => All(set key | key in records && key.0 == t :: (key.1, records[key]))
    case _ => Nothing
  }

  ghost function PlainAfter(records: Db, op: Op): Db {
    match op
    case Put(t, name, value, nonce) => records[(t, name) := value]
    case Remove(tables, name) => Without(records, tables, name)
    case Forget(id) => AfterForget(records, id)
    case _ => records
  }

  ghost function PlainAnswers(records: Db, ops: seq<Op>): seq<Answer>
    decreases |ops|
  {
    if ops == [] then [] else [PlainAnswer(records, ops[0])] + PlainAnswers(PlainAfter(records, ops[0]), ops[1..])
  }

  // ---- By the store's methods ----

  method Do(store: Store, op: Op) returns (answer: Answer)
    requires store.Valid() && Allowed(op)
    modifies store
    ensures store.Valid()
    ensures answer == PlainAnswer(old(store.records), op) && store.records == PlainAfter(old(store.records), op)
  {
    answer := Nothing;
    match op {
      case Get(t, name) =>
        var r := store.Get(t, name);
        answer := if r.Err? then Unreadable else if r.value.None? then Nothing else Value(r.value.value);
      case Put(t, name, value, nonce) => store.Put(t, name, value);
      case Remove(tables, name) => store.Remove(tables, name);
      case Entries(t) =>
        var r, names := store.Entries(t);
        answer := if r.Err? then Unreadable else All(set k | 0 <= k < |r.value| :: r.value[k]);
        EntriesAreAll(store.records, t, r.value);
      case Forget(id) =>
        var r := store.Forget(id);
        if r.Err? {
          answer := Unreadable;
        }
    }
  }

  lemma EntriesAreAll(records: Db, t: Table, out: seq<(string, seq<byte>)>)
    requires forall k :: 0 <= k < |out| ==> (t, out[k].0) in records && records[(t, out[k].0)] == out[k].1
    requires forall n :: (t, n) in records ==> Lists(out, n)
    ensures (set k | 0 <= k < |out| :: out[k]) == set key | key in records && key.0 == t :: (key.1, records[key])
  {
    var all := set k | 0 <= k < |out| :: out[k];
    forall key | key in records && key.0 == t ensures (key.1, records[key]) in all {
      assert Lists(out, key.1);
      var k :| 0 <= k < |out| && out[k].0 == key.1;
      assert out[k] == (key.1, records[key]);
    }
    forall k | 0 <= k < |out| ensures out[k] in set key | key in records && key.0 == t :: (key.1, records[key]) {
      assert (t, out[k].0) in records;
    }
  }

  method DoAll(store: Store, ops: seq<Op>) returns (answers: seq<Answer>)
    requires store.Valid() && forall k :: 0 <= k < |ops| ==> Allowed(ops[k])
    modifies store
    ensures store.Valid() && answers == PlainAnswers(old(store.records), ops)
  {
    answers := [];
    for k := 0 to |ops|
      invariant store.Valid()
      invariant answers + PlainAnswers(store.records, ops[k..]) == PlainAnswers(old(store.records), ops)
    {
      var answer := Do(store, ops[k]);
      assert ops[k..][1..] == ops[k + 1..];
      answers := answers + [answer];
    }
  }

  // ---- As functions of the database ----

  /** What the records of a table read as. */
  ghost function ReadAll(sealer: Option<Sealer>, db: Db, t: Table): set<Option<(string, seq<byte>)>> {
    set key | key in db && key.0 == t && !Marker(t, key.1) :: ReadBack(sealer, t, key.1, db[key])
  }

  ghost function Readable(read: set<Option<(string, seq<byte>)>>): set<(string, seq<byte>)> {
    set r | r in read && r.Some? :: r.value
  }

  ghost function AnswerTo(sealer: Option<Sealer>, db: Db, op: Op): Answer {
    match op
    case Get(t, name) =>
      var s := StoredName(sealer, t, name);
      if (t, s) !in db then Nothing
      else
        var entry := ReadBack(sealer, t, s, db[(t, s)]);
        if entry.None? || entry.value.0 != name then Unreadable else Value(entry.value.1)
    case Entries(t) =>
      var read := ReadAll(sealer, db, t);
      if None in read then Unreadable else All(Readable(read))
    case _ => Nothing
  }

  /** The records that forgetting a share removes, going by what DOWNLOADS reads as. */
  ghost function ToForget(downloads: set<Option<(string, seq<byte>)>>, id: string): set<Key> {
    (set t | t in {Seeds, Access, Kinds} :: (t, id))
    + (set t, entry | t in {Downloads, Progress} && entry in Readable(downloads) && id + "|" <= entry.0 :: (t, entry.0))
  }

  ghost function Dropped(sealer: Option<Sealer>, db: Db, keys: set<Key>): Db {
    db - set key | key in keys :: (key.0, StoredName(sealer, key.0, key.1))
  }

  ghost function NamedIn(tables: seq<Table>, name: string): set<Key> {
    set t | t in tables :: (t, name)
  }

  ghost function After(sealer: Option<Sealer>, db: Db, op: Op): Db {
    match op
    case Put(t, name, value, nonce) => db[(t, StoredName(sealer, t, name)) := Stored(sealer, nonce, t, name, value)]
    case Remove(tables, name) => Dropped(sealer, db, NamedIn(tables, name))
    case Forget(id) => Dropped(sealer, db, ToForget(ReadAll(sealer, db, Downloads), id))
    case _ => db
  }

  ghost function Answers(sealer: Option<Sealer>, db: Db, ops: seq<Op>): seq<Answer>
    decreases |ops|
  {
    if ops == [] then [] else [AnswerTo(sealer, db, ops[0])] + Answers(sealer, After(sealer, db, ops[0]), ops[1..])
  }

  lemma DroppedRefines(sealer: Option<Sealer>, db: Db, records: Db, keys: set<Key>)
    requires LawfulIfAny(sealer) && Refines(sealer, db, records)
    ensures Refines(sealer, Dropped(sealer, db, keys), records - keys)
  {
    var db', records' := Dropped(sealer, db, keys), records - keys;
    forall t, n | (t, n) in records' ensures RecordAt(sealer, db', t, n, records'[(t, n)]) {
      assert RecordAt(sealer, db, t, n, records[(t, n)]);
      forall key | key in keys && key.0 == t && StoredName(sealer, t, key.1) == StoredName(sealer, t, n)
        ensures key == (t, n)
      {
        StoredNameIsInjective(sealer, t, key.1, n);
      }
    }
    forall t, s | (t, s) in db' && !Marker(t, s) ensures NamedBy(sealer, records', t, s) {
      var n := EntryRefines(sealer, db, records, t, s);
      assert (t, n) in records';
    }
  }

  lemma ReadAllRefines(sealer: Option<Sealer>, db: Db, records: Db, t: Table)
    requires LawfulIfAny(sealer) && Refines(sealer, db, records)
    ensures None !in ReadAll(sealer, db, t)
    ensures forall entry :: Some(entry) in ReadAll(sealer, db, t)
             <==> (t, entry.0) in records && records[(t, entry.0)] == entry.1
  {
    forall key | key in db && key.0 == t && !Marker(t, key.1)
      ensures var r := ReadBack(sealer, t, key.1, db[key]);
              r.Some? && (t, r.value.0) in records && records[(t, r.value.0)] == r.value.1
    {
      var n := EntryRefines(sealer, db, records, t, key.1);
    }
    forall n | (t, n) in records ensures Some((n, records[(t, n)])) in ReadAll(sealer, db, t) {
      assert RecordAt(sealer, db, t, n, records[(t, n)]);
      var key := (t, StoredName(sealer, t, n));
      assert key in db && key.0 == t && ReadBack(sealer, t, key.1, db[key]) == Some((n, records[(t, n)]));
    }
  }

  /** What goes when a share is forgotten, whichever way the database reads. */
  lemma ForgetIsAfterForget(sealer: Option<Sealer>, db: Db, records: Db, id: string)
    requires LawfulIfAny(sealer) && Refines(sealer, db, records)
    ensures records - ToForget(ReadAll(sealer, db, Downloads), id) == AfterForget(records, id)
  {
    ReadAllRefines(sealer, db, records, Downloads);
    var keys := ToForget(ReadAll(sealer, db, Downloads), id);
    forall key | key in records ensures key in keys <==> Forgotten(records, id, key) {
      if (Downloads, key.1) in records {
        var entry := (key.1, records[(Downloads, key.1)]);
        assert Some(entry) in ReadAll(sealer, db, Downloads);
        assert entry in Readable(ReadAll(sealer, db, Downloads));
      }
    }
  }

  /** Every step answers as the plain map does, and refines its step. */
  lemma StepRefines(sealer: Option<Sealer>, db: Db, records: Db, op: Op)
    requires LawfulIfAny(sealer) && Refines(sealer, db, records) && Allowed(op)
    ensures AnswerTo(sealer, db, op) == PlainAnswer(records, op)
    ensures Refines(sealer, After(sealer, db, op), PlainAfter(records, op))
  {
    match op
    case Get(t, name) => GetRefines(sealer, db, records, t, name);
    case Put(t, name, value, nonce) => PutRefines(sealer, db, records, nonce, t, name, value);
    case Remove(tables, name) =>
      DroppedRefines(sealer, db, records, NamedIn(tables, name));
      assert records - NamedIn(tables, name) == Without(records, tables, name);
    case Entries(t) => EntriesRefine(sealer, db, records, t);
    case Forget(id) =>
      DroppedRefines(sealer, db, records, ToForget(ReadAll(sealer, db, Downloads), id));
      ForgetIsAfterForget(sealer, db, records, id);
  }

  lemma EntriesRefine(sealer: Option<Sealer>, db: Db, records: Db, t: Table)
    requires LawfulIfAny(sealer) && Refines(sealer, db, records)
    ensures None !in ReadAll(sealer, db, t)
    ensures Readable(ReadAll(sealer, db, t)) == set key | key in records && key.0 == t :: (key.1, records[key])
  {
    ReadAllRefines(sealer, db, records, t);
    var read := Readable(ReadAll(sealer, db, t));
    var plain := set key | key in records && key.0 == t :: (key.1, records[key]);
    forall entry ensures entry in read <==> entry in plain {
      if entry in read {
        assert Some(entry) in ReadAll(sealer, db, t);
        assert (t, entry.0) in records;
      }
      if entry in plain {
        assert Some(entry) in ReadAll(sealer, db, t);
      }
    }
  }

  lemma {:induction false} AnswersArePlain(sealer: Option<Sealer>, db: Db, records: Db, ops: seq<Op>)
    requires LawfulIfAny(sealer) && Refines(sealer, db, records) && forall k :: 0 <= k < |ops| ==> Allowed(ops[k])
    ensures Answers(sealer, db, ops) == PlainAnswers(records, ops)
    ensures Unreadable !in PlainAnswers(records, ops)
    decreases |ops|
  {
    if ops != [] {
      StepRefines(sealer, db, records, ops[0]);
      AnswersArePlain(sealer, After(sealer, db, ops[0]), PlainAfter(records, ops[0]), ops[1..]);
    }
  }

  /** Whatever the operations, names, values and nonces: a sealed database gives the
      answers a plain one does, and never takes its own records for damaged. */
  lemma SealedAnswersAsPlain(sealer: Sealer, sealed: Db, plain: Db, records: Db, ops: seq<Op>)
    requires sealer.Lawful() && Refines(Some(sealer), sealed, records) && Refines(None, plain, records)
    requires forall k :: 0 <= k < |ops| ==> Allowed(ops[k])
    ensures Answers(Some(sealer), sealed, ops) == Answers(None, plain, ops)
    ensures Unreadable !in Answers(Some(sealer), sealed, ops)
  {
    AnswersArePlain(Some(sealer), sealed, records, ops);
    AnswersArePlain(None, plain, records, ops);
  }
}
