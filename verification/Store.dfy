/** The database's operations behave as on a plain map of records, sealed or not
    (crates/chorrent/src/store.rs).  Random nonces are a parameter. */
module Stores {
  import opened Blocks
  import opened Records
  import opened Wrappers

  datatype StoreFailure = Damaged | Misplaced

  /** Whether record `key` goes when share `id` is forgotten. */
  predicate Forgotten(records: Db, id: string, key: Key) {
    || (key.1 == id && (key.0.Seeds? || key.0.Access? || key.0.Kinds?))
    || ((key.0.Downloads? || key.0.Progress?) && id + "|" <= key.1 && (Downloads, key.1) in records)
  }

  /** The records left when the share is forgotten. */
  ghost function AfterForget(records: Db, id: string): Db {
    map key | key in records && !Forgotten(records, id, key) :: records[key]
  }

  /** The records left without those called `name` in `tables`. */
  ghost function Without(records: Db, tables: seq<Table>, name: string): Db {
    map key | key in records && !(key.1 == name && key.0 in tables) :: records[key]
  }

  /** What a download into a folder is stored under. */
  function DownloadKey(id: string, folder: string): string {
    id + "|" + folder
  }

  /** Forgetting a share takes everything of it, downloads into any folder and their
      progress included, ... */
  lemma ForgetTakesItsOwn(records: Db, id: string, folder: string)
    ensures forall t: Table :: t.Seeds? || t.Access? || t.Kinds? ==> Forgotten(records, id, (t, id))
    ensures
      var key := DownloadKey(id, folder);
      (Downloads, key) in records ==>
        (Downloads, key) !in AfterForget(records, id) && (Progress, key) !in AfterForget(records, id)
  {
    assert id + "|" <= DownloadKey(id, folder);
  }

  function UpToBar(s: string): string {
    if s == [] || s[0] == '|' then [] else [s[0]] + UpToBar(s[1..])
  }

  lemma {:induction false} UpToBarIs(id: string, key: string)
    requires '|' !in id && id + "|" <= key
    ensures UpToBar(key) == id
  {
    if id == [] {
      assert key[0] == (id + "|")[0];
    } else {
      assert id + "|" == [id[0]] + (id[1..] + "|") && key[0] == (id + "|")[0];
      UpToBarIs(id[1..], key[1..]);
    }
  }

  lemma {:induction false} UpToBarIsAll(s: string)
    requires '|' !in s
    ensures UpToBar(s) == s
  {
    if s != [] {
      UpToBarIsAll(s[1..]);
    }
  }

  /** ... and nothing of any other share, though its id begins the same. */
  lemma ForgetSparesOthers(records: Db, id: string, other: string, folder: string, t: Table)
    requires '|' !in id && '|' !in other && id != other
    ensures (t, other) in records ==> (t, other) in AfterForget(records, id)
    ensures (t, DownloadKey(other, folder)) in records ==> (t, DownloadKey(other, folder)) in AfterForget(records, id)
  {
    var key := DownloadKey(other, folder);
    UpToBarIs(other, key);
    UpToBarIsAll(id);
    UpToBarIsAll(other);
    if id + "|" <= other {
      UpToBarIs(id, other);
    } else if id + "|" <= key {
      UpToBarIs(id, key);
    } else {
      assert '|' in key;
    }
  }

  lemma WithoutMore(records: Db, tables: seq<Table>, k: nat, name: string)
    requires k < |tables|
    ensures Without(records, tables[..k], name) - {(tables[k], name)} == Without(records, tables[..k + 1], name)
  {
    assert tables[..k + 1] == tables[..k] + [tables[k]];
  }

  ghost predicate Lists(out: seq<(string, seq<byte>)>, n: string) {
    exists k :: 0 <= k < |out| && out[k].0 == n
  }

  lemma ListsMore(out: seq<(string, seq<byte>)>, entry: (string, seq<byte>), n: string)
    ensures Lists(out + [entry], n) <==> Lists(out, n) || n == entry.0
  {
    assert (out + [entry])[|out|] == entry;
    if Lists(out, n) {
      var k :| 0 <= k < |out| && out[k].0 == n;
      assert (out + [entry])[k].0 == n;
    }
  }

  /** `out` is what the table's entries under `names` read as, in that order. */
  ghost predicate ReadsAs(sealer: Option<Sealer>, db: Db, t: Table, names: seq<string>, out: seq<(string, seq<byte>)>) {
    && |names| == |out|
    && (forall j, k :: 0 <= j < k < |names| ==> names[j] != names[k])
    && forall k :: 0 <= k < |names| ==>
        (t, names[k]) in db && ReadBack(sealer, t, names[k], db[(t, names[k])]) == Some(out[k])
  }

  /** What the entries of a table without markers read as are its records. */
  lemma ReadsAreRecords(
      sealer: Option<Sealer>, db: Db, records: Db, t: Table, names: seq<string>, out: seq<(string, seq<byte>)>)
    requires LawfulIfAny(sealer) && Refines(sealer, db, records) && !t.Meta? && ReadsAs(sealer, db, t, names, out)
    requires forall s :: (t, s) in db ==> s in names
    ensures forall k :: 0 <= k < |out| ==> (t, out[k].0) in records && records[(t, out[k].0)] == out[k].1
    ensures forall j, k :: 0 <= j < k < |out| ==> out[j].0 != out[k].0
    ensures forall n :: (t, n) in records ==> Lists(out, n)
  {
    forall k | 0 <= k < |out|
      ensures (t, out[k].0) in records && records[(t, out[k].0)] == out[k].1
      ensures StoredName(sealer, t, out[k].0) == names[k]
    {
      var n := EntryRefines(sealer, db, records, t, names[k]);
    }
    forall n | (t, n) in records ensures Lists(out, n) {
      assert RecordAt(sealer, db, t, n, records[(t, n)]);
      var k :| 0 <= k < |names| && names[k] == StoredName(sealer, t, n);
      assert out[k].0 == n;
    }
  }

  class Store {
    var db: Db
    var drawn: nat
    const sealer: Option<Sealer>
    const random: nat -> seq<byte>
    /** The records by their real names. */
    ghost var records: Db

    ghost predicate Valid() reads this {
      LawfulIfAny(sealer) && (forall k :: |random(k)| == NONCE) && Refines(sealer, db, records)
    }

    constructor (db: Db, sealer: Option<Sealer>, random: nat -> seq<byte>, ghost records: Db)
      requires LawfulIfAny(sealer) && (forall k :: |random(k)| == NONCE) && Refines(sealer, db, records)
      ensures Valid() && this.db == db && this.sealer == sealer && this.records == records
    {
      this.db, this.sealer, this.random, this.records, drawn := db, sealer, random, records, 0;
    }

    method RawGet(t: Table, stored: string) returns (bytes: Option<seq<byte>>)
      ensures bytes == if (t, stored) in db then Some(db[(t, stored)]) else None
    {
      bytes := if (t, stored) in db then Some(db[(t, stored)]) else None;
    }

    /** A read gives what the plain map has, and never fails.  Of a database that was
        tampered with it gives only what reads as a record of that name. */
    method Get(t: Table, name: string) returns (r: Result<Option<seq<byte>>, StoreFailure>)
      ensures Valid() && !Marker(t, name) ==> r == Ok(if (t, name) in records then Some(records[(t, name)]) else None)
      ensures
        var s := StoredName(sealer, t, name);
        && (r == Ok(None) <==> (t, s) !in db)
        && (forall v :: r == Ok(Some(v)) <==> (t, s) in db && ReadBack(sealer, t, s, db[(t, s)]) == Some((name, v)))
        && (r == Err(Damaged) <==> (t, s) in db && ReadBack(sealer, t, s, db[(t, s)]).None?)
        && (r == Err(Misplaced) ==> (t, s) in db)
    {
      if Valid() && !Marker(t, name) {
        GetRefines(sealer, db, records, t, name);
      }
      var stored := StoredName(sealer, t, name);
      var bytes := RawGet(t, stored);
      if bytes.None? {
        return Ok(None);
      }
      var entry := ReadBack(sealer, t, stored, bytes.value);
      if entry.None? {
        return Err(Damaged);
      }
      if entry.value.0 != name {
        return Err(Misplaced);
      }
      r := Ok(Some(entry.value.1));
    }

    method Put(t: Table, name: string, value: seq<byte>)
      requires Valid() && !Marker(t, name)
      modifies this
      ensures Valid() && records == old(records)[(t, name) := value]
    {
      var nonce := random(drawn);
      drawn := drawn + 1;
      PutRefines(sealer, db, records, nonce, t, name, value);
      db := db[(t, StoredName(sealer, t, name)) := Stored(sealer, nonce, t, name, value)];
      records := records[(t, name) := value];
    }

    method RemoveOne(t: Table, name: string)
      requires Valid()
      modifies this
      ensures Valid() && records == old(records) - {(t, name)}
    {
      RemoveRefines(sealer, db, records, t, name);
      db := db - {(t, StoredName(sealer, t, name))};
      records := records - {(t, name)};
    }

    /** One transaction. */
    method Remove(tables: seq<Table>, name: string)
      requires Valid()
      modifies this
      ensures Valid() && records == Without(old(records), tables, name)
    {
      ghost var was := records;
      for k := 0 to |tables|
        invariant Valid() && records == Without(was, tables[..k], name)
      {
        RemoveOne(tables[k], name);
        WithoutMore(was, tables, k, name);
      }
      assert tables[..|tables|] == tables;
    }

    /** Reads every entry of a table once, in no particular order, or fails on one
        that does not read; `names` are what they are stored under.  Of any table
        but META, which has the markers, the result is its records. */
    method Entries(t: Table) returns (r: Result<seq<(string, seq<byte>)>, StoreFailure>, ghost names: seq<string>)
      requires Valid()
      ensures r.Err? <==> exists s :: (t, s) in db && ReadBack(sealer, t, s, db[(t, s)]).None?
      ensures r.Ok? ==> ReadsAs(sealer, db, t, names, r.value) && forall s :: (t, s) in db ==> s in names
      ensures !t.Meta? ==> r.Ok?
      ensures !t.Meta? ==> forall k :: 0 <= k < |r.value| ==>
                (t, r.value[k].0) in records && records[(t, r.value[k].0)] == r.value[k].1
      ensures !t.Meta? ==> forall j, k :: 0 <= j < k < |r.value| ==> r.value[j].0 != r.value[k].0
      ensures !t.Meta? ==> forall n :: (t, n) in records ==> Lists(r.value, n)
    {
      var out: seq<(string, seq<byte>)> := [];
      names := [];
      var left := set key | key in db && key.0 == t :: key.1;
      while left != {}
        invariant forall s :: s in left ==> (t, s) in db
        invariant forall s :: s in left ==> s !in names
        invariant forall s :: (t, s) in db ==> s in left || s in names
        invariant ReadsAs(sealer, db, t, names, out)
        decreases left
      {
        var s :| s in left;
        if !t.Meta? {
          ghost var n := EntryRefines(sealer, db, records, t, s);
        }
        var entry := ReadBack(sealer, t, s, db[(t, s)]);
        if entry.None? {
          return Err(Damaged), names;
        }
        out, names := out + [entry.value], names + [s];
        left := left - {s};
      }
      if !t.Meta? {
        ReadsAreRecords(sealer, db, records, t, names, out);
      }
      r := Ok(out);
    }

    method Forget(id: string) returns (r: Result<(), StoreFailure>)
      requires Valid()
      modifies this
      ensures Valid() && r.Ok? && records == AfterForget(old(records), id)
    {
      Remove([Seeds, Access, Kinds], id);
      var entries, names := Entries(Downloads);
      if entries.Err? {
        return Err(Damaged);
      }
      ForgetIsBoth(old(records), id, entries.value);
      ForgetEntries(id, entries.value);
      r := Ok(());
    }

    method ForgetEntries(id: string, entries: seq<(string, seq<byte>)>)
      requires Valid()
      modifies this
      ensures Valid() && records == WithoutMatching(old(records), id, entries)
    {
      ghost var was := records;
      for k := 0 to |entries|
        invariant Valid() && records == WithoutMatching(was, id, entries[..k])
      {
        MatchingMore(was, id, entries, k);
        var key := entries[k].0;
        if id + "|" <= key {
          Remove([Downloads, Progress], key);
        }
      }
      assert entries[..|entries|] == entries;
    }
  }

  ghost predicate Matches(id: string, entries: seq<(string, seq<byte>)>, key: Key) {
    (key.0.Downloads? || key.0.Progress?) && id + "|" <= key.1 && Lists(entries, key.1)
  }

  ghost function WithoutMatching(records: Db, id: string, entries: seq<(string, seq<byte>)>): Db {
    map key | key in records && !Matches(id, entries, key) :: records[key]
  }

  lemma MatchingMore(records: Db, id: string, entries: seq<(string, seq<byte>)>, k: nat)
    requires k < |entries|
    ensures var was, name := WithoutMatching(records, id, entries[..k]), entries[k].0;
            WithoutMatching(records, id, entries[..k + 1])
                == if id + "|" <= name then Without(was, [Downloads, Progress], name) else was
  {
    assert entries[..k + 1] == entries[..k] + [entries[k]];
    forall n ensures Lists(entries[..k + 1], n) <==> Lists(entries[..k], n) || n == entries[k].0 {
      ListsMore(entries[..k], entries[k], n);
    }
  }

  lemma ForgetIsBoth(records: Db, id: string, entries: seq<(string, seq<byte>)>)
    requires forall n :: Lists(entries, n) <==> (Downloads, n) in Without(records, [Seeds, Access, Kinds], id)
    ensures WithoutMatching(Without(records, [Seeds, Access, Kinds], id), id, entries) == AfterForget(records, id)
  {
    forall n ensures Lists(entries, n) <==> (Downloads, n) in records {
    }
  }
}
