/** A database over its whole life: opened with or without keys, written to, and
    crashing at any time, also while it is being set up (check_format in
    crates/chorrent/src/store.rs).  One process has it open at a time. */
module StoreHistory {
  import opened Blocks
  import opened Records
  import opened Wrappers

  const SEALED_V1: seq<byte> := [115, 101, 97, 108, 101, 100, 45, 118, 49]

  /** What the program derives from a storage key. */
  datatype Derive<!K(!new)> = Derive(fingerprint: K -> seq<byte>, sealer: K -> Sealer) {
    ghost predicate Lawful() {
      && (forall k, l :: fingerprint(k) == fingerprint(l) ==> k == l)
      && forall k :: sealer(k).Lawful()
    }

    function SealerOf(mode: Option<K>): Option<Sealer> {
      if mode.None? then None else Some(sealer(mode.value))
    }
  }

  datatype Verdict = Accepted | SetUp | WrongKey | TooNew | HasPlainRecords | NeedsKey

  function MetaOf(db: Db, name: string): Option<seq<byte>> {
    if (Meta, name) in db then Some(db[(Meta, name)]) else None
  }

  /** The decision taken on opening; SetUp goes on to write the two markers. */
  function CheckFormat<K(!new)>(d: Derive<K>, db: Db, key: Option<K>): Verdict {
    var format, saved := MetaOf(db, FORMAT), MetaOf(db, FINGERPRINT);
    match key
    case Some(k) =>
      if saved.Some? && saved.value != d.fingerprint(k) then WrongKey
      else if format == Some(SEALED_V1) then Accepted
      else if format.Some? then TooNew
      else if HasRecords(db) then HasPlainRecords
      else SetUp
    case None => if format.Some? || saved.Some? then NeedsKey else Accepted
  }

  /** SettingUp: the fingerprint is written, the format is not. */
  datatype Stage<K> = Closed | SettingUp(key: K) | Opened(mode: Option<K>)

  /** `records` are the records by their real names, `owner` whom the database belongs to. */
  datatype State<K> = State(db: Db, stage: Stage<K>, records: Db, owner: Option<K>)

  datatype Action<K> =
    | Open(key: Option<K>)
    | WriteFormat
    | Put(t: Table, name: string, value: seq<byte>, nonce: seq<byte>)
    | Remove(t: Table, name: string)
    | Crash
    /** A newer version of the program opens the database and leaves it like this. */
    | Upgrade(db: Db)

  /** The format is one this version does not know. */
  predicate Newer(db: Db) {
    MetaOf(db, FORMAT).Some? && MetaOf(db, FORMAT) != Some(SEALED_V1)
  }

  ghost predicate Enabled<K(!new)>(s: State<K>, a: Action<K>) {
    match a
    case Open(_) => s.stage.Closed?
    case WriteFormat => s.stage.SettingUp?
    case Put(t, name, value, nonce) => s.stage.Opened? && !Marker(t, name) && |nonce| == NONCE
    case Remove(t, name) => s.stage.Opened? && !Marker(t, name)
    case Crash => true
    case Upgrade(db) => s.stage.Closed? && Newer(db)
  }

  ghost function Next<K(!new)>(d: Derive<K>, s: State<K>, a: Action<K>): State<K>
    requires Enabled(s, a)
  {
    match a
    case Open(key) =>
      (match CheckFormat(d, s.db, key)
       case Accepted => s.(stage := Opened(key))
       case SetUp =>
         s.(db := s.db[(Meta, FINGERPRINT) := d.fingerprint(key.value)], stage := SettingUp(key.value), owner := key)
       case _ => s)
    case WriteFormat => s.(db := s.db[(Meta, FORMAT) := SEALED_V1], stage := Opened(Some(s.stage.key)))
    case Put(t, name, value, nonce) =>
      var sealer := d.SealerOf(s.stage.mode);
      s.(db := s.db[(t, StoredName(sealer, t, name)) := Stored(sealer, nonce, t, name, value)],
         records := s.records[(t, name) := value])
    case Remove(t, name) =>
      s.(db := s.db - {(t, StoredName(d.SealerOf(s.stage.mode), t, name))}, records := s.records - {(t, name)})
    case Crash => s.(stage := Closed)
    case Upgrade(db) => s.(db := db)
  }

  ghost function Start<K>(): State<K> {
    State(map[], Closed, map[], None)
  }

  /** Of a database this version knows. */
  ghost predicate KnownInv<K(!new)>(d: Derive<K>, s: State<K>) {
    && Refines(d.SealerOf(s.owner), s.db, s.records)
    && MetaOf(s.db, FINGERPRINT) == (if s.owner.None? then None else Some(d.fingerprint(s.owner.value)))
    && (MetaOf(s.db, FORMAT) == None || (MetaOf(s.db, FORMAT) == Some(SEALED_V1) && s.owner.Some?))
    && (s.owner.Some? && MetaOf(s.db, FORMAT) == None ==> s.records == map[])
    && (match s.stage
        case Closed => true
        case SettingUp(k) => s.owner == Some(k) && MetaOf(s.db, FORMAT) == None
        case Opened(mode) => mode == s.owner && (mode.Some? ==> MetaOf(s.db, FORMAT) == Some(SEALED_V1)))
  }

  ghost predicate Inv<K(!new)>(d: Derive<K>, s: State<K>) {
    if Newer(s.db) then s.stage.Closed? else KnownInv(d, s)
  }

  /** Writing a marker does not touch the records. */
  lemma MarkerRefines(sealer: Option<Sealer>, db: Db, records: Db, name: string, value: seq<byte>)
    requires Refines(sealer, db, records) && Marker(Meta, name)
    ensures Refines(sealer, db[(Meta, name) := value], records)
  {
    var db' := db[(Meta, name) := value];
    forall t, n | (t, n) in records ensures RecordAt(sealer, db', t, n, records[(t, n)]) {
      assert RecordAt(sealer, db, t, n, records[(t, n)]);
    }
    forall t, s | (t, s) in db' && !Marker(t, s) ensures NamedBy(sealer, records, t, s) {
      assert (t, s) in db;
    }
  }

  /** Without records it does not matter who the database belongs to. */
  lemma NoRecordsRefine(sealer: Option<Sealer>, other: Option<Sealer>, db: Db)
    requires Refines(sealer, db, map[])
    ensures Refines(other, db, map[])
  {
    forall t, s | (t, s) in db && !Marker(t, s) ensures NamedBy(other, map[], t, s) {
      assert NamedBy(sealer, map[], t, s);
    }
  }

  /** Only the owner's key gets in, or the first key ever given to a database
      without records; and those always do, whatever crashed before. */
  lemma WhoGetsIn<K(!new)>(d: Derive<K>, s: State<K>, key: Option<K>)
    requires d.Lawful() && KnownInv(d, s)
    ensures CheckFormat(d, s.db, key) in {Accepted, SetUp} <==> key == s.owner || (s.owner.None? && s.records == map[])
    ensures CheckFormat(d, s.db, key).Accepted? ==>
              key == s.owner && (key.Some? ==> MetaOf(s.db, FORMAT) == Some(SEALED_V1))
    ensures CheckFormat(d, s.db, key).SetUp? ==> key.Some? && s.records == map[] && MetaOf(s.db, FORMAT) == None
  {
    HasRecordsIff(d.SealerOf(s.owner), s.db, s.records);
  }

  /** And why nobody else does. */
  lemma WhyRefused<K(!new)>(d: Derive<K>, s: State<K>, key: Option<K>)
    requires d.Lawful() && KnownInv(d, s)
    ensures CheckFormat(d, s.db, key).WrongKey? <==> key.Some? && s.owner.Some? && key != s.owner
    ensures CheckFormat(d, s.db, key).NeedsKey? <==> key.None? && s.owner.Some?
    ensures CheckFormat(d, s.db, key).HasPlainRecords? <==> key.Some? && s.owner.None? && s.records != map[]
    ensures !CheckFormat(d, s.db, key).TooNew?
  {
    WhoGetsIn(d, s, key);
    HasRecordsIff(d.SealerOf(s.owner), s.db, s.records);
  }

  lemma OpenKeepsInv<K(!new)>(d: Derive<K>, s: State<K>, key: Option<K>)
    requires d.Lawful() && KnownInv(d, s) && s.stage.Closed?
    ensures KnownInv(d, Next(d, s, Open(key)))
  {
    WhoGetsIn(d, s, key);
    if CheckFormat(d, s.db, key).SetUp? {
      NoRecordsRefine(d.SealerOf(s.owner), d.SealerOf(key), s.db);
      MarkerRefines(d.SealerOf(key), s.db, s.records, FINGERPRINT, d.fingerprint(key.value));
    }
  }

  lemma PutKeepsInv<K(!new)>(d: Derive<K>, s: State<K>, t: Table, name: string, value: seq<byte>, nonce: seq<byte>)
    requires d.Lawful() && KnownInv(d, s) && Enabled(s, Put(t, name, value, nonce))
    ensures KnownInv(d, Next(d, s, Put(t, name, value, nonce)))
  {
    var sealer := d.SealerOf(s.owner);
    PutRefines(sealer, s.db, s.records, nonce, t, name, value);
    GetRefines(sealer, s.db, s.records, t, name);
  }

  lemma RemoveKeepsInv<K(!new)>(d: Derive<K>, s: State<K>, t: Table, name: string)
    requires d.Lawful() && KnownInv(d, s) && Enabled(s, Remove(t, name))
    ensures KnownInv(d, Next(d, s, Remove(t, name)))
  {
    var sealer := d.SealerOf(s.owner);
    RemoveRefines(sealer, s.db, s.records, t, name);
    GetRefines(sealer, s.db, s.records, t, name);
  }

  lemma KnownStepKeepsInv<K(!new)>(d: Derive<K>, s: State<K>, a: Action<K>)
    requires d.Lawful() && KnownInv(d, s) && Enabled(s, a) && !a.Upgrade?
    ensures KnownInv(d, Next(d, s, a)) && !Newer(Next(d, s, a).db)
    ensures Next(d, s, a).owner == s.owner || (s.owner.None? && s.records == map[])
  {
    match a
    case Open(key) =>
      WhoGetsIn(d, s, key);
      OpenKeepsInv(d, s, key);
    case WriteFormat => MarkerRefines(d.SealerOf(s.owner), s.db, s.records, FORMAT, SEALED_V1);
    case Put(t, name, value, nonce) => PutKeepsInv(d, s, t, name, value, nonce);
    case Remove(t, name) => RemoveKeepsInv(d, s, t, name);
    case Crash =>
  }

  /** Every step keeps the invariant.  A key that owns the database keeps it, and
      one that takes it over finds no records. */
  lemma StepKeepsInv<K(!new)>(d: Derive<K>, s: State<K>, a: Action<K>)
    requires d.Lawful() && Inv(d, s) && Enabled(s, a)
    ensures Inv(d, Next(d, s, a))
    ensures Next(d, s, a).owner == s.owner || (s.owner.None? && s.records == map[])
    ensures Newer(s.db) ==> Newer(Next(d, s, a).db) && (!a.Upgrade? ==> Next(d, s, a) == s)
  {
    if !Newer(s.db) && !a.Upgrade? {
      KnownStepKeepsInv(d, s, a);
    }
  }

  ghost predicate Runs<K(!new)>(d: Derive<K>, s: State<K>, actions: seq<Action<K>>)
    decreases |actions|
  {
    actions == [] || (Enabled(s, actions[0]) && Runs(d, Next(d, s, actions[0]), actions[1..]))
  }

  ghost function Run<K(!new)>(d: Derive<K>, s: State<K>, actions: seq<Action<K>>): (r: State<K>)
    requires Runs(d, s, actions)
    decreases |actions|
  {
    if actions == [] then s else Run(d, Next(d, s, actions[0]), actions[1..])
  }

  lemma {:induction false} RunKeepsInv<K(!new)>(d: Derive<K>, s: State<K>, actions: seq<Action<K>>)
    requires d.Lawful() && Inv(d, s) && Runs(d, s, actions)
    ensures Inv(d, Run(d, s, actions))
    ensures s.owner.Some? ==> Run(d, s, actions).owner == s.owner
    ensures Newer(s.db) ==> Newer(Run(d, s, actions).db)
    ensures Newer(s.db) && (forall k :: 0 <= k < |actions| ==> !actions[k].Upgrade?) ==> Run(d, s, actions) == s
    decreases |actions|
  {
    if actions != [] {
      StepKeepsInv(d, s, actions[0]);
      RunKeepsInv(d, Next(d, s, actions[0]), actions[1..]);
    }
  }

  /** In every history, until a newer version takes the database over, all the
      records are stored under one and the same key, or all in the clear: whoever
      has the database open reads each of them back, and nobody else gets in while
      there are any. */
  lemma RecordsAreNeverMixed<K(!new)>(d: Derive<K>, actions: seq<Action<K>>)
    requires d.Lawful() && Runs(d, Start(), actions) && !Newer(Run(d, Start(), actions).db)
    ensures var s := Run(d, Start(), actions);
            && Refines(d.SealerOf(s.owner), s.db, s.records)
            && (s.stage.Opened? ==> s.stage.mode == s.owner)
            && forall key :: s.records != map[] ==> (CheckFormat(d, s.db, key) in {Accepted, SetUp} <==> key == s.owner)
  {
    RunKeepsInv(d, Start(), actions);
    var s := Run(d, Start(), actions);
    forall key | s.records != map[] ensures CheckFormat(d, s.db, key) in {Accepted, SetUp} <==> key == s.owner {
      WhoGetsIn(d, s, key);
    }
  }

  /** Once set up with a key, a database opens with that key and no other for good,
      unless a newer version takes it over: then it opens with none. */
  lemma OwnedForGood<K(!new)>(d: Derive<K>, before: seq<Action<K>>, after: seq<Action<K>>, key: Option<K>)
    requires d.Lawful() && Runs(d, Start(), before) && Run(d, Start(), before).owner.Some?
    requires Runs(d, Run(d, Start(), before), after)
    ensures var owner, s := Run(d, Start(), before).owner, Run(d, Run(d, Start(), before), after);
            && s.owner == owner
            && (CheckFormat(d, s.db, key) in {Accepted, SetUp} <==> key == owner && !Newer(s.db))
  {
    RunKeepsInv(d, Start(), before);
    var s := Run(d, Start(), before);
    RunKeepsInv(d, s, after);
    if !Newer(Run(d, s, after).db) {
      WhoGetsIn(d, Run(d, s, after), key);
    }
  }

  /** What a newer version leaves is left alone: through any opens and crashes, with
      whatever keys, nothing in it changes and it is never open. */
  lemma NewerIsLeftAlone<K(!new)>(d: Derive<K>, before: seq<Action<K>>, db: Db, after: seq<Action<K>>)
    requires d.Lawful() && Runs(d, Start(), before) && Enabled(Run(d, Start(), before), Upgrade(db))
    requires Runs(d, Next(d, Run(d, Start(), before), Upgrade(db)), after)
    requires forall k :: 0 <= k < |after| ==> !after[k].Upgrade?
    ensures var s := Run(d, Next(d, Run(d, Start(), before), Upgrade(db)), after);
            s.db == db && s.stage.Closed?
  {
    RunKeepsInv(d, Start(), before);
    RunKeepsInv(d, Next(d, Run(d, Start(), before), Upgrade(db)), after);
  }

  /** There are such keys. */
  lemma LawfulDeriveExists() returns (d: Derive<nat>)
    ensures d.Lawful()
  {
    var sealer := LawfulSealerExists();
    d := Derive((k: nat) => Zeros(k), (k: nat) => sealer);
    forall k: nat, l: nat | d.fingerprint(k) == d.fingerprint(l) ensures k == l {
      assert |d.fingerprint(k)| == k && |d.fingerprint(l)| == l;
    }
  }
}
