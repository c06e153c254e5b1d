/** What the database stands for (crates/chorrent/src/store.rs): records by their
    real names, whether or not they are sealed.  The keyed hash and the cipher,
    with the codec of what it seals, are parameters. */
module Records {
  import opened Blocks
  import opened Wrappers

  datatype Table = Meta | Seeds | Downloads | Progress | Access | Kinds

  type Key = (Table, string)
  type Db = map<Key, seq<byte>>

  const FORMAT: string := "format"
  const FINGERPRINT: string := "storage_key_fingerprint"
  const NONCE: nat := 24

  function TableName(t: Table): string {
    match t
    case Meta => "meta"
    case Seeds => "seeds"
    case Downloads => "downloads"
    case Progress => "progress"
    case Access => "access"
    case Kinds => "kinds"
  }

  datatype Sealer = Sealer(
    hash: string -> string,
    encrypt: (seq<byte>, string, string, seq<byte>) -> seq<byte>,
    decrypt: (seq<byte>, string, seq<byte>) -> Option<(string, seq<byte>)>)
  {
    /** Hashes do not collide and, being 64 hex digits, are never a marker's name;
        decrypting undoes encrypting. */
    ghost predicate Lawful() {
      && (forall x :: hash(x) != FORMAT && hash(x) != FINGERPRINT)
      && (forall x, y :: hash(x) == hash(y) ==> x == y)
      && forall nonce, bound, name, value :: decrypt(nonce, bound, encrypt(nonce, bound, name, value))
          == Some((name, value))
    }

    /** What was encrypted for one place does not decrypt at another. */
    ghost predicate Binds() {
      forall nonce, here, there, name, value :: here != there ==>
        decrypt(nonce, there, encrypt(nonce, here, name, value)).None?
    }

    function Bound(t: Table, name: string): string {
      TableName(t) + ['\0'] + name
    }

    function Name(t: Table, name: string): string {
      hash(Bound(t, name))
    }

    function Seal(nonce: seq<byte>, t: Table, stored: string, name: string, value: seq<byte>): seq<byte> {
      nonce + encrypt(nonce, Bound(t, stored), name, value)
    }

    function Open(t: Table, stored: string, sealed: seq<byte>): Option<(string, seq<byte>)> {
      if |sealed| < NONCE then None else decrypt(sealed[..NONCE], Bound(t, stored), sealed[NONCE..])
    }

    lemma OpenUndoesSeal(nonce: seq<byte>, t: Table, stored: string, name: string, value: seq<byte>)
      requires Lawful() && |nonce| == NONCE
      ensures Open(t, stored, Seal(nonce, t, stored, name, value)) == Some((name, value))
    {
      var sealed := Seal(nonce, t, stored, name, value);
      assert sealed[..NONCE] == nonce && sealed[NONCE..] == encrypt(nonce, Bound(t, stored), name, value);
    }

    lemma BoundIsInjective(t: Table, n: string, t': Table, n': string)
      requires Bound(t, n) == Bound(t', n')
      ensures t == t' && n == n'
    {
      UpToNulIs(TableName(t), n);
      UpToNulIs(TableName(t'), n');
      var at := |TableName(t)| + 1;
      assert n == Bound(t, n)[at..] && n' == Bound(t', n')[at..];
    }

    /** A sealed record moved to another table or stored name does not open there. */
    lemma MovedRecordIsRefused(
        nonce: seq<byte>, t: Table, stored: string, name: string, value: seq<byte>, t': Table, stored': string)
      requires Binds() && |nonce| == NONCE && (t, stored) != (t', stored')
      ensures Open(t', stored', Seal(nonce, t, stored, name, value)).None?
    {
      if Bound(t, stored) == Bound(t', stored') {
        BoundIsInjective(t, stored, t', stored');
      }
      var sealed := Seal(nonce, t, stored, name, value);
      assert sealed[..NONCE] == nonce && sealed[NONCE..] == encrypt(nonce, Bound(t, stored), name, value);
    }

    /** Different records of different tables are stored under different names. */
    lemma NameIsInjective(t: Table, n: string, t': Table, n': string)
      requires Lawful() && Name(t, n) == Name(t', n')
      ensures t == t' && n == n'
    {
      BoundIsInjective(t, n, t', n');
    }
  }

  // ---- There are such sealers ----

  /** A name in bytes: each character is a 1 and three bytes, and a 0 ends it. */
  function NameBytes(name: string): seq<byte> {
    if name == [] then [0]
    else [1] + CharBytes(name[0]) + NameBytes(name[1..])
  }

  function CharBytes(c: char): (r: seq<byte>)
    ensures |r| == 3 && CodeOf(r) == c as int
  {
    var code := c as int;
    assert code == code % 256 + 256 * (code / 256 % 256) + 65536 * (code / 65536);
    [code % 256, code / 256 % 256, code / 65536]
  }

  function CodeOf(bytes: seq<byte>): int
    requires |bytes| == 3
  {
    bytes[0] as int + 256 * bytes[1] as int + 65536 * bytes[2] as int
  }

  /** Back again, with the bytes after the name. */
  function NameFrom(bytes: seq<byte>): Option<(string, seq<byte>)> {
    if bytes == [] then None
    else if bytes[0] == 0 then Some(([], bytes[1..]))
    else if |bytes| < 4 then None
    else
      var code := CodeOf(bytes[1..4]);
      var rest := NameFrom(bytes[4..]);
      if rest.None? || !IsCode(code) then None else Some(([code as char] + rest.value.0, rest.value.1))
  }

  predicate IsCode(code: int) {
    0 <= code < 0xD800 || 0xE000 <= code < 0x11_0000
  }

  lemma {:induction false} NameRoundTrip(name: string, value: seq<byte>)
    ensures NameFrom(NameBytes(name) + value) == Some((name, value))
  {
    if name == [] {
      assert ([0] + value)[1..] == value;
    } else {
      NameRoundTrip(name[1..], value);
      var bytes := NameBytes(name) + value;
      assert bytes[1..4] == CharBytes(name[0]);
      assert bytes[4..] == NameBytes(name[1..]) + value;
      assert name == [name[0]] + name[1..];
    }
  }

  lemma LawfulSealerExists() returns (s: Sealer)
    ensures s.Lawful() && s.Binds()
  {
    s := Sealer(
      x => ['x'] + x,
      (nonce, bound, name, value) => NameBytes(bound) + (NameBytes(name) + value),
      (nonce, bound, sealed) =>
        var place := NameFrom(sealed);
        if place.None? || place.value.0 != bound then None else NameFrom(place.value.1));
    forall x: string, y: string | ['x'] + x == ['x'] + y ensures x == y {
      assert x == (['x'] + x)[1..] && y == (['x'] + y)[1..];
    }
    forall x: string ensures ['x'] + x != FORMAT && ['x'] + x != FINGERPRINT {
      assert (['x'] + x)[0] == 'x';
    }
    forall name: string, value: seq<byte> ensures NameFrom(NameBytes(name) + value) == Some((name, value)) {
      NameRoundTrip(name, value);
    }
  }

  function UpToNul(s: string): string {
    if s == [] || s[0] == '\0' then [] else [s[0]] + UpToNul(s[1..])
  }

  lemma {:induction false} UpToNulIs(a: string, n: string)
    requires '\0' !in a
    ensures UpToNul(a + ['\0'] + n) == a
  {
    if a != [] {
      UpToNulIs(a[1..], n);
      assert (a + ['\0'] + n)[1..] == a[1..] + ['\0'] + n;
    }
  }

  ghost predicate LawfulIfAny(sealer: Option<Sealer>) {
    sealer.Some? ==> sealer.value.Lawful()
  }

  /** The two entries that are never sealed. */
  predicate Marker(t: Table, name: string) {
    t == Meta && (name == FORMAT || name == FINGERPRINT)
  }

  function StoredName(sealer: Option<Sealer>, t: Table, name: string): string {
    if sealer.None? then name else sealer.value.Name(t, name)
  }

  function Stored(sealer: Option<Sealer>, nonce: seq<byte>, t: Table, name: string, value: seq<byte>): seq<byte> {
    if sealer.None? then value else sealer.value.Seal(nonce, t, StoredName(sealer, t, name), name, value)
  }

  /** What name and value the bytes found under a stored name stand for. */
  function ReadBack(sealer: Option<Sealer>, t: Table, stored: string, bytes: seq<byte>): Option<(string, seq<byte>)> {
    if sealer.None? then Some((stored, bytes)) else sealer.value.Open(t, stored, bytes)
  }

  // ---- Refinement of a plain map ----

  ghost predicate RecordAt(sealer: Option<Sealer>, db: Db, t: Table, n: string, value: seq<byte>) {
    var s := StoredName(sealer, t, n);
    !Marker(t, s) && (t, s) in db && ReadBack(sealer, t, s, db[(t, s)]) == Some((n, value))
  }

  ghost predicate NamedBy(sealer: Option<Sealer>, records: Db, t: Table, s: string) {
    exists n :: (t, n) in records && StoredName(sealer, t, n) == s
  }

  /** The database, markers aside, holds exactly these records. */
  ghost predicate Refines(sealer: Option<Sealer>, db: Db, records: Db) {
    && (forall t, n :: (t, n) in records ==> RecordAt(sealer, db, t, n, records[(t, n)]))
    && forall t, s :: (t, s) in db && !Marker(t, s) ==> NamedBy(sealer, records, t, s)
  }

  lemma StoredNameIsInjective(sealer: Option<Sealer>, t: Table, n: string, n': string)
    requires LawfulIfAny(sealer) && StoredName(sealer, t, n) == StoredName(sealer, t, n')
    ensures n == n'
  {
    if sealer.Some? {
      sealer.value.NameIsInjective(t, n, t, n');
    }
  }

  /** A lookup gives the record of that name, if there is one. */
  lemma GetRefines(sealer: Option<Sealer>, db: Db, records: Db, t: Table, n: string)
    requires LawfulIfAny(sealer) && Refines(sealer, db, records) && !Marker(t, n)
    ensures var s := StoredName(sealer, t, n);
            && !Marker(t, s)
            && ((t, s) in db <==> (t, n) in records)
            && ((t, s) in db ==> ReadBack(sealer, t, s, db[(t, s)]) == Some((n, records[(t, n)])))
  {
    var s := StoredName(sealer, t, n);
    if (t, s) in db {
      assert NamedBy(sealer, records, t, s);
      var n' :| (t, n') in records && StoredName(sealer, t, n') == s;
      StoredNameIsInjective(sealer, t, n, n');
    }
    if (t, n) in records {
      assert RecordAt(sealer, db, t, n, records[(t, n)]);
    }
  }

  lemma PutRefines(sealer: Option<Sealer>, db: Db, records: Db, nonce: seq<byte>, t: Table, n: string, value: seq<byte>)
    requires LawfulIfAny(sealer) && Refines(sealer, db, records) && !Marker(t, n) && |nonce| == NONCE
    ensures
      Refines(sealer,
              db[(t, StoredName(sealer, t, n)) := Stored(sealer, nonce, t, n, value)],
              records[(t, n) := value])
  {
    var s := StoredName(sealer, t, n);
    var db', records' := db[(t, s) := Stored(sealer, nonce, t, n, value)], records[(t, n) := value];
    if sealer.Some? {
      sealer.value.OpenUndoesSeal(nonce, t, s, n, value);
    }
    forall u, m | (u, m) in records' ensures RecordAt(sealer, db', u, m, records'[(u, m)]) {
      if (u, m) != (t, n) {
        assert RecordAt(sealer, db, u, m, records[(u, m)]);
        if u == t && StoredName(sealer, t, m) == s {
          StoredNameIsInjective(sealer, t, n, m);
        }
      }
    }
    forall u, x | (u, x) in db' && !Marker(u, x) ensures NamedBy(sealer, records', u, x) {
      if (u, x) == (t, s) {
        assert (t, n) in records' && StoredName(sealer, t, n) == x;
      } else {
        var m :| (u, m) in records && StoredName(sealer, u, m) == x;
        assert (u, m) in records';
      }
    }
  }

  lemma RemoveRefines(sealer: Option<Sealer>, db: Db, records: Db, t: Table, n: string)
    requires LawfulIfAny(sealer) && Refines(sealer, db, records)
    ensures Refines(sealer, db - {(t, StoredName(sealer, t, n))}, records - {(t, n)})
  {
    var s := StoredName(sealer, t, n);
    var db', records' := db - {(t, s)}, records - {(t, n)};
    forall u, m | (u, m) in records' ensures RecordAt(sealer, db', u, m, records'[(u, m)]) {
      assert RecordAt(sealer, db, u, m, records[(u, m)]);
      if u == t && StoredName(sealer, t, m) == s {
        StoredNameIsInjective(sealer, t, n, m);
      }
    }
    forall u, x | (u, x) in db' && !Marker(u, x) ensures NamedBy(sealer, records', u, x) {
      var m :| (u, m) in records && StoredName(sealer, u, m) == x;
      assert (u, m) in records';
    }
  }

  /** Entries of the database that are not markers are records, and so have them. */
  lemma EntryRefines(sealer: Option<Sealer>, db: Db, records: Db, t: Table, s: string) returns (n: string)
    requires LawfulIfAny(sealer) && Refines(sealer, db, records) && (t, s) in db && !Marker(t, s)
    ensures (t, n) in records && StoredName(sealer, t, n) == s
    ensures ReadBack(sealer, t, s, db[(t, s)]) == Some((n, records[(t, n)]))
  {
    assert NamedBy(sealer, records, t, s);
    n :| (t, n) in records && StoredName(sealer, t, n) == s;
    assert RecordAt(sealer, db, t, n, records[(t, n)]);
  }

  predicate HasRecords(db: Db) {
    exists key :: key in db && !Marker(key.0, key.1)
  }

  lemma HasRecordsIff(sealer: Option<Sealer>, db: Db, records: Db)
    requires LawfulIfAny(sealer) && Refines(sealer, db, records)
    ensures HasRecords(db) <==> records != map[]
  {
    if HasRecords(db) {
      var key :| key in db && !Marker(key.0, key.1);
      var n := EntryRefines(sealer, db, records, key.0, key.1);
    }
    if records != map[] {
      var key :| key in records;
      assert RecordAt(sealer, db, key.0, key.1, records[key]);
      assert (key.0, StoredName(sealer, key.0, key.1)) in db;
    }
  }
}
