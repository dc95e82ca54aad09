/** The `Vault` class: a closed/open state machine over an id-keyed map of
    records, persisted to one file through the header and block format.
    Every operation takes the vault's state and the file system and returns
    the new state, the new file system and the value or exception. */
module VaultEngine {
  import opened Base
  import opened Errors
  import opened NumText
  import opened Utils
  import opened PasswordEntry
  import opened Crypto
  import opened InStream
  import opened VaultFormat
  import opened OrderedKeys

  /** The file system: path to contents. */
  type Files = map<CStr, seq<Byte>>

  type Entries = map<Int32, Entry>

  /** The data members of a `Vault`. The key of a closed vault may be empty. */
  datatype Vault = Vault(
    filename: CStr,
    passwordHash: CStr,
    salt: seq<Byte>,
    key: seq<Byte>,
    iterations: Int32,
    isOpen: bool,
    entries: Entries,
    nextId: Int32)

  /** The state after an operation, and its value or exception. */
  datatype Step<T> = Step(vault: Vault, files: Files, result: Result<T>)

  const DEFAULT_ITERATIONS: Int32 := 100000
  const NOT_OPEN: Error := Custom("Vault is not open")
  const ALREADY_OPEN: Error := Custom("Vault is already open")
  const WRONG_PASSWORD: Error := InvalidPassword("Incorrect password")

  function NotFound(id: Int32): Error
  {
    EntryError("Entry Error: Entry not found: " + IntToString(id))
  }

  /** The constructor: the filename is fixed for the object's lifetime, the
      vault starts closed and empty, and ids will start at 1. */
  function NewVault(filename: CStr): (v: Vault)
    ensures v.filename == filename && !v.isOpen && v.entries == map[]
    ensures v.nextId == 1 && v.iterations == DEFAULT_ITERATIONS
    ensures Valid(v)
  {
    Vault(filename, "", [], [], DEFAULT_ITERATIONS, false, map[], 1)
  }

  /** Every record is stored under its own id. */
  predicate KeysAreIds(m: Entries)
  {
    forall k :: k in m ==> m[k].id == k
  }

  /** The counter is at least 1, above every stored id, and either still 1
      or one past a stored id. */
  predicate CounterPastIds(m: Entries, n: Int32)
  {
    n >= 1 && (forall k :: k in m ==> k < n) && (n == 1 || n - 1 in m)
  }

  /** The class invariant: an open vault holds a full salt, key and hash. */
  predicate Valid(v: Vault)
  {
    && (v.isOpen ==> |v.salt| == SALT_SIZE && |v.key| == KEY_SIZE && |v.passwordHash| == HASH_SIZE)
    && KeysAreIds(v.entries)
  }

  function HeaderOf(v: Vault): Header
  {
    Header(v.salt, v.iterations, StringToBytes(v.passwordHash))
  }

  /** `hashPassword`. */
  function HashPassword(c: Cipher, password: CStr): Digest
  {
    c.sha256(password)
  }

  /** `verifyPassword`: the hash of the candidate against the stored hash. */
  function VerifyPassword(c: Cipher, password: CStr, storedHash: CStr): (o: Outcome)
    ensures o == Pass <==> HashPassword(c, password) == StringToBytes(storedHash)
    ensures o.Fail? ==> o.error == WRONG_PASSWORD
  {
    if HashPassword(c, password) != StringToBytes(storedHash) then Fail(WRONG_PASSWORD) else Pass
  }

  /** A stored hash made from a password accepts exactly that password's hash. */
  lemma {:induction false} VerifyStoredHash(c: Cipher, password: CStr, other: CStr)
    ensures VerifyPassword(c, password, BytesToString(HashPassword(c, password))) == Pass
    ensures (VerifyPassword(c, other, BytesToString(HashPassword(c, password))) == Pass)
              == (HashPassword(c, other) == HashPassword(c, password))
  {
    BytesStringRoundTrip([], HashPassword(c, password));
  }

  /** A block holding `plain` encrypted under `key` and `iv`. */
  function Sealed(c: Cipher, key: seq<Byte>, plain: seq<Byte>, iv: seq<Byte>): seq<Byte>
  {
    EncodeBlock(iv, c.encrypt(plain, key, iv))
  }

  /** The count block: the entry count's four bytes, encrypted. */
  function CountBlock(c: Cipher, key: seq<Byte>, count: int, iv: seq<Byte>): seq<Byte>
  {
    Sealed(c, key, Le32(Wrap32(count)), iv)
  }

  /** One record's block: its serialized text, encrypted. */
  function EntryBlock(c: Cipher, key: seq<Byte>, e: Entry, iv: seq<Byte>): seq<Byte>
  {
    Sealed(c, key, StringToBytes(Serialize(e)), iv)
  }

  /** The blocks of the records under `ks`, in that order, the `j`-th using
      the IV `ivs(i + j)`. */
  function EntryBlocks(c: Cipher, key: seq<Byte>, m: Entries, ks: seq<Int32>, ivs: nat -> Iv, i: nat): seq<Byte>
    requires forall j :: 0 <= j < |ks| ==> ks[j] in m
  {
    if ks == [] then []
    else EntryBlock(c, key, m[ks[0]], ivs(i)) + EntryBlocks(c, key, m, ks[1..], ivs, i + 1)
  }

  /** The file `save` writes: header, count block, then one block per record
      in ascending id order. IV number 0 is drawn for the count, then one per
      record. */
  function Image(c: Cipher, v: Vault, ivs: nat -> Iv): seq<Byte>
    requires Valid(v) && v.isOpen
  {
    EncodeHeader(HeaderOf(v))
      + (CountBlock(c, v.key, |v.entries|, ivs(0))
         + EntryBlocks(c, v.key, v.entries, Ascending(v.entries.Keys), ivs, 1))
  }

  function TempName(filename: CStr): CStr
  {
    filename + ".tmp"
  }

  /** `save`: the image goes to `filename.tmp`, the old file is removed and
      the temporary renamed over it. Only the vault file changes, and no
      temporary is left behind. */
  function Save(c: Cipher, v: Vault, fs: Files, ivs: nat -> Iv): (s: Step<()>)
    requires Valid(v)
    ensures s.vault == v
    ensures s.result.Ok? <==> v.isOpen
    ensures s.result.Err? ==> s.result.error == NOT_OPEN && s.files == fs
    ensures s.result.Ok? ==> s.files.Keys == fs.Keys - {TempName(v.filename)} + {v.filename}
    ensures s.result.Ok? ==> forall p :: p in fs && p != v.filename && p != TempName(v.filename) ==> s.files[p] == fs[p]
  {
    if !v.isOpen then Step(v, fs, Err(NOT_OPEN))
    else Step(v, (fs - {TempName(v.filename)})[v.filename := Image(c, v, ivs)], Ok(()))
  }

  /** `create`: refused on an open vault or an existing file; otherwise a
      fresh salt, the derived key and the password hash are installed and a
      file with the header and a count of zero is written. The filename,
      iteration count, record map and `nextId` are left as they were. */
  function Create(c: Cipher, v: Vault, fs: Files, password: CStr, salt: Salt, iv: Iv): (s: Step<()>)
    ensures s.result.Ok? <==> !v.isOpen && v.filename !in fs
    ensures v.isOpen ==> s == Step(v, fs, Err(ALREADY_OPEN))
    ensures !v.isOpen && v.filename in fs ==> s == Step(v, fs, Err(FileError("File Error: Vault file already exists: " + v.filename)))
    ensures s.result.Ok? ==> s.vault == v.(salt := salt, key := c.deriveKey(password, salt),
                                           passwordHash := s.vault.passwordHash, isOpen := true)
                             && VerifyPassword(c, password, s.vault.passwordHash) == Pass
                             && v.filename in s.files && s.files == fs[v.filename := s.files[v.filename]]
    ensures Valid(v) ==> Valid(s.vault)
  {
    if v.isOpen then Step(v, fs, Err(ALREADY_OPEN))
    else if v.filename in fs then Step(v, fs, Err(FileError("File Error: Vault file already exists: " + v.filename)))
    else
      var v1 := v.(salt := salt, key := c.deriveKey(password, salt),
                   passwordHash := BytesToString(HashPassword(c, password)), isOpen := true);
      BytesStringRoundTrip([], HashPassword(c, password));
      var image := EncodeHeader(HeaderOf(v1)) + CountBlock(c, v1.key, 0, iv);
      Step(v1, fs[v.filename := image], Ok(()))
  }

  /** What loading the record blocks produced: the map and counter so far,
      and whether the loop finished. */
  datatype Loaded = Loaded(entries: Entries, nextId: Int32, outcome: Outcome)

  /** The loop of `open` that reads `remaining` record blocks. Each block's IV
      is read into the buffer of the previous one; each record is decrypted,
      turned back into text and deserialized, then stored under its id, and
      `nextId` moves past it. The first failure ends the loop with what has
      been stored so far. Whatever order the file lists the records in, no
      stored key is dropped and the counter stays past every id, unless some
      loaded id is `INT_MAX`, where `id + 1` wraps. */
  function LoadEntries(c: Cipher, key: seq<Byte>, st: IStream, iv: seq<Byte>, remaining: nat, m: Entries, nextId: Int32): (r: Loaded)
    ensures KeysAreIds(m) ==> KeysAreIds(r.entries)
    ensures r.outcome.Fail? ==> LoadError(r.outcome.error)
    ensures m.Keys <= r.entries.Keys
    ensures CounterPastIds(m, nextId) && (forall k :: k in r.entries ==> k < INT32_MAX) ==> CounterPastIds(r.entries, r.nextId)
    decreases remaining, 2
  {
    if remaining == 0 then Loaded(m, nextId, Pass)
    else LoadRecord(c, key, st, iv, remaining, m, nextId)
  }

  /** One turn of that loop, and the turns after it. */
  function LoadRecord(c: Cipher, key: seq<Byte>, st: IStream, iv: seq<Byte>, remaining: nat, m: Entries, nextId: Int32): (r: Loaded)
    requires remaining > 0
    ensures KeysAreIds(m) ==> KeysAreIds(r.entries)
    ensures r.outcome.Fail? ==> LoadError(r.outcome.error)
    ensures m.Keys <= r.entries.Keys
    ensures CounterPastIds(m, nextId) && (forall k :: k in r.entries ==> k < INT32_MAX) ==> CounterPastIds(r.entries, r.nextId)
    decreases remaining, 1
  {
    match ReadBlock(st, iv)
    case Err(e) => Loaded(m, nextId, Fail(e))
    case Ok(chunk) =>
      match Decrypt(c, chunk.body, key, chunk.iv)
      case Err(e) => Loaded(m, nextId, Fail(e))
      case Ok(plain) =>
        match Deserialize(BytesToString(plain))
        case Err(e) => Loaded(m, nextId, Fail(e))
        case Ok(entry) => LoadNext(c, key, chunk, remaining, m, nextId, entry)
  }

  /** The end of a turn: `entry` is stored under its id, `nextId` moves past
      it, and the remaining blocks are read after `chunk`. */
  function LoadNext(c: Cipher, key: seq<Byte>, chunk: Chunk, remaining: nat, m: Entries, nextId: Int32, entry: Entry): (r: Loaded)
    requires remaining > 0
    ensures KeysAreIds(m) ==> KeysAreIds(r.entries)
    ensures r.outcome.Fail? ==> LoadError(r.outcome.error)
    ensures m.Keys <= r.entries.Keys
    ensures CounterPastIds(m, nextId) && (forall k :: k in r.entries ==> k < INT32_MAX) ==> CounterPastIds(r.entries, r.nextId)
    decreases remaining, 0
  {
    var next := if entry.id >= nextId then Succ32(entry.id) else nextId;
    var r := LoadEntries(c, key, chunk.rest, chunk.iv, remaining - 1, m[entry.id := entry], next);
    CounterStep(m, nextId, entry, r.entries);
    r
  }

  /** Storing a record and moving the counter as the loop does keeps the
      counter past every id, provided the record's id, which the final map
      holds, is below `INT_MAX`. */
  lemma {:induction false} CounterStep(m: Entries, n: Int32, e: Entry, final: Entries)
    requires m[e.id := e].Keys <= final.Keys
    ensures CounterPastIds(m, n) && (forall k :: k in final ==> k < INT32_MAX)
            ==> CounterPastIds(m[e.id := e], if e.id >= n then Succ32(e.id) else n)
  {
    if CounterPastIds(m, n) && forall k :: k in final ==> k < INT32_MAX {
      assert e.id in final;
    }
  }

  /** The exceptions a record can make the loop end with. */
  predicate LoadError(e: Error)
  {
    e == HUGE_VECTOR || e.RuntimeError? || e == FORMAT_ERROR || e.InvalidArgument? || e.OutOfRange?
  }

  /** The entry count `memcpy` takes from the decrypted count block. */
  function CountOf(plain: seq<Byte>): Int32
  {
    FromLe32(Resize(plain, 4))
  }

  /** A vault state together with the outcome of an operation that only
      reads the file system. */
  datatype Opened = Opened(vault: Vault, result: Result<()>)

  /** `open`. Refused on an open vault or a missing file. Then, in order: the
      header (bad magic is a corrupt vault, another version the generic
      exception), the password check, key derivation, the count block and
      the records. The vault only opens when all of that succeeds, but each
      step's effect on the members stays when a later one fails. */
  function Open(c: Cipher, v: Vault, fs: Files, password: CStr): (s: Step<()>)
    ensures s.files == fs && s.vault.filename == v.filename
    ensures s.result.Ok? ==> !v.isOpen && s.vault.isOpen
    ensures s.result.Err? ==> s.vault.isOpen == v.isOpen
    ensures v.isOpen ==> s == Step(v, fs, Err(ALREADY_OPEN))
    ensures !v.isOpen && v.filename !in fs ==> s == Step(v, fs, Err(FileError("File Error: Cannot open vault file: " + v.filename)))
    ensures s.result.Err? && s.result.error.CorruptedVault? <==>
              !v.isOpen && v.filename in fs && ReadMagic(OpenOn(fs[v.filename])) != MAGIC
    ensures s.result.Err? && s.result.error.CorruptedVault? ==> s.result.error == BAD_MAGIC && s.vault == v
    ensures s.result == Err(WRONG_PASSWORD) ==> s.vault.key == v.key && s.vault.entries == v.entries
    ensures !v.isOpen && v.filename in fs && ReadHeader(OpenOn(fs[v.filename]), v.salt, v.iterations).Ok? ==>
              (s.result == Err(WRONG_PASSWORD) <==>
               HashPassword(c, password) != ReadHeader(OpenOn(fs[v.filename]), v.salt, v.iterations).value.0.hash)
    ensures !v.isOpen && v.filename in fs && ReadHeader(OpenOn(fs[v.filename]), v.salt, v.iterations).Err? ==>
              s == Step(v, fs, Err(ReadHeader(OpenOn(fs[v.filename]), v.salt, v.iterations).error))
    ensures s.result.Err? ==> !s.result.error.CryptographyError?
    ensures Valid(v) ==> Valid(s.vault)
  {
    if v.isOpen then Step(v, fs, Err(ALREADY_OPEN))
    else if v.filename !in fs then Step(v, fs, Err(FileError("File Error: Cannot open vault file: " + v.filename)))
    else
      var o := Unlock(c, v, fs[v.filename], password);
      Step(o.vault, fs, o.result)
  }

  /** `open` once the file is open: the header, then the password check,
      then the rest. */
  function Unlock(c: Cipher, v: Vault, data: seq<Byte>, password: CStr): (o: Opened)
    requires !v.isOpen
    ensures o.vault.filename == v.filename
    ensures o.result.Ok? <==> o.vault.isOpen
    ensures o.result.Err? && o.result.error.CorruptedVault? <==> ReadMagic(OpenOn(data)) != MAGIC
    ensures o.result.Err? && o.result.error.CorruptedVault? ==> o.result.error == BAD_MAGIC && o.vault == v
    ensures o.result == Err(WRONG_PASSWORD) ==> o.vault.key == v.key && o.vault.entries == v.entries
    ensures ReadHeader(OpenOn(data), v.salt, v.iterations).Ok? ==>
              (o.result == Err(WRONG_PASSWORD) <==>
               HashPassword(c, password) != ReadHeader(OpenOn(data), v.salt, v.iterations).value.0.hash)
    ensures ReadHeader(OpenOn(data), v.salt, v.iterations).Err? ==>
              o == Opened(v, Err(ReadHeader(OpenOn(data), v.salt, v.iterations).error))
    ensures o.result.Err? ==> !o.result.error.CryptographyError?
    ensures Valid(v) ==> Valid(o.vault)
  {
    match ReadHeader(OpenOn(data), v.salt, v.iterations)
    case Err(e) => Opened(v, Err(e))
    case Ok((h, st)) =>
      BytesStringRoundTrip([], h.hash);
      var v1 := v.(salt := h.salt, iterations := h.iterations, passwordHash := BytesToString(h.hash));
      match VerifyPassword(c, password, v1.passwordHash)
      case Fail(e) => Opened(v1, Err(e))
      case Pass => LoadVault(c, v1.(key := c.deriveKey(password, v1.salt)), st)
  }

  /** The rest of `open`, with the header read and the key derived: the
      count block, then the records. Loading starts from an empty map and
      `nextId` 1. */
  function LoadVault(c: Cipher, v: Vault, st: IStream): (o: Opened)
    requires !v.isOpen
    ensures o.vault == v.(entries := o.vault.entries, nextId := o.vault.nextId, isOpen := o.result.Ok?)
    ensures o.result.Err? ==> LoadError(o.result.error)
    ensures o.result.Err? ==> KeysAreIds(o.vault.entries) || o.vault.entries == v.entries
    ensures o.result.Ok? ==> KeysAreIds(o.vault.entries)
  {
    match ReadBlock(st, Zeros(IV_SIZE))
    case Err(e) => Opened(v, Err(e))
    case Ok(chunk) =>
      match Decrypt(c, chunk.body, v.key, chunk.iv)
      case Err(e) => Opened(v, Err(e))
      case Ok(plain) =>
        var count := CountOf(plain);
        var loaded := LoadEntries(c, v.key, chunk.rest, chunk.iv, if count > 0 then count else 0, map[], 1);
        var v1 := v.(entries := loaded.entries, nextId := loaded.nextId);
        match loaded.outcome
        case Fail(e) => Opened(v1, Err(e))
        case Pass => Opened(v1.(isOpen := true), Ok(()))
  }

  /** `close`: an open vault forgets its key and records and closes; the id
      counter, salt, password hash and iteration count survive. A closed
      vault is left alone. */
  function Close(v: Vault): (r: Vault)
    ensures !r.isOpen && r.filename == v.filename && r.nextId == v.nextId
    ensures v.isOpen ==> r == v.(key := [], entries := map[], isOpen := false)
    ensures !v.isOpen ==> r == v
    ensures Valid(v) ==> Valid(r)
  {
    if v.isOpen then v.(key := [], entries := map[], isOpen := false) else v
  }

  /** The destructor: an open vault is saved and closed, and any failure is swallowed. */
  function Destroy(c: Cipher, v: Vault, fs: Files, ivs: nat -> Iv): (r: (Vault, Files))
    requires Valid(v)
    ensures !r.0.isOpen
    ensures r.1 == Save(c, v, fs, ivs).files
  {
    if v.isOpen then (Close(v), Save(c, v, fs, ivs).files) else (v, fs)
  }

  /** `addEntry`: the caller's id is ignored; the record is stored under
      `nextId` (through `setId`, which also stamps `lastModified`), the
      counter moves on and the vault is saved. The assigned id is returned. */
  function AddEntry(c: Cipher, v: Vault, fs: Files, entry: Entry, now: Int64, ivs: nat -> Iv): (s: Step<Int32>)
    requires Valid(v)
    ensures Valid(s.vault)
    ensures s.result.Ok? <==> v.isOpen
    ensures !v.isOpen ==> s == Step(v, fs, Err(NOT_OPEN))
    ensures s.result.Ok? ==> var id := s.result.value;
              && id == v.nextId
              && s.vault == v.(entries := v.entries[id := SetId(entry, id, now)], nextId := Succ32(v.nextId))
              && s.files == Save(c, s.vault, fs, ivs).files
  {
    if !v.isOpen then Step(v, fs, Err(NOT_OPEN))
    else
      var e := SetId(entry, v.nextId, now);
      var v1 := v.(entries := v.entries[v.nextId := e], nextId := Succ32(v.nextId));
      var saved := Save(c, v1, fs, ivs);
      Step(v1, saved.files, Ok(e.id))
  }

  /** `getEntry`. */
  function GetEntry(v: Vault, id: Int32): (r: Result<Entry>)
    ensures !v.isOpen ==> r == Err(NOT_OPEN)
    ensures v.isOpen && id !in v.entries ==> r == Err(NotFound(id))
    ensures r.Ok? <==> v.isOpen && id in v.entries
    ensures r.Ok? ==> r.value == v.entries[id]
  {
    if !v.isOpen then Err(NOT_OPEN)
    else if id !in v.entries then Err(NotFound(id))
    else Ok(v.entries[id])
  }

  /** `updateEntry`: the caller's record replaces the one under its id, as
      given (no stamp is refreshed), and the vault is saved. */
  function UpdateEntry(c: Cipher, v: Vault, fs: Files, entry: Entry, ivs: nat -> Iv): (s: Step<()>)
    requires Valid(v)
    ensures Valid(s.vault)
    ensures s.result.Ok? <==> v.isOpen && entry.id in v.entries
    ensures !v.isOpen ==> s == Step(v, fs, Err(NOT_OPEN))
    ensures v.isOpen && entry.id !in v.entries ==> s == Step(v, fs, Err(NotFound(entry.id)))
    ensures s.result.Ok? ==> s.vault == v.(entries := v.entries[entry.id := entry])
                             && s.files == Save(c, s.vault, fs, ivs).files
  {
    if !v.isOpen then Step(v, fs, Err(NOT_OPEN))
    else if entry.id !in v.entries then Step(v, fs, Err(NotFound(entry.id)))
    else
      var v1 := v.(entries := v.entries[entry.id := entry]);
      Step(v1, Save(c, v1, fs, ivs).files, Ok(()))
  }

  /** `deleteEntry`: removes that id and saves. */
  function DeleteEntry(c: Cipher, v: Vault, fs: Files, id: Int32, ivs: nat -> Iv): (s: Step<()>)
    requires Valid(v)
    ensures Valid(s.vault)
    ensures s.result.Ok? <==> v.isOpen && id in v.entries
    ensures !v.isOpen ==> s == Step(v, fs, Err(NOT_OPEN))
    ensures v.isOpen && id !in v.entries ==> s == Step(v, fs, Err(NotFound(id)))
    ensures s.result.Ok? ==> s.vault == v.(entries := v.entries - {id})
                             && s.files == Save(c, s.vault, fs, ivs).files
  {
    if !v.isOpen then Step(v, fs, Err(NOT_OPEN))
    else if id !in v.entries then Step(v, fs, Err(NotFound(id)))
    else
      var v1 := v.(entries := v.entries - {id});
      Step(v1, Save(c, v1, fs, ivs).files, Ok(()))
  }

  /** The records in ascending id order. */
  function InOrder(m: Entries): (r: seq<Entry>)
    ensures |r| == |m|
    ensures forall e :: e in r <==> exists k :: k in m && m[k] == e
    ensures KeysAreIds(m) ==> IdsIncreasing(r)
  {
    var ks := Ascending(m.Keys);
    AscendingIncreases(m.Keys);
    Listed(m, ks)
  }

  /** The records of `m` under the keys `ks`, in the order of `ks`, when `ks`
      lists every key of `m`. */
  function Listed(m: Entries, ks: seq<Int32>): (r: seq<Entry>)
    requires forall k :: k in ks <==> k in m
    ensures |r| == |ks|
    ensures forall i :: 0 <= i < |ks| ==> r[i] == m[ks[i]]
    ensures forall e :: e in r <==> exists k :: k in m && m[k] == e
  {
    var r := seq(|ks|, i requires 0 <= i < |ks| => m[ks[i]]);
    forall k | k in m
      ensures m[k] in r
    {
      var i :| 0 <= i < |ks| && ks[i] == k;
      assert r[i] == m[k];
    }
    forall e | e in r
      ensures exists k :: k in m && m[k] == e
    {
      var i :| 0 <= i < |r| && r[i] == e;
      assert ks[i] in m;
    }
    r
  }

  /** `getAllEntries`: every record, by ascending id. */
  function GetAllEntries(v: Vault): (r: Result<seq<Entry>>)
    requires Valid(v)
    ensures r.Ok? <==> v.isOpen
    ensures r.Err? ==> r.error == NOT_OPEN
    ensures r.Ok? ==> |r.value| == |v.entries| && forall e :: e in r.value <==> e in v.entries.Values
    ensures r.Ok? ==> IdsIncreasing(r.value)
  {
    if !v.isOpen then Err(NOT_OPEN) else Ok(InOrder(v.entries))
  }

  /** `q` occurs in `s` at position `i`. */
  predicate OccursAt(q: CStr, s: CStr, i: int)
  {
    0 <= i && i + |q| <= |s| && s[i..i + |q|] == q
  }

  /** `q` occurs somewhere in `s`. */
  ghost predicate Occurs(q: CStr, s: CStr)
  {
    exists i :: OccursAt(q, s, i)
  }

  /** `std::string::find`: the first position from `from` where `q` occurs
      in `s`, or -1 for `npos`. */
  function Find(s: CStr, q: CStr, from: nat): (r: int)
    ensures r == -1 || (from <= r && OccursAt(q, s, r))
    ensures r == -1 ==> forall i :: from <= i ==> !OccursAt(q, s, i)
    ensures r != -1 ==> forall i :: from <= i < r ==> !OccursAt(q, s, i)
    decreases |s| - from
  {
    if from + |q| > |s| then -1
    else if s[from..from + |q|] == q then from
    else Find(s, q, from + 1)
  }

  /** `find` reports a position exactly when the query occurs, and the
      empty query occurs at the start of every string. */
  lemma {:induction false} FindFindsOccurrence(s: CStr, q: CStr)
    ensures Find(s, q, 0) != -1 <==> Occurs(q, s)
    ensures Find(s, [], 0) == 0
  {
  }

  /** The two searches. */
  datatype Query = ServiceContains(text: CStr) | CategoryIs(category: CStr)

  predicate Matches(e: Entry, q: Query)
  {
    match q
    case ServiceContains(t) => Find(e.service, t, 0) != -1
    case CategoryIs(cat) => e.category == cat
  }

  /** The records under `ks` that match, in the order of `ks`. */
  function Select(m: Entries, ks: seq<Int32>, q: Query): (r: seq<Entry>)
    requires forall j :: 0 <= j < |ks| ==> ks[j] in m
    ensures |r| <= |ks|
    ensures forall e :: e in r <==> Matches(e, q) && exists j :: 0 <= j < |ks| && m[ks[j]] == e
  {
    if ks == [] then []
    else
      var rest := Select(m, ks[1..], q);
      assert forall j :: 1 <= j < |ks| ==> ks[j] == ks[1..][j - 1];
      if Matches(m[ks[0]], q) then [m[ks[0]]] + rest else rest
  }

  /** Ids grow strictly along `r`. */
  predicate IdsIncreasing(r: seq<Entry>)
  {
    forall i, j :: 0 <= i < j < |r| ==> r[i].id < r[j].id
  }

  /** Selecting along ascending keys yields records in ascending id order. */
  lemma {:induction false} SelectAscending(m: Entries, ks: seq<Int32>, q: Query)
    requires forall j :: 0 <= j < |ks| ==> ks[j] in m
    requires KeysAreIds(m) && StrictlyIncreasing(ks)
    ensures IdsIncreasing(Select(m, ks, q))
    ensures forall e :: e in Select(m, ks, q) ==> |ks| > 0 && ks[0] <= e.id
  {
    if ks != [] {
      SelectAscending(m, ks[1..], q);
      var rest := Select(m, ks[1..], q);
      forall e | e in rest
        ensures ks[0] < e.id
      {
        var j :| 0 <= j < |ks[1..]| && m[ks[1..][j]] == e;
        assert ks[0] < ks[j + 1];
      }
    }
  }

  /** `searchByService` / `searchByCategory`: the matching records in
      ascending id order. */
  function Search(v: Vault, q: Query): (r: Result<seq<Entry>>)
    requires Valid(v)
    ensures r.Ok? <==> v.isOpen
    ensures r.Err? ==> r.error == NOT_OPEN
    ensures r.Ok? ==> IdsIncreasing(r.value)
    ensures r.Ok? ==> forall e :: e in r.value <==> e in v.entries.Values && Matches(e, q)
  {
    if !v.isOpen then Err(NOT_OPEN)
    else
      var ks := Ascending(v.entries.Keys);
      AscendingIncreases(v.entries.Keys);
      SelectAscending(v.entries, ks, q);
      var r := Select(v.entries, ks, q);
      assert forall e :: e in v.entries.Values ==> exists j :: 0 <= j < |ks| && v.entries[ks[j]] == e by {
        forall e | e in v.entries.Values
          ensures exists j :: 0 <= j < |ks| && v.entries[ks[j]] == e
        {
          var k :| k in v.entries && v.entries[k] == e;
          var j :| 0 <= j < |ks| && ks[j] == k;
        }
      }
      Ok(r)
  }

  function SearchByService(v: Vault, query: CStr): (r: Result<seq<Entry>>)
    requires Valid(v)
    ensures r.Ok? <==> v.isOpen
    ensures r.Err? ==> r.error == NOT_OPEN
    ensures r.Ok? ==> IdsIncreasing(r.value)
    ensures r.Ok? ==> forall e :: e in r.value <==> e in v.entries.Values && Occurs(query, e.service)
  {
    var r := Search(v, ServiceContains(query));
    forall e: Entry ensures Matches(e, ServiceContains(query)) <==> Occurs(query, e.service) {
      FindFindsOccurrence(e.service, query);
    }
    r
  }

  function SearchByCategory(v: Vault, category: CStr): (r: Result<seq<Entry>>)
    requires Valid(v)
    ensures r.Ok? <==> v.isOpen
    ensures r.Err? ==> r.error == NOT_OPEN
    ensures r.Ok? ==> IdsIncreasing(r.value)
    ensures r.Ok? ==> forall e :: e in r.value <==> e in v.entries.Values && e.category == category
  {
    Search(v, CategoryIs(category))
  }

  /** `getEntryCount`: the map's size converted to `int`. */
  function GetEntryCount(v: Vault): (n: Int32)
    ensures |v.entries| <= INT32_MAX ==> n == |v.entries|
  {
    Wrap32(|v.entries|)
  }
}
