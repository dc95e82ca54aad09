/** Properties of the vault that span several operations: what `save`
    writes, `open` reads back; how ids are handed out within a session and
    recomputed across sessions. */
module VaultProperties {
  import opened Base
  import opened Errors
  import opened Utils
  import opened PasswordEntry
  import opened Crypto
  import opened InStream
  import opened VaultFormat
  import opened OrderedKeys
  import opened VaultEngine

  /** The longest serialized record whose ciphertext size still fits the
      `int` the block stores it in. */
  const MAX_RECORD: nat := INT32_MAX - BLOCK_SIZE

  /** Records the file format can carry: no text field holds the delimiter,
      every ciphertext size fits an `int`, and so does the count. */
  predicate Storable(m: Entries)
  {
    && |m| <= INT32_MAX
    && forall k {:trigger m[k]} :: k in m ==> PipeFree(m[k]) && |Serialize(m[k])| <= MAX_RECORD
  }

  /** `password` is the one the open vault was unlocked with: the stored hash
      is its hash and the key is derived from it and the salt. */
  predicate Unlocks(c: Cipher, v: Vault, password: CStr)
  {
    v.passwordHash == BytesToString(HashPassword(c, password)) && v.key == c.deriveKey(password, v.salt)
  }

  /** The map the `open` loop builds from `acc` by storing, in order, the
      records of `m` under `ks`. */
  function Extend(acc: Entries, m: Entries, ks: seq<Int32>): Entries
    requires forall j :: 0 <= j < |ks| ==> ks[j] in m
    decreases |ks|
  {
    if ks == [] then acc else Extend(acc[ks[0] := m[ks[0]]], m, ks[1..])
  }

  lemma {:induction false} ExtendContents(acc: Entries, m: Entries, ks: seq<Int32>)
    requires forall j :: 0 <= j < |ks| ==> ks[j] in m
    ensures forall k :: k in Extend(acc, m, ks) <==> k in acc || k in ks
    ensures forall k :: k in ks ==> Extend(acc, m, ks)[k] == m[k]
    ensures forall k :: k in acc && k !in ks ==> Extend(acc, m, ks)[k] == acc[k]
    decreases |ks|
  {
    if ks != [] {
      ExtendContents(acc[ks[0] := m[ks[0]]], m, ks[1..]);
      assert forall k :: k in ks <==> k == ks[0] || k in ks[1..];
    }
  }

  /** Storing every key of `m`, starting from nothing, rebuilds `m`. */
  lemma {:induction false} ExtendAll(m: Entries, ks: seq<Int32>)
    requires forall k :: k in ks <==> k in m
    ensures Extend(map[], m, ks) == m
  {
    assert forall j :: 0 <= j < |ks| ==> ks[j] in m;
    ExtendContents(map[], m, ks);
  }

  /** A ciphertext is at most one block longer than its plaintext. */
  lemma {:induction false} CiphertextBound(n: nat)
    ensures (n / BLOCK_SIZE + 1) * BLOCK_SIZE <= n + BLOCK_SIZE
  {
    assert (n / BLOCK_SIZE) * BLOCK_SIZE <= n;
  }

  /** A record's ciphertext fits the `int` its block stores the size in. */
  lemma {:induction false} EntryCiphertextFits(c: Cipher, plain: seq<Byte>, key: seq<Byte>, iv: seq<Byte>)
    requires Sound(c) && |plain| <= MAX_RECORD
    ensures |c.encrypt(plain, key, iv)| <= INT32_MAX
  {
    CiphertextBound(|plain|);
  }

  /** Reading where a block was sealed yields its IV and ciphertext and
      moves past the block. */
  lemma {:induction false} ReadSealed(c: Cipher, key: seq<Byte>, plain: seq<Byte>, iv: Iv, st: IStream, prevIv: seq<Byte>)
    requires |prevIv| == IV_SIZE && |c.encrypt(plain, key, iv)| <= INT32_MAX
    requires !st.failed && At(st.data, st.pos, Sealed(c, key, plain, iv))
    ensures ReadBlock(st, prevIv)
         == Ok(Chunk(iv, c.encrypt(plain, key, iv), IStream(st.data, st.pos + |Sealed(c, key, plain, iv)|, false)))
  {
    ReadBlockAt(st, iv, c.encrypt(plain, key, iv), prevIv);
  }

  /** One turn of the `open` loop that reads, decrypts and parses a record. */
  lemma {:induction false} LoadOne(c: Cipher, key: seq<Byte>, st: IStream, iv: seq<Byte>, remaining: nat, m: Entries, nextId: Int32,
                chunk: Chunk, plain: seq<Byte>, e: Entry)
    requires remaining > 0
    requires ReadBlock(st, iv) == Ok(chunk)
    requires Decrypt(c, chunk.body, key, chunk.iv) == Ok(plain)
    requires Deserialize(BytesToString(plain)) == Ok(e)
    ensures LoadEntries(c, key, st, iv, remaining, m, nextId)
         == LoadEntries(c, key, chunk.rest, chunk.iv, remaining - 1, m[e.id := e],
                        if e.id >= nextId then Succ32(e.id) else nextId)
  {
    assert LoadEntries(c, key, st, iv, remaining, m, nextId) == LoadRecord(c, key, st, iv, remaining, m, nextId);
    assert LoadRecord(c, key, st, iv, remaining, m, nextId) == LoadNext(c, key, chunk, remaining, m, nextId, e);
  }

  /** The `open` loop passes over a sealed block whose text parses as `e`,
      storing `e`. */
  lemma {:induction false} SealedStep(c: Cipher, key: seq<Byte>, plain: seq<Byte>, e: Entry, iv: Iv, st: IStream, prevIv: seq<Byte>,
                   remaining: nat, acc: Entries, n: Int32, st': IStream)
    requires Sound(c) && |key| == KEY_SIZE && |prevIv| == IV_SIZE && |plain| <= MAX_RECORD
    requires Deserialize(BytesToString(plain)) == Ok(e)
    requires !st.failed && remaining > 0
    requires At(st.data, st.pos, Sealed(c, key, plain, iv))
    requires st' == IStream(st.data, st.pos + |Sealed(c, key, plain, iv)|, false)
    ensures LoadEntries(c, key, st, prevIv, remaining, acc, n)
         == LoadEntries(c, key, st', iv, remaining - 1, acc[e.id := e], if e.id >= n then Succ32(e.id) else n)
  {
    var ct := c.encrypt(plain, key, iv);
    EntryCiphertextFits(c, plain, key, iv);
    ReadSealed(c, key, plain, iv, st, prevIv);
    assert Decrypt(c, ct, key, iv) == Ok(plain);
    LoadOne(c, key, st, prevIv, remaining, acc, n, Chunk(iv, ct, st'), plain, e);
  }

  /** The same for the `j`-th of a list of texts that decode. */
  lemma {:induction false} DecodedStep(c: Cipher, key: seq<Byte>, plains: seq<seq<Byte>>, es: seq<Entry>, ks: seq<Int32>, j: nat,
                    iv: Iv, st: IStream, prevIv: seq<Byte>, remaining: nat, acc: Entries, n: Int32, st': IStream)
    requires Sound(c) && |key| == KEY_SIZE && |prevIv| == IV_SIZE
    requires Decodes(plains, es, ks) && j < |plains|
    requires !st.failed && remaining > 0
    requires At(st.data, st.pos, Sealed(c, key, plains[j], iv))
    requires st' == IStream(st.data, st.pos + |Sealed(c, key, plains[j], iv)|, false)
    ensures es[j].id == ks[j]
    ensures LoadEntries(c, key, st, prevIv, remaining, acc, n)
         == LoadEntries(c, key, st', iv, remaining - 1, acc[es[j].id := es[j]], if es[j].id >= n then Succ32(es[j].id) else n)
  {
    assert DecodesAt(plains, es, ks, j);
    SealedStep(c, key, plains[j], es[j], iv, st, prevIv, remaining, acc, n, st');
  }

  /** Keys listed from a map's keys are in the map. */
  lemma {:induction false} KeysListed(ks: seq<Int32>, m: Entries)
    requires forall k :: k in ks <==> k in m
    ensures forall j :: 0 <= j < |ks| ==> ks[j] in m
  {
    forall j | 0 <= j < |ks|
      ensures ks[j] in m
    {
      assert ks[j] in ks;
    }
  }

  /** The blocks sealing `plains[j..]` in order, each `plains[k]` under the
      IV `ivs(k + 1)`: IV number 0 is the count block's. */
  function SealedFrom(c: Cipher, key: seq<Byte>, plains: seq<seq<Byte>>, ivs: nat -> Iv, j: nat): seq<Byte>
    decreases |plains| - j
  {
    if j >= |plains| then []
    else Sealed(c, key, plains[j], ivs(j + 1)) + SealedFrom(c, key, plains, ivs, j + 1)
  }

  /** Every `plains[j]` fits a block and parses as `es[j]`, whose id is
      `ks[j]`. */
  predicate Decodes(plains: seq<seq<Byte>>, es: seq<Entry>, ks: seq<Int32>)
  {
    |es| == |plains| && |ks| == |plains| && forall j :: 0 <= j < |plains| ==> DecodesAt(plains, es, ks, j)
  }

  predicate DecodesAt(plains: seq<seq<Byte>>, es: seq<Entry>, ks: seq<Int32>, j: nat)
    requires j < |plains| && |es| == |plains| && |ks| == |plains|
  {
    |plains[j]| <= MAX_RECORD && Deserialize(BytesToString(plains[j])) == Ok(es[j]) && es[j].id == ks[j]
  }

  /** The map the `open` loop builds from `acc` by storing the records of
      `es` in order, each under its id. */
  function Store(acc: Entries, es: seq<Entry>): Entries
    decreases |es|
  {
    if es == [] then acc else Store(acc[es[0].id := es[0]], es[1..])
  }

  /** The records of `m` under `ks`, in that order. */
  function Records(m: Entries, ks: seq<Int32>): (es: seq<Entry>)
    requires forall j :: 0 <= j < |ks| ==> ks[j] in m
    ensures |es| == |ks| && forall j :: 0 <= j < |ks| ==> es[j] == m[ks[j]]
  {
    seq(|ks|, j requires 0 <= j < |ks| => m[ks[j]])
  }

  /** The texts `save` encrypts for `es`. */
  function Texts(es: seq<Entry>): (ps: seq<seq<Byte>>)
    ensures |ps| == |es| && forall j :: 0 <= j < |es| ==> ps[j] == StringToBytes(Serialize(es[j]))
  {
    seq(|es|, j requires 0 <= j < |es| => StringToBytes(Serialize(es[j])))
  }

  /** Reading the sealed blocks of `plains[j..]`, whose texts parse as
      `es[j..]`, stores each record under its id and moves `nextId` over
      the ids `ks[j..]` as the loop does. */
  lemma {:induction false} LoadFrom(c: Cipher, key: seq<Byte>, plains: seq<seq<Byte>>, es: seq<Entry>, ks: seq<Int32>,
                                    ivs: nat -> Iv, j: nat, r: nat, st: IStream, prevIv: seq<Byte>, acc: Entries, n: Int32)
    requires Sound(c) && |key| == KEY_SIZE && |prevIv| == IV_SIZE
    requires Decodes(plains, es, ks) && j + r == |plains|
    requires !st.failed && At(st.data, st.pos, SealedFrom(c, key, plains, ivs, j))
    ensures LoadEntries(c, key, st, prevIv, r, acc, n) == Loaded(Store(acc, es[j..]), FoldNextId(ks[j..], n), Pass)
    decreases r
  {
    if r > 0 {
      var st', next := StepFrom(c, key, plains, es, ks, ivs, j, r, st, prevIv, acc, n);
      SliceStep(acc, es, ks, j, n);
      LoadFrom(c, key, plains, es, ks, ivs, j + 1, r - 1, st', ivs(j + 1), acc[es[j].id := es[j]], next);
    }
  }

  /** One turn of the loop over those blocks: the record it stores, and the
      stream and counter it leaves. */
  lemma {:induction false} StepFrom(c: Cipher, key: seq<Byte>, plains: seq<seq<Byte>>, es: seq<Entry>, ks: seq<Int32>,
                 ivs: nat -> Iv, j: nat, r: nat, st: IStream, prevIv: seq<Byte>, acc: Entries, n: Int32)
      returns (st': IStream, next: Int32)
    requires Sound(c) && |key| == KEY_SIZE && |prevIv| == IV_SIZE
    requires Decodes(plains, es, ks) && j + r == |plains| && r > 0
    requires !st.failed && At(st.data, st.pos, SealedFrom(c, key, plains, ivs, j))
    ensures LoadEntries(c, key, st, prevIv, r, acc, n)
         == LoadEntries(c, key, st', ivs(j + 1), r - 1, acc[es[j].id := es[j]], next)
    ensures !st'.failed && At(st'.data, st'.pos, SealedFrom(c, key, plains, ivs, j + 1))
    ensures es[j].id == ks[j] && next == if es[j].id >= n then Succ32(es[j].id) else n
  {
    st' := SplitFrom(c, key, plains, ivs, j, st);
    next := if es[j].id >= n then Succ32(es[j].id) else n;
    DecodedStep(c, key, plains, es, ks, j, ivs(j + 1), st, prevIv, r, acc, n, st');
  }

  /** The first of the sealed blocks of `plains[j..]`, and the stream
      positioned at the rest. */
  lemma {:induction false} SplitFrom(c: Cipher, key: seq<Byte>, plains: seq<seq<Byte>>, ivs: nat -> Iv, j: nat, st: IStream)
      returns (st': IStream)
    requires j < |plains| && !st.failed && At(st.data, st.pos, SealedFrom(c, key, plains, ivs, j))
    ensures At(st.data, st.pos, Sealed(c, key, plains[j], ivs(j + 1)))
    ensures st' == IStream(st.data, st.pos + |Sealed(c, key, plains[j], ivs(j + 1))|, false)
    ensures !st'.failed && At(st'.data, st'.pos, SealedFrom(c, key, plains, ivs, j + 1))
  {
    AtConcat(st.data, st.pos, Sealed(c, key, plains[j], ivs(j + 1)), SealedFrom(c, key, plains, ivs, j + 1));
    st' := IStream(st.data, st.pos + |Sealed(c, key, plains[j], ivs(j + 1))|, false);
  }

  /** Storing `es[j..]` is storing `es[j]`, then the rest; the counter moves
      the same way over `ks[j..]` when `es[j]` has the id `ks[j]`. */
  lemma {:induction false} SliceStep(acc: Entries, es: seq<Entry>, ks: seq<Int32>, j: nat, n: Int32)
    requires j < |es| == |ks| && es[j].id == ks[j]
    ensures Store(acc, es[j..]) == Store(acc[es[j].id := es[j]], es[j + 1..])
    ensures FoldNextId(ks[j..], n) == FoldNextId(ks[j + 1..], if es[j].id >= n then Succ32(es[j].id) else n)
  {
    assert es[j..][0] == es[j] && es[j..][1..] == es[j + 1..];
    assert ks[j..][0] == ks[j] && ks[j..][1..] == ks[j + 1..];
  }

  /** The blocks `save` writes for the records under `ks[j..]` are the
      sealed blocks of their texts. */
  lemma {:induction false} EntryBlocksFrom(c: Cipher, key: seq<Byte>, m: Entries, ks: seq<Int32>, ivs: nat -> Iv, j: nat)
    requires j <= |ks| && forall k :: 0 <= k < |ks| ==> ks[k] in m
    ensures forall k :: 0 <= k < |ks[j..]| ==> ks[j..][k] in m
    ensures EntryBlocks(c, key, m, ks[j..], ivs, j + 1) == SealedFrom(c, key, Texts(Records(m, ks)), ivs, j)
    decreases |ks| - j
  {
    assert forall k :: 0 <= k < |ks[j..]| ==> ks[j..][k] == ks[j + k];
    if j < |ks| {
      EntryBlocksFrom(c, key, m, ks, ivs, j + 1);
      assert ks[j..][0] == ks[j] && ks[j..][1..] == ks[j + 1..];
    }
  }

  /** In particular all of them, from the first IV after the count's. */
  lemma {:induction false} EntryBlocksAll(c: Cipher, key: seq<Byte>, m: Entries, ks: seq<Int32>, ivs: nat -> Iv, data: seq<Byte>, p: nat)
    requires forall k :: 0 <= k < |ks| ==> ks[k] in m
    requires At(data, p, EntryBlocks(c, key, m, ks, ivs, 1))
    ensures At(data, p, SealedFrom(c, key, Texts(Records(m, ks)), ivs, 0))
  {
    EntryBlocksFrom(c, key, m, ks, ivs, 0);
    assert ks[0..] == ks;
  }

  /** The texts of storable records, keyed by their ids, parse back as the
      records. */
  lemma {:induction false} RecordsDecode(m: Entries, ks: seq<Int32>)
    requires KeysAreIds(m) && Storable(m)
    requires forall j :: 0 <= j < |ks| ==> ks[j] in m
    ensures Decodes(Texts(Records(m, ks)), Records(m, ks), ks)
  {
    var es := Records(m, ks);
    forall j | 0 <= j < |ks|
      ensures DecodesAt(Texts(es), es, ks, j)
    {
      TextParses(m[ks[j]]);
    }
  }

  /** One record's text fits a block and parses back as the record. */
  lemma {:induction false} TextParses(e: Entry)
    requires PipeFree(e) && |Serialize(e)| <= MAX_RECORD
    ensures |StringToBytes(Serialize(e))| <= MAX_RECORD
    ensures Deserialize(BytesToString(StringToBytes(Serialize(e)))) == Ok(e)
  {
    BytesStringRoundTrip(Serialize(e), []);
    SerializeRoundTrip(e);
  }

  /** Storing the records of `m` under `ks` is what `Extend` builds. */
  lemma {:induction false} StoreRecords(acc: Entries, m: Entries, ks: seq<Int32>)
    requires KeysAreIds(m) && forall j :: 0 <= j < |ks| ==> ks[j] in m
    ensures Store(acc, Records(m, ks)) == Extend(acc, m, ks)
    decreases |ks|
  {
    if ks != [] {
      TailIn(ks, m);
      StoreRecords(acc[ks[0] := m[ks[0]]], m, ks[1..]);
      assert Records(m, ks)[1..] == Records(m, ks[1..]);
    }
  }

  lemma {:induction false} TailIn(ks: seq<Int32>, m: Entries)
    requires ks != [] && forall j :: 0 <= j < |ks| ==> ks[j] in m
    ensures forall j :: 0 <= j < |ks[1..]| ==> ks[1..][j] in m
  {
    forall j | 0 <= j < |ks[1..]|
      ensures ks[1..][j] in m
    {
      assert ks[1..][j] == ks[j + 1];
    }
  }

  /** Reading where the count block was written gives back its IV and
      ciphertext, and the ciphertext decrypts to the count. */
  lemma {:induction false} ReadCountBlock(c: Cipher, key: seq<Byte>, n: nat, iv: Iv, st: IStream, st': IStream)
    requires Sound(c) && |key| == KEY_SIZE && n <= INT32_MAX && !st.failed
    requires At(st.data, st.pos, CountBlock(c, key, n, iv))
    requires st' == IStream(st.data, st.pos + |CountBlock(c, key, n, iv)|, false)
    ensures ReadBlock(st, Zeros(IV_SIZE)) == Ok(Chunk(iv, c.encrypt(Le32(n), key, iv), st'))
    ensures Decrypt(c, c.encrypt(Le32(n), key, iv), key, iv) == Ok(Le32(n))
    ensures CountOf(Le32(n)) == n
  {
    Le32RoundTrip(n);
    EntryCiphertextFits(c, Le32(n), key, iv);
    ReadSealed(c, key, Le32(n), iv, st, Zeros(IV_SIZE));
  }

  /** `open` past the header: a count block that decrypts, followed by
      records that all load, opens the vault with what was loaded. */
  lemma {:induction false} LoadVaultPasses(c: Cipher, v: Vault, st: IStream, chunk: Chunk, plain: seq<Byte>, es: Entries, nid: Int32)
    requires !v.isOpen
    requires ReadBlock(st, Zeros(IV_SIZE)) == Ok(chunk)
    requires Decrypt(c, chunk.body, v.key, chunk.iv) == Ok(plain)
    requires CountOf(plain) >= 0
    requires LoadEntries(c, v.key, chunk.rest, chunk.iv, CountOf(plain), map[], 1) == Loaded(es, nid, Pass)
    ensures LoadVault(c, v, st) == Opened(v.(entries := es, nextId := nid, isOpen := true), Ok(()))
  {
  }

  /** The image `save` writes holds the count block right after the header,
      and the record blocks right after that. */
  lemma {:induction false} ImageLayout(c: Cipher, v: Vault, ivs: nat -> Iv)
    requires Valid(v) && v.isOpen
    ensures At(Image(c, v, ivs), HEADER_SIZE, CountBlock(c, v.key, |v.entries|, ivs(0)))
    ensures At(Image(c, v, ivs), HEADER_SIZE + |CountBlock(c, v.key, |v.entries|, ivs(0))|,
               EntryBlocks(c, v.key, v.entries, Ascending(v.entries.Keys), ivs, 1))
  {
    ThreeParts(EncodeHeader(HeaderOf(v)), CountBlock(c, v.key, |v.entries|, ivs(0)),
               EntryBlocks(c, v.key, v.entries, Ascending(v.entries.Keys), ivs, 1),
               HEADER_SIZE, HEADER_SIZE + |CountBlock(c, v.key, |v.entries|, ivs(0))|);
  }

  /** The middle and last parts of a concatenation sit where the parts
      before them end. */
  lemma {:induction false} ThreeParts(a: seq<Byte>, b: seq<Byte>, d: seq<Byte>, p: nat, q: nat)
    requires p == |a| && q == |a| + |b|
    ensures At(a + (b + d), p, b) && At(a + (b + d), q, d)
  {
    var data := a + (b + d);
    AtConcat(data, 0, a, b + d);
    AtIsWindow(data, 0, data);
    AtConcat(data, |a|, b, d);
  }

  /** The rest of `open` on a saved image, from just after the header. */
  lemma {:induction false} LoadSavedBody(c: Cipher, v: Vault, ivs: nat -> Iv, w: Vault)
    requires Sound(c) && Valid(v) && v.isOpen && Storable(v.entries) && !w.isOpen && w.key == v.key
    ensures var image := Image(c, v, ivs);
            LoadVault(c, w, IStream(image, HEADER_SIZE, false))
              == Opened(w.(entries := v.entries, nextId := FoldNextId(Ascending(v.entries.Keys), 1), isOpen := true), Ok(()))
  {
    ImageLayout(c, v, ivs);
    LoadBody(c, v.key, v.entries, Ascending(v.entries.Keys), ivs, Image(c, v, ivs), w);
  }

  /** The same for any file holding, after the header, the count block and
      the blocks of the records of `m` listed in the order `ks`. */
  lemma {:induction false} LoadBody(c: Cipher, key: seq<Byte>, m: Entries, ks: seq<Int32>, ivs: nat -> Iv, data: seq<Byte>, w: Vault)
    requires Sound(c) && |key| == KEY_SIZE && KeysAreIds(m) && Storable(m) && !w.isOpen && w.key == key
    requires |ks| == |m| && forall k :: k in ks <==> k in m
    requires At(data, HEADER_SIZE, CountBlock(c, key, |m|, ivs(0)))
    requires At(data, HEADER_SIZE + |CountBlock(c, key, |m|, ivs(0))|, EntryBlocks(c, key, m, ks, ivs, 1))
    ensures LoadVault(c, w, IStream(data, HEADER_SIZE, false))
         == Opened(w.(entries := m, nextId := FoldNextId(ks, 1), isOpen := true), Ok(()))
  {
    var st := IStream(data, HEADER_SIZE, false);
    var st1 := IStream(data, HEADER_SIZE + |CountBlock(c, key, |m|, ivs(0))|, false);
    LoadRecords(c, key, m, ks, ivs, st1);
    CountThenLoad(c, w, |m|, ivs(0), st, st1, m, FoldNextId(ks, 1));
  }

  /** `open` past the header where the count block for `n` was written,
      followed by `n` records that all load. */
  lemma {:induction false} CountThenLoad(c: Cipher, w: Vault, n: nat, iv: Iv, st: IStream, st1: IStream, es: Entries, nid: Int32)
    requires Sound(c) && |w.key| == KEY_SIZE && n <= INT32_MAX && !st.failed && !w.isOpen
    requires At(st.data, st.pos, CountBlock(c, w.key, n, iv))
    requires st1 == IStream(st.data, st.pos + |CountBlock(c, w.key, n, iv)|, false)
    requires LoadEntries(c, w.key, st1, iv, n, map[], 1) == Loaded(es, nid, Pass)
    ensures LoadVault(c, w, st) == Opened(w.(entries := es, nextId := nid, isOpen := true), Ok(()))
  {
    ReadCountBlock(c, w.key, n, iv, st, st1);
    LoadVaultPasses(c, w, st, Chunk(iv, c.encrypt(Le32(n), w.key, iv), st1), Le32(n), es, nid);
  }

  /** The loop of `open` over the blocks of the records of `m`, listed in
      the order `ks`, rebuilds `m` from the empty map. */
  lemma {:induction false} LoadRecords(c: Cipher, key: seq<Byte>, m: Entries, ks: seq<Int32>, ivs: nat -> Iv, st: IStream)
    requires Sound(c) && |key| == KEY_SIZE && KeysAreIds(m) && Storable(m)
    requires |ks| == |m| && forall k :: k in ks <==> k in m
    requires !st.failed && At(st.data, st.pos, EntryBlocks(c, key, m, ks, ivs, 1))
    ensures LoadEntries(c, key, st, ivs(0), |m|, map[], 1) == Loaded(m, FoldNextId(ks, 1), Pass)
  {
    KeysListed(ks, m);
    var es := Records(m, ks);
    var plains := Texts(es);
    EntryBlocksAll(c, key, m, ks, ivs, st.data, st.pos);
    assert es[0..] == es;
    RecordsDecode(m, ks);
    LoadFrom(c, key, plains, es, ks, ivs, 0, |m|, st, ivs(0), map[], 1);
    StoreRecords(map[], m, ks);
    ExtendAll(m, ks);
  }

  /** `open` (past the file check) on a saved image: with the password the
      vault was unlocked with, it succeeds and restores salt, iterations,
      hash, key and every record, whatever the closed vault held before. */
  lemma {:induction false} UnlockSavedImage(c: Cipher, v: Vault, ivs: nat -> Iv, password: CStr, w: Vault)
    requires Sound(c) && Valid(v) && v.isOpen && Unlocks(c, v, password) && Storable(v.entries) && !w.isOpen
    ensures Unlock(c, w, Image(c, v, ivs), password)
              == Opened(w.(salt := v.salt, iterations := v.iterations, passwordHash := v.passwordHash, key := v.key,
                           entries := v.entries, nextId := FoldNextId(Ascending(v.entries.Keys), 1), isOpen := true),
                        Ok(()))
  {
    var h := HeaderOf(v);
    var image := Image(c, v, ivs);
    var body := CountBlock(c, v.key, |v.entries|, ivs(0))
                + EntryBlocks(c, v.key, v.entries, Ascending(v.entries.Keys), ivs, 1);
    assert image == EncodeHeader(h) + body;
    HeaderRoundTrip(h, body, w.salt, w.iterations);
    BytesStringRoundTrip(v.passwordHash, HashPassword(c, password));
    assert BytesToString(h.hash) == v.passwordHash;
    var w1 := w.(salt := v.salt, iterations := v.iterations, passwordHash := v.passwordHash, key := v.key);
    LoadSavedBody(c, v, ivs, w1);
    UnlockPasses(c, w, image, password, h, IStream(image, HEADER_SIZE, false), w1,
                 Opened(w1.(entries := v.entries, nextId := FoldNextId(Ascending(v.entries.Keys), 1), isOpen := true), Ok(())));
  }

  /** `open` on a file whose header reads back, whose stored hash accepts
      the password, and whose rest loads, ends as the rest's loading does. */
  lemma {:induction false} UnlockPasses(c: Cipher, w: Vault, data: seq<Byte>, password: CStr, h: Header, st: IStream, w1: Vault, o: Opened)
    requires !w.isOpen
    requires ReadHeader(OpenOn(data), w.salt, w.iterations) == Ok((h, st))
    requires VerifyPassword(c, password, BytesToString(h.hash)) == Pass
    requires w1 == w.(salt := h.salt, iterations := h.iterations, passwordHash := BytesToString(h.hash),
                      key := c.deriveKey(password, h.salt))
    requires LoadVault(c, w1, st) == o
    ensures Unlock(c, w, data, password) == o
  {
  }

  /** Save, close, open with the same password: the vault comes back open
      with the same salt, iterations, hash, key and records; only `nextId`
      is recomputed from the ids. */
  lemma {:induction false} SaveCloseOpen(c: Cipher, v: Vault, fs: Files, ivs: nat -> Iv, password: CStr)
    requires Sound(c) && Valid(v) && v.isOpen && Unlocks(c, v, password) && Storable(v.entries)
    ensures var saved := Save(c, v, fs, ivs);
            var reopened := Open(c, Close(saved.vault), saved.files, password);
            && reopened.result == Ok(())
            && reopened.vault == v.(nextId := FoldNextId(Ascending(v.entries.Keys), 1))
  {
    UnlockSavedImage(c, v, ivs, password, Close(v));
  }

  /** After that round trip, `nextId` is one past the largest id, or 1 when
      the vault is empty (or holds no positive id). */
  lemma {:induction false} ReopenedNextId(c: Cipher, v: Vault, fs: Files, ivs: nat -> Iv, password: CStr) returns (n: Int32)
    requires Sound(c) && Valid(v) && v.isOpen && Unlocks(c, v, password) && Storable(v.entries)
    requires forall k :: k in v.entries ==> k < INT32_MAX
    ensures n == Open(c, Close(Save(c, v, fs, ivs).vault), Save(c, v, fs, ivs).files, password).vault.nextId
    ensures v.entries == map[] ==> n == 1
    ensures forall k :: k in v.entries ==> k < n
    ensures n >= 1 && (n == 1 || n - 1 in v.entries)
  {
    var saved := Save(c, v, fs, ivs);
    SaveCloseOpen(c, v, fs, ivs, password);
    n := Open(c, Close(saved.vault), saved.files, password).vault.nextId;
    AscendingIncreases(v.entries.Keys);
    NextIdAfterLoad(v.entries.Keys, Ascending(v.entries.Keys), n);
  }

  /** After any successful `open`, whatever order the file lists the records
      in, `nextId` is above every id, and is 1 or one past a stored id, unless
      an id is `INT_MAX`. */
  lemma {:induction false} OpenedCounter(c: Cipher, v: Vault, fs: Files, password: CStr)
    ensures Open(c, v, fs, password).result.Ok? && (forall k :: k in Open(c, v, fs, password).vault.entries ==> k < INT32_MAX)
            ==> CounterPastIds(Open(c, v, fs, password).vault.entries, Open(c, v, fs, password).vault.nextId)
  {
  }

  /** A freshly created vault, closed and opened again, is empty, with ids
      restarting at 1. */
  lemma {:induction false} CreateCloseOpen(c: Cipher, v: Vault, fs: Files, password: CStr, salt: Salt, iv: Iv)
    requires Sound(c) && !v.isOpen && v.filename !in fs
    ensures var created := Create(c, v, fs, password, salt, iv);
            var reopened := Open(c, Close(created.vault), created.files, password);
            && reopened.result == Ok(())
            && reopened.vault.entries == map[] && reopened.vault.nextId == 1
            && Unlocks(c, reopened.vault, password)
  {
    var created := Create(c, v, fs, password, salt, iv);
    var v1 := created.vault.(entries := map[]);
    var ivs: nat -> Iv := _ => iv;
    BytesStringRoundTrip([], HashPassword(c, password));
    assert Ascending(v1.entries.Keys) == [];
    assert Image(c, v1, ivs) == created.files[v.filename];
    UnlockSavedImage(c, v1, ivs, password, Close(created.vault));
  }

  /** Save, close, open with a password whose hash differs from the one the
      vault was unlocked with: the header reads back, the hash check fails
      with `InvalidPasswordException`, and the vault stays closed and empty. */
  lemma {:induction false} WrongPasswordRefused(c: Cipher, v: Vault, fs: Files, ivs: nat -> Iv, password: CStr, other: CStr)
    requires Valid(v) && v.isOpen && Unlocks(c, v, password)
    requires HashPassword(c, other) != HashPassword(c, password)
    ensures var saved := Save(c, v, fs, ivs);
            var r := Open(c, Close(saved.vault), saved.files, other);
            && r.result == Err(WRONG_PASSWORD)
            && r.vault.entries == map[] && !r.vault.isOpen && r.files == saved.files
  {
    var closed := Close(v);
    var body := CountBlock(c, v.key, |v.entries|, ivs(0))
                + EntryBlocks(c, v.key, v.entries, Ascending(v.entries.Keys), ivs, 1);
    assert Image(c, v, ivs) == EncodeHeader(HeaderOf(v)) + body;
    HeaderRoundTrip(HeaderOf(v), body, closed.salt, closed.iterations);
    BytesStringRoundTrip(v.passwordHash, HashPassword(c, password));
  }

  /** A successful `open` leaves the vault unlocked by the password it was
      given, and holding a record map keyed by ids. */
  lemma {:induction false} OpenUnlocks(c: Cipher, v: Vault, fs: Files, password: CStr)
    requires Open(c, v, fs, password).result.Ok?
    ensures Unlocks(c, Open(c, v, fs, password).vault, password)
    ensures KeysAreIds(Open(c, v, fs, password).vault.entries)
  {
    var data := fs[v.filename];
    match ReadHeader(OpenOn(data), v.salt, v.iterations)
    case Ok((h, st)) =>
      var v1 := v.(salt := h.salt, iterations := h.iterations, passwordHash := BytesToString(h.hash));
      BytesStringRoundTrip([], HashPassword(c, password));
      BytesStringRoundTrip(v1.passwordHash, h.hash);
  }

  /** Within a session, `addEntry` hands out an id above every stored id, as
      long as the counter has not reached `INT_MAX`, and the record can be
      fetched under it. */
  lemma {:induction false} AddEntryFreshId(c: Cipher, v: Vault, fs: Files, entry: Entry, now: Int64, ivs: nat -> Iv)
    requires Valid(v) && v.isOpen && v.nextId < INT32_MAX
    requires forall k :: k in v.entries ==> k < v.nextId
    ensures var s := AddEntry(c, v, fs, entry, now, ivs);
            && s.result.Ok?
            && s.result.value !in v.entries
            && (forall k :: k in v.entries ==> k < s.result.value)
            && (forall k :: k in s.vault.entries ==> k < s.vault.nextId)
            && GetEntry(s.vault, s.result.value) == Ok(SetId(entry, s.result.value, now))
            && |s.vault.entries| == |v.entries| + 1
  {
  }

  /** An id deleted at the top of the range comes back after a reopen:
      before, the counter was above it; after save, close and open, the
      counter is at most that id, so the next `addEntry` can hand it out
      again. */
  lemma {:induction false} DeletedTopIdReturns(c: Cipher, v: Vault, fs: Files, top: Int32, ivs: nat -> Iv, password: CStr) returns (n: Int32)
    requires Sound(c) && Valid(v) && v.isOpen && Unlocks(c, v, password) && Storable(v.entries)
    requires top in v.entries && top >= 1 && forall k :: k in v.entries ==> k <= top
    requires top < INT32_MAX
    ensures var deleted := DeleteEntry(c, v, fs, top, ivs);
            Open(c, Close(deleted.vault), deleted.files, password) == Step(deleted.vault.(nextId := n), deleted.files, Ok(()))
    ensures n <= top
    ensures top - 1 in v.entries || top == 1 ==> n == top
  {
    var deleted := DeleteEntry(c, v, fs, top, ivs);
    var v1 := deleted.vault;
    assert v1.entries == v.entries - {top};
    assert Storable(v1.entries) by {
      SubsetSize(v1.entries.Keys, v.entries.Keys);
    }
    SaveCloseOpen(c, v1, fs, ivs, password);
    n := ReopenedNextId(c, v1, fs, ivs, password);
    CounterAfterTopRemoved(v.entries, top, n);
  }

  /** The arithmetic behind the previous lemma: a counter one past the
      largest remaining id (or 1) is at most the removed top id, and equal to
      it when the id just below the top is still there. */
  lemma {:induction false} CounterAfterTopRemoved(m: Entries, top: Int32, n: Int32)
    requires top in m && top >= 1 && forall k :: k in m ==> k <= top
    requires forall k :: k in m - {top} ==> k < n
    requires n >= 1 && (n == 1 || n - 1 in m - {top})
    ensures n <= top
    ensures top - 1 in m || top == 1 ==> n == top
  {
    if top - 1 in m && top != 1 {
      assert top - 1 in m - {top};
    }
  }

  lemma {:induction false} SubsetSize(a: set<Int32>, b: set<Int32>)
    requires a <= b
    ensures |a| <= |b|
  {
    assert b == a + (b - a);
  }
}
