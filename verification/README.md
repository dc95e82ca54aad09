# OpenVault core in Dafny

This project models the core of OpenVault, a command-line password vault
written in C++. It has four parts:

- **The record codec.** `PasswordEntry` holds nine fields: id, service,
  username, password, url, notes, category, created and last modified. It
  has getters and setters that stamp the modification time. It is written
  as one `|`-joined line and read back by splitting on `|` the way
  `std::getline` does.
- **The byte helpers.** These convert between strings and bytes, and from
  bytes to lowercase hex.
- **The vault engine.** A `Vault` is closed or open. It holds records keyed
  by id and a `nextId` counter, and keeps them in one file. The file is a
  128-byte header: "OVLT", version 1, salt, iteration count, SHA-256 hash of
  the master password, then 68 zero bytes. After the header come
  `{iv, size, ciphertext}` blocks: first one holding the encrypted record
  count, then one per record in ascending id order. Integers are four
  little-endian bytes.
- **The password generator.** It builds character sets, generates
  passwords, scores their strength and describes the score.

Each operation is a pure function. It takes the vault's data members and
the file system, and returns the new members, the new file system and either
the value or the exception thrown. Exceptions form one closed datatype that
mirrors the C++ exception classes. The `std::` exceptions that escape the
code (`invalid_argument`, `out_of_range`, `length_error`, `runtime_error`)
are constructors of the same datatype.

AES-256-CBC, PBKDF2 and SHA-256 are fields of a `Cipher` value; they are
function values, not implementations. The round trip the vault relies on is
the predicate `Crypto.Sound`. Encryption pads to the next whole block, and
decryption with the same key and IV gives the plaintext back. The
padding-only cipher `Crypto.PaddingOnly` satisfies `Sound`, so the results
that assume it are not vacuous.

Inputs become parameters:

- random IVs and salts: `ivs: nat -> Iv` and `salt: Salt`;
- the clock: `now`;
- the files: a map from path to bytes.

The main result is `VaultProperties.SaveCloseOpen`. It proves that saving,
closing and opening with the same password restores the vault exactly:

- the same salt, iterations, hash and key;
- the same records;
- only `nextId` is recomputed, as one past the largest id.

Module layout:

| file | module | models |
|---|---|---|
| base.dfy | Base | bytes, `char`, `int`/`long long`, wrap-around, little-endian integers |
| errors.dfy | Errors | the exception hierarchy, `Result`, `Outcome` |
| numtext.dfy | NumText | `operator<<` of integers, `std::stoi` / `std::stoll` |
| getline.dfy | Getline | the `getline` split on `|` and the join |
| utils.dfy | Utils | `stringToBytes`, `bytesToString`, `bytesToHex` |
| password_entry.dfy | PasswordEntry | the record, its setters, `==`, `<`, `serialize`, `deserialize` |
| password_generator.dfy | PasswordGenerator | `getCharacterSet`, `generate`, `calculateStrength`, `getStrengthDescription` |
| generated_passwords.dfy | GeneratedPasswords | a generated password against the record codec |
| crypto.dfy | Crypto | the crypto primitives, with the facts assumed of them |
| instream.dfy | InStream | `std::ifstream` reads and relative seeks, short reads included |
| vault_format.dfy | VaultFormat | header and block layout, `writeHeader`, `readHeader` |
| ordered_keys.dfy | OrderedKeys | `std::map` key order, the `nextId` recomputation |
| vault.dfy | VaultEngine | the `Vault` operations |
| vault_properties.dfy | VaultProperties | save/open round trip, id reuse across sessions |

## Model

| member | source | states |
|---|---|---|
| Utils.StringToBytes | src/utils.cpp:12-14 | the bytes have the string's length, and byte i has the value of character i |
| Utils.BytesToString | src/utils.cpp:17-19 | the string has the bytes' length, and character i has the value of byte i |
| Utils.BytesStringRoundTrip | src/utils.cpp:12-19 | the two conversions are mutual inverses in both directions |
| Utils.StringToBytesInjective | src/utils.cpp:12-14 | different strings give different bytes |
| Utils.BytesToHex | src/utils.cpp:22-29 | the output is twice as long as the input, and every character is a lowercase hex digit |
| Utils.BytesToHexLayout | src/utils.cpp:24-26 | characters 2i and 2i+1 are the zero-padded high and low nibble of byte i |
| Utils.HexRoundTrip | src/utils.cpp:22-29 | an independent hex decoder recovers the input exactly from the output, so the rendering loses nothing |
| PasswordEntry.SetField | include/password_entry.hpp:63-86 | a setter stores its value in its own field, leaves the other five text fields, the id and `created` alone, and sets `lastModified` to the clock |
| PasswordEntry.SetId | include/password_entry.hpp:59-62 | `setId` changes the id and also refreshes `lastModified`, and nothing else |
| PasswordEntry.SettersKeepStamps | include/password_entry.hpp:59-86 | with a clock that does not go back, no setter lowers `lastModified`, and a record modified no earlier than created stays so |
| PasswordEntry.DefaultEntry | src/password_entry.cpp:9-11 | the default record has id 0, empty text, and both stamps at construction time |
| PasswordEntry.NewEntry | src/password_entry.cpp:14-17 | the four-argument constructor keeps its arguments and leaves url, notes and category empty |
| PasswordEntry.SameIdIsIdOnly | src/password_entry.cpp:52-54 | `==` is an equivalence on ids alone: a record given another's id compares equal to it whatever its other fields, a setter keeps a record equal to itself, and different ids never compare equal |
| PasswordEntry.ServiceLessIsStrictWeakOrder | src/password_entry.cpp:57-59 | `<` is irreflexive, transitive and asymmetric, and two records are incomparable exactly when their services are equal |
| PasswordEntry.LexLessTotal | src/password_entry.cpp:57-59 | string `<` is total: of two different strings, one is less |
| PasswordEntry.SerializeFieldCount | src/password_entry.cpp:94-100 | the serialized line splits into nine fields plus one for every `|` inside the text fields |
| PasswordEntry.Deserialize | src/password_entry.cpp:103-127 | the format exception is raised exactly when the split does not give nine fields; with nine fields it succeeds exactly when the id and both timestamps parse, and then the id and stamps are the `stoi`/`stoll` values of fields 0, 7 and 8 and the text fields are fields 1..6 |
| PasswordEntry.SerializeRoundTrip | src/password_entry.cpp:94-128 | reading back a serialized record gives it back in all nine fields when no text field holds `|`, and the format exception otherwise |
| PasswordEntry.NonNumericIdIsInvalidArgument | src/password_entry.cpp:118 | a nine-field line whose id does not start with a digit, sign or space fails with `stoi`'s `invalid_argument`, not the format exception |
| PasswordEntry.NonNumericStampIsInvalidArgument | src/password_entry.cpp:118-125 | once the id parses, a creation time that does not start with a digit, sign or space fails with `stoll`'s `invalid_argument`, not the format exception |
| Getline.Split | src/password_entry.cpp:109-111 | no field holds `|`, and the field count is the number of delimiters plus one unless the text is empty or ends in `|` |
| Getline.SplitJoin | src/password_entry.cpp:94-111 | splitting a join of delimiter-free fields whose last is non-empty gives the fields back |
| NumText.DigitsValueOfNatToDigits | src/password_entry.cpp:96-98 | the digits `<<` writes for a number denote that number |
| NumText.ParseInt | src/password_entry.cpp:118-126 | a parse result lies in the target range; failures are `invalid_argument` or `out_of_range` only |
| NumText.ParseIntToString | src/password_entry.cpp:96-98 | `stoi`/`stoll` of the text `<<` wrote gives back any number in range |
| NumText.ParseIntNoDigits | src/password_entry.cpp:118 | text starting with something other than a digit, sign or space is `invalid_argument` |
| PasswordGenerator.GetCharacterSet | src/password_generator.cpp:119-134 | the set has 26/26/10/26 characters per enabled class, is empty exactly when no class is enabled, and holds exactly the characters of the enabled classes |
| PasswordGenerator.Generate | src/password_generator.cpp:18-42 | an empty set is rejected first, then a length below 4; otherwise the result has the requested length and draws every character from the set |
| PasswordGenerator.GenerateDefault | src/password_generator.cpp:13-15 | the one-argument form succeeds exactly for lengths of at least 4, drawing from all four classes, and a shorter length raises the "at least 4 characters" `invalid_argument` |
| PasswordGenerator.GenerateWithDefaults | include/password_generator.hpp:16 | `generate()` with no argument never fails and returns sixteen characters drawn from all four classes |
| PasswordGenerator.ScanFindsPresentClasses | src/password_generator.cpp:64-89 | the flag loop with its early `break` ends with exactly the classes that occur in the password |
| PasswordGenerator.LengthScore | src/password_generator.cpp:50-61 | the length component is one of 10, 20, 30, 40 |
| PasswordGenerator.WrappedLengthScoresLow | src/password_generator.cpp:46-97 | past `INT_MAX` characters the `int` length is negative: length scores 10, the uniqueness term is at most 0, and a one-class password whose `uniqueChars * 20` reaches the wrapped length's magnitude is "Very Weak" |
| PasswordGenerator.LengthScoreMonotone | src/password_generator.cpp:50-61 | a longer password never gets a lower length component |
| PasswordGenerator.VarietyScoreBounds | src/password_generator.cpp:64-90 | for a non-empty password the variety component is ten points per class present, between 10 and 40 |
| PasswordGenerator.DistinctCountBounds | src/password_generator.cpp:92-95 | the `sort`/`unique` count is at most the length, and at least 1 for non-empty input |
| PasswordGenerator.UniquenessScore | src/password_generator.cpp:46-96 | `min(20, uniqueChars * 20 / length)` with the length converted to `int` and C++ division: at most 20, at least 0 for a positive length, at most 0 for a wrapped negative one |
| PasswordGenerator.CalculateStrength | src/password_generator.cpp:45-98 | defined wherever the `int` length is non-zero; the score is at most 100, and at least 20 when the length fits in an `int` |
| PasswordGenerator.StrengthIsSumOfComponents | src/password_generator.cpp:96-98 | the cap at 100 never applies: the score is the sum of its three components |
| PasswordGenerator.DescriptionLadder | src/password_generator.cpp:102-116 | each score band gets its label, and a higher score never gets a lower label |
| PasswordGenerator.ScoredPasswordNeverVeryWeak | src/password_generator.cpp:45-116 | no non-empty password whose length fits in an `int` is described as "Very Weak" |
| GeneratedPasswords.SymbolsAllowDelimiter | src/password_generator.cpp:10 | with symbols enabled the set holds `|`, and a password of `|` characters is a possible result of `generate` |
| GeneratedPasswords.DelimiterBreaksRecord | src/password_entry.cpp:94-115 | a record whose password holds `|` can no longer be read back: deserializing its line raises the format exception |
| GeneratedPasswords.NoSymbolsKeepRecord | src/password_generator.cpp:119-134 | without symbols a generated password holds no `|`, and a readable record stays readable after `setPassword` with it |
| Base.Le32RoundTrip | src/vault.cpp:238-249 | an `int` written as four little-endian bytes reads back as itself |
| Base.FromLe32RoundTrip | src/vault.cpp:136-145 | any four bytes read as an `int` and written back are the same bytes |
| Base.Succ32IsWrap | src/vault.cpp:168-170 | the model's `id + 1` and `++nextId` are the two's-complement wrap modulo 2^32 (signed overflow is undefined in C++; this is what the usual compilers produce), and exceed the operand exactly below `INT_MAX` |
| Base.QuotTruncates | src/password_generator.cpp:96 | the model's `/` on `int` leaves a remainder smaller than the divisor and signed like the dividend, which is C++ truncating division |
| Crypto.Decrypt | src/cryptography.cpp:94-124 | a failure is one of the wrapper's three `runtime_error`s (initialisation, update, final padding), and with a sound cipher and correct sizes it undoes encryption |
| Crypto.PaddingOnlyIsSound | src/cryptography.cpp:60-124 | the round-trip and length facts assumed of AES-256-CBC can be met |
| InStream.Read | src/vault.cpp:138-141 | a read has the buffer's length and moves forward; the stream fails exactly when it was failed or too few bytes remain |
| InStream.ShortReadSticks | src/vault.cpp:154-158 | after a short read every later read copies nothing and leaves the buffer as it was |
| VaultFormat.EncodeHeader | src/vault.cpp:97-115 | the header is 128 bytes: "OVLT", version 1, the salt, the iteration count as a little-endian `int`, the hash, each at its offset, and zeros after byte 60 |
| VaultFormat.ReadHeader | src/vault.cpp:188-217 | the corrupt-vault error is raised if and only if the magic differs; the only other error is the generic one |
| VaultFormat.HeaderRoundTrip | src/vault.cpp:97-115 | reading back a written header gives its fields and leaves the stream at byte 128, whatever the vault held before |
| VaultFormat.BadMagicIsCorrupt | src/vault.cpp:188-196 | a file too short for the magic, or with other bytes there, is reported as corrupt |
| VaultFormat.WrongVersionIsNotCorrupt | src/vault.cpp:198-203 | the right magic with another version raises the generic exception, naming the version |
| VaultFormat.ReadBlock | src/vault.cpp:136-141 | a block read can fail only with `length_error`; on success the IV has the previous IV's size and the stream moves forward |
| VaultFormat.ReadBlockFailsOnNegativeSize | src/vault.cpp:136-141 | the block read fails exactly when the size it reads is negative, and otherwise the ciphertext has that many bytes |
| VaultFormat.ReadBlockAt | src/vault.cpp:154-158 | reading where a block was written gives back its IV and ciphertext and moves past it |
| OrderedKeys.Ascending | src/vault.cpp:252 | the keys as `std::map` lists them: as many as the map holds, and exactly the map's keys |
| OrderedKeys.AscendingIncreases | src/vault.cpp:252 | the listing follows `std::map` order: strictly increasing, so no key appears twice |
| OrderedKeys.FoldNextIdIsMaxPlusOne | src/vault.cpp:148-170 | over ascending ids the `nextId` update ends at one past the largest id, or at its start value |
| OrderedKeys.NextIdAfterLoad | src/vault.cpp:148-170 | over the ascending listing `save` writes, the loaded `nextId` is above every id and is either 1 or one past a stored id |
| VaultEngine.NewVault | src/vault.cpp:9 | a new vault is closed and empty, with its filename, 100000 iterations and `nextId` 1 |
| VaultEngine.VerifyPassword | src/vault.cpp:43-50 | the check passes exactly when the password's hash equals the stored hash, and otherwise raises the invalid-password exception |
| VaultEngine.VerifyStoredHash | src/vault.cpp:36-50 | a stored hash accepts its own password, and another password exactly when the two hashes agree |
| VaultEngine.Save | src/vault.cpp:220-279 | a closed vault is refused; otherwise only the vault file changes and no temporary is left |
| VaultEngine.Create | src/vault.cpp:53-94 | refused on an open vault or an existing file; otherwise the vault opens holding the fresh salt and its derived key and a hash that accepts the password, with filename, iterations, records and `nextId` kept, and only the vault file is written |
| VaultEngine.Open | src/vault.cpp:118-185 | the refusals come first; a header that fails (bad magic, reported as corrupt exactly then, or another version) leaves the vault unchanged with that error; once the header reads, the invalid-password exception is raised exactly when the password's hash differs from the stored one, and touches neither key nor records; `CryptographyException` never escapes; the vault opens only on success |
| VaultEngine.Unlock | src/vault.cpp:128-184 | the steps after the file is open, with the same error guarantees: a failed header read leaves the vault unchanged with its error, and the invalid-password exception comes exactly on a hash mismatch after a readable header |
| VaultEngine.LoadVault | src/vault.cpp:135-175 | reading the count and records changes only the records, `nextId` and the open flag; a failure is one of the loop's error kinds |
| VaultEngine.LoadEntries | src/vault.cpp:151-170 | the record loop, in whatever order the file lists the records, keeps records under their ids, never drops a key, keeps `nextId` above every id and at 1 or one past a stored id unless an id is `INT_MAX`, and can fail only with a block, decryption or parse error |
| VaultEngine.LoadNext | src/vault.cpp:164-169 | storing a parsed record and reading on never drops a stored key and keeps the counter past every id, as the whole loop does |
| VaultEngine.CounterStep | src/vault.cpp:166-169 | storing one record and moving the counter as the loop does keeps the counter past every id when the id is below `INT_MAX` |
| VaultEngine.Close | src/vault.cpp:282-292 | an open vault loses its key and records and closes, and nothing else changes: `nextId`, salt, password hash, iterations and filename are kept; a closed vault is unchanged |
| VaultEngine.Destroy | src/vault.cpp:13-28 | the destructor leaves the vault closed, with the files as `save` leaves them |
| VaultEngine.AddEntry | src/vault.cpp:295-309 | the record is stored under the old `nextId` through `setId`, the counter moves on, nothing else in the vault changes, the id is returned and the file is saved; a closed vault is refused |
| VaultEngine.GetEntry | src/vault.cpp:312-323 | returns the stored record exactly when the vault is open and the id present, with the matching exception otherwise |
| VaultEngine.UpdateEntry | src/vault.cpp:340-352 | replaces only the record under the caller's id, as given, and saves; closed vault and missing id are refused |
| VaultEngine.DeleteEntry | src/vault.cpp:355-367 | removes only that id and saves; closed vault and missing id are refused |
| VaultEngine.GetAllEntries | src/vault.cpp:326-337 | a closed vault is refused; an open one returns every stored record, one per key, in ascending id order as `std::map` iterates |
| VaultEngine.FindFindsOccurrence | src/vault.cpp:376 | `find` reports a position exactly when the query occurs, and the empty query always occurs |
| VaultEngine.SelectAscending | src/vault.cpp:370-403 | selecting along ascending keys gives records in ascending id order |
| VaultEngine.Search | src/vault.cpp:370-403 | a search on an open vault returns exactly the matching records, in ascending id order |
| VaultEngine.SearchByService | src/vault.cpp:370-385 | a closed vault is refused; otherwise the result holds exactly the records whose service contains the query, in ascending id order |
| VaultEngine.SearchByCategory | src/vault.cpp:388-403 | a closed vault is refused; otherwise the result holds exactly the records whose category equals the query, in ascending id order |
| VaultEngine.GetEntryCount | include/vault.hpp:82-84 | the count is the number of stored records |
| VaultProperties.ExtendAll | src/vault.cpp:166 | storing every record of a map under its key, from empty, rebuilds the map |
| VaultProperties.EntryCiphertextFits | src/vault.cpp:258-264 | a record's ciphertext size fits the `int` its block stores it in |
| VaultProperties.SealedStep | src/vault.cpp:151-170 | one turn of the `open` loop over a block sealed from a record's text stores the record and moves `nextId` past its id |
| VaultProperties.LoadFrom | src/vault.cpp:151-170 | the loop over blocks sealed from texts that parse stores each record under its id and moves `nextId` as the fold over the ids |
| VaultProperties.TextParses | src/vault.cpp:160-165 | a storable record's text, as bytes and back, parses as the record |
| VaultProperties.ReadCountBlock | src/vault.cpp:136-145 | the count block `save` wrote decrypts to the count `open` reads |
| VaultProperties.LoadRecords | src/vault.cpp:151-170 | the record blocks `save` writes load back the same map, with `nextId` folded over the ids in ascending order |
| VaultProperties.LoadBody | src/vault.cpp:135-175 | after the header, a count block and the blocks of a map's records open the vault with that map |
| VaultProperties.UnlockSavedImage | src/vault.cpp:118-185 | opening a saved image with the right password restores the salt, iterations, hash, key and records |
| VaultProperties.SaveCloseOpen | src/vault.cpp:220-279 | save, close, open with the same password gives back the same vault except that `nextId` is recomputed |
| VaultProperties.ReopenedNextId | src/vault.cpp:148-170 | after that round trip `nextId` is 1 for an empty vault, otherwise above every id and one past a stored id |
| VaultProperties.CreateCloseOpen | src/vault.cpp:53-94 | a freshly created vault, closed and opened again, is empty with `nextId` 1 and unlocked by the password |
| VaultProperties.OpenUnlocks | src/vault.cpp:128-134 | a successful `open` leaves a hash that accepts the password, a key derived from it, and records keyed by their ids |
| VaultProperties.WrongPasswordRefused | src/vault.cpp:118-134 | a saved vault, closed and opened with a password whose hash differs, fails with the invalid-password exception and stays closed and empty |
| VaultProperties.OpenedCounter | src/vault.cpp:118-175 | after any successful `open`, whatever order the file lists the records in, `nextId` is above every id and is 1 or one past a stored id, unless an id is `INT_MAX` |
| VaultProperties.AddEntryFreshId | src/vault.cpp:295-309 | within a session a new id is above every stored id, the record can be fetched under it, and the map grows by one |
| VaultProperties.DeletedTopIdReturns | src/vault.cpp:148-170 | after the top id is deleted and the vault reopened, `nextId` is at most that id (equal when the id below it remains), so the id can be handed out again |
| VaultProperties.CounterAfterTopRemoved | src/vault.cpp:148-170 | removing the top id lowers the recomputed counter to at most that id |

## Left out

- File-system failures are not modelled. These are an `ofstream` that cannot be opened, failing writes, and `remove`/`rename` return codes. `save` always succeeds on an open vault, and `create` always writes its file.
- Concurrency and atomicity of the `.tmp` replacement are not modelled. The old file is removed before the rename, so nothing atomic could be stated anyway.
- AES-256-CBC, PBKDF2 as in section 5.2 of RFC 8018, SHA-256 as in FIPS 180-4, and `RAND_bytes` are parameters, not implementations. `Crypto.Sound` is the only fact assumed of them.
- Failures of `encrypt`, `deriveKey`, `generateSalt` and `generateIV` are not modelled. In the source each throws `std::runtime_error` when OpenSSL reports an error, which makes `save`, `create`, `open`, `addEntry`, `updateEntry` and `deleteEntry` throw. The model treats these primitives as total functions, because it has nothing to say about when OpenSSL fails. Only `decrypt` keeps its three failures, since the loading loop's error cases depend on them.
- Random salts and IVs are parameters, so save/open results hold for every choice of them. The `mt19937` draw in `generate` is a free choice among the set's characters.
- `std::time` is the parameter `now`.
- Memory wiping in `~PasswordEntry`, in `close` and in `OPENSSL_cleanse` is left out. Only "the key is cleared" is kept.
- `Utils::readPassword` is terminal I/O and is not part of this model. Neither are `main`, the CLI and `PasswordEntry::toString` / `operator<<`.
- `serializeEntries` and `deserializeEntries` are declared but never defined, so there is nothing to model.
- No master-password change exists in the API, and none is modelled.
- VaultEngine.CountOf: a decrypted count shorter than four bytes makes the source's `memcpy` read past the buffer, which is undefined behaviour. The model reads the missing bytes as zeros.
- VaultProperties.LoadRecords: records whose serialized text exceeds `INT_MAX - 16` bytes are excluded by `Storable`. Their ciphertext size would not fit the block's `int`. The same holds for maps with more than `INT_MAX` records.
- VaultProperties.AddEntryFreshId: holds only while `nextId` is below `INT_MAX`. At `INT_MAX` the source's `++nextId` in `addEntry`, and its `id + 1` in the `open` loop, overflow a signed `int`, which C++ leaves undefined; the model takes the two's-complement wrap-around the usual compilers produce, as `Base.Succ32` shows. The counter facts of VaultEngine.LoadEntries and VaultProperties.OpenedCounter are stated only for ids below `INT_MAX` for the same reason.
- PasswordGenerator.CalculateStrength: requires the `int` length to be non-zero. The source divides by it, so the empty password, and one whose length is a multiple of 2^32, is outside its domain. Above `INT_MAX` characters the model wraps the length as the source does, so the 20-point floor holds only up to `INT_MAX`; see PasswordGenerator.WrappedLengthScoresLow.
- PasswordGenerator.ClassOf: characters above 127 are classified as symbols. With a signed `char`, `std::islower` on them is undefined behaviour in the source.
- `getEntryCount` converts the size to `int` with wrap-around. VaultEngine.GetEntryCount states the count only for sizes up to `INT_MAX`.
- `isVaultOpen` and `getFilename` (include/vault.hpp:77-87) are plain reads of the `isOpen` and `filename` members. The model reads the `Vault` fields directly.

Where the model follows the code rather than the documented design:

- Key derivation uses the fixed 100000 rounds, not the iteration count stored in the header. `Crypto.Cipher.deriveKey` takes no round count.
- A wrong version raises the generic `CustomException`, not the corrupt-vault exception.
- The wrapper's `decrypt` throws `std::runtime_error`. The handler that turns a `CryptographyException` into a corrupt vault therefore never fires. `VaultEngine.Open` proves that no `CryptographyException` escapes.
- `close` keeps `nextId`.
- `create` keeps whatever records and `nextId` the object held.
- A failed `open` keeps the effects of the steps before the failure: the header fields, the key, and the records loaded so far.
- The record codec does not escape `|`. A text field holding it makes the record unreadable, and the generator's symbol set contains it.
