# Verification of the CDF security framework

A Dafny model of the parts of the framework where state, byte formats and time meet, with proofs about whole runs.
Check it with `dafny verify dfyconfig.toml`.

What is modelled, and what stands in for the outside:

- **Key manager** (`KeyNames`, `KeyStore`, `KeyManager`, `KeyManagerStart`, `KeyManagerRuns`, `KeyManagerMirror`,
  `KeyManagerIds`, `KeyRotation`, `KeyManagerLimits`, `KeyManagerExamples`). The in-memory map of key ids and creation
  times, the external transit store as a map from names to keys, and every operation between them. How each external
  command ends is a parameter of the operation: it runs, it is reported as failed with or without having had its
  effect, or it has no effect and is reported as a success, without output or with output that is no reply. Two
  outcomes that are not return codes are modelled as codes of their own: a call that locks the mutex it already holds,
  and an exception that leaves the call.
- **Both key managers** (`KeyManagerType`, `KmCryptor`). The vault manager, which forwards to the OpenBao manager and
  marks it by `type_`, and KmCryptor, which calls either. A cast of an object to a class that it is not of has
  undefined behaviour; it is an outcome of its own, and nothing is said about what follows it.
- **PSK manager** (`PskManager`, `PskRuns`, `PskWrap`, `PskValidity`, `PskStore`, `PskKeyManagers`, `PskCodec`). The
  two maps, the 32-bit counter, the session count, the callbacks and the store they feed, and loading from it.
  Encryption by the key manager and the metadata text are functions with stated laws (`Codec.Lawful`); `PskCodec`
  proves the laws of encryption of KmCryptor.
- **JWT server** (`JwtToken`, `JwtServer`, `JwtValidation`, `JwtRotation`, `JwtKeyManagers`, `JwtCodec`,
  `JwtExamples`). Token text, server, and the two key slots. HMAC and the key manager's encryption are functions with
  stated laws; clocks are parameters.
- **Base64, text, PBKDF2 and cipher envelope** (`Bytes`, `Base64`, `StrUtils`, `Pbkdf2`, `CipherEnvelope`). The
  in-place buffer code; ciphers and key derivation are functions with stated laws.
- **Keytab reader** (`Keytab`, `KeytabFormat`, `KeytabSelect`). The cursor-based readers, proved against a function of
  the buffer, and that against a serialiser.
- **Rand module** (`RandLifecycle`, `RandSafety`, `RandResults`, `SecurePwd`). The lifecycle as a state machine whose
  steps are single accesses to shared state by any number of threads, and the generation of passwords.
- **UTC to local time** (`LocalTime`), against a plain count of seconds. `Counting` holds facts about finite sets.
- **By value** (`Formats`, `Limits`, `Answers`). Alphabets, texts, byte layouts, bounds and accepted options of the
  modules above in plain numbers and letters, and when the calls succeed, with the codes of refusals.

Code that changes state is modelled by classes and methods; each method equates its result and new state with a function
of the old ones, and the lemmas are about these functions and about runs of them.

## Where code and documentation differ

The model follows the code.

- `option.h` says that -1 means a server key that never expires; `JwtKeyPass` takes the number as unsigned and
  replaces it by 24 hours (`JwtRotation.KeyLifetime`).
- A token's expiry counts from the start of the server, when its header is made, not from the token's creation
  (`JwtRotation.ExpireTogether`).
- `CreateToken` accepts inputs of up to 100 MiB, and `ValidateToken` refuses tokens from 100 MiB on, although encoding
  adds a third: the server refuses its own tokens of inputs of 80000000 bytes or more
  (`JwtValidation.LongInputsRefused`, `JwtExamples.LongOwnTokenRefused`).
- A token under the old key is refused while the present key is shorter than the token's algorithm needs, even if the
  old one is long enough (`JwtRotation.RotationExactly`, `JwtExamples.ShortKeyRefusesOld`).
- A read that prints nothing ends the start of the key manager with OK and a partial map, so ciphertexts under the
  keys listed after it are refused (`KeyManagerExamples.CutShortStart`, `KeyManagerRuns.StaysDecryptable`).
- Every output that contains the text "Error" counts as a failure: a stored name with that text, also one that is
  skipped otherwise, makes every start fail (`KeyManagerStart.ErrorNameExample`), and a key whose Base64 text contains
  it can be created but never used (`KeyManagerLimits.NewKeyHangsExactly`).
- Creation times are read as 32-bit numbers: from 2^31 seconds on, in January 2038, creating a key hangs and the key
  it leaves makes every later start fail (`KeyManagerLimits.CreateOkExactly`, `KeyManagerLimits.LateKeyStopsInit`).
- The vault manager has no keys of its own: tokens made through it are read through the OpenBao manager as well
  (`KmCryptor.EitherDecryptsExactly`). It marks the OpenBao manager with a type that only its own UnInit takes back,
  and KmCryptor then casts the OpenBao object to the wrong class: after a failed Init of the vault manager, and after
  any load during a session with it (`PskKeyManagers.CarelessCasts`, `PskStore.ReloadExactly`,
  `JwtKeyManagers.SetCastsExactly`).
- Keys renewed by `CheckDomainKeysExpiredAndAutoUpdate` are not exportable, unlike keys from `CreateKey`, so neither
  encryption nor decryption works with them (`KeyRotation.RenewalStopsEncryption`,
  `KeyRotation.RenewalStopsDecryption`).
- Key names are parsed without comparing their prefix or what separates the numbers (`KeyNames.AcceptedExactly`), and
  one foreign name of that shape can stop every start (`KeyManagerStart.InitExactly`,
  `KeyManagerStart.ForeignNameExample`).
- A keytab entry of a version below 128 can win over a greater version that is not newer, depending on the order of
  the entries (`KeytabSelect.GreatestInEveryOrderExactly`).
- `UtcTimeToLocal` uses a field it never sets for five months (`LocalTime.RightForEveryGarbage`), and takes zones 13
  or 14 hours ahead of UTC, or 12 behind, for zones a day away (`LocalTime.ZoneGuessedExactly`).
- A refresh of the server key that fails has discarded the old key (`JwtRotation.FailedRefreshRetiresOld`).
- `pskMaxCount` may be 2^32-1, which lets the id counter wrap (`PskWrap.IndexExactly`).
- In `KerberosReadEntrySize` a hole that ends outside the buffer returns errno, which may be 0; the size is negative
  then, and the caller stops all the same.

## Model

| member | source | states |
|---|---|---|
| KeyManagerRuns.StaysDecryptable | src/cdf/modules/key_management/openbao/openbao_key_manager.cpp:726-770 | After any later run of start, stop, create, remove, renew and delete-all calls that spares key (d,k) in store and map, every external command ending in any of the five ways, if the manager ends up initialised and counts d, a ciphertext made under (d,k) decrypts to its plaintext if and only if the run leaves (d,k) known; it does so whenever no start was cut short by a read without output |
| KeyManagerRuns.RunTracks | src/cdf/modules/key_management/openbao/openbao_key_manager.cpp:64-371 | Over every such run the store keeps the key's material, and the map has the key if and only if it is known: created, or read by a start before its first read without a time, and not forgotten since by a stop or a clearing read |
| KeyManagerRuns.UpdateHitsExactly | src/cdf/modules/key_management/openbao/openbao_key_manager.cpp:523-608 | A renewal loses a key's exported material if and only if it hits it: the loop reaches the key, it has expired, and its deletion takes effect, reported or not |
| KeyManagerRuns.RestartDecryptsExactly | src/cdf/modules/key_management/openbao/openbao_key_manager.cpp:78-184 | After a stop and a start that returns OK, a ciphertext made before decrypts if and only if the start read its key before the first read without output |
| KeyManagerRuns.DecryptsExactly | src/cdf/modules/key_management/openbao/openbao_key_manager.cpp:863-921 | The key id in the header chooses the key: in a state whose store has the key's material the text decrypts if and only if the map has that key, whatever the latest key is there |
| KeyManagerRuns.OtherAlgOrDomainRefused | src/cdf/modules/key_management/openbao/openbao_key_manager.cpp:863-921 | No state decrypts a text under another algorithm or domain than it was made with |
| KeyManagerRuns.NextIdIsFresh | src/cdf/modules/key_management/openbao/openbao_key_manager.cpp:186-204 | A generated key id is above every live id of the domain and fits 16 bits |
| KeyManagerIds.CreatedIdExactly | src/cdf/modules/key_management/openbao/openbao_key_manager.cpp:186-262 | A creation that returns OK gives id 0 in a domain without keys, and otherwise the one after the greatest, and adds exactly that key to the map |
| KeyManagerIds.IdRefusedExactly | src/cdf/modules/key_management/openbao/openbao_key_manager.cpp:186-204 | On a started manager, creation in a counted domain is refused for want of an id if and only if the domain has 1023 keys, or key 65535 or a greater one |
| KeyManagerIds.IdsFromZero | src/cdf/modules/key_management/openbao/openbao_key_manager.cpp:186-262 | The n-th of up to 1023 creations in a domain that had no key gives id n - 1 |
| KeyManagerRuns.HeaderNamesKey | src/cdf/modules/key_management/openbao/openbao_key_manager.cpp:707-724 | The six-byte header gives back domain and key id if and only if both fit 16 bits; otherwise their low 16 bits |
| KeyManager.ConstructCipherHeader | src/cdf/modules/key_management/openbao/openbao_key_manager.cpp:707-724 | Filling the header byte by byte gives version, algorithm, and the low 16 bits of both ids, high byte first |
| Limits.CiphertextBytes | src/cdf/modules/key_management/openbao/openbao_key_manager.cpp:707-770 | What Encrypt returns is the Base64 text of version 1, the number of the algorithm, domain and key in two bytes each, and the sealed text |
| Limits.EncryptNeeds | src/cdf/modules/key_management/openbao/openbao_key_manager.cpp:726-770 | Encryption that returns OK ran on a started manager, with a counted domain, 1 to 2^20-1 bytes and one of two algorithms, under the greatest key of the domain |
| Limits.EncryptExactly | src/cdf/modules/key_management/openbao/openbao_key_manager.cpp:726-770 | Encryption returns OK if and only if the manager is started and counts the domain, the domain has a key, the algorithm is AES256_GCM or CHACHA20_POLY1305, the text has 1 to 2^20-1 bytes, the export of the greatest key runs and gives 32 bytes whose print does not contain "Error", and the random bytes were drawn |
| Limits.DecryptExactly | src/cdf/modules/key_management/openbao/openbao_key_manager.cpp:820-921 | Decryption refuses as invalid exactly decoded texts shorter than 7 bytes or without version 1, the number of the algorithm and the domain in front; of the others it returns what the cipher makes of the rest under the key that the header names, if the map has it and its export gives material |
| KeyManagerMirror.RunGood | src/cdf/modules/key_management/openbao/openbao_key_manager.cpp:64-262 | While external commands run and new keys are dated from 0 to 2^31-1, the key map (empty domains aside) equals the store's keys and creation times after every operation of any run |
| KeyManagerMirror.RestartRebuilds | src/cdf/modules/key_management/openbao/openbao_key_manager.cpp:64-184 | After any such run, stopping and starting again undisturbed gives back the same map if and only if the store is readable then, and otherwise fails; it always is if the store began with our names, dated so, and names that are skipped and do not contain "Error" |
| KeyManagerMirror.PrepareMirrors | src/cdf/modules/key_management/openbao/openbao_key_manager.cpp:78-127 | An undisturbed start from an empty map, the listing in any order, succeeds if and only if the store is readable, and then gives exactly the mirror of the store |
| KeyManagerMirror.MirrorsAgree | src/cdf/modules/key_management/openbao/openbao_key_manager.cpp:78-127 | Two maps that mirror one store differ in empty domains only |
| KeyManagerMirror.CreateThenRemove | src/cdf/modules/key_management/openbao/openbao_key_manager.cpp:206-371 | Removing the key just created undoes the creation, in the store and (empty domains aside) in the map |
| KeyManagerStart.InitExactly | src/cdf/modules/key_management/openbao/openbao_key_manager.cpp:78-184 | With a complete listing and every command running, a start returns OK if and only if no stored name contains "Error", and every stored name is skipped, or parses to (d,k) such that the name of (d,k) itself is in the store with a creation time from 0 to 2^31-1 |
| Limits.StartNeeds | src/cdf/modules/key_management/openbao/openbao_key_manager.cpp:129-184 | A start that returns OK was asked for 2 to 1023 domains and counts that many; outside these bounds, or with a bad path, it changes nothing |
| KeyManagerStart.ErrorNameStopsInit | src/cdf/modules/key_management/openbao/openbao_utils.cpp:392-415 | One listed name that contains "Error" makes every start fail, whatever the commands do |
| KeyManagerStart.ErrorNameExample | src/cdf/modules/key_management/openbao/openbao_utils.cpp:392-415 | Errors as the only stored name, which parsing would skip, makes the start fail |
| KeyManagerStart.UntimedKeyStopsInit | src/cdf/modules/key_management/openbao/openbao_utils.cpp:339-358 | One key of ours whose creation time is not from 0 to 2^31-1 makes every undisturbed start fail |
| KeyNames.OwnNameSaysNoError | src/cdf/modules/key_management/openbao/openbao_utils.cpp:392-415 | No name the manager gives contains "Error" |
| KeyManagerLimits.CreateOkExactly | src/cdf/modules/key_management/openbao/openbao_key_manager.cpp:206-262 | With its commands running, CreateKey makes the key in the store and returns OK if and only if its creation time is from 0 to 2^31-1; otherwise it hangs and the map does not have the key |
| KeyManagerLimits.LateKeyStopsInit | src/cdf/modules/key_management/openbao/openbao_key_manager.cpp:206-262 | From 2^31 seconds on no key can be created, and the attempt makes every later undisturbed start fail |
| KeyManagerLimits.LateKeyExample | src/cdf/modules/key_management/openbao/openbao_key_manager.cpp:206-262 | The key dated 2^31 in a manager without keys |
| KeyManagerLimits.RenewalOkExactly | src/cdf/modules/key_management/openbao/openbao_key_manager.cpp:557-608 | Renewing an expired key, its commands running, returns OK if and only if the replacement is dated from 0 to 2^31-1; otherwise the old key is gone and the map keeps its time |
| KeyManagerLimits.UpdateOkExactly | src/cdf/modules/key_management/openbao/openbao_key_manager.cpp:557-608 | Its commands running, the automatic renewal of a domain returns OK if and only if every key that it sets out to renew gets a replacement dated from 0 to 2^31-1 |
| KeyManagerLimits.NewKeyHangsExactly | src/cdf/modules/key_management/openbao/openbao_key_manager.cpp:640-700 | Right after a key was created, encryption hangs if and only if its material is empty or its Base64 text contains "Error" |
| KeyManagerLimits.ErrorMaterial | src/cdf/modules/key_management/openbao/openbao_utils.cpp:392-415 | There are 32 bytes of such material |
| KeyManagerLimits.UnreportedRemoval | src/cdf/modules/key_management/openbao/openbao_key_manager.cpp:319-371 | A removal that took effect but is reported as failed leaves the map as it was, and the ciphertexts under the key are refused |
| Limits.RemoveExactly | src/cdf/modules/key_management/openbao/openbao_key_manager.cpp:319-371 | A removal returns OK if and only if the manager is started, counts the domain, has the key, with an id of at most 65535, and its command is not reported as failed; then exactly that key leaves the map |
| Limits.DeleteAllExactly | src/cdf/modules/key_management/openbao/openbao_key_manager.cpp:373-414 | When every deletion is reported as a success, the map is empty afterwards and the store loses exactly the keys of the map whose deletion ran |
| KeyManagerStart.StopsExactly | src/cdf/modules/key_management/openbao/openbao_utils.cpp:360-390 | Parsing the listing stops if and only if some name in it is neither skipped nor well formed, wherever it stands |
| KeyManagerStart.ReadSomeHas | src/cdf/modules/key_management/openbao/openbao_key_manager.cpp:100-127 | The map that reading leaves, key by key: what was there and what was read before the first read without a time, or nothing if that read cleared it |
| KeyManagerStart.ReadAllOk | src/cdf/modules/key_management/openbao/openbao_key_manager.cpp:100-127 | Reading returns OK if and only if every read prints a time, or the first that does not prints nothing at all |
| KeyManagerStart.ForeignNameStopsInit | src/cdf/modules/key_management/openbao/openbao_key_manager.cpp:78-184 | Any stored name of another prefix or separator that parses to (d,k), without the key (d,k), makes every undisturbed start fail |
| KeyManagerStart.ForeignNameExample | src/cdf/modules/key_management/openbao/openbao_key_manager.cpp:78-184 | xyz7_abc5 as the only stored name parses to key 5 of domain 7, and the start fails |
| KeyManagerExamples.CutShortStart | src/cdf/modules/key_management/openbao/openbao_key_manager.cpp:111-113 | A read without output ends a start with OK: the keys listed after it are unknown, and their ciphertexts are refused |
| KeyManagerExamples.RefusedAfterCutShortStart | src/cdf/modules/key_management/openbao/openbao_key_manager.cpp:111-113 | A concrete run of that |
| KeyManagerExamples.DecryptsAfterRestart | src/cdf/modules/key_management/openbao/openbao_key_manager.cpp:129-184 | A concrete run in which StaysDecryptable applies |
| KeyManagerExamples.RenewalLocksOut | src/cdf/modules/key_management/openbao/openbao_key_manager.cpp:523-555 | A concrete renewal after which encryption hangs and the earlier ciphertext is refused |
| KeyRotation.RenewalKeepsIds | src/cdf/modules/key_management/openbao/openbao_key_manager.cpp:557-608 | Automatic renewal that returns OK keeps the key ids, other domains and unexpired keys, and gives each expired key the time its replacement reports |
| KeyRotation.UpdateThenCheck | src/cdf/modules/key_management/openbao/openbao_key_manager.cpp:416-608 | After it, with a lead below 1825 days and replacements not dated before now, no key is expired and the expiry check at the same time and lead returns OK |
| KeyRotation.FullLeadNeverSatisfied | src/cdf/modules/key_management/openbao/openbao_key_manager.cpp:416-608 | The bound is exact: with replacements dated now, the check succeeds if and only if the lead is below 1825 days or some key had not expired |
| Limits.CheckExactly | src/cdf/modules/key_management/openbao/openbao_key_manager.cpp:416-471 | In numbers: the check refuses leads of more than 1825 days, and succeeds if and only if some key of the domain was created at t with t + 157680000 > now + 86400 times the lead |
| KeyRotation.RenewalStopsEncryption | src/cdf/modules/key_management/openbao/openbao_key_manager.cpp:523-555 | Renewal does not ask for export (CreateKey does): right after it, encryption that worked before hangs on the manager's own lock if and only if the latest key was expired and its deletion ran |
| KeyRotation.RenewalStopsDecryption | src/cdf/modules/key_management/openbao/openbao_key_manager.cpp:523-555 | A ciphertext made just before renewal decrypts after it if and only if its key was not expired or its deletion did not run |
| KeyManager.OpenbaoKeyManager.DoInit | src/cdf/modules/key_management/openbao/openbao_key_manager.cpp:129-184 | The class does what Init says, including the half-read map that a failed start leaves |
| KeyManager.OpenbaoKeyManager.PrepareMap | src/cdf/modules/key_management/openbao/openbao_key_manager.cpp:78-127 | Listing, parsing and reading in this order; a bad listing, or one in which a name contains "Error", leaves the map alone |
| KeyManager.OpenbaoKeyManager.ReadTimes | src/cdf/modules/key_management/openbao/openbao_key_manager.cpp:100-127 | The loop over the pairs computes ReadAll: entries are not overwritten, a read without output ends it with OK, one without a time clears the map and fails |
| KeyManager.OpenbaoKeyManager.GetPairs | src/cdf/modules/key_management/openbao/openbao_utils.cpp:360-390 | The loop over the names computes ParseAll: the first bad name decides |
| KeyManager.OpenbaoKeyManager.DoCreateKey | src/cdf/modules/key_management/openbao/openbao_key_manager.cpp:206-262 | Creates, configures and reads back one key; a command reported as failed leaves in the store what it and earlier ones did; a key without a 32-bit time ends in the self-deadlock |
| KeyManager.OpenbaoKeyManager.DoRemoveKey | src/cdf/modules/key_management/openbao/openbao_key_manager.cpp:319-371 | Deletes in the store first, then in the map, and drops a domain that becomes empty |
| KeyManager.OpenbaoKeyManager.DoDeleteAllKey | src/cdf/modules/key_management/openbao/openbao_key_manager.cpp:373-414 | When every deletion succeeds, the two loops take exactly the names of the map from the store and empty the map |
| KeyManager.OpenbaoKeyManager.DoCheckDomainKeysExpired | src/cdf/modules/key_management/openbao/openbao_key_manager.cpp:416-471 | The loop finds an unexpired key exactly when there is one, in 32-bit time |
| KeyManager.OpenbaoKeyManager.CheckDomainKeysExpiredAndAutoUpdate | src/cdf/modules/key_management/openbao/openbao_key_manager.cpp:557-608 | The loop over the domain's keys computes AutoUpdate and stops at the first failure |
| KeyManager.OpenbaoKeyManager.HandleCommand | src/cdf/modules/key_management/openbao/openbao_key_manager.cpp:523-555 | Delete, create, allow deletion: the store after each command that is reported as failed |
| KeyManager.OpenbaoKeyManager.DoEncrypt | src/cdf/modules/key_management/openbao/openbao_key_manager.cpp:726-770 | The class encrypts under the greatest key id of the domain, as Encrypt says |
| KeyManager.OpenbaoKeyManager.DoDecrypt | src/cdf/modules/key_management/openbao/openbao_key_manager.cpp:863-921 | The class decrypts as Decrypt says, refusing on header, algorithm, domain and unknown key |
| KeyNames.ParsePrintedName | src/cdf/modules/key_management/openbao/openbao_utils.cpp:75-95 | Parsing a printed key name gives back domain and key id, for all 32-bit numbers |
| KeyNames.KeyNameInjective | src/cdf/modules/key_management/openbao/openbao_utils.cpp:75-95 | Different keys have different names |
| KeyNames.AcceptedExactly | src/cdf/modules/key_management/openbao/openbao_utils.cpp:75-95 | A name parses to (d,k) if and only if it is three bytes, a text without underscore that reads as d, an underscore and three bytes, and a text that reads as k |
| KeyNames.RefusedExactly | src/cdf/modules/key_management/openbao/openbao_utils.cpp:75-95 | A name is skipped if and only if no underscore follows its first three bytes; any other that is not accepted ends the parsing, by an exception if and only if fewer than three bytes follow the underscore of a number |
| Formats.KeyNameText | src/cdf/modules/key_management/openbao/openbao_utils.cpp:75-95 | Key 5 of domain 17 has the name CDF17_Key5 |
| KeyNames.ForeignNameIsAccepted | src/cdf/modules/key_management/openbao/openbao_utils.cpp:75-95 | So neither the prefix nor the three bytes after the underscore are compared, for all of them and all 32-bit numbers |
| KeyStore.GetJsonFieldMaxInt | src/cdf/modules/key_management/openbao/openbao_utils.cpp:339-358 | The loop gives the greatest of the numbers, or -1 when all are below 0, there are none, or one field is no integer |
| PskWrap.IndexExactly | src/cdf/modules/psk_management/psk_manager.cpp:404-539 | For every limit Init accepts, with a key manager that encrypts the tokens of the runs in question: in every reachable state without reload each content entry names a live credential with that content and each credential is under its own id, if and only if pskMaxCount is below 2^32-1 |
| PskWrap.DanglingExactly | src/cdf/modules/psk_management/psk_manager.cpp:826-837 | The branch of UpdatePsk for a dangling content entry is reachable if and only if pskMaxCount is 2^32-1 |
| PskWrap.WrapRun | src/cdf/modules/psk_management/psk_manager.cpp:404-539 | The run that shows it: the 32-bit counter wraps and a new content is filed under an old id |
| PskRuns.RunInv | src/cdf/modules/psk_management/psk_manager.cpp:93-161 | The index agrees after every run of all operations, reloads and sessions included, while limits are below 2^32-1 and lists shorter than that |
| PskRuns.TargetIsLive | src/cdf/modules/psk_management/psk_manager.cpp:797-841 | Then an update always means a live credential stored under its own id |
| PskRuns.TargetExactly | src/cdf/modules/psk_management/psk_manager.cpp:797-841 | With inverse maps an update finds a credential if and only if id or content is live and those that are live both name it |
| PskRuns.RunInverse | src/cdf/modules/psk_management/psk_manager.cpp:404-539 | If new contents differ from all live ones, the two maps stay exact inverses over every run |
| PskRuns.CreateInverseExactly | src/cdf/modules/psk_management/psk_manager.cpp:404-513 | A successful generate or import keeps them inverse if and only if its content is not that of a live credential |
| PskRuns.UpdateInverseExactly | src/cdf/modules/psk_management/psk_manager.cpp:797-898 | A successful update does if and only if its new content is not that of another live credential |
| PskRuns.FailureChangesNothing | src/cdf/modules/psk_management/psk_manager.cpp:404-539 | A generate, import, update or delete that does not return OK leaves maps, counter, options and store unchanged |
| Answers.GenerateOkExactly | src/cdf/modules/psk_management/psk_manager.cpp:404-461 | Generate returns OK if and only if the manager is running, the parameters are good, all random bytes came and the credential can be encrypted and stored; otherwise it changes nothing, and the first that fails gives the code |
| Answers.ImportOkExactly | src/cdf/modules/psk_management/psk_manager.cpp:463-513 | Import likewise, with the length of the given content |
| Answers.UpdateOkExactly | src/cdf/modules/psk_management/psk_manager.cpp:797-898 | Update likewise, with the credential found and as many random bytes as it is long |
| PskValidity.NewCredential | src/cdf/modules/psk_management/psk_manager.cpp:239-250 | What generate or import returns and stores has the names, length, days and begin time asked for, the random or given content, and the next id |
| PskValidity.NewCredentialValid | src/cdf/modules/psk_management/psk_manager.cpp:936-953 | The check returns OK for it if and only if now is at most its begin time plus 86400 times its days, and otherwise that it has expired |
| PskValidity.RenewedCredential | src/cdf/modules/psk_management/psk_manager.cpp:797-898 | An update keeps id, names, length and days of the credential it finds, gives it the random content and begins it anew at the time of the call |
| PskValidity.RenewedCredentialValid | src/cdf/modules/psk_management/psk_manager.cpp:936-953 | After it the check returns OK if and only if now is at most that time plus 86400 times the days |
| PskValidity.CheckedCredential | src/cdf/modules/psk_management/psk_manager.cpp:956-985 | The check with update leaves an unexpired credential alone and returns OK; an expired one it reports as expired, and when the update succeeds it has the random content, begins now and is valid |
| PskValidity.SessionEnds | src/cdf/modules/psk_management/psk_manager.cpp:404-513 | Over every session each live credential ends at its begin time plus 86400 times its days |
| Limits.PskStartExactly | src/cdf/modules/psk_management/psk_manager.cpp:93-119 | The options that a start accepts, in numbers and by name |
| Limits.PskParamsExactly | src/cdf/modules/psk_management/psk_manager.cpp:404-513 | Generate and import refuse exactly the parameters outside these: an id left, names of 1 to 64 bytes, a length of 256, 384 or 512, and 1 to 365 days |
| Limits.PskLoadsExactly | src/cdf/modules/psk_management/psk_manager.cpp:594-721 | A token is loaded if and only if it decrypts to metadata within these limits, its id at most 100000 |
| PskRuns.IdsAreConsecutive | src/cdf/modules/psk_management/psk_manager.cpp:404-513 | In one session ids are issued consecutively, each once, none above pskMaxCount |
| PskRuns.CountInvariant | src/cdf/modules/psk_management/psk_manager.cpp:93-153 | The init count is never negative, and a count of zero means empty maps |
| PskRuns.TeardownExactly | src/cdf/modules/psk_management/psk_manager.cpp:93-153 | An UnInit and an Init after it leave the manager empty if and only if the count was one; otherwise they change nothing |
| PskRuns.SurvivesUntilMatched | src/cdf/modules/psk_management/psk_manager.cpp:93-153 | Credentials survive any balanced calls of Init and UnInit until the matching last UnInit |
| PskStore.TokenSplits | src/cdf/modules/psk_management/psk_manager.cpp:315-331 | Splitting a token at its first dot and decoding gives back content and metadata text, for all of them |
| Formats.TokenLayout | src/cdf/modules/psk_management/psk_manager.cpp:315-331 | Up to its first dot a token is the Base64 text of the content, after it that of the metadata |
| PskStore.TokenReadsBack | src/cdf/modules/psk_management/psk_manager.cpp:594-721 | An encrypted token reads back to the credential under the same algorithm and domain, through either key manager, and is refused under others, given the laws of Codec.Lawful |
| PskCodec.KeyManagerIsLawful | src/cdf/modules/key_management/km_cryptor.cpp:62-107 | Those laws hold of KmCryptor: from any states of the key manager to one that has their latest keys, decryption through either manager inverts encryption through either, and fails under another algorithm or domain |
| PskCodec.RunIsLawful | src/cdf/modules/key_management/openbao/openbao_key_manager.cpp:64-921 | So they hold from a state to the end of any run that spares the latest keys and keeps them known |
| PskCodec.EncryptsExactly | src/cdf/modules/key_management/openbao/openbao_key_manager.cpp:726-770 | In a state whose latest key exports and has the right length, and with random bytes, exactly the texts of 1 to 2^20-1 bytes encrypt |
| PskCodec.EncryptsTheRun | src/cdf/modules/key_management/openbao/openbao_key_manager.cpp:726-770 | So what the results on the wrapping counter ask of encryption is met, if metadata texts are at most 65536 bytes |
| JwtCodec.KeyManagerIsLawful | src/cdf/modules/key_management/km_cryptor.cpp:62-107 | The law that the results on key rotation rest on holds of KmCryptor too |
| KmCryptor.EitherDecryptsExactly | src/cdf/modules/key_management/km_cryptor.cpp:62-107 | A text made through either manager decrypts through either if and only if there is such a manager, its object is of the class it is cast to, and the shared map has the key |
| KmCryptor.AnswersOfKeyManager | src/cdf/modules/key_management/km_cryptor.cpp:30-107 | Without a manager or with a bad cast nothing is asked of the key manager; otherwise text and code are its own, codes that KmCryptor lacks becoming ERROR |
| KmCryptor.Cryptor.DoEncrypt | src/cdf/modules/key_management/km_cryptor.cpp:62-83 | Casts the borrowed object by what its Type() says and calls that class; the OpenBao object says type_ |
| KmCryptor.Cryptor.DoDecrypt | src/cdf/modules/key_management/km_cryptor.cpp:85-107 | Likewise for decryption |
| KmCryptor.VaultKeyManager.DoInit | src/cdf/modules/key_management/vault/vault_key_manager.cpp:47-51 | Sets type_ before it forwards, so also when the start fails |
| KmCryptor.VaultKeyManager.DoUnInit | src/cdf/modules/key_management/vault/vault_key_manager.cpp:40-45 | Forwards and resets type_ |
| KmCryptor.VaultKeyManager.DoEncrypt | src/cdf/modules/key_management/vault/vault_key_manager.cpp:93-97 | Forwards to the OpenBao manager |
| KmCryptor.VaultKeyManager.DoDecrypt | src/cdf/modules/key_management/vault/vault_key_manager.cpp:99-103 | Forwards to the OpenBao manager |
| KeyManagerType.VaultExactly | src/cdf/modules/key_management/vault/vault_key_manager.cpp:40-51 | Over calls of any users: type_ is VAULT if and only if some Init of the vault manager, failed or not, has no UnInit of it after it, or it was VAULT and there was no UnInit of it |
| PskKeyManagers.DowncastsExactly | src/cdf/modules/key_management/km_cryptor.cpp:62-107 | After any run of the PSK manager its next encryption or decryption has undefined behaviour if and only if its options ask for the OpenBao manager while the last Init of the vault manager has no UnInit of it after it |
| PskKeyManagers.CarefulRuns | src/cdf/modules/psk_management/psk_manager.cpp:93-768 | In runs in which no Init of the vault manager fails and nothing is loaded while it is in use, that never happens |
| PskKeyManagers.CarelessCasts | src/cdf/modules/psk_management/psk_manager.cpp:93-768 | And each such operation leads to it, at once or once the OpenBao manager is started |
| PskKeyManagers.CastEndsCalls | src/cdf/modules/key_management/km_cryptor.cpp:62-107 | Then every import with valid parameters and every load ends there |
| PskKeyManagers.FailedVaultStart | src/cdf/modules/key_management/vault/vault_key_manager.cpp:47-51 | A failed Init of the vault manager, a good one of the OpenBao manager, and an import: undefined behaviour |
| PskKeyManagers.LoadUnderVault | src/cdf/modules/psk_management/psk_manager.cpp:723-734 | Loading under the vault manager, even a refused list, resets the options but not type_: the next session with the OpenBao manager cannot import |
| PskKeyManagers.VaultSessionReloads | src/cdf/modules/psk_management/psk_manager.cpp:723-768 | What a session with the vault manager stored is loaded by one with the OpenBao manager after it if and only if its ids fit, and never inside the session itself |
| JwtKeyManagers.SetCastsExactly | src/cdf/modules/authentication/jwt/jwt_token.cpp:116-130 | On a server with its own keys, setting an allowed key ends in that undefined behaviour if and only if the server asks for the OpenBao manager while the last start of it with the vault manager, failed or not, was not stopped since |
| JwtExamples.FailedVaultStart | src/cdf/modules/authentication/jwt/jwt_auth_server.cpp:84-121 | A failed start with the vault manager, a good one with the OpenBao manager, and a key that cannot be set |
| PskStore.SessionMirrors | src/cdf/modules/psk_management/psk_manager.cpp:404-539 | With registered callbacks, whichever fail, the store they feed holds exactly tokens of the live credentials throughout a session |
| PskStore.ReloadExactly | src/cdf/modules/psk_management/psk_manager.cpp:723-768 | Loading that store, in any order, succeeds if and only if it is not empty, the session used the default algorithm and domain (through either key manager), all ids are at most 100000, and type_ of the key manager is OPENBAO at the time; the credentials then are the same, renumbered from 1, with the counter after the last. With type_ VAULT the first token ends in the bad cast |
| PskStore.RenumberedAt | src/cdf/modules/psk_management/psk_manager.cpp:582-592 | Content and metadata of each loaded credential are the stored ones, its id apart |
| PskStore.FirstOwner | src/cdf/modules/psk_management/psk_manager.cpp:757-762 | After loading, each content is indexed for its first credential in the list |
| PskStore.SessionReloads | src/cdf/modules/psk_management/psk_manager.cpp:404-768 | From the first Init over any session, through either key manager, to the reload: every credential comes back if and only if there is one, the session used the default algorithm and domain, no id still live exceeds 100000, and type_ is OPENBAO at the reload |
| PskManager.PskManager.DoInit | src/cdf/modules/psk_management/psk_manager.cpp:93-119 | Counts when running; otherwise takes over valid options and, for the vault manager, sets type_, also when the key manager then fails |
| PskManager.PskManager.DoUnInit | src/cdf/modules/psk_management/psk_manager.cpp:121-153 | Counts down; at zero stops the key manager, which always returns OK, and clears everything |
| PskManager.PskManager.GeneratePsk | src/cdf/modules/psk_management/psk_manager.cpp:404-461 | The class does what Generate says; entries are added without overwriting and the counter wraps at 32 bits |
| PskManager.PskManager.ImportPsk | src/cdf/modules/psk_management/psk_manager.cpp:463-513 | Likewise for Import, with the content length checked |
| PskManager.PskManager.DeletePsk | src/cdf/modules/psk_management/psk_manager.cpp:515-539 | Calls back first, then drops the content entry (whoever it names) and the credential |
| PskManager.PskManager.UpdatePsk | src/cdf/modules/psk_management/psk_manager.cpp:797-898 | The class does what Update says, over all cases of id and content |
| PskManager.PskManager.DoCheckPskValidAndAutoUpdate | src/cdf/modules/psk_management/psk_manager.cpp:956-985 | An expired credential is updated; the result of that is not reported |
| PskManager.PskManager.LoadAllPsk | src/cdf/modules/psk_management/psk_manager.cpp:723-768 | The loop computes LoadAll: everything is cleared, options reset, and the first bad token ends it |
| JwtRotation.RotationOverRuns | src/cdf/modules/authentication/jwt/jwt_auth_server.cpp:308-406 | Over every run with a clock that does not go back: a token under key K, created at c with an expiry of e minutes, validates at now if and only if it is shorter than 100 MiB, c is below 2^63, e is -1 or now at most c + 60e or before c, the present key is unexpired, and K is the key last installed, or the one present before the last refresh attempt, still unexpired, while the present key is long enough for the token's algorithm |
| JwtRotation.RotationExactly | src/cdf/modules/authentication/jwt/jwt_auth_server.cpp:371-406 | The same in every state that the invariant holds in, in terms of the two slots |
| JwtRotation.RunInv | src/cdf/modules/authentication/jwt/jwt_token.cpp:63-154 | Over every run the old key is not younger than the present one, never without it, and both decrypt |
| JwtRotation.OldImpliesPresent | src/cdf/modules/authentication/jwt/jwt_token.cpp:63-79 | A live old key never goes with an expired or missing present key |
| JwtRotation.SlotsAreHistory | src/cdf/modules/authentication/jwt/jwt_token.cpp:81-154 | The slots are what history says: the last key installed with success, and the key present before the last attempted refresh |
| JwtRotation.FailedRefreshRetiresOld | src/cdf/modules/authentication/jwt/jwt_token.cpp:81-114 | A refresh that fails to encrypt has dropped the old key: a token that validated before is refused |
| JwtRotation.CreatedValidates | src/cdf/modules/authentication/jwt/jwt_auth_server.cpp:253-360 | A token that CreateToken made validates at once if and only if it is shorter than 100 MiB, its header was made before 2^63, and that was, unless its expiry is -1, at most so many minutes ago |
| JwtRotation.KeyLifetime | src/cdf/modules/authentication/jwt/jwt_token.cpp:116-154 | For options a start accepts, a key set at t is live at now if and only if now is at most t plus 3600 times the hours, -1 standing for 24 |
| Limits.OldKeyLifetime | src/cdf/modules/authentication/jwt/jwt_token.cpp:81-154 | After a refresh the earlier key is live up to its own time plus 3600 times the hours, and the new one up to its |
| Limits.JwtStartExactly | src/cdf/modules/authentication/jwt/jwt_auth_server.cpp:84-121 | The options that a start accepts, in numbers |
| Limits.JwtKeysExactly | src/cdf/modules/authentication/jwt/jwt_auth_server.cpp:162-227 | Setting and refreshing refuse exactly keys shorter than 32, 48 or 64 bytes, by the algorithm, or of 1 MiB and more, and setting a key with a NUL |
| Answers.RefreshOkExactly | src/cdf/modules/authentication/jwt/jwt_auth_server.cpp:162-189 | The same for refreshing: key and time go to the old slot before the new key is encrypted, and stay there if that fails |
| Answers.CreateOkExactly | src/cdf/modules/authentication/jwt/jwt_auth_server.cpp:253-306 | CreateToken returns OK if and only if the server is started, the input is a terminated text of at most 100 MiB, the buffer has room for token and NUL, and the key, given and terminated or present, unexpired and decrypted, is as long as the algorithm needs |
| JwtRotation.ExpireTogether | src/cdf/modules/authentication/jwt/jwt_auth_server.cpp:308-331 | Tokens that one start made at c with an expiry of e minutes, whenever they were created and under whatever keys, all expire after second c + 60e |
| JwtExamples.LongOwnTokenRefused | src/cdf/modules/authentication/jwt/jwt_auth_server.cpp:253-360 | A token that CreateToken makes of 80000000 bytes or more is refused at once with PARAM_INVALID |
| JwtExamples.LongOwnTokenExists | src/cdf/modules/authentication/jwt/jwt_auth_server.cpp:253-306 | Such a token is made: in a buffer of the estimated length |
| JwtExamples.OldKeyValidates | src/cdf/modules/authentication/jwt/jwt_auth_server.cpp:371-406 | A concrete run after which the old key still validates a token |
| JwtExamples.OldKeyRefusedAfterFailure | src/cdf/modules/authentication/jwt/jwt_token.cpp:81-114 | And is refused after one failed refresh |
| JwtExamples.OwnTokenValidates | src/cdf/modules/authentication/jwt/jwt_auth_server.cpp:253-360 | A concrete token that validates on the server that made it |
| JwtExamples.ShortKeyRefusesOld | src/cdf/modules/authentication/jwt/jwt_auth_server.cpp:371-406 | A token under a 64-byte key that needs all of it validates, and is refused after a refresh to a 32-byte key, although the old key has not expired |
| JwtToken.HeaderRoundTrip | src/cdf/modules/authentication/jwt/jwt_auth_server.cpp:566-620 | Printing and reading the header undo each other for every algorithm, expiry (-1 included) and exactly the creation times below 2^63 |
| Formats.HeaderText | src/cdf/modules/authentication/jwt/jwt_token.cpp:33-40 | The text of the header, letter by letter around its three numbers |
| JwtToken.ThreeParts | src/cdf/modules/authentication/jwt/jwt_auth_server.cpp:480-516 | Every token has exactly three dot-separated parts: stripped header, padded payload, stripped signature |
| JwtToken.FixUndoesStrip | src/cdf/modules/authentication/jwt/jwt_auth_server.cpp:44-62 | Re-padding a stripped encoding gives the padded one, so it decodes |
| JwtToken.StripIsUnpadded | src/cdf/modules/authentication/jwt/jwt_auth_server.cpp:542-564 | The first piece around = is the encoding without its padding, and never empty |
| JwtToken.OpensOwn | src/cdf/modules/authentication/jwt/jwt_auth_server.cpp:308-331 | Opening a token that was created at c with an expiry of e minutes gives back algorithm, signed text and signature if e is -1 or now at most c + 60e or before c, and the expiry code otherwise |
| JwtValidation.ValidatesExactly | src/cdf/modules/authentication/jwt/jwt_auth_server.cpp:308-360 | On a server whose caller gives the key, ValidateToken accepts a token under its own key if and only if it is shorter than 100 MiB, its creation time c is below 2^63, and its expiry e is -1 or now is at most c + 60e or before c |
| JwtValidation.LastSecond | src/cdf/modules/authentication/jwt/jwt_auth_server.cpp:642-647 | A token with an expiry of e minutes validates there at second c + 60e, and one second later every server refuses it as expired |
| JwtValidation.CreatedValidatesExactly | src/cdf/modules/authentication/jwt/jwt_auth_server.cpp:253-360 | The same of what CreateToken returned there |
| JwtValidation.TokenLength | src/cdf/modules/authentication/jwt/jwt_auth_server.cpp:480-516 | The exact length of a token from the lengths of header and input and the algorithm |
| JwtValidation.LongInputsRefused | src/cdf/modules/authentication/jwt/jwt_auth_server.cpp:253-360 | Inputs of 80000000 bytes or more, which CreateToken accepts, give tokens that ValidateToken refuses in every mode; inputs of up to 78643000 bytes stay below its limit |
| JwtValidation.OtherKeyRefused | src/cdf/modules/authentication/jwt/jwt_auth_server.cpp:308-360 | Under another key, with an HMAC that tells the two apart, ValidateToken refuses it |
| JwtToken.EstimateSuffices | src/cdf/modules/authentication/jwt/jwt_auth_server.cpp:229-251 | The estimate exceeds what token and terminator need by two bytes and the stripped paddings, for every input length up to 100 MiB, and fits 32 bits |
| JwtServer.EstimatedBufferSuffices | src/cdf/modules/authentication/jwt/jwt_auth_server.cpp:253-306 | So creating a token into a buffer of the estimated size never fails for lack of room |
| JwtServer.JwtKeyPass.DoSetKey | src/cdf/modules/authentication/jwt/jwt_token.cpp:116-154 | Replaces the present key and its time, leaves the old one, and changes nothing when encryption fails |
| JwtServer.JwtKeyPass.DoRefreshKey | src/cdf/modules/authentication/jwt/jwt_token.cpp:81-114 | Drops the old key first, then moves the present one there, then sets the new one |
| JwtServer.JwtAuthServer.DoStart | src/cdf/modules/authentication/jwt/jwt_auth_server.cpp:84-121 | Options and header are taken over, and type_ is set, before the key manager answers; a start with its own keys begins with empty slots |
| JwtServer.JwtAuthServer.DoStop | src/cdf/modules/authentication/jwt/jwt_auth_server.cpp:123-139 | Stops the server whatever the key manager is, and resets type_ for the vault manager |
| JwtServer.JwtAuthServer.DoSetEncryptionKey | src/cdf/modules/authentication/jwt/jwt_auth_server.cpp:191-227 | State, mode, length and NUL checks, then the present slot |
| JwtServer.JwtAuthServer.DoRefreshEncryptionKey | src/cdf/modules/authentication/jwt/jwt_auth_server.cpp:162-189 | State, mode and length checks, then both slots |
| JwtServer.JwtAuthServer.DoCreateToken | src/cdf/modules/authentication/jwt/jwt_auth_server.cpp:253-306 | Writes the token and a NUL into the caller's buffer and nothing behind them, or leaves the buffer alone |
| JwtServer.JwtAuthServer.DoValidateToken | src/cdf/modules/authentication/jwt/jwt_auth_server.cpp:308-360 | The order of checks and their codes |
| JwtServer.JwtAuthServer.DoValidateInternal | src/cdf/modules/authentication/jwt/jwt_auth_server.cpp:371-406 | The present key first, then the old one if unexpired |
| RandSafety.GenerateSafe | src/cdf/modules/rand/rand.cpp:498-559 | In every interleaving of any number of threads: the generator is used only under both mutexes, with all four handles live and both contexts instantiated |
| RandSafety.FreeMeansSettled | src/cdf/modules/rand/rand.cpp:425-482 | Whenever nobody holds the init mutex, the module is initialised with all four handles set and the providers that its configuration asks for, or every handle and provider is null |
| RandSafety.FreedInOrder | src/cdf/modules/rand/rand.cpp:383-421 | In every reachable state a context is there only with its algorithm and with the context it draws from, and all of them only with a provider |
| RandResults.InitResult | src/cdf/modules/rand/rand.cpp:425-482 | In every interleaving a RandInit that returns OK leaves the module initialised, PARAM_INVALID means an invalid configuration, and ERROR a valid one with a bad answer of the library or a custom provider without a name |
| RandResults.InitAloneSucceeds | src/cdf/modules/rand/rand.cpp:425-482 | From every reachable state in which nobody holds the init mutex, a RandInit with a valid configuration, run alone with good answers, returns OK with the module initialised, by this configuration if it was not before |
| RandResults.ActiveIsSound | src/cdf/modules/rand/rand.cpp:425-482 | In every interleaving, while the module is initialised the configuration in use is valid and names its custom provider |
| RandResults.GetResult | src/cdf/modules/rand/rand.cpp:498-559 | In every interleaving a GetRand returns OK if and only if it generated, and ERROR if and only if a health check or the generation failed or all 1000 attempts were used; it returns nothing else |
| RandResults.GetAloneGenerates | src/cdf/modules/rand/rand.cpp:498-559 | From every such state a GetRand run so generates and returns OK, initialising the module if it has to |
| RandResults.DeinitResult | src/cdf/modules/rand/rand.cpp:598-624 | In every interleaving, when RandDeinit returns the module is not initialised and every handle and provider is null |
| RandSafety.EachExactlyOnce | src/cdf/modules/rand/rand.cpp:287-421 | In every reachable state each acquired resource is in exactly one place: a handle, a local variable, or the releases, and there once |
| RandSafety.NothingLeaks | src/cdf/modules/rand/rand.cpp:598-624 | When all calls have returned and the module is not initialised, everything acquired has been released |
| RandSafety.NoDeadlock | src/cdf/modules/rand/rand.cpp:425-624 | While some call has not returned, some thread can make a step |
| RandSafety.GivesBack | src/cdf/modules/rand/rand.cpp:425-624 | In no interleaving does a thread keep the init mutex over more than 27 steps of its own after taking it |
| RandSafety.OwnerGoesOn | src/cdf/modules/rand/rand.cpp:425-624 | And the thread that holds it can always make its next step |
| RandSafety.CallEnds | src/cdf/modules/rand/rand.cpp:425-624 | In no interleaving does a call make more steps of its own than 37 for RandInit, 16 for RandDeinit, and 38 for each of the 1000 attempts of GetRand |
| RandSafety.FlagMeansContext | src/cdf/modules/rand/rand.cpp:516-521 | Under the locks a raised flag means the context is there: the null test never decides |
| RandSafety.OneOwner | src/cdf/modules/rand/rand.cpp:425-624 | At most one thread is between taking and giving back the init mutex |
| RandSafety.RunInv | src/cdf/modules/rand/rand.cpp:425-624 | The invariant behind these holds in every state that any interleaving reaches |
| SecurePwd.GetSecurePwd | src/cdf/modules/rand/rand.cpp:648-699 | Ends within retryTimes rounds with the password of the first good round, or with an all-zero buffer when there is none; bad parameters change nothing |
| SecurePwd.GoodRound | src/cdf/modules/rand/rand.cpp:671-690 | A password handed out has only printable characters, of at least two classes, each the table entry its eight bytes name |
| SecurePwd.HasMultipleCharTypes | src/cdf/modules/rand/rand.cpp:626-646 | The test types & (types-1) holds exactly when two characters of different classes occur |
| SecurePwd.TableIsBijection | src/cdf/modules/rand/rand.cpp:44-46 | The table holds each of the 95 printable ASCII characters exactly once |
| Formats.PasswordTable | src/cdf/modules/rand/rand.cpp:44-46 | The table is the digits, the small and the capital letters, and 33 others in this order |
| SecurePwd.FoldBlock | src/cdf/modules/rand/rand.cpp:680-684 | The shift-and-or loop computes the big-endian number without loss |
| SecurePwd.FoldIsBijection | src/cdf/modules/rand/rand.cpp:680-684 | Eight-byte blocks and 64-bit numbers correspond one to one |
| SecurePwd.PreimageCounts | src/cdf/modules/rand/rand.cpp:685-685 | Each character is picked by the floor or the ceiling of 2^64/95 numbers, and which of the two is told |
| Base64.Base64Encode | src/cdf/utils/base64.cpp:39-93 | The encoder's loop computes Encode for every byte string |
| Base64.Base64Decode | src/cdf/utils/base64.cpp:95-148 | The decoder's loop computes Decode: only the longest alphabet prefix is read |
| Base64.RoundTrip | src/cdf/utils/base64.cpp:39-148 | Decoding an encoding gives the bytes back, with padding kept or stripped |
| Formats.EncodesByGroups | src/cdf/utils/base64.cpp:39-93 | The encoding is that of section 4 of RFC 4648: 24-bit groups as four 6-bit digits, a short last group filled with zero bits and "=" |
| Formats.AlphabetIsStandard | src/cdf/utils/base64.cpp:29-36 | The 64 characters are A to Z, a to z, 0 to 9, + and /, and the padding is = |
| Base64.CanonicalExactly | src/cdf/utils/base64.cpp:39-148 | Encoding a decoding gives the text back if and only if the text is canonical (section 3.5 of RFC 4648) |
| Base64.DecodeOnlyReadsAlphabetPrefix | src/cdf/utils/base64.cpp:95-128 | Texts with the same alphabet prefix decode alike |
| Base64.FillerNeverLeaks | src/cdf/utils/base64.cpp:128-146 | What fills up a short last group never reaches the output |
| Base64.EncodeInjective | src/cdf/utils/base64.cpp:39-93 | Different byte strings have different encodings, stripped or not |
| Base64.EncodeLength | src/cdf/utils/base64.h:27-30 | Base64EncodeLen is the encoding's length plus its terminator |
| Base64.TableInverse | src/cdf/utils/base64.cpp:29-36 | The table of 64 characters and its search are inverse; 0xFF means not found |
| StrUtils.SplitInto | src/cdf/utils/str_utils.h:77-97 | The loop appends exactly the pieces of Split |
| StrUtils.SplitJoin | src/cdf/utils/str_utils.h:77-97 | Splitting undoes joining when no piece holds the separator and the last is not empty |
| StrUtils.JoinSplit | src/cdf/utils/str_utils.h:77-97 | Joining the pieces gives the text back, up to one trailing separator |
| StrUtils.ParsePrinted | src/cdf/utils/str_utils.h:25-75 | Reading a printed number gives the number, whatever non-digit text follows |
| StrUtils.ParsersReadPrinted | src/cdf/utils/str_utils.h:25-75 | Each parser reads a printed number back exactly when it is in the range of its type, and refuses it otherwise |
| StrUtils.ReadsExactly | src/cdf/utils/str_utils.h:25-75 | A text reads as a number exactly if it is white space, an optional sign, digits up to their end and anything else, and then as the number of its digits with its sign |
| Pbkdf2.DeriveThenInspect | src/cdf/modules/cryption/native_cryptor_engine.cpp:490-635 | GetPbkdf2Config applied to any successful Pbkdf2Hmac output recovers algorithm, iterations, length and salt over the whole valid range |
| Pbkdf2.Pbkdf2Hmac | src/cdf/modules/cryption/native_cryptor_engine.cpp:521-579 | Writes header, key and salt in place and encodes them, for exactly the valid configurations |
| Pbkdf2.GetPbkdf2Config | src/cdf/modules/cryption/native_cryptor_engine.cpp:581-635 | Reads the fields back, with its length checks |
| Pbkdf2.RecoversConfig | src/cdf/modules/cryption/native_cryptor_engine.cpp:581-635 | Every successful output passes the minimum-length check and holds its configuration |
| Formats.BlobBytes | src/cdf/modules/cryption/native_cryptor_engine.cpp:521-579 | The bytes before their encoding: algorithm, iterations in four bytes, length in two, high byte first, key, salt |
| Pbkdf2.DecodedSizeFits | src/cdf/modules/cryption/native_cryptor_engine.cpp:46-50 | The check on the decoded size never fires, on any text |
| CipherEnvelope.OpenSealed | src/cdf/modules/cryption/native_cryptor_engine.cpp:132-433 | Opening inverts sealing for every suite, although for SM4 the associated data overwrite the end of the IV |
| CipherEnvelope.EncryptDecrypt | src/cdf/modules/cryption/native_cryptor.cpp:45-135 | Encryption succeeds exactly on 1 to 2^20-1 bytes under a key of the right length; the result has the estimated length, passes the decrypt limit and decrypts back |
| CipherEnvelope.EncryptsByName | src/cdf/modules/cryption/native_cryptor.cpp:27-89 | By name: each of the five algorithms takes exactly 1 to 2^20-1 bytes under a key of 16 bytes (AES128_GCM, AES128_CCM, SM4_CTR) or 32 (AES256_GCM, CHACHA20_POLY1305) |
| CipherEnvelope.DecryptsByName | src/cdf/modules/cryption/native_cryptor.cpp:91-135 | Decryption asks for 45 to 2^21-1 bytes and a key of that length, and which refusals are for invalid parameters |
| CipherEnvelope.LayoutByName | src/cdf/modules/cryption/native_cryptor_engine.cpp:132-272 | By name: IV in front, associated data from byte 12, tag from byte 28 and text from byte 44, both of the algorithm's own cipher; for SM4_CTR the counter-mode text |
| CipherEnvelope.OtherAlgorithm | src/cdf/modules/cryption/native_cryptor_engine.cpp:299-433 | If the ciphers refuse each other's texts, a text of one authenticated algorithm is refused under every other; SM4_CTR, which authenticates nothing, refuses by key length only |
| CipherEnvelope.NativeCryptor.OpensslEncrypt | src/cdf/modules/cryption/native_cryptor_engine.cpp:132-272 | The in-place writes leave exactly the layout Sealed |
| CipherEnvelope.NativeCryptor.OpensslDecrypt | src/cdf/modules/cryption/native_cryptor_engine.cpp:299-433 | The reads recover what Opened says |
| CipherEnvelope.NativeCryptor.Encrypt | src/cdf/modules/cryption/native_cryptor.cpp:45-89 | Sets the shared suite, checks lengths, fills the buffer; equals EncryptResult |
| CipherEnvelope.NativeCryptor.Decrypt | src/cdf/modules/cryption/native_cryptor.cpp:91-135 | Sets the shared suite, checks lengths; equals DecryptResult |
| KeytabFormat.ReadWrittenFile | src/cdf/modules/authentication/kerberos/krb_ctx.cpp:581-617 | Reading a written keytab gives its entries in order, holes skipped, a nonzero 32-bit version overriding the 8-bit one |
| Formats.RecordBytes | src/cdf/modules/authentication/kerberos/krb_ctx.cpp:443-492 | The bytes of one concrete record, field by field |
| KeytabFormat.AcceptedInsideDeclaredSize | src/cdf/modules/authentication/kerberos/krb_ctx.cpp:494-538 | An accepted entry consumes only bytes inside its declared size, leaves the cursor at its end, and depends on no later byte |
| KeytabFormat.CountedExactly | src/cdf/modules/authentication/kerberos/krb_ctx.cpp:310-343 | A counted text is read if and only if it has 1 to 32767 bytes, all in the buffer |
| KeytabFormat.PrincipalCount | src/cdf/modules/authentication/kerberos/krb_ctx.cpp:345-441 | A principal that is read has 1 to 32767 components, as many as it announces |
| Keytab.KerberosRead | src/cdf/modules/authentication/kerberos/krb_ctx.cpp:216-233 | Reads count items or nothing, never outside the buffer |
| Keytab.KerberosReadEntrySize | src/cdf/modules/authentication/kerberos/krb_ctx.cpp:255-276 | Skips holes and ends on every buffer (measure: bytes left) |
| Keytab.KerberosReadEntryContent | src/cdf/modules/authentication/kerberos/krb_ctx.cpp:443-492 | Reads principal, time, version and key as the format says, or fails exactly when it cannot |
| Keytab.KerberosReadEntry | src/cdf/modules/authentication/kerberos/krb_ctx.cpp:494-538 | Reads one entry and its optional version and leaves the cursor at the end of the record |
| KeytabSelect.KerberosGetEntry | src/cdf/modules/authentication/kerberos/krb_ctx.cpp:581-617 | The search ends and returns what Pick says of the readable entries before the first bad record |
| KeytabSelect.FoundExactly | src/cdf/modules/authentication/kerberos/krb_ctx.cpp:581-617 | With version and type 0, an entry is returned if and only if some readable entry matches |
| KeytabSelect.FoundIsWanted | src/cdf/modules/authentication/kerberos/krb_ctx.cpp:540-617 | Whatever is found is an entry of the buffer, of the principal and the type asked for, and of version 0, the version asked for, or that mod 256 |
| KeytabSelect.LaterExactly | src/cdf/modules/authentication/kerberos/krb_ctx.cpp:235-253 | Timestamps are compared as unsigned 32-bit numbers |
| KeytabSelect.OfTwoExactly | src/cdf/modules/authentication/kerberos/krb_ctx.cpp:235-253 | Of two matching entries the later read wins if and only if its version is greater, except that a version below 128 that is not older stands above one above 128 |
| KeytabSelect.GreatestInEveryOrderExactly | src/cdf/modules/authentication/kerberos/krb_ctx.cpp:235-253 | The greatest matching version is chosen in every order of the entries if and only if it is at most 128, or each of its entries has a later timestamp than each matching entry below 128 |
| KeytabSelect.ChoosesFirstGreatest | src/cdf/modules/authentication/kerberos/krb_ctx.cpp:540-565 | Under that condition the choice is the first matching entry of the greatest version |
| KeytabSelect.RecencyIsCyclicAcross128 | src/cdf/modules/authentication/kerberos/krb_ctx.cpp:235-253 | Three entries on which recency is cyclic and the choice depends on the order |
| KeytabSelect.ExactVersionWins | src/cdf/modules/authentication/kerberos/krb_ctx.cpp:540-565 | With a version asked for, the first match of exactly that version wins |
| KeytabSelect.FoundForVersionExactly | src/cdf/modules/authentication/kerberos/krb_ctx.cpp:540-617 | With a version v asked for, an entry is found if and only if some matching entry has version 0, v, or v mod 256 |
| KeytabSelect.ChosenWithoutExact | src/cdf/modules/authentication/kerberos/krb_ctx.cpp:540-565 | Without a match of exactly that version, the choice is the first match of version 0 or v mod 256, unless its version is above 128 and a later match of version 0 is not older: then the first of those |
| LocalTime.UTCTime.UtcTimeToLocal | src/cdf/utils/time_utils.cpp:31-119 | The result is the input plus the offset on the count of seconds, over month, leap-year and year ends, unless it goes back over the start of January, May, July, October or December; there, exactly when an uninitialised field happens to hold the right length |
| LocalTime.RightForEveryGarbage | src/cdf/utils/time_utils.cpp:84-119 | Whatever that field holds, the conversion is right if and only if the hour does not go back, the day is not the first, or the month is 2, 3, 4, 6, 8, 9 or 11 |
| LocalTime.ZoneGuessedExactly | src/cdf/utils/time_utils.cpp:31-42 | In a zone z whole hours ahead of UTC, the offset read off the local hour of the epoch is z if and only if -11 <= z <= 12 |
| LocalTime.RightInZoneExactly | src/cdf/utils/time_utils.cpp:31-119 | So the conversion gives that zone's local time, whatever the field holds, exactly for such z under the same condition |
| LocalTime.ShiftForward | src/cdf/utils/time_utils.cpp:45-82 | Without a step back over a month start the carries give the local time |
| LocalTime.ShiftBack | src/cdf/utils/time_utils.cpp:45-82 | A step back over a month start gives the local time if and only if the length held for the last month is right |
| LocalTime.InstantInjective | src/cdf/utils/time_utils.cpp:45-82 | The count of seconds determines the calendar fields |
| Formats.TickIsOneSecond | src/cdf/utils/time_utils.cpp:45-119 | The next second on the calendar is one more on the count, over month, leap-year and year ends, for all times |
| LocalTime.UTCTime.ParseDayAmount | src/cdf/utils/time_utils.cpp:84-119 | Sets the length of the month always, of the month before for seven months only |
| LocalTime.UTCTime.TranseTimeZoneT | src/cdf/utils/time_utils.cpp:45-82 | The carries through hour, day, month and year |

## Left out

- Command line, logging, paths and file permissions, processes and pipes, GSS and krb5 wrappers: plumbing around libraries.
- OpenSSL ciphers, HMAC, PBKDF2 and DRBG internals, JSON, local-time formatting: functions with stated laws.
- Null pointers, allocation failure, memory wiping, memcpy_s failure: outside the model.
- Locks of the PSK and key managers: each call is one step, `CheckPskValidAndAutoUpdate` too, which unlocks before it updates.
- KeyManager.OpenbaoKeyManager.DoDeleteAllKey: only when no deletion is reported as failed; when one is, the code advances the outer iterator inside the inner loop, and the two no longer match. Runs leave such calls out (`KeyManagerRuns.Allowed`).
- External commands have their whole effect on the store or none, and output that is no reply holds no creation time. Of the texts around names, times and material in a reply none contains "Error".
- Keys with more than one version: one material and one creation time per key.
- PskManager.PskManager.UpdatePsk: does not model what the out parameter holds after a failure, only that none is delivered.
- KeyManagerRuns.StaysDecryptable: assumes that the id of the encrypting key is at most 65535, as every id made here is; ids read from a store can be larger, and `KeyManagerRuns.HeaderNamesKey` says what happens then.
- PskStore.ReloadExactly: assumes metadata that its text gives back (names without NUL, times that format and parse in local time) and master keys that still decrypt at reload.
- JwtRotation.RotationExactly: assumes an HMAC that tells the keys in question apart; `JwtRotation.RotationOverRuns` also assumes a clock that does not go back.
- PskCodec.KeyManagerIsLawful: assumes that export commands run at decryption.
- PskManager.PskManager.DoUnInit: the branch for a key manager whose UnInit fails is left out, because UnInit of both managers returns OK only.
- The PSK manager and the JWT server: a call of the key manager that never returns (`KeyManager.SELF_DEADLOCK`) counts as a failed encryption there.
- Several users of the shared key manager in one process: each run has one user; `KeyManagerType.VaultExactly` is about the calls of all.
- KeytabSelect.GreatestInEveryOrderExactly: about searches that ask for no version; `KeytabSelect.ExactVersionWins` and `KeytabSelect.ChosenWithoutExact` are about the others.
- Expiry arithmetic on headers made elsewhere: 64-bit overflow of times and expiries that no server prints is not modelled.
- Pbkdf2.GetPbkdf2Config: only texts that hold the bytes they announce; on others the code uses an unchecked length.
- Base64.Base64Encode: does not model the truncation of the length to 32 bits, because strings of 4 GiB never reach it.
- LocalTime.UTCTime.UtcTimeToLocal: does not model the sscanf and sprintf text around the fields.
- GetRand with a null buffer or a length out of bounds: it returns before its first step.
- `GetRandHealthStatus`, and the interval of the health check in `GetRand`: whether a check is due and what it says are free choices of each run.
- `RandLifecycle` does not count log errors; of a configuration it has whether it is valid, FIPS, its own seed source and whether that has a name, not the names of algorithms and strengths; RAND_poll has no effect on handles.
- Copies of read-only getters (`GetPsk`, `GetPskMetaData`, `DisplayKey`): they return what the maps hold.
- The other operations of VaultKeyManager: they forward like those modelled.
