# A verified model of the AWS Encryption SDK for C

This project models the hard core of the AWS Encryption SDK for C in Dafny and proves what the library
promises about it: the streaming session, the message format, the materials cache with its caching materials
manager, and the keyrings. `dafny verify dfyconfig.toml` checks everything.

## How it is organised

* **Octets and codecs.** `Bytes`, `Parsing`, `EncryptionContext`, `MessageHeader` and `FrameFormat` model the wire
  format. Parsers are functions from octets to a value and a rest, a request for more input, or an error. The loops
  and cursors of the code are methods proved against those functions.
* **Cryptography.** `Hkdf` is the block loop of RFC 5869. `Cipher` holds the associated data, the IVs, the header
  tag and the key derivation. AES-GCM, HMAC, ECDSA and the random source are function values; what is asked of them
  is written as a predicate (`Lawful`, `LawfulAead`, `LawfulHmac`) and assumed only where a statement needs it.
* **The session.** `SessionModel` is the eleven-stage machine as functions on a record. A record also carries a
  history of what was taken, produced and sealed; the code keeps no such history, the statements need it.
  `SessionObject` is the same machine as an object updated step by step, with the process loop, proved equal to the
  functions also when a step fails half-way, and `SessionReplay` carries this over to whole runs. `EncryptRuns`,
  `DecryptRuns` and `SessionRuns` hold the invariants over every sequence of calls, settings and resets.
* **Whole messages.** `Reading` and `Progress` are about reading a stream in arbitrary pieces. `RoundTrip` applies them
  to what an encryption wrote and `Cuts` to arbitrary octets. `EncryptProgress` and `SameOctets` are the writing side.
  `KeyReuse` follows key and IV pairs across all messages of a run, `FrameSizes` the frame size, `SizeBound` the declared
  bound, and `PolicyChecks` the assertions about the policy. `SmallWorld` is a world for every suite in which all
  assumptions hold together.
* **The cache.** `RecencyList` is the reference: a list, most recently used first. `LocalCache` is the hash table, the
  recency list, the expiry heap and the reference counts. `CacheRuns` compares the two over any sequence of
  operations. `CacheIds` and `CachingCmm` are the identifiers and the manager; a ledger of every data key handed out
  carries the limits over requests, and `CmmRuns` over whole runs of any number of managers that share a cache.
* **Keyrings.** `Keyrings` models trees of multi-keyrings over arbitrary leaves, `RawAesKeyring` a concrete leaf.

Clock readings, random octets, addresses returned by the allocator, the iteration order of hash tables and the answers
of upstream managers are parameters, so every statement holds for all of them.

## Where the code says less, or something else, than its documentation

* `include/aws/cryptosdk/session.h:148` says a message size below the octets already processed is an error. The code
  accepts it, and `SizeBound.TooSmallSizeIsReachable` is a run that gets there under every suite.
  `EncryptProgress.DeclaredSizeDecides` gives the exact condition for the message to be finishable.
* `include/aws/cryptosdk/session.h:169` says writing more than the bound is an error. The bound goes into the request
  for the key (`source/session_encrypt.c:64`); from then on processing never looks at it
  (`SizeBound.BoundIsNotConsulted`), and `SizeBound.BoundIsExceeded` is a run that writes more without an error. A
  finished message is nevertheless within the bound (`SizeBound.FinishedWithinBound`).
* A framed message of exactly 2^32 - 2 full frames, and less than a frame more, can be encrypted if its size is declared
  first but not if it is declared last (`EncryptProgress.OrderDecidesAtTheLimit`; with primitives that have the limits of
  AES-GCM, under every suite and frame size, `SmallWorld.OrderDecidesHere`).
* The number of wrapped keys and the lengths of their fields are cast to 16 bits when the header is written
  (`source/header.c:514`). A longer list is written without an error and lost to every receiver
  (`SmallWorld.KeysAreLost`); `RoundTrip.KeysArriveExactly` gives the exact condition.
* With fewer than four octets of a frame the reported size is not a lower bound. `FrameFormat.PrefixEstimate` gives the
  exact condition.
* Caching is meant for suites with a key derivation only (`source/caching_cmm.c:505`). The check in
  `source/caching_cmm.c:61` looks at a name that is a stringized token and therefore never null, so it holds of every
  known suite. The manager takes the predicate as a parameter and the results hold for any choice; with the code's own
  one, `KeyReuse.ServesTwice` hands out a key of a suite without derivation twice.
* Suites without a key derivation use the data key as it is (`source/cipher.c:340`). Two messages that get one data key
  then use one key with one IV twice, whatever their ids (`KeyReuse.OneKeyTwoMessages`).
  `KeyReuse.RepeatsExactlyWhenSourcesRecur` says that over any run this happens exactly when a data key recurs without a
  derivation or together with suite and message id, or by an accident of HMAC.
* The assertion at `source/session.c:591` can fail: an invalid policy set while the header is awaited is refused with an
  error but stays. `PolicyChecks.PolicyAssertExact` gives the exact condition; the one at `source/session.c:579` never
  fails.
* A raw AES keyring with an empty namespace wraps data keys that it then passes over, and one given a data key shorter
  than the suite asks for wraps it into something that never yields it. `RawAesKeyring.OwnKeyUnwraps` says that these
  are the only such cases.
* Invalidation leaves the expiry of an entry as it was, unlike the comment at `source/local_cache.c:87` says.
  `LocalCache.DroppedKeepsExpiry` gives the exact condition for it to be unset, `CacheRuns.InvalidatedKeepsExpiry` a way
  to an invalidated entry that has one.
* `include/aws/cryptosdk/session.h:120` says that a reset preserves the frame size to use for encryption. Reading a
  message overwrites it (`source/session_decrypt.c:177`), with zero if the message is not framed.
  `FrameSizes.RestartFindsChoice` says when the size that was chosen is found again, and
  `FrameSizes.ReadingLosesChoice` is a run, for any message that can be read, after which it is not.
* A size over a frame limit leaves the caller's size variable unset (`source/framefmt.c:313`); `World.unset` stands for it in
  what `FrameFormat.SerializeFrame` reports.

## Model

| member | source | states |
|---|---|---|
| `Hkdf.ExpandMatchesStandard` | source/hkdf.c:62-106 | the expansion is accepted exactly for the lengths RFC 5869 allows, and octet j is octet j mod HashLen of T(j / HashLen + 1) |
| `Hkdf.ExpandInto` | source/hkdf.c:62-106 | the in-place block loop writes exactly that expansion, and zeroes the buffer when it rejects |
| `Hkdf.DeriveInto` | source/hkdf.c:148-167 | extraction and expansion together compute the specified derivation or fail with it |
| `Algorithms.AlgProps` | source/cipher.c:33-224 | the suite table: committing suites are exactly the version 2 suites, use SHA-512 and carry 32 octets of suite data |
| `Cipher.FrameAadInjective` | source/cipher.c:615-644 | frames of a message that differ in kind, number or length have different associated data |
| `Cipher.FrameIvInjective` | source/cipher.c:670-693 | different sequence numbers give different IVs |
| `Cipher.FrameIvNotHeaderIv` | source/cipher.c:514-542 | no frame uses the all-zero IV of the header |
| `Cipher.DecryptsOwnBody` | source/cipher.c:646-806 | decrypting an encrypted body under the same key, kind and number gives the plaintext back |
| `Cipher.SignedHeaderVerifies` | source/cipher.c:504-613 | a header tag verifies against the octets it was computed over |
| `Cipher.DeriveKey` | source/cipher.c:319-433 | there is a key exactly when the message id and the commitment buffer have the version's lengths; without a derivation it is the data key, with one it has the suite's length; version 1 yields no commitment, version 2 one of exactly the suite's length |
| `Cipher.ContentKeyIsFirstBlock` | source/cipher.c:319-433 | a derived content key is cut from one HMAC, keyed by that of the data key, over suite and message id in version 1 and suite and label in version 2, where the id is the salt |
| `Cipher.DeriveContentKey` | source/cipher.c:319-433 | deriving into the two buffers computes content key and commitment, or fails with the specification |
| `EncryptionContext.EncodingCanonical` | source/enc_ctx.c:82-129 | the encoding depends on the map only, not on the order in which it is iterated |
| `EncryptionContext.EncodingInjective` | source/enc_ctx.c:82-188 | different contexts have different encodings |
| `EncryptionContext.ContextRoundTrip` | source/enc_ctx.c:131-188 | deserializing a serialized context gives the context and leaves the rest |
| `EncryptionContext.ContextSize` | source/enc_ctx.c:43-80 | the computed size is the length of the encoding, or an error exactly when that exceeds 16 bits |
| `EncryptionContext.SerializeContext` | source/enc_ctx.c:82-129 | the write loop appends exactly the encoding, and fails exactly when it does not fit |
| `EncryptionContext.DeserializeContext` | source/enc_ctx.c:131-188 | the read loop computes the parser, including every short and malformed input |
| `EncryptionContext.AcceptedContextSize` | source/enc_ctx.c:131-188 | what was accepted re-encodes to as many octets as were consumed |
| `EncryptionContext.CloneContext` | source/enc_ctx.c:202-257 | whatever the destination held, it ends up equal to the source |
| `MessageHeader.HeaderParseStable` | source/header.c:189-228 | more octets never change an acceptance, the consumed length or a rejection |
| `MessageHeader.HeaderPrefixIsShort` | source/header.c:189-228 | every strict prefix of an accepted header asks for more input |
| `MessageHeader.HeaderNeedsNoLookahead` | source/header.c:189-228 | an accepted header is accepted alike without the octets behind it |
| `MessageHeader.HeaderRoundTrip` | source/header.c:479-575 | parsing a written well-formed header of either version recovers it and leaves the rest |
| `MessageHeader.WrittenSize` | source/header.c:436-575 | writing emits exactly the announced number of octets, and the tag follows the authenticated part |
| `MessageHeader.SizeFitsInt` | source/header.c:436-471 | the int that is returned is the size exactly when the size fits an int |
| `MessageHeader.AcceptedHeaderSize` | source/header.c:189-228 | the size of an accepted header is the number of octets consumed |
| `MessageHeader.AcceptedKeysFit` | source/header.c:160-187 | the wrapped keys of an accepted header are as many and as long as 16 bits can say |
| `MessageHeader.ParseHeaderFields` | source/header.c:189-394 | the sequence of field parsers computes the header parser |
| `MessageHeader.ReadEdks` | source/header.c:160-187 | the loop over encrypted keys computes the list parser |
| `MessageHeader.SumHeaderSize` | source/header.c:428-471 | the saturating sum computes the returned size |
| `MessageHeader.WriteHeaderInto` | source/header.c:479-575 | the writer produces the header exactly when it fits and the context can be encoded |
| `FrameFormat.FrameRoundTrip` | source/framefmt.c:298-432 | deserializing an encoded frame of any kind gives the frame, its size and its plaintext size |
| `FrameFormat.AcceptedFrameIsEncoded` | source/framefmt.c:373-432 | an accepted frame is well formed and re-encodes to exactly the octets consumed |
| `FrameFormat.FramePrefixIsShort` | source/framefmt.c:373-432 | every strict prefix of a frame asks for more than is there |
| `FrameFormat.PrefixEstimate` | source/framefmt.c:138-222 | when the size reported for a prefix is a lower bound (if and only if), and that it is exact once the length is visible |
| `FrameFormat.FrameReadStable` | source/framefmt.c:373-432 | more octets never change an acceptance or a rejection |
| `FrameFormat.ReadFrame` | source/framefmt.c:138-222 | the field-by-field reader with its cursor computes the frame parser |
| `FrameFormat.SerializeFrame` | source/framefmt.c:298-371 | verdict, reported size, field positions and blank frame written, for all inputs and capacities |
| `FrameFormat.FilledFrame` | source/framefmt.c:298-371 | filling the three reserved fields of the blank frame yields the encoded frame |
| `SessionModel.TurnInBounds` | source/session.c:262-307 | a turn takes and writes no more than there is, and never raises the rank of the stage: the loop terminates |
| `EncryptRuns.TagFitsSecondWrite` | source/session_encrypt.c:208-255 | the two header writes agree on every authenticated octet and the tag fills the rest |
| `EncryptRuns.SealedHeaderVerifies` | source/session_encrypt.c:183-269 | the header that is sent verifies under the content key |
| `EncryptRuns.DryRunSealsNothing` | source/session_encrypt.c:34-48 | the trial run for the estimates changes nothing but the estimates |
| `EncryptRuns.SizeBelowNeverEnds` | source/session_encrypt.c:295-303 | the modular size test ends the message exactly when the real remainder is below a frame |
| `EncryptRuns.GenKeyKeeps` | source/session_encrypt.c:50-269 | generating the key establishes the invariant of an encrypted message or raises an error |
| `EncryptRuns.EncryptBodyKeeps` | source/session_encrypt.c:287-398 | every body step keeps it: frames numbered, sealed under their own IV and data, sizes adding up |
| `EncryptRuns.WriteTrailerKeeps` | source/session_encrypt.c:400-448 | the trailer step keeps it: the signature covers exactly header and frames |
| `DecryptRuns.ParseHeaderKeeps` | source/session_decrypt.c:188-229 | header parsing and unwrapping establish the invariant of a decrypted message |
| `DecryptRuns.DecryptBodyKeeps` | source/session_decrypt.c:231-305 | every body step keeps it, including a rollback for lack of room |
| `DecryptRuns.CheckTrailerKeeps` | source/session_decrypt.c:307-345 | the trailer step keeps it |
| `SessionRuns.RunKeeps` | source/session.c:29-329 | every sequence of process calls, settings and resets keeps the invariant |
| `SessionRuns.FinishedEncryption` | source/session_encrypt.c:287-448 | in every run that is done: the header is the sealed one for the materials the manager gave to this very request under an allowed suite, frames 1..k sealed, plaintext their concatenation, signature over header and frames |
| `SameOctets.SameInputsSameOctets` | source/session_encrypt.c:50-448 | two runs that are done with the same primitives, materials, message id, frame size and plaintext have written the same octets, whatever the cuts and whenever the size was declared |
| `SameOctets.SameCutting` | source/session_encrypt.c:295-395 | frame size and plaintext settle number, kinds and contents of the frames |
| `SessionRuns.FinishedDecryption` | source/session_decrypt.c:67-345 | in every run that is done: header verified with matching commitment under the policy in force, frames 1..k opened in order, only the last one ending, signature verified over exactly header and frames |
| `SessionRuns.FramingConservation` | source/session_encrypt.c:295-395 | n octets give n / f + 1 frames with sizes fixed by n and f alone, whenever the size was declared |
| `SessionRuns.IvsNeverRepeat` | source/cipher.c:514-693 | over any run, with failed attempts and trial runs, the message it has come to uses no IV twice |
| `KeyReuse.NoRepeatWithinMessage` | source/cipher.c:514-693 | the same for every message of a run, those before a reset included |
| `KeyReuse.RepeatsExactlyWhenKeysRecur` | source/cipher.c:514-693 | over all messages of a run a key and IV pair is used twice if and only if two of them have the same content key |
| `KeyReuse.SourcesDecide` | source/cipher.c:319-433 | content keys agree if and only if, without a derivation, the data keys do and, with one, suite, data key and message id do, or HMAC calls made for the two collide |
| `KeyReuse.RepeatsExactlyWhenSourcesRecur` | source/session_encrypt.c:50-150 | hence a pair is used twice in a run if and only if what the manager and the random source gave for a message recurs in this sense, collisions of HMAC included |
| `KeyReuse.OneKeyTwoMessages` | source/cipher.c:338-342 | for every suite without a derivation a run of two messages with different ids that uses one pair twice |
| `KeyReuse.SameMaterials` | source/caching_cmm.c:488-581 | two messages that got the same cached answer share the pair of every frame number without a derivation, and with one only if their ids are the same or HMAC collides |
| `KeyReuse.ServesTwice` | source/caching_cmm.c:61-66 | with the code's own test, materials of any known suite are handed out to the next request for the same context that comes in time |
| `KeyReuse.OneSerialOneKey` | source/caching_cmm.c:488-581 | whatever the ledger books under one serial is the same data key |
| `SessionRuns.OutputIsEmitted` | source/session.c:244-329 | a call that succeeds has taken a prefix of its input and returned exactly what was produced |
| `SessionRuns.TooSmallSizeIsAccepted` | source/session.c:163-185 | while the body is being written, a size below what was encrypted is accepted if and only if none was declared before and it is within the bound |
| `SessionRuns.OvershotNeverFinishes` | source/session_encrypt.c:295-303 | after that no use of the session short of a reset finishes the message |
| `Reading.ReadHeaderFollows` | source/session_decrypt.c:125-229 | a session offered any part of a stream that starts with a readable message reads its header or asks for more |
| `Reading.ReadBodyFollows` | source/session_decrypt.c:231-305 | it opens the frames one by one, whatever the cuts and the room |
| `Reading.ReadTrailerFollows` | source/session_decrypt.c:307-345 | it verifies the signature, whatever comes behind |
| `Reading.EveryCutReads` | source/session.c:244-329 | however the stream is cut the reading never fails, has always produced a prefix of the plaintext, and at its end has taken exactly the message |
| `Progress.FairCallAdvances` | source/session.c:380-386 | a call with the estimated input and room takes octets, changes the stage or moves an estimate towards the truth |
| `Progress.DecryptionEnds` | source/session_decrypt.c:188-345 | any driver that respects the estimates finishes a decryption in finitely many calls, with the plaintext |
| `RoundTrip.SentMessageReads` | source/session_encrypt.c:50-448 | what a finished encryption wrote, if its wrapped keys fit the 16-bit fields of the header, is readable for a receiver with the key, and what is read is what was taken |
| `RoundTrip.KeysArriveExactly` | source/header.c:513-540 | the wrapped keys of a finished message arrive if and only if number and lengths fit 16 bits and the receiver's limit admits them |
| `RoundTrip.StreamingRoundTrip` | source/session.c:244-329 | for every encrypted message whose wrapped keys fit the header, every way of cutting it and whatever follows it, decryption never fails, has always produced a prefix of the plaintext, and at its end exactly the plaintext |
| `RoundTrip.EveryMessageComesBack` | source/session.c:29-386 | any run that completes a message whose wrapped keys fit the header, any compatible receiver, any respectful cutting: after finitely many calls the receiver holds exactly the plaintext |
| `Cuts.AcceptanceIgnoresCuts` | source/session.c:244-329 | if any run accepts a beginning of arbitrary octets, then however they are cut a session with its settings never fails and ends at the same octet with the same plaintext |
| `Cuts.FairCutsAccept` | source/session.c:244-386 | and every driver that respects the estimates gets there in finitely many calls |
| `Cuts.OneStreamOnePlaintext` | source/session_decrypt.c:67-345 | two runs that accept beginnings of the same octets, under any settings and cuts, accept the same octets and produce the same plaintext |
| `EncryptProgress.EncryptionEnds` | source/session_encrypt.c:271-448 | finitely many such calls end an encryption, raise an error or, with the size undeclared, leave less than a frame to go |
| `EncryptProgress.EncryptionFinishes` | source/session_encrypt.c:50-448 | if sealing does not fail on single frames of this message, nor signing on as many octets as it can write, and the message is within the limits, it ends without error, having taken the plaintext |
| `EncryptProgress.UndeclaredFinishes` | source/session.c:163-185 | with the same primitives a framed message may be fed first and its size declared last: below 2^32 - 2 full frames, of whatever size, it ends without error, having taken the plaintext |
| `EncryptProgress.DeclaringLastFails` | source/session_encrypt.c:287-330 | from that many frames on a message whose size is undeclared fails before it ever waits for the declaration |
| `EncryptProgress.OrderDecidesAtTheLimit` | source/session_encrypt.c:287-330 | with exactly that many full frames of any size, declaring last fails and, with primitives that do not fail on single frames, declaring first succeeds |
| `EncryptProgress.DeclaredSizeDecides` | source/session.c:163-185 | a framed message can still be finished, with primitives that do not fail on its frames, if and only if its size is not below what was encrypted |
| `SmallWorld.GoesOutAndComesBack` | source/session.c:29-386 | the assumptions of these statements can be met together: under every suite, with primitives that refuse keys and IVs of the wrong length and plaintexts above the limit of AES-GCM, every plaintext goes out and comes back, framed or not |
| `SmallWorld.OrderDecidesHere` | source/session_encrypt.c:287-330 | so can those about the limit on frames, under every suite and frame size |
| `SmallWorld.KeysAreLost` | source/header.c:513-540 | under every suite a run completes a message with more wrapped keys than the header counts, and no receiver finds them in it |
| `SizeBound.BoundIsNotConsulted` | source/session_encrypt.c:271-448 | once the key is there a whole call takes, produces and raises the same whatever the bound is |
| `SizeBound.TooSmallSizeIsReachable` | source/session.c:163-185 | under every suite and frame size a run encrypts two frames, then declares one octet, and goes on |
| `SizeBound.BoundIsExceeded` | source/session.c:187-201 | under every suite and frame size a run writes more than its bound and goes on |
| `SizeBound.FinishedWithinBound` | source/session.c:163-201 | in every run a finished message is no longer than the bound |
| `FrameSizes.FrameSizeInForce` | source/session_decrypt.c:176-177 | after any run the frame size is that of the last header accepted since the last accepted choice, or else the one chosen |
| `FrameSizes.RestartFindsChoice` | source/session.c:29-69 | reset for encryption, a session has the size chosen last if and only if no header was accepted since or the last one says the same |
| `FrameSizes.AcceptedIsUnlocked` | source/session_decrypt.c:125-186 | after any run, failed or not, an accepted header is one whose keys were unwrapped and whose tag was verified |
| `FrameSizes.ReadingLosesChoice` | source/session_decrypt.c:176-177 | for any readable message a run that chooses a size once, reads the message and is left with its frame length |
| `PolicyChecks.PolicyInForce` | source/session.c:203-225 | the policy in force is the one set last, valid or not |
| `PolicyChecks.PolicyAssertExact` | source/session.c:576-599 | after any run a call comes to a failing policy assertion if and only if the policy set last is invalid, a header is awaited, and the call completes one whose key is unwrapped |
| `PolicyChecks.PolicyAssertFails` | source/session.c:588-599 | every message that could be decrypted gets there, once an invalid policy is set after the start |
| `SessionObject.CryptoSession.ChangeState` | source/session.c:388-538 | the code's sanity checks as a precondition, met at every call, so that no call aborts |
| `SessionObject.CryptoSession.Fail` | source/session.c:540-547 | the first error sticks |
| `SessionObject.CryptoSession.Reset` | source/session.c:29-69 | everything is cleared but policy, key limit, manager and the frame size last chosen or read |
| `SessionObject.CryptoSession.SetFrameSize` | source/session.c:153-161 | accepted only for an encryption that has not started |
| `SessionObject.CryptoSession.SetMessageSize` | source/session.c:163-185 | accepted once, within the bound, refreshing the estimates |
| `SessionObject.CryptoSession.SetMessageBound` | source/session.c:187-201 | the smallest bound wins unless a declared size exceeds it |
| `SessionObject.CryptoSession.SetPolicy` | source/session.c:203-225 | the policy is stored first; a message under way fails |
| `SessionObject.CryptoSession.SetMaxEdks` | source/session.c:227-242 | accepted only before a message starts and only if not zero |
| `SessionObject.CryptoSession.SetContext` | source/session.c:563-568 | the context can be written only before an encryption starts |
| `SessionObject.SealHeaderInto` | source/session_encrypt.c:183-255 | size, write, sign and write again computes the sealed header or its error |
| `SessionObject.CryptoSession.TryGenKey` | source/session_encrypt.c:50-150 | does to the object exactly what the model says, with the same errors in the same order and the same state left behind |
| `SessionObject.CryptoSession.PrepareHeader` | source/session_encrypt.c:104-181 | message id, derivation and header fields agree with the model, also where a step fails |
| `SessionObject.CryptoSession.FinishHeader` | source/session_encrypt.c:152-269 | the sealed header and the first signature update agree with the model |
| `SessionObject.CryptoSession.TryWriteHeader` | source/session_encrypt.c:271-285 | the header goes out whole or not at all |
| `SessionObject.CryptoSession.TryEncryptBody` | source/session_encrypt.c:287-398 | same frame, estimates, octets and error as the model, for every input and room |
| `SessionObject.CryptoSession.EncryptFrame` | source/session_encrypt.c:357-398 | filling the laid-out frame in place produces the sealed frame and the new state |
| `SessionObject.CryptoSession.TryWriteTrailer` | source/session_encrypt.c:400-448 | agrees with the model |
| `SessionObject.CryptoSession.TryParseHeader` | source/session_decrypt.c:188-229 | agrees with the model, including the growth of the estimate |
| `SessionObject.CryptoSession.UnwrapKeys` | source/session_decrypt.c:67-186 | agrees with the model, with the same errors in the same order |
| `SessionObject.CryptoSession.TryDecryptBody` | source/session_decrypt.c:231-305 | agrees with the model |
| `SessionObject.CryptoSession.TryCheckTrailer` | source/session_decrypt.c:307-345 | agrees with the model |
| `SessionObject.CryptoSession.Turn` | source/session.c:273-299 | one round of the switch agrees with the model |
| `SessionObject.CryptoSession.Process` | source/session.c:244-329 | the loop terminates and equals the recursive call in state, octets and verdict; an error leaves no output and a failed session |
| `SessionObject.CryptoSession.ProcessFull` | source/session.c:331-364 | succeeds exactly when one call finishes the message and uses all input, and otherwise leaves no output and the state of the call, failed |
| `SessionReplay.Replay` | source/session.c:29-386 | any sequence of calls, settings and resets takes the object through exactly the run of the model |
| `RecencyList.SweepStep` | source/local_cache.c:268-273 | dropping the top of the heap leaves a sweep of the rest with one less to go |
| `RecencyList.SweepStops` | source/local_cache.c:268-275 | with nothing due or the batch used up nothing more is dropped |
| `LocalCache.LocalCache.constructor` | source/local_cache.c:918-957 | an empty cache of capacity at least two |
| `LocalCache.LocalCache.InvalidateEntry` | source/local_cache.c:222-251 | the entry leaves all three structures and is freed exactly when no caller holds it |
| `LocalCache.LocalCache.ReleaseLocked` | source/local_cache.c:327-375 | one reference less; the last one frees, and frees only what is already out of the cache |
| `LocalCache.DropKeeps` | source/local_cache.c:222-251 | dropping any entry keeps table, list, heap and counts in agreement |
| `LocalCache.DroppedKeepsExpiry` | source/local_cache.c:222-251 | an entry dropped while it is held is out of table, list and heap, and its expiry is unset if and only if it was never set |
| `LocalCache.LocalCache.ProcessTtls` | source/local_cache.c:258-276 | drops exactly the eight due entries that expire first, by time and then address, and no other |
| `LocalCache.LocalCache.FindEntry` | source/local_cache.c:278-293 | sweeps, finds exactly the entry of that identifier, moves it to the front and hands out a reference |
| `LocalCache.LocalCache.EvictExcess` | source/local_cache.c:315-322 | evicts from the back until the capacity is respected, never the new entry |
| `LocalCache.LocalCache.PutEntry` | source/local_cache.c:295-407 | sweeps, replaces an equal identifier, puts the entry in front, evicts from the back, hands out a reference |
| `LocalCache.LocalCache.SetExpirationHint` | source/local_cache.c:767-816 | only brings an expiry forward, only of an entry in the cache, and keeps the heap in step |
| `LocalCache.LocalCache.ReleaseEntry` | source/local_cache.c:818-866 | gives a reference back; the entry stays allocated exactly while it is cached or held, with its expiry |
| `LocalCache.LocalCache.UpdateUsageStats` | source/local_cache.c:540-557 | adds in 64-bit arithmetic, only for live entries for encryption |
| `LocalCache.LocalCache.ClearCache` | source/local_cache.c:868-892 | empties the cache; what callers hold stays allocated |
| `LocalCache.LocalCache.EntryCount` | source/local_cache.c:494-509 | the size of the table is the length of the list, within the capacity |
| `CacheRuns.Replay` | source/local_cache.c:222-892 | any sequence of finds, puts, hints, releases and clears leaves exactly the reference list and references |
| `CacheRuns.AllocatedWhenReferenced` | source/local_cache.c:36-41 | an entry is allocated if and only if the cache lists it or a caller holds it |
| `CacheRuns.InvalidatedKeepsExpiry` | source/local_cache.c:222-251 | on any cache an entry that gets an expiry and is invalidated while held elsewhere is out of the cache with that expiry |
| `CacheIds.EncIdsDecide` | source/caching_cmm.c:251-323 | identifiers for encryption agree if and only if partition, requested suite and context do |
| `CacheIds.DecIdsDecide` | source/caching_cmm.c:335-475 | identifiers for decryption agree if and only if partition, suite, context and the bag of encrypted keys do |
| `CacheIds.DirectionsApart` | source/caching_cmm.c:251-475 | no identifier serves both directions |
| `CacheIds.HashEncRequest` | source/caching_cmm.c:251-323 | computes the identifier, or fails exactly for contexts that cannot be encoded |
| `CacheIds.HashDecRequest` | source/caching_cmm.c:372-475 | the loops over hashes compute the identifier, or fail exactly for oversized fields or contexts |
| `CachingCmm.TtlNanos` | source/caching_cmm.c:140-146 | saturates, and is zero exactly for invalid arguments |
| `CachingCmm.TtlNanosExact` | source/caching_cmm.c:140-146 | otherwise it is the exact number of nanoseconds, or the largest value where that exceeds 64 bits |
| `CachingCmm.Manager.SetLimitBytes` | source/caching_cmm.c:108-120 | rejects limits above the signed 64-bit maximum |
| `CachingCmm.Manager.SetLimitMessages` | source/caching_cmm.c:122-134 | rejects zero and more than 2^32 |
| `CachingCmm.Manager.SetTtl` | source/caching_cmm.c:148-160 | rejects invalid times to live |
| `CachingCmm.Manager.CheckTtl` | source/caching_cmm.c:223-248 | usable exactly before creation plus time to live, an overflow meaning never expires; the expiry of a usable entry is brought forward to that time and nothing else changes |
| `CachingCmm.Manager.SetTtlOnMiss` | source/caching_cmm.c:477-486 | the new entry expires at creation plus time to live, unless that never comes, and nothing else changes |
| `CachingCmm.Manager.CountUse` | source/caching_cmm.c:527-555 | a use within the limits is entered in the ledger; a use over them takes the entry out |
| `CachingCmm.Manager.GenerateEncMaterials` | source/caching_cmm.c:488-581 | a hit exactly when the lookup finds an entry that is fresh and within the limits, repeating materials first handed out for the same identifier; a miss is upstream's answer and goes to the front; the ledger is kept |
| `CachingCmm.Manager.DecryptMaterials` | source/caching_cmm.c:583-647 | a hit exactly when the lookup finds a fresh answer, one upstream gave for the same identifier; a miss is upstream's answer |
| `CachingCmm.LimitsExtended` | source/caching_cmm.c:527-538 | one more use within the limits keeps the whole ledger within them |
| `CachingCmm.KeyUseBounded` | source/caching_cmm.c:488-581 | over every run each cached key, its first use included, is used at most as often and for as many octets as the limits allow |
| `CmmRuns.Replay` | source/caching_cmm.c:488-647 | any sequence of requests and settings at any number of managers over one cache: in the answers no cached key occurs more often, or for more octets, than the largest limit in force, and always with the same materials |
| `CachingCmm.HitIsTheSameRequest` | source/caching_cmm.c:488-581 | a hit answers the same partition, suite and context, unless the digest collides on the strings hashed |
| `CachingCmm.AnswerIsToTheSameRequest` | source/caching_cmm.c:583-647 | a hit for decryption answers the same partition, suite, context and bag of encrypted keys, unless the digest collides |
| `Keyrings.EncryptFlattens` | source/multi_keyring.c:20-90 | a nested tree that succeeds has called its leaves in order on one key and appended what they contributed |
| `Keyrings.TreeWrapsOneKey` | source/multi_keyring.c:39-90 | everything appended wraps one data key, of the suite's length if it was generated, and every leaf has its part in it |
| `Keyrings.FailureLeavesNoTrace` | source/multi_keyring.c:39-90 | a multi-keyring that fails leaves the caller's encrypted keys and trace unchanged, whatever its leaves do |
| `Keyrings.DecryptFlattens` | source/multi_keyring.c:92-127 | the key is that of the first leaf that finds one; success if and only if its length is right or, without a key, no leaf failed |
| `Keyrings.SharedLeafRecovers` | source/multi_keyring.c:20-127 | any keyring, leaf or tree, that shares a leaf recovers the data key although other leaves report errors; a tree then succeeds, a leaf if it says so |
| `Keyrings.KeyringOnEncrypt` | source/materials.c:88-136 | the contract wrapper computes its specification over any tree; of a key that was there it compares place and length of the buffer, not the octets |
| `Keyrings.KeyringOnDecrypt` | source/materials.c:138-168 | the same for decryption, with a key of the wrong length reported but kept |
| `Keyrings.MultiOnEncrypt` | source/multi_keyring.c:39-90 | the loop over children with lists of its own computes the specification |
| `Keyrings.MultiOnDecrypt` | source/multi_keyring.c:92-127 | the loop that stops at the first key computes the specification |
| `Keyrings.TransferList` | source/list_utils.c:17-37 | the destination gains all elements in order and the source is empty |
| `Keyrings.ListCopyAll` | source/list_utils.c:43-106 | all clones are appended, or the list is restored and exactly the clones made are cleaned up |
| `RawAesKeyring.ProviderInfoExact` | source/raw_aes_keyring.c:45-88 | parsing accepts exactly what serializing produces for the key name, and returns its IV |
| `RawAesKeyring.OnEncrypt` | source/raw_aes_keyring.c:144-183 | generates a key if there is none, wraps it, and drops a generated key when wrapping fails |
| `RawAesKeyring.OnDecrypt` | source/raw_aes_keyring.c:185-258 | the search loop returns the first encrypted key that unwraps, passing over all others |
| `RawAesKeyring.SearchFinds` | source/raw_aes_keyring.c:205-253 | a key is found if and only if some encrypted key unwraps, and is what that one yields |
| `RawAesKeyring.OwnKeyUnwraps` | source/raw_aes_keyring.c:90-258 | a keyring unwraps what it wrapped if and only if its namespace is not empty and the data key has the suite's length |
| `RawAesKeyring.RawAesIsLawful` | source/raw_aes_keyring.c:144-258 | with a namespace it meets every law the trees ask of a leaf |

## Left out

- OpenSSL itself: AES-GCM, HMAC, SHA and ECDSA are function values; failures while a signature is being fed, and the re-encoding of signatures, are not modelled.
- The variant of HKDF that calls a newer OpenSSL (`source/hkdf.c:110`).
- KMS keyrings, the raw RSA keyring, the default materials manager and the handling of ARNs.
- Mutexes, memory ordering and interleavings: each cache operation and each request to a manager is one step.
- Allocation failure, except where undoing it is the point, and the wiping of freed memory.
- Buffers with spare capacity and 32-bit `size_t`: sizes are 64-bit wherever the code computes with them.
- Constant-time comparison: only the result of comparing commitments is modelled.
- SessionObject.CryptoSession.FinishHeader: after an error the copy of the header is as it was before, where the code leaves an allocated buffer that nothing reads until a reset frees it.
- SessionObject.CryptoSession: the C structure is one record that the methods replace field by field, not separate heap locations; the caller's buffers are values, not memory that is overwritten.
- LocalCache.LocalCache: entries are records in a store keyed by address rather than linked C structures, and the heap is a set with its order; the layout of the containers of aws-c-common is not modelled.
- CachingCmm.Manager.GenerateEncMaterials: copying materials out of an entry never fails, since only allocation or OpenSSL could make it.
- RawAesKeyring.OnEncrypt: the suite must be known, since the code dereferences its properties unchecked.
- RawAesKeyring.OnDecrypt: requires a known suite for the same reason.
- The keyring trace of a session, and the naming of cache partitions by digest or random octets.
