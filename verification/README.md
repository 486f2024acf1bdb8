# Verified model of the object-storage proxy

This project models the parts of the proxy that hold state, parse, sign or run concurrently, and proves
what they guarantee. HMAC-SHA256 and SHA-256 are arbitrary functions to 32 bytes, so every result holds
whatever they compute; where a result needs them not to collide, it says on which two inputs.

* **Streaming uploads** (`ChunkFrame`, `Frames`, `Streaming`, `Transcoding`, `Fragmentation`, `Backend`, `StreamingHead`).
  The body filter buffers the client's aws-chunked bytes, strips the framing and re-frames every chunk in a
  chain of signatures. Its output is characterised for every way of cutting the client's bytes into calls,
  and decoded by a backend written from AWS Signature Version 4, "Transferring payload in multiple chunks",
  section "Defining the Chunk Body". The head of the upload, its seed signature and its body are then put
  together.
* **The authorization cache** (`Lru`, `AuthCache`, `AuthProtocol`, `AuthSolo`, `Poisoning`). The object with its
  operations, and a transition system with any number of callers interleaving at each access to the map, the clock,
  the lock and the validator, including failing validators, dropped futures and a poisoned lock; the object's call is
  the run of one undisturbed caller.
* **Signing and verifying** (`Query`, `Sorting`, `ByteOrder`, `Headers`, `SigningKey`, `Memo`, `Signer`, `Coverage`,
  `Authorization`, `ClientHeader`, `Verifier`, `Agreement`, `TamperEvidence`). The fused `sign` against the one-purpose
  functions, the canonical query, the key cache, the Authorization header as printed and as parsed, and the
  two ends together: what one signs the other accepts, and what it accepts is what was signed.
* **Signing and verifying against the standard** (`Standard`, `QueryOrder`, `Service`, `Authentic`, `Regularity`).
  `Standard` states AWS Signature Version 4 without reference to the proxy. The verifier computes its verdict,
  what the signer sends is authentic under it, and the requests on which the two differ are told exactly.
* **The presigned-URL gate** (`PresignGate`) and **the shared configuration** (`ConfigStore`), for all
  interleavings of requests.
* **Paths and targets** (`PathSplit`, `Upstream`, `QueryDict`). The split of a path into bucket and key, the
  rewritten authority, path, query and headers, and the query dictionary.

`Text`, `Hex` and `Crypto` hold what the rest stands on: UTF-8 with its round trip, the string operations of
the Rust standard library, hexadecimal printing and parsing in a 64-bit word, and the clock formats.

Where the code keeps state in fields, the model is a class (`StreamingState`, `Context`, `SigningKeyCache`,
`AuthCache`, `RequestHeader`, `UrlTracker`, `CosMapItem`, `Store`, `UpstreamRequest`); every method equates the
new state with a function of the old one, and the theorems are about those functions. Parsing a URL, reading
a timestamp and lossy UTF-8 decoding are parameters with the properties they need stated where they are used.

## What turned out not to hold

Each of these comes with the exact condition under which the promise does hold, proved in both directions.

* `parse_path` finds the slash by searching for the *first* occurrence of the text behind it. For `/ab/b` it
  returns `ab/b`, and on `/b//` it panics. The split is right if and only if that text occurs nowhere earlier
  (`PathSplit.SplitExactly`).
* The addressing style is compared with "path" when the host is built and with "virtual" when the path is
  built; every other value names the bucket twice (`Upstream.RewriteKeepsObject`).
* DEVELOP.md says streaming uploads are handled transparently. The output is independent of how the connection
  cuts the client's bytes if and only if either no announced length overflows the machine word and no data
  follows the first zero-length chunk, or a length overflows before any chunk is complete
  (`Fragmentation.FragmentationExact`); `Backend.LateDataDependsOnTheCut` and
  `Fragmentation.OverflowDependsOnTheCut` are bodies outside it. An end of stream without a body sends no terminal
  chunk (`Backend.EndWithoutBodyIsRejected`), and the re-signed head is accepted if and only if its content hash
  header is the plain streaming marker, not a trailer variant, short of a hash collision
  (`StreamingHead.ResignedAcceptedExactly`).
* A comment names a ttl of `u64::MAX` as the way to opt out of expiry. It overflows the clock; one such request
  poisons the map, after which no later call gets an answer (`Poisoning.LargestTtlPoisons`,
  `Poisoning.UnrepresentableExpiryPoisons`). Callers are safe from this if and only if their latest time plus
  their largest ttl is representable (`Poisoning.NeverPoisonedExactly`).
* `canonical_request` is documented to follow AWS Signature Version 4. It does if and only if every signed header
  has a single value without sequential blanks, because only the last value of a header is signed and blanks are
  not folded, and no encoded parameter name continues another with a character below `=`, because whole
  `name=value` fields are sorted (`Regularity.CanonicalExactly`, `Service.ValueMeetsStandard`,
  `QueryOrder.QueryMeetsStandard`). For `a=1&a-b=2` the order is not the standard's (`QueryOrder.DashComesFirst`).
  Requests that meet the condition are called regular below.
* The signing-key cache is addressed by fields joined with colons. It is transparent for a family of inputs if
  and only if that text is injective on it (`SigningKey.TransparentIffInjective`).
* An access key such as `a/b` does not survive in the Authorization header. Headers read back for every list of
  names and every signature if and only if the access key and the region have no slash and contain neither field
  mark (`Authorization.ReadsBackExactly`).
* Simultaneous uses of one presigned URL can lock each other out completely
  (`PresignGate.SimultaneousUsesMayAllFail`): every interleaving lets exactly min(n, limit) through if and only if
  n is within the limit or the limit is zero, and n fits the machine word (`PresignGate.LimitMetExactly`). The
  limit itself is kept if and only if n fits the word (`PresignGate.LimitKeptExactly`).
* A later write-back can replace a stored HMAC pair by an API key (`ConfigStore.KindOfCredentialCanChange`). Pairs
  stay in every run if and only if the bucket was configured with some credential
  (`ConfigStore.PairsStayExactly`).
* The documentation of `parse_query` says that an empty input yields an empty map; it yields one entry
  (`QueryDict.EmptyQueryHasOneEntry`). The map is empty if and only if the first field cannot be decoded
  (`QueryDict.EmptyDictionaryExactly`).

Beside these, the documentation of `resign_streaming_request` says that it updates the content hash header and
returns the seed; it does neither, and the model follows the code. Sums that overflow a machine word wrap, as in
the release build.

## Model

| member | source | states |
|---|---|---|
| Hex.ParsePrint | src/credentials/signer.rs:1352-1362 | A length printed in hex reads back as itself, trimmed or not, exactly when it fits the machine word |
| ChunkFrame.BuildChunkFrame | src/credentials/signer.rs:1358-1366 | The buffer filled piece by piece is the frame: hex length, signature field, line end, payload, line end |
| ChunkFrame.ParseHeaderStable | src/credentials/signer.rs:1347-1355 | An answer of the header parser never changes when bytes are appended |
| ChunkFrame.FrameRoundTrip | src/credentials/signer.rs:1347-1366 | For every payload below the word size, line-break-free signature and tail, parsing a printed frame gives its header length and its payload length |
| ChunkFrame.WrappedSlicePanics | src/lib.rs:1393-1398 | Once header length, payload length and two exceed the word, the slice bounds are out of order or out of range: the unchecked sum ends in a panic |
| ChunkFrame.ChunkParserReads | src/lib.rs:1389-1400 | The frame parser of the loop is stable under appended bytes, depends only on its own frame, and takes every well-formed client chunk, with any extension, off the front of any stream |
| Frames.AllFramesAppend | src/lib.rs:1387-1400 | Parsing more bytes gives the frames already complete, then the frames of the leftover with the new bytes |
| Frames.DrainIsMaximal | src/lib.rs:1389-1411 | After the loop nothing complete is left in the buffer unless a zero-length chunk was just consumed, which can only be the last one consumed |
| Frames.DrainedIsUpToZero | src/lib.rs:1389-1411 | One call consumes exactly the frames up to and including the first zero-length one |
| Streaming.StreamingState.constructor | src/credentials/signer.rs:1246-1263 | The state starts with the key the process-wide cache hands out for date, region and service, the seed, and an empty buffer; the cache changes by that one request |
| Streaming.StreamingState.SignChunk | src/credentials/signer.rs:1266-1276 | The frame is the next link of the chain and its signature becomes the prior signature |
| Streaming.StreamingState.FinalChunk | src/credentials/signer.rs:1279-1288 | The terminal frame is signed over the prior signature, which stays |
| Streaming.DrainBuffer | src/lib.rs:1389-1411 | The loop terminates with the undrained rest in the buffer, the chain over all drained data as output and its last signature as state |
| Streaming.SignBuffer | src/lib.rs:1386-1419 | One call's work on its buffer, with the terminal chunk at the end of the stream, equals the call as a function |
| Streaming.RequestBodyFilter | src/lib.rs:1344-1424 | Output and next state of every call equal the filter as a function: pass-through without state, early returns, panic on overflow, state cleared at the end of the stream |
| Transcoding.RunConserves | src/lib.rs:1387-1411 | In every state of every run over bytes without an overflowing length, frames consumed and frames still buffered are together the frames of all bytes received, and the buffer is a back part of those bytes |
| Transcoding.RunSigns | src/lib.rs:1386-1422 | Where no announced length overflows, after any calls the output is the signed chain over the data consumed so far and the state is its last signature with the remaining bytes |
| Transcoding.ConsumedIsFront | src/lib.rs:1389-1411 | However a stream without an overflowing length is cut, the frames consumed are a front part of all its frames that stops early only behind a zero-length one |
| Transcoding.CutDoesNotMatter | src/lib.rs:1386-1423 | With no overflowing length and no data behind the first zero-length frame, every cut gives the chain over all data and one terminal frame |
| Fragmentation.FragmentationExact | src/lib.rs:1386-1423 | For every byte stream: all cuts give the same output if and only if, where no announced length overflows, no data follows the first zero-length frame, and where one does, no frame is complete before it |
| Fragmentation.OverflowDependsOnTheCut | src/lib.rs:1389-1400 | For a body with one complete chunk before an overflowing length, and no zero-length chunk, the output depends on how it was cut |
| Transcoding.EndWithoutBody | src/lib.rs:1374-1376 | An end of stream without a body leaves the state in place and no terminal chunk in the output |
| Backend.SignaturesAgree | src/credentials/signer.rs:1308-1332 | The chunk signature equals the one the standard defines line by line from the account's own key, time and scope |
| Backend.DecodeEncoded | src/credentials/signer.rs:1266-1332 | A backend that verifies each chunk against the one before it accepts the proxy's encoding of any payloads and reads exactly them |
| Backend.DecodeUnterminated | src/lib.rs:1413-1419 | The same chain without a terminal chunk is rejected |
| Backend.EveryCutEncodes | src/lib.rs:1344-1424 | For every well-formed client body and every cut into calls the output is the signed chain over the client's payloads and one terminal frame |
| Backend.TranscodingPreservesMeaning | src/lib.rs:1344-1424 | For every client body and every cut the backend accepts every chunk and recovers the client's payload list |
| Backend.LateDataDependsOnTheCut | src/lib.rs:1402-1406 | For a body with data behind the zero-length chunk the output depends on how it was cut |
| Backend.EndWithoutBodyIsRejected | src/lib.rs:1374-1376 | When the end of the stream carries no body the backend rejects what was sent |
| AuthCache.AuthCache.constructor | src/utils/validator.rs:54-61 | The cache starts empty and valid, with the default capacity for zero |
| AuthCache.AuthCache.PutEntry | src/utils/validator.rs:107-116 | A stored key becomes the most recent; the least recent one leaves a full map; validity is kept |
| AuthCache.AuthCache.Insert | src/utils/validator.rs:122-129 | A pre-populated decision is stored with its expiry, unless the expiry is not representable |
| AuthCache.AuthCache.Invalidate | src/utils/validator.rs:132-135 | Exactly the one key leaves the map |
| AuthCache.AuthCache.GetOrValidate | src/utils/validator.rs:63-119 | Undisturbed, the validator is called exactly when neither peek finds a fresh entry; reads change nothing, a verdict is stored with its expiry, an error stores nothing |
| AuthSolo.UndisturbedIsRun | src/utils/validator.rs:63-119 | From every state in which the key's lock is free, the undisturbed call of the object is a run of one caller of the transition system, with the same reply and the same map at its end |
| AuthCache.VerdictLifetime | src/lib.rs:895-898 | A stored verdict counts for exactly the configured seconds from its storing, or 300 where none are configured, as long as the clock can represent that |
| AuthCache.LargestTtlPanics | src/lib.rs:895-898 | With the largest configurable ttl the expiry is never representable |
| Lru.StoredOthersMeans | src/utils/validator.rs:107-129 | The set that the eviction results count holds exactly the other keys stored since a point of the history |
| Lru.GoneMeansCrowdedOut | src/utils/validator.rs:107-135 | A stored key that was not dropped holds its latest entry, or at least as many distinct other keys as the capacity were stored after it |
| Lru.ContentsAreMostRecent | src/utils/validator.rs:107-129 | Without drops a key is present exactly when fewer than the capacity of other keys were stored after it, with its latest entry |
| AuthProtocol.NextKeeps | src/utils/validator.rs:63-136 | Every step of every caller keeps the invariant: lock ownership, the map as the replay of its history, justified answers, separated validator runs |
| AuthProtocol.SingleFlight | src/utils/validator.rs:86-118 | In every reachable state at most one caller of a key is between acquiring and releasing its lock |
| AuthProtocol.NoStampede | src/utils/validator.rs:95-118 | A validator run for a key after a stored verdict means that some event of the key from that store on had ended by then: a drop, a store that had expired, or one after which at least the capacity of other keys were stored |
| AuthProtocol.NoStampedeUntouched | src/utils/validator.rs:95-118 | With the key neither stored nor dropped in between, the verdict itself had expired or at least the capacity of other keys were stored since |
| AuthProtocol.AnswersAreJustified | src/utils/validator.rs:63-119 | Every decision returned is the caller's own verdict, or one stored for the same key no later than it was read, and read before its expiry and before that store's time plus ttl |
| AuthProtocol.MapIsBounded | src/utils/validator.rs:54-61 | In every reachable state the map holds at most the capacity of entries |
| AuthProtocol.MapHoldsMostRecent | src/utils/validator.rs:74-129 | In runs without invalidation the map holds exactly the most recently stored keys, each with its latest entry |
| AuthProtocol.CacheIsTransparent | src/utils/validator.rs:63-129 | With validators that answer by a function of the key, every decision ever returned is that function's |
| Poisoning.PoisonedCacheAnswersNobody | src/utils/validator.rs:107-116 | After a panic under the write lock the map never changes and every call that starts later fails |
| Poisoning.UnrepresentableExpiryPoisons | src/utils/validator.rs:86-116 | From an empty cache, one request whose expiry is not representable ends with the map poisoned, and every later call fails |
| Poisoning.LargestTtlPoisons | src/lib.rs:895-908 | With the largest configurable ttl one request from an empty cache ends with the map poisoned |
| Poisoning.NeverPoisonedExactly | src/utils/validator.rs:107-116 | With clock and ttls bounded, no run poisons the map if and only if the largest expiry that can come up is representable |
| Hex.EncodeDigits | src/credentials/signer.rs:378-390 | Every byte of a digest is printed in its place as two lower-case digits, the high one first |
| SigningKey.DeriveKey | src/credentials/signer.rs:480-494 | The four keyed hashes computed one after the other are the derivation of the key |
| SigningKey.DeriveIsStandard | src/credentials/signer.rs:459-494 | The derivation starts from `AWS4` and the secret and keys date, region, service and `aws4_request` in turn, as the standard lists them |
| SigningKey.SigningKeyCache.SigningKey | src/credentials/signer.rs:464-503 | Answer and new entries equal those of the memo table: a hit returns the entry, a miss derives, evicts and stores |
| SigningKey.MissLeavesOneDate | src/credentials/signer.rs:496-500 | After a miss no entry of another date is left |
| SigningKey.TransparentIffInjective | src/credentials/signer.rs:471-478 | The cache agrees with the derivation for every primitive, every earlier run and every caller of a family if and only if the family's cache keys are distinct |
| SigningKey.ColonFreeIsInjective | src/credentials/signer.rs:473-473 | Inputs whose region and service contain no colon have distinct cache keys |
| SigningKey.ColonFreeAnswers | src/credentials/signer.rs:464-503 | Under every interleaving of stores and evictions by colon-free callers, every answer is the derivation of the caller's own inputs |
| SigningKey.ColonCollides | src/credentials/signer.rs:473-473 | Two different accounts share a cache key when a region contains a colon |
| Query.UriEncode | src/credentials/signer.rs:401-419 | The result filled character by character is the encoding of the whole string |
| Query.EncodeRoundTrip | src/credentials/signer.rs:401-419 | Percent-decoding (RFC 3986, section 2.1) undoes the encoder on every string |
| QueryOrder.EncodedIsStandard | src/credentials/signer.rs:401-419 | The encoding is the one of AWS Signature Version 4 on the UTF-8 bytes: unreserved bytes as they are, every other byte as a percent sign and two upper-case digits |
| ByteOrder.LexIsByteOrder | src/credentials/signer.rs:283-298 | The order in which names and fields are sorted is the order of their UTF-8 bytes: a front part first, otherwise the smaller byte at the first difference |
| QueryOrder.FieldsAscend | src/credentials/signer.rs:421-428 | The fields of the canonical query are the encoded parameters, each as often as it occurs, in ascending byte order |
| QueryOrder.QueryMeetsStandard | src/credentials/signer.rs:421-428 | The canonical query is the standard's, ordered by encoded name and then value, if and only if no encoded name continues another with a character below `=` |
| QueryOrder.DashComesFirst | src/credentials/signer.rs:426-426 | For the parameters `a=1` and `a-b=2` the canonical query is not the standard's |
| Query.CanonicalDetermines | src/credentials/signer.rs:421-428 | Two parameter lists have the same canonical query if and only if they are equal as multisets |
| Query.CanonicalIsStable | src/credentials/signer.rs:421-428 | Reparsing the canonical query gives the same parameters, and canonicalising again changes nothing |
| Sorting.KeysOfSortedPairs | src/credentials/signer.rs:343-354 | Sorting pairs once by key gives the same list of keys as sorting the keys on their own |
| Headers.GetIsFirst | src/credentials/signer.rs:554-557 | Reading a header finds the first field of its name |
| Headers.CollectMeans | src/credentials/signer.rs:153-180 | A name is collected exactly when it is kept and has a readable value; of several values the last one is taken, trimmed |
| Headers.CollectWithin | src/credentials/signer.rs:150-181 | Keeping only names that were collected anyway collects the same header map |
| Signer.Iterate | src/credentials/signer.rs:343-347 | Walking a hash map yields each entry exactly once, in some order |
| Signer.OrderDoesNotMatter | src/credentials/signer.rs:277-300 | The canonical header block and the signed-header list do not depend on the iteration order of the map |
| Signer.Sign | src/credentials/signer.rs:337-398 | The header of the fused form equals, for all iteration orders, the header assembled from the one-purpose functions under the key the cache hands out; it has the standard's form, over the names of the signed headers in ascending byte order; the cache changes by that one request |
| Signer.CanonicalIsStandard | src/credentials/signer.rs:305-327 | The canonical request is put together as the standard says: a line for each of method, path and query, a line for each header in ascending order of names, an empty line, the names and the payload hash |
| Coverage.CanonicalRequestCovers | src/credentials/signer.rs:305-327 | Requests with the same canonical request agree in method, path, query parameters, headers and payload line |
| Authorization.HeaderRoundTrip | src/parsers/credentials.rs:26-60 | A header built from delimiter-free components reads back its access key, region, service, header names and signature |
| ClientHeader.HeaderReads | src/parsers/credentials.rs:26-60 | The same for headers as clients print them, with a blank behind each comma |
| Authorization.SlashDecides | src/parsers/credentials.rs:26-60 | Access key and scope read back if and only if access key and region contain no slash |
| Authorization.SignatureReadsBack | src/credentials/signer.rs:674-677 | Every signature reads back if and only if the credential does not contain the signature mark |
| Authorization.ReadsBackExactly | src/credentials/signer.rs:392-395 | Headers read back whole for all names and signatures if and only if access key and region have no slash and no field mark |
| Verifier.RequestHeader.SignRequest | src/credentials/signer.rs:512-609 | Signing in place: an incomplete account is an error that touches no header and no cached key; otherwise the old Authorization header goes, date and content hash are set, and the signed header is added unless the target does not parse or the value is no header value; the cache is that after one request for the key |
| Verifier.RequestHeader.SignatureIsValid | src/credentials/signer.rs:662-752 | The verdict is an error, a panic, or whether the recomputed signature equals the one in the header, whatever the iteration order; an empty access key is refused; the cache changes by at most one request for a key |
| Verifier.RequestHeader.FullUrl | src/credentials/signer.rs:712-724 | The URL is the target, or `https://`, the host header and the target where that starts with a slash; a missing host is an error |
| Verifier.RequestHeader.SignatureIsValidCore | src/credentials/signer.rs:613-659 | The signature over exactly the listed headers, read back from the verifier's own header, is compared with the one provided |
| Verifier.RequestHeader.ResignStreaming | src/credentials/signer.rs:1043-1071 | Exactly the date and the Authorization header change; the body, not an override, carries the streaming marker; on failure only the date has changed |
| Agreement.VerdictOnOwnHeader | src/credentials/signer.rs:613-752 | On a header the signer made, the verdict under any secret compares the signature under the verifier's key and announced payload with the one in the header |
| Agreement.SignedIsAccepted | src/credentials/signer.rs:512-752 | Under one secret every request that is signed is accepted, as sent or as delivered with its host in a header, for every account a header can carry and every two ways of deriving keys that agree on the account |
| Agreement.SignedIsAcceptedThroughCaches | src/credentials/signer.rs:464-752 | The same with the key cache at both ends in any two states that colon-free callers have left, in any order of stores and evictions |
| Agreement.OrdinaryAccountsAreCarried | src/credentials/signer.rs:392-395 | Visible access keys and regions without slashes and equals signs survive in the header, which is what the agreement asks of an account |
| Agreement.SigningSucceeds | src/credentials/signer.rs:516-609 | Signing succeeds exactly for complete accounts and parsable targets whose access key and region are texts that a header value can hold |
| TamperEvidence.StringToSignDetermines | src/credentials/signer.rs:443-457 | Equal strings to sign come from the same time, scope and canonical digest |
| TamperEvidence.EqualSignatures | src/credentials/signer.rs:305-398 | Equal signatures, with no hash collision on the two texts, tie key, method, path, query, headers, payload line and time together |
| TamperEvidence.AcceptedIsUnchanged | src/credentials/signer.rs:613-752 | Any request accepted under the header of a signed one, whatever the secret, has the signed method, path, query, signed headers, payload hash and time, short of a collision on the two texts |
| Service.ValueMeetsStandard | src/credentials/signer.rs:277-290 | The value that is signed for a header is the standard's if and only if the header has one readable value without sequential blanks |
| Service.VerdictIsStandard | src/credentials/signer.rs:613-752 | For every regular request under an Authorization header of the standard's form, with or without blanks behind its commas, the verdict is whether the signature in it is the account's signature of this very request, as it arrived |
| Authentic.SignedIsAuthentic | src/credentials/signer.rs:512-609 | Every regular request that is signed is authentic to a service that follows the standard: it carries the account's signature over host, every `x-amz-` header and the other five names wherever they have a value, and over nothing else |
| Authentic.SignedIsAuthenticThroughCache | src/credentials/signer.rs:464-609 | The same with the key cache in any state that colon-free callers have left |
| Authentic.BodyIsAdmitted | src/credentials/signer.rs:554-571 | A client's own content hash is announced unchanged; without one, every upload is announced as unsigned, so that a service that checks bodies admits it, and GET, HEAD and DELETE with the digest of the empty body |
| Regularity.CanonicalExactly | src/credentials/signer.rs:305-327 | What is signed is the canonical request of the standard if and only if the request is regular |
| StreamingHead.SeedIsSignature | src/lib.rs:1222-1228 | The seed taken from the re-signed head is the signature that was put there |
| StreamingHead.ResignedIsAccepted | src/credentials/signer.rs:1043-1071 | A re-signed head that announces the streaming marker is accepted, for every two ways of deriving keys that agree on the account |
| StreamingHead.ResignedIsAuthentic | src/credentials/signer.rs:1043-1071 | A regular re-signed head that announces the streaming marker is authentic to a service that follows the standard |
| StreamingHead.ResignedAcceptedExactly | src/lib.rs:1171-1177 | A re-signed head is accepted if and only if its content hash header is the plain streaming marker, short of a collision |
| StreamingHead.UploadIsAccepted | src/lib.rs:1215-1237 | The backend accepts the head and, starting from the signature in it, reads the client's payloads from the body, however the client's bytes were cut, when signer, verifier and body signing derive the same key for the account |
| StreamingHead.UploadIsAcceptedThroughCaches | src/lib.rs:1215-1237 | The same for an account without a colon in its region, with the key cache at each of the three points in any state that colon-free callers have left |
| PresignGate.UrlTracker.Track | src/lib.rs:123-127 | Exactly one counter grows by one, a missing one starting at zero, and wraps at the machine word |
| PresignGate.CounterCounts | src/lib.rs:123-132 | What a check reads is the number of earlier uses of its URL, up to the machine word, whatever happened to other URLs |
| PresignGate.UrlTracker.Admit | src/lib.rs:500-552 | Undisturbed, a request passes exactly when it is not presigned or its own use brings the wrapped counter to at most the limit; only presigned requests count |
| PresignGate.AtMostLimitPass | src/lib.rs:507-513 | Under every interleaving of fewer uses than the word counts, at most min(n, limit) of n presigned uses of a URL pass |
| PresignGate.LimitKeptExactly | src/lib.rs:507-513 | No interleaving of n uses lets more than the limit through if and only if n fits the machine word |
| PresignGate.LimitMetExactly | src/lib.rs:507-513 | Every interleaving in which all n counted uses get to their checks lets exactly min(n, limit) through if and only if n fits the machine word and n is within the limit or the limit is zero |
| PresignGate.SequentialRequests | src/lib.rs:500-552 | Requests that come one after the other: exactly min(n, limit) of the n presigned ones on a URL pass while n fits the machine word, and more than the limit beyond it |
| PresignGate.SimultaneousUsesMayAllFail | src/lib.rs:507-513 | Whenever the wrapped number of uses exceeds the limit, there is a schedule in which all uses get to their checks and none passes |
| ConfigStore.Ensured | src/parsers/cos_map.rs:53-85 | Success leaves a credential and changes nothing else, an item that has one stays as it is, and failure means none was there or fetched |
| ConfigStore.CosMapItem.EnsureCredentials | src/parsers/cos_map.rs:53-85 | An item with a credential stays as it is, a fetched pair or key is filled in, and an error leaves the item as it was |
| ConfigStore.Store.CredentialStage | src/lib.rs:943-966 | Undisturbed, the stage is the copy, complete and write steps of the transition system in a row |
| ConfigStore.StepKeeps | src/lib.rs:643-966 | Every step of every request keeps the invariant of the shared map and of all requests in flight |
| ConfigStore.EntriesAreStable | src/lib.rs:943-966 | In every run no bucket appears or goes, nothing but credentials changes, and an entry with a credential always keeps one |
| ConfigStore.StagedRequestsAuthenticate | src/lib.rs:1167-1264 | A request past its credential stage finds a credential when it reads the entry again, so the error branch is unreachable for it; it is signed exactly when a whole pair is stored, even beside an API key, and carries the key otherwise |
| ConfigStore.KindOfCredentialCanChange | src/lib.rs:953-966 | In every store, for every bucket configured without a credential, two concurrent fetches can replace a stored HMAC pair by an API key |
| ConfigStore.PairsStayExactly | src/lib.rs:943-966 | A stored HMAC pair stays, in every run, if and only if the bucket was configured with some credential |
| PathSplit.SplitExactly | src/parsers/path.rs:23-39 | The split gives the slash-free bucket and the path behind it if and only if the text behind the slash occurs nowhere earlier; put together they are the input |
| PathSplit.BucketAndKeyComeBack | src/parsers/path.rs:23-39 | For every bucket and key, `/bucket/key` splits into them if and only if the key's first occurrence is its own place |
| PathSplit.WrongSplitIsLonger | src/parsers/path.rs:31-36 | A wrong split always returns a longer back part of the input than the right one |
| PathSplit.SegmentOutsideBucket | src/parsers/path.rs:31-36 | The split is right whenever the first segment of the key is not empty and not a part of the bucket's name |
| PathSplit.KeyInsideBucket | src/parsers/path.rs:31-36 | A key that ends the bucket's name is returned along with the bucket |
| PathSplit.DoubleSlashPanics | src/parsers/path.rs:35-35 | A second slash behind the bucket panics |
| Upstream.PeerMeetsAuthority | src/lib.rs:429-446 | In every run the peer from one reading of the configuration and the authority from any later one name the same host and port |
| Upstream.CachedPeerMeetsAuthority | src/lib.rs:1077-1091 | The same for a request's cached copy and its own second reading |
| Upstream.DecimalReads | src/lib.rs:1083-1087 | The printed port, read from the left, is the port, and only zero starts with a zero |
| Upstream.AuthorityReadsBack | src/lib.rs:1083-1087 | An authority, cut at its last colon and with 443 where there is none, gives back host and port if and only if the port is printed or the host has no colon |
| Upstream.AuthorityNamesPeer | src/lib.rs:429-446 | For hosts without a colon the authority names exactly the host and port of the peer |
| Upstream.Defaults | src/lib.rs:429-449 | Unconfigured buckets go to their own host under the global endpoint on port 443; TLS is used unless switched off; without a style the host is the bucket's own and the path stays |
| Upstream.RewriteKeepsObject | src/lib.rs:1055-1091 | A storage service finds the requested bucket and key in the rewritten host and path if and only if the path was split right and the style is "path" or "virtual" |
| Upstream.PathStyleReproduces | src/lib.rs:1060-1075 | Path style reproduces the request path, except that a bucket root loses its trailing slash |
| Upstream.CleanedFields | src/lib.rs:1010-1026 | Cleaning drops exactly the fields that start with `X-Amz-`, keeps the others in order and number, and leaves no query exactly when they amount to nothing |
| Upstream.UpstreamRequest.CleanPresigned | src/lib.rs:1006-1032 | All Authorization headers go; the target becomes its path with the cleaned query, without scheme and authority, or stays when that is no valid URI; other headers stay |
| Upstream.UpstreamRequest.Rewrite | src/lib.rs:1000-1107 | On success the target is https with the rewritten authority, path and query, and the host header names that authority; an invalid cleaned URI, path or authority is an error and a target that cannot be built a panic, and each leaves exactly the header removals and the cleaned target that precede it |
| Upstream.RewrittenHeaders | src/lib.rs:1019-1107 | Of the headers exactly host, accept-encoding and, for presigned requests, Authorization change; all others keep their order, number and values |
| Upstream.RewriteKeepsEverything | src/lib.rs:1038-1107 | A well-split request is rewritten exactly when the HTTP library accepts the texts; it then keeps its query, goes to its bucket's host with the port unless 443, and in a known style addresses the same object |
| QueryDict.ParseReadsFields | src/parsers/path.rs:45-83 | The parser over the remaining input reads field by field, each split at its own first `=`, up to the first field whose escapes are not text |
| QueryDict.EncodedParametersRoundTrip | src/parsers/path.rs:41-83 | Encoded parameters parse back in order |
| QueryDict.DictionaryMeans | src/parsers/path.rs:79-83 | A key has a value in the dictionary if and only if a field in front of the first unreadable one reads as that pair, and no later one of them has the key |
| QueryDict.EncodedDictionary | src/parsers/path.rs:41-83 | Encoded parameters with distinct names become exactly the dictionary from each name to its value |
| QueryDict.DecodePlain | src/parsers/path.rs:41-43 | Text without a complete escape is taken as it is, plus signs and stray percent signs included |
| QueryDict.FormIsPlusToBlank | src/credentials/signer.rs:421-425 | The parameters of a URL are decoded as those of the dictionary are, with plus signs read as blanks |
| QueryDict.DecodesExactly | src/parsers/path.rs:41-43 | A part decodes to a text exactly when its bytes are the UTF-8 encoding of that text, so overlong and truncated forms are refused |
| QueryDict.EmptyQueryHasOneEntry | src/parsers/path.rs:79-83 | The empty query gives one entry with an empty key |
| QueryDict.EmptyDictionaryExactly | src/parsers/path.rs:79-83 | The dictionary is empty if and only if the first field cannot be decoded |

## Left out

- `ChunkSigner` and `wrap_streaming_body` (src/credentials/signer.rs:898-1037): no request path calls them.
- Trailer frames of `STREAMING-*-TRAILER` uploads: the filter parses them as ordinary chunks; the model states only what happens to their head.
- Client chunk signatures: the filter does not check them, so the model's client chunks carry any extension text.
- The presigned verifier and `parse_presigned_params`: their result rests on the re-encoding of the URL library, which is not part of this model.
- The order of the checks in `request_filter` (skipping, multipart, keystore lookups, the `Expect` early return, ListBuckets, 404 answers): branching between the modelled pieces and I/O.
- Python callbacks, `parse_cos_map`, `parse_hmac_list`, JSON parsing of credentials: foreign calls; their results are parameters.
- `SecretsCache` and bearer tokens: network calls.
- The header filter before signing (src/lib.rs:1113-1166): a fixed list of names, which would add only easy members.
- Streaming.RequestBodyFilter: error returns of signing are not modelled, because the hash functions of the model cannot fail.
- Verifier.RequestHeader.SignatureIsValid: reading a timestamp is a parameter, so calendar checks of the time library are not modelled.
- Verifier.RequestHeader.SignRequest: header names are taken as lower case, as the HTTP library stores them.
- The text of the authorization cache's key (src/lib.rs:891): the model takes the key as it is given.
- AuthProtocol.SingleFlight: the per-key lock map only grows in the code as in the model; its memory is not a property here.
- SigningKey.ColonFreeAnswers: eviction of any set of keys stands for a half-finished scan of the concurrent map; its shards are not modelled.
- Upstream.UpstreamRequest.Rewrite: which texts the HTTP library accepts as URIs is a parameter, and every authority it accepts is taken to be a header value.
- HTTP/2, TLS, peers, metrics, logging and response headers: no deep invariant.
