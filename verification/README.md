# A verified model of the esa authentication servers

The repository hands out VPN configurations: a client generates an Ed25519 key, sends a signed
request, and a server checks it, writes the peer into tinc or WireGuard and answers with the
configuration.  This project models the five parts of that path whose correctness is not visible
from reading one function, and proves what they are for.

1. **Key generation** of the Python client (`Numbers`, `Edwards`, `EdwardsGroup`, `Certificate`,
   `Ed25519`, `ClientKey`).  Nothing is assumed: 2^255 - 19 is proved prime by a chain of
   Pocklington certificates, the curve constant is proved a non-square, and Edwards addition is
   proved complete, closed, commutative and associative.  On top of that double-and-add returns the
   n-fold sum and the point encoding is injective.  `Certificate.dfy` is written by
   `certificate.py`, which only computes residues; every number in it is checked by the verifier.
2. **Admission** to the server (`Validation`, `NonceCache`, `NonceLatency`, `Replay`,
   `TokenBucket`, `Limiters`, `LimiterEntries`, `LimiterLock`).  The bounded, swept nonce cache is compared with an
   unbounded history, the swept limiter table with one pure token bucket per address, and the
   results are lifted to signed requests.
3. **The tinc host-file transaction and its workers** (`HostTx`, `Workers`,
   `WorkerAnswers`).  The hosts directory
   is an object whose operations fail at will and which records every state it goes through; the
   workers interleave, and a run is compared with the committed updates run one after the other.
4. **The WireGuard save debouncer** (`Saver`, `SaverRequests`): producers, debouncer and persister over two bounded
   channels, with safety, a decreasing rank, absence of deadlock, and a run that shows what two
   interfaces can lose.
5. **Provisioning** (`Text`, `Base64`, `ArgonHash`, `PeerIP`, `Accounts`, `AccountMenu`, `IPAlloc`,
   `UserStore`, `Provisioning`): separate programs that talk through text files, from the account
   manager's list to the two tables the server starts with.

`Common` holds what the parts share, and `Program` checks the programs' own constants against the
hypotheses of the theorems.

Conventions.  Time is in nanoseconds on one clock.  A string is a sequence of code points.  The
limiter counts in units of 10^-9 token, so that one token per second is exact.  Cryptographic
functions, randomness and external commands are parameters or nondeterministic results.  Objects
the source updates in place are classes whose methods are proved against functions or relations;
the laws are then proved about those.

Three findings.  A signed request can be admitted twice, though never three times, exactly at the
two ends of its skew window (`Replay.NoReplay`, `Replay.NoThirdAdmission`,
`Replay.ReplayHappens`).  The save debouncer loses a save for good when requests of another
interface push the last request out of the full channel (`Saver.LossHappens`); with one interface
it never does (`Saver.NoLostSave`).  The address allocator reads `users.txt` as the server does
exactly when every line uses the colon form, although the server also accepts a comma
(`Provisioning.NamesAgreeIff`, `Provisioning.ReadersPart`).

## Model

| member | source | states |
|---|---|---|
| Numbers.Fermat | tincver/client/esa_client.py:89-90 | Fermat's little theorem, on which the inverse `pow(value, P - 2, P)` rests: a^(p-1) is 1 modulo a prime p that does not divide a |
| Edwards.InvCorrect | tincver/client/esa_client.py:89-90 | `_inv` is the field inverse: v times its result is 1 modulo every prime not dividing v, and the result is reduced |
| Edwards.AddEquations | tincver/client/esa_client.py:93-101 | the quotients `_point_add` computes satisfy the defining equations of Edwards addition, with reduced coordinates |
| Edwards.Complete | tincver/client/esa_client.py:93-101 | for all curve points both denominators 1 + dxxyy and 1 - dxxyy are units, because d is a non-square and -1 a square |
| Edwards.Closed | tincver/client/esa_client.py:93-101 | the sum of two curve points is a curve point with coordinates in [0, P) |
| EdwardsGroup.NeutralLeft | tincver/client/esa_client.py:93-105 | (0, 1), where the loop starts, is neutral |
| EdwardsGroup.Commutes | tincver/client/esa_client.py:93-101 | addition commutes |
| EdwardsGroup.Associative | tincver/client/esa_client.py:93-101 | addition is associative on all triples of curve points, so repeated sums are well defined |
| EdwardsGroup.TimesAdd | tincver/client/esa_client.py:104-112 | (m + n)a = ma + na for the n-fold sum that specifies scalar multiplication |
| EdwardsGroup.TimesOne | tincver/client/esa_client.py:104-112 | one copy is the point itself: with the sums this fixes the n-fold sum |
| Certificate.PrimeP | tincver/client/esa_client.py:26 | P = 2^255 - 19 is prime |
| Ed25519.CurveIsValid | tincver/client/esa_client.py:26-28 | with the constants as the client computes them, P is prime, I squares to -1 and D is a non-square: the hypotheses of completeness hold |
| Ed25519.BasePoint | tincver/client/esa_client.py:29-35 | the computed base point lies on the curve and is the one of section 5.1 of RFC 8032 |
| ClientKey.ScalarMultBase | tincver/client/esa_client.py:104-112 | for every scalar the loop returns the scalar-fold sum of the base point, in one turn per bit; the curve and the base point are arguments, and the client's constants meet what is asked of them (CurveIsValid, BasePoint) |
| ClientKey.Turn | tincver/client/esa_client.py:107-111 | one turn keeps result + remaining * addend, for odd and even scalars |
| ClientKey.Clamp | tincver/client/esa_client.py:124-131 | the three masks, in place: the scalar is a multiple of 8 from 2^254 on and below 2^255 whose bits 3 to 253 are those of the digest, and no byte beyond the masked ones changes |
| ClientKey.ClampedOnce | tincver/client/esa_client.py:124-131 | those conditions leave exactly one scalar for a digest |
| ClientKey.ClampedRange | tincver/client/esa_client.py:125-131 | every clamped scalar is a multiple of 8 in [2^254, 2^255), so the loop runs 255 turns |
| ClientKey.EncodePoint | tincver/client/esa_client.py:115-119 | the 32 bytes are y in little endian with the parity of x in the free top bit |
| ClientKey.EncodingInjective | tincver/client/esa_client.py:115-119 | different curve points have different encodings, on every valid curve with p < 2^255 |
| ClientKey.PublicKey | tincver/client/esa_client.py:122-132 | from any 64-byte digest: the key encodes the curve point that is the scalar-fold sum of the base point, for the one scalar that is the clamped low half |
| NonceCache.NonceStore.CheckAndStoreNonce | tincver/http_.go:523-570 | the method with its pruning loop is the cache step the runs are made of |
| NonceCache.NonceStore.Sweep | tincver/http_.go:471-486 | one tick of the cleanup loop removes exactly the entries older than the cutoff |
| NonceCache.Refinement | tincver/http_.go:523-570 | in every clock-ordered run with any sweeps the cache accepts exactly what an unbounded history accepts: no acceptance later than now - TTL and fewer than maxNonces keys accepted since; it never outgrows its capacity |
| NonceCache.SweepsAreInvisible | tincver/http_.go:446-492 | removing all sweeps from a run changes no decision |
| NonceCache.AcceptancesSpaced | src/esa/http_.go:502-524 | in every clock-ordered run of the cache any two acceptances of one key are at least TTL apart, with or without a capacity limit |
| NonceLatency.AcceptancesApart | tincver/http_.go:693-734 | if a request finishes its nonce check at most L after taking its stamp, in any interleaving with other requests, sweeps and capacity purges, acceptances of one key are stamped at least TTL apart for L = 0 and at least TTL - L + 1 nanoseconds apart otherwise |
| NonceLatency.GapIsTight | tincver/http_.go:693-734 | that bound is reached exactly by a concrete run for every L below TTL, so it cannot be improved |
| NonceLatency.ReplayNeedsBothEnds | tincver/http_.go:651-734 | so under latency a signed request is accepted twice only with one stamp within L of each end of its skew window |
| Validation.UsernameAccepted | tincver/validation.go:281-292 | a user name is accepted iff it has 1 to 32 characters of the class |
| Validation.PubKeyAccepted | tincver/validation.go:313-333 | a public key is accepted iff its trimmed text matches the pattern: the base64 checks after the pattern never fail |
| Validation.TimestampAccepted | tincver/validation.go:258-279 | a timestamp is accepted iff its trimmed text is at most 19 digits denoting a second within 30 seconds of now and within 63 bits |
| Validation.NonceAccepted | tincver/validation.go:363-381 | a nonce is accepted iff its trimmed text is 16 to 64 characters of the class |
| Validation.ParsedIff | tincver/validation.go:164-256 | a form is accepted iff every field is clean and its trimmed text is valid, and the request holds the trimmed texts |
| Validation.ParsedIsWellFormed | tincver/validation.go:164-256 | what ParseAuthRequest accepts has the shape the signed string needs |
| Validation.PayloadInjective | tincver/http_.go:572-583 | on accepted requests equal payload strings force equal user, timestamp, nonce and key |
| Validation.SignedIsChecked | tincver/client/esa_client.py:162-168 | what the server checks the signature of is the string the client signed |
| Validation.NonceKeyInjective | tincver/http_.go:529 | on accepted requests equal cache keys force equal user and nonce |
| Replay.NoReplay | tincver/http_.go:523-570 | in every run one signed request is admitted at most once, except exactly at the two ends of its skew window |
| Replay.NoThirdAdmission | tincver/http_.go:523-570 | never three times |
| Replay.BothEndsAdmit | tincver/validation.go:275 | the exception is real: any form acceptable at some moment is admitted at timestamp - 30s and again at timestamp + 30s |
| Replay.ReplayHappens | tincver/http_.go:523-570 | a concrete form is admitted twice, at seconds 70 and 130 |
| Replay.AdmittedIff | tincver/http_.go:651-734 | after any run a request is admitted, with its own stamp, iff its password and signature verify, it parses, none with its user and nonce was admitted later than now - TTL, and the cache has room; otherwise nothing is admitted |
| Replay.AdmissionsAreVerified | tincver/http_.go:693-734 | in every run the admissions are, in order, verified requests of that run, each parsed to the request and the stamp admitted, and no request is admitted for two of them |
| Replay.UnverifiedLeavesNoTrace | tincver/http_.go:693-734 | a request that does not verify, put anywhere into a run, changes neither admissions nor nonces |
| TokenBucket.RefusedIff | tincver/http_.go:297-328 | request j is refused iff for some i <= j the requests allowed in i..j-1, plus one, exceed the burst of 5 plus the seconds since i |
| TokenBucket.WindowBound | tincver/http_.go:310-325 | any window holds at most burst plus its length in allowed requests |
| TokenBucket.ConformingNeverRefused | tincver/http_.go:310-325 | a client whose every window stays within that bound is never refused |
| Limiters.Limiter.Request | tincver/http_.go:297-328 | allowRequest as a method on the table is the step the runs are made of |
| Limiters.Limiter.Failure | tincver/http_.go:330-352 | recordFailure counts, stamps and returns the capped delay, and leaves the bucket alone |
| Limiters.Limiter.Success | tincver/http_.go:354-370 | recordSuccess clears the failure count and creates no entry |
| Limiters.Limiter.Sweep | tincver/http_.go:399-426 | a sweep removes exactly the entries not seen since the cutoff |
| Limiters.DecisionsExact | tincver/http_.go:297-328 | with any sweeps, failures, successes and other traffic, an address that met no full table is refused exactly when its own requests overdraw some window |
| Limiters.EvictionIsInvisible | tincver/http_.go:399-426 | such an address gets, request by request, the decisions of an unbounded table that never sweeps |
| LimiterEntries.FailureDelays | tincver/http_.go:330-352 | in a run that served the address, the k-th failure since its last success or eviction is answered with min(k * 200 ms, 2 s), k counted from the events |
| LimiterEntries.UncountedFailure | tincver/http_.go:330-335 | a failure for which the full table has no entry is answered with the longest delay and changes nothing |
| LimiterEntries.SweptIff | tincver/http_.go:399-426 | an entry survives a sweep iff its address was last heard of, by the events, no longer ago than the idle time |
| LimiterEntries.TableFullIff | tincver/http_.go:866-884 | a request meets a full table iff its address has no entry and the table is exactly at its capacity, which no run exceeds |
| LimiterLock.CountIsTableSize | tincver/http_.go:866-884 | under every interleaving of callers and sweeps the counter equals the table size whenever the mutex is free, and neither exceeds the capacity |
| LimiterLock.OneLiveEntry | tincver/http_.go:866-884 | two callers holding entries of one address hold the same one unless a sweep removed one: at most one live entry per address |
| LimiterLock.StoreIsInsertion | tincver/http_.go:866-884 | a store never replaces a live entry, and a removed entry never comes back |
| LimiterLock.RefusedOnlyWhenFull | tincver/http_.go:866-884 | under every interleaving a caller gets no entry only at a moment when its address has none and the table is full |
| LimiterLock.CallerIsServed | tincver/http_.go:866-884 | in every state with the mutex free a caller left alone gets the entry of its address, an existing or a new one, unless the table is full without it |
| HostTx.HostFileSays | tincver/updateconf.go:209-212 | read line by line, a built host file declares exactly the trimmed address and the unpadded key |
| HostTx.HostFileLines | tincver/updateconf.go:209-212 | the file is these two lines, each ended by a line feed, and nothing else |
| HostTx.KeyReachesHostFile | tincver/updateconf.go:209-212 | a 32-byte key in padded base64 is accepted and its bytes are what the host file carries |
| HostTx.NodeNamesAreNotTemp | tincver/updateconf.go:228-245 | no accepted node name collides with a temporary file |
| HostTx.TincHostTx.BackupExisting | tincver/updateconf.go:258-289 | the backup holds the previous content, or records that there was none; the host stays as it was |
| HostTx.TincHostTx.ReplaceFile | tincver/updateconf.go:323-331 | rename, then remove and rename: it fails only if both renames fail, or the first one and the removal; on success the host has the source's content, and on the way it shows what was there, the source's content, or after a failed rename of this call nothing |
| HostTx.TincHostTx.WriteTincHostFile | tincver/updateconf.go:174-207 | on success the host has the complete new content; the temporary file is gone in any case unless a removal of this call failed |
| HostTx.TincHostTx.Rollback | tincver/updateconf.go:291-311 | the host's content or absence is back to what it was, unless a rename or a removal of the rollback itself failed |
| HostTx.TincHostTx.Commit | tincver/updateconf.go:313-321 | the backup goes unless its removal failed, the new file stays |
| HostTx.BeginTincHostUpdate | tincver/updateconf.go:121-161 | either the new state is in place with a transaction that can undo it, or an operation of this call failed and the attempt left no mark, unless a rename or removal of its rollback failed as well |
| HostTx.UpdateTinc | tincver/updateconf.go:30-110 | all or nothing with any operation allowed to fail: nil means exactly the built file or absence; a failed tinc reload is an error; an error means that an operation of this update failed and that the host is as before, unless a rename or removal of the rollback itself failed; other hosts are never touched; every intermediate state shows the old file, the complete new one, or for a removal or after a failed rename of this update none; a canceled update, exactly when the context has ended, changes nothing; a hosts directory that was there stays |
| Workers.StepKeepsInv | tincver/main.go:212-388 | every step of every worker keeps the run invariant |
| Workers.UpdateInRun | tincver/updateconf.go:55-110 | whatever the real method does to the directory object is a run of the worker's steps that ends with the same files, the token free, and the commit and answer that fit its result; no job commits when its reload failed; a host becomes broken only when a rename or removal of the rollback failed: the transaction refines the step relation |
| Workers.CommittedFileIsOwn | tincver/main.go:316-332 | in every reachable state a host file committed in the run declares the address the store holds for its own user |
| Workers.SubnetsApart | tincver/main.go:316-332 | committed files of different users never share a Subnet |
| Workers.RunIsSequential | tincver/updateconf.go:55-110 | whenever the token is free the hosts look as if the committed updates, and only they, had run one after the other, except hosts on which a rollback failed and no update has committed since |
| Workers.LastCommitDecides | tincver/updateconf.go:68-110 | in that reference the last committed job of a user decides the user's file |
| Workers.AnswersAreTruthful | tincver/main.go:254-371 | a configuration is delivered only after the job's own update committed, "User not found" exactly when the store lacks the user, "Internal error" otherwise |
| Workers.BodyNamesOwnAddress | tincver/main.go:277-314 | the second line of a delivered configuration is the user's own stored address |
| Workers.BodyLines | tincver/main.go:277-314 | read line by line it is the node name, that address, and the settings in their order |
| WorkerAnswers.AnsweredOnce | tincver/main.go:212-388 | in every run a job is answered, and its update committed, at most as often as it was handed in |
| WorkerAnswers.CanServe | tincver/main.go:254-371 | wherever a run has got to with the token free, no job waiting and a worker idle, a new valid job can get its configuration with its file in place, and one of an unknown user its message |
| Saver.RunKeepsInv | src/esa/updateconf.go:48-151 | in every reachable state the timer is armed iff something is pending at the loop head, and every change newer than the last started save is still on its way, for every interface that lost no request to another |
| Saver.NoLostSave | src/esa/updateconf.go:48-151 | one interface, any producers, any capacities from 1: a change newer than the last started save has a request in a channel, pending, taken, or a producer still inside |
| Saver.RankFalls | src/esa/updateconf.go:48-151 | every step other than a new change lowers the rank |
| Saver.NoDeadlock | src/esa/updateconf.go:53-151 | outside quiescence some step is enabled |
| Saver.EventuallySaved | src/esa/updateconf.go:48-151 | one interface: once changes stop, every run ends within the rank with the last change saved |
| Saver.QuietMeansSaved | src/esa/updateconf.go:48-151 | where a run can only go on by a new change, every interface not lost is saved up to date |
| Saver.LossNeedsAnother | src/esa/updateconf.go:138-150 | a change loses its cover only when another interface's producer takes its request out, or when its own producer finds the channel full of others' requests |
| Saver.LossIsFinal | src/esa/updateconf.go:138-150 | a lost save does not come back until the interface changes again |
| Saver.LossHappens | src/esa/updateconf.go:138-150 | for any two interfaces and any capacities some run ends quiescent with the first one's change unsaved |
| SaverRequests.SavedWasAsked | src/esa/updateconf.go:133-151 | every saved request, interface and path, is one that a change of the run handed in |
| SaverRequests.LastPutIsSaved | src/esa/updateconf.go:48-151 | at rest the last request saved for an interface is the last one that entered the channel, unless the interface lost a request to another |
| Base64.RoundTrip | src/esausermanage/main.go:44 | unpadded base64 of sections 3.2 and 4 of RFC 4648: decoding inverts encoding on every byte string |
| Base64.LetterTable | src/esausermanage/main.go:44 | the letters are those of the table in section 4 of RFC 4648, in its order |
| Base64.DecodesIff | tincver/encrypt.go:104-118 | a text decodes, line breaks aside, iff it is in the alphabet and not one letter too long, and then to the bytes whose encoding it is up to unused low bits |
| ArgonHash.ParseParamsServer | tincver/encrypt.go:126-168 | the loop over seen and values accepts exactly three items, one per key, with decimal numbers in range, and returns their numbers |
| ArgonHash.ParseParams | src/esa/encrypt.go:86-106 | the other loop does the same, with 64-bit or 32-bit numbers |
| ArgonHash.ParseHashServer | tincver/encrypt.go:83-124 | the parser returns exactly the hash the string denotes |
| ArgonHash.ParseHash | src/esausermanage/main.go:62-94 | so does the other, with either number width |
| ArgonHash.ParsersAgree | tincver/encrypt.go:83-177 | on every string the three parsers agree in acceptance and result |
| ArgonHash.OrderIsFree | tincver/encrypt.go:132-151 | two strings that differ only in the order of their m, t and p items denote the same hash, or none |
| ArgonHash.RenderRoundTrip | src/esausermanage/main.go:44 | parsing inverts the rendering for all parameters, salts and digests in range |
| ArgonHash.HashPasswordIsReadable | src/esausermanage/main.go:35-45 | what hashPassword returns is accepted by every parser, trimmed, on one line and without a colon |
| PeerIP.IPv4RoundTrip | src/esaipalloc/ipalloc.go:132-133 | reading a printed IPv4 address gives the address back |
| PeerIP.ParsedIsPrinted | src/esaipalloc/ipalloc.go:132-133 | nothing but the print of a 32-bit address is read as an IPv4 address |
| PeerIP.PrintedBytes | src/esaipalloc/ipalloc.go:132-133 | the print is the four bytes in decimal, the most significant first |
| PeerIP.NormalizedIff | tincver/validation.go:411-462 | of the texts without colon and zone, exactly a dotted address, alone or with prefix length 32, is accepted, and it becomes that address as a /32 prefix |
| PeerIP.WiderIsRefused | tincver/validation.go:411-440 | a printed address with a shorter prefix length is refused as too wide |
| PeerIP.NormalForm | tincver/validation.go:442-462 | an address printed as a /32 prefix is accepted and is its own normal form |
| Accounts.LoadAccounts | src/esausermanage/main.go:96-133 | the reader returns exactly the accounts the file's lines mean, and fails exactly when a line means none or a name repeats |
| Accounts.LoadUsersDb | src/esa/http_.go:187-225 | the server's reader builds exactly the table of the accounts the lines mean, with the comma fallback |
| Accounts.RenderAccounts | src/esausermanage/main.go:153-174 | the writer succeeds iff names are valid and distinct and hashes valid, and writes one line each |
| Accounts.SavedReloads | src/esausermanage/main.go:96-194 | what is saved reloads to the same list, in the account manager and in the server |
| Accounts.LoadedIsWellformed | src/esausermanage/main.go:96-133 | whatever stood in the file, a loaded list can be saved and reloaded |
| AccountMenu.Manager.Create | src/esausermanage/main.go:275-296 | a user is appended iff the name is valid and new and the password hashed; the list stays well formed |
| AccountMenu.Manager.UpdatePassword | src/esausermanage/main.go:316-335 | exactly the named account changes its hash |
| AccountMenu.Manager.Delete | src/esausermanage/main.go:336-349 | exactly the named account goes, the order of the others stays |
| AccountMenu.Manager.Save | src/esausermanage/main.go:135-194 | for all outcomes of its file operations: saved exactly if the temporary file was written and the rename, or removal and second rename, went through; missing exactly if both renames failed and the removal between them did not; else unchanged |
| AccountMenu.SaveThenLoad | src/esausermanage/main.go:96-194 | any list the menu can reach is read back unchanged |
| IPAlloc.ReadUsernames | src/esaipalloc/ipalloc.go:54-84 | the names before the first colon, in order, failing exactly on an empty or repeated one |
| IPAlloc.AllocateAddresses | src/esaipalloc/ipalloc.go:86-117 | each error exactly under its condition; the exhaustion branch is unreachable for IPv4 and is the capacity check for IPv6; otherwise user i gets number i + 1 and the address whose network part is that of the prefix and whose host part is i + 2 |
| IPAlloc.AddressesAreUsable | src/esaipalloc/ipalloc.go:97-115 | allocated IPv4 addresses are distinct, have the network part of the prefix, and none is network, first host or broadcast address |
| IPAlloc.NetworkAddress | src/esaipalloc/ipalloc.go:86-96 | the base the addresses are counted from is the multiple of the size at or below the given address and less than a size away |
| UserStore.LoadUserStore | src/esa/usercfg.go:23-73 | the reader builds exactly the store the lines mean, and fails exactly when a line means no user or clashes in number, address or name |
| UserStore.ReadUser | tincver/usercfg.go:47-66 | one line is accepted iff it has three parts with a number, a valid name and an address, and yields those |
| UserStore.StoredIpsApart | tincver/usercfg.go:67-83 | stored users have pairwise different addresses and numbers |
| Provisioning.AssignmentsLoad | src/esaipalloc/ipalloc.go:131-137 | the file written for an IPv4 prefix with room loads into the intended store |
| Provisioning.GenerateConfig | src/esaipalloc/ipalloc.go:12-37 | reading, allocating and writing in sequence, for every users.txt with room |
| Provisioning.Provision | src/esaipalloc/ipalloc.go:12-37 | end to end for any well-formed list and any IPv4 prefix that fits: no step fails, the server's user database has exactly the list's users with their password hashes, and the store has exactly its users with their own addresses inside the prefix |
| Provisioning.NamesAgreeIff | src/esa/http_.go:199-208 | the allocator and the server read the same names out of an accepted users.txt iff every line has a colon |
| Provisioning.ReadersPart | src/esa/http_.go:199-208 | a concrete users.txt in the comma form that the server accepts and whose user the allocator does not read |
| Provisioning.LoadedStoreFitsWorkers | tincver/usercfg.go:67-83 | a loaded store meets the hypotheses of the worker runs |
| Program.ConstantsFit | tincver/http_.go:55-65 | the programs' own values meet what the theorems ask: TTL is twice the skew, the bucket refills before it is swept, there is room for two nonces |
| Program.FivePlusOnePerSecond | tincver/http_.go:55-56 | with these values any window of one address holds at most five allowed requests plus one per second |

## Left out

- HTTP handling, logging, prompts, signal handling and the Tk front ends: input and output without invariants of their own.
- Argon2, SHA-256, SHA-512, HMAC and X25519: their results are parameters; that `tincNodeName` tells the store's users apart is a hypothesis of the worker runs.
- The `wg`, `wg-quick` and `tinc` commands: one step that succeeds or fails.
- Go strings count bytes and strings here count code points: for text outside ASCII the length checks may choose another error code; what is accepted is the same, since every accepted class is ASCII.
- `bufio.Scanner` line-length limits and invalid UTF-8.
- Which runes `sanitizeValue` calls unsafe: a table of the unicode package, a parameter.
- Wall-clock and monotonic readings are one clock, and floating-point rounding in the bucket is not modelled.
- Limiters.Limiter.Request: a sweep between `getLimiter` and `lim.mu.Lock` is not interleaved, because the bucket theorems take allowRequest as one step; LimiterLock has the finer steps for the entry count.
- `lastFail` is written and never read by the source, so it is carried along without a law.
- Limiters.Limiter.Failure: the product of the failure count and the base delay is not wrapped at 64 bits.
- The worker loop and the two saver loops are labelled steps over values rather than loops, because their point is the interleaving; a panic inside a job is not a step.
- Stopping the saver: requests pending at `stopWGSaver` are thrown away by the source, so all claims hold before it is called.
- A blank configuration path, for which `scheduleWGPersist` returns at once.
- Reading and printing IPv6 text, and IPv4-mapped prefixes: parameters of PeerIP; the text round trips are for IPv4.
- Provisioning.Provision: covers IPv4 prefixes only, for the reason above.
- Provisioning.GenerateConfig: what it returns for a users.txt without room is stated at AllocateAddresses, not again there.
- The validators `src/esa` calls are not part of this model; those of `tincver/validation.go` stand in for them.
- `hashPassword` limits on the password itself: a refused password is the None of the menu operations.
- Accounts.LoadAccounts: which of several errors is reported first is not stated, only that there is one.
- ArgonHash.ParseHash: models two textually different but equal parsers by one method with the number width as argument.
- UserStore.LoadUserStore: models the two LoadUserStore functions, which differ only in their error texts, by one method.
- HostTx.BeginTincHostUpdate: a backup that fails halfway leaves its temporary file behind, as in the source, so the absence of temporary files is stated for successes only.
- HostTx.UpdateTinc: the directory is assumed to be written by no other program while the token is held.
- Path cleaning and absolute-path checks in `tincHostPaths`; the host directory is one map.
- `limitedBuffer`, `parseBoolConfig`, the message tables and `esa.conf`: easy members only.
