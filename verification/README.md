# JIT network access: a verified model of the gate

A service behind the gate is dark until a device answers a challenge. The answer burns a nonce and writes a
grant for the service and the device's address; every later request is checked again, against the grant and
against the token registry then in force. This project models the portable Go core (`core/go`), the Authorizer
built on it (`authorizer`), the byte-level port of the canonicalizers (`core/lua/canon_port_check.py`) and the
extension container (`extension/crx3.py`), and proves what they promise.

`dafny verify dfyconfig.toml` checks everything.

## How it is laid out

| files | what they hold |
|---|---|
| ByteStrings, Numerals | Go strings as byte sequences; splitting, joining, numerals |
| IpAddresses, IpMasking, IpRoundTrip, IpSpellings | the address parser, masker and printer written out in full, and exactly which spellings are read |
| ServerNames, NameLaws, Pae, Base64, UriPaths, Crx3 | the other canonicalizers and encodings, with the laws that settle every name and every path |
| Knock, Registry, GrantStore, GrantLaws, SingleUseStores, RateLimiters, Configs | the core's operations and stores |
| RealIp, Targets | what the proxy boundary makes of a request |
| Gate | the Authorizer as one machine, its handlers cut at every lock acquisition and clock reading |
| GateInvariant, GateTheorems | what every step keeps, and what that means for every run |
| Handlers, Server | the handlers undisturbed, as outcomes of the machine's steps and as methods over the stores |
| HonestKnock | the machine with the real encodings: exactly what a knock does, and exactly which requests get in |
| GateOpens | an administrator's grant, an expired token and an enrollment code, each followed through any run |
| GateWitnesses | two runs in which one nonce is accepted twice, and a refused knock that burns its nonce |

Code that computes by expressions is a function. Code that changes maps, buffers or locals step by step is a
class or a loop, proved against a function of its inputs, and the laws are proved about that function. What a
grant, a token or a code is worth is written out a second time, in predicates the code does not call (`Entitles`,
`InGoodStanding`, `Listed`, `Sound`, `OpensFor`, `Redeems`, `StillOpens`, `Acceptable`), and the code is proved
to agree with them.

HMAC-SHA256 and SHA-256 are parameters (`Knock.Crypto`). Where a statement needs them not to collide it says
between which two inputs, because a fixed-length function that never collides at all does not exist. Clock
readings, random bytes, the rate limiter's verdict and what resolve() found are inputs of the machine's steps, so
every theorem about runs holds whatever they are. Walking a Go map is an arbitrary choice of the next key.

## Where the code and a first reading of it part

* A nonce can be claimed twice although no reload ever lengthens its lifetime: a request that read the old
  configuration before a reload shortened NonceTTL still carries the longer one. It can also happen, with one
  lifetime throughout, when a sweep passes the expiry of the nonce's record while a second claim, its clock read
  earlier, is stalled. `GateWitnesses` gives both runs; `ClaimedTwiceMeans` proves, for every run, that there is no
  third way, and `ReburnsExactlyAfterSweep` that with one lifetime such a sweep is the exact condition.
* A failing knock can burn its nonce: for a device-bound service the cookie's randomness is drawn after the
  claim (`authorizer/server.go`, lines 316 to 335), so a sound knock whose generator fails is denied with its
  nonce spent. `RngFailureHappens` gives an instance, `RefusedKnockBurnsExactly` proves it the only way.
* `docs/PROTOCOL.md`, section 4, strips one trailing dot; `trimDotsAndSpace` strips spaces and dots until nothing
  changes. The model follows the code.
* A bracketed literal loses everything behind its bracket, not only a port (`BracketsAreIgnored`).
* `resolveTarget` keeps "" for "no claim yet", so a host claim that canonicalizes to "" makes the outcome depend
  on the order of the conventions (`EmptyClaimDependsOnOrder`). `ResolvedExactlyWhenSettled` is
  the exact condition without any hypothesis on names.
* A sweep is not a no-op for a request with a cookie: it can uncover a live record that an expired device record
  was shadowing. `SweepOnlyUncovers` says exactly when.

## Model

| member | source | states |
|---|---|---|
| GateTheorems.AccessRestsOnAPut | authorizer/server.go:501-566 | in every run every granted /authz rests on an earlier Put for exactly that service and address that still stands: unexpired, not put over, retired or swept, with no revocation of the pair or kid since; unless manual, its kid is registered in the registry in force when the request read it, under HMAC-SHA256, with no expiry or before it, listed, and with the same secret fingerprint; an ip+cookie service saw the minted cookie |
| GateTheorems.RevocationHolds | authorizer/admin.go:119-150 | after a revocation of the pair or the kid only a Put made since can open the gate |
| GateTheorems.RotationEvicts | authorizer/server.go:303-355 | an access through a knock traces to one claim and one proof, and the secret proved has the fingerprint of the secret the kid holds in the registry the request read, so a knock in flight across a rotation opens nothing |
| GateTheorems.KnockedGrantMeans | authorizer/server.go:293-355 | in every run a knocked grant comes from a claim of a nonce of ours, fresh for that service and address, and a proof under the secret its kid then had; its kid, service, address, expiry, binding and fingerprint are, written out, what was proved |
| GateTheorems.StoreHoldsWhatStands | core/go/store.go:100-284 | in every run the store holds a grant exactly when it was put and everything since has spared it |
| GateTheorems.ClaimRestsOnAProof | authorizer/server.go:293-319 | in every run a nonce is burned only by a request whose proof was sound: a fresh nonce of ours, a configuration that had been loaded, a kid registered, unexpired and listed in the registry then in force, and a nonce not on record |
| GateTheorems.ProofIsSound | authorizer/server.go:293-311 | in every run an accepted proof is by a kid the registry then in force holds under HMAC-SHA256, with expires 0 or later than the request's clock, listed for the service, and with that kid's secret |
| GateTheorems.CarvedIsEndpoint | authorizer/server.go:523-534 | in every run what is let through without a grant is one of the four endpoint paths by exact name |
| GateTheorems.SpentChangesRightly | authorizer/server.go:315-319 | in every state that satisfies the invariant, whatever the step, a spent record is written only by a proved request whose nonce was claimable, and removed only by a sweep past its expiry |
| GateTheorems.ReclaimExactly | core/go/store.go:309-330 | in every run, exactly when a burned nonce can be burned again: its record has expired by the claimant's clock or a sweep has passed the expiry |
| GateTheorems.ClaimedTwiceMeans | core/go/store.go:309-330 | in every run, a nonce accepted twice means the later request carried a longer lifetime or a sweep in between had passed the expiry of the first one's record |
| GateTheorems.ReburnsExactlyAfterSweep | core/go/store.go:309-330 | while reloads keep NonceTTL, a request proved with a burned nonce can burn it again exactly when a sweep has passed the expiry of its last record |
| GateTheorems.ClaimCarriesLoadedTtl | authorizer/server.go:270-316 | in every run a claim carries the lifetime of a configuration that had been loaded, so the common one if reloads keep it |
| GateTheorems.NonceClaimedOnce | core/go/store.go:309-330 | while reloads keep NonceTTL, each 56-byte nonce is accepted at most once, however it was spelled, unless a sweep passes the expiry of its record before the second request claims |
| GateWitnesses.ShorteningIsNotEnough | authorizer/server.go:270-316 | for every key and hash there is a run whose only reload shortens NonceTTL and in which one nonce is accepted twice |
| GateWitnesses.SteadyTtlIsNotEnough | authorizer/server.go:293-316 | for every key and hash there is a run with one NonceTTL in which a sweep at the record's expiry, between a request's clock reading and its claim, lets one nonce be accepted twice |
| GateWitnesses.LongerTtlClaimsTwice | authorizer/server.go:270-316 | the first run, step by step, from any knock good under both lifetimes |
| GateWitnesses.StalledClaimClaimsTwice | authorizer/server.go:293-316 | the second run, step by step, from any good knock |
| GateTheorems.OneGrantPerNonce | authorizer/server.go:293-355 | under the same two conditions, on the pair of claims concerned, two grants from knocks were knocked with two different nonces |
| GateTheorems.ClaimMintsOnce | authorizer/server.go:316-355 | in every run one accepted claim mints at most one grant |
| GateTheorems.CodeSpentOnce | core/go/store.go:350-396 | in every run two secrets sent for one code mean the code was put twice |
| GateTheorems.SendingMeans | authorizer/server.go:406-418 | in every run a secret sent is the one its kid holds in the registry in force, for a code taken earlier whose entry names that kid, and no taking is answered twice |
| GateTheorems.TakingMeans | authorizer/server.go:399-411 | in every run a code taken at a time was put with the entry taken and has stood since, that time is before the entry's expiry, and a kid was found registered for it before |
| GateTheorems.StoreHoldsCodes | core/go/store.go:332-396 | in every run the store holds a code with an entry exactly when that was put and nothing since has put over it, taken it or swept past its expiry |
| GateTheorems.CodeLeavesRightly | authorizer/server.go:399-411 | in every state that satisfies the invariant, whatever the step, a code leaves the store only by a sweep past its expiry or by a request that presented it and had its kid found in the registry then in force; a request that finds the kid unregistered spends nothing |
| GateInvariant.NextKeeps | authorizer/server.go:89-566 | every step of every handler, reload, sweep and admin call keeps the invariant that ties stores, requests in flight and registry to what has happened |
| GateInvariant.RunKeeps | authorizer/server.go:89-566 | so does every run |
| GateInvariant.InitHolds | authorizer/server.go:44-65 | the invariant holds at start-up |
| HonestKnock.OpensExactly | authorizer/server.go:501-566 | after any run whatever, an /authz is answered 204 on a grant exactly when that grant stands and opens for the request: same service and address, unexpired, bound to no other cookie, no endpoint path, a configured service that asks no stronger binding, no device record in front, and, unless manual, a kid in good standing under the same secret |
| HonestKnock.CarvesExactly | authorizer/server.go:501-534 | an undisturbed /authz is let through without a grant exactly for one of the four endpoint paths from a trusted peer with a name and an address; from an untrusted peer or an unresolved request it changes nothing |
| GateOpens.AdminGrantOpens | authorizer/admin.go:80-117 | an administrator's grant opens the gate after any steps that spare it, within the time asked or the default one, on a service not bound to cookies: with no kid named, whatever the registry holds; with a kid, while that kid is registered, unexpired and listed with the secret it had |
| GateOpens.ExpiredTokenIsRefused | core/go/registry.go:51-53 | after any run, once 0 != expires <= now a knock under that kid changes neither grants nor spent nonces, and no grant of it that is not manual opens the gate |
| GateOpens.EnrollAnswersExactly | authorizer/server.go:377-423 | after any run, an enrollment request is answered with a kid's secret exactly when the code it presents stands with an entry for that kid, is before its expiry, and the kid holds that secret |
| GateOpens.MintedCodeIsAnswered | authorizer/admin.go:154-197 | a code minted for a registered kid, spared by every later event and presented within the lifetime asked or the default, held between 300 and 604800 seconds, is answered with the secret the kid then holds |
| HonestKnock.AllowedExactly | core/go/store.go:134-195 | the store answers with a grant exactly when it holds it, the grant entitles the request (condition written out) and no device record shadows it |
| HonestKnock.HonestDeviceGetsIn | authorizer/server.go:210-566 | a device that takes a challenge, answers it with its registered secret while the nonce is fresh and unspent, and asks again, is let in, with anything in between that spares the grant the answer earns and leaves it good |
| HonestKnock.HonestKnockIsSound | authorizer/server.go:210-319 | the answer to a challenge passes every check up to the claim, whatever happened in between that keeps the service and the IPv6 prefix |
| HonestKnock.ChallengeMeans | authorizer/server.go:234-245 | a nonce handed out verifies for any request exactly when its canonical service and address are the same and 0 <= now - ts < ttl |
| HonestKnock.SoundKnockOpens | authorizer/server.go:260-566 | after a sound knock, and any steps whose events spare its grant and leave it good, a request from that service and address is answered 204 on it |
| HonestKnock.SoundKnockStands | authorizer/server.go:321-355 | a sound knock's grant stands in any run that goes on from it as long as later events spare it |
| GateTheorems.RunGrows | authorizer/server.go:89-566 | a run only adds to what is remembered |
| HonestKnock.SoundKnockGrants | authorizer/server.go:316-355 | a sound knock leaves its grant standing and unshadowed for its device, its nonce burned, and configuration, registry and codes alone |
| HonestKnock.KnockDoesExactly | authorizer/server.go:260-355 | an undisturbed knock changes the spent set exactly when it is sound: body, nonce, the kid's registration, algorithm, expiry and listing, tag, and no live record of the nonce; it mints a grant exactly when there is also the randomness it needs; otherwise it leaves the grants alone |
| HonestKnock.RefusedKnockBurnsExactly | authorizer/server.go:316-338 | a refused knock burns its nonce exactly when it was sound, the service is device-bound and the generator failed |
| HonestKnock.RngFailureBurnsNonce | authorizer/server.go:316-338 | an honest answer whose cookie randomness fails is denied, its nonce is spent and sending it again does nothing |
| GateWitnesses.RngFailureHappens | authorizer/server.go:316-338 | for every key and hash there is a state and a knock refused in it that burns its nonce |
| HonestKnock.HonestBodyPasses | core/go/crypto.go:67-143 | a body built from a challenge for this service and address, with any padding, passes decoding, nonce and proof checks while the window is open |
| HonestKnock.PutIsUnshadowed | core/go/store.go:100-195 | no device record shadows a record just put from its own device, whose earlier cookie is retired with it |
| HonestKnock.RealEnvIsValid | core/go/crypto.go:101-143 | with the real encodings and MACs the machine meets the hypotheses of every theorem about it, and what it issues is accepted exactly in its window |
| Handlers.RespondRuns | authorizer/server.go:260-360 | handleRespond undisturbed is its six steps of the machine back to back |
| Handlers.AuthzRuns | authorizer/server.go:501-566 | handleAuthz undisturbed is its five steps |
| Handlers.EnrollRuns | authorizer/server.go:377-423 | handleEnroll undisturbed is its five steps |
| Handlers.GrantRuns | authorizer/admin.go:80-117 | adminGrant undisturbed is its four steps |
| Handlers.RevokeRuns | authorizer/admin.go:119-135 | adminRevoke undisturbed is its two steps |
| Handlers.CodeRuns | authorizer/admin.go:154-197 | adminEnrollCode undisturbed is its four steps |
| Servers.Server.HandleChallenge | authorizer/server.go:210-249 | a nonce is handed out exactly for a configured service, asked for rightly, with randomness and an address that canonicalizes; it is accepted for that service and address exactly while 0 <= now - ts < ttl; nothing changes |
| Servers.Server.HandleRespond | authorizer/server.go:260-360 | from a state that satisfies the invariant it leaves the machine's outcome in one that does; it answers 204 exactly for a sound knock with the randomness it needs, which then earns exactly the grant written out; otherwise the grants stay, and the nonce is burned exactly when the knock was sound |
| Servers.Server.HandleAuthz | authorizer/server.go:501-566 | from a state that satisfies the invariant it leaves the machine's outcome in one that does; it is let through as a carve-out exactly for an endpoint path from a trusted peer, and admitted on a grant exactly when that grant is stored and opens for the request |
| Servers.Server.HandleEnroll | authorizer/server.go:377-423 | it leaves the machine's outcome; an answer comes exactly for a code in the store before its expiry whose kid is registered, is that kid's secret and the entry's origins, and removes the code; otherwise the codes stay |
| Servers.Server.AdminGrant | authorizer/admin.go:80-117 | it leaves the machine's outcome; refused exactly when name or address does not canonicalize |
| Servers.Server.AdminRevoke | authorizer/admin.go:119-135 | all and only the records of the canonical pair go, and it says whether one went; a name or address that does not canonicalize is refused and changes nothing |
| Servers.Server.AdminRevokeToken | authorizer/admin.go:137-150 | all and only the kid's grants go, and their exact number is returned; an empty kid is refused |
| Servers.Server.AdminEnrollCode | authorizer/admin.go:154-197 | a code is minted exactly for a registered kid and with randomness, and is then stored with that kid, those origins and an expiry 300 to 604800 seconds on, as asked or by default; no other code changes |
| Servers.Server.Reload | authorizer/server.go:89-105 | configuration and registry change together or not at all, the stores never |
| Servers.Server.SweepAll | authorizer/server.go:632-649 | one tick leaves what the machine's three sweeps leave: all and only the records, nonces and codes that have not expired |
| Handlers.SweepRuns | authorizer/server.go:632-649 | that is three steps of the machine |
| Handlers.RespondKeepsInv | authorizer/server.go:260-360 | an undisturbed knock takes states that satisfy the invariant to states that do |
| Handlers.AuthzKeepsInv | authorizer/server.go:501-566 | so does an undisturbed /authz |
| Handlers.EnrollKeepsInv | authorizer/server.go:377-423 | and an undisturbed /enroll |
| GrantStores.GrantStore.Put | core/go/store.go:100-125 | the map afterwards is the map without the retired cookies' records and with the new one, the kid index exact |
| GrantStores.GrantStore.IsAllowed | core/go/store.go:134-195 | it answers with the candidate record exactly when that entitles the request: service, address, expiry, cookie and, unless manual, the kid's standing and secret, all written out |
| GrantStores.GrantStore.Revoke | core/go/store.go:222-238 | all and only the records with that service and address go, colliding keys or not, and the index stays exact |
| GrantStores.GrantStore.RevokeToken | core/go/store.go:242-255 | all and only that kid's grants go and their exact number is returned |
| GrantStores.GrantStore.Sweep | core/go/store.go:272-284 | all and only the expired records go, and their number is returned |
| GrantStores.GrantStore.UnindexLocked | core/go/store.go:286-293 | one key leaves the kid's set, and an empty set leaves the index |
| GrantStores.Allowed | core/go/store.go:134-195 | what is returned is a stored record that entitles exactly this service, address and cookie at this time under this registry |
| GrantStores.HonouredIsEntitled | core/go/store.go:134-195 | the checks in their order amount to the written-out condition: manual grants skip the registry, all others need a registered, pinned-algorithm, unexpired, listed kid with the fingerprint of the grant |
| GrantStores.UnindexTracksDelete | core/go/store.go:286-293 | the index stays exact when a record is deleted |
| GrantStores.AddIndexTracksInsert | core/go/store.go:115-124 | and when one is inserted |
| GrantStores.DroppingKidKeepsIndex | core/go/store.go:242-255 | and when a whole kid is dropped |
| GrantLaws.CookieKeyIsNeverPlain | core/go/store.go:62-77 | for any service names a device key is never an address key |
| GrantLaws.CookieKeysDiffer | core/go/store.go:67-69 | two devices' keys coincide only if the hashes do |
| GrantLaws.KeyNamesSlot | core/go/store.go:62-77 | for colon-free services a key determines service, address and device |
| GrantLaws.PutSimulates | core/go/store.go:100-125 | a Put on the string-keyed map is a Put on the map keyed by service, address and device |
| GrantLaws.RemovalsSimulate | core/go/store.go:222-284 | so are both revocations and the sweep |
| GrantLaws.AllowedSimulates | core/go/store.go:134-156 | a request is answered from its own slots |
| GrantLaws.SweepOnlyUncovers | core/go/store.go:272-284 | a sweep never withdraws access at any later time, changes no cookie-less answer, and changes another exactly where an expired device record was shadowing a live one |
| GrantLaws.PutIsPrivate | core/go/store.go:100-125 | a device-bound Put leaves every other device's answer as it was |
| GrantLaws.OneRecordPerDevice | core/go/store.go:100-125 | whatever other Puts, revocations and sweeps fall between its knocks, of a device's records only its latest knock's is in the store, exactly until something removes it |
| GrantLaws.KnocksStayAtHome | core/go/store.go:100-125 | and everywhere else the store is as if the device had never knocked |
| SingleUseStores.NonceStore.Claim | core/go/store.go:309-317 | it succeeds exactly when no unexpired record is there, and then records now + ttl, and changes nothing else |
| SingleUseStores.NonceStore.Sweep | core/go/store.go:319-330 | all and only the expired records go |
| SingleUseStores.EnrollStore.Consume | core/go/store.go:371-383 | the code is gone afterwards and was returned exactly if it was there with now < exp |
| SingleUseStores.EnrollStore.Peek | core/go/store.go:360-369 | the code is returned exactly if it is there with now < exp, and stays |
| SingleUseStores.EnrollStore.Sweep | core/go/store.go:385-396 | all and only the expired codes go |
| Registries.SiteScopedRegistry | core/go/registry.go:86-112 | a registry with one list under "*" gives it to every service; any other never falls back to it |
| Registries.AuthorizesExactly | core/go/registry.go:120-139 | a kid is authorized exactly when it is registered under HMAC-SHA256, with expires 0 or later than now, and listed; each earlier refusal is named for exactly its cause |
| Registries.AllowedForService | core/go/registry.go:86-107 | a kid is allowed exactly when the list of the service, or the only list under "*", has it or "*" |
| Knock.ProofInputsEqual | core/go/crypto.go:67-69 | two proof inputs are equal exactly when canonical service, kid and nonce are |
| Knock.ProofBindsItsInputs | core/go/crypto.go:74-82 | a proof passes for nothing but what it was built for |
| Knock.DomainsSeparate | core/go/crypto.go:67-98 | no proof input is ever a nonce input |
| Knock.NonceInputsEqual | core/go/crypto.go:90-98 | two nonce inputs are equal exactly when stamp, randomness, canonical service and canonical address are |
| Knock.NonceRoundTrip | core/go/crypto.go:101-143 | an issued nonce verifies for another request exactly when both canonical forms agree and 0 <= now - ts < ttl |
| Knock.StaleIsExact | core/go/crypto.go:121-143 | for all 64-bit stamps, clocks and lifetimes the machine test is the integer window |
| Knock.HexInjective | core/go/store.go:49-52 | hexadecimal digests are equal only for equal digests |
| Pae.RoundTrip | core/go/pae.go:33-45 | every list with lengths and count below 2^63 is recovered from its encoding |
| Pae.Injective | core/go/pae.go:33-45 | so equal encodings mean equal lists |
| Pae.EncodeLoop | core/go/pae.go:33-45 | the appending loop builds the encoding |
| Pae.Le64InPlace | core/go/pae.go:19-27 | the buffer with its top bit cleared is the encoded length |
| Pae.Le64Value | core/go/pae.go:19-27 | it reads back as the length below 2^63 |
| Pae.Le64Collides | core/go/pae.go:22-22 | lengths 2^63 apart encode alike, so the bound is needed |
| Base64.RoundTrip | core/go/crypto.go:25-46 | decoding undoes encoding, with any padding behind |
| Base64.Injective | core/go/crypto.go:25-25 | two byte strings share a text only if equal |
| Base64.AlphabetIs | core/go/crypto.go:25-42 | the 64 characters, in order |
| Base64.B64uDecodeLoop | core/go/crypto.go:33-46 | the alphabet loop refuses exactly what the decoder refuses |
| ServerNames.CanonServerNameGo | core/go/canon.go:30-99 | the loops and reassignments compute the canonical name |
| ServerNames.TrimDotsAndSpace | core/go/canon.go:46-56 | the fixpoint loop ends, in the host without leading spaces and without its trailing run of spaces and dots |
| ServerNames.PortAgrees | core/lua/canon_port_check.py:166-190 | the byte-level port computes the same name on every byte string |
| ServerNames.CanonIdempotent | core/go/canon.go:58-88 | a canonical name canonicalizes to itself, for every byte string |
| ServerNames.BracketsAreIgnored | core/go/canon.go:58-75 | a literal has the same name with brackets and anything behind them as without |
| ServerNames.PortIsIgnored | core/go/canon.go:72-88 | a colon-free host has the same name with any port |
| NameLaws.CaseIsIgnored | core/go/canon.go:30-38 | names that differ only in the case of ASCII letters have one canonical form |
| NameLaws.NoCapitals | core/go/canon.go:30-38 | a canonical name has no byte from A to Z |
| NameLaws.SurroundingsAreIgnored | core/go/canon.go:46-56 | ASCII blanks before a name, and blanks and dots behind it, make no difference |
| NameLaws.CanonicalNamesStay | core/go/canon.go:58-88 | the names left as they are are exactly those with no capital, no blank at either end, no dot at the end, no bracketed literal and no port |
| IpAddresses.ParseGroups | core/lua/canon_port_check.py:95-103 | the conversion loop reads exactly the groups the specification reads, with the same errors |
| IpAddresses.Compress | core/lua/canon_port_check.py:106-121 | the scan prints the specified text |
| IpAddresses.BestRunIsLeftmostLongest | core/lua/canon_port_check.py:106-121 | the run it picks is the leftmost of the longest zero runs |
| IpSpellings.DigitTable | core/lua/canon_port_check.py:106-121 | the sixteen digits texts are printed with, in order |
| IpSpellings.Ipv4Exactly | core/lua/canon_port_check.py:42-52 | a text reads as IPv4 exactly when it is the plain decimal quad of four octets, and as those octets |
| IpSpellings.Ipv6Exactly | core/lua/canon_port_check.py:55-103 | a text without a dot reads as eight groups exactly when, in small letters, it spells them: eight hexadecimal groups, or fewer around one "::" that stands for the missing zeros |
| IpSpellings.DottedTailReads | core/lua/canon_port_check.py:57-71 | any dot-free head ending in a colon, with a.b.c.d behind it, reads as with the hexadecimal groups a*256+b and c*256+d behind it |
| IpSpellings.DottedTailRefusals | core/lua/canon_port_check.py:57-71 | tails that are not four numerals, have a leading zero or an octet over 255 are refused, each with its error; every other tail is a plain decimal quad |
| IpSpellings.HexCaseIsIgnored | core/lua/canon_port_check.py:55-56 | capital and small hexadecimal digits read, and are canonicalized, alike |
| IpSpellings.MappedIsIpv4 | core/lua/canon_port_check.py:124-129 | an IPv4-mapped address, dotted or in hexadecimal, has the canonical form of the IPv4 address, at any prefixes |
| IpAddresses.MaskInPlace | core/lua/canon_port_check.py:124-140 | the list update masks group by group |
| IpRoundTrip.Ipv6RoundTrip | core/lua/canon_port_check.py:55-121 | parsing inverts printing for all eight 16-bit groups |
| IpRoundTrip.CompressIsRfc5952 | core/lua/canon_port_check.py:106-121 | the text is the form of section 4 of RFC 5952 |
| IpRoundTrip.FilterDropsNothing | core/lua/canon_port_check.py:55-103 | on every address past the colon checks the empty-piece filter drops nothing |
| IpRoundTrip.CanonIpMeaning | core/lua/canon_port_check.py:143-152 | canon_ip is parse, collapse, floor, print, with the same errors |
| IpRoundTrip.AddrRoundTrip | core/lua/canon_port_check.py:42-121 | a printed address, of either family, reads back as itself |
| IpRoundTrip.CanonIpTwice | core/lua/canon_port_check.py:143-152 | canonicalizing twice is canonicalizing once at the shorter prefixes |
| IpRoundTrip.CanonIpIdempotent | core/lua/canon_port_check.py:143-152 | canon_ip is idempotent |
| IpRoundTrip.CanonIpEqual | core/lua/canon_port_check.py:143-152 | two outputs are equal exactly when the collapsed, masked addresses are |
| IpRoundTrip.CanonIpv6InPlace | core/lua/canon_port_check.py:124-140 | the list-updating form computes canon_ipv6 |
| IpMasking.MaskIsFloor | core/lua/canon_port_check.py:124-140 | masking eight groups floors the 128-bit number to a multiple of 2^(128-prefix) |
| IpMasking.QuadMaskIsFloor | core/lua/canon_port_check.py:30-39 | masking four octets floors the 32-bit number |
| IpMasking.MaskTwice | core/lua/canon_port_check.py:124-140 | masking at p then q is masking at the shorter |
| IpMasking.MaskNeverMaps | core/lua/canon_port_check.py:124-140 | a non-mapped address never becomes IPv4-mapped by masking |
| UriPaths.CleanUriPathIsClean | authorizer/realip.go:265-301 | the result is absolute with no empty, "." or ".." segment, or "/" |
| UriPaths.CleanUriPathIdempotent | authorizer/realip.go:265-301 | cleaning twice is cleaning once, on every byte string |
| UriPaths.DecodeCountIsIrrelevant | authorizer/realip.go:265-301 | on every URI not refused, percent-decoding any number of times before cleaning gives the same path |
| UriPaths.ParentTakesBack | authorizer/realip.go:300-300 | an ordinary segment followed by ".." is as if neither were there, wherever they stand |
| UriPaths.LeadingParentIsDropped | authorizer/realip.go:300-300 | a ".." at the front is dropped |
| UriPaths.DotsVanish | authorizer/realip.go:300-300 | "." and empty segments vanish wherever they stand |
| UriPaths.OrdinarySegmentsStay | authorizer/realip.go:300-300 | a path of ordinary segments stays as it is; the four laws settle every path |
| UriPaths.UriSegments | authorizer/realip.go:265-301 | the laws of segments hold of whole request paths |
| UriPaths.RelativeIsRooted | authorizer/realip.go:297-299 | a path without a leading slash is cleaned as with one |
| UriPaths.EscapeDecodes | authorizer/realip.go:269-275 | %XY decodes to the byte of those two digits, in either case |
| UriPaths.BadEscapeFails | authorizer/realip.go:269-275 | a percent sign without two hexadecimal digits behind it makes decoding fail |
| UriPaths.PlainStays | authorizer/realip.go:269-275 | every other character stands for itself |
| UriPaths.DecodedMeansTheSame | authorizer/realip.go:269-296 | a path is cleaned as its decoding, or is "/" when it has none or the decoding holds "%", "?" or "#" |
| UriPaths.QueryIsCut | authorizer/realip.go:266-268 | whatever follows "?" or "#" makes no difference |
| UriPaths.HiddenMeaningIsRoot | authorizer/realip.go:276-296 | an escaped "%", "?" or "#" anywhere makes the path "/" |
| Crx3.VarintRoundTrip | extension/crx3.py:48-71 | reading a varint inverts writing it, for every number and offset |
| Crx3.DistinctFieldsRoundTrip | extension/crx3.py:58-81 | distinctly numbered fields come back, all and only |
| Crx3.PackRoundTrip | extension/crx3.py:140-177 | verify slices out the key, signature, signed header, payload and signed bytes that pack laid out |
| Crx3.VarintLoop | extension/crx3.py:48-55 | the writing loop emits the specified bytes |
| Crx3.ReadVarintLoop | extension/crx3.py:63-71 | the accumulating loop reads the specified number |
| Crx3.ReadFieldsLoop | extension/crx3.py:74-81 | the dict-filling loop reads the specified fields |
| RateLimiters.AnswersAreIdeal | core/go/ratelimit.go:58-96 | under a non-decreasing clock every answer is that of an ideal limiter holding only live windows, wherever sweeps fall, and the table stays within its bound |
| RateLimiters.AdmissionBound | core/go/ratelimit.go:58-79 | any 60k seconds admit at most (k+1) * perMin - 1 attempts per key |
| RateLimiters.NotThrottledEarly | core/go/ratelimit.go:58-79 | under a non-decreasing clock and with room in the table, an attempt is admitted whenever fewer than perMin were made on its key in the last 60 seconds |
| RateLimiters.NewWindowAdmits | core/go/ratelimit.go:58-79 | an attempt at least 60 seconds after its window began is admitted |
| RateLimiters.RateLimiter.Allow | core/go/ratelimit.go:58-79 | answer and table are those of the specified call |
| RateLimiters.RateLimiter.Sweep | core/go/ratelimit.go:81-96 | all and only the dead windows go, and their number is returned |
| RateLimiters.RateKeyNames | core/go/ratelimit.go:47-53 | two callers share a bucket exactly when scope and address (IPv6 by /64) agree |
| RealIp.PrependingIsPowerless | authorizer/realip.go:84-106 | nothing put in front of a chain that names a client changes who it names |
| RealIp.RightmostDecides | authorizer/realip.go:84-106 | the walk ends at the rightmost entry that is no trusted proxy |
| RealIp.OneMoreEntry | authorizer/realip.go:84-106 | one more entry on the right is stepped over when it does not read as an address or lies in a configured prefix, and otherwise decides |
| RealIp.WhoIsBelieved | authorizer/realip.go:70-106 | a peer outside the configured prefixes is the client itself whatever it forwards; one inside names the rightmost readable entry outside them; the answer is that address floored and printed |
| RealIp.ContainsExactly | authorizer/realip.go:46-53 | a prefix covers exactly the addresses of its family numbered from its base to its base + 2^(width - bits) - 1 |
| RealIp.ContainsAtTheEnds | authorizer/realip.go:46-53 | /0 covers the whole family, a full-width prefix one address |
| RealIp.ForgedHeadersArePowerless | authorizer/realip.go:70-126 | header lines or text in front change nothing from a trusted peer whose chain names a client, and nothing at all from another |
| RealIp.NoClientIsDenied | authorizer/realip.go:84-106 | a trusted peer whose chain names nobody is denied |
| RealIp.ClientIsCanonical | authorizer/realip.go:70-106 | the client address is the source's, masked and printed, and canonicalizes to itself; without an address there is a denial |
| RealIp.ClientIpLoop | authorizer/realip.go:70-106 | the loops and branches compute the client address |
| Targets.AgreeOrDeny | authorizer/realip.go:203-238 | with named hosts the target is resolved exactly when all host claims and all path claims agree, and is then what they say |
| Targets.ResolvedExactlyWhenSettled | authorizer/realip.go:203-238 | on any conventions, the exact condition of success |
| Targets.OrderIsIrrelevant | authorizer/realip.go:203-238 | the order of the conventions makes no difference |
| Targets.OneMoreConvention | authorizer/realip.go:203-238 | one more convention, claiming host, path, both or neither, changes nothing if it agrees with those that claim the same and denies if it does not |
| Targets.UntrustedConventionsAreIgnored | authorizer/realip.go:203-210 | from an untrusted peer the target is the canonical host and cleaned path of the request itself, whatever the conventions say |
| Targets.EmptyClaimDependsOnOrder | authorizer/realip.go:214-220 | with a convention whose host is a lone dot the order decides: resolved when it comes first, denied when it comes last |
| Targets.ResolveTargetLoop | authorizer/realip.go:203-238 | the folding loop computes the specified answer |
| Configs.Config.Finalize | authorizer/config.go:104-210 | the defaults and clamps with their values (128, 60, 3600, 86400, 300, 604800), then a verdict that depends on the content alone and covers the token, name-collision and mode checks (lines 159 to 208), not those of admin_token and trusted_proxies: accepted exactly when acceptable, with services filed under canonical names |
| Configs.AcceptsExactly | authorizer/config.go:159-208 | the checks pass exactly when every token has its own kid and a decodable secret of at least 16 bytes, no two services share a canonical name, and every mode and binding is one of those there are |
| Configs.FindCollision | authorizer/config.go:183-191 | a collision is found exactly when two names canonicalize alike |
| Configs.CanonicalFormIsUnique | authorizer/config.go:192-195 | whatever the walk, one canonical form |
| Configs.CollisionLeavesNoForm | authorizer/config.go:176-191 | with a collision of different policies there is none |
| Configs.TokensFaultMeans | authorizer/config.go:159-175 | exactly the lists of good tokens with distinct kids pass |
| Configs.RegistrySaysTheConfig | authorizer/config.go:214-236 | the registry of an accepted configuration holds exactly its tokens and allow-lists |

## Left out

- HTTP plumbing: JSON decoding, cookie syntax, response bodies and headers, failure modes, metrics, signals and listeners are I/O; a handler here ends in an answer.
- handleRegister, which serves a fixed page; and handleChallenge as a step of the machine, since it changes no state: its outcome is a function of the state it reads.
- The rate limiter in the handlers: its verdict is an arbitrary input of the steps; the limiter itself is proved on its own, with the window table the only state.
- resolve(): what it found is an arbitrary input of the steps; RealIp and Targets prove what it finds. Which headers make a forwarding convention (forwardedViews) enters as a list of optional host and path claims, and reading one list entry (quotes, ports, zones) as a function parameter.
- Servers.Server: its handlers are proved undisturbed, one after another, from any state that satisfies the machine's invariant, other requests in flight included; requests that interleave, or a reload between a handler's own reads, are a matter of Gate and GateTheorems.
- Integer width: expiry sums, counters and window starts are unbounded; only nonce freshness and length encoding model 64 bits.
- GrantStore Get and List, and the admin list of grants: read-only views of the map.
- finalize's checks of admin_token and trusted_proxies, and its trimming of uri_prefix: string handling with no law behind it. The admin bearer check is left out with them.
- TokenConfig holds the secret already decoded, None where the text is not base64url.
- Configs.Config.Finalize: takes the naming function as a parameter, which the source fixes to CanonServerName.
- The mux's own redirects (muxWouldRedirect) and library internals of netip, url and base64: the address code stands on the visible port, decoding and cleaning on a model written out here.
- The Python port's Unicode-aware text handling: the model works on bytes, as the Go code does.
- The vendored copy of the core under adapters, the Caddy and Traefik handlers, the extension's UI and the BunkerWeb pages.
- Timing: equal work for an unknown kid is modelled as the dummy secret being used, not as time.
- GateTheorems.NonceClaimedOnce: needs its two conditions on reloads and sweeps; without either it is false of the code, and ClaimedTwiceMeans is the statement for all runs.
