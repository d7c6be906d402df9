# A verified model of the home server's gateway and policy tools

This project models the parts of the repository that carry its guarantees, and proves those guarantees in Dafny 4.11.
Nothing here is executed: `dafny verify dfyconfig.toml` checks every proof.

| area | files | the main results |
|---|---|---|
| signatures | `Modular`, `Fermat`, `Edwards`, `Associativity`, `Points`, `Bytes`, `Bits`, `Encoding`, `Ed25519`, `Curve25519` | the curve's addition law is a commutative group law; the code's extended-coordinate addition and double-and-add loop compute it; compression round trips; every signature verifies, for its own message; the second half of a signature is unique |
| filter lists | `FilterDiff`, `FilterChanges` | a change is applied whole or taken back, with stops of the process anywhere |
| credentials | `Throttle`, `People`, `PeopleRuns`, `PeopleTraces`, `PeopleCodes`, `PeopleSessions`, `PeopleLimits` | dead phones stay dead, codes work once and rest on an issue to the same person, twelve guesses per window, sessions live exactly to their limit |
| timed runs | `TimedRuns` | a plug switched on for a run has an armed run that is not deleted before the plug is reported off, with the exact exceptions |
| relay | `Relay` | the token bucket's bound, no signature admitted twice, ten failures a minute |
| children's policy | `ChildPolicy`, `ChildRules`, `ChildCutover` | exactly which names a child may look up; the managed block among hand-written rules; a switch of sources that undoes itself |
| releases, audit, schedules | `Releases`, `Audit`, `Windows` | roll-forward with a manifest that verifies; tamper evidence; interval merging |

Code that changes state is a class whose methods are proved against a function of the old state, or against a relation
between old and new state; what the source promises is then proved about those, over whole runs. Calls into AdGuard, Home
Assistant, the schedule service and the file system answer arbitrarily (`:= *`), may fail, may fail after they took effect,
and, in the filter lists and the timed runs, may be the last thing the process does. Where a failure may be reported, a
ghost record of what was answered says when it is.

## Assumptions

- Ed25519: P is prime, D is not a square modulo P, Q times the base point is neutral (`Curve25519.Assumed`); Q prime for
  uniqueness. SHA-512 is any function to 64 bytes. That `_SQRT_M1` squares to -1 and that the addition is associative are
  proved.
- Filter lists: URLs are unique, nobody else writes AdGuard's lists, AdGuard lists what it was given and
  never gives an id twice.
- Credentials: the clock does not go back and is read once in an operation (twice in sign-in), random ids and tokens do not repeat, a drawn one-time-code seed is one that nobody has
  had. The hash of a token stands for the token. Each operation runs whole, as the source's do on the event loop.
- Timed runs: one request per device at a time; the service gives each run an id of its own.
- Relay: readings of the clock do not go back in lock order, header values have no line breaks, and no request admitted
  before has the same signature for another text; the failure limit is for one request at a time.
- Children's policy: `sorted()` lists a set's elements once each. Cutover: no other writer in between; what the files and
  the service's snapshot render to is given by functions.
- Releases: JSON encoding and parsing round trip; one caller at a time. Audit: canonical texts tell entries apart;
  nothing is assumed of the hash, a collision is a named alternative.

## Where code and documentation differ

- `ed25519.py:45` compares the unreduced `x2` with 0, so y = P-1 with the sign bit is accepted although section 5.1.3 of RFC
  8032 rejects it: `Encoding.CompressDecompress` excludes exactly that encoding, `Encoding.BadEncodingAccepted` shows it.
- `filterlists.py:613` stores an empty snapshot for a held refresh; a stop before it is finished makes the recovery remove
  every list: `FilterChanges.HeldStopExample`.
- `filterlists.py:464-479`: an exception that is not an AdGuard error (a broken answer, a malformed DNS reply) leaves the restore
  with the row running and the gateway serving; two rows can run, and a later recovery takes back a change applied in between:
  `FilterChanges.EscapeExample`. `FilterChanges.EveryRun` shows that these two are exactly what breaks the invariant.
- `filterlists.py:464-465` stores `reverted` also when the restore failed; the promise is therefore tied to the revert step.
- `server.py:44` says a row that cannot be recovered stays `running`; the code (`filterlists.py:493-495`) ends it as `failed`,
  and it is not retried.
- `people.py` counts a phone as active while `expires > now` but accepts its token while `expires >= now`: five active phones
  can become six at that tie, and only there; the limit of twenty likewise (`PeopleLimits.LimitKept`, `PeopleLimits.SixPhones`).
- Some sign-in attempts end in an uncaught exception before they are recorded, so the throttle never counts them: a code that is
  not text (`people.py:274`) or whose digits are not ASCII (`auth.py:80-84`) after a right password, a password that cannot be
  encoded for an account without one (`people.py:270`), an account that cannot be stored: `PeopleRuns.RecordedExactly`.
- `people.py:171` tells an address to wait until its oldest failure has left the window; with failed enrolments more than twenty
  may be counted, and the wait is too short: `Throttle.AddressOpens`, `Throttle.ToldTooLittle`.
- `relay.py:507`: a time stamp that no float can hold, with any signature, and a signature in time that is not ASCII end in an
  uncaught exception and are not counted as failures: `Relay.Front.CheckAuth`.
- `db.py:137-145` raises at a stored value that is not JSON, instead of naming its row: `Audit.Log.Verify`.
- `childsnapshot.py:124-133` swallows a failure to write the status, so the cutover can compare with the hash of an older block:
  `ChildCutover.StaleHash`.
- `childpolicy.py` promises that deny entries are always blocked; a denied name below an allowed one is open:
  `ChildPolicy.DeniedExactly`, `ChildPolicy.DeniedYetOpen`.
- `child-cutover.py` promises that every failure rolls back; without a `source.conf` before the switch the mode stays
  `snapshot`: `ChildCutover.Host.Undo`.
- `core.py` treats a failed turn_on as not carried out; when only its answer was lost, the run is withdrawn with the plug on, and
  the comment at 298-300 does not hold: `TimedRuns.Gateway.StartRun`, `TimedRuns.LostAnswer`.
- `core.py:368-369` promises to read back before a run is closed; when the plug is off in memory already, `switch` returns early
  (197-198) and nothing is read back, so a run can be closed on the strength of an off older than its switch-on. These two
  are the only ways a switch-on is left uncovered: `TimedRuns.Gateway.Serve`, `TimedRuns.StaleOff`.

## Model

| member | source | states |
|---|---|---|
| Fermat.InverseCorrect | portal/gateway/gw/ed25519.py:17-18 | `pow(x, P-2, P)` is the inverse of every non-zero residue, and 0 for 0 (from Fermat's little theorem, which is proved) |
| Fermat.SqrtM1Correct | portal/gateway/gw/ed25519.py:10 | `_SQRT_M1` squares to -1 for every prime congruent to 5 modulo 8 |
| Fermat.RootOfSquare | portal/gateway/gw/ed25519.py:48-50 | the power `(P+3)//8` of a square squares to that square or to its negative |
| Edwards.NoPole | portal/gateway/gw/ed25519.py:21-25 | no denominator of the affine addition law is ever zero on the curve: the law is total |
| Edwards.SumOn | portal/gateway/gw/ed25519.py:21-25 | the affine sum of two curve points is a curve point |
| Edwards.SumCommutes | portal/gateway/gw/ed25519.py:21-25 | the addition law is commutative |
| Edwards.SumNeutral | portal/gateway/gw/ed25519.py:21-25 | (0, 1) is its identity |
| Edwards.SumNegate | portal/gateway/gw/ed25519.py:21-25 | (-x, y) is the inverse of (x, y) |
| Associativity.SumAssociates | portal/gateway/gw/ed25519.py:21-25 | the addition law is associative on all curve points (proved, not assumed) |
| Points.AddCorrect | portal/gateway/gw/ed25519.py:21-25 | `_add` of two extended points stands for the affine sum of the points they stand for |
| Points.AddKeepsXYZT | portal/gateway/gw/ed25519.py:21-25 | `_add` gives XY = ZT modulo P for every input |
| Points.MulLoop | portal/gateway/gw/ed25519.py:28-35 | the double-and-add loop with its three variables computes the specified multiple |
| Points.MulCorrect | portal/gateway/gw/ed25519.py:28-35 | `_mul(s, pt)` stands for the s-fold sum of the point, for every s >= 0 |
| Points.EqualCorrect | portal/gateway/gw/ed25519.py:38-39 | `_equal` holds exactly for representations of the same affine point |
| Points.TimesAdd | portal/gateway/gw/ed25519.py:28-35 | [m+n]A = [m]A + [n]A |
| Points.TimesTimes | portal/gateway/gw/ed25519.py:28-35 | [m]([n]A) = [mn]A |
| Points.TimesModulo | portal/gateway/gw/ed25519.py:104-104 | multiples of a point of order dividing q depend only on the factor modulo q |
| Points.ExactOrder | portal/gateway/gw/ed25519.py:118-121 | for prime q and a point that is not neutral, [n]A is neutral only when q divides n |
| Points.TimesInjective | portal/gateway/gw/ed25519.py:118-121 | two reduced scalars with the same multiple of a point of prime order are equal |
| Encoding.RecoverComplete | portal/gateway/gw/ed25519.py:42-55 | `_recover_x` finds the x of every curve point from its y and the parity of x |
| Encoding.RecoverSound | portal/gateway/gw/ed25519.py:42-55 | whatever `_recover_x` returns satisfies the curve equation and has the parity asked for, except x = P for y = P-1 with the sign bit |
| Encoding.CompressCorrect | portal/gateway/gw/ed25519.py:63-66 | the bytes of `_compress` read, little-endian, as y + 2^255 for odd x of the affine point, whatever the representation |
| Encoding.DecompressCompress | portal/gateway/gw/ed25519.py:63-76 | decompressing a compressed curve point gives back the same affine point |
| Encoding.DecompressSound | portal/gateway/gw/ed25519.py:69-76 | every accepted encoding stands for a curve point, and is that point's encoding unless it is y = P-1 with the sign bit |
| Encoding.CompressDecompress | portal/gateway/gw/ed25519.py:63-76 | compressing an accepted encoding gives it back if and only if it is not y = P-1 with the sign bit |
| Encoding.BadEncodingAccepted | portal/gateway/gw/ed25519.py:45-54 | y = P-1 with the sign bit is accepted with x = P, and compresses to other bytes |
| Ed25519.VerifyMeans | portal/gateway/gw/ed25519.py:108-121 | `verify` accepts exactly when lengths, both encodings and S < Q are right and [S]B = R + [h]A among affine points, h being SHA-512 of R, key and message modulo Q |
| Ed25519.MultipleDecodes | portal/gateway/gw/ed25519.py:93-105 | the encoding of every multiple of the base point is accepted as that multiple |
| Ed25519.SignedVerifies | portal/gateway/gw/ed25519.py:79-123 | for every seed and message: 32-byte seeds sign so that `verify` accepts under their public key, other lengths are refused by both functions |
| Ed25519.SecondHalfUnique | portal/gateway/gw/ed25519.py:117-121 | with a base point of prime order, key, message and R determine the accepted S |
| Ed25519.MessageBound | portal/gateway/gw/ed25519.py:89-121 | a signature of one message is accepted for another exactly when the two hash to the same number modulo Q, for a key of order Q |
| Ed25519.SignMeans | portal/gateway/gw/ed25519.py:79-105 | the key is [a]B and the signature [r]B with r + h a modulo Q: a from the first half of the seed's hash, r from the second half and the message |
| Ed25519.ClampBits | portal/gateway/gw/ed25519.py:79-86 | the secret scalar has bits 3 to 253 of that half, bit 254 set and all others clear |
| Ed25519.SignedBinds | portal/gateway/gw/ed25519.py:93-121 | what a seed's key signs is accepted for another message exactly when the two hash alike: such a key is of order Q |
| Bytes.FromJoined | portal/gateway/gw/ed25519.py:46-66 | byte strings are read little-endian: the first bytes are the low ones |
| Ed25519.HypothesesMet | portal/gateway/gw/ed25519.py:7-10 | the hypotheses of these theorems can be met: a small curve with a base point of prime order does |
| Curve25519.FormulasGive | portal/gateway/gw/ed25519.py:8-8 | the defining formulas of D, `_GY` and `_GX` compute the unique values that satisfy their equations |
| Curve25519.Values | portal/gateway/gw/ed25519.py:7-9 | the decimal values of edwards25519 satisfy those equations and the curve equation |
| Curve25519.SourceSound | portal/gateway/gw/ed25519.py:58-60 | at import `_recover_x(_GY, 0)` finds the base point, and the module's constants meet the hypotheses of the generic theorems |
| Curve25519.SourceSignaturesVerify | portal/gateway/gw/ed25519.py:93-123 | the round trip of signing and verifying, for the constants of the module |
| Curve25519.SourceSecondHalfUnique | portal/gateway/gw/ed25519.py:117-121 | uniqueness of S, for the constants of the module |
| Curve25519.SourceSignatureBinds | portal/gateway/gw/ed25519.py:93-121 | the same, for the constants of the module |
| FilterDiff.DiffOps | portal/gateway/gw/filterlists.py:394-411 | the two loops of `diff_ops` append exactly the specified operations |
| FilterDiff.DiffReaches | portal/gateway/gw/filterlists.py:394-411 | run in order, the operations never meet an inapplicable one and turn the current url -> (name, enabled) map into the desired one; with `only_url` that list matches and all others are untouched |
| FilterDiff.DiffEmpty | portal/gateway/gw/filterlists.py:394-411 | the difference is empty exactly when there is nothing to change |
| FilterChanges.FilterLists.ApplyOps | portal/gateway/gw/filterlists.py:413-421 | `apply` is recorded as passed only when every operation was answered and the lists are the operations applied in order |
| FilterChanges.FilterLists.Try | portal/gateway/gw/filterlists.py:443-459 | the verdict is positive exactly when baseline, every operation, probe, replica and - when asked for - parity were called in this order and all were fine; otherwise the first call that was not is the last one; the recorded steps say the same |
| FilterChanges.FilterLists.CheckAll | portal/gateway/gw/filterlists.py:451-456 | probe, replica and parity are asked for in order, each after the one before passed, and recorded with the verdict given |
| FilterChanges.FilterLists.Restore | portal/gateway/gw/filterlists.py:469-479 | a restore recorded as passed leaves the snapshot's names and enabled flags, and one is recorded as passed exactly when AdGuard answered every call; an AdGuard error is recorded, any other exception leaves it |
| FilterChanges.FilterLists.Change | portal/gateway/gw/filterlists.py:437-467 | one change with a stop possible anywhere: busy and unreachable leave nothing; applied means every call was fine, in order, and the lists are the operations applied to the snapshot; reverted means some call was not, and the lists are back when AdGuard answered everything after it; an exception that escapes the restore leaves the row running |
| FilterChanges.FilterLists.HoldRefresh | portal/gateway/gw/filterlists.py:610-614 | a held refresh begins its row with an empty snapshot and finishes it as held |
| FilterChanges.FilterLists.Recover | portal/gateway/gw/filterlists.py:481-495 | start-up recovery handles every running row in turn: reverted rows are back at their snapshot, the others are failed, one for each trouble with AdGuard; none stays running |
| FilterChanges.FilterLists.RevertLast | portal/gateway/gw/filterlists.py:618-637 | reverting goes back to the snapshot of the list's last applied change, for the URL of the list that has the id (or had it in the snapshot) and for that list only, through the pipeline; without such a URL, or with nothing to do, it is refused |
| FilterChanges.FilterLists.Add | portal/gateway/gw/filterlists.py:504-530 | adding a list, with the readings before and after the change: applied means the list is there, under a new id that the row gets, so that the way back by `revert` is open; otherwise as for every change |
| FilterChanges.AddReverted | portal/gateway/gw/filterlists.py:618-637 | reverting an addition by the new list's id aims at exactly the lists before it |
| FilterChanges.EventKeeps | portal/gateway/gw/filterlists.py:413-530 | a change, held refresh, id of an added list or recovery keeps - at most one row runs, it stores the lists of the moment before it, and none runs while requests are served - if and only if no exception escapes a restore and no held refresh is cut in two |
| FilterChanges.RebootKeeps | portal/gateway/gw/filterlists.py:481-495 | a recovery that ends without a failed row, as it does when AdGuard answers everything, gives back the lists as they were when the process was last up |
| FilterChanges.EveryRun | portal/gateway/gw/filterlists.py:413-495 | over every run, with stops anywhere also during recovery, the same equivalence; and in the runs without the two, every event keeps its promise |
| FilterChanges.TwoRunningExample | portal/gateway/gw/filterlists.py:464-479 | a concrete run in which escaped exceptions leave two running rows |
| FilterChanges.EscapeExample | portal/gateway/gw/filterlists.py:464-495 | a concrete run in which the recovery of such a row takes back a later applied change |
| FilterChanges.HeldStopEmptiesLists | portal/gateway/gw/filterlists.py:613-614 | recovering a held refresh that was cut short removes every list |
| FilterChanges.HeldStopExample | portal/gateway/gw/filterlists.py:613-614 | a concrete run in which this happens |
| Throttle.WindowSpaced | portal/gateway/gw/people.py:166-177 | in any 900 seconds the k-th failed check of an account comes at least the delay for k after the one before |
| Throttle.NextFailure | portal/gateway/gw/people.py:166-177 | a recorded failed check comes at least the delay of the earlier ones in its window after the last of them |
| Throttle.ThrottledExactly | portal/gateway/gw/people.py:160-177 | the throttle lets a check through exactly when fewer than 20 failures of the address are younger than 900 seconds, and at most three of the account are, or the newest of n lies min(2^(n-3), 900) seconds back |
| Throttle.TwelvePerWindow | portal/gateway/gw/people.py:166-177 | any 900-second window holds at most 12 failed credential checks of one account |
| Throttle.TwentyPerAddress | portal/gateway/gw/people.py:168-171 | any 900-second window holds at most 20 failed credential checks from one address |
| Throttle.TenEnrolments | portal/gateway/gw/people.py:363-375 | and at most 10 failed enrolments |
| Throttle.RetryAfterEnough | portal/gateway/gw/people.py:172-177 | the waiting time told with an account delay is enough when no further failure comes, and at most a second too long |
| Throttle.AddressOpens | portal/gateway/gw/people.py:166-171 | a refused address is let through, without a further failure, exactly when its twentieth newest counted row has left the window; the waiting time told is enough when twenty rows are counted |
| Throttle.ToldTooLittle | portal/gateway/gw/people.py:166-171 | a log that the throttle and the enrolment limit allow, after which the told 101 seconds are not enough: 21 rows are counted |
| People.Tables.PhonePrincipal | portal/gateway/gw/people.py:395-408 | the code equals the specified token check, which slides the expiry at most once a minute |
| People.Tables.UpdateKeyPrincipal | portal/gateway/gw/people.py:226-236 | an update key is granted under the token's rules, without sliding |
| People.Tables.MintUpdateKey | portal/gateway/gw/people.py:220-224 | a new update key takes the place of the old one |
| People.Tables.SignOut | portal/gateway/gw/people.py:334-337 | logout closes the one session |
| People.Tables.SessionPrincipal | portal/gateway/gw/people.py:309-332 | the code equals the specified session check with idle and absolute limits, deleting what is over |
| People.Tables.Close | portal/gateway/gw/people.py:239-242 | app_logout revokes the phone and closes exactly its sessions |
| People.Tables.RevokeAs | portal/gateway/gw/people.py:430-440 | only an admin or the owner revokes a phone |
| People.Tables.PatchPerson | portal/gateway/gw/people.py:56-94 | the last active admin stays; deactivating revokes every phone and closes every session; taking web login away closes the web sessions only |
| People.Tables.RevokeAll | portal/gateway/gw/people.py:87-89 | the loop of patch revokes exactly the person's phones |
| People.Tables.SignIn | portal/gateway/gw/people.py:258-284 | the credential check: throttle, password, one-time code, active with web login; every verdict is recorded; a refusal by the throttle, and an attempt whose check raises (a code that is not text or not ASCII, a password that cannot be encoded, an account that cannot be stored), are not |
| People.Tables.SignInWeb | portal/gateway/gw/people.py:179-187 | login opens a session with the absolute limit of a week |
| People.Tables.SignInDevice | portal/gateway/gw/people.py:189-209 | app_login: the same check, then the device limits, then a token and an update key |
| People.Tables.IssueLink | portal/gateway/gw/people.py:97-109 | a new setup link spends the person's earlier ones |
| People.Tables.OpenSetup | portal/gateway/gw/people.py:117-124 | the seed is drawn once per link |
| People.Tables.CompleteSetup | portal/gateway/gw/people.py:126-149 | a live link stores its proved seed, or none for people who are not admins, is used up, and the person's sessions close |
| People.Tables.ForgetCredentials | portal/gateway/gw/people.py:151-157 | credentials and sessions of the person are forgotten |
| People.Tables.CreatePerson | portal/gateway/gw/people.py:42-54 | a new id, active, with web login by default for admins |
| People.Tables.IssueCode | portal/gateway/gw/people.py:345-359 | a new enrolment code spends the person's earlier ones |
| People.Tables.TradeCode | portal/gateway/gw/people.py:361-392 | enrol: a live unused code is traded for a device within the limits |
| People.Tables.OpenAppSession | portal/gateway/gw/people.py:286-297 | an app session ends no later than its phone's token, and dead sessions of the phone are tidied |
| PeopleRuns.DeadStays | portal/gateway/gw/people.py:226-441 | no operation revives a revoked or expired phone or grants a request for it |
| PeopleRuns.Kills | portal/gateway/gw/people.py:56-94 | logout, revocation and deactivation kill the phone and close its sessions |
| PeopleRuns.DeadForever | portal/gateway/gw/people.py:226-441 | in every run, a dead phone is never granted again by token, update key or session, whatever happens in between |
| PeopleRuns.AdminStays | portal/gateway/gw/people.py:76-79 | no operation takes away the last active admin |
| PeopleRuns.AdminAlways | portal/gateway/gw/people.py:76-79 | in every run that starts with an active admin there always is one |
| PeopleRuns.EnrolOnce | portal/gateway/gw/people.py:361-392 | in every run, an enrolment code is traded for a device at most once |
| PeopleRuns.SetupOnce | portal/gateway/gw/people.py:126-149 | in every run, a setup link sets credentials at most once |
| PeopleRuns.RefusedNotRecorded | portal/gateway/gw/people.py:258-284 | an attempt the throttle refuses changes nothing |
| PeopleRuns.RecordedExactly | portal/gateway/gw/people.py:258-284 | an attempt is recorded, with its verdict, if and only if its account can be stored, the throttle lets it through and its check does not raise; otherwise nothing changes |
| PeopleRuns.RunTwelvePerWindow | portal/gateway/gw/people.py:166-177 | in every run, at most 12 failed checks of an account in any 900 seconds |
| PeopleRuns.RunAddressLimits | portal/gateway/gw/people.py:160-177 | in every run, both limits by address hold |
| PeopleRuns.TwelveGuesses | portal/gateway/gw/people.py:160-187 | in every run, an account's sign-ins are answered at most 12 times in any 900 seconds that the credentials are wrong |
| PeopleRuns.AddressGuesses | portal/gateway/gw/people.py:160-187 | and those from an address at most 20 times, and at most 10 times that an enrolment code does not exist |
| PeopleTraces.GrantedExactly | portal/gateway/gw/people.py:226-332 | whom a request is granted to, and as what: token, update key or session, each under its conditions and no others |
| PeopleTraces.RevokedExactly | portal/gateway/gw/people.py:430-440 | a phone is revoked for an admin or its own person; anybody else is refused and nothing changes |
| PeopleTraces.EnrolledExactly | portal/gateway/gw/people.py:361-392 | a code is traded exactly when live, its person active with room for a device, the address below its limit, id and token new; only a wrong code below the limit is recorded |
| PeopleTraces.DeviceExactly | portal/gateway/gw/people.py:179-209 | a device signs in exactly with a label, a check that succeeds and room for a device; a browser with a check that succeeds |
| PeopleTraces.OpenedFor | portal/gateway/gw/people.py:179-209 | what a sign-in opens is for the person of the checked account, what an app session opens for the person of its phone, whose dead sessions go |
| PeopleTraces.IssuedExactly | portal/gateway/gw/people.py:97-109 | when codes and setup links are issued, for how long, and that the person's earlier ones are spent |
| PeopleTraces.PatchedExactly | portal/gateway/gw/people.py:56-94 | when a patch is refused, which fields, phones and sessions it changes, and that nobody else's do |
| PeopleTraces.SetUpExactly | portal/gateway/gw/people.py:126-149 | a setup is completed exactly with a live link that has a seed, a good password, and a code that fits, which only people who are not admins may leave out |
| PeopleTraces.SmallExactly | portal/gateway/gw/people.py:42-54 | what creating, minting, logging out, using a session, forgetting and beginning a setup change |
| PeopleTraces.EarlierCodesSpent | portal/gateway/gw/people.py:345-359 | in every run, a code is not traded any more once a later one was issued to its person |
| PeopleTraces.EarlierLinksSpent | portal/gateway/gw/people.py:97-109 | and a setup link not used |
| PeopleTraces.EnrolledByIssue | portal/gateway/gw/people.py:345-392 | in every run, a traded code was issued at most ten minutes before, to the person who gets the device |
| PeopleTraces.SetUpByLink | portal/gateway/gw/people.py:97-149 | in every run, credentials are set through a link made at most an hour before, for the person it was made for |
| PeopleCodes.TotpExactly | portal/gateway/gw/auth.py:78-86 | a code is accepted exactly when it has six digits and some unused step of the three around now gives it, and then for the first such step |
| PeopleCodes.SignInExactly | portal/gateway/gw/people.py:258-284 | the check succeeds exactly for the right password of an active person with web login, with a fitting code for admins and whoever has a seed, when the throttle passes |
| PeopleCodes.StepEffect | portal/gateway/gw/people.py:126-157 | every operation keeps credentials, raises one person's step, sets them anew or forgets them; an accepted code is recorded |
| PeopleCodes.OffLinks | portal/gateway/gw/people.py:117-149 | in every run in which drawn seeds are new, a seed in use is kept for no setup link ever after |
| PeopleCodes.CodeOnce | portal/gateway/gw/people.py:262-283 | in every run in which drawn seeds are new, a later accepted step of a seed is a larger one: none is accepted twice |
| PeopleSessions.OneUse | portal/gateway/gw/people.py:309-332 | a session used within the idle limit less a minute is granted exactly up to its absolute limit, its stored time at most a minute behind |
| PeopleSessions.Untouched | portal/gateway/gw/people.py:56-157 | which operations close, tidy or open a session: every other one leaves it as it is |
| PeopleSessions.LivesToTheLimit | portal/gateway/gw/people.py:309-332 | over a whole run without those, with such gaps, every use is granted if and only if it is not after the absolute limit |
| PeopleSessions.Opens | portal/gateway/gw/people.py:286-297 | a fresh web session lives a week, a fresh app session no longer than the phone's token |
| PeopleSessions.SlidingStays | portal/gateway/gw/people.py:395-408 | every phone always expires ninety days after it was last seen |
| PeopleSessions.TokenUse | portal/gateway/gw/people.py:395-408 | a token used again within ninety days less a minute is granted while not revoked and its person active, and slides |
| PeopleLimits.LimitKept | portal/gateway/gw/people.py:340-343 | an operation keeps the limit of five phones of a person, and of twenty in all, if and only if it is not the use of one token more at the second it expires |
| PeopleLimits.LimitAlways | portal/gateway/gw/people.py:340-343 | in every run without that tie nobody has more than five active phones, and there are never more than twenty |
| PeopleLimits.SixPhones | portal/gateway/gw/people.py:395-408 | a concrete run that ends with six |
| TimedRuns.Gateway.Switch | portal/gateway/gw/core.py:181-215 | which refusal comes first, and that there is no other; off is confirmed only when it was read; a run is deleted only after that, never when the switch-off is not confirmed; no deletion leaves a switch-on uncovered; and a confirmed switch-off deletes the run that is listed then |
| TimedRuns.Gateway.CloseActiveRun | portal/gateway/gw/core.py:258-267 | the active run is listed, and deleted when it has a second left; that happens only after an off was read since the last switch-on, and leaves every switch-on covered when the plug was reported off since |
| TimedRuns.Gateway.WaitArmed | portal/gateway/gw/core.py:284-295 | the wait ends with an armed answer, the run's end, an error, or after asking at most 61 times |
| TimedRuns.Gateway.TurnOn | portal/gateway/gw/core.py:329-345 | one turn_on keeps every switch-on covered if and only if it does not delete its run with no report of off in between, which takes a lost answer and the withdrawal |
| TimedRuns.Gateway.Launch | portal/gateway/gw/core.py:321-345 | an accepted run is switched on only after it was reported armed; a run that is not armed, or whose turn_on failed, is withdrawn; with the same equivalence |
| TimedRuns.Gateway.StartRun | portal/gateway/gw/core.py:297-345 | which refusal comes first, and that it switches nothing on; success means armed, switched on and not deleted; a request keeps every switch-on covered if and only if it does not withdraw a run whose switch-on's answer was lost, with no report of off in between |
| TimedRuns.Gateway.EndRun | portal/gateway/gw/core.py:368-380 | end_run deletes a run only after an off was read; confirmed, it closes the run that is listed, unconfirmed it leaves it; every switch-on stays covered if and only if none is ended on the strength of an off older than it, and surely when an off in memory is newer than every switch-on |
| TimedRuns.Gateway.Serve | portal/gateway/gw/core.py:181-380 | over any number of requests, with failing calls and stops anywhere, every switch-on has an armed run that is not deleted before Home Assistant reported the plug off, if and only if none was withdrawn after a lost answer and none was ended on the strength of an older off |
| TimedRuns.SafeExtends | portal/gateway/gw/core.py:258-345 | the invariant over the message log: what each further message must meet |
| TimedRuns.AllSafeExactly | portal/gateway/gw/core.py:181-380 | the equivalence over logs: the only uncovered switch-ons are those of these two kinds |
| TimedRuns.NothingLost | portal/gateway/gw/core.py:297-380 | when no turn_on answer is lost and no off older than a switch-on is read, every switch-on is covered |
| TimedRuns.LostAnswer | portal/gateway/gw/core.py:316-337 | the messages of one start_run, each possible at its place, that leave the plug on with its run withdrawn |
| TimedRuns.StaleOff | portal/gateway/gw/core.py:197-198 | the messages of an unconfirmed start_run and an end_run that returns early from `switch`, each possible at its place, that leave the plug on with its run deleted |
| Relay.HostGate.Try | relay/relay.py:281-287 | one turn under the lock: refill to at most burst, one token per grant; it is granted exactly when the bucket can hold a token and has it, surely 1 / rate seconds after the turn before |
| Relay.HostGate.Take | relay/relay.py:278-290 | take grants at most once, or gives up no earlier than the wait allowed, with other threads asking in between |
| Relay.GrantKeeps | relay/relay.py:281-287 | a further grant keeps any n grants within burst + rate * (time between first and last) |
| Relay.GrantsTakeTime | relay/relay.py:281-287 | n grants take at least (n - burst) / rate seconds |
| Relay.MessageInjective | relay/relay.py:482-483 | the signed text determines time stamp and URL |
| Relay.StillSeen | relay/relay.py:507-517 | a granted signature is still in the table whenever its time stamp can pass again |
| Relay.Front.Admit | relay/relay.py:510-517 | a well-signed request is admitted if and only if its signature was never admitted before |
| Relay.Front.CheckAuth | relay/relay.py:495-524 | one request at a time, over the whole history: limited after ten failures in a minute; raised for the two exceptions that are not caught; admitted exactly when its signature is that of its own text, in time and never admitted before; only refusals are recorded as failures |
| Relay.TenPerMinute | relay/relay.py:500-504 | at most ten failures of a source in any minute, one request at a time |
| ChildPolicy.RenderBlock | adguard/childpolicy.py:141-167 | the loops of render_block give the specified block |
| ChildPolicy.AllowedNames | adguard/childpolicy.py:156-162 | the names a client may use: open by weekday, window and overrides, and not under a deny entry |
| ChildPolicy.BlockedExactly | adguard/childpolicy.py:141-167 | with exceptions beating blocks, a listed child is blocked exactly outside the entries open for it by weekday, window and its own overrides; with an `all` of its own, exactly under the deny entries; other clients never |
| ChildPolicy.OverridesApart | adguard/childpolicy.py:150-163 | the overrides of one client are nothing to another |
| ChildPolicy.RulesOfBlock | adguard/childpolicy.py:141-167 | which rules are in the block: the catch-all, the deny rules and the allow rules of every listed client |
| ChildPolicy.DeniedExactly | adguard/childpolicy.py:152-165 | a name under a deny entry is open if and only if the client has no `all` exception and an entry open for it lies strictly above the deny entry |
| ChildPolicy.DeniedYetOpen | adguard/childpolicy.py:152-165 | a denied subdomain of an allowed domain is open, and becomes blocked when everything is opened |
| ChildPolicy.Comparable | adguard/childpolicy.py:104-105 | two domains above one name lie one under the other |
| ChildPolicy.UnderExactly | adguard/childpolicy.py:104-105 | a name is under a domain when it is the domain, or ends in it after a dot |
| ChildRules.MergeRules | adguard/childpolicy.py:170-179 | the loop with its flag gives the specified merge |
| ChildRules.KeepsOutside | adguard/childpolicy.py:170-179 | exactly the rules outside the markers are kept, in order |
| ChildRules.MergeReplaces | adguard/childpolicy.py:170-179 | a merge leaves one block at the end; a second merge replaces only the first block |
| ChildRules.UnclosedBegin | adguard/childpolicy.py:170-179 | a BEGIN without END takes every later rule away |
| ChildRules.RenderedIsBlock | adguard/childpolicy.py:148-167 | what is rendered is a block: no marker inside |
| ChildRules.MergedMeaning | adguard/childpolicy.py:170-179 | the merged rules block a name when a hand-written rule or the block does and neither makes an exception |
| ChildRules.MergedPolicy | adguard/childpolicy.py:266-271 | where no hand-written rule is about the client, the merged rules decide as the block does |
| ChildRules.AdGuard.Apply | adguard/childpolicy.py:266-271 | rules are written exactly when they differ |
| ChildRules.AdGuard.Twice | adguard/childpolicy.py:266-271 | a second pass at the same instant, after one that succeeded, writes no rules |
| ChildRules.SliceIsBlock | _system/policy-drift-watch/policy-drift-watch.py:109-110 | the BEGIN..END slice of merged rules is exactly the rendered block |
| ChildCutover.SwitchedSaysSnapshot | adguard/childsnapshot.py:37-43 | the file the cutover writes is read as `snapshot` |
| ChildCutover.ModeExactly | adguard/childsnapshot.py:37-43 | the mode is snapshot exactly when the first line that says anything, without comment and space, says so |
| ChildCutover.Host.MakeBundle | adguard/child-cutover.py:182-197 | the bundle holds exactly the policy files that exist, and the overrides |
| ChildCutover.Host.Rollback | adguard/child-cutover.py:259-288 | a rollback that ends well has put back every bundled file and left the others; in mode files the rules are the merge of the files' block; when no call fails it ends well exactly if the files say mode files and render |
| ChildCutover.Host.Refer | adguard/child-cutover.py:214-223 | the reference is a fresh files pass: its block, rules and answers; its hash when the pass wrote its status, and the older status's otherwise |
| ChildCutover.Host.Switch | adguard/child-cutover.py:225-243 | the switch stands only with the flag set, a healthy snapshot run, the same hash and the same answers; when no call fails, exactly with the same hash and answers |
| ChildCutover.Host.Undo | adguard/child-cutover.py:244-248 | after a failed switch a good rollback restores files, overrides, mode and rules, when source.conf existed, and when no call fails it is a good one; otherwise the mode stays snapshot |
| ChildCutover.Host.Cutover | adguard/child-cutover.py:204-256 | 0 means mode snapshot with the answers of the reference and AdGuard's rules with only the block replaced; the block's hash is the reference's if and only if the reference pass wrote its status or the older status already had that hash; before the point of no return nothing is changed; a failure after it is undone as above |
| ChildCutover.StaleHash | adguard/childsnapshot.py:124-133 | a switch that passes every comparison and changes the rules, because the status of the reference pass was not written |
| ChildCutover.SameRules | adguard/child-cutover.py:237-243 | after a switch with a written reference AdGuard's rules are as they were, or two different blocks have the same hash |
| ChildCutover.BackToReference | adguard/child-cutover.py:259-288 | merging the reference block again gives the reference rules, whatever block was merged in between |
| Releases.SignedPasses | portal/gateway/gw/releases.py:46-65 | a manifest signed with a seed passes verify_manifest under keys that include the seed's public key, and gives its payload back |
| Releases.PassesSigned | portal/gateway/gw/releases.py:46-65 | a manifest passes with a payload if and only if one of the keys signed the very bytes it was parsed from, and both are of this schema and this app |
| Releases.Channel.Add | portal/gateway/gw/releases.py:168-200 | a release is recorded exactly with the pinned certificate, the right app and a higher version, unless the process stops; no recorded release's file is touched |
| Releases.Channel.Pin | portal/gateway/gw/releases.py:157-166 | a certificate is pinned only when none is, and only a fingerprint of 64 hexadecimal digits |
| Releases.Channel.Publish | portal/gateway/gw/releases.py:202-238 | publishing succeeds exactly for a pending, higher, intact release with an admissible minimum and a key; the version goes up and the minimum never down |
| Releases.Channel.Commit | portal/gateway/gw/releases.py:229-233 | one transaction: the old release is superseded, the new one is the current one with its signed manifest |
| Releases.Channel.Stop | portal/gateway/gw/releases.py:240-242 | the kill switch changes nothing else |
| Releases.Channel.Resume | portal/gateway/gw/releases.py:244-248 | resuming needs something published |
| Releases.Channel.CurrentManifest | portal/gateway/gw/releases.py:124-129 | what phones see passes their own check and names the current release's code, file hash, size, certificate and notes, and the minimum |
| Releases.Channel.ServedFile | portal/gateway/gw/releases.py:131-136 | only the current release's file is served, only while it has the recorded hash |
| Releases.Channel.Run | portal/gateway/gw/releases.py:157-248 | over any sequence of calls, with files changing on disk: a pinned certificate stays, published versions strictly increase, one row is published and it is the current one, the minimum never falls or passes it |
| Audit.Log.Append | portal/gateway/gw/db.py:119-135 | one row chained to the last one; the rest is untouched |
| Audit.Log.Record | portal/gateway/gw/db.py:119-135 | every table made by audit calls passes |
| Audit.Log.Verify | portal/gateway/gw/db.py:137-145 | verify_audit passes exactly tables that are intact and whose rows can be read back; otherwise all rows before one pass, and that one is reported as broken or, when its before or after is not JSON, raises |
| Audit.SameRow | portal/gateway/gw/db.py:126-126 | two chained rows with the same hash agree in every covered field, or exhibit a collision of the hash |
| Audit.SameHistory | portal/gateway/gw/db.py:137-145 | two passing tables of the same length and last hash agree in every covered field, or two rows exhibit a collision |
| Audit.ChangeShows | portal/gateway/gw/db.py:137-145 | a change of any covered field breaks the table, changes its last hash, or exhibits a collision |
| Audit.KnownHashFixesPrefix | portal/gateway/gw/db.py:137-145 | a known hash at row n fixes the first n rows of every passing table, or exhibits a collision |
| Audit.CanonicalMet | portal/gateway/gw/db.py:49-50 | the hypothesis on canonical texts can be met, with any hash |
| Audit.TruncationPasses | portal/gateway/gw/db.py:137-145 | rows cut off the end are not detected |
| Windows.MergeWindows | _system/ha-alerts/ha-alerts.py:51-59 | the merged windows are sorted, separate, not touching, and cover the same minutes |
| Windows.StartMeansOn | _system/ha-alerts/ha-alerts.py:311-328 | on such windows the last edge is a start exactly when the plug is expected on |
| Windows.AgeIsCyclic | _system/ha-alerts/ha-alerts.py:318-328 | the age is the smallest distance around the clock from any edge |
| Windows.Reading | _system/ha-alerts/ha-alerts.py:318-328 | merged and read, any schedule of a day says start exactly when some window covers the minute |

## Left out

- Curve25519.SourceSound: primality of P and Q, D being a non-square and [Q]G = O are hypotheses, not computed here.
- Ed25519.SignedVerifies: SHA-512 itself is not modelled; `verify`'s catch of ValueError and TypeError has no counterpart because malformed input is handled by the length checks.
- FilterChanges.FilterLists.Change: validation before the pipeline (download, size, rule counts, witnesses) and the contents of the probes are arbitrary answers; cancellation of a task is not modelled.
- FilterChanges.FilterLists.Add: what the name, the URL and the download must meet is an arbitrary verdict.
- FilterChanges.FilterLists.RevertLast: rows are ordered by their insertion, which is the order of their times.
- FilterDiff.DiffReaches: list ids and rule counts are not compared, as in the source; lists with repeated URLs are excluded.
- People.Tables.SignIn: failures of the database are left out; password hashing, the normalisation of the account string and the lookup by id or lower-cased name are parameters.
- People.Tables.TradeCode: the form of codes and labels is a parameter; the single-use check inside the transaction is the check before it, as nothing runs in between.
- PeopleCodes.CodeOnce: HMAC is any function of seed and step.
- PeopleSessions.LivesToTheLimit: the person and phone stay entitled at every use.
- TimedRuns.Gateway.StartRun: the length of a run and its end time are not related to the clock; `extend_run` is left out, it depends on the unseen service; the audit rows and published events are left out.
- TimedRuns.Gateway.Serve: physical plug state is the environment's; the claim is about the messages exchanged, the states that Home Assistant reports among them.
- Relay.Front.CheckAuth: counters, events and the order of several requests inside the function are left out; the replay guard `Relay.Front.Admit` holds under any interleaving.
- ChildPolicy.RenderBlock: reading the list files, service catalogues and override expiry are parameters; rules are a datatype, not text, and a hand-written rule is for one client or all and blocks or excepts a domain.
- ChildRules.AdGuard.Apply: the settings of AdGuard's clients (`ensure_client`) are left out.
- ChildCutover.Host.Cutover: systemd units, git tags, list generation after success and the process being killed are left out; of the pre-flight only the mode and the last job status are modelled, the rest is an arbitrary verdict.
- Releases.Channel.Add: inspection of the APK is a parameter; Base64 of the signature is left out; the file copied is the file inspected.
- Audit.SameHistory: row numbers are not covered by the chain; before and after are their canonical text.
- Audit.Log.Verify: a value that is JSON in another spelling than the canonical one is read as its own text, so it shows as broken here, and passes in the source when it means the same.
- Windows.MergeWindows: reading the snapshot and the runs of a day is left out; times are whole minutes.
- HTTP, sockets, TLS, SQLite, systemd, Telegram, the Android side, pages and templates: plumbing or user interface.
- `portal/schedules` beyond what the gateway sees of it: its store and renderer are not part of this model.
- `api.py`, `hub.py`, the other watchers, music and library tools: they would add easier members or depend on what is not visible.
- Floating-point rounding of clocks: real numbers are used.
