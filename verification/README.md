# gpg-agent: a verified model

A Dafny model of the parts of gpg-agent whose correctness is not visible from any
single function: the protection of private keys, the connections to the smartcard
daemon, the passphrase cache, and the byte-level codecs around them.

Each mechanism has three layers.

1. A *specification*: functions over octet strings, lists or states that say what the
   C function returns (`Protection`, `PassphraseCache`, `DaemonProtocol`, `SshWire`, ...).
   A cursor into a buffer is the rest of the buffer behind it.
2. The *imperative code*: methods with the loops, cursors, buffers and in-place updates of
   the C code, proved equal to the specification for every input, error paths included
   (`ProtectLoops`, `UnprotectLoops`, `CacheLoops`, `DaemonLoops`, `SshStreams`, ...).
   Every buffer access is inside the size that the C code allocates.
3. The *theorems* about the specification, stated without reference to the code:
   round trips, invariants of all interleavings, refinement of a map, exact sizes.

Main theorems:

- `RoundTrip.RoundTripExact`: `agent_unprotect` after `agent_protect` returns the plain key
  octet for octet, in CBC and OCB mode, with or without the time stamp, for any contents of
  the uninitialised buffers, **if and only if** the plain key is a canonical S-expression and
  the S2K count can be read (65536 or more, or 96 to 255); for every other key and count it
  fails. The one hypothesis is that a count from 96 to 255, which is read as the old encoding of
  another count, derives the same key; otherwise the cipher decides.
  `PlainKeys.KeyRoundTrip` states it for every rsa, dsa, elg and ECC key that has the parameters
  of its algorithm (raw domain, curve, or curve and flags; anything behind them): protecting
  succeeds, and the key comes back if and only if no length behind the parameters is padded.
- `ProtectedKeys.ProtectedText`: what `agent_protect` writes for every key, octet by octet, with the
  literal split into public and encrypted parameters. `Opening.OpensIff`: what `agent_unprotect`
  accepts: a sealed list opens **if and only if** its tag or integrity code is the one that the
  algorithm, the public part and the time stamp around it call for; `Opening.Transplanted` is the
  list of one key put into another.
- `DaemonProtocol.Ownership`, `ReleasedOnce`, `OneDaemonAtATime`: in every state of every
  interleaving of any number of sessions with the thread that waits for the daemon, contexts
  have one owner, are released once, and there is one daemon at a time.
  `DaemonEffects.ParkedIsReused` and `NewIsGranted` say in every reachable state which context a
  session gets and when; `NothingElseLeaks` accounts for every context that was ever made.
- `CacheDiscipline.MapIffOneFamily`: the list with its three-phase housekeeping answers like a
  timed map over every run **if and only if** the modes that each key is used with are in one
  family; `CacheRefinement.CacheIsMap` is the refinement, `CacheDiscipline.ConflictDiffers` the
  run that no map answers. `PassphraseCache.LifetimeBound` needs no discipline.
  `CacheLifetimes.AgeDecides` and `GetRenews` say in terms of the options how long data is answered.
- `EccFixup.FixupEcc` with `EccKeys.FixupIsDrop`: the in-place rewrite of a key buffer is the
  encoding of the same key with the leading zero octet of `d` dropped; `EccKeys.ReadAgain` and
  `EccKeys.InitialisedIff` say exactly when the result can be read and when it is determined;
  `EccCases` says which keys are left alone.
- `CommandLine.BuildArgv`: both passes of the Windows command line splitter, in place, against
  a tokenizer that looks at whole runs of backslashes; `CommandLineQuoting.QuotingRoundTrip`: any
  arguments can be passed through it.
- `OpenPgp.ProtectUnprotect`, `SshWire.PlainBlobBack`, `EcdsaBlobBack`, `EddsaBlobBack`,
  `PlainKeys.CardKeyRoundTrip`, `SshControl.AddThenSearch`: round trips with their exact conditions;
  `SshBlobs.RsaBlob`, `DsaBlob`, `EcdsaBlob`, `EddsaBlob`: the octets in between.
- `Description.PassesAgree`: the two passes of the description expander agree if and only if the
  first call for the fingerprint settles it.

`dafny verify dfyconfig.toml` checks the whole project.

## What the proofs found

Where the code meets a property only under a condition, the condition is part of the theorem,
and a lemma exhibits an input that the code accepts and on which the property fails.

- A key in which some length is written with a leading zero is accepted by `agent_protect`
  (agent/protect.c:634-726) and cannot be unprotected again: `RoundTrip.RoundTripExact`,
  `FailingInputs.PaddedKeyIsLost`. The first four octets are taken to be `(11:` without being
  looked at (agent/protect.c:751-754).
- A count below 65536 is written as given (agent/protect.c:563-566) and refused, or from 96 to
  255 taken for the old byte encoding of another count, when it is read
  (agent/protect.c:1261-1267): `RoundTrip.CountReadBack`. The callers do not pass such a count
  (agent/command.c:3659-3663).
- The buffer of `agent_shadow_key_type` is large enough if and only if the name of the type has
  at most eight octets (agent/protect.c:1579): `Shadow.ShadowFits`,
  `FailingInputs.NineOctetsOverrun`. A public key with a parameter named `shadowed` is shadowed
  without complaint but its info cannot be found: `Shadow.ShadowRoundTrip`,
  `FailingInputs.ShadowedParameter`. A serial number is read back if and only if it consists of
  hex digits: `Shadow.HexRoundTrip`.
- A private part that is a single zero octet becomes an empty token, and the fixed key is refused
  by the same function and by the canonical length (agent/sexp-secret.c:91-93): `EccKeys.ReadAgain`,
  `EccKeys.SecretLost`. A `d` with a leading zero octet that is listed before the curve is compared
  with an uninitialised name (agent/sexp-secret.c:85-87), and the result depends on it:
  `EccKeys.InitialisedIff`, `EccKeys.CurveTooLate`.
- The primary context is forgotten, not released, if its daemon ends while the context is parked
  (agent/call-daemon.c:185-186): `DaemonEffects.NothingElseLeaks`, `ParkedIsForgotten`. No other
  context is lost.
- The two public numbers in an RSA certificate are read in the order of the secret letters, n and e,
  when they come with a secret key, and in the order e and n with a public one
  (agent/command-ssh.c:1291-1325): `SshBlobs.RsaCertOrder`.
- The cache list is not a map when one key is used with modes of two families:
  `CacheDiscipline.MapIffOneFamily`; a key put with USER and NONCE survives its deletion:
  `CacheDiscipline.MixedModesDiffer`. The comment that ANY matches every mode but IGNORE
  (agent/cache.c:330) disagrees with the code, which also excludes DATA; the model follows the code.
- `read_control_file_item` logs "assuming 0" for a bad TTL and then stores the bad TTL
  (agent/command-ssh.c:977-982): the stored TTL is the announced one if and only if it is valid or
  0 as an int: `SshControl.TtlAsAnnounced`, `SshControl.FiveStored`.
- `agent_modify_description` asks again for a fingerprint that it did not get
  (agent/findkey.c:525-527), in the second pass too: if a later call succeeds where the first one
  failed, the second pass writes more than the first one counted: `Description.PassesAgree`,
  `Description.LateFingerprint`.
- The array of `build_argv` has one unused entry if and only if the command line is empty:
  `CommandLine.SizeIsExact`.

## Model

| member | source | states |
|---|---|---|
| Sexp.Snext | common/sexp-parse.h:36-49 | the digit loop finds the next token of the specification; 0 exactly if there is none, and then the cursor has not moved |
| Sexp.Sskip | common/sexp-parse.h:57-89 | the loop stops where the recursive skip stops, from any depth |
| Sexp.TokenLocal | common/sexp-parse.h:36-49 | a token is recognised independently of the octets behind it |
| Sexp.SkipScan | common/sexp-parse.h:57-89 | skipping over a segment and then the rest is skipping the rest from the depth that the segment leaves |
| Sexp.SkipUsed | common/sexp-parse.h:57-89 | what a skip passes over is a segment that scans down to depth zero |
| Sexp.SkipCompose | common/sexp-parse.h:57-89 | skipping inner and outer levels at once is skipping the inner ones first |
| KeyStructure.SplitKeyFrame | agent/protect.c:633-726 | every accepted key is the concatenation of the parts that it is cut into, with the names that were looked for, none of them "protected" or "protected-at" |
| KeyStructure.PairsSegFacts | agent/protect.c:315-329 | a parameter block is passed by every loop that looks for another list |
| ProtectLoops.ParamLoop | agent/protect.c:664-714 | the loop that changes its own parameter list for "curve" and "flags" accepts exactly the three shapes of keys and marks where the secret ones start and end |
| ProtectLoops.LookupAlgo | agent/protect.c:653-657 | the search in protect_info finds the first entry of that name |
| ProtectLoops.CutKey | agent/protect.c:633-726 | the cursors cut the key into the parts of the specification; errors agree |
| ProtectLoops.FrameSecret | agent/protect.c:409-423 | the buffer is filled exactly; the encrypted length is whole blocks in CBC mode and text plus tag in OCB mode |
| ProtectLoops.DoEncryption | agent/protect.c:362-597 | the hashed or authenticated ranges and the printed list are those of the specification |
| ProtectLoops.Assemble | agent/protect.c:735-766 | the computed length is exactly the number of octets written, and the result is the splice |
| ProtectLoops.AgentProtect | agent/protect.c:606-767 | the whole function equals the specification on every input, with its errors |
| UnprotectLoops.CalculateMic | agent/protect.c:283-339 | the hashed range, or the error |
| UnprotectLoops.FindListAt | agent/protect.c:1165-1182 | the loop stops at the first list named "protected" |
| UnprotectLoops.FindTimeAt | agent/protect.c:1130-1157 | the time stamp, nothing, or the error |
| UnprotectLoops.ReadLockAt | agent/protect.c:1231-1290 | the S2K parameters, IV and ciphertext, with the error of each check |
| UnprotectLoops.DoDecryption | agent/protect.c:773-897 | the length checks, the tag check and the structure check; the clear text buffer with what the allocation left at its end |
| UnprotectLoops.ReadRestAt | agent/protect.c:1000-1030 | the part behind the protected list and the length of a time stamp list in it |
| UnprotectLoops.MergeBound | agent/protect.c:929-939 | for every protected key, what is written into the merged list fits the estimated size |
| UnprotectLoops.WriteMerged | agent/protect.c:943-947 | the pieces are written one behind the other into the buffer and the cut offset is where the time stamp starts |
| UnprotectLoops.MergeLists | agent/protect.c:908-1053 | the whole function equals the specification; the cut is inside the buffer |
| UnprotectLoops.CloseGap | agent/protect.c:1329-1333 | the memmove cuts the time stamp out of the buffer |
| UnprotectLoops.FinishAt | agent/protect.c:1314-1337 | integrity check, cut and final length |
| UnprotectLoops.HoleInside | agent/protect.c:843-848 | the protected list ends inside the inner list, so that both authenticated ranges are ranges |
| UnprotectLoops.UnprotectListsAt | agent/protect.c:1129-1337 | everything behind the algorithm equals the specification |
| UnprotectLoops.AgentUnprotect | agent/protect.c:1061-1338 | the whole function equals the specification on every input, with its errors |
| RoundTrip.RoundTripExact | agent/protect.c:606-767 | unprotect after protect is the identity if and only if the key is canonical and the count can be read, otherwise an error; the time stamp is returned if asked for |
| RoundTrip.UnprotectBack | agent/protect.c:1061-1338 | the same for a key given by its parts |
| RoundTrip.AadAgrees | agent/protect.c:1184-1191 | the inner list without the protected list is what was authenticated at protect time |
| RoundTrip.MicAgrees | agent/protect.c:1314-1325 | the range hashed over the merged list, before the time stamp is cut out, is what was hashed at protect time |
| RoundTrip.CountReadBack | agent/protect.c:1261-1267 | a count is read back unchanged if and only if it is at least 65536; from 96 to 255 it is read as another one, and all others are refused |
| RoundTrip.ReaderChecks | agent/protect.c:794-801 | both length checks are met: whole blocks and 1 to 16 octets of padding in CBC mode, exactly the tag behind the canonical length in OCB mode |
| RoundTrip.LockReadBack | agent/protect.c:562-590 | salt, count, IV and ciphertext are read back from the printed list |
| RoundTrip.CbcPadding | agent/protect.c:417-423 | the encrypted length is whole blocks and leaves between 1 and 16 octets of padding |
| RoundTrip.FramedLength | agent/protect.c:888-894 | the clear text is one canonical list exactly if the secret parameters are canonical |
| RoundTrip.DecryptBack | agent/protect.c:773-897 | decryption returns the framed list, or a bad passphrase exactly if the parameters are not canonical |
| RoundTrip.MergeBack | agent/protect.c:908-1053 | the merged list is the plain key with the time stamp before its tail |
| RoundTrip.MergedFits | agent/protect.c:929-939 | the merged list fits the estimated size |
| RoundTrip.PlainLength | agent/protect.c:1336-1336 | a plain key has a canonical length exactly if none of its lengths has a leading zero |
| RoundTrip.ProtLength | agent/protect.c:932-934 | the same for the protected key and the parts copied into it |
| RoundTrip.FinishBack | agent/protect.c:1314-1337 | the last steps return the plain key |
| RoundTrip.ProtectedListSeg | agent/protect.c:567-573 | the printed list is one canonical list named "protected" that starts with the method |
| RoundTrip.LawfulExists | agent/protect.c:389-392 | the laws asked of the cryptographic primitives can be met |
| Opening.OpensIff | agent/protect.c:1061-1338 | for a list sealed with the passphrase by any of the three methods, in any canonical key, with or without a time stamp: it opens if and only if its tag is that of the algorithm, the public part and the time (OCB), or its code the hash of these and the secret part (CBC); otherwise the passphrase is called bad, or the protection corrupted |
| Opening.Transplanted | agent/protect.c:840-864 | the list that agent_protect has written for one key opens in another one with the same secret part if and only if the other public part and time have the same tag, or the same hash |
| Opening.Undecryptable | agent/protect.c:850-896 | any data with a wrong tag, or that decrypts to something else than a list, is a bad passphrase |
| Opening.RefusedLocks | agent/protect.c:790-801 | another hash, a salt, count, IV or ciphertext of a wrong size and an empty passphrase are refused, each with its error, before anything is decrypted |
| Opening.OtherMethods | agent/protect.c:1198-1229 | a list of the OpenPGP method is handed on whole, one of any unknown method refused |
| Opening.MethodFound | agent/protect.c:1066-1077 | the three methods with their ciphers, key lengths and modes |
| Opening.TimeRead | agent/protect.c:1130-1157 | a time stamp behind any parameters is read if it has fifteen octets, and is an error otherwise |
| PlainKeys.KeyAccepted | agent/protect.c:633-726 | the canonical encoding of every key with the parameters of its algorithm is accepted, with the ECC variants |
| PlainKeys.KeyCanonical | agent/protect.c:932-934 | such an encoding is one canonical expression if and only if what is behind its parameters is canonical |
| PlainKeys.KeyRoundTrip | agent/protect.c:606-767 | for all such keys, passphrases and random octets, in both modes: protecting succeeds, and unprotecting gives the same octets and the time if and only if no length behind the parameters is padded |
| PlainKeys.PublicAccepted | agent/protect.c:1534-1575 | in the encoding of every public key the insertion point is behind its parameters |
| PlainKeys.CardKeyRoundTrip | agent/protect.c:1519-1680 | for every public key without a parameter named "shadowed", every serial number and id and both protocols: shadowing succeeds, fits its buffer, gives a shadowed key, and both strings are read back |
| ProtectedKeys.AcceptedIff | agent/protect.c:633-726 | the encoding of a key is accepted if and only if its parameters are those of its algorithm, in order; which ones stay public and which are encrypted; the error otherwise |
| ProtectedKeys.ProtectedText | agent/protect.c:606-767 | what agent_protect makes of such a key, octet by octet: the secret parameters only in the encrypted octets, with what is hashed, authenticated and encrypted |
| FailingInputs.PaddedKeyIsLost | agent/protect.c:633-726 | a key with a padded length is protected without an error and cannot be unprotected |
| FailingInputs.NineOctetsOverrun | agent/protect.c:1577-1593 | a type of nine octets is accepted and the result is longer than the buffer |
| FailingInputs.ShadowedParameter | agent/protect.c:1636-1658 | a key with a parameter named "shadowed" is shadowed and its info is not found |
| S2k.EncodeCount | agent/protect.c:252-275 | the least byte whose decoded count is not below the given one, 255 from 65011712 on; the final increment does not overflow |
| S2k.DecodeStep | common/openpgpdefs.h:209-210 | the next encoding is one unit of its exponent larger |
| S2k.DecodeIncreases | common/openpgpdefs.h:209-210 | decoding is strictly increasing |
| S2k.TooLow | agent/protect.c:270-271 | an encoding that is too low is not the largest one |
| S2k.EncodingUnique | agent/protect.c:252-275 | the encoding of a decoded byte is that byte |
| Shadow.MakeShadowInfo | agent/protect.c:1486-1509 | the loops over pairs of digits write the info of the specification |
| Shadow.ParseShadowInfo | agent/protect.c:1725-1779 | the serial number and the id of the specification, or the error |
| Shadow.HexRoundTrip | agent/protect.c:1502-1503 | to octets and back is upper case without an odd last digit if and only if all are hex digits |
| Shadow.InfoRoundTrip | agent/protect.c:1725-1779 | an info is parsed if and only if neither string is empty; then the id is read back, and the serial number if and only if it is hex |
| Shadow.InfoCanonical | agent/protect.c:1486-1509 | such an info is one canonical expression |
| Shadow.PublicPointAt | agent/protect.c:1534-1575 | the insertion point, or the error |
| Shadow.PointInside | agent/protect.c:1572-1587 | the insertion point is between the copied prefix and the end of the key |
| Shadow.AgentShadowKey | agent/protect.c:1519-1596 | the error, the shadowed key in the buffer of the computed size, or an overrun exactly for type names of more than eight octets |
| Shadow.ReadShadowedAt | agent/protect.c:1636-1679 | type and info behind the algorithm, or the error |
| Shadow.ShadowFits | agent/protect.c:1577-1593 | the computed size suffices if and only if the type has at most eight octets |
| Shadow.FindShadowedAt | agent/protect.c:1636-1658 | the loop stops at the first list named "shadowed", with its errors |
| Shadow.GetShadowInfoAt | agent/protect.c:1609-1680 | type and info of the specification, or the error |
| Shadow.ShadowRoundTrip | agent/protect.c:1609-1680 | the info and the type of a shadowed key are returned if and only if no parameter is named "shadowed" |
| Shadow.CardRoundTrip | agent/protect.c:1486-1596 | make, shadow, find and parse give the serial number and the id back |
| ShadowedKeys.ShadowedText | agent/protect.c:1577-1595 | the shadowed form of every canonical public key, octet by octet |
| ShadowedKeys.KnownProtocols | agent/protect.c:1636-1679 | the info is found behind any parameters if its protocol is one of the two, and refused otherwise |
| ShadowedKeys.InfoText | agent/protect.c:1486-1509 | the info holds the octets that the digits stand for, and the id |
| KeyTypes.PrivateKeyType | agent/protect.c:1350-1437 | the loops classify a key like the specification |
| KeyTypes.ProtectChangesType | agent/protect.c:1350-1437 | what agent_protect accepts is a clear key, what it returns for a canonical one is a protected key |
| KeyTypes.ShadowedType | agent/protect.c:1432-1433 | what agent_shadow_key_type returns is a shadowed key |
| KeyKinds.KindByName | agent/protect.c:1356-1436 | a key is clear or shadowed exactly by the name of its first list, and unknown under any other name |
| KeyKinds.KindByMethod | agent/protect.c:1363-1431 | behind any other lists, the method of the protected list decides whether the OpenPGP form is looked at |
| KeyKinds.KindOfNative | agent/protect.c:1397-1428 | in that form, behind any other lists, the key needs no passphrase exactly if its protection is "none" |
| DaemonProtocol.StepKeeps | agent/call-daemon.c:262-539 | every step keeps the invariant |
| DaemonProtocol.StartKeeps | agent/call-daemon.c:262-539 | daemon_start in all its outcomes keeps the invariant |
| DaemonProtocol.SpawnKeeps | agent/call-daemon.c:370-493 | a daemon is started only when the previous one has been cleaned up |
| DaemonProtocol.UnlockKeeps | agent/call-daemon.c:226-232 | daemon_unlock keeps the invariant; an invalid context is released and is not the primary one |
| DaemonProtocol.FailUnlockKeeps | agent/call-daemon.c:526-532 | the error path keeps the invariant although others may run before it |
| DaemonProtocol.ResetKeeps | agent/call-daemon.c:627-675 | parking or releasing a context and leaving the list keeps the invariant |
| DaemonProtocol.CleanUpKeeps | agent/call-daemon.c:175-189 | the clean-up after the end of the daemon keeps the invariant |
| DaemonProtocol.RunInv | agent/call-daemon.c:262-539 | the invariant holds in every state of every run |
| DaemonProtocol.Ownership | agent/call-daemon.c:282-338 | session contexts are distinct, a reusable primary is held by nobody, any other primary by exactly one session, an invalid held context is in use, the list has every session once |
| DaemonProtocol.IdleIsCurrent | agent/call-daemon.c:175-189 | a context that is held and not in use belongs to the running daemon |
| DaemonProtocol.ReleasedOnce | agent/call-daemon.c:526-537 | no context is released twice, and nobody has a released one |
| DaemonProtocol.OneDaemonAtATime | agent/call-daemon.c:362-374 | starts and clean-ups alternate, generation by generation |
| DaemonEffects.ParkedIsReused | agent/call-daemon.c:327-336 | in every reachable state with a parked primary context, a session without one gets it, whatever else would have happened, and nothing is started |
| DaemonEffects.NewIsGranted | agent/call-daemon.c:338-374 | otherwise it gets the new context if and only if a socket is known and can be reached, or no daemon runs and one can be started; else that context is left to the error path; no other session notices |
| DaemonEffects.StartedIff | agent/call-daemon.c:362-480 | a daemon is started if and only if none runs and everything it takes succeeds; its first context is the primary one |
| DaemonEffects.BusyIsSame | agent/call-daemon.c:282-294 | a session with a context keeps it, one in use without a context is turned away |
| DaemonEffects.UnlockEffect | agent/call-daemon.c:226-232 | after daemon_unlock a session keeps its context if and only if that is one of the running daemon; any other is released |
| DaemonEffects.FailEffect | agent/call-daemon.c:526-532 | after a failed start the session is idle, and what was made for it is released |
| DaemonEffects.ResetEffect | agent/call-daemon.c:627-675 | agent_reset_daemon parks the primary context and releases any other |
| DaemonEffects.CleanUpEffect | agent/call-daemon.c:173-187 | the clean-up releases exactly the idle contexts; sessions in use keep theirs |
| DaemonEffects.NothingElseLeaks | agent/call-daemon.c:173-187 | over every run a context that was made is held, parked, left to a failed start or released, if and only if it was not parked when its daemon ended |
| DaemonEffects.ParkedIsForgotten | agent/call-daemon.c:185-186 | a run of three steps that forgets a parked context |
| DaemonLoops.DaemonGlobal.constructor | agent/call-daemon.c:68-89 | the initial state of the protocol |
| DaemonLoops.DaemonGlobal.StartSection | agent/call-daemon.c:279-537 | daemon_start up to the assignment behind its unlock is the start step; what each result means for the session |
| DaemonLoops.DaemonGlobal.FailSection | agent/call-daemon.c:526-532 | the error path is the fail step |
| DaemonLoops.DaemonGlobal.DaemonStart | agent/call-daemon.c:262-539 | on success the session has a context that no other session has |
| DaemonLoops.DaemonGlobal.DaemonUnlock | agent/call-daemon.c:209-241 | daemon_unlock is the unlock step |
| DaemonLoops.DaemonGlobal.AddNode | agent/call-daemon.c:307-319 | a new structure at the front of the linked list |
| DaemonLoops.DaemonGlobal.Unlink | agent/call-daemon.c:658-672 | the structure is unlinked from the heap list, and the list of the specification loses exactly this session |
| DaemonLoops.DaemonGlobal.ResetDaemon | agent/call-daemon.c:613-681 | agent_reset_daemon is the reset step |
| DaemonLoops.DaemonGlobal.InvalidateAll | agent/call-daemon.c:175-183 | the loop marks every session and releases every idle context, in list order |
| DaemonLoops.DaemonGlobal.ChildEnded | agent/call-daemon.c:163-195 | the clean-up of wait_child_thread is the clean-up step |
| PassphraseCache.HousekeepItems | agent/cache.c:199-270 | what housekeeping leaves are expired items of the list that are not unused, and all of them |
| PassphraseCache.HousekeepIdempotent | agent/cache.c:199-270 | housekeeping twice at one time is housekeeping once |
| PassphraseCache.HousekeepOrder | agent/cache.c:247-269 | survivors come from increasing positions |
| PassphraseCache.ExpireIsLive | agent/cache.c:204-245 | two expiry phases keep exactly the live items |
| PassphraseCache.AllSourced | agent/cache.c:346-446 | all data in the list comes from a put that the item's fields record |
| PassphraseCache.LifetimeBound | agent/cache.c:199-270 | returned data was put under that key and is within the maximum of its mode, or the lifetime of a DATA item, however often it was accessed |
| PassphraseCache.PutThenGet | agent/cache.c:346-446 | in any cache, data just put is returned by a get of the same mode |
| CacheLifetimes.AgeDecides | agent/cache.c:363-374 | in any cache, in terms of the options: data is answered as long as its lifetime lasts, given or default, with the maximum of its mode, and from then on what would be answered if it had only been deleted |
| CacheLifetimes.NotHeeded | agent/cache.c:363-374 | a put whose lifetime comes out as 0 changes nothing but what housekeeping changes |
| CacheLifetimes.AnsweredIff | agent/cache.c:204-245 | with nothing else of that name, data is answered if and only if its age is within the lifetime |
| CacheLifetimes.GetRenews | agent/cache.c:497-503 | a get renews the lifetime, but not of DATA items; the maximum counts from the put |
| CacheLifetimes.FoundBy | agent/cache.c:483-495 | under which key, restriction and mode data is found |
| CacheLifetimes.FlushForgets | agent/cache.c:304-318 | after a flush nothing is found; a flush of the PINs leaves no PIN, and everything else as it was |
| CacheLifetimes.SlotRemains | agent/cache.c:247-269 | a slot whose data has expired stays for half an hour from then |
| CacheRefinement.MatchIsSlot | agent/cache.c:376-397 | within one family of modes, matching is equality of slots |
| CacheRefinement.StepRefines | agent/cache.c:346-537 | every operation of the list is the operation of the map, with the same answer |
| CacheRefinement.RunRefines | agent/cache.c:346-537 | the same for every run |
| CacheRefinement.CacheIsMap | agent/cache.c:452-537 | at most one item for every slot, and every answer is the map's |
| CacheDiscipline.MapIffOneFamily | agent/cache.c:376-397 | some map answers like the list over all runs in which keys are used with given modes, if and only if the modes of every key are in one family |
| CacheDiscipline.ConflictDiffers | agent/cache.c:483-495 | two modes of no common family, used with one key, make a run of a put and a get that no map answers like the list |
| CacheDiscipline.ForeignModeDiffers | agent/cache.c:483-495 | one mode outside the family of a key, beside the family's own, is enough for such a run |
| CacheDiscipline.MixedModesDiffer | agent/cache.c:376-414 | a key put with USER and NONCE is still found after its deletion, where every map has nothing |
| LinkedLists.List.RemoveIf | agent/cache.c:247-269 | the loop with rprev unlinks exactly the nodes to be dropped, while walking, and leaves a well-formed list |
| LinkedLists.List.Unlink | agent/call-daemon.c:658-672 | the walk to the node before, and redirecting its link, removes exactly this node |
| LinkedLists.List.Push | agent/cache.c:432-433 | a new node at the front of a well-formed list |
| LinkedLists.List.Update | agent/cache.c:205-218 | a walk over the links treats every item once, in order |
| CacheLoops.Cache.constructor | agent/cache.c:56-70 | an empty list |
| CacheLoops.Cache.ExpireByAccess | agent/cache.c:204-218 | the first loop of housekeeping, item by item |
| CacheLoops.Cache.ExpireByAge | agent/cache.c:220-245 | the second loop, item by item |
| CacheLoops.Cache.RemoveUnused | agent/cache.c:247-269 | the unlinking loop keeps exactly the items that are not unused, in order |
| CacheLoops.Cache.Housekeeping | agent/cache.c:199-270 | the three loops are one pass over the items |
| CacheLoops.Cache.Search | agent/cache.c:376-397 | the search loop stops at the first match |
| CacheLoops.Cache.Store | agent/cache.c:376-438 | replacing, inserting or deleting in the linked list is that of the specification |
| CacheLoops.Cache.PutCache | agent/cache.c:346-446 | agent_put_cache is the put of the specification |
| CacheLoops.Cache.GetCache | agent/cache.c:452-537 | agent_get_cache is the get of the specification, with its answer |
| CacheLoops.Cache.FlushCache | agent/cache.c:294-323 | agent_flush_cache is the flush of the specification |
| CacheLoops.HousekeepPhases | agent/cache.c:199-270 | three passes over the list are one pass that treats each item completely |
| EccFixup.DropZero | agent/sexp-secret.c:89-98 | length rewritten, data moved up, freed octets cleared, nothing behind the old length touched |
| EccFixup.RoomForLength | agent/sexp-secret.c:91-94 | the shorter length fits the place of the longer one |
| EccFixup.FixRound | agent/sexp-secret.c:55-114 | one round replaces one list by its fixed form and the cursor ends behind it |
| EccFixup.FixLoop | agent/sexp-secret.c:55-117 | the loop rewrites all lists while it walks over them |
| EccFixup.ReadHeader | agent/sexp-secret.c:36-52 | errors, nothing to do, or the start of the lists |
| EccFixup.FixupEcc | agent/sexp-secret.c:28-120 | the buffer holds the fixed key, the freed tail is zero, nothing is written behind the old length |
| EccKeys.FixupIsDrop | agent/sexp-secret.c:55-118 | the fixed encoding of a key is the encoding of the key with the leading zero of d dropped |
| EccKeys.FixedAt | agent/sexp-secret.c:84-99 | parameter by parameter: d loses a leading zero unless the last curve before it is an opaque one, all others stay |
| EccKeys.ReadAgain | agent/sexp-secret.c:84-99 | the fixed key is accepted again, and is one canonical expression, if and only if no private part was a dropped zero octet alone |
| EccKeys.SecretLost | agent/sexp-secret.c:91-93 | a readable key whose private part is one zero octet becomes one that is refused |
| EccKeys.InitialisedIff | agent/sexp-secret.c:84-87 | the result is the same for all contents of the uninitialised name if and only if every private part with a leading zero has a curve before it |
| EccKeys.CurveTooLate | agent/sexp-secret.c:84-87 | one key with two results |
| EccCases.OtherAlgorithm | agent/sexp-secret.c:50-52 | a key of any other algorithm is left alone, whatever its parameters are |
| EccCases.OtherKind | agent/sexp-secret.c:43-48 | so is a shadowed key; any other kind is refused |
| EccCases.CurveDecides | agent/sexp-secret.c:84-104 | behind a curve, d loses a leading zero octet exactly if the curve is none of the three with an opaque private part |
| EccCases.CurveLimit | agent/sexp-secret.c:61-72 | a key is accepted if and only if no curve has a name of 256 octets or more |
| OpenPgp.Checksum | agent/cvt-openpgp.c:286-294 | the 16 bit sum of the octets |
| OpenPgp.SumConcat | agent/cvt-openpgp.c:286-294 | the sum of a concatenation is the sum of the sums modulo 65536 |
| OpenPgp.FirstBitsIs | agent/cvt-openpgp.c:453-464 | the nested bit tests compute the length in bits |
| OpenPgp.OpaqueForm | agent/cvt-openpgp.c:446-467 | the nested bit tests give an opaque value the form of its number |
| OpenPgp.ParamSumIs | agent/cvt-openpgp.c:446-480 | what is added for a parameter is the sum over its form, which for an opaque value is that of its number |
| OpenPgp.SumParams | agent/cvt-openpgp.c:437-482 | the loop over the parameters adds up to the checksum of the concatenated forms, or finds one that is missing or encrypted |
| OpenPgp.CheckClear | agent/cvt-openpgp.c:430-489 | an unprotected key is accepted exactly if the array is usable, all parameters are in the clear and the checksum is right |
| OpenPgp.ScanBack | agent/cvt-openpgp.c:379-406 | a packed parameter is scanned back if and only if it is not too long |
| OpenPgp.UnpackBack | agent/cvt-openpgp.c:591-612 | a packed list is unpacked if and only if no parameter is too long, leaving what follows it |
| OpenPgp.ProtectionRoundTrip | agent/cvt-openpgp.c:528-625 | the SHA-1 branch restores every parameter and leaves exactly the digest |
| OpenPgp.SumRoundTrip | agent/cvt-openpgp.c:569-587 | the same for the 16 bit checksum |
| OpenPgp.PackParams | agent/cvt-openpgp.c:1159-1194 | the second loop fills exactly the space that the first one computed, with the digest at its end |
| OpenPgp.PrintParams | agent/cvt-openpgp.c:1157-1172 | the printed parameters, or the failure to print one |
| OpenPgp.ApplyProtection | agent/cvt-openpgp.c:1140-1223 | the secret entries are replaced by one encrypted value, all others stay; if one cannot be printed nothing changes |
| OpenPgp.LawfulExists | agent/cvt-openpgp.c:1196-1207 | the laws asked of the cipher and the hash can be met |
| OpenPgp.UnpackInto | agent/cvt-openpgp.c:591-607 | the loop stores the unpacked parameters and the end mark, or fails where unpacking fails |
| OpenPgp.PrepareUnprotect | agent/cvt-openpgp.c:318-375 | the count of the entries, the cleared rest, and success exactly for a usable array |
| OpenPgp.DoUnprotect | agent/cvt-openpgp.c:413-615 | success exactly if the array is usable, the checksum right and every parameter readable; then exactly nskey entries |
| OpenPgp.ProtectUnprotect | agent/cvt-openpgp.c:1140-1223 | protecting and unprotecting an array restores it, with 20 octets left over, if and only if no parameter is too long |
| OpenPgpChecks.DigestDecides | agent/cvt-openpgp.c:556-577 | packed parameters with any twenty octets behind them open if and only if these are their digest and no parameter is too long |
| OpenPgpChecks.SumDecides | agent/cvt-openpgp.c:578-598 | with any two octets behind them, if and only if the sum of the octets is in these two or in the last two encrypted ones |
| OpenPgpChecks.FormIs | agent/cvt-openpgp.c:379-406 | what the packed form of a number consists of, and up to which length it is read back |
| OpenPgpChecks.FormExamples | agent/cvt-openpgp.c:388-388 | the examples of section 3.2 of RFC 4880 |
| OpenPgpChecks.CountsOfKeys | agent/cvt-openpgp.c:297-311 | the numbers of parameters are those of the keys that agent_protect splits |
| SshWire.U32Back | agent/command-ssh.c:470-518 | a number is read back |
| SshWire.StringBack | agent/command-ssh.c:591-650 | a string is read back and what follows it is left |
| SshWire.StdBack | agent/command-ssh.c:741-797 | the signed form of a number denotes the number |
| SshWire.MpiBack | agent/command-ssh.c:741-797 | a number is read back if and only if its form has at most 520 octets |
| SshWire.TableLookups | agent/command-ssh.c:299-370 | every type is found by its identifier, and those without certificate by both names of their curve |
| SshWire.FirstOfCurve | agent/command-ssh.c:403-419 | a curve is found at a type without certificate |
| SshWire.NumbersBack | agent/command-ssh.c:1279-1335 | the parameters are read back if and only if none is too long |
| SshWire.CertLetters | agent/command-ssh.c:1313-1325 | with a certificate the public numbers are taken from it and the others from the stream, each in the order of the letters |
| SshWire.PlainBlobBack | agent/command-ssh.c:2053-2251 | an RSA or DSA key, public or secret, is received as it was sent if and only if no number is too long |
| SshWire.EcdsaBlobBack | agent/command-ssh.c:2175-2208 | an ECDSA key, public or secret, is received with the type of its curve, the curve under its canonical name, and its numbers |
| SshWire.EddsaBlobBack | agent/command-ssh.c:2113-2174 | an EdDSA key is received with the prefix 0x40, unchanged if and only if it had the prefix; its private part exactly if that has 32 octets, or 64 of which the first half is taken |
| SshBlobs.U32IsBigEndian | agent/command-ssh.c:499-518 | four octets, the first of which counts most |
| SshBlobs.ShortestForm | agent/command-ssh.c:777-797 | the shortest octets that start below 128 and denote the number |
| SshBlobs.RsaBlob | agent/command-ssh.c:1945-1990 | an RSA key, octet by octet: e before n, and the secret one n, e, d, u, p, q |
| SshBlobs.DsaBlob | agent/command-ssh.c:1945-1990 | a DSA key: p, q, g, y, and then x |
| SshBlobs.EcdsaBlob | agent/command-ssh.c:1913-1937 | an ECDSA key: identifier and canonical name of its curve, the point, and the private number |
| SshBlobs.EddsaBlob | agent/command-ssh.c:1956-1973 | an EdDSA key: the 32 octets of the point without prefix, and the private part |
| SshBlobs.RsaName | agent/command-ssh.c:728-737 | the name in front of an RSA key, octet by octet |
| SshBlobs.RsaReceived | agent/command-ssh.c:1279-1335 | the numbers of a received RSA key and the letters they are read under |
| SshBlobs.CertCurveRow | agent/command-ssh.c:348-369 | the types with certificate of the three curves |
| SshBlobs.RsaCertOrder | agent/command-ssh.c:1291-1325 | the first number of an RSA certificate is taken for e in a public key and for n in a secret one |
| SshStreams.Stream.ReadUint32 | agent/command-ssh.c:471-496 | stream_read_uint32 reads like the specification and moves the position |
| SshStreams.Stream.ReadData | agent/command-ssh.c:522-541 | the octets asked for, or end of file |
| SshStreams.Stream.ReadStr | agent/command-ssh.c:591-648 | stream_read_string reads like the specification |
| SshStreams.Stream.ReadBlob | agent/command-ssh.c:652-697 | stream_read_blob adds the prefix |
| SshStreams.Stream.ReadMpint | agent/command-ssh.c:741-775 | stream_read_mpi reads like the specification |
| SshStreams.Stream.WriteStr | agent/command-ssh.c:710-725 | stream_write_string appends the wire form |
| SshStreams.ReceiveNumber | agent/command-ssh.c:1316-1324 | a number from the certificate or from the stream |
| SshStreams.ReceiveMpis | agent/command-ssh.c:1313-1335 | the loop reads the list of the specification from both streams, or its first error |
| SshStreams.WriteParams | agent/command-ssh.c:1946-1990 | the loop writes the parameters in the order of the letters |
| SshStreams.CurveType | agent/command-ssh.c:403-419 | the first type of that curve, by name or alias |
| SshStreams.LookupType | agent/command-ssh.c:2024-2044 | the first type of that identifier |
| SshStreams.KeyToBlob | agent/command-ssh.c:1860-2010 | ssh_key_to_blob, with or without the secret parameters, equals the specification, with its errors |
| SshStreams.ReceiveCert | agent/command-ssh.c:2075-2111 | the certificate is opened behind its type and its nonce, or the error |
| SshStreams.ReceiveSecret | agent/command-ssh.c:2139-2173 | the private part of an EdDSA key, or the error |
| SshStreams.ReceivePair | agent/command-ssh.c:2113-2174 | point and private part of an EdDSA key, or the error |
| SshStreams.ReceiveParams | agent/command-ssh.c:2113-2214 | the parameters of each kind of key, or the error |
| SshStreams.ReceiveKey | agent/command-ssh.c:2053-2221 | ssh_receive_key for public and secret keys, with certificates and comments, equals the specification, with its errors |
| SshStreams.ModifyRsa | agent/command-ssh.c:1341-1371 | p is at most q, their product is unchanged, and if u inverted q modulo p it inverts p modulo q |
| SshStreams.InverseExists | agent/command-ssh.c:1355-1366 | if u inverts q modulo p, then p has an inverse modulo q |
| SshStreams.InvertsExists | agent/command-ssh.c:1364-1366 | what is asked of the inversion can be met |
| SshStreams.AttachParams | agent/command-ssh.c:1808-1820 | every letter of the S-expression order gets the number received under that letter |
| SshStreams.ReceiveRsa | agent/command-ssh.c:2223-2236 | a received RSA key, repaired and reordered: n, e, d as sent, p at most q, the same product, and u the inverse of p if it was that of q |
| SshControl.ReadFlags | agent/command-ssh.c:985-1007 | whether a flag "confirm" is among the flags |
| SshControl.ReadGrip | agent/command-ssh.c:966-973 | forty digits in upper case and a separator, or failure |
| SshControl.ReadLine | agent/command-ssh.c:952-1016 | a line is parsed like the specification |
| SshControl.TtlAsAnnounced | agent/command-ssh.c:975-982 | the stored TTL is the one that the log announces if and only if the field is valid or its number is 0 as an int |
| SshControl.BadTtlStored | agent/command-ssh.c:975-982 | for every number below -1, or followed by something else than a blank, the number is stored and 0 announced |
| SshControl.FiveStored | agent/command-ssh.c:975-982 | one such line |
| SshControl.SearchFile | agent/command-ssh.c:1027-1059 | the first entry of the key, the end of the file, or a bad line |
| SshControl.EntryBack | agent/command-ssh.c:1102-1110 | a written entry is read back with its TTL and flag, enabled |
| SshControl.SearchAppend | agent/command-ssh.c:1027-1059 | appending does not change what is found before, and is searched if nothing is |
| SshControl.AddThenSearch | agent/command-ssh.c:1069-1118 | an absent key is found as added, a present one as before, every other key as before |
| SshControl.AddTwice | agent/command-ssh.c:1069-1118 | a second add does not change the file |
| SshControl.ControlFile.AddEntry | agent/command-ssh.c:1069-1118 | add_control_entry is the add of the specification |
| SshControlLines.LineRead | agent/command-ssh.c:952-1016 | a line put together from blanks, mark, keygrip, lifetime and flags is read as an entry that says that |
| SshControlLines.ConfirmsIff | agent/command-ssh.c:984-1007 | flags ask for confirmation if and only if one of them is "confirm" without an equals sign behind it |
| SshControlLines.CommentRead | agent/command-ssh.c:952-956 | blank lines and comments say nothing |
| SshControlLines.BadGrip | agent/command-ssh.c:966-973 | a first word that is no keygrip makes the line an error |
| SshControlLines.LineLimit | agent/command-ssh.c:935-950 | a line of at most 253 characters is read, a longer one is an error |
| CommandLine.MachineIsArguments | agent/w32main.c:107-155 | copying backslashes and taking them back computes what a tokenizer over whole runs of them computes |
| CommandLine.CountIsMachine | agent/w32main.c:64-93 | the first pass counts the entries of the second |
| CommandLine.SizeIsExact | agent/w32main.c:59-93 | the size is one more than the number of arguments, two more only for an empty command line |
| CommandLine.CountArgs | agent/w32main.c:59-93 | the first loop computes that size |
| CommandLine.SplitArgs | agent/w32main.c:102-155 | the write cursor stays between the start of the argument and the read cursor, finished arguments stay in place |
| CommandLine.FinishArgs | agent/w32main.c:157-162 | the last argument, unless it is empty, and the end mark are stored inside the array |
| CommandLine.BuildArgv | agent/w32main.c:47-165 | the array holds the arguments of the tokenizer and the end mark, inside the allocated size |
| CommandLineQuoting.QuotingRoundTrip | agent/w32main.c:107-158 | any arguments, escaped, put in quotation marks and joined, are taken apart again |
| CommandLineQuoting.WordsAreArguments | agent/w32main.c:107-158 | words without quotation marks, separated by any blanks, are the arguments |
| Description.CountLength | agent/findkey.c:483-568 | the first pass counts the length of the expansion with the fingerprints known at each place |
| Description.WriteExpansion | agent/findkey.c:483-571 | the second pass writes its expansion, exactly if it fits what was counted |
| Description.PassLengths | agent/findkey.c:524-535 | the second pass never writes less, and as much exactly if the fingerprints known at each place have the same sizes |
| Description.PassesAgree | agent/findkey.c:524-571 | the two lengths are equal if and only if the first call for the fingerprint gives as much as the last |
| Description.LateFingerprint | agent/findkey.c:524-535 | a template and calls for which the second pass writes more |
| Description.TrimInPlace | agent/findkey.c:574-586 | empty parentheses at the end and the blanks before them are removed in place |
| Description.ModifyDescription | agent/findkey.c:458-589 | the trimmed expansion in a buffer of exactly the expanded size if and only if the passes agree |
| Description.ExpandPlain | agent/findkey.c:550-556 | a template without percent signs stands for itself |
| Description.QuotedExpands | agent/findkey.c:493-498 | doubling percent signs lets any text through unchanged |
| DescriptionPieces.ExpandIsMeaning | agent/findkey.c:486-557 | the expansion is made of what each piece of the template stands for: comment, comment in parentheses, fingerprint, percent sign, unknown sequence, character |
| DescriptionPieces.EveryTemplate | agent/findkey.c:486-557 | every template is made of such pieces |
| DescriptionPieces.TrimmedIs | agent/findkey.c:574-586 | empty parentheses at the end go with the blanks before them, all but the first character |
| DescriptionPieces.NotTrimmed | agent/findkey.c:574-586 | any other text stays |

## Left out

- Libgcrypt, Assuan, estream and nPth: ciphers, key derivation, hashes, `gcry_sexp_canon_len` display hints, printing, scanning and inverting of numbers, connections and mutexes are parameters with stated laws (`Protection.Crypto`, `OpenPgp.Crypto`, `OpenPgp.Printer`, `SshStreams.Inverts`) or outcomes of a step.
- Memory: failing allocations, secure memory and wiping are not modelled; uninitialised contents are arbitrary parameters.
- Octets are characters, and nothing but the signedness in `Hex.HexValue` depends on their codes being below 256; reading behind the end of a buffer reads NUL, and a token that overruns the buffer is a parse error.
- Sexp.Snext: does not model the overflow of the C `int` that holds the length, because no buffer is that long.
- Opening.Undecryptable: the quick check joins its conditions by `&&` (agent/protect.c:882), so a clear text is claimed to be refused only if neither of its first two octets is a parenthesis or it is no canonical list.
- Opening.OpensIff: for counts that can be read; `RoundTrip.CountReadBack` and `Opening.RefusedLocks` cover the others.
- UnprotectLoops.AgentUnprotect: reports "openpgp-native" keys as an outcome, because their conversion (agent/protect.c:1211-1229) is a different mechanism.
- RoundTrip.RoundTripExact: says nothing about a count from 96 to 255 that is read as one that derives another key, because then the outcome depends on the cipher; `RoundTrip.CountReadBack` covers the reading.
- RoundTrip.UnprotectBack: the same.
- S2K calibration (agent/protect.c:101-227): timing and floating point.
- Shadow.ParseShadowInfo: without the length of the PIN, which is read from a cursor that has not been moved and which no caller uses.
- call-daemon.c: one type of daemon (agent_reset_daemon treats each type in turn), no disabled daemons, and no failing thread or home directory after the daemon has started (agent/call-daemon.c:405-411, 495-519).
- DaemonLoops.DaemonGlobal.Unlink: the structure of a session is a node of the heap list and an entry of a map, because the specification speaks of the sessions.
- cache.c: the encryption and padding of cached data, the key of the last hit, and lookups without a key.
- CacheRefinement.CacheIsMap: for keys that are used within one family of modes; `CacheDiscipline.MapIffOneFamily` shows that there is no other case.
- OpenPgp.SumParams: for opaque values of less than 8192 octets, because the form has 16 bits for the length.
- OpenPgp.DoUnprotect: the branch for packets of version 4; packets up to version 3, unsupported ciphers and the conversion of the restored parameters to an S-expression are not modelled. `OpenPgp.CheckClear` is the branch for unprotected keys.
- SshWire.PlainBlobBack: 32 bit lengths are assumed for what is written.
- SshStreams.ReceiveKey: the repair of RSA numbers and the order of the S-expression are separate members (`SshStreams.ModifyRsa`, `SshStreams.AttachParams`); the S-expression itself is Libgcrypt's.
- command-ssh.c: requests and replies, signatures.
- SshControl.SearchFile: without I/O errors; a bad or overlong line ends the search as in the code. Date and fingerprints of an added entry are given comment lines.
- `linefeed_to_percent0A`, `has_comment_expando` and the key files of findkey.c: easy members beside `Description.ModifyDescription`.
- agent/call-pinentry.c, agent/call-scd.c, agent/divert-scd.c, agent/learncard.c, agent/command.c, agent/gpg-agent.c, agent/trustlist.c, agent/pksign.c, agent/genkey.c: IPC commands, prompts, options, file access and library calls.
