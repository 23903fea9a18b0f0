# PrivateFind: verified models of its protocols

PrivateFind is a Bluetooth finder: a tracker's firmware, built on Nordic's SDK, and a Django server that registers trackers and
stores encrypted reports of found ones. This project models four parts of it in Dafny and proves what they
promise over all inputs and, for the protocols, over all runs.

**ANT encryption negotiation.** A slave channel that hears its master enables encryption, but only one channel of the device may
negotiate at a time: a global flag serves as a lock. `AntModel` has the static variables and one transition for each entry point;
`AntSteps` says what single transitions do; `AntRuns`, `AntStates` and `AntLate` prove properties of all runs from boot, for any number of channels, any
interleaving of events and configuration calls and any codes returned by the SoftDevice; `AntEncryption` is the code as it runs, a
class whose methods are proved to take exactly these transitions and which remembers its own run.

**The server.** `Finder` has sessions, trackers and findings and one transition for each request; `FinderRuns` proves properties of
all runs; `FinderRepairs` says what reports and deletes achieve under each choice of repairs, as written included, and when a report
can be replayed; `FinderServer` is the class of request handlers. `Bytes`, `Encodings` and `Messages` hold the number, text and
message formats.

**The tracker's hash and setup.** `Sha256Words`, `Sha256Constants`, `Sha256Rounds`, `Sha256` and `Hmac` are the firmware's incremental hash, from the
macros on words and the 64 rounds to the padding, proved equal to the definitions of FIPS 180-4 and RFC 2104 for every way of cutting
the input into pieces; `Setup` joins tracker and server: a provisioned tracker's answer is always accepted.

**Board LEDs.** `Leds` compares the macros that write a whole port with the functions that write one pin at a time; `LedWords` links
its sets of bits to 32-bit words.

## Reading the model

- The SoftDevice is the environment. The codes it returns are parameters (`rc`, `rcs`); every call made is logged. A failing enable
  during an event ends the program (`APP_ERROR_CHECK`): the state is `halted` and no transition follows.
- Two assumptions on the SoftDevice appear, each only where it is named. `Obedient`: success and fail events arrive only for channels
  that the module has as negotiating or unsupported. `Asked`, which is weaker: for a supported channel they arrive only while an enable
  issued by an event is outstanding, not ended by a success, a fail or a loss. The code releases the lock on these events without asking
  who holds it; `MutualExclusion` and `LockNeverLeaked` say for every run exactly what that costs, and `ExclusionNeedsObedience` shows
  the failure without any assumption.
- Three things the negotiation does not guarantee. Configuring a channel while it negotiates leaves the lock taken (`OrphaningLeaks`,
  `LeakReachable`) until the stack is configured or a supported channel's negotiation is reported over (`LeakLastsIff`). The SoftDevice
  is not told of such a configuration, so that report may well be the orphaned negotiation's own: `LeakEndsIff` and `AskedRecoverableIff`
  say when it comes, and `LateSuccessDecrypts` that the channel may then count as decrypted with settings that were never enabled.
  Configuring the stack during a negotiation can let two channels negotiate at once (`AskedCanFail`); nothing else can
  (`AskedRunsAreExclusive`).
- Before the first stack configuration every channel that nothing configured counts as supported with zeroed settings:
  `EnableBeforeConfiguration` shows a broadcast enabling with them, and `SupportedIff` and `EnablesUseSlaveSettings` say that the settings
  are those of a configured slave exactly once the stack is configured.
- Both modules are modelled as compiled with `ANT_ENCRYPT_NEGOTIATION_SLAVE_ENABLED` and `ANT_CONFIG_ENCRYPTED_CHANNELS > 0`. The values
  of `ENCRYPTION_DISABLED_MODE`, `ADV_BURST_MODE_ENABLE` and `EXT_PARAM_ALWAYS_SEARCH` come from `ant_parameters.h`, which is not part of
  this model.
- Requests are handled one at a time and carry all their fields, except that a report may lack `signature`; base64 fields arrive
  decoded (`None` if they do not decode). HMAC is a parameter of the server; its 16 random bytes are parameters and assumed never to
  give the same key twice (`Fresh`).
- Seven lines of `views.py` fail or do not do what the code around them means. Each has a switch in `Finder.Repairs`, so the server is
  modelled for all 128 choices, and every theorem of `FinderRuns` holds for each of them. Unrepaired: the counter stays the tuple that
  `struct.unpack` returns and `struct.pack` fails on it (line 49); 12 bytes are compared with the whole digest (line 63); the log of a
  mismatch reads a field that the request may not have (line 64); the text column keeps the printed form of the base64 bytes (line 67,
  Django's conversion of bytes); the manager has no `delete` (line 87) and `HttpResponse` is not imported (line 88); the push function
  is called without the message, after the report is stored (line 102). As written, a report of 96 bytes or one that does not decode
  ends in an exception and any other is answered with `success` false (`TupleRaisesIff`); `AcceptableIff`, `ServedIff`,
  `StoringPossibleIff` and `DeleteAnswer` say exactly which repairs achieve what.
- Nothing compares a report's counter with the stored one, so a report can be stored again once its finding is deleted: `ReplayIff`
  says exactly when, `RepeatNeedsDelete` what has to happen in between.
- Trackers may be there at the start of a run, without token or finding, and the admin site may add more at any time.
- The words of the hash are numbers below 2^32 and the bitwise macros are functions on `bv32`. Where the source joins four bytes by
  shifts and `|` (sha256.c:81) the model adds them with their place values; where it shifts and masks bytes out of a word it divides.
- A 32-bit port or mask is the set of its one bits; the LED code uses bitwise operators only, and `LedWords` proves that on `bv32` they
  are the set operations.

## Model

| member | source | states |
|---|---|---|
| AntRuns.MutualExclusion | Firmware/nRFSDK/components/ant/ant_encryption/ant_encrypt_negotiation_slave.c:105-188 | in every run, at most one channel negotiates and then the lock is taken at every step, if and only if no step reports the end of a negotiation for a supported channel while another channel negotiates |
| AntRuns.StepExclusiveIff | Firmware/nRFSDK/components/ant/ant_encryption/ant_encrypt_negotiation_slave.c:144-188 | the same for one transition: exclusion is kept exactly when the transition does not intrude |
| AntRuns.ObedientRunsAreExclusive | Firmware/nRFSDK/components/ant/ant_encryption/ant_encrypt_negotiation_slave.c:144-188 | with an obedient SoftDevice every state of every run is exclusive, under any interleaving with configuration calls |
| AntRuns.ExclusionNeedsObedience | Firmware/nRFSDK/components/ant/ant_encryption/ant_encrypt_negotiation_slave.c:173-183 | a run of three events after which two channels negotiate |
| AntRuns.LockNeverLeaked | Firmware/nRFSDK/components/ant/ant_encryption/ant_encrypt_negotiation_slave.c:120-183 | the lock is taken exactly while one channel negotiates, throughout a run, if and only if no step intrudes and no configuration overwrites a negotiating channel |
| AntRuns.StepTightIff | Firmware/nRFSDK/components/ant/ant_encryption/ant_encrypt_config.c:156-197 | the same for one transition |
| AntRuns.OrphaningLeaks | Firmware/nRFSDK/components/ant/ant_encryption/ant_encrypt_config.c:156-197 | configuring a negotiating channel leaves the lock taken with nobody negotiating |
| AntRuns.LeakReachable | Firmware/nRFSDK/components/ant/ant_encryption/ant_encrypt_config.c:156-197 | an obedient run from boot that ends with the lock leaked: stack and slave configured, a broadcast, the slave configured again |
| AntRuns.LeakLastsIff | Firmware/nRFSDK/components/ant/ant_encryption/ant_encrypt_negotiation_slave.c:112-183 | in every run, with no assumption on events, the lock stays leaked from one state to another if and only if no step between them configures the stack or reports the end of a negotiation for a supported channel; meanwhile no channel becomes decrypted and no event makes a SoftDevice call |
| AntRuns.CanNegotiate | Firmware/nRFSDK/components/ant/ant_encryption/ant_encrypt_negotiation_slave.c:112-188 | with a tight lock, any supported undecrypted channel negotiates after at most two events |
| AntRuns.NotStuck | Firmware/nRFSDK/components/ant/ant_encryption/ant_encrypt_negotiation_slave.c:112-188 | and is decrypted after at most three |
| AntRuns.RecoverableIff | Firmware/nRFSDK/components/ant/ant_encryption/ant_encrypt_negotiation_slave.c:112-188 | from an exclusive state, some list of events that an obedient SoftDevice can send decrypts the channel if and only if the lock is not leaked |
| AntLate.AskedRecoverableIff | Firmware/nRFSDK/components/ant/ant_encryption/ant_encrypt_negotiation_slave.c:112-188 | when the SoftDevice reports only negotiations it was asked for, some continuation of a run by events decrypts a supported channel if and only if the lock is not leaked or the end of a negotiation is owed for a supported channel |
| AntLate.LeakEndsIff | Firmware/nRFSDK/components/ant/ant_encryption/ant_encrypt_negotiation_slave.c:173-183 | and events can free a leaked lock if and only if such an end is owed |
| AntLate.AskedRunsAreExclusive | Firmware/nRFSDK/components/ant/ant_encryption/ant_encrypt_negotiation_slave.c:112-188 | with such a SoftDevice every state is exclusive as long as the stack is not configured while the end of a negotiation is owed, whatever channels are configured meanwhile |
| AntLate.AskedCanFail | Firmware/nRFSDK/components/ant/ant_encryption/ant_encrypt_config.c:98-107 | a run with such a SoftDevice, with the stack configured during a negotiation, after which two channels negotiate |
| AntLate.ClashIff | Firmware/nRFSDK/components/ant/ant_encryption/ant_encrypt_negotiation_slave.c:173-183 | its next step can break exclusion if and only if one channel negotiates while the end of another supported channel's negotiation is owed |
| AntLate.ObedientIsAsked | Firmware/nRFSDK/components/ant/ant_encryption/ant_encrypt_negotiation_slave.c:120-183 | an obedient SoftDevice reports only negotiations it was asked for |
| AntLate.NegotiatingIsOwed | Firmware/nRFSDK/components/ant/ant_encryption/ant_encrypt_negotiation_slave.c:120-133 | in every run a negotiating channel's enable is outstanding |
| AntRuns.DecryptedIff | Firmware/nRFSDK/components/ant/ant_encryption/ant_encrypt_negotiation_slave.c:93-188 | in every obedient run a channel is decrypted if and only if an enable was issued for it with the settings still saved for it, a success came later, and since the enable there was no stack configuration, no configuration of the channel, no loss and no failure |
| AntRuns.DecryptedIffSuccess | Firmware/nRFSDK/components/ant/ant_encryption/ant_encrypt_negotiation_slave.c:144-188 | in every run, obedient or not, a channel is decrypted if and only if a success was reported while it was supported and since then there was no stack configuration, no configuration of the channel, no loss and no failure |
| AntRuns.DecryptionNeedsObedience | Firmware/nRFSDK/components/ant/ant_encryption/ant_encrypt_negotiation_slave.c:173-178 | without obedience a channel can be decrypted though encryption was never enabled |
| AntLate.AskedDecryptedIff | Firmware/nRFSDK/components/ant/ant_encryption/ant_encrypt_negotiation_slave.c:144-188 | when only negotiations that were asked for are reported, a channel is decrypted if and only if an event enabled encryption on it, its success came later with no other end between, and nothing dropped the channel since |
| AntLate.LateSuccessDecrypts | Firmware/nRFSDK/components/ant/ant_encryption/ant_encrypt_config.c:167-182 | for any two settings, a slave configured with the first, heard, configured with the second and then reported as a success ends decrypted with the second saved and the lock free, though the only enable carried the first |
| AntRuns.SupportedIff | Firmware/nRFSDK/components/ant/ant_encryption/ant_encrypt_config.c:98-182 | a channel is supported if and only if it was configured as a slave with encryption not disabled, with the settings now saved, and neither the stack nor the channel was configured since, or if the stack was never configured and neither was the channel; for a supported channel the first holds exactly when the stack is configured |
| AntRuns.EnablesUseSlaveSettings | Firmware/nRFSDK/components/ant/ant_encryption/ant_encrypt_negotiation_slave.c:131-133 | every enable an event issues carries the settings saved for its channel; they are those of such a slave, with encryption not disabled, if and only if the stack is configured, and zero before that |
| AntRuns.EnableBeforeConfiguration | Firmware/nRFSDK/components/ant/ant_encryption/ant_encrypt_negotiation_slave.c:112-133 | the failing case: after boot one broadcast enables encryption with zeroed settings |
| AntRuns.BeforeConfiguration | Firmware/nRFSDK/components/ant/ant_encryption/ant_encrypt_config.c:142-200 | until the stack is configured every saved setting is zero and the supported channels are those that nothing configured |
| AntRuns.EventsKeepUnsupported | Firmware/nRFSDK/components/ant/ant_encryption/ant_encrypt_negotiation_slave.c:150-153 | over any list of events an unsupported channel stays unsupported, its events touch neither the lock nor the SoftDevice, and no saved setting changes |
| AntStates.ChannelStateIff | Firmware/nRFSDK/components/ant/ant_encryption/ant_encrypt_negotiation_slave.c:144-188 | in every run a channel is in a given tracking state if and only if the last step that touched it set that state, or nothing touched it since boot and the state is not tracking; a loss sets not tracking, a fail encrypted, a success decrypted, a broadcast that takes the lock negotiating, and configurations not tracking or unsupported |
| AntStates.StepSets | Firmware/nRFSDK/components/ant/ant_encryption/ant_encrypt_negotiation_slave.c:144-188 | the same for one transition: the state it sets, or else the state before |
| AntRuns.ChannelMoves | Firmware/nRFSDK/components/ant/ant_encryption/ant_encrypt_negotiation_slave.c:144-188 | how a transition may move one channel: what starts, ends and keeps a negotiation and a decryption, and the state after a loss and after a fail |
| AntRuns.HandlerLog | Firmware/nRFSDK/components/ant/ant_encryption/ant_encrypt_config.c:203-238 | the user handler's calls are exactly the lost, success and fail events of the run in order, while a handler is registered and the stack was not configured since, each seeing the channel state after its event |
| AntStates.UserEvents | Firmware/nRFSDK/components/ant/ant_encryption/ant_encrypt_config.c:221-231 | the handler is told of a loss, a success and a fail by these names, and of no other event |
| AntSteps.AttemptStopsAtFirstError | Firmware/nRFSDK/components/ant/ant_encryption/ant_encrypt_config.c:67-96 | the calls made are a prefix of the plan, all but the last succeed, and the code is the first error or success for the whole plan |
| AntSteps.StackConfigResult | Firmware/nRFSDK/components/ant/ant_encryption/ant_encrypt_config.c:63-108 | stack configuration returns the first error; exactly when the whole plan succeeds it resets every channel, frees the lock, drops the handler and marks the stack configured; otherwise only calls were made |
| AntSteps.StackPlanOrder | Firmware/nRFSDK/components/ant/ant_encryption/ant_encrypt_config.c:67-96 | the position and content of every call: keys in index order, the burst configuration with its eight bytes, then encryption id, user data and random seed as far as present |
| AntSteps.BurstBytes | Firmware/nRFSDK/components/ant/ant_encryption/ant_encrypt_config.c:121-126 | the burst configuration byte by byte |
| AntSteps.ChannelPlanOrder | Firmware/nRFSDK/components/ant/ant_channel_config/ant_channel_config.c:51-75 | the calls of a channel set-up with each field in its place: assign, id, frequency, and the period if and only if bit 0 of the extended assignment is clear |
| AntSteps.ChannelInitCalls | Firmware/nRFSDK/components/ant/ant_channel_config/ant_channel_config.c:48-85 | channel initialisation makes a prefix of its plan, the period left out for always-search, the enable at the end |
| AntSteps.ChannelInitResult | Firmware/nRFSDK/components/ant/ant_channel_config/ant_channel_config.c:71-85 | it succeeds exactly when every planned call does and the settings are acceptable, and then the channel's state and settings are those of its type and mode and no other channel changed |
| AntSteps.ReconfigureEffect | Firmware/nRFSDK/components/ant/ant_encryption/ant_encrypt_config.c:142-200 | what accepted and refused channel configurations change, before and after the stack is configured |
| AntStates.ConfigureAnswer | Firmware/nRFSDK/components/ant/ant_encryption/ant_encrypt_config.c:142-200 | the SoftDevice call, the return code and the saved settings of every channel configuration, accepted or refused |
| AntSteps.StackConfigEffect | Firmware/nRFSDK/components/ant/ant_encryption/ant_encrypt_config.c:98-107 | what a successful and a failing stack configuration change |
| AntEncryption.Encryption.NegotiationSlaveInit | Firmware/nRFSDK/components/ant/ant_encryption/ant_encrypt_negotiation_slave.c:76-84 | the loop makes every channel unsupported and frees the lock |
| AntEncryption.Encryption.SlaveEncryptTryEnable | Firmware/nRFSDK/components/ant/ant_encryption/ant_encrypt_negotiation_slave.c:105-141 | takes the `TryEnable` transition in place |
| AntEncryption.Encryption.SlaveEncryptNegotiation | Firmware/nRFSDK/components/ant/ant_encryption/ant_encrypt_negotiation_slave.c:144-188 | takes the `Negotiate` transition in place |
| AntEncryption.Encryption.SlaveChannelEncryptConfig | Firmware/nRFSDK/components/ant/ant_encryption/ant_encrypt_negotiation_slave.c:93-98 | saves the settings of one channel and changes nothing else |
| AntEncryption.Encryption.AdvancedBurstConfigApply | Firmware/nRFSDK/components/ant/ant_encryption/ant_encrypt_config.c:118-129 | sends the eight configuration bytes with the three settings in their places |
| AntEncryption.Encryption.ApplyStackPlan | Firmware/nRFSDK/components/ant/ant_encryption/ant_encrypt_config.c:67-96 | the loops make exactly the calls of an attempt at the plan and return its code |
| AntEncryption.Encryption.StackEncryptionConfig | Firmware/nRFSDK/components/ant/ant_encryption/ant_encrypt_config.c:63-108 | one `StackConfig` transition, with its return code, recorded in the run |
| AntEncryption.Encryption.ChannelEncryptConfigCall | Firmware/nRFSDK/components/ant/ant_encryption/ant_encrypt_config.c:142-200 | one `ChannelEncryptConfig` transition, with its return code, recorded in the run |
| AntEncryption.Encryption.EventHandler | Firmware/nRFSDK/components/ant/ant_encryption/ant_encrypt_config.c:211-233 | one `HandleEvent` transition, recorded in the run |
| AntEncryption.Encryption.EventHandlerRegister | Firmware/nRFSDK/components/ant/ant_encryption/ant_encrypt_config.c:235-238 | replaces the handler, recorded in the run |
| AntEncryption.Encryption.ChannelInitialise | Firmware/nRFSDK/components/ant/ant_channel_config/ant_channel_config.c:48-85 | one `ChannelInit` transition, with its return code, recorded in the run |
| AntEncryption.ObjectIsExclusive | Firmware/nRFSDK/components/ant/ant_encryption/ant_encrypt_negotiation_slave.c:56-62 | an object driven by an obedient environment never has two negotiating channels, nor a free lock with one |
| AntSteps.EventFrame | Firmware/nRFSDK/components/ant/ant_encryption/ant_encrypt_negotiation_slave.c:144-188 | an event changes no other channel and no saved setting, and nothing at all on an unsupported channel |
| AntSteps.EventStartsNegotiation | Firmware/nRFSDK/components/ant/ant_encryption/ant_encrypt_negotiation_slave.c:112-141 | an event calls the SoftDevice exactly when a broadcast finds the lock free and the channel neither negotiating nor decrypted, and then with the saved settings |
| FinderRuns.FindingsAreAcceptedReports | Backend/finder_backend/finder/views.py:46-75 | in every run a tracker's findings are exactly its accepted reports, in order, since findings were last deleted with its token |
| FinderRuns.FindingsDistinct | Backend/finder_backend/finder/models.py:26-31 | in every run no two findings share tracker and counter |
| FinderRuns.FindingsAuthentic | Backend/finder_backend/finder/views.py:46-67 | every finding comes from an accepted report of the run, for its own tracker and with its own 32-bit counter, whose tag is the HMAC of address, counter and payload under the tracker's present key; the finding's text decodes to these if and only if the text column is repaired |
| FinderRuns.FindReport | Backend/finder_backend/finder/views.py:63-67 | every finding comes from an accepted report of the run |
| FinderRuns.FoundCounterIsLast | Backend/finder_backend/finder/views.py:70-71 | a tracker's counter is that of its last accepted report, deleted or not, or 0 |
| FinderRuns.FindingsAnswer | Backend/finder_backend/finder/views.py:82-84 | asking with a tracker's latest token returns exactly its accepted reports since its last delete; the answer is that no tracker exists if and only if the token is no tracker's latest |
| FinderRuns.ReportsIff | Backend/finder_backend/finder/views.py:43-77 | a report is accepted exactly when the counter is unpacked, it has 96 bytes, its tracker is known, its tag equals the digest or its first 12 bytes and its counter is not stored |
| FinderRuns.FoundAnswers | Backend/finder_backend/finder/views.py:63-75 | once the tag is compared, exactly when a report is answered with invalid signature, with the missing field's exception, with duplicate counter, with success and with the push call's exception |
| FinderRuns.EarlyAnswers | Backend/finder_backend/finder/views.py:43-56 | before that, exactly when it is answered for an undecodable message, another length, an unknown tracker, a counter that is a tuple and a bad address or key |
| FinderRuns.TextColumn | Backend/finder_backend/finder/views.py:67 | what the text column keeps of the base64 bytes, repaired and as written |
| FinderRepairs.TupleRaisesIff | Backend/finder_backend/finder/views.py:43-77 | while the counter stays a tuple, a report changes nothing and ends in an exception if and only if it does not decode or has 96 bytes; any other is answered with success false |
| FinderRepairs.AcceptableIff | Backend/finder_backend/finder/views.py:46-67 | with 32-byte digests, some tag gets a report accepted if and only if counter and tag comparison are repaired, the tracker is known and the counter is not stored |
| FinderRepairs.ServedIff | Backend/finder_backend/finder/views.py:63-104 | an accepted report is answered as a success and stored as text that decodes to it if and only if the text column is repaired and the push call is repaired or not made |
| FinderRepairs.NothingStored | Backend/finder_backend/finder/views.py:49-71 | without both repairs no run ever stores a finding or moves a counter |
| FinderRepairs.StoringPossibleIff | Backend/finder_backend/finder/views.py:49-71 | from every start of the server, some run stores a report with a given tracker, counter and payload if and only if counter and tag comparison are repaired and the tracker is known with hexadecimal address and key or can still be added |
| FinderRepairs.FindingsOnlyGrow | Backend/finder_backend/finder/views.py:85-88 | without its repair no delete removes anything in any run |
| FinderRepairs.DeleteAnswer | Backend/finder_backend/finder/views.py:85-88 | what a delete with a tracker's latest token answers under each repair; the table of findings loses all rows of that tracker and none of another exactly when the rows are deleted, whatever it answers |
| FinderRepairs.RepeatNeedsDelete | Backend/finder_backend/finder/views.py:66-71 | two accepted reports with the same tracker and counter have a delete with the tracker's latest token between them |
| FinderRepairs.ReplayIff | Backend/finder_backend/finder/views.py:66-71 | an accepted report sent again is accepted again if and only if none with its counter was accepted since the tracker's last delete |
| FinderRepairs.ReplayPossibleIff | Backend/finder_backend/finder/views.py:43-88 | and some run stores that very report twice if and only if moreover the delete is repaired |
| FinderRuns.FailureChangesNothing | Backend/finder_backend/finder/views.py:24-102 | a request that fails leaves every session, tracker and finding alone exactly when it neither stored a report nor deleted a finding before it failed |
| FinderRuns.ChallengeUsedOnce | Backend/finder_backend/finder/views.py:19-39 | over all sessions of a run, no challenge backs two successful registrations |
| FinderRuns.RepeatedGetsAgree | Backend/finder_backend/finder/views.py:19-22 | a session is offered the same challenge until it registers |
| FinderRuns.ChallengesDecode | Backend/finder_backend/finder/views.py:14-28 | every pending challenge decodes to 16 bytes |
| FinderRuns.TokenResolvesIff | Backend/finder_backend/finder/views.py:83-94 | a token opens a tracker if and only if it is the latest issued to it, and no lookup finds two trackers |
| FinderRuns.SupersededTokenIsDead | Backend/finder_backend/finder/views.py:37-38 | after a tracker registers again its earlier token opens nothing |
| FinderRuns.TokenIsLatest | Backend/finder_backend/finder/views.py:36-39 | only registrations change tokens: the stored token is the latest issued |
| FinderRuns.PushIsLatest | Backend/finder_backend/finder/views.py:93-98 | the stored push service is the one last named with the tracker's latest token of the time |
| FinderRuns.KeysNeverChange | Backend/finder_backend/finder/models.py:8-10 | a tracker stays known with the key it came with |
| FinderRuns.KnownSinceAdded | Backend/finder_backend/finder/models.py:6-10 | a tracker is known if and only if it was there from the start or was added since |
| FinderRuns.RegistersIff | Backend/finder_backend/finder/views.py:24-39 | a registration succeeds exactly on the setup response to the challenge pending in its session |
| FinderRuns.RegistrationAnswers | Backend/finder_backend/finder/views.py:24-39 | exactly when a registration fails with each error, in the order the code looks, and that a token is the base64 of the random bytes |
| FinderRuns.AddedIff | Backend/finder_backend/finder/models.py:6-10 | a tracker is added if and only if its address is new and has 12 lower-case hexadecimal digits and its key 1 to 64 characters |
| FinderServer.Backend.RegisterViewGet | Backend/finder_backend/finder/views.py:19-22 | one `RegisterGet` transition, recorded in the run |
| FinderServer.Backend.RegisterViewPost | Backend/finder_backend/finder/views.py:24-39 | one `RegisterPost` transition, recorded in the run |
| FinderServer.Backend.FoundViewPost | Backend/finder_backend/finder/views.py:43-77 | one `Found` transition, recorded in the run |
| FinderServer.Backend.LookUp | Backend/finder_backend/finder/views.py:83 | the one tracker with the token, or the error for none or several |
| FinderServer.Backend.FindingsViewGet | Backend/finder_backend/finder/views.py:82-84 | one `FindingsGet` transition: the tracker's rows, in order |
| FinderServer.Backend.FindingsViewDelete | Backend/finder_backend/finder/views.py:85-88 | one `FindingsDelete` transition, recorded in the run |
| FinderServer.Backend.PushTokenViewPost | Backend/finder_backend/finder/views.py:93-98 | one `PushToken` transition, recorded in the run |
| FinderServer.Backend.AddTracker | Backend/finder_backend/finder/models.py:6-18 | one `Provision` transition, recorded in the run: a new address of 12 lower-case hexadecimal digits and a key of at most 64 characters |
| Messages.ReportRejoins | Backend/finder_backend/finder/views.py:46-49 | counter, payload and tag of a report rejoin to it, and the counter has 32 bits |
| Messages.ReportSplits | Backend/finder_backend/finder/views.py:46-49 | a report built from a counter, a payload and a tag splits back into them |
| Messages.ReportTextInjective | Backend/finder_backend/finder/views.py:55 | the authenticated text of a report determines address, counter and payload |
| Messages.TextsDiffer | Backend/finder_backend/finder/views.py:29 | no report text is a registration text |
| Messages.RegistrationLayout | Backend/finder_backend/finder/views.py:29 | a registration text byte by byte: REG and a zero byte, the address, the challenge |
| Messages.ReportLayout | Backend/finder_backend/finder/views.py:55 | a report text byte by byte: FIN and a zero byte, the address, the counter in network order, the payload |
| Messages.ReportParts | Backend/finder_backend/finder/views.py:47-49 | counter, payload and tag of a report by byte position |
| Bytes.UnpackPack | Backend/finder_backend/finder/views.py:55 | unpacking inverts packing for every number that fits |
| Bytes.PackUnpack | Backend/finder_backend/finder/views.py:49 | packing inverts unpacking for every byte sequence |
| Encodings.UnhexlifyHexlify | Backend/finder_backend/finder/models.py:19-22 | decoding inverts hexadecimal encoding |
| Encodings.HexlifyUnhexlify | Backend/finder_backend/finder/models.py:6-20 | every lower-case hexadecimal text of even length decodes, to half its length, and encodes back to itself |
| Encodings.PrintedAddress | Backend/finder_backend/finder/models.py:23-24 | dropping the dashes of a printed address and lowering its case gives the address back |
| Encodings.AddressesDiffer | Backend/finder_backend/finder/models.py:6-24 | addresses of 12 lower-case digits have 6 bytes; different ones have different bytes and print differently |
| Encodings.Unbase64Base64 | Backend/finder_backend/finder/views.py:14-15 | decoding inverts base64 for every byte sequence |
| Encodings.Base64Injective | Backend/finder_backend/finder/views.py:14-15 | different bytes give different keys |
| Encodings.Base64Layout | Backend/finder_backend/finder/views.py:14-15 | base 64 as section 4 of RFC 4648 describes it: groups of 24 bits, the alphabet, the padding of a rest |
| Encodings.Base64Alphabet | Backend/finder_backend/finder/views.py:14-15 | the alphabet of section 4 of RFC 4648, for writing and reading |
| Encodings.HexAlphabet | Backend/finder_backend/finder/models.py:19-22 | the hexadecimal digits of both cases, for writing and reading |
| Encodings.HexlifyLayout | Backend/finder_backend/finder/models.py:19-22 | two lower-case digits for each byte, high digit first |
| Encodings.DashedHexLayout | Backend/finder_backend/finder/models.py:23-24 | two upper-case digits for each byte, high digit first, and dashes between |
| Sha256.Context.Init | Firmware/nRFSDK/components/libraries/sha256/sha256.c:118-134 | starts an empty message |
| Sha256.Context.Absorb | Firmware/nRFSDK/components/libraries/sha256/sha256.c:147-155 | appends one byte to the message, compressing a full buffer |
| Sha256.Context.Update | Firmware/nRFSDK/components/libraries/sha256/sha256.c:137-158 | appends the bytes to the message, whatever was absorbed before |
| Sha256.Context.PadBuffer | Firmware/nRFSDK/components/libraries/sha256/sha256.c:168-182 | pads in one block or two; only the length is then missing from the padded message |
| Sha256.Context.PutLength | Firmware/nRFSDK/components/libraries/sha256/sha256.c:185-193 | writes the bit count as eight bytes, most significant first |
| Sha256.Context.PutHash | Firmware/nRFSDK/components/libraries/sha256/sha256.c:214-223 | writes the chaining value as 32 bytes and changes no other byte |
| Sha256.Context.Final | Firmware/nRFSDK/components/libraries/sha256/sha256.c:161-227 | writes the digest of the whole message, padded and chained as FIPS 180-4 defines it, for any operations on words |
| Sha256.FirmwareDigest | Firmware/nRFSDK/components/libraries/sha256/sha256.c:48-115 | with the firmware's operations on words this digest is the one of FIPS 180-4 for every message |
| Sha256.Context.Transform | Firmware/nRFSDK/components/libraries/sha256/sha256.c:76-115 | the two schedule loops, the 64 rounds and the additions compute the recursive definition of section 6.2.2 of FIPS 180-4 |
| Sha256.Context.ExpandBlock | Firmware/nRFSDK/components/libraries/sha256/sha256.c:80-83 | fills the array with the message schedule |
| Sha256.Context.LoadWords | Firmware/nRFSDK/components/libraries/sha256/sha256.c:80-81 | the first loop: sixteen words of the block |
| Sha256.Context.ExtendWords | Firmware/nRFSDK/components/libraries/sha256/sha256.c:82-83 | the second loop: the recurrence of the schedule |
| Sha256.Context.Mix | Firmware/nRFSDK/components/libraries/sha256/sha256.c:85-105 | the loop over the eight working variables is the recursive round function |
| Sha256.WordIsBigEndian | Firmware/nRFSDK/components/libraries/sha256/sha256.c:80-81 | the word loaded from four bytes is the one whose bytes, most significant first, are these |
| Sha256.FirstWords | Firmware/nRFSDK/components/libraries/sha256/sha256.c:80-81 | the first sixteen words of the schedule are the bytes of the block, four by four |
| Sha256.WordBytesAreBigEndian | Firmware/nRFSDK/components/libraries/sha256/sha256.c:214-223 | the bytes written for a word are its bytes, most significant first |
| Sha256Rounds.ScheduleSum | Firmware/nRFSDK/components/libraries/sha256/sha256.c:82-83 | each later word of the schedule as one sum modulo 2^32 of the words 2, 7, 15 and 16 before it |
| Sha256Rounds.RoundsInOrder | Firmware/nRFSDK/components/libraries/sha256/sha256.c:85-94 | the rounds start from the eight words in order and use constant and schedule word t in round t |
| Sha256Rounds.RoundSum | Firmware/nRFSDK/components/libraries/sha256/sha256.c:94-105 | a round moves six variables on and makes the two new ones as single sums modulo 2^32 |
| Sha256Rounds.CompressSum | Firmware/nRFSDK/components/libraries/sha256/sha256.c:107-114 | the result of a block is the sum modulo 2^32 of the chaining value and the working variables |
| Sha256Rounds.FipsOperations | Firmware/nRFSDK/components/libraries/sha256/sha256.c:51-68 | which function of the standard stands in which place of these sums |
| Sha256Words.BigSigma0Bit | Firmware/nRFSDK/components/libraries/sha256/sha256.c:53 | bit by bit, the exclusive or of three rotated bits |
| Sha256Words.BigSigma1Bit | Firmware/nRFSDK/components/libraries/sha256/sha256.c:54 | bit by bit, the exclusive or of three rotated bits |
| Sha256Words.SmallSigma0Bit | Firmware/nRFSDK/components/libraries/sha256/sha256.c:55 | bit by bit, the exclusive or of two rotated bits and a shifted one |
| Sha256Words.SmallSigma1Bit | Firmware/nRFSDK/components/libraries/sha256/sha256.c:56 | bit by bit, the exclusive or of two rotated bits and a shifted one |
| Sha256Words.MacrosAreFips | Firmware/nRFSDK/components/libraries/sha256/sha256.c:48-56 | each macro equals the function of section 4.1.2 of FIPS 180-4 on every word |
| Sha256Rounds.FirmwareOpsAreFips | Firmware/nRFSDK/components/libraries/sha256/sha256.c:48-56 | the firmware's operations have the values of the standard's |
| Sha256Constants.ConstantsAreFractions | Firmware/nRFSDK/components/libraries/sha256/sha256.c:59-68 | each round constant is the first 32 bits of the fractional part of the cube root of its prime, as section 4.2.2 of FIPS 180-4 defines it |
| Sha256Constants.FractionUnique | Firmware/nRFSDK/components/libraries/sha256/sha256.c:59-68 | a number has one such fraction only, so the definition fixes the table |
| Sha256Constants.InitialWordsAreFractions | Firmware/nRFSDK/components/libraries/sha256/sha256.c:124-131 | the eight initial words are the first 32 bits of the fractional parts of the square roots of the first eight primes (section 5.3.3 of FIPS 180-4) |
| Sha256.OneFinalBlock | Firmware/nRFSDK/components/libraries/sha256/sha256.c:171-175 | the padded message is the compressed part and one block when fewer than 56 bytes remain |
| Sha256.TwoFinalBlocks | Firmware/nRFSDK/components/libraries/sha256/sha256.c:176-182 | and two blocks otherwise |
| Sha256.PaddingLayout | Firmware/nRFSDK/components/libraries/sha256/sha256.c:168-193 | the padding byte by byte: 0x80, the fewest zeros, and the bit count modulo 2^64 in eight bytes |
| Sha256.BitLengthIs | Firmware/nRFSDK/components/libraries/sha256/sha256.c:152-185 | the bits counted block by block are eight times the bytes modulo 2^64 |
| Hmac.MacInit | Firmware/nRFSDK/examples/ble_peripheral/ble_app_proximity/sys_encryption.c:56-64 | starts the message with the key block combined with the inner pad |
| Hmac.MacFinal | Firmware/nRFSDK/examples/ble_peripheral/ble_app_proximity/sys_encryption.c:65-77 | returns the HMAC of the key and the text absorbed since, as RFC 2104 defines it over that hash |
| Hmac.FirmwareMac | Firmware/nRFSDK/examples/ble_peripheral/ble_app_proximity/sys_encryption.c:56-77 | with the firmware's operations this is HMAC-SHA-256 over the hash of FIPS 180-4 |
| Hmac.MacLayout | Firmware/nRFSDK/examples/ble_peripheral/ble_app_proximity/sys_encryption.c:56-77 | HMAC with both pads written out byte by byte, for keys of at most a block |
| Hmac.LongKey | Backend/finder_backend/finder/views.py:56 | a key longer than a block counts as its digest, as section 2 of RFC 2104 says |
| Hmac.XorByteBits | Firmware/nRFSDK/examples/ble_peripheral/ble_app_proximity/sys_encryption.c:62-70 | the combination of a key byte and a pad byte has the bits of either that are not bits of both |
| Hmac.GenerateSetupResponse | Firmware/nRFSDK/examples/ble_peripheral/ble_app_proximity/sys_encryption.c:82-98 | returns the HMAC of the registration text of address and challenge |
| Hmac.OnSetupChallenge | Firmware/nRFSDK/examples/ble_peripheral/ble_app_proximity/ble_cryptofinderservice.c:143-157 | notifies the first 16 bytes of it, for the device address in printing order |
| Hmac.AddressReversed | Firmware/nRFSDK/examples/ble_peripheral/ble_app_proximity/ble_cryptofinderservice.c:130-138 | the address sent to the hash is the first six bytes of the device address in reverse |
| Setup.AnswerAccepted | Backend/finder_backend/finder/views.py:27-35 | in every reachable state the server accepts a provisioned tracker's answer to the pending challenge |
| Setup.TrackerAnswers | Firmware/nRFSDK/examples/ble_peripheral/ble_app_proximity/sys_encryption.c:82-98 | the firmware's answer, computed on its own hash, is the first 16 bytes of HMAC-SHA-256 |
| Setup.AnswerChallenge | Backend/finder_backend/finder/views.py:24-39 | the answer to the pending challenge gives a token that opens exactly this tracker and uses up the challenge |
| Setup.SetUp | Backend/finder_backend/finder/views.py:19-39 | challenge, firmware answer and registration together give a token that opens exactly this tracker and use up the challenge |
| Leds.OnAgreesIff | Firmware/nRFSDK/components/boards/boards.h:298-300 | the macro leaves the same port as the indexed functions, for every port and mask, if and only if the polarity mask matches the active level |
| Leds.OffAgreesIff | Firmware/nRFSDK/components/boards/boards.h:294-296 | likewise for switching off |
| Leds.InvertAgreesIff | Firmware/nRFSDK/components/boards/boards.h:304-307 | it agrees with the indexed toggles if and only if the mask holds LED bits only |
| Leds.IsOnAgreesIff | Firmware/nRFSDK/components/boards/boards.h:302 | reading one LED's bit agrees with the indexed read, for every LED and port, if and only if the polarity matches |
| Leds.BoardPolarity | Firmware/nRFSDK/components/boards/arduino_primo.h:52-58 | the condition fails on the Arduino Primo and the PCA10031 and holds on the PCA10028 and the nRF6310 |
| Leds.WriteIndexedIs | Firmware/nRFSDK/components/boards/boards.c:60-88 | writing the LEDs of a mask one by one sets or clears exactly the LED bits of the mask |
| Leds.InvertIndexedIs | Firmware/nRFSDK/components/boards/boards.c:90-94 | toggling distinct pins one by one is exclusive-or with their bits |
| Leds.Gpio.LedsOn | Firmware/nRFSDK/components/boards/boards.h:298-300 | the two register writes of the macro; under a matching polarity every LED in the mask then reads as on, and no bit outside the mask and the LEDs changes |
| Leds.Gpio.LedsOff | Firmware/nRFSDK/components/boards/boards.h:294-296 | the two register writes of the macro; under a matching polarity every LED in the mask then reads as off, and no bit outside the mask and the LEDs changes |
| Leds.Gpio.LedsInvert | Firmware/nRFSDK/components/boards/boards.h:304-307 | the two register writes of the macro, from the state read first; exactly the bits in the mask flip, and with them the readings of the LEDs in the mask on every board |
| Leds.Gpio.BoardLedOn | Firmware/nRFSDK/components/boards/boards.c:60-64 | writes the active level and the LED then reads as on |
| Leds.Gpio.BoardLedOff | Firmware/nRFSDK/components/boards/boards.c:66-70 | writes the other level and the LED then reads as off |
| Leds.Gpio.BoardLedInvert | Firmware/nRFSDK/components/boards/boards.c:90-94 | toggles the pin, and the LED then reads the other way |
| Leds.Gpio.BoardLedsOn | Firmware/nRFSDK/components/boards/boards.c:81-88 | the loop is the indexed write of all LEDs, and every LED then reads as on |
| Leds.Gpio.BoardLedsOff | Firmware/nRFSDK/components/boards/boards.c:72-79 | the loop is the indexed write of all LEDs, and every LED then reads as off |
| Leds.InvertMaskIs | Firmware/nRFSDK/components/boards/boards.h:304-307 | inverting is exclusive-or with the mask and its own inverse |
| LedWords.MacrosAgree | Firmware/nRFSDK/components/boards/boards.h:294-307 | what the macros write and test on words is what the set model says, for every board, port and mask |
| LedWords.MachineAgreesIff | Firmware/nRFSDK/components/boards/boards.h:294-302 | on 32-bit words, switching on, switching off and reading agree with the indexed functions for every port and mask if and only if the polarity matches |
| LedWords.WordsAgreeIff | Firmware/nRFSDK/components/boards/boards.h:294-302 | the same for words of any type whose operators act bit by bit |
| LedWords.OperatorsAreSetOperations | Firmware/nRFSDK/components/boards/boards.h:294-307 | and, or, exclusive-or, and-not, a shifted one and zero are intersection, union, symmetric difference, difference, singleton and empty set; words with the same bits are equal |
| LedWords.MachineWordsLawful | Firmware/nRFSDK/components/boards/boards.h:294-307 | the operators on 32-bit words act bit by bit, and 32 bits determine a word |
| LedWords.WordFor | Firmware/nRFSDK/components/boards/boards.h:294-307 | every set of pins is the bits of some word |

## Left out

- The little-endian output of `sha256_final` (sha256.c:196-208): no caller in the application asks for it.
- The tracker's location report (ble_cryptofinderservice.c:160-178) and its AES-CTR encryption: the cipher is a SoftDevice call, and the report of 90 bytes is not one the server takes.
- The user handler calling back into the encryption modules, and interrupts inside an entry point: each entry point is one transition.
- Channel numbers outside the arrays and null context pointers: the source does not define what happens.
- Requests interleaving inside a handler, other missing request fields, database failures, and editing or deleting rows through the admin site.
- Python's lenient base64 decoding of client text (it skips foreign characters): request fields arrive decoded.
- Sending push messages, logging and routing: input and output only, apart from the exceptions that the calls raise.
- `LEDS_CONFIGURE`, the button functions and the pin lookups of boards.c: they set pin directions once at start, read one input bit against its active level and search the pin list; no LED is written through them.
- The Android application, the SDK's other drivers and libraries, and the chip start-up files.
