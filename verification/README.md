# Virtual Private Node: verified models of its crash-safe core

A Virtual Private Node installs and operates a Bitcoin and LND node. The parts of it
that move durable state, secrets and money are sequences of small side effects, any of
which may fail half-way or be the last thing a killed process did. This project models those
sequences in Dafny, with the side effects as operations of an abstract world that may fail,
take effect without saying so, or stop the caller for good, and proves what every run
keeps and where it can end.

`dafny verify dfyconfig.toml` checks everything.

How faults are modelled: an operation that reports success has happened; one that reports
failure may or may not have happened. A kill is a latch: once it is set, every further
operation is inert, so the state a method leaves behind ranges over every state a kill could
leave. A `calm` flag says that nothing fails, which is what the convergence clauses are
conditioned on ("a calm run ...", "undisturbed"). Preconditions of the world's operations (for
instance that the password may be removed only under the plain unit, with no LND depending on
it) are safety obligations: every call in every method, rollbacks included, discharges them.
The auto-unlock world also keeps a ghost record of every write and of every sample the
operations returned; what a run "saw" or "proved" is read off that record.

| file | models |
|---|---|
| `AutoUnlockWorld.dfy`, `AutoUnlock.dfy`, `AutoUnlockRuns.dfy` | enabling and disabling LND auto-unlock: config flag, unit, password and stage file, restart drop-in, systemd's loaded view, and an LND process that may die or be replaced at any time |
| `Lifecycle.dfy` | the multi-file lifecycle bootstrap, its read-only classifier and its resume |
| `InstallLedger.dfy`, `InstallEngine.dfy` | the install ledger with its validator, the resume planner, and what passes can record |
| `InstallRun.dfy` | whole attended, unattended and bake runs, and the delivery of a generated admin password |
| `JsonKeys.dfy` | the duplicate-name check on a JSON token stream |
| `BackupPublisher.dfy` | publication of the channel backup while LND writes to it |
| `SatsFormat.dfy`, `AmountInput.dfy` | the three amount formatters, the parser, and the amount field |
| `HelperStream.dfy` | the privileged helper's progress stream, from root side to step list |
| `Payments.dfy`, `ChannelFunding.dfy` | outcomes of payments and of channel funding |
| `Basics.dfy` | the option type |

Findings, each stated and proved where the table says:

- `passwordPending` takes every `lstat` failure for "no marker" (`internal/installer/passwordpending.go:49-52`), while the
  classifier at the start of a run refuses on one (`internal/installer/lifecycle.go:252-266`). A run that is admitted and then
  cannot read the marker both when it decides or re-applies and before the terminal ledger
  completes the install with the generated password lost; `InstallRun.RunInstall` states exactly
  when, and `InstallRun.PasswordCanBeLost` is such a run.
- `writeVerifyDrop` makes its temporary file inside `lnd.service.d` (`internal/installer/lnd_auto_unlock.go:1423`), where
  `validateOptionalDropInDir` accepts nothing but the drop-in (`internal/installer/lnd_auto_unlock.go:1221-1242`) and nothing
  removes strangers. A kill between creating and renaming it makes every later enable and disable
  ask for repair (`AutoUnlockRuns.LeftoverBlocksForGood`); without such a leftover they always
  converge (`AutoUnlockRuns.ConvergesAfterAnyAttempts`).
- `config.Save` gives the configuration directory to its group only in the run that made it, and
  refuses any other owner (`internal/config/config.go:251-276`). A kill between the two blocks
  completion of the install for good (`InstallRun.HalfMadeDirectoryBlocks`).
- `formatWithCommas` of the smallest 64-bit number is `-`, because negating it changes nothing
  (`SatsFormat.FormatWithCommas`). `formatSats` does not group negative amounts, so the
  two agree on a negative amount exactly down to -999 (`SatsFormat.FormattersOnNegatives`).
- `parseSats` wraps around: it returns the written number exactly if that fits 63 bits
  (`SatsFormat.ParsedExactly`), which every value the amount field can hold does
  (`AmountInput.AnyEdits`).
- Backspace does not always undo a typed digit: with no room left, the digit pushes out another
  one, and a digit typed behind zeros makes them collapse for good (`AmountInput.TypeThenErase`
  gives the exact condition, `AmountInput.ZeroIsNotRestored` a text).

## Model

| member | source | states |
|---|---|---|
| AutoUnlock.EnableAutoUnlock | internal/installer/lnd_auto_unlock.go:129-288 | For every fault pattern, with LND free to die or be replaced before every operation: nothing on record is forgotten, and the outcome is honest. Enabled means flag, enabled unit, this very password, no drop-in, the normal restart policy loaded, and that under this policy the run saw an LND with unlock arguments, newer than the one it found, past its wallet. A verification failure means the full disabled state, with a LOCKED plain LND seen under the normal policy if the runtime was touched. Unless the drop-in directory holds a leftover of an earlier run, a calm run from any reachable disabled state succeeds exactly if the password is acceptable and opens the wallet; with a leftover every run asks for repair and leaves the disk as it was. |
| AutoUnlock.DisableAutoUnlockTransition | internal/installer/lnd_auto_unlock.go:290-376 | Disabled means the full disabled state, in which the run saw a LOCKED plain LND; StillEnabled means the full enabled state, in which it saw a self-unlocking one past its wallet; the unclassifiable branch (no password under the enabled unit) is never reached; unless the drop-in directory holds a leftover, a calm run from any reachable enabled state ends Disabled; with one every run asks for repair and leaves the disk as it was. |
| AutoUnlock.ReachLockedBaseline | internal/installer/lnd_auto_unlock.go:156-178 | On success no password or stage is stored, the plain unit stands behind the drop-in, LND does not depend on a password and the run has seen so, and the sample to compare with is no older than the invocation the run found. |
| AutoUnlock.ProveLocked | internal/installer/lnd_auto_unlock.go:327-353 | Before the password may be removed, a locked LND newer than the one found was seen under the plain unit and the normal policy, nothing depends on the password, and only the drop-in has changed on disk. |
| AutoUnlock.InstallCandidate | internal/installer/lnd_auto_unlock.go:193-213 | The password precedes the enabled unit, which is installed only behind the drop-in; a failure leaves the flag down. |
| AutoUnlock.ProveCandidate | internal/installer/lnd_auto_unlock.go:220-286 | Success means the full enabled state, in which an LND newer than the sampled one was seen past its wallet under the normal policy; a calm run succeeds exactly if the stored password opens the wallet. |
| AutoUnlock.PublishProved | internal/installer/lnd_auto_unlock.go:259-286 | From a proved candidate on: the drop-in goes, a newer LND is seen again under the normal policy, and only then is the flag raised. |
| AutoUnlock.RemovePasswordAndFinish | internal/installer/lnd_auto_unlock.go:354-375 | Once the password's absence has been observed, it stays absent and StillEnabled is ruled out; Disabled implies that observation; a calm run ends Disabled. |
| AutoUnlock.FinishDisabledAfterPasswordRemoval | internal/installer/lnd_auto_unlock.go:561-604 | Finishing an interrupted disable ends in the full disabled state, with a locked plain LND seen under the normal policy, or fails; it never touches the password; with the password gone a calm run always finishes. |
| AutoUnlock.RestoreDisabled | internal/installer/lnd_auto_unlock.go:435-496 | The rollback of enable: success is the full disabled state, with a newer locked plain LND seen under the normal policy if the runtime was touched. |
| AutoUnlock.RestoreEnabled | internal/installer/lnd_auto_unlock.go:513-559 | The rollback of disable: success is the full enabled state, proved anew in this run by a newer LND that was seen past its wallet again under the normal policy; with nothing failing any more and the right password still stored it always succeeds. |
| AutoUnlock.EnsureLockedRuntime | internal/installer/lnd_auto_unlock.go:606-628 | Success means that a running LND with plain arguments and a locked wallet was seen, reused or freshly started. |
| AutoUnlock.ReplaceWithLockedPlainInvocation | internal/installer/lnd_auto_unlock.go:417-433 | LND is stopped with evidence, the password is removed, and a newer locked plain invocation is seen, in that order. |
| AutoUnlock.RemovePasswordDurably | internal/installer/lnd_auto_unlock.go:397-415 | Success means neither password nor stage is left; every removal happens under the plain unit, with no LND depending on the password and evidence of that on record since the last start. |
| AutoUnlock.StopAndVerifyNoProcess | internal/installer/lnd_auto_unlock.go:691-721 | Success means that the last sample showed no main and no control process, that none is left, and that the one-attempt policy is loaded. |
| AutoUnlock.StopStartAndVerifyInvocation | internal/installer/lnd_auto_unlock.go:674-689 | A ready result means that a later invocation with the wanted arguments was bracketed and its wallet read in the wanted state, which for the enabled unit shows that the stored password opens the wallet; a calm run with a wrong password is seen to exit. |
| AutoUnlock.ReloadAndVerifyUnit | internal/installer/lnd_auto_unlock.go:630-672 | Success fixes exactly which unit and drop-in PID 1 has loaded, and no invocation is lost over it. |
| AutoUnlock.WaitForInvocation | internal/installer/lnd_auto_unlock.go:741-791 | Under any schedule of samples, ready means that an invocation newer than the previous one was bracketed by two equal running samples around a matching argument vector and the wallet was read next in the wanted state; exited and timed out mean samples that show just that; the number of polls is at most the timeout over the interval, rounded up, plus one. |
| AutoUnlock.PollInvocation | internal/installer/lnd_auto_unlock.go:748-785 | One poll is decisive only with evidence: a new invocation in the wanted state, or samples of a new one that exited, was replaced, or timed out while starting. |
| AutoUnlock.VerifyStableProcessArgs | internal/installer/lnd_auto_unlock.go:864-890 | Stable means that the last three observations are two equal running samples of this invocation around the expected argument vector; a change is reported only if the samples show it. |
| AutoUnlock.VerifyInvocation | internal/installer/lnd_auto_unlock.go:793-862 | A later look succeeds only at a live LND with the wanted arguments and wallet state in an invocation after the excluded one, and in a calm run always does at one. |
| AutoUnlockRuns.ConvergesAfterAnyAttempts | internal/installer/lnd_auto_unlock.go:129-376 | From a clean node, after any number of enable and disable attempts with any passwords, each failing or killed anywhere and possibly followed by a reboot, a calm run of the operation the flag selects completes, in the full disabled or enabled state, exactly if no attempt left anything but the drop-in in lnd.service.d; otherwise it asks for repair and the disk stays as it was. Over the whole record of all runs the three properties of the next rows hold at every instant. |
| AutoUnlockRuns.LeftoverBlocksForGood | internal/installer/lnd_auto_unlock.go:1173-1242 | The other case is reachable: once an enable of a clean node is killed between creating the temporary of the drop-in and renaming it, no calm run completes again, whatever is attempted in between. |
| AutoUnlockRuns.SafeRecord | internal/installer/lnd_auto_unlock.go:143-287 | On every record that runs leave: the flag is raised only over the complete enabled state and after a proof in that run; a password disappears or changes only under the plain unit, with LND seen in that run, since its last start, to have no process or plain arguments. |
| AutoUnlockRuns.ProofBeforeRelease | internal/installer/lnd_auto_unlock.go:143-287 | One-attempt safety: once a transition has the drop-in in place, at every later instant of it, rollbacks included, the enabled unit stands without the drop-in only if an invocation newer than the one the transition found was proved in it, with unlock arguments and past its wallet. |
| AutoUnlockRuns.ProofBehindMark | internal/installer/lnd_auto_unlock.go:741-791 | Wherever a run counts as proved, its own record holds two equal running samples of a newer invocation around the unlock arguments, followed by a wallet read past unlocking. |
| AutoUnlockRuns.EvidenceBehindMark | internal/installer/lnd_auto_unlock.go:397-433 | Wherever the password counts as unused, the run's record since its last start shows no process, or a stable one with plain arguments. |
| AutoUnlockRuns.SeenIsRecorded | internal/installer/lnd_auto_unlock.go:793-862 | Whatever an outcome claims to have seen is on the record, at the instant and under the loaded unit it names. |
| AutoUnlockWorld.Node.WriteUnit | internal/installer/lnd_auto_unlock.go:1019-1033 | The unit becomes the given variant or stays; the enabled one is only ever written behind the drop-in and over a stored password. |
| AutoUnlockWorld.Node.WriteVerifyDrop | internal/installer/lnd_auto_unlock.go:1173-1200 | Create, then rename: the drop-in appears or not; unless it succeeds, its temporary or a half-made directory may stay, which makes the inspection fail and which nothing clears. |
| AutoUnlockWorld.Node.RemoveVerifyDrop | internal/installer/lnd_auto_unlock.go:1203-1219 | Refused while the directory holds anything else; otherwise the drop-in goes, and only in a proved run may it go while the enabled unit stands. |
| AutoUnlockWorld.Node.WritePassword | internal/installer/lnd_auto_unlock.go:1065-1122 | Stage, rename, sync: any failure leaves the old file, a stage, or the new file, and an existing stage or an unacceptable password is refused untouched. |
| AutoUnlockWorld.Node.RemovePassword | internal/installer/lnd_auto_unlock.go:1048-1056 | Password and stage are unlinked one after the other, each of which may fail alone. |
| Lifecycle.PublishBootstrapPayload | internal/installer/lifecycle.go:901-935 | Stage, chmod, write, sync, rename: interrupted at any operation, with any umask and any partial write, the box is still the same network's bootstrap; success shows exactly the payload. |
| Lifecycle.CompleteLifecycleBootstrap | internal/installer/lifecycle.go:721-854 | Resuming keeps the classification at this network's bootstrap until it becomes resumable with the initial ledger; a calm resume of any recognized bootstrap gets there. |
| Lifecycle.InitializeLifecycle | internal/installer/lifecycle.go:672-709 | From a pristine box every interruption leaves it pristine, this network's bootstrap, or resumable with its initial ledger. |
| Lifecycle.RemovalCompletes | internal/installer/lifecycle.go:810-854 | Once the tree has its final modes, removing the bootstrap file alone turns the classification from bootstrap into resumable with the initial ledger. |
| Lifecycle.StartInstall | internal/installer/setup.go:134-186 | A bootstrap of another network is refused with nothing changed; a recorded lifecycle is never touched; a calm start always yields the ledger of the committed network. |
| Lifecycle.AnyInterruptedStarts | internal/installer/lifecycle.go:672-854 | After any number of starts with any requested networks, each interrupted anywhere: the classifier has only ever answered pristine, until one start committed to its network, and that network's bootstrap or its initial ledger ever after, never a refusal and never another network; one calm start then reaches that network's empty ledger. |
| InstallLedger.ValidInstallProgressSubset | internal/installer/ledger.go:203-223 | Accepts exactly the unions of a prefix of the full list and a prefix of the bake list. |
| InstallLedger.ValidateLedger | internal/installer/ledger.go:150-201 | Accepts exactly the documents with the fixed schema, a known status, network and mode, a legal cache size, well-formed entries, a cache size before any step, reachable progress, and every step if complete. |
| InstallLedger.Ledger.MarkDone | internal/installer/ledger.go:266-278 | Adds exactly this known step under a non-blank version, or refuses and changes nothing. |
| InstallLedger.Ledger.SetDbCache | internal/installer/ledger.go:280-290 | A legal size is recorded once and can only be repeated. |
| InstallLedger.Ledger.MarkComplete | internal/installer/ledger.go:292-298 | Complete exactly if every base step is recorded. |
| InstallEngine.PlanRun | internal/installer/engine.go:122-158 | A gate always runs, a grouped step runs exactly if its group's last member is unrecorded, any other exactly if it is unrecorded. |
| InstallEngine.PassSafety | internal/installer/engine.go:122-158 | Executing the next planned step, whether it succeeds or fails, keeps the trace of a pass safe: every earlier gate, and every earlier member of the group of a step that is no gate, was executed before it in that trace and succeeded. |
| InstallEngine.GroupsAreAtomic | internal/installer/engine.go:122-158 | From any accepted set a pass executes all non-gate members of a group or none, and none only if every one is recorded. |
| InstallEngine.SkippedIsRecorded | internal/installer/engine.go:143-154 | A step that a pass skips is recorded already, grouped or not. |
| InstallEngine.FilterBake | internal/installer/engine.go:164-180 | The bake list is the phase-filtered full list, in order. |
| InstallEngine.BakeKeysAreTheSlice | internal/installer/ledger.go:29-96 | The ledger's two key lists are the keys of the base step list and of its bake slice. |
| InstallEngine.BaseStepsAreAProfile | internal/installer/setup.go:583-793 | The base step list has distinct keys, groups within one phase, and one first-boot identity step, which is all the results below rely on. |
| InstallEngine.PassRecordsPrefix | internal/installer/engine.go:221-244 | From any accepted set, a pass that got through n steps leaves exactly that set plus the first n keys, skipped group members included. |
| InstallEngine.ValidatorIsExact | internal/installer/ledger.go:187-223 | The validator's progress condition holds of a step set exactly if some sequence of full and bake passes, each stopped anywhere, records it. |
| InstallEngine.SavedLedgersValid | internal/installer/ledger.go:150-201 | The whole ledger a pass saves after any number of steps is accepted by the validator, if the one it started from is and has a cache size. |
| InstallRun.RunIndex | internal/installer/engine.go:221-244 | One step: skipped without a trace, or executed, and if it succeeded recorded and published as one document; every durable ledger stays valid, and only the identity step touches the password. |
| InstallRun.RunSteps | internal/installer/engine.go:315-344 | A pass stopped anywhere leaves a valid ledger with exactly the steps recorded so far, and has executed no step without a successful execution, in the same pass, of every earlier gate and every earlier member of its group; a calm one records all. |
| InstallRun.ApplyIdentityAccess | internal/installer/identity.go:255-271 | The password is in force before it counts as applied, and a generated one is marked as owed before the step can succeed. |
| InstallRun.Box.PasswordPending | internal/installer/passwordpending.go:49-52 | Present means present; a failing lstat reads as absent. |
| InstallRun.DeliverPassword | internal/installer/setup.go:298-332 | Whatever is printed is in force, and the marker goes only after the print; undisturbed, a generated password is delivered if it was applied or the marker is read, and otherwise nothing about the password changes. |
| InstallRun.PublishTerminalLedger | internal/installer/setup.go:411-423 | The ledger becomes complete only with every step recorded and, undisturbed, exactly if the marker is absent or its lstat fails, which is put on record. |
| InstallRun.CompleteUnattended | internal/installer/setup.go:295-338 | Delivery precedes the terminal ledger; undisturbed, it ends delivered and complete, or with the password untouched and complete exactly if no marker is seen at the end. |
| InstallRun.Admit | internal/installer/lifecycle.go:252-284 | The classifier refuses a marker it cannot lstat and one beside a complete ledger; the wizard is refused while it sees a marker; otherwise an unfinished lifecycle is admitted. |
| InstallRun.PrepareInstallCompletion | internal/installer/setup.go:379-409 | Finalization is refused unless every step is recorded, and for good on a configuration directory left half-made. |
| InstallRun.Box.SaveConfig | internal/config/config.go:239-300 | Only the save that makes the configuration directory hands it to its group; one stopped in between makes every later save fail. |
| InstallRun.DecideDbCache | internal/installer/setup.go:228-241 | The cache size is durable before the first step can be. |
| InstallRun.RunInstall | internal/installer/setup.go:106-363 | Over every fault and kill: the ledger stays valid; a complete one, and a box whose marker the classifier cannot lstat, is never touched; an installed box owes nobody a password unless the lstat that let its ledger be completed missed the marker; anything printed is the password in force; no step is executed without the gates and group members before it. No run completes over a half-made configuration directory. Without one, and if only later lstats of the marker fail, an unattended run with the identity step before it delivers its password; one after it delivers an owed password exactly if it sees the marker when it re-applies and, with no step left, when it decides to generate one; otherwise nothing about the password changes and it installs, losing an owed password, exactly if the last lstat fails too. |
| InstallRun.AnyInstallRuns | internal/installer/setup.go:106-363 | From a fresh box, after any sequence of attended, unattended and bake runs and operator password changes, each stopped anywhere: every single run executed no step without the gates and group members before it, printed nothing but the password in force, and nothing was printed between runs; a completed ledger owes a password only if the last lstat before it missed the marker; and from an unfinished one a calm unattended run completes with no password owed exactly if the configuration directory is not half-made. |
| InstallRun.PasswordCanBeLost | internal/installer/setup.go:295-338 | A reachable run that loses a password: one run is killed after its last step, and the next cannot lstat the marker when it re-applies and when it completes. |
| InstallRun.HalfMadeDirectoryBlocks | internal/config/config.go:251-276 | A reachable box that no run ever completes: one is killed between making the configuration directory and giving it to its group, and whatever follows, no install ends. |
| JsonKeys.RejectDuplicateKeys | internal/installer/ledger.go:371-432 | The stack loop computes the verdict of the token machine, whatever the stream. |
| JsonKeys.DuplicateCheckIsExact | internal/installer/ledger.go:371-432 | On the token stream of any JSON documents, of any depth and mix, the check passes exactly if no object repeats a name and the stream ends without a decoding error. |
| JsonKeys.ValueAccepted | internal/installer/ledger.go:371-432 | From any stack that expects a value, the machine gets through a value's tokens exactly if its names are unique, and is back on the same stack with the value finished. |
| JsonKeys.MembersAccepted | internal/installer/ledger.go:380-398 | Inside an object the frame's key set is exactly the names seen so far, and a key is expected exactly between members. |
| BackupPublisher.EqualStatsProveConstancy | internal/installer/lnd_backup_export_linux.go:714-719 | When every write moves the change time on, two stat records are the same exactly if the file did not change at any instant in between. |
| BackupPublisher.CopyToTemp | internal/installer/lnd_backup_export_linux.go:371-388 | Against a writer that may interfere before every read, the copy equals the file as it was at the start whenever the change time has not moved. |
| BackupPublisher.CheckCopy | internal/installer/lnd_backup_export_linux.go:390-448 | Success means the temporary is complete, has its final metadata, and the source is, by handle and by name, what was first stat'ed. |
| BackupPublisher.Prepare | internal/installer/lnd_backup_export_linux.go:371-448 | A prepared copy equals the source throughout the interval from the first stat to the last, when the source path still led to it; nothing is shown meanwhile. |
| BackupPublisher.CreateExclusive | internal/installer/lnd_backup_export_linux.go:336-369 | At most sixteen exclusive creations; success is a new empty private file under a free, safe name; short of a kill, failure leaves the stage as it was. |
| BackupPublisher.Transfer | internal/installer/lnd_backup_export_linux.go:371-540 | However it ends, the final name has only ever shown the old file or the complete confirmed copy. |
| BackupPublisher.Cleanup | internal/installer/lnd_backup_export_linux.go:313-334 | An owned temporary is gone unless the cleanup reports failure; nothing else in the stage is touched. |
| BackupPublisher.PublishLNDBackup | internal/installer/lnd_backup_export_linux.go:206-540 | Against any writer and any faults: success means the published file is well-formed and equals the source throughout the first-to-last stat interval; at every instant the final name is the old file or that complete copy; the stage is unchanged unless cleanup failed or the process was killed; without faults and writes it succeeds exactly if nothing stands in the way. |
| BackupPublisher.AnyPublications | internal/installer/lnd_backup_export_linux.go:206-540 | After any number of runs, each against any writes and faults and killed anywhere: at every instant the final name shows the first file or a snapshot that one of the runs confirmed, and each run leaves at most one more temporary and takes nothing from the stage. |
| BackupPublisher.QuietPublication | internal/installer/lnd_backup_export_linux.go:206-540 | From whatever such runs leave, with the lock free and nothing foreign at the final name, one run without faults and writes publishes exactly if LND's file is there and well-formed and one of the sixteen names is free; the published file is a well-formed copy. |
| SatsFormat.FormatWithCommas | internal/tui/amount_input.go:342-368 | The grouped decimal for every 64-bit number but the smallest, which prints as a bare minus sign. |
| SatsFormat.FormatDigitsWithCommas | internal/tui/amount_input.go:372-388 | The grouped form of any digits, built from the left in groups. |
| SatsFormat.FormatSats | internal/tui/helpers.go:400-416 | The grouped decimal of a nonnegative amount, built character by character; a negative one stays ungrouped. |
| SatsFormat.ParseSats | internal/tui/amount_input.go:322-336 | The wrapped-around value of the digits, or 0 if anything but commas and surrounding space is left. |
| SatsFormat.FormattersAgree | internal/tui/amount_input.go:322-388 | For every nonnegative amount the three formatters give the same correctly grouped text, and the parser returns the amount with no intermediate overflow. |
| SatsFormat.FormattersOnNegatives | internal/tui/helpers.go:400-403 | For negative amounts formatWithCommas and formatSats agree exactly from -999 up. |
| SatsFormat.ParsedExactly | internal/tui/amount_input.go:328-335 | The accumulated value is the written number exactly if that is at most the largest 64-bit number, and then no prefix overflows. |
| SatsFormat.GroupedUnique | internal/tui/amount_input.go:372-388 | A text whose commas stand exactly at every fourth place from the right is the formatter's own grouping of its digits: there is no other correct one. |
| AmountInput.ToDigitSpace | internal/tui/amount_input.go:277-292 | The digits without commas, and the number of digits before the cursor. |
| AmountInput.FromDigitSpace | internal/tui/amount_input.go:298-315 | The position right after the digit with that number, or an end of the text; it maps back to the same digit position. |
| AmountInput.AmountField.Mutate | internal/tui/amount_input.go:184-235 | From any digits-and-commas text and any cursor the result is canonical: all zeros as typed, or one correctly grouped number without leading zeros. Its digits are the longest prefix of the significant edited digits that fits, and the cursor is at the edit's place among them, never behind a comma. |
| AmountInput.CanonicalIsDisplay | internal/tui/amount_input.go:218-224 | A canonical text is the display of its digits, so it carries nothing but them. |
| AmountInput.Capacity | internal/tui/amount_input.go:45-49 | Sixteen characters hold exactly the numbers of up to twelve digits, ten hold up to eight. |
| AmountInput.AnyEdits | internal/tui/amount_input.go:114-235 | After any keys, pastes, deletions and cursor moves the field is canonical, has at most twelve digits, and its value is exactly the number it shows. |
| AmountInput.TypeThenErase | internal/tui/amount_input.go:244-261 | From every canonical field, backspace takes back a typed digit exactly if, in a number, the digit had room or was a zero in front, and, among zeros, it had room and was a zero or came first. |
| AmountInput.ZeroIsNotRestored | internal/tui/amount_input.go:193-207 | A field on which it fails: after 0 and 5 are typed, erasing the 5 leaves it empty. |
| HelperStream.Session.Advance | internal/helper/client.go:135-175 | Errors stick; without one, waiting for a step or for the terminator gives the verdict on the whole stream, whatever was waited for before; it ends on every finite stream. |
| HelperStream.Session.EndErr | internal/helper/client.go:178-192 | A failed terminator is its error; a successful one is an error exactly for a step it never reported. |
| HelperStream.Session.Wait | internal/helper/client.go:202-214 | Success exactly at a successful terminator whose result decodes where one is wanted. |
| HelperStream.Host.RunSteps | internal/helperd/verbs.go:402-410 | The events sent are exactly the completed steps in order, and there is no error exactly if all completed. |
| HelperStream.Host.UpgradeP2PToHybrid | internal/helperd/verbs.go:463-503 | Steps are reported in order, each after its effect; the mode is published last and only from tor, and without faults it is. |
| HelperStream.Host.PackageUpdate | internal/helperd/verbs.go:412-426 | Every step may be reported and the operation still fail its postcondition. |
| HelperStream.StepList.RunStep | internal/tui/helper_steps.go:25-58 | A step of the shown list succeeds exactly if the stream reported it, and the last one only with the terminator. |
| HelperStream.NoFalseProgress | internal/helper/client.go:135-192 | However events are lost, cut off, repeated or mixed with garbage, as long as only sent ones are delivered, a step reported done was completed, and success means that the operation ended well with every step completed. |
| HelperStream.IntactStream | internal/helper/client.go:135-192 | On an intact stream exactly the completed steps succeed and every other wait ends with the terminator's verdict. |
| HelperStream.UpgradeThroughHelper | internal/tui/helper_steps.go:25-58 | Both sides together: never more steps shown than completed, success only with the mode published, and over an intact connection exactly the completed steps and the operation's own error. |
| Payments.SendPayment | internal/lndrpc/payments.go:54-120 | One payment is started, under the fee limit of its amount, or none because this call found no connection; a terminal status is returned exactly if a stream delivered it and is what LND settled on; once a stream was open and the hash known the answer is never an error, and it is in-flight only at this call's deadline or because it lost the connection. |
| Payments.RecoverPaymentOutcome | internal/lndrpc/payments.go:159-211 | Re-attachment by hash returns the first delivered terminal status, gives up only at the deadline or when it finds no connection, never without a try while time is left, and makes at most sixty track calls. |
| Payments.PaymentFeeLimitSat | internal/lndrpc/payments.go:32-41 | 1000 sats without an amount, 30 below 6000 sats, and half a percent rounded down from there on. |
| ChannelFunding.ResolveCoins | internal/app/coin_selection.go:61-80 | Succeeds exactly if the outpoints are distinct and all listed, with the coin the list holds for each, in order. |
| ChannelFunding.TotalOf | internal/app/channel_open.go:95-101 | The exact sum, without overflow, exactly if every coin is worth something and together they are at most all there is. |
| ChannelFunding.PrepareChannelOpen | internal/app/channel_open.go:76-125 | Accepts exactly the inputs the rules allow; the total is the exact sum of distinct listed coins, at most 21 million bitcoin, and more than the fixed amount. |
| ChannelFunding.OutpointIsWholeText | internal/lndrpc/queries.go:593-610 | Nothing in an accepted outpoint text is dropped: it is 32 bytes of hex, a colon, and the digits of the index. |
| ChannelFunding.OutpointRoundTrip | internal/lndrpc/queries.go:593-610 | The outpoint text of a listed coin parses back to that coin's transaction and index. |
| ChannelFunding.IdentityDenotes | internal/lndrpc/queries.go:548-560 | Two parsed outpoints have equal identities exactly if they denote the same output, in spite of letter case and leading zeros. |
| ChannelFunding.BuildOpenChannelRequest | internal/lndrpc/queries.go:524-562 | Built exactly if key, rules and every outpoint are good and no output is named twice; the request carries them all unchanged. |
| ChannelFunding.Lnd.OpenChannel | internal/lndrpc/queries.go:493-522 | At most one funding call, reported as submitted exactly if it was made; the transaction ID is LND's bytes reversed. |
| ChannelFunding.OpenChannel | internal/app/channel_open.go:144-179 | One funding call exactly if the peer is up and the coins are in the list just read, spending those coins only, each once; NotSubmitted exactly if no call was made; broadcast only with LND's transaction ID. |
| ChannelFunding.PreparedIsBuildable | internal/app/channel_open.go:76-125 | What preparation accepts from a list LND gives, the request builder never rejects. |

## Left out

- Recovery and repair texts, and the error values themselves: only outcomes and failed-step names are modelled.
- File ownership, symlinks, openat2 resolution and hard links: abstracted to the success or failure of the operation; modes only where the lifecycle classifier and the backup publisher decide on them.
- Power loss that reorders unsynced directory entries: processes stop between operations and inside the calls that are modelled as several of them, but what an operation did stays done.
- Parsing of systemd's ExecStart text, of /proc and of drop-in contents (`internal/installer/lnd_auto_unlock.go:643-672`, `900-932`): a sample reports the argument vector, and other drop-ins than the verification one are one case.
- Cryptography: a wallet is opened by one password, digests are equal when contents are; elliptic-curve and host:port validation of a channel peer is an input.
- AutoUnlock.VerifyInvocation: stands for the three functions that look again at the current invocation, which differ only in the previous invocation they exclude.
- AutoUnlockWorld.Node.Artifacts: contents of managed files that match no known variant are one unknown unit, which both transitions refuse; unreadable or foreign files are a failed inspection.
- AutoUnlockWorld.Node.WriteUnit: temporary files that a kill leaves beside the unit, the config, the ledger or a marker are not modelled: nothing looks for strangers in the directories that hold them.
- AutoUnlock.EnableAutoUnlock: assumes of LND that, told to unlock itself, it gets past its wallet only if the file it read opens it, and of systemd that an invocation's argument vector is fixed and its ID never reused.
- Lifecycle.StartInstall: stray entries are flags rather than lists of names; the JSON codec of the ledger is an arbitrary pair of functions that round-trips the initial ledgers.
- InstallRun.RunInstall: starts from an initialized lifecycle, since the bootstrap has its own model; what steps do to the machine is not modelled apart from the identity step's password; the run lock, the preflight and the steps are calls that succeed or fail and that a later run can repeat, wherever an earlier one was killed in them; a marker with foreign contents, which the classifier refuses, is not modelled.
- InstallRun.RunSteps: the step statuses shown on screen and the split of an unfinished run into failed and interrupted are not modelled; a pass either got through its steps or did not.
- InstallRun.AnyInstallRuns: other runs at the same time (excluded by the run lock) and edits of the marker outside the program are not modelled.
- Wizard and terminal screens: only that the cache size is stored before steps start and that completion runs once.
- BackupPublisher.EqualStatsProveConstancy: assumes that every write moves the change time on; coarse kernel timestamps are outside the model.
- BackupPublisher.PublishLNDBackup: LND never writes into the publisher's own two directories, and makes finitely many writes during one run; consecutive calls without an effect of their own (sync, close, injected checks) are one call.
- SatsFormat.ParseSats: strings are sequences of characters, so invalid UTF-8 is outside the model.
- AmountInput.AmountField.Mutate: the text widget itself, keys passed through to it and amounts set by the program that are wider than the limit are not modelled; every edit starts from an arbitrary cursor.
- HelperStream.Session.Advance: JSON decoding is a line that is an event or is malformed; deadlines are streams that end.
- HelperStream.Host.UpgradeP2PToHybrid: the verb's steps are effects that succeed or not; `verbSyncthingInstall` has the same shape and is not repeated.
- Payments.SendPayment: LND is assumed to report true and final outcomes; route hops, aliases and preimages are the opaque detail of an update.
- ChannelFunding.OpenChannel: the coins LND picks from the allowed pool, fees and change are LND's; `CoinSelection`'s toggling and sorting is a plain set.
- Password-file staging of Syncthing, torrc and lnd.conf texts, SSH key editing, Tor polling and the credential restage limiter: single-branch members.
