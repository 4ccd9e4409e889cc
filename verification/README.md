# The libata command engine in Dafny

A model of how one ATA port of the vmkdrivers libata stack allocates, issues, completes, aborts and
recovers commands, and of the data-path algorithms it runs, with proofs of what the code promises
through its WARN_ONs, comments and error paths. The whole project is checked with
`dafny verify dfyconfig.toml`.

## How it is built

Code that changes state in the source is a class here, updated in place by methods with the source's
loops; each method is proved equal to a function on values, and the properties are proved about those
functions and about runs of step systems built from them.

| files | subject |
|---|---|
| `Ata`, `PortModel`, `AtaPort` | constants; the port as a value with one function per operation; the port as a class |
| `PortInvariant`, `PortPreserve`, `PortIssue`, `PortRecovery` | the invariant of a port and its preservation by completion, issue and error handling |
| `PortSystem`, `PortActs`, `PortRuns` | midlayer, timers, interrupts and error handler interleaved; what each step does; theorems over all runs |
| `PortFrozen`, `PortWarns` | when a port is frozen and what follows; what its warnings stand for |
| `TagMask` | the 32-bit words behind the tag sets |
| `NcqBlame` | who is blamed after an NCQ error, up to the midlayer's retry counts |
| `EhReset`, `EhRecover`, `EhProbe`, `EhRecovery` | reset rounds; the recovery loop and its measure; detach and probe requests and whole passes device by device; the loop in place |
| `ScatterList`, `AtapiBytes`, `Hsm`, `HsmEnds`, `HsmMachine` | scatter lists; the ATAPI cursor; the host state machine; how it ends commands, in status bits; the machine in place |
| `HsmDriver`, `HsmDrives` | the machine's two drivers interleaved; what each of them makes it do |
| `PrdTable`, `DmaPad` | PRD tables; 4-byte padding of DMA transfers |
| `ScsiXlat`, `ScsiTaskfile` | reads, writes and verifies as taskfiles, with an independent decoder for the device's side; flags and registers by opcode number |
| `Ahci`, `AhciClears` | the PxCI and PxSACT registers against qc_active and sactive, from above and from below |
| `ErrorRing`, `BusTiming`, `PhyDebounce` | the error ring as a log; bus timing; PHY debounce |

Error masks are sets of AC_ERR bits, tag bitmaps are sets of tags (`TagMask` relates them to words),
and the flag `warned` of `PortModel` collects the WARN_ON and BUG conditions of issue, completion,
hand-back and exit, those of `Hsm` and `HsmDriver` (`warned`, `bad`) the ones of the state machine, so
that "no warning" is a property of the state (`PortWarns`, `HsmEnds.WarnsExactly` and
`HsmDrives.BadExactly` say when each is set). The WARN_ON on ATA_QCFLAG_ACTIVE at the head of
ata_hsm_move has its own theorem. The counters `life` and `dones` are bookkeeping that the theorems
about exactly-once completion speak of. A scatter list stands for the sequence of its byte addresses.

## What the code does differently from its own words

Each of these has a lemma with a concrete input or an exact condition:

* `lba_28_ok` and `lba_48_ok` add in 64 bits and wrap; READ(6) and WRITE(6) drop bits 4:0 of byte 1
  (`ScsiXlat.RwPreserves`, `Read16Wraps`, `Read6LosesBits`).
* `ata_scsi_change_queue_depth` may set NCQ_OFF while queued commands are in flight, after which the
  next read or write breaks the NCQ exclusion (`PortRuns.NcqOffBreaksExclusion`, `IssueSafeIff`).
* `ata_fill_sg` adds offset and length in 32 bits (`PrdTable.RightIffNoWrap`).
* Clock counts are stored in 16 bits, mode 0xFF matches the end mark, and PIO modes 5 and 6 recurse
  forever (`BusTiming.NeverTooFast`, `OverflowExample`, `SentinelIsFound`, `RecursionEndsIff`).
* `ata_dev_disable` does nothing when driver messages are masked out, and recovery may then not end
  (`EhRecover.AlwaysEndsIff`, `NeverEndsWithoutMessages`). Here `ata_port_init` always sets
  ATA_MSG_DRV (libata-core.c:5337-5344), so the case arises only if something else clears it.
* On a frozen port, after a driver that has charged a command itself, or without a usable log page
  10h, every failed command inherits a port-level device error (`NcqBlame.CleanIffLogNames`).
* AHCI completion relies on PxCI clearing before PxSACT (`Ahci.StaleCiIsFatal`).
* A DMA engine error seen while the device is still busy leaves the state machine in HSM_ST_ERR with
  nobody to move it; only the SCSI timeout ends such a command (`HsmDriver.OneDriver`, `StrandsIff`,
  `BusyDmaErrorStrands`).
* An internal PIO command that is aborted is completed at once, while its task may still be about to
  call ata_hsm_move: the WARN_ON on ATA_QCFLAG_ACTIVE then fires (`HsmDriver.InactiveMoveIff`).
* `ata_pio_sector` maps one page per sector, which is enough exactly for segments that are
  sector-aligned or lie within a page (`Hsm.SectorsInPages`).

## Assumptions

* Steps under the host lock are atomic. The midlayer queues nothing while the error handler runs,
  gives a device without NCQ one command at a time, drops the done callback of a command whose timer
  has fired, and starts the handler only when every unfinished command is on `eh_cmd_q`.
* The NCQ switches change only while no NCQ command is in flight outside the error handler.
* Ports have an `error_handler` (new EH). Device answers, status bytes, register contents and clocks
  are arbitrary parameters; DMA mapping is the identity or fails.
* CDB_INTR is set on ATAPI devices only, which get no ATA_PROT_PIO writes; driver messages are on,
  except where a theorem says otherwise.

## Model

| member | source | states |
|---|---|---|
| PortRuns.NeverWarns | vmkdrivers/src26/drivers/ata/libata-core.c:4611-4656 | No WARN_ON or BUG of issue, completion, EH hand-back and EH exit fires in any state of any run, for every interleaving of midlayer, timers, interrupts and error handler |
| PortRuns.FrozenIsQuiescent | vmkdrivers/src26/drivers/ata/libata-core.c:4367-4387 | In every reachable state with FROZEN set no qc can be found from its tag, no tag is handed out, and completing any register contents changes nothing |
| PortRuns.QueuesExclusive | vmkdrivers/src26/drivers/ata/libata-scsi.c:1531-1546 | Always sactive within qc_active within qc_allocated; a valid active_tag is the only active command and excludes NCQ; NCQ in flight means active_tag is POISON; need_defer keeps it so |
| PortRuns.ExactlyOnce | vmkdrivers/src26/drivers/ata/libata-eh.c:191-345 | At every moment each allocation has completed at most once and been freed at most once, and exactly once each when over; each SCSI command sits on a queue exactly when its phase says so and has been given back once or not at all |
| PortRuns.SessionEnds | vmkdrivers/src26/drivers/ata/libata-eh.c:317-328 | When eh_done_q is flushed, eh_cmd_q is empty, host_failed is zero, every tag is free, every issued qc completed and freed once, and every SCSI command ends finished exactly once |
| PortRuns.SessionBounded | vmkdrivers/src26/drivers/ata/libata-eh.c:248-306 | Between entry and exit of one error handling session the handler starts at most ATA_EH_MAX_REPEAT times, whatever errors arrive |
| PortRuns.AbortReachesEh | vmkdrivers/src26/drivers/ata/libata-eh.c:539-559 | After an abort every command that was active belongs to the error handler and its SCSI command is on eh_cmd_q or has an expired timer; with nothing to abort EH is scheduled outright |
| PortRuns.InternalTransparent | vmkdrivers/src26/drivers/ata/libata-core.c:1025-1143 | From start to end of an internal command, through completion, timeout with freeze and races, the three queue fields, the tags, every other qc and the midlayer come back as they were; the allocation made at the start completed once and was freed once |
| PortRuns.IssueSafeIff | vmkdrivers/src26/drivers/ata/libata-core.c:4611-4630 | Issuing an undeferred read or write on a sound port leaves it sound if and only if the command uses NCQ or no NCQ command is in flight |
| PortRuns.NcqOffBreaksExclusion | vmkdrivers/src26/drivers/ata/libata-scsi.c:932-960 | A concrete port on which switching NCQ off with a queued command in flight makes the next command break the exclusion |
| PortSystem.StepKeeps | vmkdrivers/src26/drivers/ata/libata-eh.c:191-345 | Every step of the port system keeps the system invariant |
| PortActs.StepActs | vmkdrivers/src26/drivers/ata/libata-eh.c:191-345 | Every step of the port system does what it is there for, in the fields it is about: new commands, timers, single completions, charges, and each move of the handler from entry to flush |
| PortRuns.RunKeeps | vmkdrivers/src26/drivers/ata/libata-eh.c:191-345 | The system invariant holds in every state of every run |
| PortSystem.ErrorIntrKeeps | vmkdrivers/src26/drivers/ata/ahci.c:1006-1063 | Charging the active command and aborting or freezing keeps the invariant and touches only commands that could be found |
| PortSystem.ExecEndKeeps | vmkdrivers/src26/drivers/ata/libata-core.c:1121-1143 | Ending an internal command restores the preempted fields exactly and keeps the invariant |
| PortInvariant.RegsAdd | vmkdrivers/src26/drivers/ata/libata-core.c:4611-4630 | Issuing keeps the agreement of bitmaps and ACTIVE flags exactly when none of the three WARN_ONs of ata_qc_issue fires |
| PortInvariant.RegsDrop | vmkdrivers/src26/drivers/ata/libata-core.c:4449-4464 | Completing keeps the agreement of bitmaps and ACTIVE flags |
| PortInvariant.MidFinish | vmkdrivers/src26/vmklinux26/linux/drivers/scsi/scsi_error.c:682-687 | Moving a command from eh_cmd_q to eh_done_q keeps each command on exactly the queue its phase says, once |
| PortInvariant.MidAdd | vmkdrivers/src26/vmklinux26/linux/drivers/scsi/scsi_error.c:98-120 | Adding a command to eh_cmd_q keeps the queue counts and host_failed right |
| PortIssue.DeferKeepsApart | vmkdrivers/src26/drivers/ata/libata-scsi.c:1531-1546 | A command that ata_scmd_need_defer lets through fires no WARN_ON of ata_qc_issue; for an NCQ device a command is deferred exactly when issuing it would break the exclusion |
| PortIssue.TranslateKeeps | vmkdrivers/src26/drivers/ata/libata-scsi.c:1575-1638 | Translation and issue keep the invariant on every path: deferred, no tag, finished early, issued, failed to issue |
| PortIssue.TranslateOutcome | vmkdrivers/src26/drivers/ata/libata-scsi.c:1575-1638 | What becomes of a fresh command, exit by exit: deferred, done at once without a qc, in flight, or failed with AC_ERR_SYSTEM for a mapping failure or the controller's own error and handed to the error handler |
| PortIssue.IssuedKeeps | vmkdrivers/src26/drivers/ata/libata-core.c:4611-4630 | The state after marking a new command active is sound if and only if the queue fields allowed the issue |
| PortIssue.InternalBeginKeeps | vmkdrivers/src26/drivers/ata/libata-core.c:1048-1090 | Setting the queue fields aside and issuing the internal command keeps the invariant, with or without an issue error |
| PortIssue.InternalTimeoutKeeps | vmkdrivers/src26/drivers/ata/libata-core.c:1098-1112 | The timeout branch keeps the invariant; a command still active is charged AC_ERR_TIMEOUT and completed and the port is frozen, any other port is left alone |
| PortIssue.InternalEndKeeps | vmkdrivers/src26/drivers/ata/libata-core.c:1131-1138 | Freeing the internal tag and restoring the fields gives back the invariant of a port without internal command |
| PortPreserve.CompleteKeeps | vmkdrivers/src26/drivers/ata/libata-core.c:4477-4525 | ata_qc_complete on any qc the interrupt side can find keeps the invariant, failing or not, internal or not; a forced failure cannot be found again |
| PortPreserve.AbortKeeps | vmkdrivers/src26/drivers/ata/libata-eh.c:539-559 | Aborting keeps the invariant and leaves every active command failed |
| PortPreserve.AbortTagsGone | vmkdrivers/src26/drivers/ata/libata-eh.c:545-554 | After the abort loop no command below the loop index can be found, later ones are untouched |
| PortPreserve.AbortRegs | vmkdrivers/src26/drivers/ata/libata-eh.c:539-559 | Aborting leaves active_tag, sactive and qc_active as they were |
| PortPreserve.FreezeKeeps | vmkdrivers/src26/drivers/ata/libata-eh.c:603-613 | Abort, then FROZEN: the port is frozen, has nothing left to complete or to find, and hands out no tag |
| PortPreserve.AbortQcs | vmkdrivers/src26/drivers/ata/libata-eh.c:545-554 | Aborting fails every command that could be found, with the taskfile that is read, and leaves all other qcs as they were |
| PortFrozen.FrozenStep | vmkdrivers/src26/drivers/ata/libata-eh.c:579-646 | Exactly which steps leave the port frozen: freezing error interrupts, a timed-out internal command, a register with a bit that was not active, a sort-out that found a timeout, the handler's own freeze; and, if it was frozen before, every step but the thaw |
| PortFrozen.FrozenIff | vmkdrivers/src26/drivers/ata/libata-eh.c:579-646 | Over whole runs: the port is frozen if and only if a freezing step came after the last thaw |
| PortFrozen.FrozenUntilThaw | vmkdrivers/src26/drivers/ata/libata-core.c:4367-4387 | From a freezing step until the handler thaws the port, in every state no tag is handed out and no qc can be found |
| PortFrozen.ErrorOutcome | vmkdrivers/src26/drivers/ata/ahci.c:1006-1063 | What an error interrupt leaves: the active command charged with its error, every command that could be found failed with the taskfile read, all others untouched, and the port frozen exactly if asked for or frozen before |
| PortFrozen.LateErrorRepeats | vmkdrivers/src26/drivers/ata/libata-eh.c:294-306 | An error that arrives while the handler works makes it repeat as long as tries are left; otherwise it ends |
| PortWarns.CompleteWarns | vmkdrivers/src26/drivers/ata/libata-core.c:4477-4525 | ata_qc_complete records a warning exactly on a frozen port, or when it completes a command that is not active |
| PortWarns.IssueWarns | vmkdrivers/src26/drivers/ata/libata-core.c:4611-4630 | ata_qc_issue records a warning exactly when active_tag is valid, the tag is among the NCQ tags, or a command without NCQ meets any |
| PortWarns.HandBackWarns | vmkdrivers/src26/drivers/ata/libata-eh.c:669-682 | Hand-back records a warning exactly for a command that is not active; the freed tag is no longer valid |
| PortWarns.ExitWarns | vmkdrivers/src26/drivers/ata/libata-eh.c:317-345 | Leaving the handler with commands still its own records a warning, and so does an internal command that finds its tag taken |
| PortRecovery.SortOutKeeps | vmkdrivers/src26/drivers/ata/libata-eh.c:216-256 | Timeout sort-out charges AC_ERR_TIMEOUT to exactly the commands that are active and not failed, freezes exactly if there is one, and hands every other command of eh_cmd_q back with all its retries used up, so that it is not issued again; the records of the commands that active qcs serve stay as they are |
| PortRecovery.EhFinishTagKeeps | vmkdrivers/src26/drivers/ata/libata-eh.c:2099-2129 | ata_eh_finish sends a failed command to eh_done_q with its retries settled by its error mask and sense flag, frees the tag, and touches nothing else |
| PortRecovery.NothingLeft | vmkdrivers/src26/drivers/ata/libata-eh.c:325-325 | With no active command left in the handler, eh_cmd_q is empty, host_failed is zero, all tags are free and the queue fields idle |
| PortRecovery.FlushKeeps | vmkdrivers/src26/vmklinux26/linux/drivers/scsi/scsi_error.c:1500-1546 | Flushing eh_done_q finishes every command and re-establishes the invariant outside the handler |
| PortModel.FirstFreeIsFree | vmkdrivers/src26/drivers/ata/libata-core.c:4375-4381 | The tag scan returns the lowest free tag below the internal one, and none exactly when all are taken |
| PortModel.FindQcFound | vmkdrivers/src26/drivers/ata/libata-eh.c:224-229 | The search of the sort-out finds an active qc of the command exactly if there is one |
| PortModel.FailComplete | vmkdrivers/src26/drivers/ata/libata-core.c:4477-4525 | Completing with added errors touches only its own tag; a forced failure cannot be found from its tag |
| PortModel.ScheduleEh | vmkdrivers/src26/drivers/ata/libata-eh.c:490-505 | Scheduling EH for a qc marks it failed and touches nothing of other tags |
| AtaPort.Ap.constructor | vmkdrivers/src26/drivers/ata/libata-core.c:5308-5370 | A new port: no tag taken, idle queue fields, nothing active or failed |
| AtaPort.Ap.QcNew | vmkdrivers/src26/drivers/ata/libata-core.c:4367-4409 | In place: the lowest free tag, none while frozen, qc initialised |
| AtaPort.Ap.QcFree | vmkdrivers/src26/drivers/ata/libata-core.c:4424-4437 | In place: flags cleared, tag released, the rest as the specification says |
| AtaPort.Ap.CompleteFn | vmkdrivers/src26/drivers/ata/libata-scsi.c:1464-1513 | In place: SCSI commands are given back through scsidone and their tag freed, the internal one only wakes its waiter |
| AtaPort.Ap.RawComplete | vmkdrivers/src26/drivers/ata/libata-core.c:4439-4464 | In place: bitmaps cleared, ACTIVE dropped, callback run |
| AtaPort.Ap.ScheduleEh | vmkdrivers/src26/drivers/ata/libata-eh.c:490-505 | In place: failed, EH pending, midlayer asked to abort |
| AtaPort.Ap.QcComplete | vmkdrivers/src26/drivers/ata/libata-core.c:4477-4525 | In place: failed commands go to EH, others and internal ones complete |
| AtaPort.Ap.CompleteMultiple | vmkdrivers/src26/drivers/ata/libata-core.c:4543-4573 | In place, loop over 32 tags: completes the found commands of the done mask, returns their number, or -EINVAL if a new bit appears |
| AtaPort.Ap.PortScheduleEh | vmkdrivers/src26/drivers/ata/libata-eh.c:517-525 | In place: EH pending and scheduled |
| AtaPort.Ap.PortAbort | vmkdrivers/src26/drivers/ata/libata-eh.c:539-559 | In place, loop: every found command failed and completed; the result counts them; EH scheduled if there were none |
| AtaPort.Ap.PortFreeze | vmkdrivers/src26/drivers/ata/libata-eh.c:579-613 | In place: abort, then FROZEN |
| AtaPort.Ap.QcIssue | vmkdrivers/src26/drivers/ata/libata-core.c:4611-4656 | In place: bitmaps set, mapping and controller errors charged and completed |
| AtaPort.Ap.Translate | vmkdrivers/src26/drivers/ata/libata-scsi.c:1575-1638 | In place: deferral, tag allocation, early finish, issue; the result says whether the midlayer must retry |
| AtaPort.Ap.SortOutOne | vmkdrivers/src26/drivers/ata/libata-eh.c:221-246 | In place: one command of eh_cmd_q sorted out |
| AtaPort.Ap.SortOut | vmkdrivers/src26/drivers/ata/libata-eh.c:216-256 | In place: the walk over eh_cmd_q and the freeze after it |
| AtaPort.Ap.EhRawComplete | vmkdrivers/src26/drivers/ata/libata-eh.c:669-682 | In place: the qc completes without reaching the midlayer and its command moves to eh_done_q |
| AtaPort.Ap.FinishTag | vmkdrivers/src26/drivers/ata/libata-eh.c:2105-2127 | In place: decision and completion of one failed command |
| AtaPort.Ap.EhFinish | vmkdrivers/src26/drivers/ata/libata-eh.c:2099-2129 | In place: all failed commands finished |
| AtaPort.Ap.InternalBegin | vmkdrivers/src26/drivers/ata/libata-core.c:1041-1090 | In place: refused on a frozen port, BUG if the tag is taken, otherwise internal tag, fields set aside, command issued |
| AtaPort.Ap.InternalTimeout | vmkdrivers/src26/drivers/ata/libata-core.c:1098-1112 | In place: a still active internal command is charged and the port frozen |
| AtaPort.Ap.InternalEnd | vmkdrivers/src26/drivers/ata/libata-core.c:1121-1138 | In place: tag freed, fields restored; an aborted command without error mask reports AC_ERR_OTHER |
| Ata.AcErrMask | vmkdrivers/src26/include/linux/libata.h:1700-1727 | The error mask of a status is never zero, and is a device error only when the device says so |
| TagMask.DoneMaskLegal | vmkdrivers/src26/drivers/ata/libata-core.c:4549-4556 | done_mask & new is zero if and only if the new word has no tag that was not active |
| TagMask.XorIsDifference | vmkdrivers/src26/drivers/ata/libata-core.c:4549-4549 | The xor of two words stands for the symmetric difference of their tag sets |
| TagMask.SetTag | vmkdrivers/src26/drivers/ata/libata-core.c:4614-4630 | Or-ing a tag bit in adds exactly that tag |
| TagMask.ClearTag | vmkdrivers/src26/drivers/ata/libata-core.c:4449-4460 | Masking a tag bit out removes exactly that tag |
| TagMask.NoTagsIsZero | vmkdrivers/src26/drivers/ata/libata-core.c:4621-4630 | A word is zero exactly when its tag set is empty |
| NcqBlame.BlameIsolated | vmkdrivers/src26/drivers/ata/libata-eh.c:1051-1097 | When log page 10h names an active command, only that one can be charged AC_ERR_DEV whatever the taskfiles say; it does end up with an error, its taskfile is the one of the log page, and innocent commands and those that have not failed keep their record unchanged |
| NcqBlame.CleanIffLogNames | vmkdrivers/src26/drivers/ata/libata-eh.c:1051-1097 | With a device error as the port's only error, an innocent command keeps error mask zero if and only if the port is not frozen, the driver has charged no failed command itself, and log page 10h could be read and names an active NCQ command; otherwise it is charged |
| NcqBlame.InnocentRetriedFree | vmkdrivers/src26/drivers/ata/libata-eh.c:709-715 | End to end: an innocent command is handed back with its retry given back; the culprit is retried at its own cost, or not at all if its address was invalid |
| NcqBlame.AutopsyKeeps | vmkdrivers/src26/drivers/ata/libata-eh.c:1315-1399 | The autopsy keeps the port invariant, the midlayer and which commands are failed |
| NcqBlame.FinishAll | vmkdrivers/src26/drivers/ata/libata-eh.c:2099-2129 | After ata_eh_finish exactly the failed commands are on eh_done_q, each with the retries its verdict gives, all others untouched |
| NcqBlame.AutopsyTagsEach | vmkdrivers/src26/drivers/ata/libata-eh.c:1345-1377 | The autopsy judges each failed command on its own record and leaves the others alone |
| NcqBlame.VerdictExact | vmkdrivers/src26/drivers/ata/libata-eh.c:1345-1368 | Bit by bit, which errors a command of an ATA disk ends up with: what was charged or seen in its taskfile, with bus errors overriding device, media and address errors and any error overriding OTHER |
| NcqBlame.SenseTrumps | vmkdrivers/src26/drivers/ata/libata-eh.c:1364-1368 | An ATAPI command whose sense data was fetched keeps neither a device nor an unknown error |
| NcqBlame.AtapiVerdict | vmkdrivers/src26/drivers/ata/libata-eh.c:1114-1155 | Bit by bit for ATAPI commands: REQUEST SENSE is sent exactly for a charged device error on an idle, ready device; sense data is noted, a failed attempt adds its own errors, and errors override each other as for a disk |
| NcqBlame.DevSticks | vmkdrivers/src26/drivers/ata/libata-eh.c:1352-1365 | A device error stays on record unless the taskfile shows a bus error |
| NcqBlame.NoNewDev | vmkdrivers/src26/drivers/ata/libata-eh.c:1114-1126 | Nobody is newly charged with a device error when the port-level mask has none |
| NcqBlame.RunAutopsy | vmkdrivers/src26/drivers/ata/libata-eh.c:1315-1399 | In place on the port: condemning the culprit, then the loop over failed commands |
| EhRecover.RecoverEnds | vmkdrivers/src26/drivers/ata/libata-eh.c:1936-2078 | Recovery ends for every sequence of device results, after at most one pass more than tries and unused probes add up to |
| EhRecover.ThirteenPasses | vmkdrivers/src26/drivers/ata/libata-eh.c:1944-2078 | For a port of two devices recovery takes at most thirteen passes from any start |
| EhRecover.AttemptDescends | vmkdrivers/src26/drivers/ata/libata-eh.c:1966-2077 | Every jump to label retry strictly lowers the measure and keeps the invariant that a device in use has a try left |
| EhRecover.DevFailDescends | vmkdrivers/src26/drivers/ata/libata-eh.c:2028-2062 | Whatever the errno, failing costs the device a try or its one fresh set of tries |
| EhRecover.RevalidateKeeps | vmkdrivers/src26/drivers/ata/libata-eh.c:1645-1701 | Revalidation and attach cost nothing and can blame only a device with a try left |
| EhRecover.RecoverResult | vmkdrivers/src26/drivers/ata/libata-eh.c:2078-2083 | A failed recovery leaves no device in use; a successful one leaves only devices with a try left |
| EhRecover.ThreeChances | vmkdrivers/src26/drivers/ata/libata-eh.c:2028-2062 | What a failure makes of the device to blame: a mild one costs a try and the last try the device, any other the device at once; given up, it starts afresh once if it is to be probed, or is disabled for good, its detach request void if the port is offline |
| EhRecover.FailureIsLocal | vmkdrivers/src26/drivers/ata/libata-eh.c:2028-2067 | A failure touches only the failing device; a device that keeps its class orders a hard reset after an earlier reset and a soft one before, one that starts afresh a soft one, one given up for good none |
| EhRecover.RecoverRuns | vmkdrivers/src26/drivers/ata/libata-eh.c:1966-2078 | Recovery goes on through exactly the passes that end in dev_fail and ends with the state and error of the first that does not |
| EhProbe.Prepares | vmkdrivers/src26/drivers/ata/libata-eh.c:1946-1964 | Preparation, in the devices' own fields: three tries each; a detach request takes a device out of use; a device then out of use and to be probed for the first time loses its class and counts as probed; a soft reset is ordered exactly then or if it was before |
| EhProbe.PassMeans | vmkdrivers/src26/drivers/ata/libata-eh.c:1966-2026 | One pass from label retry: over at once when unloading; over with the reset's error and no device in use; otherwise devices revalidated or attached up to the first failure, which goes to dev_fail, as a failing transfer mode does |
| EhProbe.ProbedComesIntoUse | vmkdrivers/src26/drivers/ata/libata-eh.c:1656-1690 | A device found with a probe request comes into use, with the class its IDENTIFY data say, if the first pass succeeds and its reset finds it |
| EhRecover.AlwaysEndsIff | vmkdrivers/src26/drivers/ata/libata-eh.c:1966-2077 | Recovery ends for every sequence of device results if and only if driver messages are on or no device is in use or can come into use in the next pass |
| EhRecover.PreparedEndsIff | vmkdrivers/src26/drivers/ata/libata-eh.c:1946-2077 | The same for every state the preparation loop leaves |
| EhRecover.NeverEndsWithoutMessages | vmkdrivers/src26/drivers/ata/libata-core.c:428-434 | A disk that keeps failing with -EIO while messages are masked out keeps recovery going for any number of passes, its tries running below zero |
| EhRecovery.Recovery.Prepare | vmkdrivers/src26/drivers/ata/libata-eh.c:1946-1964 | In place, loop: tries reset, detach and probe requests served |
| EhRecovery.Recovery.RevalidateAndAttach | vmkdrivers/src26/drivers/ata/libata-eh.c:1645-1701 | In place, loop: stops at the first failing device and reports it |
| EhRecovery.Recovery.AttachOne | vmkdrivers/src26/drivers/ata/libata-eh.c:1655-1690 | Step by step: revalidate, attach or skip one device |
| EhRecovery.Recovery.ChargeOne | vmkdrivers/src26/drivers/ata/libata-eh.c:2028-2042 | Step by step: the tries after a failure |
| EhRecovery.Recovery.GiveUpOne | vmkdrivers/src26/drivers/ata/libata-eh.c:2044-2061 | Step by step: a device out of chances is disabled, detached if offline, and probed afresh once |
| EhRecovery.Recovery.Fail | vmkdrivers/src26/drivers/ata/libata-eh.c:2028-2062 | In place: label dev_fail |
| EhRecovery.Recovery.TryOnce | vmkdrivers/src26/drivers/ata/libata-eh.c:1966-2026 | In place: one pass from label retry to its end or to dev_fail |
| EhRecovery.Recovery.Recover | vmkdrivers/src26/drivers/ata/libata-eh.c:1936-2083 | In place: the retry loop terminates, within six passes per device and one more, with the specified result |
| EhReset.ResetMeaning | vmkdrivers/src26/drivers/ata/libata-eh.c:1564-1642 | For any answers: success means the last call was good and the first good one, failure carries the error of the last call or -EINVAL; a follow-up softreset comes straight after each hardreset that answers -EAGAIN or leaves the device unclassified, and after nothing else; new rounds use hardresets where available |
| EhReset.GivesUpLate | vmkdrivers/src26/drivers/ata/libata-eh.c:1583-1629 | Never more than three rounds; giving up before happens only at the two -EINVAL exits of a follow-up softreset, and any other failure, whatever its code, has used up all rounds |
| EhReset.EhReset | vmkdrivers/src26/drivers/ata/libata-eh.c:1564-1642 | The retry loop terminates and equals the specification |
| Hsm.PioMovesExactly | vmkdrivers/src26/drivers/ata/libata-core.c:3755-3826 | For any status bytes a PIO command that ends without error has moved exactly nsect sectors, sector k at bytes 512k of the list; it never touches anything but a prefix of the list |
| Hsm.PioEnds | vmkdrivers/src26/drivers/ata/libata-core.c:4098-4319 | A PIO command is over after at most nsect + 1 calls, whatever the device answers |
| Hsm.StatesMeanErrors | vmkdrivers/src26/drivers/ata/libata-core.c:4098-4319 | In every run of every protocol FIRST, ST and LAST go with error mask zero, ERR with a nonzero one, no WARN_ON fires, and ATAPI data uses exactly the first curbytes bytes |
| Hsm.PassDescends | vmkdrivers/src26/drivers/ata/libata-core.c:4113-4316 | The chain of goto fsm_start goes strictly down FIRST > ST > LAST > ERR |
| Hsm.MoveKeeps | vmkdrivers/src26/drivers/ata/libata-core.c:4098-4319 | Every call keeps the machine invariant and a PIO command ends or moves on with each call |
| Hsm.BlockKeeps | vmkdrivers/src26/drivers/ata/libata-core.c:3813-3826 | A DRQ block moves at least one sector, never past the command, and enters LAST exactly with the last sector |
| Hsm.SectorKeeps | vmkdrivers/src26/drivers/ata/libata-core.c:3755-3799 | One sector lies inside one segment, advances the cursor rightly, and is the next 512 bytes of the list |
| Hsm.SectorsInPages | vmkdrivers/src26/drivers/ata/libata-core.c:3763-3786 | Every sector of a run lies in the one page that is mapped for it if every segment is sector-aligned or lies in one page as a whole; once the whole list is moved, only if |
| HsmEnds.MoveEnds | vmkdrivers/src26/drivers/ata/libata-core.c:4098-4319 | One call ends the command exactly as a table over status bits says: which status ends it well, which with a device error, a protocol violation or an unknown error, and when it goes on |
| HsmEnds.BlockMoved | vmkdrivers/src26/drivers/ata/libata-core.c:3813-3826 | A call that finds the block asked for in good order moves exactly one DRQ block: multi_count sectors or what is left, or one sector |
| HsmEnds.EndsWellReady | vmkdrivers/src26/drivers/ata/libata-core.c:4279-4298 | Over runs: a command that ends with err_mask zero does so on a status with DRDY set and BSY, DF, DRQ and ERR clear |
| HsmEnds.NodataEndsWellIff | vmkdrivers/src26/drivers/ata/libata-core.c:4279-4298 | A non-data command ends with its first event, and well if and only if the device is ready |
| HsmEnds.DmaEndsWellIff | vmkdrivers/src26/drivers/ata/libata-core.c:4279-4298 | A DMA command ends well if and only if the DMA engine reports no error and the device is ready |
| HsmEnds.PioWellIff | vmkdrivers/src26/drivers/ata/libata-core.c:4117-4298 | A PIO command is free of errors exactly as long as the device asks for each block in good order and is ready at the end |
| HsmEnds.PioEndsWellIff | vmkdrivers/src26/drivers/ata/libata-core.c:4117-4298 | Given nsect + 1 events a PIO command ends well if and only if the device has cooperated throughout |
| HsmEnds.PacketSent | vmkdrivers/src26/drivers/ata/libata-core.c:3840-3862 | A device that asks for the packet gets it; only an ATAPI PIO command goes on to move data |
| HsmEnds.AtapiMoved | vmkdrivers/src26/drivers/ata/libata-core.c:3969-4008 | A data block of an ATAPI command moves what the device asks for and the list holds, and the command waits for its last status once the transfer is over |
| HsmEnds.PacketEndsWellIff | vmkdrivers/src26/drivers/ata/libata-core.c:4117-4298 | A packet command without PIO data ends with its second event, and well if and only if the packet is asked for in good order, the device is then ready and no DMA error is reported |
| HsmEnds.PollsOn | vmkdrivers/src26/drivers/ata/libata-core.c:4098-4319 | poll_next is asked for exactly as long as the command goes on, except after the first block or packet of a command that is not polled |
| HsmEnds.WarnsExactly | vmkdrivers/src26/drivers/ata/libata-core.c:4098-4319 | Each pass records a warning exactly when the condition of one of its WARN_ONs holds |
| HsmMachine.Machine.constructor | vmkdrivers/src26/drivers/ata/libata-core.c:4699-4779 | A command starts in the state ata_qc_issue_prot gives its protocol |
| HsmMachine.Machine.PioSector | vmkdrivers/src26/drivers/ata/libata-core.c:3755-3799 | In place: one sector |
| HsmMachine.Machine.PioSectors | vmkdrivers/src26/drivers/ata/libata-core.c:3813-3826 | In place, loop: one DRQ block |
| HsmMachine.Machine.SendCdb | vmkdrivers/src26/drivers/ata/libata-core.c:3840-3862 | In place: CDB sent, next state by protocol |
| HsmMachine.Machine.AtapiPioBytes | vmkdrivers/src26/drivers/ata/libata-core.c:3969-4007 | In place: interrupt reason checked, bytes moved, LAST at the end |
| HsmMachine.Machine.SwitchPass | vmkdrivers/src26/drivers/ata/libata-core.c:4113-4316 | In place: one pass through the switch |
| HsmMachine.Machine.DataPass | vmkdrivers/src26/drivers/ata/libata-core.c:4184-4270 | In place: the HSM_ST branch |
| HsmMachine.Machine.HsmMove | vmkdrivers/src26/drivers/ata/libata-core.c:4098-4319 | In place: the loop over fsm_start terminates and equals the specification, poll_next included |
| HsmDriver.OneDriver | vmkdrivers/src26/drivers/ata/libata-core.c:4805-4868 | In every state of every interleaving at most one of interrupt handler and PIO task stands ready to move the machine, an interrupt leaves the PIO task's work alone, and a live command the error handler has not touched since its issue lacks a driver if and only if an interrupt met a DMA error with BSY still set |
| HsmDriver.InterleavingIsSafe | vmkdrivers/src26/drivers/ata/libata-core.c:4321-4356 | The machine invariant survives every interleaving, so an error-free PIO command has moved all its sectors |
| HsmDrives.IrqIsEvent | vmkdrivers/src26/drivers/ata/libata-core.c:4805-4868 | An interrupt that drives the machine is one event of it; when the machine ends, so does the command, inactive if it ended well or is internal, the error handler's otherwise |
| HsmDrives.IrqDrivesMoves | vmkdrivers/src26/drivers/ata/libata-core.c:4805-4868 | Such an interrupt sends or refuses the first block or packet, ends a command that waits for its last status, and moves a PIO command on by a block or ends it |
| HsmDrives.IrqNotMeant | vmkdrivers/src26/drivers/ata/libata-core.c:4805-4868 | Any other interrupt changes nothing, except that it may record an error of the DMA engine |
| HsmDrives.TaskIsMove | vmkdrivers/src26/drivers/ata/libata-core.c:4321-4356 | The passes of the PIO task together are one call of ata_hsm_move, after which it completes the command, polls on or ends as the call says |
| HsmDrives.TaskEnds | vmkdrivers/src26/drivers/ata/libata-core.c:4321-4356 | The PIO task enters ata_hsm_move with the status it has read, goes back to its queue while BSY is set, and completes only a command that can still be found |
| HsmDrives.EhTakesOver | vmkdrivers/src26/drivers/ata/libata-eh.c:539-559 | An aborted command can no longer be found and a flush leaves no task; neither touches the machine |
| HsmDrives.BadExactly | vmkdrivers/src26/drivers/ata/libata-core.c:4103-4110 | Exactly which calls violate the WARN_ON on in_wq or start on an idle machine |
| HsmDriver.StepKeeps | vmkdrivers/src26/drivers/ata/libata-core.c:4321-4356 | Every step of either driver, of issue, abort and flush keeps the driver invariant |
| HsmDriver.IrqKeepsOff | vmkdrivers/src26/drivers/ata/libata-core.c:4812-4848 | While the workqueue has the command an interrupt changes nothing |
| HsmDriver.StrandsIff | vmkdrivers/src26/drivers/ata/libata-core.c:4820-4854 | An interrupt leaves a live command stranded in HSM_ST_ERR if and only if it finds a DMA command in HSM_ST_LAST with DMA interrupt and error bits set and BSY still set |
| HsmDriver.StuckHasNoDriver | vmkdrivers/src26/drivers/ata/libata-core.c:4812-4848 | A stranded command has neither driver and no interrupt moves it |
| HsmDriver.BusyDmaErrorStrands | vmkdrivers/src26/drivers/ata/libata-core.c:4820-4854 | A DMA command whose first interrupt meets that guard: live, without driver, for good |
| HsmDriver.InactiveMoveIff | vmkdrivers/src26/drivers/ata/libata-core.c:4104-4104 | The WARN_ON on ATA_QCFLAG_ACTIVE fires from the workqueue if and only if the command is an internal one aborted since its issue, and never from the interrupt handler |
| HsmDriver.InactiveMoveExample | vmkdrivers/src26/drivers/ata/libata-core.c:4104-4104 | A polled internal PIO read aborted while its task waits for BSY makes it fire |
| HsmDriver.CdbIntrPioWriteClashes | vmkdrivers/src26/drivers/ata/libata-core.c:4018-4034 | With CDB_INTR on a PIO write both drivers move the same state: the assumption is needed |
| AtapiBytes.PioBytesSound | vmkdrivers/src26/drivers/ata/libata-core.c:3876-3957 | For any byte count as many bytes as the list still has are moved, in order, each chunk in one segment and one page; the rest is trailing data that touches no memory |
| AtapiBytes.ConverseSound | vmkdrivers/src26/drivers/ata/libata-core.c:3876-3957 | However the device splits its transfer, the buffers used are the first min(sum, size) bytes of the list |
| AtapiBytes.XferBytes | vmkdrivers/src26/drivers/ata/libata-core.c:3888-3956 | The next_sg loop terminates, empty segments included, and equals the specification |
| AtapiBytes.ChunkSound | vmkdrivers/src26/drivers/ata/libata-core.c:3917-3949 | One chunk keeps bytes before cursg plus cursg_ofs equal to curbytes |
| ScatterList.FlatInside | vmkdrivers/src26/drivers/ata/libata-core.c:3763-3770 | Consecutive bytes of a segment are consecutive bytes of the list |
| PrdTable.TableExact | vmkdrivers/src26/drivers/ata/libata-core.c:3309-3348 | The table expands to exactly the bytes of the list in order, no entry crosses 64K, the end mark is on the last entry only, and 128 segments of at most 64K fit 256 entries |
| PrdTable.RightIffNoWrap | vmkdrivers/src26/drivers/ata/libata-core.c:3332-3335 | The table is right if and only if no segment makes the 32-bit sum of offset and length wrap, that is, none starts inside the first 64K and reaches the very end of the address space |
| PrdTable.WrapExample | vmkdrivers/src26/drivers/ata/libata-core.c:3332-3335 | A 4G-1 segment at address 1 gives a wrong table |
| PrdTable.PiecesExact | vmkdrivers/src26/drivers/ata/libata-core.c:3330-3343 | The entries of one segment expand to exactly its bytes |
| PrdTable.PiecesShape | vmkdrivers/src26/drivers/ata/libata-core.c:3330-3343 | The entries of one segment cross no boundary and are at most one more than the 64K windows it spans |
| PrdTable.FillSg | vmkdrivers/src26/drivers/ata/libata-core.c:3309-3348 | In place on the prd array: the nested loops write the table and nothing beyond it |
| PrdTable.FillSegment | vmkdrivers/src26/drivers/ata/libata-core.c:3330-3343 | In place: the inner loop writes one segment's entries |
| DmaPad.WriteStream | vmkdrivers/src26/drivers/ata/libata-core.c:3534-3611 | In a write the device reads the original bytes followed by zeros to a multiple of four, for every list shape |
| DmaPad.ReadRoundTrip | vmkdrivers/src26/drivers/ata/libata-core.c:3249-3296 | After a read and clean-up every length is back and memory is as if the device had written its first bytes straight to the original list |
| DmaPad.ReadDelivers | vmkdrivers/src26/drivers/ata/libata-core.c:3249-3296 | With distinct addresses the data is then in place and nothing else has changed |
| DmaPad.MapFailure | vmkdrivers/src26/drivers/ata/libata-core.c:3590-3602 | Setup fails exactly if mapping fails and there is something to map; list and memory are then as before |
| DmaPad.WriteRestores | vmkdrivers/src26/drivers/ata/libata-core.c:3249-3296 | Clean-up after a write restores the list and leaves memory alone |
| DmaPad.SetupShape | vmkdrivers/src26/drivers/ata/libata-core.c:3534-3611 | After setup the mapped list plus the padded tail is the original list; the last entry is mapped unless trimming has left nothing of it |
| DmaPad.TailInOnePage | vmkdrivers/src26/drivers/ata/libata-core.c:3561-3563 | The padded bytes of a 4-aligned segment lie in one page |
| DmaPad.DmaCmd.SgSetup | vmkdrivers/src26/drivers/ata/libata-core.c:3534-3611 | In place: pad buffer, trimmed length, element count, restore on mapping failure |
| DmaPad.DmaCmd.SgClean | vmkdrivers/src26/drivers/ata/libata-core.c:3249-3296 | In place: length restored, padded bytes copied back for reads |
| DmaPad.DmaCmd.constructor | vmkdrivers/src26/drivers/ata/libata-core.c:3436-3443 | A command starts with its list unpadded |
| ScsiXlat.RwPreserves | vmkdrivers/src26/drivers/ata/libata-scsi.c:1295-1462 | The taskfile of an accepted read or write makes the device do what the CDB means (direction, block, length, FUA), in LBA28, LBA48, NCQ and CHS, if and only if block + length does not wrap 64 bits and a 6-byte CDB has bits 4:0 of byte 1 clear; FUA is never dropped |
| ScsiXlat.VerifyPreserves | vmkdrivers/src26/drivers/ata/libata-scsi.c:1171-1270 | The same for VERIFY, which moreover lies within the disk |
| ScsiXlat.RwAccepts | vmkdrivers/src26/drivers/ata/libata-scsi.c:1347-1432 | Exactly which LBA and NCQ requests are accepted, rejected as out of range, or have nothing to do |
| ScsiXlat.RwAcceptsChs | vmkdrivers/src26/drivers/ata/libata-scsi.c:1409-1441 | Exactly which requests a cylinder-addressed device accepts |
| ScsiXlat.VerifyAccepts | vmkdrivers/src26/drivers/ata/libata-scsi.c:1171-1253 | Exactly which VERIFYs a device addressed by LBA accepts: within the disk and within its addresses |
| ScsiXlat.VerifyAcceptsChs | vmkdrivers/src26/drivers/ata/libata-scsi.c:1171-1265 | Exactly which VERIFYs a cylinder-addressed device accepts |
| ScsiTaskfile.RwTaskfile | vmkdrivers/src26/drivers/ata/libata-scsi.c:1295-1462 | Flags, protocol and unused registers of an accepted read or write agree with an independent reading of opcode and device register by number: NCQ, PIO, DMA and multiple commands exactly where they belong, 48-bit commands only where the short ones do not reach, tag and device select in place |
| ScsiTaskfile.VerifyTaskfile | vmkdrivers/src26/drivers/ata/libata-scsi.c:1171-1270 | The same for VERIFY, a non-data command that moves nothing |
| ScsiTaskfile.TableByNumber | vmkdrivers/src26/drivers/ata/libata-core.c:173-243 | The opcode table by opcode number: direction, size, FUA, PIO, multiple and DMA |
| ScsiXlat.TableFaithful | vmkdrivers/src26/drivers/ata/libata-core.c:173-243 | A nonzero entry of the opcode table has the direction, size and FUA asked for; an entry is missing exactly for FUA without a matching command |
| ScsiXlat.ChsBack | vmkdrivers/src26/drivers/ata/libata-scsi.c:1422-1426 | The CHS division is undone by the device's formula |
| ScsiXlat.NoWrapFits | vmkdrivers/src26/include/linux/ata.h:661-687 | Without wrap lba_28_ok and lba_48_ok hold exactly for ranges inside the address space |
| ScsiXlat.LbaLenMeans | vmkdrivers/src26/drivers/ata/libata-scsi.c:1075-1155 | The CDB fields are read in full except bits 4:0 of byte 1 of 6-byte commands |
| ScsiXlat.Read6LosesBits | vmkdrivers/src26/drivers/ata/libata-scsi.c:1075-1089 | READ(6) of block 65536 is accepted and reads block 0 |
| ScsiXlat.Read16Wraps | vmkdrivers/src26/include/linux/ata.h:661-665 | READ(16) of two blocks at the last 64-bit block is accepted with another meaning |
| ScsiXlat.XlatCmd.Rwcmd | vmkdrivers/src26/drivers/ata/libata-core.c:213-243 | In place: table lookup and protocol |
| ScsiXlat.XlatCmd.RwXlatInPlace | vmkdrivers/src26/drivers/ata/libata-scsi.c:1295-1462 | In place: taskfile, sector count and the three error exits |
| ScsiXlat.XlatCmd.VerifyXlatInPlace | vmkdrivers/src26/drivers/ata/libata-scsi.c:1171-1270 | In place: taskfile and the three error exits |
| ScsiXlat.XlatCmd.FillNcq | vmkdrivers/src26/drivers/ata/libata-scsi.c:1349-1379 | In place: the NCQ registers |
| ScsiXlat.XlatCmd.FillLba | vmkdrivers/src26/drivers/ata/libata-scsi.c:1380-1408 | In place: the LBA registers |
| ScsiXlat.XlatCmd.FillChs | vmkdrivers/src26/drivers/ata/libata-scsi.c:1409-1441 | In place: the CHS registers |
| Ahci.ShadowAgreement | vmkdrivers/src26/drivers/ata/ahci.c:1077-1106 | With hardware that only clears bits, in every reachable state, across error handling sessions, the registers show active commands only; -EINVAL is never returned, the result is the number of tags completed, and with no failed command qc_active equals the register |
| Ahci.HostIntrRegs | vmkdrivers/src26/drivers/ata/ahci.c:1066-1106 | A non-error interrupt removes exactly the active, not failed commands the register no longer shows |
| Ahci.StaleCiIsFatal | vmkdrivers/src26/drivers/ata/libata-core.c:4549-4556 | -EINVAL is returned if and only if PxCI shows a command that is not active: why PxCI must clear before PxSACT |
| Ahci.StepKeeps | vmkdrivers/src26/drivers/ata/ahci.c:1182-1193 | Issue, hardware progress, both kinds of interrupt, timers and error handling sessions keep the agreement |
| Ahci.ErrorKeeps | vmkdrivers/src26/drivers/ata/ahci.c:1006-1063 | An error interrupt leaves the queue fields alone, so the agreement stays |
| AhciClears.IssueShows | vmkdrivers/src26/drivers/ata/ahci.c:1182-1193 | Issue shows every command it hands over and nothing else: PxCI gains exactly the commands that become active, PxSACT those of them that use NCQ |
| AhciClears.SimulatesPort | vmkdrivers/src26/drivers/ata/ahci.c:1066-1193 | Apart from its registers the AHCI system is the port system: each of its steps but hardware progress and whole sessions is one of the port system on the same port |
| AhciClears.OnlyClearedComplete | vmkdrivers/src26/drivers/ata/ahci.c:1077-1106 | Over runs: a non-error interrupt completes a command only if the hardware has taken it out of the register that is read while it was active, and never a failed one |
| AhciClears.ClearedComplete | vmkdrivers/src26/drivers/ata/ahci.c:1077-1106 | Whatever active command the register no longer shows, the next non-error interrupt completes it, unless it has failed |
| AhciClears.LowerKeeps | vmkdrivers/src26/drivers/ata/ahci.c:1077-1106 | In every state of every run an active command that has not failed is in the register that is read or was cleared by the hardware |
| Ahci.CompletedQcs | vmkdrivers/src26/drivers/ata/libata-core.c:4558-4571 | The completion loop takes out exactly the found commands of the done mask |
| Ahci.CountIsSize | vmkdrivers/src26/drivers/ata/libata-core.c:4558-4573 | The returned count is the number of commands taken out |
| Ahci.Hba.QcIssue | vmkdrivers/src26/drivers/ata/ahci.c:1182-1193 | In place: PxSACT for NCQ, then PxCI |
| Ahci.Hba.HandleIntr | vmkdrivers/src26/drivers/ata/ahci.c:1077-1106 | In place: choice of register, completion, freeze on -EINVAL |
| ErrorRing.Ering.constructor | vmkdrivers/src26/include/linux/libata.h:588-591 | A zeroed ring stands for the empty log |
| ErrorRing.Ering.Record | vmkdrivers/src26/drivers/ata/libata-eh.c:52-66 | In place: the ring then represents the log with the error appended, its last 32 entries newest first from the cursor |
| ErrorRing.Ering.CountRecent | vmkdrivers/src26/drivers/ata/libata-eh.c:76-95 | The do-while walk counts what a walk over the last 32 log entries counts |
| ErrorRing.Ering.Needed | vmkdrivers/src26/drivers/ata/libata-eh.c:1232-1260 | With nondecreasing timestamps the answer is exactly: newest error in category 1 or 2 and more than 3 or 10 kept errors of it within 15 minutes; otherwise it never says yes wrongly |
| ErrorRing.CategoryMeans | vmkdrivers/src26/drivers/ata/libata-eh.c:1179-1193 | The categories are those of the comment at lines 1219-1224: bus errors, timeouts and IO protocol violations; unclassified IO device errors |
| ErrorRing.SpeedDownMeans | vmkdrivers/src26/drivers/ata/libata-eh.c:1232-1260 | The decision in plain numbers: the newest error in category 1 and more than 3 of the last 32 errors in it and at most 15 minutes old, or the same with category 2 and more than 10 |
| ErrorRing.WalkIsRecent | vmkdrivers/src26/drivers/ata/libata-eh.c:1200-1209 | Stopping at the first old entry loses nothing when timestamps do not decrease |
| ErrorRing.WalkNeverMore | vmkdrivers/src26/drivers/ata/libata-eh.c:1200-1209 | With timestamps out of order the walk may miss errors but never invents any |
| BusTiming.NeverTooFast | vmkdrivers/src26/drivers/ata/libata-core.c:2044-2107 | Every field is at least the true clock count if and only if all counts fit 16 bits; the phases fill the cycle, exactly so where lengthened; DMA modes are nowhere faster than a known PIO mode of the drive; all this also when the nested call for an unknown PIO mode leaves its record unfilled |
| BusTiming.OverflowExample | vmkdrivers/src26/drivers/ata/libata-core.c:2009-2019 | PIO 0 at a clock of 9 picoseconds needs 66667 counts and gets too few |
| BusTiming.LongEnough | vmkdrivers/src26/drivers/ata/libata-core.c:2044-2107 | If the counts fit, every phase and cycle of the result lasts as many nanoseconds as the mode and the drive's IDENTIFY words 65, 67 and 68 ask for |
| BusTiming.RequiredMeans | vmkdrivers/src26/drivers/ata/libata-core.c:2064-2072 | Which IDENTIFY word goes with which mode, by mode number |
| BusTiming.UnfilledMeans | vmkdrivers/src26/drivers/ata/libata-core.c:2064-2089 | What an unknown PIO mode leaves to be merged: the drive's wishes in nanoseconds, or whatever was on the stack |
| BusTiming.StretchIs | vmkdrivers/src26/drivers/ata/libata-core.c:2094-2104 | Lengthening shortens no phase, makes each pair add up to the larger of its sum and the cycle, and splits what was missing in halves |
| BusTiming.FindIsLookup | vmkdrivers/src26/drivers/ata/libata-core.c:2034-2042 | The mode search finds an entry exactly if the table has one |
| BusTiming.ModeFound | vmkdrivers/src26/drivers/ata/libata-core.c:2034-2042 | ata_timing_find_mode finds exactly the modes of the table, each with its own timing |
| BusTiming.StandardCycles | vmkdrivers/src26/drivers/ata/libata-core.c:1969-2007 | The cycle times of the table, by mode number, are those of the ATA standards |
| BusTiming.SentinelIsFound | vmkdrivers/src26/drivers/ata/libata-core.c:2034-2042 | The value 0xFF finds the end mark as if it were a mode |
| BusTiming.RecursionEndsIff | vmkdrivers/src26/drivers/ata/libata-core.c:2085-2089 | The recursion ends if and only if the PIO mode is unknown or at most PIO 4, or none is needed |
| BusTiming.PioHasNoUdma | vmkdrivers/src26/drivers/ata/libata-core.c:2009-2019 | PIO modes never divide by the UDMA clock |
| BusTiming.FindModeInTable | vmkdrivers/src26/drivers/ata/libata-core.c:2034-2042 | The table loop equals the lookup |
| BusTiming.TimingCompute | vmkdrivers/src26/drivers/ata/libata-core.c:2044-2107 | Step by step on one record, with its one level of recursion, equals the specification |
| BusTiming.DriveWishes | vmkdrivers/src26/drivers/ata/libata-core.c:2064-2072 | Step by step: the drive's own cycle times from IDENTIFY merged in |
| BusTiming.LengthenPhases | vmkdrivers/src26/drivers/ata/libata-core.c:2094-2104 | In place: both phases lengthened |
| PhyDebounce.Debounce | vmkdrivers/src26/drivers/ata/libata-core.c:2579-2618 | The first poll with a verdict decides and comes no later than the first poll after timeout and duration; success means agreement since the last change for longer than duration and not 1 before the timeout; -EBUSY means a change seen after the timeout |
| PhyDebounce.SettledIsReported | vmkdrivers/src26/drivers/ata/libata-core.c:2600-2605 | A link settled at a value other than 1 for longer than duration is reported stable at the next poll |
| PhyDebounce.LateEnds | vmkdrivers/src26/drivers/ata/libata-core.c:2593-2617 | A poll later than timeout and duration leaves no loop running |

## Left out

- Old-EH ports (`eng_timeout`, the ATAPI request-sense re-issue) and probing through `ata_bus_probe`: they reuse an active qc.
- PCI and module set-up, register access, interrupts' acknowledgement, workqueue, spinlock and timer mechanics: steps and parameters stand for them.
- Power management, hotplug bookkeeping and per-device EH actions: suspend and resume always return 0 in the code; whether a device is due for revalidation is an arbitrary answer.
- The choice of recovery actions by the autopsy and the reports it prints: the recovery loop is proved for every choice.
- Bodies of the reset methods, device configuration and transfer mode selection: their outcomes are arbitrary answers.
- INQUIRY, MODE SENSE, sense-data layout, string blacklists, per-chipset timing registers.
- VERIFY's BYTCHK bit and the protection fields of CDBs, which the translator ignores.
- `ata_sg_setup` mapping that merges segments: mapping keeps the list. The VMKLNX copy of the lengths (`sg_dma_len`) is not tracked.
- Wrap-around of the 32-bit byte counters `curbytes` and `nbytes` and of jiffies.
- PortRuns.NeverWarns: says nothing of the WARN_ONs in old EH, nor of those in ata_sg_clean, ata_fill_sg and the padding code about absent lists, empty tables and device classes; the state machine's are in StatesMeanErrors, OneDriver and InactiveMoveIff.
- PortRuns.FrozenIsQuiescent: the interrupt mask a driver's freeze hook turns off is not modelled; the claim is about what a late interrupt could still find.
- AtaPort.Ap.Translate: the translator's outcome (a command, or finished early) and the controller's answer are parameters; ScsiXlat has the translators themselves.
- AtaPort.Ap.QcComplete: one taskfile value stands for whatever tf_read returns during an atomic step.
- Ahci.ShadowAgreement: an error handling session is one step that leaves what PortRuns.SessionEnds promises and empty registers; the registers during internal commands are not followed.
- ErrorRing.Ering.Needed: the speed and transfer-mode limits lowered afterwards are not part of the model.
- DmaPad.DmaCmd.SgSetup: covers ata_sg_setup_one as a list of one entry.
