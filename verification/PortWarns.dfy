/** What the flag `warned` stands for: the WARN_ONs and BUGs of the port, each recorded exactly when its
    condition holds.  PortRuns.NeverWarns is about this flag. */
module PortWarns {
  import opened Ata
  import opened PortModel
  import opened PortInvariant
  import opened PortIssue
  import opened PortPreserve
  import PortSystem

  /** ata_qc_complete leaves the command to the error handler. */
  predicate GoesToEh(qc: Qc, t: nat) { (qc.failed || qc.err != {}) && t != ATA_TAG_INTERNAL }

  /** ata_qc_complete warns on a frozen port, and, if it does complete the command, on a command that is
      not active. */
  lemma CompleteWarns(p: Port, t: nat, tf: ResultTf)
    requires Owned(p, t)
    ensures QcComplete(p, t, tf).warned <==>
              p.warned || p.frozen || (!GoesToEh(p.qcmd[t], t) && !p.qcmd[t].active)
  {
    hide OnlyTag;
  }

  /** ata_qc_issue warns exactly when the queue fields speak against the command: a command without NCQ
      is active, the tag is among the NCQ tags, or, for a command without NCQ, there are any. */
  lemma IssueWarns(p: Port, t: nat, ncq: bool)
    requires Owned(p, t)
    ensures Activate(p, t, ncq).warned <==>
              p.warned || p.regs.activeTag < ATA_MAX_QUEUE || (if ncq then t in p.regs.sactive else p.regs.sactive != {})
  {
  }

  /** Hand-back by the error handler warns on a command that is not active; the tag it has just freed is
      no longer valid. */
  lemma HandBackWarns(p: Port, t: nat)
    requires Owned(p, t) && p.qcmd[t].scsicmd.Some?
    ensures EhRawComplete(p, t).warned <==> p.warned || !p.qcmd[t].active
    ensures !TagValid(EhRawComplete(p, t).qcmd[t].tag)
  {
    hide OnlyTag;
  }

  /** Leaving the error handler warns if a command is still its own; an internal command that finds the
      internal tag taken is a bug, unless the port is frozen. */
  lemma ExitWarns(s: PortSystem.Sys, ncq: bool, err: ErrMask, tf: ResultTf)
    ensures PortSystem.Enabled(s, PortSystem.EhFlush) ==>
              (PortSystem.Next(s, PortSystem.EhFlush).p.warned <==>
                 s.p.warned || s.p.mid.hostFailed != 0 || s.p.mid.ehCmdQ != [])
    ensures PortSystem.Enabled(s, PortSystem.EhExec(ncq, err, tf)) && !s.p.frozen && ATA_TAG_INTERNAL in s.p.tags ==>
              PortSystem.Next(s, PortSystem.EhExec(ncq, err, tf)).p.warned
  {
    hide PortSystem.Sane, QcIssue;
  }
}
