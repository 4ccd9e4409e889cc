/** Constants and small predicates shared by the whole model: tags, AC_ERR bits, status bits. */
module Ata {

  datatype Option<+T> = None | Some(value: T)

  const ATA_MAX_QUEUE: nat := 32
  // The last tag is reserved for internal commands.
  const ATA_TAG_INTERNAL: nat := 31
  const ATA_TAG_POISON: nat := 0xfafb_fcfd

  predicate TagValid(tag: nat) { tag < ATA_MAX_QUEUE }

  /** The AC_ERR_* bits.  An error mask is the set of its bits: OR is union, zero is the empty set. */
  datatype AcErr = Dev | Hsm | Timeout | Media | AtaBus | HostBus | System | Invalid | Other

  type ErrMask = set<AcErr>

  // Status register bits.
  const ATA_BUSY: bv8 := 0x80
  const ATA_DRDY: bv8 := 0x40
  const ATA_DF: bv8 := 0x20
  const ATA_DRQ: bv8 := 0x08
  const ATA_ERR: bv8 := 0x01

  // Error register bits.
  const ATA_ICRC: bv8 := 0x80
  const ATA_UNC: bv8 := 0x40
  const ATA_IDNF: bv8 := 0x10

  predicate AtaOk(status: bv8) {
    status & (ATA_BUSY | ATA_DRDY | ATA_DF | ATA_DRQ | ATA_ERR) == ATA_DRDY
  }

  /** ac_err_mask and __ac_err_mask: the latter is never zero. */
  function AcErrMask(status: bv8): (r: ErrMask)
    ensures r != {}
    ensures r == {Dev} ==> status & (ATA_ERR | ATA_DF) != 0
  {
    if status & (ATA_BUSY | ATA_DRQ) != 0 then {Hsm}
    else if status & (ATA_ERR | ATA_DF) != 0 then {Dev}
    else {Other}
  }

  /** Status and error register of a result taskfile. */
  datatype ResultTf = ResultTf(status: bv8, error: bv8)

  const TF_CLEAN := ResultTf(ATA_DRDY, 0)
  const TF_ZERO := ResultTf(0, 0)

  /** The device flags that decide how a command is issued. */
  datatype DevFlags = DevFlags(ncq: bool, ncqOff: bool, pio: bool)

  /** ata_scsi_rw_xlat chooses NCQ exactly then. */
  predicate UsesNcq(d: DevFlags) { d.ncq && !d.ncqOff && !d.pio }

  function Min(a: nat, b: nat): nat { if a < b then a else b }

  function Max(a: nat, b: nat): nat { if a < b then b else a }
}
