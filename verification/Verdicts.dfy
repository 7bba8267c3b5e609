/** The verdicts of the ingest waterfall, shared by evaluation and linkage. */
module Verdicts {
  import opened Store

  datatype BypassReason = TooSmall | AlreadyIngested | Prohibited | UnknownType

  datatype IngestVerdict = Bypass(reason: BypassReason) | Unique | Duplicate(slot: SlotRef)
}
