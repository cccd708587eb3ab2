/** Vocabulary of `share-db/interface.ts` shared by the event emitter and the ShareDB adapter. */
module RawOps {
  // The id prefixes with a ShareDB document behind them.
  datatype DocType = Table | Field | View | Record

  datatype RawOpType = CreateType | EditType | DelType
}
