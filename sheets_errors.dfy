/** The failures the data provider can raise. */
module SheetsErrors {

  /** The codes of SheetsErrorCode a PrestoException of the provider carries. */
  datatype ErrorCode =
    | SheetsMetastoreError
    | SheetsTableLoadError
    | SheetsUnknownTableError

  /** An exception that escapes a cache loader. */
  datatype LoadError =
    // a PrestoException with that code
    | Presto(code: ErrorCode)
    // `tableOptions[0]` on an expression that splits into no piece at all
    | IndexOutOfBounds
    // ImmutableMap.Builder.build() refusing a table name put twice
    | DuplicateKey(key: string)
}
