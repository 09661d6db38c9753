/** The failures the exporter can run into, and the value types that carry them. */
module Outcomes {

  /** Which remote text file a transfer was for; the two kinds carry different messages. */
  datatype Resource = IndexFile | TsvFile

  /** Every way a download run can stop early. */
  datatype Error =
    | MissingOption(option: string)            // an `OptionException` for a required option
    | MissingSecretKey                          // the secret-key environment variable is unset or empty
    | ExportStartFailed(message: string)        // the start-export call reported an error
    | StatusQueryFailed(message: string)        // the export-status call reported an error
    | HttpStatusFailed(resource: Resource, statusCode: int)  // a GET answered with a non-success status
    | TransportFailed(resource: Resource, reason: string)    // a GET could not be completed at all
    | MissingHeaderRow(url: string)             // a shard's first line lacks the header marker

  /** A value, or the error that prevented computing it. */
  datatype Result<+T> = Ok(value: T) | Err(error: Error)

  /** Success without a value, or an error. */
  datatype Outcome = Pass | Fail(error: Error)
}
