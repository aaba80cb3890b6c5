/**
 * The outcomes of the SQL statements that the three record stores run, as the in-memory
 * model can produce them. Connection and driver failures are not modelled.
 */
module Store {

  datatype DbError =
    | NoRows             // the statement matched no row (sql.ErrNoRows, or zero rows affected)
    | UniqueViolation    // an INSERT or UPDATE would repeat a PRIMARY KEY or UNIQUE value
    | InvalidTimestamp   // an expiry string that is not an RFC 3339 timestamp
    | NegativeLimit      // LIMIT with a negative count
    | NullColumn         // a NULL column scanned into a Go string or time.Time
}
