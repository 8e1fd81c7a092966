/**
 * What the model keeps of `database/sql`: the driver's no-rows sentinel and the places a
 * statement can fail. A fault is an input naming the one statement that fails and the
 * error the driver reports for it.
 */
module Sql {
  import opened Wrappers
  import opened Errors

  /** `sql.ErrNoRows`, returned by `QueryRow(...).Scan` when the query selects nothing. */
  const ErrNoRows: Error := Foreign("sql: no rows in result set")

  /** The statements of a `Create` transaction, in the order they run. */
  datatype WriteStep = Begin | InsertRow | InsertItem(index: nat) | InsertKey | Commit

  /** Either every statement succeeds, or the named one fails with `cause`. */
  datatype WriteFault = NoWriteFault | WriteFails(step: WriteStep, cause: Error)

  /**
   * Whether the transaction runs into its fault: an item insert beyond the last item is
   * never issued, so a fault planted there is never met.
   */
  predicate Reached(fault: WriteFault, itemCount: nat)
  {
    fault.WriteFails? && (fault.step.InsertItem? ==> fault.step.index < itemCount)
  }

  predicate FailsAt(fault: WriteFault, step: WriteStep)
  {
    fault.WriteFails? && fault.step == step
  }

  /**
   * The ways reading child rows can fail: the query itself, the scan of the n-th selected
   * row, or the iterator's deferred error reported by `rows.Err()` after the last row.
   */
  datatype ItemsFault = NoItemsFault | QueryFails(cause: Error) | ScanFails(row: nat, cause: Error) | IterationFails(cause: Error)
}
