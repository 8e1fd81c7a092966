/** What the environment supplies to the model: clock readings and fresh identifiers. */
module Env {

  /** An instant or a `time.Duration`, in nanoseconds. */
  type Time = nat

  const Millisecond: nat := 1_000_000
  const Second: nat := 1000 * Millisecond
  const Hour: nat := 3600 * Second

  /** The text of a `uuid.New()`: never empty. */
  type Uuid = s: string | s != "" witness "00000000-0000-0000-0000-000000000000"
}
