/**
 * The worker-count rule both Rust pipelines use: half the logical CPUs, and
 * never fewer than one worker.
 */
module Threads {

  /** `max(1, cpus / 2)`. */
  function HalfCores(cpus: nat): (n: nat)
    ensures n >= 1
    ensures n == 1 || n == cpus / 2
    ensures 2 * n <= cpus || n == 1
  {
    if cpus / 2 > 1 then cpus / 2 else 1
  }

  /** The rule takes the larger of its two candidates. */
  lemma HalfCoresIsMax(cpus: nat)
    ensures HalfCores(cpus) >= 1 && HalfCores(cpus) >= cpus / 2
    ensures cpus < 4 <==> HalfCores(cpus) == 1
  {
  }
}
