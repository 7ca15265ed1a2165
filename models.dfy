/** The value types shared by the engine and its views (src/models.rs). */
module Models {

  /** The state of one cluster of the simulated disk. */
  datatype ClusterState =
    | Used       // already defragmented
    | Unused     // free
    | Pending    // fragmented, waiting to be moved
    | Bad        // defective, never touched
    | Unmovable  // fixed system cluster
    | Reading    // being read from its fragmented location
    | Writing    // being written to its new location

  /** The top-level phases of a simulation run. */
  datatype DefragPhase = Initializing | Analyzing | Defragmenting | Finished

  /** The run's counters; the source's `start_time` only feeds the time estimate and is not kept. */
  datatype DefragStats = DefragStats(totalToDefrag: nat, clustersDefragged: nat)
}
