/**
 * The synapse records both pipelines read from the metadata store. A store
 * query result (a Python dict) is modelled as the sequence of its
 * `(id, record)` items in iteration order.
 */
module Synapses {

  type SynapseId = int
  type RegionId = string

  /** One synapse document: its position, split tags and brain-region labels. */
  datatype Synapse = Synapse(
    z: real,
    y: real,
    x: real,
    splits: map<string, string>,   // split name -> "train" / "validation" / "test"
    brainRegion: seq<RegionId>)

  /** A mapping from synapse id to record, as returned by `get_synapses`. */
  type SynapseTable = seq<(SynapseId, Synapse)>

  /** A voxel-space location `(z, y, x)`. */
  datatype Loc = Loc(z: int, y: int, x: int)

  /** A class-score vector produced by the network for one location. */
  type Scores = seq<real>
}
