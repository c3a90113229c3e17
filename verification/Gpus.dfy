/** One GPU of the payload: the reading and the flags the scheduler derives from it. */
module Gpus {

  datatype GpuInfo = GpuInfo(index: nat, totalMb: int, usedMb: int, hasProcesses: bool)

  datatype Gpu = Gpu(
    index: nat, totalMb: int, usedMb: int, freeMb: int, occupied: bool, enabled: bool,
    physicallyIdle: bool, idle: bool)

  function Describe(r: GpuInfo, thresholdMb: int, occupied: bool, enabled: bool): Gpu {
    var physicallyIdle := r.usedMb < thresholdMb && !r.hasProcesses && !occupied;
    var free := r.totalMb - r.usedMb;
    Gpu(r.index, r.totalMb, r.usedMb, if free < 0 then 0 else free, occupied, enabled,
        physicallyIdle, physicallyIdle && enabled)
  }

  /** Free memory is what is not used, and never below 0. */
  predicate FreeIsRight(g: Gpu) {
    g.freeMb == if g.totalMb - g.usedMb < 0 then 0 else g.totalMb - g.usedMb
  }

  ghost predicate UniqueIndices(gpus: seq<Gpu>) {
    forall i, j | 0 <= i < j < |gpus| :: gpus[i].index != gpus[j].index
  }
}
