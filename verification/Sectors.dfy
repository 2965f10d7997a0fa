/** Sectors, disks and sector records: crash/sector_loc.h, crash/BlockDev.C, crash/Log.h.

    ChunkDB stores sector contents under a signature; signatures are taken as
    injective, so a disk is the map from its sectors to their signatures. */
module Sectors {

  datatype Loc = Loc(dev: int, sector: int)

  type Sig = int

  type Disk = map<Loc, Sig>

  type WriteSet = map<Loc, Sig>

  datatype SectorRec =
    | Add(loc: Loc, sig: Sig)
    | Remove(loc: Loc)
    | Write(loc: Loc, sig: Sig)
    | Read(loc: Loc, sig: Sig)
}
