/**
 The physical memory the page tables of all address spaces and the pages of all memory objects share.
 */
module Physical {
  import opened PageTree
  import opened PageMemory

  /** `mem` holds every frame that is a page-table node; `free` are the frames the page allocator can still hand out. */
  class Frames {
    var mem: Memory
    var free: set<Ppn>

    constructor (free: set<Ppn>)
      ensures mem == map[] && this.free == free
    {
      this.mem, this.free := map[], free;
    }
  }
}
