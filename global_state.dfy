/** The process-wide state the entry points read and write. */
module GlobalState {

  /** One process's global settings: the environment's `sycl_pt2pt_read` flag
      (true: read mode, the receiver copies; false: write mode, the sender
      copies) and the group machinery's `is_group_active`. */
  class ProcessState {
    var syclPt2ptRead: bool
    var isGroupActive: bool

    constructor (read: bool, groupActive: bool)
      ensures syclPt2ptRead == read && isGroupActive == groupActive
    {
      syclPt2ptRead := read;
      isGroupActive := groupActive;
    }
  }
}
