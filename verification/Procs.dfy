/** The states of a process in kernel/proc.h. */
module Procs {
  datatype ProcState = Unused | Used | Sleeping | Runnable | Running | Zombie
}
