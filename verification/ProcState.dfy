/** enum procstate of proc.h. */
module ProcState {
  datatype PState = UNUSED | EMBRYO | SLEEPING | RUNNABLE | RUNNING | ZOMBIE
}
