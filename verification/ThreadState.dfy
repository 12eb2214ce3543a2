/** What both schedulers know of a thread's status word. */
module ThreadState {

  /** The status word apart from its yield flag; the three kinds of suspension are one. */
  datatype Stat = Initial | Ready | Running | Suspended
}
