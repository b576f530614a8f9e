/** The server's shared state (src/source/shared_state.h) together with the slot
    table, as one value. */
module ServerState {
  import opened Basics
  import opened Slots
  import opened Table

  datatype Algorithm = FIFO | LRU | LFU

  /** The read-only settings: replacement algorithm, storage and client limits. */
  datatype Config = Config(algo: Algorithm, maxStorage: nat, maxConns: nat)

  /** An entry of the client table; fd is -1 while it is free.  `lastop` names the
      file of a create-and-lock that nothing has happened to since. */
  datatype Client = Client(fd: int, lastop: Name)

  datatype State = State(
    slots: seq<Slot>,
    clients: seq<Client>,
    storage: int,
    nfiles: int,
    nconns: int,
    peakStorage: int,
    peakFiles: int,
    peakConns: int,
    misses: int,
    lruPos: nat)

  function Initial(cfg: Config, files: nat): State {
    State(seq(files, _ => FREE), seq(cfg.maxConns, _ => Client(-1, [])), 0, 0, 0, 0, 0, 0, 0, 0)
  }

  /** The part of the server invariant that eviction relies on and keeps. */
  ghost predicate Tidy(st: State) {
    && WellFormed(st.slots)
    && st.storage == Total(st.slots)
    && st.nfiles == Count(st.slots)
    && st.lruPos < |st.slots|
    && forall i :: 0 <= i < |st.slots| ==> st.slots[i].owner != OWNER_ADMIN
  }
}
