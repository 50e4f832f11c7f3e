/** Small facts about sequences that the loops of the index share. */
module Seqs {

  /** Moving the first element of what is still to do onto what is done. */
  lemma Shift<T>(done: seq<T>, todo: seq<T>, x: T, rest: seq<T>)
    requires todo == [x] + rest
    ensures done + todo == (done + [x]) + rest
  {
  }
}
