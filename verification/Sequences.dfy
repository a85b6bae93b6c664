/** Lists of work: what is done, the next part, and the rest. */
module Sequences {

  lemma Advance<T>(done: seq<T>, part: seq<T>, rest: seq<T>, todo: seq<T>)
    requires todo == part + rest
    ensures (done + part) + rest == done + todo
  {}
}
