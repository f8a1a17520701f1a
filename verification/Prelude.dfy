/** Shared value types. */
module Prelude {
  datatype Option<+T> = None | Some(value: T)

  lemma InSnoc<T>(init: seq<T>, last: T, x: T)
    ensures x in init + [last] <==> x in init || x == last
    ensures (init + [last])[..|init|] == init
  {
  }
}
