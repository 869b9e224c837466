/** What several parts share. */
module Basics {
  datatype Option<T> = None | Some(value: T)

  /** Pieces put together again. */
  function Joined<T>(pieces: seq<seq<T>>): seq<T> {
    if pieces == [] then [] else Joined(pieces[..|pieces| - 1]) + pieces[|pieces| - 1]
  }

  lemma Regroup<T>(a: seq<T>, b: seq<T>, c: seq<T>)
    ensures a + b + c == a + (b + c)
  {
  }
}

/** Sides and costs of orders and positions. */
module Trading {
  datatype Side = Buy | Sell

  function Cost(lots: int, ticks: int): int {
    lots * ticks
  }
}
