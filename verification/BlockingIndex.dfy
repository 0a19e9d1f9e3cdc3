/** The index rules of blocking queries, shared by every watch. */
module BlockingIndex {

  /** The index the next request carries, given that of the request just answered
      and that of the answer. */
  function NextIndex(prev: nat, got: nat): (next: nat)
    ensures next == 0 <==> got < prev
    ensures next != 0 ==> next >= prev && next >= got
  {
    if got < prev then 0
    else if got == 0 then 1
    else got
  }

  /** Whether a server at index `now` holds back the answer to a request. */
  predicate Blocks(wait: nat, now: nat) {
    wait > 0 && now <= wait
  }
}
