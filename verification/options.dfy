/** A value that may be absent: JavaScript's `null`/`undefined` results,
    and the first present value of a series of attempts. */
module Options {
  datatype Option<+T> = None | Some(value: T)

  /** No attempt in `hits[from..j]` succeeded. */
  predicate FirstAt<T>(hits: seq<Option<T>>, from: nat, j: nat)
    requires j <= |hits|
  {
    forall j' :: from <= j' < j ==> hits[j'].None?
  }

  /** The first present value of `hits` from index `from` on: the outcome
      of a loop that tries each attempt in turn and returns on success. */
  function FirstSome<T>(hits: seq<Option<T>>, from: nat := 0): Option<T>
    decreases |hits| - from
  {
    if from >= |hits| then None
    else if hits[from].Some? then hits[from]
    else FirstSome(hits, from + 1)
  }

  /** The first success decides: whatever follows it is never looked at. */
  lemma {:induction false} FirstSomeAt<T>(hits: seq<Option<T>>, from: nat, j: nat)
    requires from <= j < |hits| && hits[j].Some?
    requires FirstAt(hits, from, j)
    ensures FirstSome(hits, from) == hits[j]
    decreases j - from
  {
    if from < j {
      FirstSomeAt(hits, from + 1, j);
    }
  }

  /** A present result is an attempt from `from` on with none present
      before it; an absent result means every attempt from `from` on
      failed. */
  lemma {:induction false} FirstSomeIsFirst<T>(hits: seq<Option<T>>, from: nat)
    ensures FirstSome(hits, from).Some? ==>
      exists j :: from <= j < |hits| && hits[j] == FirstSome(hits, from) && FirstAt(hits, from, j)
    ensures FirstSome(hits, from).None? ==> forall j :: from <= j < |hits| ==> hits[j].None?
    decreases |hits| - from
  {
    if from < |hits| && hits[from].None? {
      FirstSomeIsFirst(hits, from + 1);
      if FirstSome(hits, from).Some? {
        var j :| from + 1 <= j < |hits| && hits[j] == FirstSome(hits, from) && FirstAt(hits, from + 1, j);
        assert FirstAt(hits, from, j);
      }
    } else if from < |hits| {
      assert FirstAt(hits, from, from);
    }
  }
}
