/** Facts about sequence slicing and concatenation, stated once for any
    element type so that proofs about the ledger can cite them. */
module SeqFacts {

  lemma TakeTake<T>(a: seq<T>, i: nat, j: nat)
    requires j <= i <= |a|
    ensures a[..i][..j] == a[..j]
  {
  }

  lemma TakeSnoc<T>(a: seq<T>, i: nat)
    requires i < |a|
    ensures a[..i + 1] == a[..i] + [a[i]]
  {
  }

  lemma TakeDrop<T>(a: seq<T>, i: nat)
    requires i <= |a|
    ensures a[..i] + a[i..] == a
  {
  }

  lemma TakeAll<T>(a: seq<T>)
    ensures a[..|a|] == a
  {
  }

  lemma DropSnoc<T>(a: seq<T>)
    requires a != []
    ensures a[..|a| - 1] + [a[|a| - 1]] == a
  {
  }

  lemma AppendFront<T>(a: seq<T>, b: seq<T>)
    requires b != []
    ensures (a + b)[..|a + b| - 1] == a + b[..|b| - 1]
  {
  }

  lemma Assoc<T>(x: seq<T>, y: seq<T>, z: seq<T>)
    ensures x + (y + z) == x + y + z
  {
  }
}
