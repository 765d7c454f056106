/**
 * Die: a non-empty sequence of integer faces. Dafny values are immutable, so
 * the copy the constructor takes to keep the faces from outside changes is
 * implicit.
 */
module Dice {
  import opened Wrappers

  datatype Faces = Faces(values: seq<int>)

  /** Every die the game holds has at least one face. */
  type Die = f: Faces | |f.values| > 0 witness Faces([0])

  /** Die(values): rejects an empty face list, otherwise keeps the faces as given. */
  function NewDie(values: seq<int>): (r: Result<Die>)
    ensures r.Err? <==> values == []
    ensures r.Err? ==> r.error == EmptyDie
    ensures r.Ok? ==> r.value.values == values
  {
    if values == [] then Err(EmptyDie) else Ok(Faces(values))
  }

  /** len(die): the number of faces, never zero. */
  function Len(d: Die): (n: nat)
    ensures 0 < n && n == |d.values|
  {
    |d.values|
  }

  /** die[index], with Python's negative indices counting from the end. */
  function Face(d: Die, index: int): (x: int)
    requires 0 - Len(d) <= index < Len(d)
    ensures x in d.values
    ensures index >= 0 ==> x == d.values[index]
    ensures index < 0 ==> x == d.values[Len(d) + index]
  {
    if index >= 0 then d.values[index] else d.values[Len(d) + index]
  }

  /** die == other: the same faces in the same order. */
  function Equal(a: Die, b: Die): bool {
    a.values == b.values
  }

  /** Equal agrees with Dafny's own equality: `in` and list removal, which go by Equal, match ==. */
  lemma EqualIsStructural(a: Die, b: Die)
    ensures Equal(a, b) <==> a == b
  {
  }
}
