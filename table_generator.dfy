/**
 * TableGenerator: the probability that one die beats another in a single
 * roll, as the count of winning face pairs over the count of all face pairs.
 * The division and its two-decimal formatting are left to the display; an
 * entry here keeps the integer numerator and denominator.
 */
module TableGenerator {
  import opened Dice

  /** The number of faces y in ys with x > y. */
  function CountBelow(x: int, ys: seq<int>): (c: nat)
    ensures c <= |ys|
  {
    if ys == [] then 0 else (if x > ys[0] then 1 else 0) + CountBelow(x, ys[1..])
  }

  /** The number of faces y in ys with y > x. */
  function CountAbove(x: int, ys: seq<int>): (c: nat)
    ensures c <= |ys|
  {
    if ys == [] then 0 else (if ys[0] > x then 1 else 0) + CountAbove(x, ys[1..])
  }

  /** The number of faces y in ys equal to x. */
  function CountEqual(x: int, ys: seq<int>): (c: nat)
    ensures c <= |ys|
    ensures x in ys ==> c >= 1
  {
    if ys == [] then 0 else (if ys[0] == x then 1 else 0) + CountEqual(x, ys[1..])
  }

  /** The number of ordered pairs (x, y), x from xs and y from ys, with x > y. */
  function Wins(xs: seq<int>, ys: seq<int>): (w: nat)
    ensures w <= |xs| * |ys|
  {
    if xs == [] then 0
    else
      var rest := Wins(xs[1..], ys);
      assert |xs| * |ys| == |ys| + (|xs| - 1) * |ys|;
      CountBelow(xs[0], ys) + rest
  }

  /** The number of ordered pairs (x, y) with x < y. */
  function Losses(xs: seq<int>, ys: seq<int>): nat {
    if xs == [] then 0 else CountAbove(xs[0], ys) + Losses(xs[1..], ys)
  }

  /** The number of ordered pairs (x, y) with x == y. */
  function Ties(xs: seq<int>, ys: seq<int>): nat {
    if xs == [] then 0 else CountEqual(xs[0], ys) + Ties(xs[1..], ys)
  }

  lemma {:induction false} CountsPartition(x: int, ys: seq<int>)
    ensures CountBelow(x, ys) + CountAbove(x, ys) + CountEqual(x, ys) == |ys|
  {
    if ys != [] {
      CountsPartition(x, ys[1..]);
    }
  }

  /** Every pair of faces is a win, a loss or a tie, and only one of them. */
  lemma {:induction false} PairsPartition(xs: seq<int>, ys: seq<int>)
    ensures Wins(xs, ys) + Losses(xs, ys) + Ties(xs, ys) == |xs| * |ys|
  {
    if xs != [] {
      CountsPartition(xs[0], ys);
      PairsPartition(xs[1..], ys);
      assert |xs| * |ys| == |ys| + (|xs| - 1) * |ys|;
    }
  }

  lemma {:induction false} WinsNoFaces(ys: seq<int>)
    ensures Wins(ys, []) == 0 && Ties(ys, []) == 0
  {
    if ys != [] {
      WinsNoFaces(ys[1..]);
    }
  }

  lemma {:induction false} WinsConsRight(ys: seq<int>, x: int, xs: seq<int>)
    ensures Wins(ys, [x] + xs) == CountAbove(x, ys) + Wins(ys, xs)
    ensures Ties(ys, [x] + xs) == CountEqual(x, ys) + Ties(ys, xs)
  {
    if ys != [] {
      assert ([x] + xs)[1..] == xs;
      WinsConsRight(ys[1..], x, xs);
    }
  }

  /** Counting the pairs the other way round: B's wins over A are A's losses to B. */
  lemma {:induction false} WinsSwap(xs: seq<int>, ys: seq<int>)
    ensures Wins(ys, xs) == Losses(xs, ys)
    ensures Ties(ys, xs) == Ties(xs, ys)
  {
    if xs == [] {
      WinsNoFaces(ys);
    } else {
      assert xs == [xs[0]] + xs[1..];
      WinsConsRight(ys, xs[0], xs[1..]);
      WinsSwap(xs[1..], ys);
    }
  }

  /** A's wins, B's wins and the ties together make up every pair of faces. */
  lemma WinsComplement(a: Die, b: Die)
    ensures Wins(a.values, b.values) + Wins(b.values, a.values) + Ties(a.values, b.values)
            == Len(a) * Len(b)
  {
    PairsPartition(a.values, b.values);
    WinsSwap(a.values, b.values);
  }

  lemma {:induction false} TiesAtLeast(xs: seq<int>, ys: seq<int>)
    requires forall i :: 0 <= i < |xs| ==> xs[i] in ys
    ensures Ties(xs, ys) >= |xs|
  {
    if xs != [] {
      TiesAtLeast(xs[1..], ys);
    }
  }

  /**
   * A die played against an identical die wins strictly less than half of the
   * pairs, because each face ties with itself: the general formula never gives
   * the 0.50 the table shows on its diagonal.
   */
  lemma SelfWinsBelowHalf(a: Die, b: Die)
    requires a == b
    ensures 2 * Wins(a.values, b.values) < Len(a) * Len(b)
  {
    WinsComplement(a, b);
    TiesAtLeast(a.values, b.values);
  }

  /** One cell of the probability table. */
  datatype Entry = Half | Ratio(wins: nat, total: nat)

  /** _calculate_probability: the winning pairs over all pairs of faces. */
  function CalculateProbability(a: Die, b: Die): (r: Entry)
    ensures r.Ratio? && 0 < r.total == Len(a) * Len(b) && r.wins <= r.total
    ensures r.wins == Wins(a.values, b.values)
  {
    Ratio(Wins(a.values, b.values), Len(a) * Len(b))
  }

  /** The cell in row i, column j: fixed at one half on the diagonal, computed elsewhere. */
  function TableEntry(dice: seq<Die>, i: nat, j: nat): Entry
    requires i < |dice| && j < |dice|
  {
    if i == j then Half else CalculateProbability(dice[i], dice[j])
  }

  /** The diagonal reads one half whatever the faces of the die. */
  lemma DiagonalIsHalf(dice: seq<Die>, i: nat)
    requires i < |dice|
    ensures TableEntry(dice, i, i) == Half
  {
  }

  /**
   * Off the diagonal, the cells (i, j) and (j, i) share the denominator, and
   * their numerators and the ties add up to it.
   */
  lemma OppositeEntries(dice: seq<Die>, i: nat, j: nat)
    requires i < |dice| && j < |dice| && i != j
    ensures var e, f := TableEntry(dice, i, j), TableEntry(dice, j, i);
            e.Ratio? && f.Ratio? && e.total == f.total &&
            e.wins + f.wins + Ties(dice[i].values, dice[j].values) == e.total
  {
    WinsComplement(dice[i], dice[j]);
  }

  /**
   * The diagonal rule goes by position: two identical dice at different
   * positions get a computed entry, and it is below one half.
   */
  lemma DuplicateDiceBelowHalf(dice: seq<Die>, i: nat, j: nat)
    requires i < |dice| && j < |dice| && i != j && dice[i] == dice[j]
    ensures var e := TableEntry(dice, i, j); e.Ratio? && 2 * e.wins < e.total
  {
    SelfWinsBelowHalf(dice[i], dice[j]);
  }

  /** generate_table: every row of the table, built cell by cell. */
  method GenerateTable(dice: seq<Die>) returns (table: seq<seq<Entry>>)
    ensures |table| == |dice|
    ensures forall i :: 0 <= i < |dice| ==> |table[i]| == |dice|
    ensures forall i, j :: 0 <= i < |dice| && 0 <= j < |dice| ==> table[i][j] == TableEntry(dice, i, j)
  {
    table := [];
    var i := 0;
    while i < |dice|
      invariant 0 <= i <= |dice| && |table| == i
      invariant forall r :: 0 <= r < i ==> |table[r]| == |dice|
      invariant forall r, c :: 0 <= r < i && 0 <= c < |dice| ==> table[r][c] == TableEntry(dice, r, c)
    {
      var row: seq<Entry> := [];
      var j := 0;
      while j < |dice|
        invariant 0 <= j <= |dice| && |row| == j
        invariant forall c :: 0 <= c < j ==> row[c] == TableEntry(dice, i, c)
      {
        if i == j {
          row := row + [Half];
        } else {
          row := row + [CalculateProbability(dice[i], dice[j])];
        }
        j := j + 1;
      }
      table := table + [row];
      i := i + 1;
    }
  }
}
