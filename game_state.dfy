/**
 * GameState: the dice the game started with, the pool still open for
 * selection and each party's chosen die. Removal from the pool goes by
 * value, the first equal die being taken out.
 */
module GameStates {
  import opened Wrappers
  import opened Dice

  /** The position of the first die in pool equal to die, if there is one. */
  function IndexOf(pool: seq<Die>, die: Die): (r: Option<nat>)
    ensures r.None? <==> die !in pool
    ensures r.Some? ==> r.value < |pool| && pool[r.value] == die && die !in pool[..r.value]
  {
    if pool == [] then None
    else if Equal(pool[0], die) then Some(0)
    else match IndexOf(pool[1..], die)
      case None => None
      case Some(k) =>
        assert pool[1..][..k] == pool[1..k + 1];
        Some(k + 1)
  }

  /**
   * list.remove(die) behind an `in` test: the first equal die is taken out
   * and the others keep their order; a die not in the pool changes nothing.
   */
  function RemoveFirst(pool: seq<Die>, die: Die): (r: seq<Die>)
    ensures match IndexOf(pool, die)
            case None => r == pool
            case Some(k) => r == pool[..k] + pool[k + 1..]
  {
    if pool == [] then []
    else if Equal(pool[0], die) then pool[1..]
    else
      var rest := RemoveFirst(pool[1..], die);
      ConsRemoval(pool, die, rest);
      [pool[0]] + rest
  }

  /** Removing from the tail and keeping a head that differs is removing from the whole pool. */
  lemma ConsRemoval(pool: seq<Die>, die: Die, rest: seq<Die>)
    requires pool != [] && pool[0] != die
    requires match IndexOf(pool[1..], die)
             case None => rest == pool[1..]
             case Some(k) => rest == pool[1..][..k] + pool[1..][k + 1..]
    ensures match IndexOf(pool, die)
            case None => [pool[0]] + rest == pool
            case Some(k) => [pool[0]] + rest == pool[..k] + pool[k + 1..]
  {
    IndexOfTail(pool, die);
    match IndexOf(pool[1..], die)
    case None =>
    case Some(k) => SplitAfterHead(pool, k);
  }

  lemma IndexOfTail(pool: seq<Die>, die: Die)
    requires pool != [] && pool[0] != die
    ensures IndexOf(pool, die) == if IndexOf(pool[1..], die).None? then None
                                  else Some(IndexOf(pool[1..], die).value + 1)
  {
  }

  lemma SplitAfterHead(pool: seq<Die>, k: nat)
    requires k + 1 < |pool|
    ensures pool[..k + 1] + pool[k + 2..] == [pool[0]] + (pool[1..][..k] + pool[1..][k + 1..])
  {
    assert pool[..k + 1] == [pool[0]] + pool[1..][..k];
  }

  /** Removal shortens the pool by exactly one die, and that die is the one asked for. */
  lemma RemoveFirstCounts(pool: seq<Die>, die: Die)
    requires die in pool
    ensures |RemoveFirst(pool, die)| == |pool| - 1
    ensures multiset(RemoveFirst(pool, die)) + multiset{die} == multiset(pool)
  {
    var k := IndexOf(pool, die).value;
    DeleteAt(pool, k);
  }

  /** after is before with the two dice a and b taken out. */
  ghost predicate TookTwo(before: seq<Die>, after: seq<Die>, a: Die, b: Die) {
    |after| + 2 == |before| && multiset(after) + multiset{a, b} == multiset(before)
  }

  /** Two dice taken out one after the other leave the rest of the pool. */
  lemma RemoveTwo(pool: seq<Die>, first: Die, second: Die)
    requires first in pool && second in RemoveFirst(pool, first)
    ensures TookTwo(pool, RemoveFirst(RemoveFirst(pool, first), second), first, second)
    ensures TookTwo(pool, RemoveFirst(RemoveFirst(pool, first), second), second, first)
  {
    var mid := RemoveFirst(pool, first);
    var last := RemoveFirst(mid, second);
    RemoveFirstCounts(pool, first);
    RemoveFirstCounts(mid, second);
    AddTwo(multiset(pool), multiset(mid), multiset(last), first, second);
  }

  /** Taking a and then b out of a multiset takes the pair {a, b}, in either order. */
  lemma AddTwo(whole: multiset<Die>, mid: multiset<Die>, last: multiset<Die>, a: Die, b: Die)
    requires whole == mid + multiset{a} && mid == last + multiset{b}
    ensures whole == last + multiset{a, b} && whole == last + multiset{b, a}
  {
    calc {
      whole;
      last + multiset{b} + multiset{a};
      last + multiset{a, b};
    }
  }

  /**
   * Taking the die at position i by value gives the same dice as deleting
   * position i, though an equal die earlier in the pool goes instead.
   */
  lemma RemoveByValueMatchesIndex(pool: seq<Die>, i: nat)
    requires i < |pool|
    ensures multiset(RemoveFirst(pool, pool[i])) == multiset(pool[..i] + pool[i + 1..])
    ensures pool[i] !in pool[..i] ==> RemoveFirst(pool, pool[i]) == pool[..i] + pool[i + 1..]
  {
    SameDiceLeft(pool, i);
    if pool[i] !in pool[..i] {
      FirstOccurrence(pool, i);
    }
  }

  /** Removal by value and deletion at i each take one copy of pool[i] out, so the same dice remain. */
  lemma SameDiceLeft(pool: seq<Die>, i: nat)
    requires i < |pool|
    ensures multiset(RemoveFirst(pool, pool[i])) == multiset(pool[..i] + pool[i + 1..])
  {
    var x := pool[i];
    RemoveFirstCounts(pool, x);
    DeleteAt(pool, i);
    Cancel(multiset(RemoveFirst(pool, x)), multiset(pool[..i] + pool[i + 1..]), multiset(pool), x);
  }

  lemma Cancel(a: multiset<Die>, b: multiset<Die>, m: multiset<Die>, x: Die)
    requires a + multiset{x} == m && b + multiset{x} == m
    ensures a == b
  {
    assert forall y :: a[y] == m[y] - multiset{x}[y];
  }

  lemma DeleteAt(pool: seq<Die>, i: nat)
    requires i < |pool|
    ensures multiset(pool[..i] + pool[i + 1..]) + multiset{pool[i]} == multiset(pool)
  {
    var before, after := pool[..i], pool[i + 1..];
    assert pool == before + [pool[i]] + after;
    calc {
      multiset(pool);
      multiset(before) + multiset{pool[i]} + multiset(after);
      multiset(before + after) + multiset{pool[i]};
    }
  }

  lemma FirstOccurrence(pool: seq<Die>, i: nat)
    requires i < |pool| && pool[i] !in pool[..i]
    ensures IndexOf(pool, pool[i]) == Some(i)
  {
  }

  /** With two equal dice in the pool, choosing the later one by position reorders what is left. */
  lemma RemoveByValueReorders(a: Die, b: Die)
    requires a != b
    ensures RemoveFirst([a, b, a], [a, b, a][2]) == [b, a]
    ensures [a, b, a][..2] == [a, b]
  {
    assert [a, b, a][1..] == [b, a];
  }

  /** The dice a party holds, as a multiset. */
  function Held(d: Option<Die>): multiset<Die> {
    if d.Some? then multiset{d.value} else multiset{}
  }

  /** Two dice that leave the pool for the parties' hands keep every die accounted for. */
  lemma TookTwoConserves(before: seq<Die>, after: seq<Die>, a: Die, b: Die, original: seq<Die>)
    requires multiset(before) + Held(None) + Held(None) == multiset(original)
    requires TookTwo(before, after, a, b)
    ensures multiset(after) + Held(Some(a)) + Held(Some(b)) == multiset(original)
  {
    assert Held(Some(a)) + Held(Some(b)) == multiset{a, b};
  }

  class GameState {
    const originalDice: seq<Die>
    var availableDice: seq<Die>
    var playerDie: Option<Die>
    var computerDie: Option<Die>

    /**
     * Every die of the game is either still in the pool or held by one
     * party, and no die is in both places.
     */
    ghost predicate Conserved()
      reads this
    {
      multiset(availableDice) + Held(playerDie) + Held(computerDie) == multiset(originalDice)
    }

    constructor (dice: seq<Die>)
      ensures originalDice == dice && availableDice == dice
      ensures playerDie == None && computerDie == None
      ensures Conserved()
    {
      originalDice := dice;
      availableDice := dice;
      playerDie := None;
      computerDie := None;
    }

    /** select_die: removes the first die equal to die from the pool, if any. */
    method SelectDie(die: Die)
      modifies this
      ensures availableDice == RemoveFirst(old(availableDice), die)
      ensures playerDie == old(playerDie) && computerDie == old(computerDie)
    {
      if die in availableDice {
        availableDice := RemoveFirst(availableDice, die);
      }
    }

    /** reset: the pool holds the original dice again and nobody holds a die. */
    method Reset()
      modifies this
      ensures availableDice == originalDice
      ensures playerDie == None && computerDie == None
      ensures Conserved()
    {
      availableDice := originalDice;
      playerDie := None;
      computerDie := None;
    }
  }
}
