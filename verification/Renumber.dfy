/**
 Renumbering a court's queue after one group is deleted: negate every position,
 then give each row its rank. Postgres checks the unique (court, position)
 index after every single row, so no order of row updates may ever put two rows
 on one position.
 */
module Renumber {
  type RowId = nat

  type Positions = map<RowId, int>

  ghost predicate Unique(p: Positions) {
    forall a, b :: a in p && b in p && a != b ==> p[a] != p[b]
  }

  /** Positions are dense: row line[i] is at position i + 1 and there are no other rows. */
  ghost predicate InOrder(p: Positions, line: seq<RowId>) {
    && (forall i :: 0 <= i < |line| ==> line[i] in p && p[line[i]] == i + 1)
    && (forall a :: a in p ==> 1 <= p[a] <= |line| && line[p[a] - 1] == a)
  }

  function Negated(p: Positions): Positions {
    map a | a in p :: -p[a]
  }

  function AtOrAbove(p: Positions, a: RowId): set<RowId>
    requires a in p
  {
    set b | b in p && p[b] >= p[a]
  }

  /** ROW_NUMBER() OVER (ORDER BY position DESC). */
  function Rank(p: Positions, a: RowId): int
    requires a in p
  {
    |AtOrAbove(p, a)|
  }

  function Ranked(p: Positions): Positions {
    map a | a in p :: Rank(p, a)
  }

  function Rows(line: seq<RowId>): set<RowId> {
    set a | a in line
  }

  function Without(line: seq<RowId>, i: nat): seq<RowId>
    requires i < |line|
  {
    line[..i] + line[i + 1..]
  }

  // ---- the result -----------------------------------------------------------

  lemma {:induction false} DistinctCount(line: seq<RowId>)
    requires forall i, j :: 0 <= i < j < |line| ==> line[i] != line[j]
    ensures |Rows(line)| == |line|
  {
    if line != [] {
      var init, last := line[..|line| - 1], line[|line| - 1];
      DistinctCount(init);
      assert line == init + [last] && last !in init;
      assert Rows(line) == Rows(init) + {last};
    }
  }

  lemma WithoutAt(line: seq<RowId>, i: nat, j: nat)
    requires i < |line| && j < |line| && j != i
    ensures var k := if j < i then j else j - 1; k < |Without(line, i)| && Without(line, i)[k] == line[j]
  {
  }

  lemma RankAfterRemoval(p: Positions, line: seq<RowId>, i: nat, j: nat)
    requires InOrder(p, line) && i < |line| && j < |line| && j != i
    ensures line[j] in Negated(p - {line[i]})
    ensures Rank(Negated(p - {line[i]}), line[j]) == if j < i then j + 1 else j
  {
    var neg, a, upto := Negated(p - {line[i]}), line[j], line[..j + 1];
    assert AtOrAbove(neg, a) == Rows(upto) - {line[i]} by {
      forall b | b in AtOrAbove(neg, a) ensures b in upto {
        assert b == upto[p[b] - 1];
      }
    }
    assert i <= j <==> line[i] in upto;
    DistinctCount(upto);
  }

  /** Ranking the negated rows that survive gives 1..N in the original order. */
  lemma RankRestoresOrder(p: Positions, line: seq<RowId>, i: nat)
    requires InOrder(p, line) && i < |line|
    ensures InOrder(Ranked(Negated(p - {line[i]})), Without(line, i))
  {
    var ranked, left := Ranked(Negated(p - {line[i]})), Without(line, i);
    forall k | 0 <= k < |left| ensures left[k] in ranked && ranked[left[k]] == k + 1 {
      RankAfterRemoval(p, line, i, if k < i then k else k + 1);
    }
    forall a | a in ranked ensures 1 <= ranked[a] <= |left| && left[ranked[a] - 1] == a {
      RankAfterRemoval(p, line, i, p[a] - 1);
      WithoutAt(line, i, p[a] - 1);
    }
  }

  // ---- every intermediate state ---------------------------------------------

  /** The table when the rows in `done` have been updated and the others not yet. */
  function Partial(before: Positions, after: Positions, done: set<RowId>): Positions
    requires before.Keys == after.Keys
  {
    map a | a in before :: if a in done then after[a] else before[a]
  }

  /** No order of the negation's row updates ever collides. */
  lemma NegationNeverCollides(p: Positions, line: seq<RowId>, i: nat, order: seq<RowId>, k: nat)
    requires InOrder(p, line) && i < |line| && k <= |order|
    ensures Unique(Partial(p - {line[i]}, Negated(p - {line[i]}), Rows(order[..k])))
  {
  }

  /** No order of the ranking's row updates ever collides. */
  lemma RankingNeverCollides(p: Positions, line: seq<RowId>, i: nat, order: seq<RowId>, k: nat)
    requires InOrder(p, line) && i < |line| && k <= |order|
    ensures var neg := Negated(p - {line[i]}); Unique(Partial(neg, Ranked(neg), Rows(order[..k])))
  {
    RankRestoresOrder(p, line, i);
  }

  /**
   Writing the ranks without negating first does collide: whenever two groups
   stand behind the removed one, updating the second of them first puts it on
   the position the first one still holds.
   */
  lemma DirectShiftCollides(p: Positions, line: seq<RowId>, i: nat)
    requires InOrder(p, line) && i + 2 < |line|
    ensures !Unique(Partial(p - {line[i]}, Ranked(Negated(p - {line[i]})), {line[i + 2]}))
  {
    RankAfterRemoval(p, line, i, i + 2);
    assert line[i + 1] != line[i + 2] && line[i + 1] != line[i] && line[i + 2] != line[i];
    var half := Partial(p - {line[i]}, Ranked(Negated(p - {line[i]})), {line[i + 2]});
    assert half[line[i + 1]] == half[line[i + 2]] == i + 2;
  }
}
