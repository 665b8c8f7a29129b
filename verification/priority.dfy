/** Ordering by priority: `Generator::sortUrlsByPriority`
    (Generator.php:229-248). */
module Priority {
  import opened Values

  predicate HasPriority(e: Hash) {
    Has(e, "priority")
  }

  /** The number PHP compares for an entry's priority. */
  function Rank(rank: Value -> real, e: Hash): real
    requires HasPriority(e)
  {
    rank(Get(e, "priority"))
  }

  /** The usort callback as written: a missing priority on the left answers
      1 before the right side is looked at. */
  function SourceCompare(rank: Value -> real, a: Hash, b: Hash): int {
    if !HasPriority(a) then 1
    else if !HasPriority(b) then -1
    else if Rank(rank, a) == Rank(rank, b) then 0
    else if Rank(rank, a) < Rank(rank, b) then 1
    else -1
  }

  /** Two entries without a priority each claim to sort after the other, so
      the callback is not a consistent ordering. */
  lemma SourceCompareNotAntisymmetric(rank: Value -> real)
    ensures var a := [Field("loc", Scalar("/a"))];
            var b := [Field("loc", Scalar("/b"))];
            SourceCompare(rank, a, b) == 1 && SourceCompare(rank, b, a) == 1
  {
    assert !Has([Field("loc", Scalar("/a"))], "priority");
    assert !Has([Field("loc", Scalar("/b"))], "priority");
  }

  /** The callback with the both-missing case answered 0 ("equal"). */
  function Compare(rank: Value -> real, a: Hash, b: Hash): int {
    if !HasPriority(a) && !HasPriority(b) then 0 else SourceCompare(rank, a, b)
  }

  /** The corrected callback differs from the written one only when neither
      entry has a priority, and it is a consistent ordering: swapping the
      arguments flips the sign, and "not after" is total and transitive. */
  lemma CompareConsistent(rank: Value -> real, a: Hash, b: Hash, c: Hash)
    ensures HasPriority(a) || HasPriority(b) ==> Compare(rank, a, b) == SourceCompare(rank, a, b)
    ensures Compare(rank, a, b) == -Compare(rank, b, a)
    ensures Compare(rank, a, b) <= 0 || Compare(rank, b, a) <= 0
    ensures Compare(rank, a, b) <= 0 && Compare(rank, b, c) <= 0 ==> Compare(rank, a, c) <= 0
  {
  }

  /** No entry is placed after one that should come later. */
  ghost predicate Ordered(rank: Value -> real, s: seq<Hash>) {
    forall i, j :: 0 <= i < j < |s| ==> Compare(rank, s[i], s[j]) <= 0
  }

  /** Inserts `x` before the first entry it does not sort after. */
  function Insert(rank: Value -> real, x: Hash, s: seq<Hash>): (r: seq<Hash>)
    requires Ordered(rank, s)
    ensures Ordered(rank, r)
    ensures multiset(r) == multiset(s) + multiset{x}
    ensures forall k :: 0 <= k < |r| ==> r[k] == x || r[k] in s
  {
    if s == [] then [x]
    else if Compare(rank, x, s[0]) <= 0 then
      BelowHead(rank, x, s);
      ConsOrdered(rank, x, s);
      [x] + s
    else
      var rest := Insert(rank, x, s[1..]);
      assert s == [s[0]] + s[1..];
      HeadBelowInsert(rank, x, s, rest);
      ConsOrdered(rank, s[0], rest);
      [s[0]] + rest
  }

  /** An entry that sorts before everything of an ordered list may be put in front. */
  lemma ConsOrdered(rank: Value -> real, y: Hash, t: seq<Hash>)
    requires Ordered(rank, t)
    requires forall k :: 0 <= k < |t| ==> Compare(rank, y, t[k]) <= 0
    ensures Ordered(rank, [y] + t)
  {
    var u := [y] + t;
    forall i, j | 0 <= i < j < |u| ensures Compare(rank, u[i], u[j]) <= 0 {
      assert u[j] == t[j - 1];
      if i > 0 { assert u[i] == t[i - 1]; }
    }
  }

  /** What sorts before the head of an ordered list sorts before all of it. */
  lemma BelowHead(rank: Value -> real, x: Hash, s: seq<Hash>)
    requires Ordered(rank, s) && s != [] && Compare(rank, x, s[0]) <= 0
    ensures forall j :: 0 <= j < |s| ==> Compare(rank, x, s[j]) <= 0
  {
    forall j | 0 < j < |s| ensures Compare(rank, x, s[j]) <= 0 {
      CompareConsistent(rank, x, s[0], s[j]);
    }
  }

  /** The head of an ordered list sorts before everything of the insertion
      into its tail of an entry that sorts after it. */
  lemma HeadBelowInsert(rank: Value -> real, x: Hash, s: seq<Hash>, rest: seq<Hash>)
    requires Ordered(rank, s) && s != [] && Compare(rank, x, s[0]) > 0
    requires forall k :: 0 <= k < |rest| ==> rest[k] == x || rest[k] in s[1..]
    ensures forall k :: 0 <= k < |rest| ==> Compare(rank, s[0], rest[k]) <= 0
  {
    CompareConsistent(rank, x, s[0], x);
    forall k | 0 <= k < |rest| ensures Compare(rank, s[0], rest[k]) <= 0 {
      if rest[k] != x {
        var j :| 0 <= j < |s[1..]| && s[1..][j] == rest[k];
        assert s[j + 1] == rest[k];
      }
    }
  }

  /** Inserting an entry that sorts before the head puts it in front. */
  lemma InsertFront(rank: Value -> real, x: Hash, s: seq<Hash>)
    requires Ordered(rank, s) && (s == [] || Compare(rank, x, s[0]) <= 0)
    ensures Insert(rank, x, s) == [x] + s
  {
  }

  /** The entries ordered by priority. Ties (equal priorities, or both
      missing) keep their input order. */
  function SortByPriority(rank: Value -> real, s: seq<Hash>): (r: seq<Hash>)
    ensures multiset(r) == multiset(s)
    ensures Ordered(rank, r)
    ensures forall i, j :: 0 <= i < j < |r| && HasPriority(r[j]) ==> HasPriority(r[i])
    ensures forall i, j :: 0 <= i < j < |r| && HasPriority(r[i]) && HasPriority(r[j]) ==>
      Rank(rank, r[i]) >= Rank(rank, r[j])
  {
    if s == [] then []
    else
      assert s == [s[0]] + s[1..];
      Insert(rank, s[0], SortByPriority(rank, s[1..]))
  }

  /** An already ordered list is left exactly as it is. */
  lemma {:induction false} SortOrderedIsIdentity(rank: Value -> real, s: seq<Hash>)
    requires Ordered(rank, s)
    ensures SortByPriority(rank, s) == s
  {
    if s != [] {
      var t := s[1..];
      assert Ordered(rank, t) by {
        forall i, j | 0 <= i < j < |t| ensures Compare(rank, t[i], t[j]) <= 0 {
          assert t[i] == s[i + 1] && t[j] == s[j + 1];
        }
      }
      SortOrderedIsIdentity(rank, t);
      if |s| > 1 {
        assert t[0] == s[1];
      }
      InsertFront(rank, s[0], t);
      assert s == [s[0]] + t;
    }
  }

  /** Sorting twice is sorting once. */
  lemma SortIdempotent(rank: Value -> real, s: seq<Hash>)
    ensures SortByPriority(rank, SortByPriority(rank, s)) == SortByPriority(rank, s)
  {
    SortOrderedIsIdentity(rank, SortByPriority(rank, s));
  }
}
