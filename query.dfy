/**
 * `table.Where(keep).OrderByDescending(stamp).ToList()` over a table held as a
 * map from primary key to row.  The order among rows with equal stamps is left
 * open, as the database leaves it.
 */
module Query {

  predicate NewestFirst<T>(s: seq<T>, stamp: T -> int) {
    forall i, j :: 0 <= i < j < |s| ==> stamp(s[i]) >= stamp(s[j])
  }

  /** The keys of the rows that the filter keeps. */
  function Matching<T>(table: map<int, T>, keep: T -> bool): set<int> {
    set k | k in table && keep(table[k])
  }

  /** A row no older than any row of a newest-first sequence may go in front. */
  lemma PrependNewest<T>(h: T, s: seq<T>, stamp: T -> int)
    requires NewestFirst(s, stamp)
    requires forall i :: 0 <= i < |s| ==> stamp(s[i]) <= stamp(h)
    ensures NewestFirst([h] + s, stamp)
  {
    var r := [h] + s;
    forall i, j | 0 <= i < j < |r| ensures stamp(r[i]) >= stamp(r[j]) {
      assert r[j] == s[j - 1];
      if i > 0 { assert r[i] == s[i - 1]; }
    }
  }

  /** Where `x` goes: in front of the first row that is not newer than it, so
      that on a tie the new row goes first. */
  function Position<T>(s: seq<T>, x: T, stamp: T -> int): (k: nat)
    ensures k <= |s|
    ensures forall i :: 0 <= i < k ==> stamp(s[i]) > stamp(x)
    ensures k < |s| ==> stamp(s[k]) <= stamp(x)
  {
    if s == [] || stamp(x) >= stamp(s[0]) then 0 else 1 + Position(s[1..], x, stamp)
  }

  /** `x` spliced into `s` in front of position `k`. */
  function Splice<T>(s: seq<T>, k: nat, x: T): seq<T>
    requires k <= |s|
  {
    s[..k] + [x] + s[k..]
  }

  lemma SpliceCons<T>(h: T, t: seq<T>, k: nat, x: T)
    requires k <= |t|
    ensures [h] + Splice(t, k, x) == Splice([h] + t, k + 1, x)
  {
    assert ([h] + t)[..k + 1] == [h] + t[..k];
    assert ([h] + t)[k + 1..] == t[k..];
  }

  lemma SpliceAt<T>(s: seq<T>, k: nat, x: T, i: int)
    requires k <= |s| && 0 <= i <= |s|
    ensures Splice(s, k, x)[i] == (if i < k then s[i] else if i == k then x else s[i - 1])
  {
  }

  lemma SpliceMultiset<T>(s: seq<T>, k: nat, x: T)
    requires k <= |s|
    ensures multiset(Splice(s, k, x)) == multiset(s) + multiset{x}
    ensures |Splice(s, k, x)| == |s| + 1
  {
    assert s == s[..k] + s[k..];
  }

  /** One step of the ordered insertion that `OrderByDescending` performs: the
      old rows with `x` spliced in at its position. */
  function InsertNewestFirst<T>(s: seq<T>, x: T, stamp: T -> int): (r: seq<T>)
    requires NewestFirst(s, stamp)
    ensures NewestFirst(r, stamp)
    ensures r == Splice(s, Position(s, x, stamp), x)
  {
    if s == [] || stamp(x) >= stamp(s[0]) then
      PrependNewest(x, s, stamp);
      assert [x] + s == Splice(s, 0, x);
      [x] + s
    else
      var tail := s[1..];
      var rest := InsertNewestFirst(tail, x, stamp);
      var k := Position(tail, x, stamp);
      assert forall i :: 0 <= i < |rest| ==> stamp(rest[i]) <= stamp(s[0]) by {
        forall i | 0 <= i < |rest| ensures stamp(rest[i]) <= stamp(s[0]) {
          SpliceAt(tail, k, x, i);
        }
      }
      PrependNewest(s[0], rest, stamp);
      SpliceCons(s[0], tail, k, x);
      assert [s[0]] + tail == s;
      [s[0]] + rest
  }

  /** The insertion adds exactly `x` and loses no row, counted with multiplicity. */
  lemma InsertPermutes<T>(s: seq<T>, x: T, stamp: T -> int)
    requires NewestFirst(s, stamp)
    ensures multiset(InsertNewestFirst(s, x, stamp)) == multiset(s) + multiset{x}
    ensures |InsertNewestFirst(s, x, stamp)| == |s| + 1
  {
    SpliceMultiset(s, Position(s, x, stamp), x);
  }

  /** Membership in an insertion: the new row, the old rows, and only those. */
  lemma InsertMembers<T>(s: seq<T>, x: T, stamp: T -> int)
    requires NewestFirst(s, stamp)
    ensures forall y :: y in InsertNewestFirst(s, x, stamp) <==> y in s || y == x
  {
    var k := Position(s, x, stamp);
    SpliceMultiset(s, k, x);
    forall y ensures y in Splice(s, k, x) <==> y in s || y == x {
      assert y in Splice(s, k, x) <==> y in multiset(Splice(s, k, x));
      assert y in s <==> y in multiset(s);
    }
  }

  /** The kept keys below `n`. */
  function MatchingBelow<T>(table: map<int, T>, keep: T -> bool, n: int): set<int> {
    set k | k in table && k < n && keep(table[k])
  }

  lemma MatchingStep<T>(table: map<int, T>, keep: T -> bool, n: int)
    ensures n !in MatchingBelow(table, keep, n)
    ensures MatchingBelow(table, keep, n + 1)
         == MatchingBelow(table, keep, n) + (if n in table && keep(table[n]) then {n} else {})
  {
  }

  lemma MatchingAll<T>(table: map<int, T>, keep: T -> bool, bound: int)
    requires forall k :: k in table ==> k < bound
    ensures MatchingBelow(table, keep, bound) == Matching(table, keep)
  {
  }

  /** The selection over the keys below `n`, built as the loop of
      `SelectNewestFirst` builds it: key by key, ascending. */
  function SelectBelow<T>(table: map<int, T>, keep: T -> bool, stamp: T -> int, n: int): (r: seq<T>)
    ensures NewestFirst(r, stamp)
    decreases n
  {
    if n <= 0 then []
    else
      var prev := SelectBelow(table, keep, stamp, n - 1);
      if n - 1 in table && keep(table[n - 1]) then InsertNewestFirst(prev, table[n - 1], stamp) else prev
  }

  /** Only kept rows of the table are selected. */
  lemma {:induction false} SelectBelowSound<T>(table: map<int, T>, keep: T -> bool, stamp: T -> int, n: int)
    ensures forall x :: x in SelectBelow(table, keep, stamp, n) ==> x in table.Values && keep(x)
    decreases n
  {
    if n > 0 {
      SelectBelowSound(table, keep, stamp, n - 1);
      var prev := SelectBelow(table, keep, stamp, n - 1);
      if n - 1 in table && keep(table[n - 1]) {
        InsertMembers(prev, table[n - 1], stamp);
      }
    }
  }

  /** Every kept row below `n` is selected, when no key is negative. */
  lemma {:induction false} SelectBelowComplete<T>(table: map<int, T>, keep: T -> bool, stamp: T -> int, n: int)
    requires forall k :: k in table ==> 0 <= k
    ensures forall k :: k in table && k < n && keep(table[k]) ==> table[k] in SelectBelow(table, keep, stamp, n)
    decreases n
  {
    if n > 0 {
      SelectBelowComplete(table, keep, stamp, n - 1);
      var prev := SelectBelow(table, keep, stamp, n - 1);
      var next := SelectBelow(table, keep, stamp, n);
      if n - 1 in table && keep(table[n - 1]) {
        InsertMembers(prev, table[n - 1], stamp);
      }
      forall k | k in table && k < n && keep(table[k])
        ensures table[k] in next
      {
        if k < n - 1 {
          assert table[k] in prev;
        }
      }
    }
  }

  /** One row per kept key below `n`, when no key is negative. */
  lemma {:induction false} SelectBelowCount<T>(table: map<int, T>, keep: T -> bool, stamp: T -> int, n: int)
    requires forall k :: k in table ==> 0 <= k
    ensures |SelectBelow(table, keep, stamp, n)| == |MatchingBelow(table, keep, n)|
    decreases n
  {
    if n > 0 {
      SelectBelowCount(table, keep, stamp, n - 1);
      MatchingStep(table, keep, n - 1);
      var prev := SelectBelow(table, keep, stamp, n - 1);
      if n - 1 in table && keep(table[n - 1]) {
        InsertPermutes(prev, table[n - 1], stamp);
      }
    } else {
      assert MatchingBelow(table, keep, n) == {};
    }
  }

  /** Selects the rows that `keep` accepts, newest first.  The keys are the
      table's generated identities, all below `bound`; they are visited in
      ascending order. */
  method SelectNewestFirst<T(==)>(table: map<int, T>, bound: int, keep: T -> bool, stamp: T -> int)
    returns (r: seq<T>)
    requires forall k :: k in table ==> 0 <= k < bound
    ensures NewestFirst(r, stamp)
    ensures forall x :: x in r ==> x in table.Values && keep(x)
    ensures forall k :: k in table && keep(table[k]) ==> table[k] in r
    ensures |r| == |Matching(table, keep)|
  {
    r := [];
    var id := 0;
    while id < bound
      invariant 0 <= id && (id <= bound || id == 0)
      invariant r == SelectBelow(table, keep, stamp, id)
    {
      if id in table && keep(table[id]) {
        r := InsertNewestFirst(r, table[id], stamp);
      }
      id := id + 1;
    }
    SelectBelowSound(table, keep, stamp, id);
    SelectBelowComplete(table, keep, stamp, id);
    SelectBelowCount(table, keep, stamp, id);
    MatchingAll(table, keep, id);
  }
}
