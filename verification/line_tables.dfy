/** Line-number-keyed tables kept in ascending key order, standing in for the
    sorted maps (`SortedMap<Integer, Integer>`) a coverage builder exposes. */
module LineTables {
  import opened Wrappers

  /** Entries `(line, value)`; a well-formed table has strictly ascending lines. */
  type LineTable = seq<(int, int)>

  /** What a table does when a line that is already present is written again.
      The host library's choice is not visible to this model, so every
      operation takes it as a parameter. */
  datatype DuplicatePolicy = KeepFirst | KeepLast

  ghost predicate Ascending(t: LineTable) {
    forall i, j :: 0 <= i < j < |t| ==> t[i].0 < t[j].0
  }

  /** The lines present in the table. */
  function Keys(t: LineTable): set<int> {
    if t == [] then {} else {t[0].0} + Keys(t[1..])
  }

  /** The value stored for `line`, if any. */
  function Lookup(t: LineTable, line: int): (r: Option<int>)
    ensures r.Some? <==> line in Keys(t)
  {
    if t == [] then None
    else if t[0].0 == line then Some(t[0].1)
    else Lookup(t[1..], line)
  }

  /** Writes `value` for `line`, keeping the table ascending; an existing
      entry is kept or replaced according to `policy` (see `PutSpec`). */
  function Put(t: LineTable, line: int, value: int, policy: DuplicatePolicy): LineTable
  {
    if t == [] then [(line, value)]
    else if line < t[0].0 then [(line, value)] + t
    else if line == t[0].0 then (if policy == KeepFirst then t else [(line, value)] + t[1..])
    else [t[0]] + Put(t[1..], line, value, policy)
  }

  /** A line is a key exactly when some entry carries it. */
  lemma {:induction false} KeysAreEntries(t: LineTable)
    ensures forall x :: x in Keys(t) <==> exists i :: 0 <= i < |t| && t[i].0 == x
  {
    if t != [] {
      KeysAreEntries(t[1..]);
      forall x | x in Keys(t)
        ensures exists i :: 0 <= i < |t| && t[i].0 == x
      {
        if x != t[0].0 {
          assert x in Keys(t[1..]);
          var i :| 0 <= i < |t[1..]| && t[1..][i].0 == x;
          assert t[i + 1].0 == x;
        }
      }
      forall x, i | 0 <= i < |t| && t[i].0 == x
        ensures x in Keys(t)
      {
        if i > 0 {
          assert t[1..][i - 1].0 == x;
        }
      }
    }
  }

  /** Every key after the first entry of an ascending table is larger than the first. */
  lemma TailKeysAbove(t: LineTable)
    requires Ascending(t) && t != []
    ensures forall x :: x in Keys(t[1..]) ==> x > t[0].0
  {
    KeysAreEntries(t[1..]);
    forall x | x in Keys(t[1..])
      ensures x > t[0].0
    {
      var i :| 0 <= i < |t[1..]| && t[1..][i].0 == x;
      assert t[i + 1].0 == x;
    }
  }

  /** `Put` keeps the table ascending, adds `line` to its keys, leaves every
      other line alone, and stores `value` unless `policy` keeps an earlier entry. */
  lemma {:induction false} PutSpec(t: LineTable, line: int, value: int, policy: DuplicatePolicy)
    requires Ascending(t)
    ensures Ascending(Put(t, line, value, policy))
    ensures Keys(Put(t, line, value, policy)) == Keys(t) + {line}
    ensures forall other :: other != line ==> Lookup(Put(t, line, value, policy), other) == Lookup(t, other)
    ensures Lookup(Put(t, line, value, policy), line)
            == if line in Keys(t) && policy == KeepFirst then Lookup(t, line) else Some(value)
  {
    if t == [] {
    } else if line < t[0].0 {
      PutBelowFirst(t, line, value, policy);
    } else if line == t[0].0 {
      PutAtFirst(t, line, value, policy);
    } else {
      PutSpec(t[1..], line, value, policy);
      PutAboveFirst(t, line, value, policy);
    }
  }

  lemma PutBelowFirst(t: LineTable, line: int, value: int, policy: DuplicatePolicy)
    requires Ascending(t) && t != [] && line < t[0].0
    ensures Ascending(Put(t, line, value, policy))
    ensures Keys(Put(t, line, value, policy)) == Keys(t) + {line}
    ensures forall other :: other != line ==> Lookup(Put(t, line, value, policy), other) == Lookup(t, other)
    ensures line !in Keys(t) && Lookup(Put(t, line, value, policy), line) == Some(value)
  {
    var r := Put(t, line, value, policy);
    TailKeysAbove(t);
    assert r[1..] == t;
    assert forall i :: 0 < i < |r| ==> r[i] == t[i - 1];
  }

  lemma PutAtFirst(t: LineTable, line: int, value: int, policy: DuplicatePolicy)
    requires Ascending(t) && t != [] && line == t[0].0
    ensures Ascending(Put(t, line, value, policy))
    ensures Keys(Put(t, line, value, policy)) == Keys(t)
    ensures forall other :: other != line ==> Lookup(Put(t, line, value, policy), other) == Lookup(t, other)
    ensures Lookup(Put(t, line, value, policy), line) == if policy == KeepFirst then Lookup(t, line) else Some(value)
  {
    var r := Put(t, line, value, policy);
    if policy == KeepLast {
      assert r[1..] == t[1..];
      assert forall i :: 0 < i < |r| ==> r[i] == t[i];
    }
  }

  lemma PutAboveFirst(t: LineTable, line: int, value: int, policy: DuplicatePolicy)
    requires Ascending(t) && t != [] && line > t[0].0
    requires Ascending(Put(t[1..], line, value, policy))
    requires Keys(Put(t[1..], line, value, policy)) == Keys(t[1..]) + {line}
    requires forall other :: other != line ==> Lookup(Put(t[1..], line, value, policy), other) == Lookup(t[1..], other)
    requires Lookup(Put(t[1..], line, value, policy), line)
             == if line in Keys(t[1..]) && policy == KeepFirst then Lookup(t[1..], line) else Some(value)
    ensures Ascending(Put(t, line, value, policy))
    ensures Keys(Put(t, line, value, policy)) == Keys(t) + {line}
    ensures forall other :: other != line ==> Lookup(Put(t, line, value, policy), other) == Lookup(t, other)
    ensures Lookup(Put(t, line, value, policy), line)
            == if line in Keys(t) && policy == KeepFirst then Lookup(t, line) else Some(value)
  {
    var rest := Put(t[1..], line, value, policy);
    var r := Put(t, line, value, policy);
    assert r == [t[0]] + rest;
    TailKeysAbove(t);
    AscendingCons(t[0], rest);
    assert t == [t[0]] + t[1..];
  }

  /** Prepending an entry below every key keeps a table ascending. */
  lemma AscendingCons(e: (int, int), t: LineTable)
    requires Ascending(t)
    requires forall x :: x in Keys(t) ==> x > e.0
    ensures Ascending([e] + t)
  {
    KeysAreEntries(t);
    var r := [e] + t;
    forall i, j | 0 <= i < j < |r|
      ensures r[i].0 < r[j].0
    {
      assert r[j] == t[j - 1];
      if i > 0 {
        assert r[i] == t[i - 1];
      } else {
        assert t[j - 1].0 in Keys(t);
      }
    }
  }

  /** 1 for an entry with a positive count, 0 otherwise. */
  function Positive(v: Option<int>): (n: nat)
    ensures n <= 1
  {
    if v.Some? && v.value > 0 then 1 else 0
  }

  /** 0 for a missing entry. */
  function ValueOrZero(v: Option<int>): int {
    if v.Some? then v.value else 0
  }

  /** The number of lines whose value is positive (lines that were hit). */
  function CountPositive(t: LineTable): nat {
    if t == [] then 0 else (if t[0].1 > 0 then 1 else 0) + CountPositive(t[1..])
  }

  /** The sum of the values of all lines. */
  function SumValues(t: LineTable): int {
    if t == [] then 0 else t[0].1 + SumValues(t[1..])
  }

  /** At most every line is a hit line. */
  lemma {:induction false} CountPositiveBound(t: LineTable)
    ensures CountPositive(t) <= |t|
  {
    if t != [] {
      CountPositiveBound(t[1..]);
    }
  }

  /** In an ascending table the number of entries is the number of distinct lines. */
  lemma {:induction false} SizeIsDistinctLines(t: LineTable)
    requires Ascending(t)
    ensures |Keys(t)| == |t|
  {
    if t != [] {
      SizeIsDistinctLines(t[1..]);
      TailKeysAbove(t);
    }
  }

  /** `Put` changes the number of hit lines only by what happens to `line`. */
  lemma {:induction false} PutCountPositive(t: LineTable, line: int, value: int, policy: DuplicatePolicy)
    requires Ascending(t)
    ensures CountPositive(Put(t, line, value, policy))
            == CountPositive(t) - Positive(Lookup(t, line)) + Positive(Lookup(Put(t, line, value, policy), line))
  {
    if t != [] && line > t[0].0 {
      PutCountPositive(t[1..], line, value, policy);
      assert Put(t, line, value, policy)[1..] == Put(t[1..], line, value, policy);
    } else if t != [] && line < t[0].0 {
      TailKeysAbove(t);
      assert Put(t, line, value, policy)[1..] == t;
    } else if t != [] && policy == KeepLast {
      assert Put(t, line, value, policy)[1..] == t[1..];
    }
  }

  /** `Put` changes the sum of values only by what happens to `line`. */
  lemma {:induction false} PutSumValues(t: LineTable, line: int, value: int, policy: DuplicatePolicy)
    requires Ascending(t)
    ensures SumValues(Put(t, line, value, policy))
            == SumValues(t) - ValueOrZero(Lookup(t, line)) + ValueOrZero(Lookup(Put(t, line, value, policy), line))
  {
    if t != [] && line > t[0].0 {
      PutSumValues(t[1..], line, value, policy);
      assert Put(t, line, value, policy)[1..] == Put(t[1..], line, value, policy);
    } else if t != [] && line < t[0].0 {
      TailKeysAbove(t);
      assert Put(t, line, value, policy)[1..] == t;
    } else if t != [] && policy == KeepLast {
      assert Put(t, line, value, policy)[1..] == t[1..];
    }
  }
}
