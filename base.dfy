/**
 * What the two row kinds and the two collections share (`BaseRow`,
 * `BaseRows`): the validity query, the flattened error list, the set of
 * sirets, and the numbering `from_worksheet` gives the rows it keeps.
 */
module Base {
  import opened Wrappers
  import opened Errors

  /** The message of the exception `is_valid` raises on an unvalidated row. */
  const NOT_VALIDATED: string := "Not validated yet"

  /**
   * `BaseRow.is_valid`: refused until the row has been validated, then
   * exactly "no error was recorded".
   */
  function Validity(validated: bool, errors: seq<RowError>): (r: Result<bool>)
    ensures r.Err? <==> !validated
    ensures r.Err? ==> r.message == NOT_VALIDATED
    ensures r.Ok? ==> (r.value <==> errors == [])
  {
    if !validated then Err(NOT_VALIDATED) else Ok(errors == [])
  }

  /** No object occurs twice: validating every row then touches each row once. */
  predicate Distinct<T(==)>(xs: seq<T>) {
    forall i, j :: 0 <= i < j < |xs| ==> xs[i] != xs[j]
  }

  /** `BaseRows.get_errors`: every row's errors, row after row. */
  function Flatten(ess: seq<seq<RowError>>): seq<RowError> {
    if ess == [] then [] else ess[0] + Flatten(ess[1..])
  }

  lemma {:induction false} FlattenAppend(a: seq<seq<RowError>>, b: seq<seq<RowError>>)
    ensures Flatten(a + b) == Flatten(a) + Flatten(b)
  {
    if a != [] {
      FlattenAppend(a[1..], b);
      assert (a + b)[1..] == a[1..] + b;
    } else {
      assert a + b == b;
    }
  }

  /**
   * Row `i`'s errors stand, in their own order, after those of the rows
   * before it and before those of the rows after it.
   */
  lemma FlattenAt(ess: seq<seq<RowError>>, i: nat)
    requires i < |ess|
    ensures Flatten(ess) == Flatten(ess[..i]) + ess[i] + Flatten(ess[i + 1..])
  {
    var tail := ess[i..];
    assert ess == ess[..i] + tail;
    FlattenAppend(ess[..i], tail);
    assert tail[0] == ess[i] && tail[1..] == ess[i + 1..];
    assert Flatten(tail) == ess[i] + Flatten(ess[i + 1..]);
  }

  /** The flattened list is empty exactly when every row's list is. */
  lemma {:induction false} FlattenEmpty(ess: seq<seq<RowError>>)
    ensures Flatten(ess) == [] <==> forall i :: 0 <= i < |ess| ==> ess[i] == []
  {
    if ess != [] {
      FlattenEmpty(ess[1..]);
      assert forall i :: 1 <= i < |ess| ==> ess[i] == ess[1..][i - 1];
    }
  }

  /** An error is in the flattened list exactly when it is in some row's list. */
  lemma {:induction false} FlattenMembers(ess: seq<seq<RowError>>, e: RowError)
    ensures e in Flatten(ess) <==> exists i :: 0 <= i < |ess| && e in ess[i]
  {
    if ess != [] {
      FlattenMembers(ess[1..], e);
      if e in Flatten(ess[1..]) {
        var i :| 0 <= i < |ess[1..]| && e in ess[1..][i];
        assert e in ess[i + 1];
      }
      if exists i :: 0 <= i < |ess| && e in ess[i] {
        var i :| 0 <= i < |ess| && e in ess[i];
        if i > 0 {
          assert e in ess[1..][i - 1];
        }
      }
    }
  }

  /**
   * `sirets()`: the distinct non-empty sirets among the rows. The source
   * returns them as a list built from a set, so in no particular order.
   */
  function NonEmptySirets(sirets: seq<string>): (r: set<string>)
    ensures forall x :: x in r <==> x != "" && x in sirets
    ensures |r| <= |sirets|
  {
    if sirets == [] then {}
    else (if sirets[0] != "" then {sirets[0]} else {}) + NonEmptySirets(sirets[1..])
  }

  /**
   * The rows `from_worksheet` keeps, each paired with its index. The source
   * row at 1-based position p gets index p; the first one (p == 1) is never
   * kept, and a blank one is dropped without giving its index to another.
   * Defined from the last row back, as the loop builds it.
   */
  function Numbered<D>(source: seq<D>, blank: D -> bool): seq<(int, D)> {
    if source == [] then []
    else
      var p := |source|;
      Numbered(source[..p - 1], blank) + (if p != 1 && !blank(source[p - 1]) then [(p, source[p - 1])] else [])
  }

  /** Every kept row sits at an index it really has: never 1, never blank. */
  lemma {:induction false} NumberedSound<D>(source: seq<D>, blank: D -> bool)
    ensures forall k :: 0 <= k < |Numbered(source, blank)| ==>
      var (p, d) := Numbered(source, blank)[k];
      2 <= p <= |source| && d == source[p - 1] && !blank(d)
  {
    if source != [] {
      var p := |source|;
      NumberedSound(source[..p - 1], blank);
    }
  }

  /** Indices strictly increase, so source order is kept and no index repeats. */
  lemma {:induction false} NumberedIncreasing<D>(source: seq<D>, blank: D -> bool)
    ensures forall i, j :: 0 <= i < j < |Numbered(source, blank)| ==>
      Numbered(source, blank)[i].0 < Numbered(source, blank)[j].0
  {
    if source != [] {
      var p := |source|;
      NumberedIncreasing(source[..p - 1], blank);
      NumberedSound(source[..p - 1], blank);
    }
  }

  /** Every non-blank row after the first is kept, under its own position. */
  lemma {:induction false} NumberedComplete<D>(source: seq<D>, blank: D -> bool, p: int)
    requires 2 <= p <= |source| && !blank(source[p - 1])
    ensures (p, source[p - 1]) in Numbered(source, blank)
  {
    var n := |source|;
    if p < n {
      NumberedComplete(source[..n - 1], blank, p);
    }
  }

  /** A blank row leaves no trace, yet the rows after it keep their positions. */
  lemma NumberedDropsBlank<D>(source: seq<D>, blank: D -> bool, p: int)
    requires 1 <= p <= |source| && blank(source[p - 1])
    ensures forall k :: 0 <= k < |Numbered(source, blank)| ==> Numbered(source, blank)[k].0 != p
  {
    NumberedSound(source, blank);
  }
}
