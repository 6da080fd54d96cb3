/** Tables of characters: position lookup the way String.prototype.indexOf does it. */
module Tables {

  /** The first position of `x` in `table`, or -1. */
  function IndexOf<T(==)>(table: seq<T>, x: T): (i: int)
    ensures -1 <= i < |table|
    ensures i == -1 <==> x !in table
    ensures i >= 0 ==> table[i] == x && forall j :: 0 <= j < i ==> table[j] != x
  {
    if table == [] then -1
    else if table[0] == x then 0
    else
      var i := IndexOf(table[1..], x);
      assert table == [table[0]] + table[1..];
      if i == -1 then -1 else i + 1
  }

  ghost predicate Distinct<T>(table: seq<T>) {
    forall i, j :: 0 <= i < j < |table| ==> table[i] != table[j]
  }

  lemma IndexOfEntry<T>(table: seq<T>, i: nat)
    requires Distinct(table) && i < |table|
    ensures IndexOf(table, table[i]) == i
  {
  }
}
