/** A single-row pandas DataFrame as the prediction endpoint uses it: an
    ordered sequence of named cells, with column assignment, column drop
    and reindexing against a column list. */
module Frame {
  import opened Wrappers

  /** A cell value: a float, an int, a string, or Python's `None`. */
  datatype Value = Float(x: real) | Int(n: int) | Str(s: string) | Null

  datatype Entry = Entry(name: string, value: Value)

  type Row = seq<Entry>

  /** The value `reindex(..., fill_value=0)` puts in a column it adds. */
  const FillValue: Value := Int(0)

  function Names(row: Row): (r: seq<string>)
    ensures |r| == |row|
    ensures forall i :: 0 <= i < |row| ==> r[i] == row[i].name
  {
    seq(|row|, i requires 0 <= i < |row| => row[i].name)
  }

  predicate Distinct(names: seq<string>) {
    forall i, j :: 0 <= i < j < |names| ==> names[i] != names[j]
  }

  predicate HasColumn(row: Row, name: string) {
    exists i :: 0 <= i < |row| && row[i].name == name
  }

  /** The value of column `name`, or `None` when the row has no such column. */
  function Lookup(row: Row, name: string): (r: Option<Value>)
    ensures r.None? <==> !HasColumn(row, name)
    ensures forall i :: 0 <= i < |row| && row[i].name == name && Distinct(Names(row)) ==>
              r == Some(row[i].value)
  {
    if row == [] then None
    else if row[0].name == name then Some(row[0].value)
    else
      var r := Lookup(row[1..], name);
      assert forall i :: 1 <= i < |row| ==> row[1..][i - 1] == row[i];
      assert Distinct(Names(row)) ==> Distinct(Names(row[1..])) by {
        if Distinct(Names(row)) {
          forall i, j | 0 <= i < j < |row| - 1
            ensures Names(row[1..])[i] != Names(row[1..])[j]
          {
            assert Names(row[1..])[i] == Names(row)[i + 1];
            assert Names(row[1..])[j] == Names(row)[j + 1];
          }
        }
      }
      r
  }

  /** `df[name] = value`: overwrite the column when it exists, otherwise
      append it as the last column. */
  function SetColumn(row: Row, name: string, value: Value): (r: Row)
    ensures Lookup(r, name) == Some(value)
    ensures forall other :: other != name ==> Lookup(r, other) == Lookup(row, other)
    ensures HasColumn(row, name) ==> Names(r) == Names(row)
    ensures !HasColumn(row, name) ==> r == row + [Entry(name, value)]
  {
    if HasColumn(row, name) then
      var r := seq(|row|, i requires 0 <= i < |row| =>
                 if row[i].name == name then Entry(name, value) else row[i]);
      SetColumnLookup(row, r, name, value);
      r
    else
      AppendLookup(row, Entry(name, value));
      row + [Entry(name, value)]
  }

  lemma {:induction false} SetColumnLookup(row: Row, r: Row, name: string, value: Value)
    requires |r| == |row| && HasColumn(row, name)
    requires forall i :: 0 <= i < |row| ==>
               r[i] == (if row[i].name == name then Entry(name, value) else row[i])
    ensures Lookup(r, name) == Some(value)
    ensures forall other :: other != name ==> Lookup(r, other) == Lookup(row, other)
  {
    if row[0].name != name {
      assert HasColumn(row[1..], name) by {
        var i :| 0 <= i < |row| && row[i].name == name;
        assert row[1..][i - 1] == row[i];
      }
      SetColumnLookup(row[1..], r[1..], name, value);
    } else if |row| > 1 && HasColumn(row[1..], name) {
      SetColumnLookup(row[1..], r[1..], name, value);
    } else {
      forall other | other != name
        ensures Lookup(r[1..], other) == Lookup(row[1..], other)
      {
        LookupSameNames(row[1..], r[1..], other);
      }
    }
  }

  /** Rows that agree on every entry not named `name` look up every other
      name alike. */
  lemma {:induction false} LookupSameNames(a: Row, b: Row, other: string)
    requires |a| == |b|
    requires forall i :: 0 <= i < |a| ==> a[i].name == b[i].name
    requires forall i :: 0 <= i < |a| && a[i].name == other ==> a[i] == b[i]
    ensures Lookup(a, other) == Lookup(b, other)
  {
    if a != [] {
      LookupSameNames(a[1..], b[1..], other);
    }
  }

  lemma {:induction false} AppendLookup(row: Row, e: Entry)
    requires !HasColumn(row, e.name)
    ensures Lookup(row + [e], e.name) == Some(e.value)
    ensures forall other :: other != e.name ==> Lookup(row + [e], other) == Lookup(row, other)
  {
    if row != [] {
      assert (row + [e])[1..] == row[1..] + [e];
      assert forall i :: 0 <= i < |row| - 1 ==> row[1..][i] == row[i + 1];
      AppendLookup(row[1..], e);
    }
  }

  /** `df.drop(columns=[name])`; pandas raises `KeyError` when the column
      is absent, so callers must supply it. */
  function DropColumn(row: Row, name: string): (r: Row)
    requires HasColumn(row, name)
    ensures !HasColumn(r, name)
    ensures forall other :: other != name ==> Lookup(r, other) == Lookup(row, other)
  {
    RemoveSpec(row, name);
    Remove(row, name)
  }

  /** Every entry of `row` not named `name`, in order. */
  function Remove(row: Row, name: string): Row {
    if row == [] then []
    else if row[0].name == name then Remove(row[1..], name)
    else [row[0]] + Remove(row[1..], name)
  }

  lemma {:induction false} RemoveSpec(row: Row, name: string)
    ensures !HasColumn(Remove(row, name), name)
    ensures forall other :: other != name ==> Lookup(Remove(row, name), other) == Lookup(row, other)
  {
    if row != [] {
      RemoveSpec(row[1..], name);
      var rest := Remove(row[1..], name);
      if row[0].name != name {
        assert Remove(row, name) == [row[0]] + rest;
        assert ([row[0]] + rest)[1..] == rest;
        assert forall i :: 1 <= i < |rest| + 1 ==> ([row[0]] + rest)[i] == rest[i - 1];
      }
    }
  }

  /** `df.reindex(columns=cols, fill_value=0)`: the columns become exactly
      `cols`, in order; a listed column the row has keeps its value, a
      listed column it lacks is 0, and unlisted columns disappear. pandas
      refuses to reindex a frame whose own labels repeat. */
  function Reindex(row: Row, cols: seq<string>): (r: Row)
    requires Distinct(Names(row))
    ensures Names(r) == cols
    ensures forall i :: 0 <= i < |cols| && HasColumn(row, cols[i]) ==>
              Some(r[i].value) == Lookup(row, cols[i])
    ensures forall i :: 0 <= i < |cols| && !HasColumn(row, cols[i]) ==> r[i].value == FillValue
  {
    seq(|cols|, i requires 0 <= i < |cols| =>
      Entry(cols[i], match Lookup(row, cols[i]) case Some(v) => v case None => FillValue))
  }

  // ---------------------------------------------------------------------
  // Properties of reindexing

  /** Looking a listed column up after reindexing gives the row's value or
      the fill value; an unlisted column is gone. The column list may
      repeat a name, as pandas allows. */
  lemma ReindexLookup(row: Row, cols: seq<string>, c: string)
    requires Distinct(Names(row))
    ensures c in cols && HasColumn(row, c) ==> Lookup(Reindex(row, cols), c) == Lookup(row, c)
    ensures c in cols && !HasColumn(row, c) ==> Lookup(Reindex(row, cols), c) == Some(FillValue)
    ensures c !in cols ==> Lookup(Reindex(row, cols), c) == None
  {
    var r := Reindex(row, cols);
    assert Names(r) == cols;
    if c in cols {
      var i := FirstIndex(cols, c);
      LookupFirst(r, c, i);
    } else {
      assert forall i :: 0 <= i < |r| ==> r[i].name == cols[i];
    }
  }

  /** The position of the first `c` in `names`. */
  function FirstIndex(names: seq<string>, c: string): (i: nat)
    requires c in names
    ensures i < |names| && names[i] == c
    ensures forall j :: 0 <= j < i ==> names[j] != c
  {
    if names[0] == c then 0 else 1 + FirstIndex(names[1..], c)
  }

  /** `Lookup` finds the first column with the name, repeated names or not. */
  lemma {:induction false} LookupFirst(row: Row, name: string, i: nat)
    requires i < |row| && row[i].name == name
    requires forall j :: 0 <= j < i ==> row[j].name != name
    ensures Lookup(row, name) == Some(row[i].value)
    decreases i
  {
    if i > 0 {
      assert forall j :: 0 <= j < i - 1 ==> row[1..][j] == row[j + 1];
      LookupFirst(row[1..], name, i - 1);
    }
  }

  /** Reindexing a row against its own column list changes nothing. */
  lemma ReindexOwnColumns(row: Row)
    requires Distinct(Names(row))
    ensures Reindex(row, Names(row)) == row
  {
    var r := Reindex(row, Names(row));
    forall i | 0 <= i < |row|
      ensures r[i] == row[i]
    {
      assert HasColumn(row, row[i].name);
    }
  }

  /** Reindexing through a wider column list first gives the same row as
      reindexing directly. */
  lemma ReindexThrough(row: Row, wide: seq<string>, cols: seq<string>)
    requires Distinct(Names(row)) && Distinct(wide)
    requires forall c :: c in cols ==> c in wide
    ensures Reindex(Reindex(row, wide), cols) == Reindex(row, cols)
  {
    var mid := Reindex(row, wide);
    forall i | 0 <= i < |cols|
      ensures Reindex(mid, cols)[i] == Reindex(row, cols)[i]
    {
      ReindexLookup(row, wide, cols[i]);
      assert cols[i] in cols;
    }
  }

  /** Reindexing is idempotent. */
  lemma ReindexIdempotent(row: Row, cols: seq<string>)
    requires Distinct(Names(row)) && Distinct(cols)
    ensures Reindex(Reindex(row, cols), cols) == Reindex(row, cols)
  {
    ReindexThrough(row, cols, cols);
  }
}
