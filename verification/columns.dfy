// Spreadsheet import: column references in letters, and rows whose cells name
// their own column.

module Columns {

  predicate Letter(c: char) {
    'A' <= c <= 'Z'
  }

  predicate Letters(s: string) {
    forall i :: 0 <= i < |s| ==> Letter(s[i])
  }

  function Digit(c: char): (d: nat)
    requires Letter(c)
    ensures 1 <= d <= 26
  {
    (c as int) - ('A' as int) + 1
  }

  /** Letters read as digits 1 to 26 in base 26. */
  function Value(s: string): nat
    requires Letters(s)
  {
    if s == "" then 0 else Value(s[..|s| - 1]) * 26 + Digit(s[|s| - 1])
  }

  /** The `v`-th column name in the standard's order: A, B, ..., Z, AA, AB, ... */
  function NameOf(v: nat): (s: string)
    ensures Letters(s)
  {
    if v == 0 then "" else NameOf((v - 1) / 26) + [(('A' as int) + (v - 1) % 26) as char]
  }

  lemma {:induction false} ValueOfName(v: nat)
    ensures Value(NameOf(v)) == v
  {
    if v > 0 {
      var rest := NameOf((v - 1) / 26);
      ValueOfName((v - 1) / 26);
      assert NameOf(v)[..|NameOf(v)| - 1] == rest;
    }
  }

  lemma {:induction false} NameOfValue(s: string)
    requires Letters(s)
    ensures NameOf(Value(s)) == s
  {
    if s != "" {
      var n := |s| - 1;
      NameOfValue(s[..n]);
      assert (Value(s) - 1) / 26 == Value(s[..n]) && (Value(s) - 1) % 26 == Digit(s[n]) - 1;
      assert s == s[..n] + [s[n]];
    }
  }

  // ---------------------------------------------------------------------
  // Order
  // ---------------------------------------------------------------------

  /** Shorter names first; names of one length alphabetically. */
  ghost predicate Precedes(s: string, t: string) {
    |s| < |t| || (|s| == |t| && exists k :: DiffersAt(s, t, k))
  }

  predicate DiffersAt(s: string, t: string, k: int) {
    0 <= k < |s| == |t| && s[..k] == t[..k] && s[k] < t[k]
  }

  /** 1, 27, 703, ...: the value of a run of `n` letters A. */
  function Least(n: nat): nat {
    if n == 0 then 0 else Least(n - 1) * 26 + 1
  }

  lemma {:induction false} ValueRange(s: string)
    requires Letters(s)
    ensures Least(|s|) <= Value(s) <= Least(|s|) * 26
  {
    if s != "" {
      ValueRange(s[..|s| - 1]);
    }
  }

  lemma {:induction false} LeastGrows(n: nat, m: nat)
    requires n < m
    ensures Least(n) * 26 + 1 <= Least(m)
  {
    if m > n + 1 {
      LeastGrows(n, m - 1);
    }
  }

  lemma {:induction false} AlphabeticalValue(s: string, t: string, k: int)
    requires Letters(s) && Letters(t) && DiffersAt(s, t, k)
    ensures Value(s) < Value(t)
  {
    var n := |s| - 1;
    if k == n {
    } else {
      assert s[..n][..k] == s[..k] && t[..n][..k] == t[..k];
      AlphabeticalValue(s[..n], t[..n], k);
    }
  }

  lemma PrecedingValue(s: string, t: string)
    requires Letters(s) && Letters(t) && Precedes(s, t)
    ensures Value(s) < Value(t)
  {
    if |s| < |t| {
      ValueRange(s);
      ValueRange(t);
      LeastGrows(|s|, |t|);
    } else {
      var k :| DiffersAt(s, t, k);
      AlphabeticalValue(s, t, k);
    }
  }

  lemma {:induction false} SomePrecedes(s: string, t: string)
    requires s != t
    ensures Precedes(s, t) || Precedes(t, s)
  {
    if |s| == |t| {
      var n := |s| - 1;
      if s[..n] == t[..n] {
        assert s == s[..n] + [s[n]] && t == t[..n] + [t[n]];
        assert DiffersAt(s, t, n) || DiffersAt(t, s, n);
      } else {
        SomePrecedes(s[..n], t[..n]);
        if Precedes(s[..n], t[..n]) {
          LongerDiffers(s, t);
        } else {
          LongerDiffers(t, s);
        }
      }
    }
  }

  lemma LongerDiffers(s: string, t: string)
    requires |s| == |t| > 0 && Precedes(s[..|s| - 1], t[..|t| - 1])
    ensures Precedes(s, t)
  {
    var n := |s| - 1;
    var k :| DiffersAt(s[..n], t[..n], k);
    assert s[..n][..k] == s[..k] && t[..n][..k] == t[..k];
    assert DiffersAt(s, t, k);
  }

  /** Columns count in the order of their names, and no two names share one. */
  lemma ColumnOrderIff(s: string, t: string)
    requires Letters(s) && Letters(t)
    ensures Value(s) < Value(t) <==> Precedes(s, t)
    ensures Value(s) == Value(t) <==> s == t
  {
    if s != t {
      SomePrecedes(s, t);
      if Precedes(s, t) {
        PrecedingValue(s, t);
      }
      if Precedes(t, s) {
        PrecedingValue(t, s);
      }
    }
  }

  // ---------------------------------------------------------------------
  // Cell references
  // ---------------------------------------------------------------------

  /** The letters of a reference such as C12, in upper case. */
  function LettersOf(cellRef: string): (s: string)
    ensures Letters(s)
  {
    if cellRef == "" then ""
    else
      var last := cellRef[|cellRef| - 1];
      var rest := LettersOf(cellRef[..|cellRef| - 1]);
      if Letter(last) then rest + [last]
      else if 'a' <= last <= 'z' then rest + [((last as int) - 32) as char]
      else rest
  }

  /** Zero-based column of a reference; one without letters goes to the first. */
  function ColumnOf(cellRef: string): nat {
    var value := Value(LettersOf(cellRef));
    if value == 0 then 0 else value - 1
  }

  function Lower(c: char): char
    requires Letter(c)
  {
    ((c as int) - ('A' as int) + ('a' as int)) as char
  }

  /** `s` is the column name `name`, each letter in either case. */
  predicate Spells(s: string, name: string) {
    Letters(name) && |s| == |name| && forall i :: 0 <= i < |s| ==> s[i] == name[i] || s[i] == Lower(name[i])
  }

  predicate NoLetters(s: string) {
    forall i :: 0 <= i < |s| ==> !('A' <= s[i] <= 'Z') && !('a' <= s[i] <= 'z')
  }

  /** Letters count wherever they stand in a reference. */
  lemma {:induction false} LettersAppend(a: string, b: string)
    ensures LettersOf(a + b) == LettersOf(a) + LettersOf(b)
  {
    if b == "" {
      assert a + b == a;
    } else {
      assert (a + b)[..|a + b| - 1] == a + b[..|b| - 1];
      LettersAppend(a, b[..|b| - 1]);
    }
  }

  lemma {:induction false} SpelledLetters(s: string, name: string)
    requires Spells(s, name)
    ensures LettersOf(s) == name
  {
    if s != "" {
      var n := |s| - 1;
      SpelledLetters(s[..n], name[..n]);
      assert name == name[..n] + [name[n]];
    }
  }

  lemma {:induction false} OtherLetters(s: string)
    requires NoLetters(s)
    ensures LettersOf(s) == ""
  {
    if s != "" {
      OtherLetters(s[..|s| - 1]);
    }
  }

  /** A reference such as C12 or c12 is in the column that its letters name, whatever
      row it names; one without letters is in the first. */
  lemma ReferenceColumn(s: string, name: string, row: string)
    requires Spells(s, name) && NoLetters(row)
    ensures ColumnOf(s + row) == if name == "" then 0 else Value(name) - 1
  {
    LettersAppend(s, row);
    SpelledLetters(s, name);
    OtherLetters(row);
    assert name + "" == name;
    ColumnOrderIff(name, "");
  }

  method ColumnIndex(cellRef: string) returns (column: nat)
    ensures column == ColumnOf(cellRef)
    ensures forall k, name :: 0 < k <= |cellRef| && Spells(cellRef[..k], name) && NoLetters(cellRef[k..]) ==> column == Value(name) - 1
    ensures NoLetters(cellRef) ==> column == 0
  {
    var letters := "";
    for i := 0 to |cellRef|
      invariant letters == LettersOf(cellRef[..i])
    {
      assert cellRef[..i + 1][..i] == cellRef[..i];
      var c := cellRef[i];
      if 'a' <= c <= 'z' {
        c := ((c as int) - 32) as char;
      }
      if Letter(c) {
        letters := letters + [c];
      }
    }
    assert cellRef[..|cellRef|] == cellRef;
    var index := 0;
    for i := 0 to |letters|
      invariant Letters(letters) && index == Value(letters[..i])
    {
      assert letters[..i + 1][..i] == letters[..i];
      index := index * 26 + Digit(letters[i]);
    }
    assert letters[..|letters|] == letters;
    column := if index - 1 >= 0 then index - 1 else 0;
    forall k, name | 0 < k <= |cellRef| && Spells(cellRef[..k], name) && NoLetters(cellRef[k..])
      ensures column == Value(name) - 1
    {
      assert cellRef == cellRef[..k] + cellRef[k..];
      ReferenceColumn(cellRef[..k], name, cellRef[k..]);
    }
    if NoLetters(cellRef) {
      ReferenceColumn("", "", cellRef);
      assert "" + cellRef == cellRef;
    }
  }

  /** Two references share a column exactly when their letters agree, or one has no
      letters and the other names column A. */
  lemma SharedColumnIff(r: string, s: string)
    ensures ColumnOf(r) == ColumnOf(s) <==>
            LettersOf(r) == LettersOf(s) || (LettersOf(r) in {"", "A"} && LettersOf(s) in {"", "A"})
  {
    ColumnOrderIff(LettersOf(r), LettersOf(s));
    ColumnOrderIff(LettersOf(r), "A");
    ColumnOrderIff(LettersOf(s), "A");
    ColumnOrderIff(LettersOf(r), "");
    ColumnOrderIff(LettersOf(s), "");
    assert Value("A") == 1;
  }

  /** Every column has a reference. */
  lemma EveryColumnNamed(column: nat)
    ensures LettersOf(NameOf(column + 1)) == NameOf(column + 1) && ColumnOf(NameOf(column + 1)) == column
  {
    SpelledLetters(NameOf(column + 1), NameOf(column + 1));
    ValueOfName(column + 1);
  }

  // ---------------------------------------------------------------------
  // Rows
  // ---------------------------------------------------------------------

  datatype Cell = Cell(cellRef: string, text: string)

  /** The text of the last cell that names a column, or the empty text. */
  function TextAt(cells: seq<Cell>, column: nat): string {
    if cells == [] then ""
    else if ColumnOf(cells[|cells| - 1].cellRef) == column then cells[|cells| - 1].text
    else TextAt(cells[..|cells| - 1], column)
  }

  /** Columns up to the rightmost one that a cell names. */
  function Width(cells: seq<Cell>): nat {
    if cells == [] then 0
    else
      var rest, last := Width(cells[..|cells| - 1]), ColumnOf(cells[|cells| - 1].cellRef);
      if last >= rest then last + 1 else rest
  }

  /** A row as a list: every text at its column, empty text in the gaps. */
  method RowValues(cells: seq<Cell>) returns (values: seq<string>)
    ensures |values| == Width(cells)
    ensures forall i :: 0 <= i < |values| ==> values[i] == TextAt(cells, i)
  {
    values := [];
    for n := 0 to |cells|
      invariant |values| == Width(cells[..n])
      invariant forall i :: 0 <= i < |values| ==> values[i] == TextAt(cells[..n], i)
      invariant forall i: nat :: i >= |values| ==> TextAt(cells[..n], i) == ""
    {
      assert cells[..n + 1][..n] == cells[..n];
      var column := ColumnIndex(cells[n].cellRef);
      while |values| <= column
        invariant |values| >= Width(cells[..n])
        invariant |values| > Width(cells[..n]) ==> |values| <= column + 1
        invariant forall i :: 0 <= i < |values| ==> values[i] == TextAt(cells[..n], i)
      {
        values := values + [""];
      }
      values := values[column := cells[n].text];
    }
    assert cells[..|cells|] == cells;
  }

  /** Cells with distinct columns all keep their text, whatever their order. */
  lemma {:induction false} EachTextKept(cells: seq<Cell>, k: nat)
    requires k < |cells|
    requires forall j :: k < j < |cells| ==> ColumnOf(cells[j].cellRef) != ColumnOf(cells[k].cellRef)
    ensures ColumnOf(cells[k].cellRef) < Width(cells) && TextAt(cells, ColumnOf(cells[k].cellRef)) == cells[k].text
  {
    var n := |cells| - 1;
    if k < n {
      assert cells[..n][k] == cells[k];
      EachTextKept(cells[..n], k);
    }
  }

  /** A column beyond the width, or one that no cell names, is empty; and the width
      is no larger than some cell asks for. */
  lemma {:induction false} GapsEmpty(cells: seq<Cell>, column: nat)
    ensures (forall k :: 0 <= k < |cells| ==> ColumnOf(cells[k].cellRef) != column) ==> TextAt(cells, column) == ""
    ensures Width(cells) > 0 ==> exists k :: 0 <= k < |cells| && ColumnOf(cells[k].cellRef) == Width(cells) - 1
  {
    if cells != [] {
      var n := |cells| - 1;
      GapsEmpty(cells[..n], column);
      assert forall k :: 0 <= k < n ==> cells[..n][k] == cells[k];
      assert Width(cells) == ColumnOf(cells[n].cellRef) + 1 || Width(cells) == Width(cells[..n]);
      if Width(cells) != ColumnOf(cells[n].cellRef) + 1 {
        var k :| 0 <= k < n && ColumnOf(cells[..n][k].cellRef) == Width(cells[..n]) - 1;
        assert ColumnOf(cells[k].cellRef) == Width(cells) - 1;
      }
    }
  }
}
