/**
 What the sidebar offers before the filter runs: each selector's option list
 ("Todos" followed by the column's distinct values in ascending order) and the
 initial date range (the earliest and latest sampling dates of the table).
 */
module Sidebar {
  import opened Table
  import opened Filters

  /**
   Python's ordering of `str`: lexicographic by code point, a proper prefix
   coming first. (Dafny's own `<` on sequences means "proper prefix".)
   */
  predicate Less(a: string, b: string)
    ensures a < b ==> Less(a, b)
    decreases |a|
  {
    if a == [] then b != []
    else b != [] && (a[0] < b[0] || (a[0] == b[0] && Less(a[1..], b[1..])))
  }

  lemma {:induction false} LessIrreflexive(a: string)
    ensures !Less(a, a)
    decreases |a|
  {
    if a != [] {
      LessIrreflexive(a[1..]);
    }
  }

  lemma {:induction false} LessTransitive(a: string, b: string, c: string)
    requires Less(a, b) && Less(b, c)
    ensures Less(a, c)
    decreases |a|
  {
    if a != [] && a[0] == b[0] && b[0] == c[0] {
      LessTransitive(a[1..], b[1..], c[1..]);
    }
  }

  lemma {:induction false} LessTotal(a: string, b: string)
    requires a != b
    ensures Less(a, b) || Less(b, a)
    decreases |a|
  {
    if a != [] && b != [] && a[0] == b[0] {
      assert a == [a[0]] + a[1..] && b == [b[0]] + b[1..];
      LessTotal(a[1..], b[1..]);
    }
  }

  predicate StrictlySorted(s: seq<string>)
  {
    forall i, j :: 0 <= i < j < |s| ==> Less(s[i], s[j])
  }

  /** Inserts a value into an ascending list of distinct values, unless it is there already. */
  function Insert(x: string, s: seq<string>): seq<string>
  {
    if s == [] then [x]
    else if x == s[0] then s
    else if Less(x, s[0]) then [x] + s
    else [s[0]] + Insert(x, s[1..])
  }

  lemma {:induction false} InsertSorted(x: string, s: seq<string>)
    requires StrictlySorted(s)
    ensures StrictlySorted(Insert(x, s))
    ensures forall y :: y in Insert(x, s) <==> y == x || y in s
  {
    if s == [] {
    } else if x == s[0] {
    } else if Less(x, s[0]) {
      var r := [x] + s;
      forall i, j | 0 <= i < j < |r| ensures Less(r[i], r[j]) {
        if i == 0 && j > 1 {
          LessTransitive(x, s[0], s[j - 1]);
        }
      }
    } else {
      LessTotal(x, s[0]);
      InsertSorted(x, s[1..]);
      var t := Insert(x, s[1..]);
      var r := [s[0]] + t;
      assert forall y :: y in s <==> y == s[0] || y in s[1..] by {
        assert s == [s[0]] + s[1..];
      }
      forall i, j | 0 <= i < j < |r| ensures Less(r[i], r[j]) {
        if i == 0 {
          assert r[j] in t;
          if r[j] != x {
            var k :| 0 <= k < |s[1..]| && s[1..][k] == r[j];
            assert s[k + 1] == r[j];
          }
        } else {
          assert r[i] == t[i - 1] && r[j] == t[j - 1];
        }
      }
    }
  }

  /** `sorted(unique(values))`: the distinct values in ascending order, each once. */
  function SortedDistinct(vals: seq<string>): (r: seq<string>)
    ensures StrictlySorted(r)
    ensures forall y :: y in r <==> y in vals
  {
    if vals == [] then []
    else
      var rest := SortedDistinct(vals[1..]);
      InsertSorted(vals[0], rest);
      assert vals == [vals[0]] + vals[1..];
      Insert(vals[0], rest)
  }

  /**
   An ascending list of distinct values is determined by the values it holds:
   whatever sort and de-duplication produced it, the option list is the same.
   */
  lemma {:induction false} SortedListUnique(a: seq<string>, b: seq<string>)
    requires StrictlySorted(a) && StrictlySorted(b)
    requires forall y :: y in a <==> y in b
    ensures a == b
  {
    if a != [] {
      assert a[0] in b;
    }
    if b != [] {
      assert b[0] in a;
    }
    if a != [] && b != [] {
      if a[0] != b[0] {
        HeadIsLeast(a, b[0]);
        HeadIsLeast(b, a[0]);
        LessTransitive(a[0], b[0], a[0]);
        LessIrreflexive(a[0]);
        assert false;
      }
      forall y ensures y in a[1..] <==> y in b[1..] {
        SortedTailExcludesHead(a, y);
        SortedTailExcludesHead(b, y);
      }
      SortedListUnique(a[1..], b[1..]);
      assert a == [a[0]] + a[1..] && b == [b[0]] + b[1..];
    }
  }

  /** The head of an ascending list comes before every other value in it. */
  lemma HeadIsLeast(s: seq<string>, y: string)
    requires StrictlySorted(s) && s != []
    ensures y in s && y != s[0] ==> Less(s[0], y)
  {
    if y in s && y != s[0] {
      var k :| 0 <= k < |s| && s[k] == y;
    }
  }

  lemma SortedTailExcludesHead(s: seq<string>, y: string)
    requires StrictlySorted(s) && s != []
    ensures y in s[1..] <==> y in s && y != s[0]
  {
    if y in s[1..] {
      var k :| 0 <= k < |s[1..]| && s[1..][k] == y;
      assert Less(s[0], s[k + 1]);
      if y == s[0] { LessIrreflexive(y); }
    }
    if y in s && y != s[0] {
      var k :| 0 <= k < |s| && s[k] == y;
      assert s[1..][k - 1] == y;
    }
  }

  /** An ascending list of distinct values has as many entries as values. */
  lemma {:induction false} SortedLength(s: seq<string>, vs: set<string>)
    requires StrictlySorted(s)
    requires forall y :: y in s <==> y in vs
    ensures |s| == |vs|
  {
    if s != [] {
      forall y ensures y in s[1..] <==> y in vs - {s[0]} {
        SortedTailExcludesHead(s, y);
      }
      SortedLength(s[1..], vs - {s[0]});
    }
  }

  function ColumnValues(df: seq<Record>, col: Column): (vals: seq<string>)
    ensures |vals| == |df|
    ensures forall i :: 0 <= i < |df| ==> vals[i] == Field(df[i], col)
  {
    if df == [] then [] else [Field(df[0], col)] + ColumnValues(df[1..], col)
  }

  /** The values read from a column are exactly the column's distinct values. */
  lemma ColumnValuesSet(df: seq<Record>, col: Column)
    ensures forall v :: v in ColumnValues(df, col) <==> v in ValueSet(df, col)
  {
    var vals := ColumnValues(df, col);
    forall v ensures v in vals <==> v in ValueSet(df, col) {
      if v in vals {
        var i :| 0 <= i < |vals| && vals[i] == v;
        assert Field(df[i], col) == v;
      }
      if v in ValueSet(df, col) {
        var i :| 0 <= i < |df| && Field(df[i], col) == v;
        assert vals[i] == v;
      }
    }
  }

  /**
   `['Todos'] + sorted(df[col].unique().tolist())`: "Todos" first, then exactly
   the column's distinct values, ascending and each once.
   */
  function OptionList(df: seq<Record>, col: Column): (r: seq<string>)
    ensures |r| >= 1 && r[0] == TODOS
    ensures StrictlySorted(r[1..])
    ensures forall v :: v in r[1..] <==> v in ValueSet(df, col)
  {
    var tail := SortedDistinct(ColumnValues(df, col));
    ColumnValuesSet(df, col);
    assert ([TODOS] + tail)[1..] == tail;
    [TODOS] + tail
  }

  /** The option list has one entry more than the column has distinct values. */
  lemma OptionListLength(df: seq<Record>, col: Column)
    ensures |OptionList(df, col)| == 1 + |ValueSet(df, col)|
  {
    SortedLength(OptionList(df, col)[1..], ValueSet(df, col));
  }

  /**
   The entries after "Todos" are the one ascending, repetition-free list of the
   column's distinct values: any other such list is equal to it.
   */
  lemma OptionListCanonical(df: seq<Record>, col: Column, other: seq<string>)
    requires StrictlySorted(other)
    requires forall v :: v in other <==> v in ValueSet(df, col)
    ensures OptionList(df, col) == [TODOS] + other
  {
    SortedListUnique(OptionList(df, col)[1..], other);
  }

  /**
   Every option after "Todos" is a value some row of the table holds, so
   selecting it keeps at least one row of the selector's own step.
   */
  lemma OptionSelectsSomething(df: seq<Record>, col: Column, v: string)
    requires v in OptionList(df, col)[1..]
    ensures Where(df, [Equals(col, v)]) != []
  {
    var i :| 0 <= i < |df| && Field(df[i], col) == v;
    assert HoldsAll([Equals(col, v)], df[i]);
    WhereMembership(df, [Equals(col, v)], df[i]);
  }

  /**
   The option list repeats no entry exactly when no row holds the literal value
   "Todos" in that column (such a value would be listed twice and could not be
   selected as a constraint).
   */
  lemma OptionListDistinct(df: seq<Record>, col: Column)
    ensures (forall i, j :: 0 <= i < j < |OptionList(df, col)| ==> OptionList(df, col)[i] != OptionList(df, col)[j])
        <==> TODOS !in ValueSet(df, col)
  {
    var opts := OptionList(df, col);
    if TODOS in ValueSet(df, col) {
      assert TODOS in opts[1..];
      var k :| 0 <= k < |opts[1..]| && opts[1..][k] == TODOS;
      assert opts[0] == opts[k + 1];
    } else {
      forall i, j | 0 <= i < j < |opts| ensures opts[i] != opts[j] {
        if i == 0 {
          assert opts[j] == opts[1..][j - 1];
        } else {
          assert opts[i] == opts[1..][i - 1] && opts[j] == opts[1..][j - 1];
          LessIrreflexive(opts[i]);
        }
      }
    }
  }

  /** `df['FECHA MUESTREO'].min()`: the earliest date, skipping missing ones. */
  function MinFecha(s: seq<Record>): (m: Option<int>)
    ensures m.None? <==> forall i :: 0 <= i < |s| ==> s[i].fecha.None?
    ensures m.Some? ==> exists i :: 0 <= i < |s| && s[i].fecha == m
    ensures forall i :: 0 <= i < |s| && s[i].fecha.Some? ==> m.Some? && m.value <= s[i].fecha.value
  {
    if s == [] then None
    else
      var rest := MinFecha(s[1..]);
      assert forall i :: 1 <= i < |s| ==> s[i] == s[1..][i - 1];
      match s[0].fecha
      case None => rest
      case Some(d) =>
        if rest.Some? && rest.value < d then rest else Some(d)
  }

  /** `df['FECHA MUESTREO'].max()`: the latest date, skipping missing ones. */
  function MaxFecha(s: seq<Record>): (m: Option<int>)
    ensures m.None? <==> forall i :: 0 <= i < |s| ==> s[i].fecha.None?
    ensures m.Some? ==> exists i :: 0 <= i < |s| && s[i].fecha == m
    ensures forall i :: 0 <= i < |s| && s[i].fecha.Some? ==> m.Some? && s[i].fecha.value <= m.value
  {
    if s == [] then None
    else
      var rest := MaxFecha(s[1..]);
      assert forall i :: 1 <= i < |s| ==> s[i] == s[1..][i - 1];
      match s[0].fecha
      case None => rest
      case Some(d) =>
        if rest.Some? && rest.value > d then rest else Some(d)
  }

  /**
   The sidebar before the user touches it: every selector at "Todos" and the
   range from the earliest to the latest date. A table without any date has no
   such range.
   */
  function InitialSelection(df: seq<Record>): (r: Option<Selection>)
    ensures r.None? <==> forall i :: 0 <= i < |df| ==> df[i].fecha.None?
    ensures r.Some? ==> (r.value.wellboat == TODOS && r.value.armador == TODOS
                         && r.value.resultado == TODOS && r.value.tipoMuestreo == TODOS)
    ensures r.Some? ==> r.value.fechaInicio <= r.value.fechaFin
    ensures r.Some? ==> exists i :: 0 <= i < |df| && df[i].fecha == Some(r.value.fechaInicio)
    ensures r.Some? ==> exists i :: 0 <= i < |df| && df[i].fecha == Some(r.value.fechaFin)
    ensures r.Some? ==> forall i :: 0 <= i < |df| && df[i].fecha.Some? ==>
      r.value.fechaInicio <= df[i].fecha.value <= r.value.fechaFin
  {
    match (MinFecha(df), MaxFecha(df))
    case (Some(lo), Some(hi)) => Some(Selection(TODOS, TODOS, TODOS, TODOS, lo, hi))
    case _ => None
  }

  /**
   With the initial selection every row that has a date survives the filter, and
   when every row has a date the filter returns the table unchanged.
   */
  lemma InitialSelectionKeepsDated(df: seq<Record>)
    ensures InitialSelection(df).Some? ==>
      forall i :: 0 <= i < |df| && df[i].fecha.Some? ==> df[i] in Filtered(df, InitialSelection(df).value)
    ensures InitialSelection(df).Some? && (forall i :: 0 <= i < |df| ==> df[i].fecha.Some?) ==>
      Filtered(df, InitialSelection(df).value) == df
  {
    if InitialSelection(df).Some? {
      var sel := InitialSelection(df).value;
      var k :| 0 <= k < |df| && df[k].fecha == MinFecha(df);
      forall i | 0 <= i < |df| && df[i].fecha.Some? ensures df[i] in Filtered(df, sel) && HoldsAll(Masks(sel), df[i]) {
        MasksAdmit(sel, df[i]);
        FilteredMembership(df, sel, df[i]);
      }
      if forall i :: 0 <= i < |df| ==> df[i].fecha.Some? {
        WhereKeepsAll(df, Masks(sel));
      }
    }
  }
}
