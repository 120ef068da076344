/**
 The row filter of the dashboard. The script copies the table and then narrows
 the copy with one boolean mask per active selector (WELLBOAT, ARMADOR,
 RESULTADO, TIPO MUESTREO; a selector left at "Todos" adds no mask) and finally
 with the inclusive date range, which is always applied.
 */
module Filters {
  import opened Table

  /** One boolean mask of the kind `df[df[col] == v]` or the date-range mask. */
  datatype Mask = Equals(col: Column, value: string) | DateWithin(desde: int, hasta: int)

  predicate Holds(m: Mask, r: Record)
  {
    match m
    case Equals(col, v) => Field(r, col) == v
    // a missing date (NaT) fails both comparisons, so the row is dropped
    case DateWithin(desde, hasta) => r.fecha.Some? && desde <= r.fecha.value <= hasta
  }

  /** The masks joined by AND. */
  predicate HoldsAll(ms: seq<Mask>, r: Record)
  {
    forall i :: 0 <= i < |ms| ==> Holds(ms[i], r)
  }

  /** `df[mask]`: the rows on which every mask holds, in their original order. */
  function Where(s: seq<Record>, ms: seq<Mask>): (r: seq<Record>)
    ensures |r| <= |s|
    ensures forall i :: 0 <= i < |r| ==> HoldsAll(ms, r[i])
  {
    if s == [] then []
    else if HoldsAll(ms, s[0]) then [s[0]] + Where(s[1..], ms)
    else Where(s[1..], ms)
  }

  /** Narrowing never duplicates a row: the result is a sub-multiset of the input. */
  lemma {:induction false} WhereSubMultiset(s: seq<Record>, ms: seq<Mask>)
    ensures multiset(Where(s, ms)) <= multiset(s)
  {
    if s != [] {
      WhereSubMultiset(s[1..], ms);
      assert s == [s[0]] + s[1..];
    }
  }

  /** `t` is obtained from `s` by deleting rows: no row added, order kept, rows unchanged. */
  ghost predicate IsSubsequence(t: seq<Record>, s: seq<Record>)
    decreases |s|
  {
    if t == [] then true
    else if s == [] then false
    else (t[0] == s[0] && IsSubsequence(t[1..], s[1..])) || IsSubsequence(t, s[1..])
  }

  lemma {:induction false} WhereIsSubsequence(s: seq<Record>, ms: seq<Mask>)
    ensures IsSubsequence(Where(s, ms), s)
  {
    if s != [] {
      WhereIsSubsequence(s[1..], ms);
      if HoldsAll(ms, s[0]) {
        assert Where(s, ms)[1..] == Where(s[1..], ms);
      }
    }
  }

  /** A row survives exactly when it is in the table and every mask holds on it. */
  lemma {:induction false} WhereMembership(s: seq<Record>, ms: seq<Mask>, x: Record)
    ensures x in Where(s, ms) <==> x in s && HoldsAll(ms, x)
  {
    if s != [] {
      WhereMembership(s[1..], ms, x);
      assert x in s <==> x == s[0] || x in s[1..];
    }
  }

  /** Narrowing a narrowed table is narrowing once by both lists of masks. */
  lemma {:induction false} WhereWhere(s: seq<Record>, a: seq<Mask>, b: seq<Mask>)
    ensures Where(Where(s, a), b) == Where(s, a + b)
  {
    if s != [] {
      WhereWhere(s[1..], a, b);
      HoldsAllAppend(a, b, s[0]);
    }
  }

  /** Narrowing works row by row: a table split in two is narrowed part by part. */
  lemma {:induction false} WhereAppend(a: seq<Record>, b: seq<Record>, ms: seq<Mask>)
    ensures Where(a + b, ms) == Where(a, ms) + Where(b, ms)
  {
    if a != [] {
      WhereAppend(a[1..], b, ms);
      assert (a + b)[1..] == a[1..] + b;
    } else {
      assert a + b == b;
    }
  }

  lemma WhereSingle(r: Record, ms: seq<Mask>)
    ensures Where([r], ms) == if HoldsAll(ms, r) then [r] else []
  {
    assert [r][1..] == [];
  }

  /** Masks that agree on every row give the same narrowing. */
  lemma {:induction false} WhereSameMasks(s: seq<Record>, a: seq<Mask>, b: seq<Mask>)
    requires forall r :: HoldsAll(a, r) <==> HoldsAll(b, r)
    ensures Where(s, a) == Where(s, b)
  {
    if s != [] {
      WhereSameMasks(s[1..], a, b);
    }
  }

  /** The order in which two masks are applied does not matter. */
  lemma WhereCommutes(s: seq<Record>, a: seq<Mask>, b: seq<Mask>)
    ensures Where(Where(s, a), b) == Where(Where(s, b), a)
  {
    WhereWhere(s, a, b);
    WhereWhere(s, b, a);
    forall r ensures HoldsAll(a + b, r) <==> HoldsAll(b + a, r) {
      HoldsAllAppend(a, b, r);
      HoldsAllAppend(b, a, r);
    }
    WhereSameMasks(s, a + b, b + a);
  }

  lemma HoldsAllAppend(a: seq<Mask>, b: seq<Mask>, r: Record)
    ensures HoldsAll(a + b, r) <==> HoldsAll(a, r) && HoldsAll(b, r)
  {
    if HoldsAll(a, r) && HoldsAll(b, r) {
      forall i | 0 <= i < |a + b| ensures Holds((a + b)[i], r) {
        if i >= |a| { assert (a + b)[i] == b[i - |a|]; }
      }
    }
    if HoldsAll(a + b, r) {
      forall i | 0 <= i < |a| ensures Holds(a[i], r) {
        assert (a + b)[i] == a[i];
      }
      forall i | 0 <= i < |b| ensures Holds(b[i], r) {
        assert (a + b)[|a| + i] == b[i];
      }
    }
  }

  lemma SelectorMaskHolds(sel: Selection, col: Column, r: Record)
    ensures HoldsAll(SelectorMask(sel, col), r) <==> Selected(sel, col) == TODOS || Field(r, col) == Selected(sel, col)
  {
    if Selected(sel, col) != TODOS {
      assert Holds(SelectorMask(sel, col)[0], r) <==> Field(r, col) == Selected(sel, col);
    }
  }

  lemma HoldsSingle(m: Mask, r: Record)
    ensures HoldsAll([m], r) <==> Holds(m, r)
  {
    assert [m][0] == m;
  }

  /** A table on whose every row the masks hold is left as it is. */
  lemma {:induction false} WhereKeepsAll(s: seq<Record>, ms: seq<Mask>)
    requires forall i :: 0 <= i < |s| ==> HoldsAll(ms, s[i])
    ensures Where(s, ms) == s
  {
    if s != [] {
      WhereKeepsAll(s[1..], ms);
    }
  }

  /** The sidebar's choices: a string per selector ("Todos" = any) and the two dates. */
  datatype Selection = Selection(
    wellboat: string,
    armador: string,
    resultado: string,
    tipoMuestreo: string,
    fechaInicio: int,
    fechaFin: int
  )

  function Selected(sel: Selection, col: Column): string
  {
    match col
    case Wellboat => sel.wellboat
    case Armador => sel.armador
    case Resultado => sel.resultado
    case TipoMuestreo => sel.tipoMuestreo
  }

  /** The mask a selector adds: none when it is left at "Todos". */
  function SelectorMask(sel: Selection, col: Column): seq<Mask>
  {
    if Selected(sel, col) != TODOS then [Equals(col, Selected(sel, col))] else []
  }

  /** The masks the script applies, in the order it applies them. */
  function Masks(sel: Selection): seq<Mask>
  {
    SelectorMask(sel, Wellboat) + SelectorMask(sel, Armador)
      + SelectorMask(sel, Resultado) + SelectorMask(sel, TipoMuestreo)
      + [DateWithin(sel.fechaInicio, sel.fechaFin)]
  }

  /** What a surviving row must satisfy, stated column by column. */
  predicate Admits(sel: Selection, r: Record)
  {
    && (sel.wellboat == TODOS || r.wellboat == sel.wellboat)
    && (sel.armador == TODOS || r.armador == sel.armador)
    && (sel.resultado == TODOS || r.resultado == sel.resultado)
    && (sel.tipoMuestreo == TODOS || r.tipoMuestreo == sel.tipoMuestreo)
    && r.fecha.Some? && sel.fechaInicio <= r.fecha.value <= sel.fechaFin
  }

  lemma MasksAdmit(sel: Selection, r: Record)
    ensures HoldsAll(Masks(sel), r) <==> Admits(sel, r)
  {
    var w, a, res, t := SelectorMask(sel, Wellboat), SelectorMask(sel, Armador),
                        SelectorMask(sel, Resultado), SelectorMask(sel, TipoMuestreo);
    var d := [DateWithin(sel.fechaInicio, sel.fechaFin)];
    HoldsAllAppend(w + a + res + t, d, r);
    HoldsAllAppend(w + a + res, t, r);
    HoldsAllAppend(w + a, res, r);
    HoldsAllAppend(w, a, r);
    SelectorMaskHolds(sel, Wellboat, r);
    SelectorMaskHolds(sel, Armador, r);
    SelectorMaskHolds(sel, Resultado, r);
    SelectorMaskHolds(sel, TipoMuestreo, r);
    assert HoldsAll(d, r) <==> Holds(d[0], r);
  }

  /**
   `df_filtered` as the single narrowing by all the masks of a selection: no
   more rows than `df`, and each of them passes every selector not at "Todos"
   and lies in the date range.
   */
  function Filtered(df: seq<Record>, sel: Selection): (r: seq<Record>)
    ensures |r| <= |df|
    ensures forall i :: 0 <= i < |r| ==> Admits(sel, r[i])
  {
    var r := Where(df, Masks(sel));
    MasksAdmitEach(sel, r);
    r
  }

  lemma MasksAdmitEach(sel: Selection, s: seq<Record>)
    requires forall i :: 0 <= i < |s| ==> HoldsAll(Masks(sel), s[i])
    ensures forall i :: 0 <= i < |s| ==> Admits(sel, s[i])
  {
    forall i | 0 <= i < |s| {
      MasksAdmit(sel, s[i]);
    }
  }

  /** A selector's step leaves the table as it is when the selector is "Todos". */
  lemma SelectorStep(prev: seq<Record>, sel: Selection, col: Column)
    ensures Where(prev, SelectorMask(sel, col))
         == if Selected(sel, col) != TODOS then Where(prev, [Equals(col, Selected(sel, col))]) else prev
  {
    if Selected(sel, col) == TODOS {
      WhereKeepsAll(prev, []);
    }
  }

  /** The five narrowing steps, one after the other, are the narrowing by `Masks`. */
  lemma StepsCompose(df: seq<Record>, sel: Selection)
    ensures Where(Where(Where(Where(Where(df,
              SelectorMask(sel, Wellboat)), SelectorMask(sel, Armador)),
              SelectorMask(sel, Resultado)), SelectorMask(sel, TipoMuestreo)),
              [DateWithin(sel.fechaInicio, sel.fechaFin)])
         == Filtered(df, sel)
  {
    var w, a, res, t := SelectorMask(sel, Wellboat), SelectorMask(sel, Armador),
                        SelectorMask(sel, Resultado), SelectorMask(sel, TipoMuestreo);
    var d := [DateWithin(sel.fechaInicio, sel.fechaFin)];
    WhereWhere(df, w, a);
    WhereWhere(df, w + a, res);
    WhereWhere(df, w + a + res, t);
    WhereWhere(df, w + a + res + t, d);
  }

  /**
   The filter block: a copy of the table, reassigned once per active selector
   and then by the date range.
   */
  method ApplyFilters(df: seq<Record>, sel: Selection) returns (filtered: seq<Record>)
    ensures filtered == Filtered(df, sel)
    ensures forall x :: x in filtered <==> x in df && Admits(sel, x)
    ensures IsSubsequence(filtered, df)
  {
    filtered := df;

    ghost var before := filtered;
    if sel.wellboat != TODOS {
      filtered := Where(filtered, [Equals(Wellboat, sel.wellboat)]);
    }
    SelectorStep(before, sel, Wellboat);

    before := filtered;
    if sel.armador != TODOS {
      filtered := Where(filtered, [Equals(Armador, sel.armador)]);
    }
    SelectorStep(before, sel, Armador);

    before := filtered;
    if sel.resultado != TODOS {
      filtered := Where(filtered, [Equals(Resultado, sel.resultado)]);
    }
    SelectorStep(before, sel, Resultado);

    before := filtered;
    if sel.tipoMuestreo != TODOS {
      filtered := Where(filtered, [Equals(TipoMuestreo, sel.tipoMuestreo)]);
    }
    SelectorStep(before, sel, TipoMuestreo);

    filtered := Where(filtered, [DateWithin(sel.fechaInicio, sel.fechaFin)]);
    StepsCompose(df, sel);

    forall x ensures x in filtered <==> x in df && Admits(sel, x) {
      FilteredMembership(df, sel, x);
    }
    WhereIsSubsequence(df, Masks(sel));
  }

  /** A row is in `df_filtered` iff it is in `df` and passes every selector and the date range. */
  lemma FilteredMembership(df: seq<Record>, sel: Selection, x: Record)
    ensures x in Filtered(df, sel) <==> x in df && Admits(sel, x)
  {
    WhereMembership(df, Masks(sel), x);
    MasksAdmit(sel, x);
  }

  /** `df_filtered` adds no rows, keeps their relative order and leaves them unchanged. */
  lemma FilteredIsSubsequence(df: seq<Record>, sel: Selection)
    ensures IsSubsequence(Filtered(df, sel), df)
    ensures multiset(Filtered(df, sel)) <= multiset(df)
  {
    WhereIsSubsequence(df, Masks(sel));
    WhereSubMultiset(df, Masks(sel));
  }

  /** Filtering the filtered table again with the same selection changes nothing. */
  lemma FilteredIdempotent(df: seq<Record>, sel: Selection)
    ensures Filtered(Filtered(df, sel), sel) == Filtered(df, sel)
  {
    WhereKeepsAll(Filtered(df, sel), Masks(sel));
  }

  /** An empty date range (inicio after fin) leaves nothing. */
  lemma {:induction false} FilteredEmptyRange(df: seq<Record>, sel: Selection)
    requires sel.fechaInicio > sel.fechaFin
    ensures Filtered(df, sel) == []
  {
    if Filtered(df, sel) != [] {
      var x := Filtered(df, sel)[0];
      FilteredMembership(df, sel, x);
      assert false;
    }
  }

  /** Both ends of the date range are inclusive. */
  lemma FilteredBoundsInclusive(df: seq<Record>, sel: Selection, x: Record)
    requires x in df
    requires sel.wellboat == TODOS && sel.armador == TODOS
    requires sel.resultado == TODOS && sel.tipoMuestreo == TODOS
    requires x.fecha == Some(sel.fechaInicio) || x.fecha == Some(sel.fechaFin)
    requires sel.fechaInicio <= sel.fechaFin
    ensures x in Filtered(df, sel)
  {
    FilteredMembership(df, sel, x);
  }

  /** A selector set to "Todos" contributes no mask on its column. */
  lemma TodosImposesNothing(sel: Selection, col: Column)
    requires Selected(sel, col) == TODOS
    ensures forall m :: m in Masks(sel) && m.Equals? ==> m.col != col
  {
    var w, a, res, t := SelectorMask(sel, Wellboat), SelectorMask(sel, Armador),
                        SelectorMask(sel, Resultado), SelectorMask(sel, TipoMuestreo);
    assert Masks(sel) == w + a + res + t + [DateWithin(sel.fechaInicio, sel.fechaFin)];
  }

  /** With every selector at "Todos" only the date range narrows the table. */
  lemma AllTodosOnlyDates(df: seq<Record>, sel: Selection)
    requires sel.wellboat == TODOS && sel.armador == TODOS
    requires sel.resultado == TODOS && sel.tipoMuestreo == TODOS
    ensures Filtered(df, sel) == Where(df, [DateWithin(sel.fechaInicio, sel.fechaFin)])
  {
    assert Masks(sel) == [DateWithin(sel.fechaInicio, sel.fechaFin)];
  }

  /**
   The four selector steps are independent: applying the masks in any order, for
   instance RESULTADO before WELLBOAT, gives the same table.
   */
  lemma SelectorOrderIrrelevant(df: seq<Record>, sel: Selection, c1: Column, c2: Column)
    ensures Where(Where(df, SelectorMask(sel, c1)), SelectorMask(sel, c2))
         == Where(Where(df, SelectorMask(sel, c2)), SelectorMask(sel, c1))
  {
    WhereCommutes(df, SelectorMask(sel, c1), SelectorMask(sel, c2));
  }
}
