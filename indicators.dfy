/**
 The four indicators shown above the charts, computed from the filtered table:
 the number of samples, the number of distinct wellboats, and the number and
 share of positive and of negative results.
 */
module Indicators {
  import opened Table
  import opened Filters

  /**
   `df[df['RESULTADO'] == v].shape[0]`: exact, case-sensitive match. The count
   never exceeds the row count and is 0 exactly when no row has result `v`.
   */
  function CountResult(s: seq<Record>, v: string): (n: nat)
    ensures n <= |s|
    ensures n == 0 <==> forall i :: 0 <= i < |s| ==> s[i].resultado != v
  {
    NoRowWithResult(s, v);
    |Where(s, [Equals(Resultado, v)])|
  }

  lemma {:induction false} NoRowWithResult(s: seq<Record>, v: string)
    ensures Where(s, [Equals(Resultado, v)]) == [] <==> forall i :: 0 <= i < |s| ==> s[i].resultado != v
  {
    if s != [] {
      NoRowWithResult(s[1..], v);
      HoldsSingle(Equals(Resultado, v), s[0]);
      assert forall i :: 1 <= i < |s| ==> s[i] == s[1..][i - 1];
    }
  }

  /** `df['WELLBOAT'].nunique()`. */
  function UniqueWellboats(s: seq<Record>): (n: nat)
    ensures n <= |s|
    ensures n == 0 <==> s == []
  {
    ValueSetBound(s, Wellboat);
    |ValueSet(s, Wellboat)|
  }

  /**
   `count / total * 100 if total else 0`, on exact rationals. The share is 0
   for an empty table; otherwise it is the count scaled to 100.
   */
  function Percent(count: nat, total: nat): (p: real)
    ensures total == 0 ==> p == 0.0
    ensures total > 0 ==> p * (total as real) == (count as real) * 100.0
    ensures count <= total ==> 0.0 <= p <= 100.0
  {
    if total == 0 then 0.0 else (count as real) / (total as real) * 100.0
  }

  /** Shares of disjoint counts add up to at most 100. */
  lemma PercentSumBound(a: nat, b: nat, total: nat)
    requires a + b <= total
    ensures Percent(a, total) + Percent(b, total) <= 100.0
  {
    if total > 0 {
      var t := total as real;
      assert Percent(a, total) + Percent(b, total) == ((a + b) as real) / t * 100.0;
      assert Percent(a + b, total) == ((a + b) as real) / t * 100.0;
    }
  }

  /** Rows with two different results are never counted twice. */
  lemma {:induction false} TwoResultsBound(s: seq<Record>, v: string, w: string)
    requires v != w
    ensures CountResult(s, v) + CountResult(s, w) <= |s|
    ensures CountResult(s, v) + CountResult(s, w) == |s|
        <==> forall i :: 0 <= i < |s| ==> s[i].resultado == v || s[i].resultado == w
  {
    if s != [] {
      TwoResultsBound(s[1..], v, w);
      HoldsSingle(Equals(Resultado, v), s[0]);
      HoldsSingle(Equals(Resultado, w), s[0]);
      if forall i :: 1 <= i < |s| ==> s[i].resultado == v || s[i].resultado == w {
        assert forall i :: 0 <= i < |s[1..]| ==> s[1..][i].resultado == v || s[1..][i].resultado == w;
      } else {
        var i :| 1 <= i < |s| && !(s[i].resultado == v || s[i].resultado == w);
        assert s[1..][i - 1] == s[i];
      }
    }
  }

  /** Every row of the table has result `v` exactly when all of them are counted. */
  lemma {:induction false} CountResultAll(s: seq<Record>, v: string)
    ensures CountResult(s, v) == |s| <==> forall i :: 0 <= i < |s| ==> s[i].resultado == v
  {
    if s != [] {
      CountResultAll(s[1..], v);
      HoldsSingle(Equals(Resultado, v), s[0]);
      if forall i :: 1 <= i < |s| ==> s[i].resultado == v {
        assert forall i :: 0 <= i < |s[1..]| ==> s[1..][i].resultado == v;
      } else {
        var i :| 1 <= i < |s| && s[i].resultado != v;
        assert s[1..][i - 1] == s[i];
      }
    }
  }

  /** When the RESULTADO selector is set to "Positivo", every remaining sample is positive. */
  lemma SelectedResultCountsAll(df: seq<Record>, sel: Selection)
    requires sel.resultado == POSITIVO
    ensures CountResult(Filtered(df, sel), POSITIVO) == |Filtered(df, sel)|
    ensures CountResult(Filtered(df, sel), NEGATIVO) == 0
  {
    var f := Filtered(df, sel);
    forall i | 0 <= i < |f| ensures f[i].resultado == POSITIVO {
      MasksAdmit(sel, f[i]);
    }
    CountResultAll(f, POSITIVO);
    TwoResultsBound(f, POSITIVO, NEGATIVO);
  }

  datatype Kpis = Kpis(
    totalMuestras: nat,
    wellboatsUnicos: nat,
    positivos: nat,
    pctPositivos: real,
    negativos: nat,
    pctNegativos: real
  )

  /** The four metrics, as the script computes them from `df_filtered`. */
  function Compute(filtered: seq<Record>): (k: Kpis)
    ensures k.totalMuestras == |filtered|
    ensures k.wellboatsUnicos <= k.totalMuestras
    ensures k.wellboatsUnicos == 0 <==> k.totalMuestras == 0
    ensures k.positivos + k.negativos <= k.totalMuestras
    ensures 0.0 <= k.pctPositivos && 0.0 <= k.pctNegativos
    ensures k.pctPositivos + k.pctNegativos <= 100.0
    ensures k.totalMuestras == 0 ==> k.pctPositivos == 0.0 && k.pctNegativos == 0.0
    ensures k.pctPositivos == Percent(k.positivos, k.totalMuestras)
    ensures k.pctNegativos == Percent(k.negativos, k.totalMuestras)
  {
    var total := |filtered|;
    var pos := CountResult(filtered, POSITIVO);
    var neg := CountResult(filtered, NEGATIVO);
    TwoResultsBound(filtered, POSITIVO, NEGATIVO);
    PercentSumBound(pos, neg, total);
    Kpis(total, UniqueWellboats(filtered), pos, Percent(pos, total), neg, Percent(neg, total))
  }
}
