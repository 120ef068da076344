/**
 The example table the dashboard loads when no file is uploaded (ten samples,
 dates written as yyyymmdd), and what the filter and the indicators give on it.
 */
module Fixture {
  import opened Table
  import opened Filters
  import opened Sidebar
  import opened Indicators

  function SampleTable(): seq<Record>
  {
    [ Record("F001", Some(20240115), "WB-Alpha", "Armador A", "Positivo", "Rutina"),
      Record("F002", Some(20240120), "WB-Beta", "Armador B", "Negativo", "Especial"),
      Record("F003", Some(20240210), "WB-Alpha", "Armador A", "Positivo", "Rutina"),
      Record("F004", Some(20240215), "WB-Gamma", "Armador C", "Negativo", "Rutina"),
      Record("F005", Some(20240305), "WB-Beta", "Armador B", "Positivo", "Especial"),
      Record("F006", Some(20240318), "WB-Alpha", "Armador A", "Negativo", "Rutina"),
      Record("F007", Some(20240412), "WB-Gamma", "Armador C", "Positivo", "Especial"),
      Record("F008", Some(20240425), "WB-Beta", "Armador B", "Negativo", "Rutina"),
      Record("F009", Some(20240508), "WB-Alpha", "Armador A", "Positivo", "Rutina"),
      Record("F010", Some(20240520), "WB-Gamma", "Armador C", "Negativo", "Especial") ]
  }

  const PositiveOnly: Selection := Selection(TODOS, TODOS, POSITIVO, TODOS, 20240101, 20241231)

  /** The sample alternates: even rows are positive, odd rows negative. */
  lemma RowVerdict(i: nat)
    requires i < 10
    ensures HoldsAll(Masks(PositiveOnly), SampleTable()[i]) <==> i % 2 == 0
  {
    MasksAdmit(PositiveOnly, SampleTable()[i]);
  }

  /** The rows of `s[..k]` at even positions. */
  function EvenRows(s: seq<Record>, k: nat): seq<Record>
    requires k <= |s|
  {
    if k == 0 then [] else EvenRows(s, k - 1) + (if (k - 1) % 2 == 0 then [s[k - 1]] else [])
  }

  /** On a table whose masks hold exactly on the even rows, narrowing keeps the even rows. */
  lemma {:induction false} EvenRowsKept(s: seq<Record>, ms: seq<Mask>, k: nat)
    requires k <= |s|
    requires forall i :: 0 <= i < |s| ==> (HoldsAll(ms, s[i]) <==> i % 2 == 0)
    ensures Where(s[..k], ms) == EvenRows(s, k)
  {
    if k > 0 {
      EvenRowsKept(s, ms, k - 1);
      WhereSingle(s[k - 1], ms);
      assert s[..k] == s[..k - 1] + [s[k - 1]];
      WhereAppend(s[..k - 1], [s[k - 1]], ms);
    }
  }

  lemma EvenRowsOfTen(s: seq<Record>)
    requires |s| == 10
    ensures EvenRows(s, 10) == [s[0], s[2], s[4], s[6], s[8]]
  {
    assert EvenRows(s, 1) == [s[0]];
    assert EvenRows(s, 2) == [s[0]];
    assert EvenRows(s, 4) == [s[0], s[2]];
    assert EvenRows(s, 6) == [s[0], s[2], s[4]];
    assert EvenRows(s, 8) == [s[0], s[2], s[4], s[6]];
  }

  lemma SampleAlternates(t: seq<Record>)
    requires t == SampleTable()
    ensures |t| == 10
    ensures forall i :: 0 <= i < |t| ==> (HoldsAll(Masks(PositiveOnly), t[i]) <==> i % 2 == 0)
  {
    forall i | 0 <= i < |t| ensures HoldsAll(Masks(PositiveOnly), t[i]) <==> i % 2 == 0 {
      RowVerdict(i);
    }
  }

  /** Selecting "Positivo" over the whole year keeps exactly the five positive samples, in order. */
  lemma PositiveScenario(t: seq<Record>)
    requires t == SampleTable()
    ensures Filtered(t, PositiveOnly) == [t[0], t[2], t[4], t[6], t[8]]
  {
    SampleAlternates(t);
    EvenRowsKept(t, Masks(PositiveOnly), 10);
    assert t[..10] == t;
    EvenRowsOfTen(t);
  }

  /** On that selection the indicators report five positives and no negatives. */
  lemma PositiveScenarioIndicators(t: seq<Record>)
    requires t == SampleTable()
    ensures Compute(Filtered(t, PositiveOnly)).totalMuestras == 5
    ensures Compute(Filtered(t, PositiveOnly)).positivos == 5
    ensures Compute(Filtered(t, PositiveOnly)).negativos == 0
  {
    PositiveScenario(t);
    SelectedResultCountsAll(t, PositiveOnly);
  }

  const Vessels: seq<string> := ["WB-Alpha", "WB-Beta", "WB-Gamma"]

  lemma SampleVessels(t: seq<Record>)
    requires t == SampleTable()
    ensures forall i :: 0 <= i < |t| ==> t[i].wellboat in Vessels
    ensures t[0].wellboat == Vessels[0] && t[1].wellboat == Vessels[1] && t[3].wellboat == Vessels[2]
  {
  }

  lemma VesselsSorted()
    ensures StrictlySorted(Vessels)
  {
    assert Less(Vessels[0], Vessels[1]) && Less(Vessels[1], Vessels[2]);
    LessTransitive(Vessels[0], Vessels[1], Vessels[2]);
  }

  /** The Wellboat selector of the sample offers "Todos" and the three vessels in ascending order. */
  lemma SampleWellboatOptions(t: seq<Record>)
    requires t == SampleTable()
    ensures OptionList(t, Wellboat) == [TODOS] + Vessels
  {
    SampleVessels(t);
    VesselsSorted();
    forall v ensures v in Vessels <==> v in ValueSet(t, Wellboat) {
      if v in Vessels {
        assert Field(t[0], Wellboat) == Vessels[0];
        assert Field(t[1], Wellboat) == Vessels[1];
        assert Field(t[3], Wellboat) == Vessels[2];
      }
    }
    OptionListCanonical(t, Wellboat, Vessels);
  }
}
