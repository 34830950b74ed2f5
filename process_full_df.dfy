/** The per-sector selection of the best abatement option (`get_df`): the sector rows of
    the results table are scored against their sector's fossil technology, the lowest
    abatement cost is selected per sector (then the lowest cost, then the lowest
    emissions), a runner-up set gives the confidence margin, and a CCU rule forbids CCU
    where no sector pair can use it. Also the retrofit capex offsets. */
module ProcessFullDf {
  import opened Wrappers
  import opened Errors
  import opened PyStr
  import opened PyDict
  import opened TechDataModel
  import opened TechSpec
  import opened TechClass
  import opened CalcCosts
  import opened Macc

  // ---------------------------------------------------------------------------------------
  // Smallest values.

  /** The smallest value of a non-empty list. */
  function Min(s: seq<real>): (m: real)
    requires |s| > 0
    ensures m in s
    ensures forall i :: 0 <= i < |s| ==> m <= s[i]
  {
    if |s| == 1 then s[0]
    else
      var t := Min(s[1..]);
      assert forall i :: 1 <= i < |s| ==> s[i] == s[1..][i - 1];
      if s[0] <= t then s[0] else t
  }

  /** The position of the first occurrence of `x` in `s`. */
  function IndexOf(s: seq<real>, x: real): (i: nat)
    requires x in s
    ensures i < |s| && s[i] == x
    ensures forall j :: 0 <= j < i ==> s[j] != x
  {
    if s[0] == x then 0 else IndexOf(s[1..], x) + 1
  }

  /** The list without its element at position `i`. */
  function RemoveAt(s: seq<real>, i: nat): (r: seq<real>)
    requires i < |s|
    ensures |r| == |s| - 1
    ensures forall j :: 0 <= j < i ==> r[j] == s[j]
    ensures forall j :: i <= j < |r| ==> r[j] == s[j + 1]
  {
    s[..i] + s[i + 1..]
  }

  /** The second smallest value, counting repeats: `np.partition(lst, 1)[1]`. */
  function SecondMin(s: seq<real>): real
    requires |s| >= 2
  {
    Min(RemoveAt(s, IndexOf(s, Min(s))))
  }

  /** What `np.partition(lst, 1)` promises: two distinct positions hold the smallest and the
      second smallest value, and every position other than the first holds at least the
      second smallest. */
  lemma SecondMinPartition(s: seq<real>)
    requires |s| >= 2
    ensures var i := IndexOf(s, Min(s));
      && s[i] == Min(s)
      && (exists j :: 0 <= j < |s| && j != i && s[j] == SecondMin(s))
      && (forall k :: 0 <= k < |s| && k != i ==> SecondMin(s) <= s[k])
      && Min(s) <= SecondMin(s)
  {
    var i := IndexOf(s, Min(s));
    var r := RemoveAt(s, i);
    var m2 := Min(r);
    var jr :| 0 <= jr < |r| && r[jr] == m2;
    var j := if jr < i then jr else jr + 1;
    assert s[j] == m2 && j != i;
    forall k | 0 <= k < |s| && k != i ensures m2 <= s[k] {
      if k < i {
        assert r[k] == s[k];
      } else {
        assert r[k - 1] == s[k];
      }
    }
  }

  // ---------------------------------------------------------------------------------------
  // diff_fscp

  predicate AnyNegative(s: seq<real>) {
    exists i :: 0 <= i < |s| && s[i] < 0.0
  }

  predicate AllEqual(s: seq<real>) {
    forall i, j :: 0 <= i < |s| && 0 <= j < |s| ==> s[i] == s[j]
  }

  /** `diff_fscp`: the margin between the best and the second-best abatement cost of a
      sector; 1000 when there is nothing to compare with or a cost is negative, and 0 when
      all costs are equal. */
  function DiffFscp(lst: seq<real>): real
    requires |lst| >= 1
  {
    if |lst| == 1 || AnyNegative(lst) then 1000.0
    else if AllEqual(lst) then 0.0
    else SecondMin(lst) - Min(lst)
  }

  /** The margin is never negative; without negative entries and with at least two
      entries it is exactly the gap between the second smallest and the smallest value,
      and it is 0 exactly when the smallest value occurs twice. */
  lemma DiffFscpMeaning(lst: seq<real>)
    requires |lst| >= 1
    ensures DiffFscp(lst) >= 0.0
    ensures |lst| == 1 || AnyNegative(lst) ==> DiffFscp(lst) == 1000.0
    ensures |lst| >= 2 && !AnyNegative(lst) ==>
      && DiffFscp(lst) == SecondMin(lst) - Min(lst)
      && (DiffFscp(lst) == 0.0 <==> exists i, j :: 0 <= i < j < |lst| && lst[i] == Min(lst) && lst[j] == Min(lst))
  {
    if |lst| >= 2 {
      SecondMinPartition(lst);
      var i := IndexOf(lst, Min(lst));
      if AllEqual(lst) {
        assert lst[0] == lst[1] == Min(lst);
        var j :| 0 <= j < |lst| && j != i && lst[j] == SecondMin(lst);
        assert lst[j] == lst[i];
      }
      if exists a, b :: 0 <= a < b < |lst| && lst[a] == Min(lst) && lst[b] == Min(lst) {
        var a, b :| 0 <= a < b < |lst| && lst[a] == Min(lst) && lst[b] == Min(lst);
        var k := if a != i then a else b;
        assert SecondMin(lst) <= lst[k];
      }
      if SecondMin(lst) == Min(lst) {
        var j :| 0 <= j < |lst| && j != i && lst[j] == SecondMin(lst);
        // the first occurrence of the minimum comes before every other one
        assert i < j && lst[i] == Min(lst) && lst[j] == Min(lst);
      }
    }
  }

  // ---------------------------------------------------------------------------------------
  // lowest_fscp and lowest_value

  /** What `lowest_fscp` makes of a sector's abatement costs: an all-negative list stays as
      it is; otherwise every nonzero entry becomes the smallest entry. */
  function LowestFscpOf(arr: seq<real>): (r: seq<real>)
    ensures |r| == |arr|
  {
    if forall i :: 0 <= i < |arr| ==> arr[i] < 0.0 then arr
    else seq(|arr|, i requires 0 <= i < |arr| => if arr[i] == 0.0 then 0.0 else Min(arr))
  }

  /** `lowest_fscp`: the array is built from the list and overwritten in place. */
  method LowestFscp(lst: seq<real>) returns (arr: array<real>)
    ensures fresh(arr)
    ensures arr[..] == LowestFscpOf(lst)
  {
    arr := new real[|lst|](i requires 0 <= i < |lst| => lst[i]);
    assert arr[..] == lst;
    var nonNegative := CountNonNegative(arr);
    if nonNegative == 0 {
      return;
    }
    var m := ArrayMin(arr);
    ReplaceNonZero(arr, m);
  }

  /** `arr[arr != 0] = m`. */
  method ReplaceNonZero(arr: array<real>, m: real)
    modifies arr
    ensures forall j :: 0 <= j < arr.Length ==> arr[j] == if old(arr[j]) != 0.0 then m else old(arr[j])
  {
    for i := 0 to arr.Length
      invariant forall j :: 0 <= j < arr.Length ==> arr[j] == if j < i && old(arr[j]) != 0.0 then m else old(arr[j])
    {
      if arr[i] != 0.0 {
        arr[i] := m;
      }
    }
  }

  /** `arr[arr >= 0].size`: the number of entries at or above 0. */
  method CountNonNegative(arr: array<real>) returns (n: nat)
    ensures n == 0 <==> forall j :: 0 <= j < arr.Length ==> arr[j] < 0.0
    ensures n <= arr.Length
  {
    n := 0;
    for i := 0 to arr.Length
      invariant n <= i
      invariant n == 0 <==> forall j :: 0 <= j < i ==> arr[j] < 0.0
    {
      if arr[i] >= 0.0 {
        n := n + 1;
      }
    }
  }

  /** `arr.min()` of a non-empty array. */
  method ArrayMin(arr: array<real>) returns (m: real)
    requires arr.Length > 0
    ensures m == Min(arr[..])
  {
    m := arr[0];
    for i := 1 to arr.Length
      invariant m in arr[..i] && forall j :: 0 <= j < i ==> m <= arr[j]
    {
      if arr[i] < m {
        m := arr[i];
      }
    }
    assert arr[..arr.Length] == arr[..];
    MinIsSmallest(arr[..], m);
  }

  /** Any value of the list below or at every entry is its minimum. */
  lemma MinIsSmallest(s: seq<real>, m: real)
    requires m in s && forall j :: 0 <= j < |s| ==> m <= s[j]
    ensures Min(s) == m
  {
    var i :| 0 <= i < |s| && s[i] == m;
    assert Min(s) <= s[i];
  }

  /** The rows `lowest_fscp` keeps are those whose entry it leaves unchanged: all of an
      all-negative sector, and otherwise those at 0 or at the sector's minimum. */
  lemma LowestFscpKeeps(arr: seq<real>, i: nat)
    requires i < |arr|
    ensures LowestFscpOf(arr)[i] == arr[i] <==>
      (forall j :: 0 <= j < |arr| ==> arr[j] < 0.0) || arr[i] == 0.0 || arr[i] == Min(arr)
  {
  }

  /** What `groupby(...).transform(lowest_value)` gives a sector's values: a single value
      stays, otherwise every row gets the minimum. */
  function LowestValueOf(lst: seq<real>): (r: seq<real>)
    requires |lst| >= 1
    ensures |r| == |lst|
  {
    if |lst| == 1 then lst else seq(|lst|, i requires 0 <= i < |lst| => Min(lst))
  }

  /** The rows `lowest_value` keeps are exactly those at the sector's minimum. */
  lemma LowestValueKeeps(lst: seq<real>, i: nat)
    requires i < |lst|
    ensures LowestValueOf(lst)[i] == lst[i] <==> lst[i] == Min(lst)
  {
    if |lst| == 1 {
      assert Min(lst) == lst[0];
    }
  }

  // ---------------------------------------------------------------------------------------
  // get_lowest_fscp

  /** A row without NaN in any column of the table `get_lowest_fscp` filters (`delta_fscp` is
      not a column yet). */
  predicate Complete(r: MaccRow) {
    && r.sector.Some? && r.cost.Some? && r.em.Some? && r.elec.Some? && r.code.Some?
    && r.co2.Some? && r.co2Comp.Some? && r.h2.Some? && r.fscp.Some? && r.elecFscp.Some?
    && r.baseline.Some? && r.baseline.value.cost.Some? && r.baseline.value.em.Some?
    && r.baseline.value.elec.Some?
  }

  /** The columns a filter compares. */
  datatype Field = FscpField | CostField | EmField

  /** The value of a column (0 for NaN, which the filters never see after `dropna`). */
  function Val(r: MaccRow, f: Field): real {
    match f
    case FscpField => r.fscp.GetOr(0.0)
    case CostField => r.cost.GetOr(0.0)
    case EmField => r.em.GetOr(0.0)
  }

  /** The column's values over the rows of one sector, in row order: what `groupby("sector")`
      hands to a transform. */
  function GroupValues(rows: seq<MaccRow>, s: Option<string>, f: Field): (g: seq<real>)
    ensures forall j :: 0 <= j < |rows| && rows[j].sector == s ==> Val(rows[j], f) in g
    ensures forall v :: v in g ==> exists j :: 0 <= j < |rows| && rows[j].sector == s && Val(rows[j], f) == v
  {
    if |rows| == 0 then []
    else
      var rest := GroupValues(rows[1..], s, f);
      assert forall j :: 1 <= j < |rows| ==> rows[j] == rows[1..][j - 1];
      if rows[0].sector == s then [Val(rows[0], f)] + rest else rest
  }

  /** The row filters of `get_lowest_fscp`, each deciding on one row of the whole table. */
  datatype Rule =
    | NoNaN                  // `dropna()`
    | LowestFscpRule         // `transform(lowest_fscp) == fscp`
    | LowestValueRule(f: Field)  // `transform(lowest_value) == cost` (or `em`)
    | FirstOfFscp            // `drop_duplicates(subset=["fscp"], keep="first")`

  predicate Kept(rows: seq<MaccRow>, j: nat, rule: Rule)
    requires j < |rows|
  {
    match rule
    case NoNaN => Complete(rows[j])
    case LowestFscpRule => AtLowestFscp(rows, j)
    case LowestValueRule(f) => AtLowestValue(rows, j, f)
    case FirstOfFscp => FirstWithFscp(rows, j)
  }

  /** The sector's abatement costs are all negative, or the row's is 0 or the sector's
      smallest. */
  predicate AtLowestFscp(rows: seq<MaccRow>, j: nat)
    requires j < |rows|
  {
    var g := GroupValues(rows, rows[j].sector, FscpField);
    var v := Val(rows[j], FscpField);
    (forall k :: 0 <= k < |g| ==> g[k] < 0.0) || v == 0.0 || v == Min(g)
  }

  /** The row's value is the smallest of its sector. */
  predicate AtLowestValue(rows: seq<MaccRow>, j: nat, f: Field)
    requires j < |rows|
  {
    Val(rows[j], f) == Min(GroupValues(rows, rows[j].sector, f))
  }

  /** No earlier row has the same abatement cost. */
  predicate FirstWithFscp(rows: seq<MaccRow>, j: nat)
    requires j < |rows|
  {
    forall k :: 0 <= k < j ==> rows[k].fscp != rows[j].fscp
  }

  /** The rows from index `i` on that the rule keeps, in order. */
  function KeepFrom(rows: seq<MaccRow>, rule: Rule, i: nat): seq<MaccRow>
    decreases |rows| - i
  {
    if i >= |rows| then []
    else if Kept(rows, i, rule) then [rows[i]] + KeepFrom(rows, rule, i + 1)
    else KeepFrom(rows, rule, i + 1)
  }

  /** The rows the rule keeps, in order: `df[mask]` for the rule's mask. */
  function Keep(rows: seq<MaccRow>, rule: Rule): seq<MaccRow> {
    KeepFrom(rows, rule, 0)
  }

  /** The positions of the rows the rule keeps from index `i` on, in order. */
  function KeptIndices(rows: seq<MaccRow>, rule: Rule, i: nat): seq<nat>
    decreases |rows| - i
  {
    if i >= |rows| then []
    else if Kept(rows, i, rule) then [i] + KeptIndices(rows, rule, i + 1)
    else KeptIndices(rows, rule, i + 1)
  }

  /** The `k`-th kept row is the row at the `k`-th kept position, which the rule keeps. */
  lemma {:induction false} KeepFromSound(rows: seq<MaccRow>, rule: Rule, i: nat)
    ensures var r, ix := KeepFrom(rows, rule, i), KeptIndices(rows, rule, i);
      && |ix| == |r|
      && forall k :: 0 <= k < |ix| ==> i <= ix[k] < |rows| && rows[ix[k]] == r[k] && Kept(rows, ix[k], rule)
    decreases |rows| - i
  {
    if i < |rows| {
      KeepFromSound(rows, rule, i + 1);
      var r', ix' := KeepFrom(rows, rule, i + 1), KeptIndices(rows, rule, i + 1);
      if Kept(rows, i, rule) {
        var r, ix := KeepFrom(rows, rule, i), KeptIndices(rows, rule, i);
        assert r == [rows[i]] + r' && ix == [i] + ix';
        forall k | 0 < k < |ix| ensures i <= ix[k] < |rows| && rows[ix[k]] == r[k] && Kept(rows, ix[k], rule) {
          assert ix[k] == ix'[k - 1] && r[k] == r'[k - 1];
        }
      } else {
        assert KeepFrom(rows, rule, i) == r' && KeptIndices(rows, rule, i) == ix';
      }
    }
  }

  lemma {:induction false} KeepFromComplete(rows: seq<MaccRow>, rule: Rule, i: nat)
    ensures forall j :: i <= j < |rows| && Kept(rows, j, rule) ==> rows[j] in KeepFrom(rows, rule, i)
    decreases |rows| - i
  {
    if i < |rows| {
      KeepFromComplete(rows, rule, i + 1);
      var rest := KeepFrom(rows, rule, i + 1);
      if Kept(rows, i, rule) {
        assert KeepFrom(rows, rule, i) == [rows[i]] + rest;
      } else {
        assert KeepFrom(rows, rule, i) == rest;
      }
    }
  }

  /** The lowest-fscp rule decides as `lowest_fscp` does: a row whose value sits at position
      `k` of its sector's values is kept exactly when `lowest_fscp` leaves that position
      unchanged. */
  lemma LowestFscpRuleAgrees(rows: seq<MaccRow>, j: nat, k: nat)
    requires j < |rows|
    requires var g := GroupValues(rows, rows[j].sector, FscpField); k < |g| && g[k] == Val(rows[j], FscpField)
    ensures var g := GroupValues(rows, rows[j].sector, FscpField);
      Kept(rows, j, LowestFscpRule) <==> LowestFscpOf(g)[k] == g[k]
  {
    LowestFscpKeeps(GroupValues(rows, rows[j].sector, FscpField), k);
  }

  /** The lowest-value rule decides as `lowest_value` does. */
  lemma LowestValueRuleAgrees(rows: seq<MaccRow>, j: nat, k: nat, f: Field)
    requires j < |rows|
    requires var g := GroupValues(rows, rows[j].sector, f); k < |g| && g[k] == Val(rows[j], f)
    ensures var g := GroupValues(rows, rows[j].sector, f);
      Kept(rows, j, LowestValueRule(f)) <==> LowestValueOf(g)[k] == g[k]
  {
    LowestValueKeeps(GroupValues(rows, rows[j].sector, f), k);
  }

  /** The per-sector filters of `get_lowest_fscp` after `dropna`, in their order. */
  function Filtered(rows: seq<MaccRow>): seq<MaccRow> {
    Keep(Keep(Keep(Keep(rows, NoNaN), LowestFscpRule), LowestValueRule(CostField)), LowestValueRule(EmField))
  }

  /** `get_lowest_fscp`: per sector the rows of lowest abatement cost, then of lowest cost,
      then of lowest emissions; unless five rows remain, only the first row of each abatement
      cost is kept. */
  function GetLowestFscp(rows: seq<MaccRow>): seq<MaccRow> {
    var c := Filtered(rows);
    if |c| != 5 then Keep(c, FirstOfFscp) else c
  }

  /** The selection is a subset of its input, and has no NaN. */
  lemma GetLowestFscpSubset(rows: seq<MaccRow>)
    ensures forall x :: x in GetLowestFscp(rows) ==> x in rows && Complete(x)
  {
    var a := Keep(rows, NoNaN);
    var b := Keep(a, LowestFscpRule);
    var c := Keep(b, LowestValueRule(CostField));
    var d := Keep(c, LowestValueRule(EmField));
    KeepSubset(rows, NoNaN);
    KeepSubset(a, LowestFscpRule);
    KeepSubset(b, LowestValueRule(CostField));
    KeepSubset(c, LowestValueRule(EmField));
    KeepSubset(d, FirstOfFscp);
    KeepFromSound(rows, NoNaN, 0);
    forall x | x in a ensures Complete(x) {
      var k :| 0 <= k < |a| && a[k] == x;
      assert Kept(rows, KeptIndices(rows, NoNaN, 0)[k], NoNaN);
    }
  }

  lemma KeepSubset(rows: seq<MaccRow>, rule: Rule)
    ensures forall x :: x in Keep(rows, rule) ==> x in rows
  {
    var r := Keep(rows, rule);
    KeepFromSound(rows, rule, 0);
    forall x | x in r ensures x in rows {
      var k :| 0 <= k < |r| && r[k] == x;
      assert rows[KeptIndices(rows, rule, 0)[k]] == x;
    }
  }

  /** No two rows share an abatement cost. */
  predicate DistinctFscps(r: seq<MaccRow>) {
    forall p, q :: 0 <= p < q < |r| ==> r[p].fscp != r[q].fscp
  }

  /** No two rows of a de-duplicated selection share an abatement cost. */
  lemma {:induction false} FirstOfFscpDistinct(rows: seq<MaccRow>, i: nat)
    ensures DistinctFscps(KeepFrom(rows, FirstOfFscp, i))
    decreases |rows| - i
  {
    if i < |rows| {
      FirstOfFscpDistinct(rows, i + 1);
      var rest := KeepFrom(rows, FirstOfFscp, i + 1);
      KeepFromSound(rows, FirstOfFscp, i + 1);
      if Kept(rows, i, FirstOfFscp) {
        forall q | 0 <= q < |rest| ensures rows[i].fscp != rest[q].fscp {
          var j := KeptIndices(rows, FirstOfFscp, i + 1)[q];
          assert Kept(rows, j, FirstOfFscp);
          assert FirstWithFscp(rows, j);
        }
        assert KeepFrom(rows, FirstOfFscp, i) == [rows[i]] + rest;
        DistinctCons(rows[i], rest);
      } else {
        assert KeepFrom(rows, FirstOfFscp, i) == rest;
      }
    }
  }

  /** A row whose abatement cost no other row has can be put in front. */
  lemma DistinctCons(x: MaccRow, rest: seq<MaccRow>)
    requires DistinctFscps(rest) && forall q :: 0 <= q < |rest| ==> x.fscp != rest[q].fscp
    ensures DistinctFscps([x] + rest)
  {
    var r := [x] + rest;
    forall p, q | 0 <= p < q < |r| ensures r[p].fscp != r[q].fscp {
      if p > 0 {
        assert r[p] == rest[p - 1] && r[q] == rest[q - 1];
      } else {
        assert r[q] == rest[q - 1];
      }
    }
  }

  /** Unless exactly five rows survive the filters, the selection has one row per abatement
      cost. */
  lemma GetLowestFscpDistinct(rows: seq<MaccRow>)
    ensures |Filtered(rows)| != 5 ==> DistinctFscps(GetLowestFscp(rows))
  {
    FirstOfFscpDistinct(Filtered(rows), 0);
  }

  /** Some row belongs to sector `s`. */
  predicate HasSector(rows: seq<MaccRow>, s: Option<string>) {
    exists j :: 0 <= j < |rows| && rows[j].sector == s
  }

  /** A per-sector filter never empties a sector: the row holding the sector's smallest value
      is kept. */
  lemma SectorSurvives(rows: seq<MaccRow>, rule: Rule, s: Option<string>)
    requires HasSector(rows, s) && (rule == LowestFscpRule || rule.LowestValueRule?)
    ensures HasSector(Keep(rows, rule), s)
  {
    var j :| 0 <= j < |rows| && rows[j].sector == s;
    var f := if rule == LowestFscpRule then FscpField else rule.f;
    var g := GroupValues(rows, s, f);
    assert Val(rows[j], f) in g;
    var m := Min(g);
    var k :| 0 <= k < |rows| && rows[k].sector == s && Val(rows[k], f) == m;
    if rule == LowestFscpRule {
      assert AtLowestFscp(rows, k);
    } else {
      assert AtLowestValue(rows, k, f);
    }
    assert Kept(rows, k, rule);
    KeepFromComplete(rows, rule, 0);
    var r := Keep(rows, rule);
    assert rows[k] in r;
    var q :| 0 <= q < |r| && r[q] == rows[k];
  }

  /** Every sector with a row without NaN is represented after the three per-sector filters. */
  lemma GetLowestFscpCoversSectors(rows: seq<MaccRow>, j: nat)
    requires j < |rows| && Complete(rows[j])
    ensures HasSector(Filtered(rows), rows[j].sector)
  {
    var s := rows[j].sector;
    var a := Keep(rows, NoNaN);
    assert Kept(rows, j, NoNaN);
    KeepFromComplete(rows, NoNaN, 0);
    assert rows[j] in a;
    var ja :| 0 <= ja < |a| && a[ja] == rows[j];
    assert HasSector(a, s);
    SectorSurvives(a, LowestFscpRule, s);
    var b := Keep(a, LowestFscpRule);
    SectorSurvives(b, LowestValueRule(CostField), s);
    var c := Keep(b, LowestValueRule(CostField));
    SectorSurvives(c, LowestValueRule(EmField), s);
  }

  // ---------------------------------------------------------------------------------------
  // ccu_possible

  /** `type.str.contains("ccu")`. */
  predicate IsCcu(r: MaccRow) {
    Contains(r.kind, "ccu")
  }

  /** `sector.str.contains(...)` for an alternation of words; NaN sectors never match. */
  predicate InSectors(r: MaccRow, words: seq<string>) {
    r.sector.Some? && ContainsAny(r.sector.value, words)
  }

  /** Sectors that take up captured CO2 (`chem|plane|ship`) and sectors that produce it
      (`steel|cement`). */
  const CcuUptakers: seq<string> := ["chem", "plane", "ship"]
  const CcuProducers: seq<string> := ["steel", "cement"]

  /** CCU is possible unless a selected CCU option lacks its counterpart: it is possible when
      no selected row is CCU, or when the selected CCU rows include both an uptaking and a
      producing sector. */
  predicate CcuPossible(df: seq<MaccRow>) {
    (forall i :: 0 <= i < |df| ==> !IsCcu(df[i]))
    || ((exists i :: 0 <= i < |df| && IsCcu(df[i]) && InSectors(df[i], CcuUptakers))
        && (exists i :: 0 <= i < |df| && IsCcu(df[i]) && InSectors(df[i], CcuProducers)))
  }

  /** The table with every CCU row's abatement cost forced to 100000. */
  function ForceCcu(rows: seq<MaccRow>): (r: seq<MaccRow>)
    ensures |r| == |rows|
  {
    seq(|rows|, i requires 0 <= i < |rows| => if IsCcu(rows[i]) then rows[i].(fscp := Some(100000.0)) else rows[i])
  }

  /** Forcing touches only the abatement cost of CCU rows. */
  lemma ForceCcuOnlyFscp(rows: seq<MaccRow>, i: nat)
    requires i < |rows|
    ensures IsCcu(rows[i]) ==> ForceCcu(rows)[i] == rows[i].(fscp := Some(100000.0))
    ensures !IsCcu(rows[i]) ==> ForceCcu(rows)[i] == rows[i]
  {
  }

  /** `ccu_possible(df, big_df)`: when CCU is not possible, it is forced out of `big_df` in
      place by a prohibitive abatement cost. */
  method CcuCheck(df: seq<MaccRow>, big: array<MaccRow>) returns (possible: bool)
    modifies big
    ensures possible == CcuPossible(df)
    ensures big[..] == if possible then old(big[..]) else ForceCcu(old(big[..]))
  {
    if forall i :: 0 <= i < |df| ==> !IsCcu(df[i]) {
      return true;
    }
    if (exists i :: 0 <= i < |df| && IsCcu(df[i]) && InSectors(df[i], CcuUptakers))
       && (exists i :: 0 <= i < |df| && IsCcu(df[i]) && InSectors(df[i], CcuProducers)) {
      return true;
    }
    ForceCcuInPlace(big);
    return false;
  }

  /** `df_macc.loc[df_macc.type == "ccu", "fscp"] = 100000`. */
  method ForceCcuInPlace(big: array<MaccRow>)
    modifies big
    ensures big[..] == ForceCcu(old(big[..]))
  {
    ghost var before := big[..];
    for i := 0 to big.Length
      invariant forall j :: 0 <= j < big.Length ==> big[j] == if j < i then ForceCcu(before)[j] else before[j]
    {
      if IsCcu(big[i]) {
        big[i] := big[i].(fscp := Some(100000.0));
      }
    }
    assert big[..] == ForceCcu(before);
  }

  // ---------------------------------------------------------------------------------------
  // retrofit_params

  /** The `key` of a definition, when it is a text. */
  function KeyOf(d: Dict<Value>): Option<string> {
    var v: Option<Value> := Get(d, "key");
    match v
    case Some(Text(k)) => Some(k)
    case _ => None
  }

  /** `{tech["key"]: tech.get("capex") for tech in techs if "fossil" in tech["key"]}`, filled
      from index `i` on; a definition without a key raises. */
  function FossilCapexsFrom(data: seq<Dict<Value>>, i: nat, acc: Dict<Option<Value>>): (r: Result<Dict<Option<Value>>, Error>)
    ensures r.Err? <==> exists j :: i <= j < |data| && KeyOf(data[j]).None?
    ensures r.Err? ==> r.error == MissingKey
    decreases |data| - i
  {
    if i >= |data| then Ok(acc)
    else match KeyOf(data[i])
      case None => Err(MissingKey)
      case Some(k) =>
        FossilCapexsFrom(data, i + 1, if Contains(k, "fossil") then Set(acc, k, Get(data[i], "capex")) else acc)
  }

  /** The name of the fossil technology a retrofit technology replaces: "fossil_" and the
      second "_"-separated field of its key; keys without "_" raise. */
  function FossilEntry(k: string): Result<string, Error> {
    var parts := Split(k, '_');
    if |parts| < 2 then Err(RetrofitKeyWithoutSector(k)) else Ok("fossil_" + parts[1])
  }

  /** The retrofit capex of one technology: its capex minus the capex of the fossil
      technology it replaces (0 when that is not listed), rounded to one decimal. */
  function RetrofitCapex(d: Dict<Value>, k: string, entry: string, fossil: Dict<Option<Value>>): Result<real, Error> {
    var capex: Option<Value> := Get(d, "capex");
    var fc: Option<Option<Value>> := Get(fossil, entry);
    match capex
    case Some(Num(c)) =>
      (match fc
       case None => Ok(RoundHalfEven(c, 10.0))
       case Some(Some(Num(f))) => Ok(RoundHalfEven(c - f, 10.0))
       case Some(_) => Err(MissingCapex(entry)))
    case _ => Err(MissingCapex(k))
  }

  /** One pass of the loop of `retrofit_params`: a retrofit technology gets its offset
      capex, and the fossil technology it replaces gets capex 0. */
  function RetrofitStep(d: Dict<Value>, ts: seq<string>, fossil: Dict<Option<Value>>, acc: Dict<Value>): Result<Dict<Value>, Error> {
    var key := KeyOf(d);
    if key.Some? && key.value in ts then
      var k := key.value;
      var entry :- FossilEntry(k);
      var c :- RetrofitCapex(d, k, entry, fossil);
      Ok(Set(Set(acc, k + "_capex", Num(c)), entry + "_capex", Num(0.0)))
    else Ok(acc)
  }

  /** The loop of `retrofit_params` from index `i` on. */
  function RetrofitFrom(data: seq<Dict<Value>>, ts: seq<string>, fossil: Dict<Option<Value>>,
                        i: nat, acc: Dict<Value>): Result<Dict<Value>, Error>
    decreases |data| - i
  {
    if i >= |data| then Ok(acc)
    else
      var a :- RetrofitStep(data[i], ts, fossil, acc);
      RetrofitFrom(data, ts, fossil, i + 1, a)
  }

  /** `retrofit_params(retrofit_techs)` over the parsed technology list. */
  function RetrofitParams(techs: Option<seq<string>>, data: seq<Dict<Value>>): (r: Result<Dict<Value>, Error>)
    ensures techs.None? ==> r == Ok([])
  {
    match techs
    case None => Ok([])
    case Some(ts) =>
      var fossil :- FossilCapexsFrom(data, 0, []);
      RetrofitFrom(data, ts, fossil, 0, [])
  }

  /** `retrofit_params`: the fossil capexes first, then a loop filling `new_params`. */
  method ComputeRetrofitParams(techs: Option<seq<string>>, data: seq<Dict<Value>>) returns (res: Result<Dict<Value>, Error>)
    ensures res == RetrofitParams(techs, data)
  {
    var newParams: Dict<Value> := [];
    if techs.None? {
      return Ok(newParams);
    }
    var ts := techs.value;
    var fossil := FossilCapexsFrom(data, 0, []);
    if fossil.Err? {
      return Err(fossil.error);
    }
    for i := 0 to |data|
      invariant RetrofitParams(techs, data) == RetrofitFrom(data, ts, fossil.value, i, newParams)
    {
      ghost var old_params := newParams;
      var key := KeyOf(data[i]);
      if key.Some? && key.value in ts {
        var entry := FossilEntry(key.value);
        if entry.Err? {
          return Err(entry.error);
        }
        var c := RetrofitCapex(data[i], key.value, entry.value, fossil.value);
        if c.Err? {
          return Err(c.error);
        }
        newParams := Set(newParams, key.value + "_capex", Num(c.value));
        newParams := Set(newParams, entry.value + "_capex", Num(0.0));
      }
      assert RetrofitStep(data[i], ts, fossil.value, old_params) == Ok(newParams);
    }
    return Ok(newParams);
  }

  // What the retrofit parameters hold.

  lemma SuffixCancel(a: string, b: string, t: string)
    requires a + t == b + t
    ensures a == b
  {
    assert a == (a + t)[..|a|];
    assert b == (b + t)[..|b|];
  }

  /** A key without "fossil" is never the name of a fossil technology. */
  lemma NotFossilName(k: string, p: string)
    requires !Contains(k, "fossil")
    ensures k != "fossil_" + p
  {
    if k == "fossil_" + p {
      assert OccursAt(k, "fossil", 0);
    }
  }

  /** A pass over `d` leaves the parameter `name` at `v`: it does not write the technology's
      capex under that name, and writes the fossil counterpart's only when `v` is 0. */
  predicate PassKeeps(d: Dict<Value>, ts: seq<string>, name: string, v: Value) {
    KeyOf(d).Some? && KeyOf(d).value in ts ==>
      && KeyOf(d).value + "_capex" != name
      && (FossilEntry(KeyOf(d).value).Ok? && FossilEntry(KeyOf(d).value).value + "_capex" == name ==> v == Num(0.0))
  }

  /** A pass that keeps `name` at `v`. */
  lemma StepKeeps(d: Dict<Value>, ts: seq<string>, fossil: Dict<Option<Value>>, acc: Dict<Value>, name: string, v: Value)
    requires RetrofitStep(d, ts, fossil, acc).Ok? && Get(acc, name) == Some(v) && PassKeeps(d, ts, name, v)
    ensures Get(RetrofitStep(d, ts, fossil, acc).value, name) == Some(v)
  {
  }

  /** A pass over a retrofit technology writes its offset capex and its fossil counterpart's 0. */
  lemma StepWrites(d: Dict<Value>, ts: seq<string>, fossil: Dict<Option<Value>>, acc: Dict<Value>)
    requires RetrofitStep(d, ts, fossil, acc).Ok? && KeyOf(d).Some? && KeyOf(d).value in ts
    ensures var k := KeyOf(d).value;
      && FossilEntry(k).Ok?
      && RetrofitCapex(d, k, FossilEntry(k).value, fossil).Ok?
      && RetrofitStep(d, ts, fossil, acc).value
         == Set(Set(acc, k + "_capex", Num(RetrofitCapex(d, k, FossilEntry(k).value, fossil).value)),
                FossilEntry(k).value + "_capex", Num(0.0))
  {
  }

  /** In a loop that succeeds, the rest of the loop from the parameters collected before
      index `i` gives the result. */
  lemma {:induction false} RetrofitUpToRest(data: seq<Dict<Value>>, ts: seq<string>, fossil: Dict<Option<Value>>, i: nat)
    requires RetrofitFrom(data, ts, fossil, 0, []).Ok? && i <= |data|
    ensures RetrofitFrom(data, ts, fossil, i, RetrofitUpTo(data, ts, fossil, i)) == RetrofitFrom(data, ts, fossil, 0, [])
  {
    if i != 0 {
      var p := i - 1;
      RetrofitUpToRest(data, ts, fossil, p);
      var prev := RetrofitUpTo(data, ts, fossil, p);
      assert RetrofitFrom(data, ts, fossil, p, prev).Ok?;
      assert RetrofitStep(data[p], ts, fossil, prev).Ok?;
    }
  }

  /** Within a loop that succeeds, each pass succeeds and the collected parameters grow by it. */
  lemma RetrofitPass(data: seq<Dict<Value>>, ts: seq<string>, fossil: Dict<Option<Value>>, m: nat)
    requires RetrofitFrom(data, ts, fossil, 0, []).Ok? && m < |data|
    ensures RetrofitStep(data[m], ts, fossil, RetrofitUpTo(data, ts, fossil, m)).Ok?
    ensures RetrofitUpTo(data, ts, fossil, m + 1) == RetrofitStep(data[m], ts, fossil, RetrofitUpTo(data, ts, fossil, m)).value
  {
    RetrofitUpToRest(data, ts, fossil, m);
  }

  /** A loop that succeeds passes index `i` from some collected parameters, and the rest of
      the loop from what that pass writes gives the result. */
  lemma RetrofitSplitAt(data: seq<Dict<Value>>, ts: seq<string>, fossil: Dict<Option<Value>>, i: nat)
    returns (before: Dict<Value>)
    requires RetrofitFrom(data, ts, fossil, 0, []).Ok? && i < |data|
    ensures RetrofitStep(data[i], ts, fossil, before).Ok?
    ensures RetrofitFrom(data, ts, fossil, i + 1, RetrofitStep(data[i], ts, fossil, before).value)
            == RetrofitFrom(data, ts, fossil, 0, [])
  {
    before := RetrofitUpTo(data, ts, fossil, i);
    RetrofitPass(data, ts, fossil, i);
    RetrofitUpToRest(data, ts, fossil, i + 1);
  }

  /** A parameter keeps its value through the rest of a loop whose passes keep it. */
  lemma {:induction false} RetrofitPreserves(data: seq<Dict<Value>>, ts: seq<string>, fossil: Dict<Option<Value>>,
                                            i: nat, acc: Dict<Value>, name: string, v: Value)
    requires RetrofitFrom(data, ts, fossil, i, acc).Ok? && Get(acc, name) == Some(v)
    requires forall j :: i <= j < |data| ==> PassKeeps(data[j], ts, name, v)
    ensures Get(RetrofitFrom(data, ts, fossil, i, acc).value, name) == Some(v)
    decreases |data| - i
  {
    if i < |data| {
      StepKeeps(data[i], ts, fossil, acc, name, v);
      RetrofitPreserves(data, ts, fossil, i + 1, RetrofitStep(data[i], ts, fossil, acc).value, name, v);
    }
  }

  /** Every retrofit technology's fossil counterpart ends with capex 0, provided no retrofit
      technology is itself a fossil one. */
  lemma RetrofitFossilZero(ts: seq<string>, data: seq<Dict<Value>>, i: nat)
    requires RetrofitParams(Some(ts), data).Ok?
    requires forall t :: t in ts ==> !Contains(t, "fossil")
    requires i < |data| && KeyOf(data[i]).Some? && KeyOf(data[i]).value in ts
    ensures var k := KeyOf(data[i]).value;
      && FossilEntry(k).Ok?
      && Get(RetrofitParams(Some(ts), data).value, FossilEntry(k).value + "_capex") == Some(Num(0.0))
  {
    var fossil := FossilCapexsFrom(data, 0, []).value;
    var before := RetrofitSplitAt(data, ts, fossil, i);
    StepWrites(data[i], ts, fossil, before);
    var k := KeyOf(data[i]).value;
    var entry := FossilEntry(k).value;
    var name := entry + "_capex";
    forall j | i + 1 <= j < |data| ensures PassKeeps(data[j], ts, name, Num(0.0)) {
      var k' := KeyOf(data[j]);
      if k'.Some? && k'.value in ts && k'.value + "_capex" == name {
        SuffixCancel(k'.value, entry, "_capex");
        NotFossilName(k'.value, Split(k, '_')[1]);
      }
    }
    RetrofitPreserves(data, ts, fossil, i + 1, RetrofitStep(data[i], ts, fossil, before).value, name, Num(0.0));
  }

  /** Every retrofit technology's capex is offset by its fossil counterpart's, provided it is
      the last definition with its key and no retrofit technology is itself a fossil one. */
  lemma RetrofitCapexOffset(ts: seq<string>, data: seq<Dict<Value>>, i: nat)
    requires RetrofitParams(Some(ts), data).Ok?
    requires forall t :: t in ts ==> !Contains(t, "fossil")
    requires i < |data| && KeyOf(data[i]).Some? && KeyOf(data[i]).value in ts
    requires forall j :: i < j < |data| ==> KeyOf(data[j]) != KeyOf(data[i])
    ensures var k := KeyOf(data[i]).value;
      var fossil := FossilCapexsFrom(data, 0, []).value;
      && FossilEntry(k).Ok?
      && RetrofitCapex(data[i], k, FossilEntry(k).value, fossil).Ok?
      && Get(RetrofitParams(Some(ts), data).value, k + "_capex")
         == Some(Num(RetrofitCapex(data[i], k, FossilEntry(k).value, fossil).value))
  {
    RetrofitCapexOffsetFrom(data, ts, FossilCapexsFrom(data, 0, []).value, i);
  }

  lemma RetrofitCapexOffsetFrom(data: seq<Dict<Value>>, ts: seq<string>, fossil: Dict<Option<Value>>, i: nat)
    requires RetrofitFrom(data, ts, fossil, 0, []).Ok?
    requires i < |data| && KeyOf(data[i]).Some? && KeyOf(data[i]).value in ts
    requires !Contains(KeyOf(data[i]).value, "fossil")
    requires forall j :: i < j < |data| ==> KeyOf(data[j]) != KeyOf(data[i])
    ensures var k := KeyOf(data[i]).value;
      && FossilEntry(k).Ok?
      && RetrofitCapex(data[i], k, FossilEntry(k).value, fossil).Ok?
      && Get(RetrofitFrom(data, ts, fossil, 0, []).value, k + "_capex")
         == Some(Num(RetrofitCapex(data[i], k, FossilEntry(k).value, fossil).value))
  {
    var before := RetrofitSplitAt(data, ts, fossil, i);
    StepWrites(data[i], ts, fossil, before);
    var k := KeyOf(data[i]).value;
    var c := RetrofitCapex(data[i], k, FossilEntry(k).value, fossil).value;
    var after := RetrofitStep(data[i], ts, fossil, before).value;
    CapexNamesDiffer(k, k);
    assert Get(after, k + "_capex") == Some(Num(c));
    LaterNamesAvoid(data, ts, i, Num(c));
    RetrofitPreserves(data, ts, fossil, i + 1, after, k + "_capex", Num(c));
  }

  /** No pass after the last definition with key `k` writes under `k`'s capex name. */
  lemma LaterNamesAvoid(data: seq<Dict<Value>>, ts: seq<string>, i: nat, v: Value)
    requires i < |data| && KeyOf(data[i]).Some? && !Contains(KeyOf(data[i]).value, "fossil")
    requires forall j :: i < j < |data| ==> KeyOf(data[j]) != KeyOf(data[i])
    ensures forall j :: i + 1 <= j < |data| ==> PassKeeps(data[j], ts, KeyOf(data[i]).value + "_capex", v)
  {
    var k := KeyOf(data[i]).value;
    forall j | i + 1 <= j < |data| ensures PassKeeps(data[j], ts, k + "_capex", v) {
      if KeyOf(data[j]).Some? {
        CapexNamesDiffer(k, KeyOf(data[j]).value);
      }
    }
  }

  /** Another key's parameters are never named like the capex of a key without "fossil". */
  lemma CapexNamesDiffer(k: string, k': string)
    requires !Contains(k, "fossil")
    ensures k' != k ==> k' + "_capex" != k + "_capex"
    ensures FossilEntry(k').Ok? ==> FossilEntry(k').value + "_capex" != k + "_capex"
  {
    if k' != k && k' + "_capex" == k + "_capex" {
      SuffixCancel(k', k, "_capex");
    }
    if FossilEntry(k').Ok? && FossilEntry(k').value + "_capex" == k + "_capex" {
      SuffixCancel(FossilEntry(k').value, k, "_capex");
      NotFossilName(k, Split(k', '_')[1]);
    }
  }

  /** The parameters collected before index `i` of a loop that gets past it. */
  function RetrofitUpTo(data: seq<Dict<Value>>, ts: seq<string>, fossil: Dict<Option<Value>>, i: nat): Dict<Value>
    requires i <= |data|
  {
    if i == 0 then []
    else
      var prev := RetrofitUpTo(data, ts, fossil, i - 1);
      match RetrofitStep(data[i - 1], ts, fossil, prev)
      case Ok(a) => a
      case Err(_) => prev
  }
}
