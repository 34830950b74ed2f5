/** `get_df`: the run of the calculation, the sector table scored against each sector's
    fossil technology, the per-sector winners and runners-up, the CCU rule, and the
    confidence margin `delta_fscp` of each winner. */
module GetDfPipeline {
  import opened Wrappers
  import opened Errors
  import opened PyStr
  import opened PyDict
  import opened TechDataModel
  import opened TechSpec
  import opened TechClass
  import opened CalcCosts
  import opened Macc
  import opened ProcessFullDf

  /** The technologies that do not exist when direct air capture (DACCS) is unavailable. */
  const NoDaccs: seq<string> := [
    "ccs_plane", "h2_plane", "ccs_ship", "efuel_steel", "ccs_chem", "h2_chem",
    "efuel_cement", "h2_cement", "comp_plane", "comp_ship", "comp_chem", "comp_steel",
    "comp_cement", "blueh2_steel", "blueh2_chem", "blueh2_ship", "blueh2_plane"
  ]

  // ---------------------------------------------------------------------------------------
  // From the results table to the sector table.

  /** A cell of a results row; NaN past its end. */
  function CellAt(cells: seq<Cell>, i: nat): Cell {
    if i < |cells| then cells[i] else NaN
  }

  /** `replace(-1, np.nan)` on a numeric cell. */
  function NoMinusOne(x: Option<real>): (r: Option<real>)
    ensures r.None? <==> x.None? || x == Some(-1.0)
    ensures r.Some? ==> r == x
  {
    if x == Some(-1.0) then None else x
  }

  /** The cost of the technology "h2" (`loc[tech == "h2", "cost"].iat[0]`); a table
      without it raises. */
  function H2Cost(table: Dict<seq<Cell>>): (r: Result<Option<real>, Error>)
    ensures r.Err? <==> "h2" !in Keys(table)
    ensures r.Err? ==> r.error == MissingH2Row
    ensures r.Ok? ==> exists i :: 0 <= i < |table| && table[i].0 == "h2" && r.value == NumberOf(CellAt(table[i].1, 0))
  {
    var row: Option<seq<Cell>> := Get(table, "h2");
    match row
    case None => Err(MissingH2Row)
    case Some(cells) => Ok(NumberOf(CellAt(cells, 0)))
  }

  /** The row of one sector technology, before the merge: type and sector split at the first
      "_", every numeric -1 read as NaN, and the h2 cost in every row. */
  function RowOf(tech: string, cells: seq<Cell>, h2: Option<real>): (r: MaccRow)
    ensures r.tech == tech && (r.kind, r.sector) == SplitOnce(tech, '_')
    ensures r.cost == NoMinusOne(NumberOf(CellAt(cells, 0)))
    ensures r.em == NoMinusOne(NumberOf(CellAt(cells, 1)))
    ensures r.elec == NoMinusOne(NumberOf(CellAt(cells, 2)))
    ensures r.h2 == NoMinusOne(h2)
    ensures r.baseline.None? && r.fscp.None? && r.elecFscp.None? && r.deltaFscp.None?
  {
    var (kind, sector) := SplitOnce(tech, '_');
    var code := match CellAt(cells, 3) case Str(s) => Some(s) case _ => None;
    MaccRow(0, tech, kind, sector,
            NoMinusOne(NumberOf(CellAt(cells, 0))), NoMinusOne(NumberOf(CellAt(cells, 1))),
            NoMinusOne(NumberOf(CellAt(cells, 2))), code,
            NoMinusOne(NumberOf(CellAt(cells, 4))), NoMinusOne(NumberOf(CellAt(cells, 5))),
            NoMinusOne(h2), None, None, None, None)
  }

  /** `df_data`: the rows of the technologies whose name contains a sector word, in table
      order. */
  function SectorRows(table: Dict<seq<Cell>>, h2: Option<real>): (r: seq<MaccRow>)
    ensures forall x :: x in r ==> exists i :: 0 <= i < |table| && ContainsAny(table[i].0, SectorWords)
                                               && x == RowOf(table[i].0, table[i].1, h2)
    ensures forall i :: 0 <= i < |table| && ContainsAny(table[i].0, SectorWords) ==> RowOf(table[i].0, table[i].1, h2) in r
  {
    if |table| == 0 then []
    else
      var rest := SectorRows(table[1..], h2);
      assert forall i :: 1 <= i < |table| ==> table[i] == table[1..][i - 1];
      if ContainsAny(table[0].0, SectorWords) then [RowOf(table[0].0, table[0].1, h2)] + rest else rest
  }

  /** `fossil_df`: the rows of type "fossil", in order. */
  function Fossils(rows: seq<MaccRow>): (r: seq<MaccRow>)
    ensures forall f :: f in r <==> f in rows && f.kind == "fossil"
  {
    if |rows| == 0 then []
    else
      var rest := Fossils(rows[1..]);
      assert forall f :: f in rows <==> f == rows[0] || f in rows[1..];
      if rows[0].kind == "fossil" then [rows[0]] + rest else rest
  }

  /** One row joined with every fossil row of its sector, in the fossil rows' order. */
  function JoinRow(r: MaccRow, fossils: seq<MaccRow>): (j: seq<MaccRow>)
    ensures forall x :: x in j <==> exists f :: f in fossils && f.sector == r.sector && x == r.(baseline := Some(BaselineOf(f)))
  {
    if |fossils| == 0 then []
    else
      var rest := JoinRow(r, fossils[1..]);
      assert forall f :: f in fossils <==> f == fossils[0] || f in fossils[1..];
      if fossils[0].sector == r.sector then [r.(baseline := Some(BaselineOf(fossils[0])))] + rest else rest
  }

  /** `df_data.merge(fossil_df, on="sector")`: the inner join on the sector, in the order of
      the left rows; the matched fossil row becomes the baseline. */
  function MergeFossil(rows: seq<MaccRow>, fossils: seq<MaccRow>): (m: seq<MaccRow>)
    ensures forall x :: x in m <==> exists r, f :: r in rows && f in fossils && f.sector == r.sector
                                                 && x == r.(baseline := Some(BaselineOf(f)))
  {
    if |rows| == 0 then []
    else
      var rest := MergeFossil(rows[1..], fossils);
      assert forall r :: r in rows <==> r == rows[0] || r in rows[1..];
      JoinRow(rows[0], fossils) + rest
  }

  /** A merged row scored against its baseline. */
  function ScoreRow(r: MaccRow): MaccRow {
    match r.baseline
    case Some(b) => Score(r, b)
    case None => r
  }

  /** The merged rows, numbered from 0 (the merge builds a fresh index) and scored. */
  function ScoreAll(rows: seq<MaccRow>): (s: seq<MaccRow>)
    ensures |s| == |rows|
    ensures forall j :: 0 <= j < |rows| ==> s[j] == ScoreRow(rows[j].(id := j))
  {
    seq(|rows|, j requires 0 <= j < |rows| => ScoreRow(rows[j].(id := j)))
  }

  /** `df_macc`. */
  function MaccTable(table: Dict<seq<Cell>>, h2: Option<real>): seq<MaccRow> {
    var data := SectorRows(table, h2);
    ScoreAll(MergeFossil(data, Fossils(data)))
  }

  /** The rows of the sector table are numbered by position. */
  lemma MaccTableIds(table: Dict<seq<Cell>>, h2: Option<real>, j: nat)
    requires j < |MaccTable(table, h2)|
    ensures MaccTable(table, h2)[j].id == j
  {
    var data := SectorRows(table, h2);
    var m := MergeFossil(data, Fossils(data));
    match m[j].baseline {
      case Some(b) =>
      case None =>
    }
  }

  /** Every row of the sector table is a sector row scored against a fossil row of its own
      sector. */
  lemma MaccTableRow(table: Dict<seq<Cell>>, h2: Option<real>, j: nat) returns (r: MaccRow, f: MaccRow)
    requires j < |MaccTable(table, h2)|
    ensures r in SectorRows(table, h2) && f in SectorRows(table, h2)
    ensures f.kind == "fossil" && f.sector == r.sector
    ensures MaccTable(table, h2)[j] == Score(r.(id := j, baseline := Some(BaselineOf(f))), BaselineOf(f))
  {
    var data := SectorRows(table, h2);
    var fs := Fossils(data);
    var m := MergeFossil(data, fs);
    assert m[j] in m;
    r, f :| r in data && f in fs && f.sector == r.sector && m[j] == r.(baseline := Some(BaselineOf(f)));
  }

  /** A technology's name is its type, then "_" and its sector when it has one. */
  lemma TechFromParts(r: MaccRow, t: MaccRow, h2: Option<real>, cr: seq<Cell>, ct: seq<Cell>)
    requires r == RowOf(r.tech, cr, h2) && t == RowOf(t.tech, ct, h2)
    requires r.kind == t.kind && r.sector == t.sector
    ensures r.tech == t.tech
  {
  }

  /** With every technology named once in the results table, a fossil row is scored against
      itself and gets no abatement cost: fossil rows are never complete. */
  lemma FossilRowsIncomplete(table: Dict<seq<Cell>>, h2: Option<real>, j: nat)
    requires DistinctKeys(table) && j < |MaccTable(table, h2)|
    requires MaccTable(table, h2)[j].kind == "fossil"
    ensures MaccTable(table, h2)[j].fscp.None?
    ensures !Complete(MaccTable(table, h2)[j])
  {
    var r, f := MaccTableRow(table, h2, j);
    var i :| 0 <= i < |table| && ContainsAny(table[i].0, SectorWords) && r == RowOf(table[i].0, table[i].1, h2);
    var k :| 0 <= k < |table| && ContainsAny(table[k].0, SectorWords) && f == RowOf(table[k].0, table[k].1, h2);
    TechFromParts(r, f, h2, table[i].1, table[k].1);
    assert i == k;
    FossilAgainstItself(r.cost, r.em);
  }

  // ---------------------------------------------------------------------------------------
  // Winners and runners-up.

  /** The index labels of some rows. */
  function IdsOf(rows: seq<MaccRow>): (ids: set<nat>)
    ensures forall x :: x in rows ==> x.id in ids
    ensures forall n :: n in ids ==> exists x :: x in rows && x.id == n
  {
    set x | x in rows :: x.id
  }

  /** `df_macc[mask]`: the rows whose label is not among `ids`, and, when `dropCcu`, whose
      type is not exactly "ccu". */
  function Masked(rows: seq<MaccRow>, ids: set<nat>, dropCcu: bool): (r: seq<MaccRow>)
    ensures forall x :: x in r <==> x in rows && x.id !in ids && (dropCcu ==> x.kind != "ccu")
  {
    if |rows| == 0 then []
    else
      var rest := Masked(rows[1..], ids, dropCcu);
      assert forall x :: x in rows <==> x == rows[0] || x in rows[1..];
      if rows[0].id !in ids && (!dropCcu || rows[0].kind != "ccu") then [rows[0]] + rest else rest
  }

  /** The winners of a table and the winners among the rest. */
  function Rank(macc: seq<MaccRow>, dropCcu: bool): (seq<MaccRow>, seq<MaccRow>) {
    var w := GetLowestFscp(macc);
    (w, GetLowestFscp(Masked(macc, IdsOf(w), dropCcu)))
  }

  /** The table the winners are finally chosen from: the sector table, or, when CCU
      coupling is on and the first winners make CCU impossible, the table with CCU forced
      out. */
  function Contest(macc: seq<MaccRow>, ccu: bool): seq<MaccRow> {
    if ccu && !CcuPossible(GetLowestFscp(macc)) then ForceCcu(macc) else macc
  }

  /** `df_temp` and `df_temp_secondbest`. */
  function Select(macc: seq<MaccRow>, ccu: bool): (seq<MaccRow>, seq<MaccRow>) {
    var (w, s) := Rank(macc, ccu);
    if ccu && !CcuPossible(w) then Rank(ForceCcu(macc), true) else (w, s)
  }

  /** The winners and runners-up are complete rows of the contested table, with distinct
      labels; with CCU coupling on, no runner-up is of type "ccu". */
  lemma SelectRows(macc: seq<MaccRow>, ccu: bool)
    ensures var (w, s) := Select(macc, ccu);
      var t := Contest(macc, ccu);
      && w == GetLowestFscp(t)
      && (forall x :: x in w ==> x in t && Complete(x))
      && (forall x :: x in s ==> x in t && Complete(x) && x.id !in IdsOf(w))
      && (ccu ==> forall x :: x in s ==> x.kind != "ccu")
  {
    var t := Contest(macc, ccu);
    var dropCcu := ccu || t != macc;
    var w := GetLowestFscp(t);
    var m := Masked(t, IdsOf(w), dropCcu);
    assert Select(macc, ccu) == (w, GetLowestFscp(m));
    GetLowestFscpSubset(t);
    GetLowestFscpSubset(m);
  }

  /** With CCU coupling off the CCU rule never applies. */
  lemma SelectWithoutCcu(macc: seq<MaccRow>)
    ensures Contest(macc, false) == macc
    ensures Select(macc, false) == Rank(macc, false)
  {
  }

  // ---------------------------------------------------------------------------------------
  // The confidence margin.

  /** The margin of the `j`th winner: `diff_fscp` over the abatement costs of its sector
      among winners and runners-up. */
  function Delta(w: seq<MaccRow>, s: seq<MaccRow>, j: nat): real
    requires j < |w|
  {
    var all := w + s;
    assert all[j] == w[j];
    DiffFscp(GroupValues(all, w[j].sector, FscpField))
  }

  /** `df_temp["delta_fscp"] = ...`: the winners with their margins. */
  function WithDelta(w: seq<MaccRow>, s: seq<MaccRow>): (r: seq<MaccRow>)
    ensures |r| == |w|
    ensures forall j :: 0 <= j < |w| ==> r[j] == w[j].(deltaFscp := Some(Delta(w, s, j)))
  {
    seq(|w|, j requires 0 <= j < |w| => w[j].(deltaFscp := Some(Delta(w, s, j))))
  }

  /** A margin is never negative; it is 1000 when the winner has no runner-up in its sector
      and no other winner shares it, and it is the gap to the sector's second-best value
      otherwise, unless a value is negative. */
  lemma DeltaMeaning(w: seq<MaccRow>, s: seq<MaccRow>, j: nat)
    requires j < |w|
    ensures var g := GroupValues(w + s, w[j].sector, FscpField);
      && |g| >= 1
      && Delta(w, s, j) >= 0.0
      && (|g| == 1 || AnyNegative(g) ==> Delta(w, s, j) == 1000.0)
      && (|g| >= 2 && !AnyNegative(g) ==> Delta(w, s, j) == SecondMin(g) - Min(g))
  {
    var all := w + s;
    assert all[j] == w[j];
    var g := GroupValues(all, w[j].sector, FscpField);
    assert Val(all[j], FscpField) in g;
    DiffFscpMeaning(g);
  }

  /** The margin of a winner that is alone in its sector among winners and runners-up is
      1000. */
  lemma DeltaAlone(w: seq<MaccRow>, s: seq<MaccRow>, j: nat)
    requires j < |w|
    requires forall k :: 0 <= k < |w + s| && k != j ==> (w + s)[k].sector != w[j].sector
    ensures Delta(w, s, j) == 1000.0
  {
    var all := w + s;
    assert all[j] == w[j];
    GroupSingle(all, j, FscpField);
    DeltaMeaning(w, s, j);
  }

  /** A sector with no row has no values. */
  lemma GroupEmpty(rows: seq<MaccRow>, s: Option<string>, f: Field)
    requires forall k :: 0 <= k < |rows| ==> rows[k].sector != s
    ensures GroupValues(rows, s, f) == []
  {
  }

  /** A sector with a single row has a single value. */
  lemma {:induction false} GroupSingle(rows: seq<MaccRow>, j: nat, f: Field)
    requires j < |rows|
    requires forall k :: 0 <= k < |rows| && k != j ==> rows[k].sector != rows[j].sector
    ensures |GroupValues(rows, rows[j].sector, f)| == 1
  {
    var t := rows[1..];
    assert forall k :: 0 <= k < |t| ==> t[k] == rows[k + 1];
    if j == 0 {
      GroupEmpty(t, rows[0].sector, f);
    } else {
      GroupSingle(t, j - 1, f);
    }
  }

  // ---------------------------------------------------------------------------------------
  // get_df

  /** The keyword arguments of the run: with retrofitting, the retrofit capexes are added to
      the user's overrides. */
  function RunArgs(retrofit: bool, retrofitTechs: Option<seq<string>>, retrofitData: seq<Dict<Value>>,
                   up: Dict<Value>): Result<Dict<Value>, Error>
  {
    if retrofit then
      var params :- RetrofitParams(retrofitTechs, retrofitData);
      Ok(Update(up, params))
    else Ok(up)
  }

  /** `get_df(DACCS, CCU_coupling, compensate, retrofit, retrofit_techs, **up)` over the
      technology definitions `defs` (and `retrofitData`, the definitions `retrofit_params`
      reads). */
  function GetDfSpec(daccs: bool, ccu: bool, compensate: bool, retrofit: bool,
                     retrofitTechs: Option<seq<string>>, retrofitData: seq<Dict<Value>>,
                     defs: seq<Dict<Value>>, up: Dict<Value>): (r: Result<seq<MaccRow>, Error>)
    ensures retrofit && retrofitTechs.None? ==> r == Err(RetrofitWithoutTechs)
  {
    if retrofit && retrofitTechs.None? then Err(RetrofitWithoutTechs)
    else
      var args :- RunArgs(retrofit, retrofitTechs, retrofitData, up);
      var table :- AllLco(defs, compensate, ccu, if daccs then None else Some(NoDaccs), args);
      FromTable(table, ccu)
  }

  /** What `get_df` makes of the results table `df_total`. */
  function FromTable(table: Dict<seq<Cell>>, ccu: bool): Result<seq<MaccRow>, Error> {
    var h2 :- H2Cost(table);
    var (w, s) := Select(MaccTable(table, h2), ccu);
    Ok(WithDelta(w, s))
  }

  /** `get_df`: runs the calculation (into the registry) and selects the winners step by
      step; the CCU check rewrites the table in place. */
  method GetDf(daccs: bool, ccu: bool, compensate: bool, retrofit: bool,
               retrofitTechs: Option<seq<string>>, retrofitData: seq<Dict<Value>>,
               defs: seq<Dict<Value>>, up: Dict<Value>, reg: Registry)
    returns (res: Result<seq<MaccRow>, Error>)
    modifies reg
    ensures res == GetDfSpec(daccs, ccu, compensate, retrofit, retrofitTechs, retrofitData, defs, up)
  {
    if retrofit && retrofitTechs.None? {
      return Err(RetrofitWithoutTechs);
    }
    var args := ComputeRunArgs(retrofit, retrofitTechs, retrofitData, up);
    if args.Err? {
      return Err(args.error);
    }
    var kwargs := args.value;
    var inexistant := if daccs then None else Some(NoDaccs);
    var total := CalcAllLco(defs, compensate, ccu, inexistant, kwargs, reg);
    if total.Err? {
      return Err(total.error);
    }
    res := ProcessTable(total.value, ccu);
  }

  /** The part of `get_df` after the run: the h2 cost, the sector table and the selection. */
  method ProcessTable(table: Dict<seq<Cell>>, ccu: bool) returns (res: Result<seq<MaccRow>, Error>)
    ensures res == FromTable(table, ccu)
  {
    var h2 := H2Cost(table);
    if h2.Err? {
      return Err(h2.error);
    }
    var temp, second := SelectWinners(MaccTable(table, h2.value), ccu);
    return Ok(WithDelta(temp, second));
  }

  /** `kwargs.update(retrofit_params(retrofit_techs))` when retrofitting. */
  method ComputeRunArgs(retrofit: bool, retrofitTechs: Option<seq<string>>, retrofitData: seq<Dict<Value>>,
                        up: Dict<Value>) returns (res: Result<Dict<Value>, Error>)
    ensures res == RunArgs(retrofit, retrofitTechs, retrofitData, up)
  {
    var kwargs := up;
    if retrofit {
      var params := ComputeRetrofitParams(retrofitTechs, retrofitData);
      if params.Err? {
        return Err(params.error);
      }
      kwargs := Update(kwargs, params.value);
    }
    return Ok(kwargs);
  }

  /** The winners and runners-up of `get_df`; the CCU check rewrites a copy of the table in
      place, and the selection is repeated on it when CCU is not possible. */
  method SelectWinners(macc: seq<MaccRow>, ccu: bool) returns (temp: seq<MaccRow>, second: seq<MaccRow>)
    ensures (temp, second) == Select(macc, ccu)
  {
    temp := GetLowestFscp(macc);
    second := GetLowestFscp(Masked(macc, IdsOf(temp), ccu));
    if ccu {
      var big := new MaccRow[|macc|](i requires 0 <= i < |macc| => macc[i]);
      assert big[..] == macc;
      var possible := CcuCheck(temp, big);
      if !possible {
        var filtered := big[..];
        temp := GetLowestFscp(filtered);
        second := GetLowestFscp(Masked(filtered, IdsOf(temp), true));
      }
    }
  }

  /** Every row `get_df` returns is a complete winner with a margin of at least 0, and none
      of them is the fossil technology of its sector. */
  lemma GetDfRows(daccs: bool, ccu: bool, compensate: bool, retrofit: bool,
                  retrofitTechs: Option<seq<string>>, retrofitData: seq<Dict<Value>>,
                  defs: seq<Dict<Value>>, up: Dict<Value>, j: nat)
    requires GetDfSpec(daccs, ccu, compensate, retrofit, retrofitTechs, retrofitData, defs, up).Ok?
    requires j < |GetDfSpec(daccs, ccu, compensate, retrofit, retrofitTechs, retrofitData, defs, up).value|
    ensures var x := GetDfSpec(daccs, ccu, compensate, retrofit, retrofitTechs, retrofitData, defs, up).value[j];
      && Complete(x) && x.deltaFscp.Some? && x.deltaFscp.value >= 0.0 && x.kind != "fossil"
  {
    var args := RunArgs(retrofit, retrofitTechs, retrofitData, up).value;
    var inexistant := if daccs then None else Some(NoDaccs);
    var table := AllLco(defs, compensate, ccu, inexistant, args).value;
    AllLcoDistinct(defs, compensate, ccu, inexistant, args);
    FromTableRows(table, ccu, j);
  }

  /** The rows made of a results table are complete winners with a margin of at least 0;
      when the table names each technology once, none is a fossil technology. */
  lemma FromTableRows(table: Dict<seq<Cell>>, ccu: bool, j: nat)
    requires FromTable(table, ccu).Ok? && j < |FromTable(table, ccu).value|
    ensures var x := FromTable(table, ccu).value[j];
      && Complete(x) && x.deltaFscp.Some? && x.deltaFscp.value >= 0.0
      && (DistinctKeys(table) ==> x.kind != "fossil")
  {
    var h2 := H2Cost(table).value;
    var macc := MaccTable(table, h2);
    var (w, s) := Select(macc, ccu);
    SelectRows(macc, ccu);
    DeltaMeaning(w, s, j);
    assert w[j] in w;
    if DistinctKeys(table) {
      WinnersNotFossil(table, h2, ccu, w[j]);
    }
  }

  /** A winner is never the fossil technology of its sector, when the table names each
      technology once. */
  lemma WinnersNotFossil(table: Dict<seq<Cell>>, h2: Option<real>, ccu: bool, x: MaccRow)
    requires DistinctKeys(table)
    requires x in Select(MaccTable(table, h2), ccu).0
    ensures x.kind != "fossil"
  {
    var macc := MaccTable(table, h2);
    SelectRows(macc, ccu);
    var t := Contest(macc, ccu);
    if x.kind == "fossil" {
      var j :| 0 <= j < |t| && t[j] == x;
      if t != macc {
        ForceCcuOnlyFscp(macc, j);
        NotCcuFossil();
      }
      FossilRowsIncomplete(table, h2, j);
      assert false;
    }
  }

  /** "fossil" does not contain "ccu". */
  lemma NotCcuFossil()
    ensures !Contains("fossil", "ccu")
  {
    var s := "fossil";
    assert forall k :: 0 <= k < |s| ==> s[k] != 'c';
    forall i: nat ensures !OccursAt(s, "ccu", i) {
      if i + 3 <= |s| {
        assert s[i..i + 3][0] == s[i];
      }
    }
    ContainsIff(s, "ccu");
  }
}
