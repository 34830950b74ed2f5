/** The rows of the marginal-abatement-cost table (`df_macc`): a technology of one sector,
    split into its type and its sector, with the sector's fossil baseline and the abatement
    costs against it. Also `calc_FSCP`, which scores a table against its first fossil row. */
module Macc {
  import opened Wrappers
  import opened Errors
  import opened PyStr
  import opened CalcCosts

  /** The cost, emissions and electricity demand of a sector's fossil technology
      (`cost_fossil`, `em_fossil`, `elec_fossil` after the merge). */
  datatype Baseline = Baseline(cost: Option<real>, em: Option<real>, elec: Option<real>)

  /** One row of the table; None is NaN. `id` is the row's index label, `kind` its `type`,
      and `baseline` None before the merge with the fossil rows. */
  datatype MaccRow = MaccRow(
    id: nat,
    tech: string,
    kind: string,
    sector: Option<string>,
    cost: Option<real>,
    em: Option<real>,
    elec: Option<real>,
    code: Option<string>,
    co2: Option<real>,
    co2Comp: Option<real>,
    h2: Option<real>,
    baseline: Option<Baseline>,
    fscp: Option<real>,
    elecFscp: Option<real>,
    deltaFscp: Option<real>
  )

  /** `co2_comp * 100 / em_fossil`: the compensated emissions as a percentage of the fossil
      emissions; NaN when either is NaN or the fossil emissions are 0. */
  function Co2CompShare(co2Comp: Option<real>, fossilEm: Option<real>): (r: Option<real>)
    ensures r.Some? <==> co2Comp.Some? && fossilEm.Some? && fossilEm.value != 0.0
    ensures r.Some? ==> r.value * fossilEm.value == co2Comp.value * 100.0
  {
    if co2Comp.Some? && fossilEm.Some? && fossilEm.value != 0.0 then Some(co2Comp.value * 100.0 / fossilEm.value)
    else None
  }

  /** A row scored against a fossil baseline: `fscp` from cost and emissions, `elec_fscp`
      from electricity and emissions, and the compensation share. */
  function Score(r: MaccRow, b: Baseline): (s: MaccRow)
    ensures s.fscp == Fscp(r.cost, r.em, b.cost, b.em)
    ensures s.elecFscp == Fscp(r.elec, r.em, b.elec, b.em)
    ensures s.co2Comp == Co2CompShare(r.co2Comp, b.em)
    ensures s.(fscp := r.fscp, elecFscp := r.elecFscp, co2Comp := r.co2Comp) == r
  {
    r.(fscp := Fscp(r.cost, r.em, b.cost, b.em),
       elecFscp := Fscp(r.elec, r.em, b.elec, b.em),
       co2Comp := Co2CompShare(r.co2Comp, b.em))
  }

  /** The baseline a row provides when it is the fossil row. */
  function BaselineOf(r: MaccRow): Baseline {
    Baseline(r.cost, r.em, r.elec)
  }

  /** Position of the first row of the given type. */
  function FirstOfKind(rows: seq<MaccRow>, kind: string): (r: Option<nat>)
    ensures r.Some? ==> r.value < |rows| && rows[r.value].kind == kind
    ensures r.Some? ==> forall j :: 0 <= j < r.value ==> rows[j].kind != kind
    ensures r.None? ==> forall j :: 0 <= j < |rows| ==> rows[j].kind != kind
  {
    if |rows| == 0 then None
    else if rows[0].kind == kind then Some(0)
    else match FirstOfKind(rows[1..], kind)
      case None => None
      case Some(i) => Some(i + 1)
  }

  /** `calc_FSCP`: every row scored against the first fossil row; a table without a fossil
      row raises. */
  function CalcFscp(rows: seq<MaccRow>): (r: Result<seq<MaccRow>, Error>)
    ensures r.Err? <==> forall j :: 0 <= j < |rows| ==> rows[j].kind != "fossil"
    ensures r.Err? ==> r.error == MissingFossilRow
    ensures r.Ok? ==> |r.value| == |rows|
  {
    match FirstOfKind(rows, "fossil")
    case None => Err(MissingFossilRow)
    case Some(i) =>
      var b := BaselineOf(rows[i]);
      Ok(seq(|rows|, j requires 0 <= j < |rows| => Score(rows[j], b)))
  }

  /** Each row is scored against the first fossil row, which itself gets no abatement cost. */
  lemma CalcFscpScores(rows: seq<MaccRow>, j: nat)
    requires CalcFscp(rows).Ok? && j < |rows|
    ensures var i := FirstOfKind(rows, "fossil").value;
      && CalcFscp(rows).value[j] == Score(rows[j], BaselineOf(rows[i]))
      && CalcFscp(rows).value[i].fscp.None?
      && CalcFscp(rows).value[i].elecFscp.None?
  {
    var i := FirstOfKind(rows, "fossil").value;
    FossilAgainstItself(rows[i].cost, rows[i].em);
    FossilAgainstItself(rows[i].elec, rows[i].em);
  }
}
