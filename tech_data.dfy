/** The registry record of one technology (`TechData`) and the row it contributes to the
    flat results table, whose columns are `cost, em, elec, code, co2, co2_comp`. */
module TechDataModel {
  import opened Wrappers

  /** A record is a value: once built, none of its fields is ever reassigned. */
  datatype TechData = TechData(
    lco: real,          // levelised cost per unit
    em: real,           // effective emissions per unit
    elec: real,         // effective electricity demand per unit
    desc: string,
    totalCo2dem: real,  // non-fossil CO2 demand per unit
    co2Comp: real       // total emissions minus effective emissions
  )

  /** The constructor `TechData(LCO, eff_em, eff_elec, desc, total_co2dem, total_em_eff_em)`. */
  function NewTechData(lco: real, effEm: real, effElec: real, desc: string,
                       totalCo2dem: real, totalEmEffEm: real): (d: TechData)
    ensures d.lco == lco && d.desc == desc && d.totalCo2dem == totalCo2dem
    ensures d.em == effEm && d.elec == effElec && d.co2Comp == totalEmEffEm
  {
    TechData(lco, effEm, effElec, desc, totalCo2dem, totalEmEffEm)
  }

  /** `str(record)`. */
  function Describe(d: TechData): (s: string)
    ensures s == d.desc
  {
    d.desc
  }

  /** A cell of a results table: a number, a text, or NaN. */
  datatype Cell = Real(r: real) | Str(s: string) | NaN

  /** The column names of the flat results table, after the `tech` column. */
  const Columns: seq<string> := ["cost", "em", "elec", "code", "co2", "co2_comp"]

  /** `get_vals()`: the record as a table row. */
  function GetVals(d: TechData): (row: seq<Cell>)
    ensures |row| == |Columns|
  {
    [Real(d.lco), Real(d.em), Real(d.elec), Str(d.desc), Real(d.totalCo2dem), Real(d.co2Comp)]
  }

  /** The cell of `row` under the named column (NaN for a name that is not a column). */
  function Column(row: seq<Cell>, name: string): Cell
    requires |row| == |Columns|
  {
    if name == "cost" then row[0]
    else if name == "em" then row[1]
    else if name == "elec" then row[2]
    else if name == "code" then row[3]
    else if name == "co2" then row[4]
    else if name == "co2_comp" then row[5]
    else NaN
  }

  /** Reads a numeric cell: NaN (or a text) reads as undefined. */
  function NumberOf(c: Cell): Option<real> {
    if c.Real? then Some(c.r) else None
  }

  /** Rebuilds a record from a table row; undefined for rows with NaN (placeholder rows). */
  function ReadRow(row: seq<Cell>): Option<TechData>
    requires |row| == |Columns|
  {
    if row[0].Real? && row[1].Real? && row[2].Real? && row[3].Str? && row[4].Real? && row[5].Real?
    then Some(TechData(row[0].r, row[1].r, row[2].r, row[3].s, row[4].r, row[5].r))
    else None
  }

  /** The order of `get_vals()` matches the table columns: each column holds the field of its
      name, and reading the row back gives the record. */
  lemma GetValsColumns(d: TechData)
    ensures Column(GetVals(d), "cost") == Real(d.lco)
    ensures Column(GetVals(d), "em") == Real(d.em)
    ensures Column(GetVals(d), "elec") == Real(d.elec)
    ensures Column(GetVals(d), "code") == Str(d.desc)
    ensures Column(GetVals(d), "co2") == Real(d.totalCo2dem)
    ensures Column(GetVals(d), "co2_comp") == Real(d.co2Comp)
    ensures ReadRow(GetVals(d)) == Some(d)
  {
  }
}
