/** The cost-breakdown expander of `breakdown_LCO_comps`: the components of every fuel are
    pushed, scaled to the amount consumed, into every technology that consumes it, also
    through fuels whose rows were already expanded; the expanded rows then take precedence
    over the original ones, and the table is split into sector rows and fuel rows. */
module CostBreakdown {
  import opened Wrappers
  import opened Errors
  import opened PyStr
  import opened CalcCosts
  import opened TechSpec

  /** Technology → its components, the table indexed by `tech`. */
  type Table = map<string, map<string, real>>

  /** A source whose name contains one of these is never broken down into its consumers. */
  const NotExpanded: seq<string> := ["ship", "steel", "plane", "chem", "cement", "fossil"]

  /** `m[k]` is a number: present, and not a zero that `replace(0.0, np.nan)` turned into NaN. */
  predicate Known(m: map<string, real>, k: string) {
    k in m && m[k] != 0.0
  }

  /** `replace(0.0, np.nan)` on one row: a zero component is no component. */
  function DropZeros(r: CompRow): (d: CompRow)
    ensures d.tech == r.tech
    ensures forall k :: k in d.cells <==> Known(r.cells, k)
    ensures forall k :: k in d.cells ==> k in r.cells && d.cells[k] == r.cells[k]
  {
    CompRow(r.tech, map k | k in r.cells && r.cells[k] != 0.0 :: r.cells[k])
  }

  /** Every entry multiplied by `f` (`Series.multiply`). */
  function Scale(m: map<string, real>, f: real): (s: map<string, real>)
    ensures s.Keys == m.Keys
    ensures forall k :: k in m ==> s[k] == Times(m[k], f)
  {
    map k | k in m :: Times(m[k], f)
  }

  /** `add_prefix(p + "_")`. */
  function Prefix(p: string, m: map<string, real>): (r: map<string, real>)
    ensures forall k :: k in m ==> p + "_" + k in r && r[p + "_" + k] == m[k]
    ensures r.Keys == set k | k in m :: p + "_" + k
  {
    PrefixInjective(p);
    map k | k in m :: p + "_" + k := m[k]
  }

  lemma PrefixInjective(p: string)
    ensures forall a: string, b: string :: p + "_" + a == p + "_" + b ==> a == b
  {
    forall a: string, b: string | p + "_" + a == p + "_" + b ensures a == b {
      assert a == (p + "_" + a)[|p| + 1..];
      assert b == (p + "_" + b)[|p| + 1..];
    }
  }

  // ---------------------------------------------------------------------------------------
  // One consumer of one source.

  /** The components of an already expanded row `r`, except its LCO, scaled to `amount` of
      its technology; none when its LCO is NaN (the scaled entries are all NaN). */
  function SubComponents(r: CompRow, amount: real): map<string, real> {
    if Known(r.cells, "LCO") then Scale(r.cells - {"LCO"}, amount / r.cells["LCO"]) else map[]
  }

  /** What an expanded row `r` adds to the scaled components `base` of a source: its own
      scaled components under the prefix `r.tech + "_"`, when `base` has an entry for it. */
  function Contribution(base: map<string, real>, r: CompRow): map<string, real> {
    if r.tech in base then Prefix(r.tech, SubComponents(r, base[r.tech])) else map[]
  }

  /** The `common_subparams` loop: the expanded rows from position `j` on add their
      contributions to `acc`, a later label replacing an earlier one. */
  function SubExpansion(base: map<string, real>, rows: seq<CompRow>, j: nat, acc: map<string, real>)
    : map<string, real>
    decreases |rows| - j
  {
    if j >= |rows| then acc
    else SubExpansion(base, rows, j + 1, acc + Contribution(base, rows[j]))
  }

  /** The row that consumer `other` of source `cur` gets, given the rows expanded so far:
      the consumer's own entries, and the source's components except LCO scaled by
      `other[cur.tech] / cur.LCO` together with their sub-expansions, under the prefix
      `cur.tech + "_"`. A source without LCO raises. */
  function Expand(cur: CompRow, other: CompRow, rows: seq<CompRow>): (r: Result<CompRow, Error>)
    requires Known(other.cells, cur.tech)
    ensures r.Err? <==> !Known(cur.cells, "LCO")
    ensures r.Err? ==> r.error == MissingSourceLco(cur.tech)
    ensures r.Ok? ==> r.value.tech == other.tech
  {
    if !Known(cur.cells, "LCO") then Err(MissingSourceLco(cur.tech))
    else
      var base := Scale(cur.cells - {"LCO"}, other.cells[cur.tech] / cur.cells["LCO"]);
      Ok(CompRow(other.tech, Prefix(cur.tech, SubExpansion(base, rows, 0, base)) + other.cells))
  }

  /** The technologies of a list of rows, in order. */
  function Techs(rows: seq<CompRow>): (ts: seq<string>)
    ensures |ts| == |rows|
    ensures forall j :: 0 <= j < |rows| ==> ts[j] == rows[j].tech
  {
    seq(|rows|, j requires 0 <= j < |rows| => rows[j].tech)
  }

  /** No technology has two rows. */
  predicate DistinctTechs(rows: seq<CompRow>) {
    forall i, j :: 0 <= i < j < |rows| ==> rows[i].tech != rows[j].tech
  }

  /** `item.combine_first(row)`: the entries of `item`, and those of `row` where `item` has none. */
  function CombineFirst(item: CompRow, row: CompRow): CompRow {
    CompRow(item.tech, row.cells + item.cells)
  }

  /** A new expanded row joins the list: appended when its technology has no row yet,
      otherwise combined into the row of its technology. */
  function Merge(rows: seq<CompRow>, row: CompRow): seq<CompRow> {
    if row.tech !in Techs(rows) then rows + [row]
    else seq(|rows|, j requires 0 <= j < |rows| =>
               if rows[j].tech == row.tech then CombineFirst(rows[j], row) else rows[j])
  }

  // ---------------------------------------------------------------------------------------
  // All consumers of one source, and all sources.

  /** The consumer loop of `process_LCO_rows` for the source at position `p`, from the
      consumer at position `q` on. The source itself and the rows without a number for the
      source are skipped. */
  function ProcessFrom(comps: seq<CompRow>, p: nat, q: nat, rows: seq<CompRow>): Result<seq<CompRow>, Error>
    requires p < |comps|
    decreases |comps| - q
  {
    if q >= |comps| then Ok(rows)
    else if q == p || !Known(comps[q].cells, comps[p].tech) then ProcessFrom(comps, p, q + 1, rows)
    else
      var row :- Expand(comps[p], comps[q], rows);
      ProcessFrom(comps, p, q + 1, Merge(rows, row))
  }

  /** `process_LCO_rows` for the source at position `p`: sector rows and the fossil rows are
      not sources. */
  function ProcessRow(comps: seq<CompRow>, p: nat, rows: seq<CompRow>): Result<seq<CompRow>, Error>
    requires p < |comps|
  {
    if ContainsAny(comps[p].tech, NotExpanded) then Ok(rows) else ProcessFrom(comps, p, 0, rows)
  }

  /** `LCO_components.apply(process_LCO_rows, axis=1, ...)` from the source at position `p` on. */
  function ExpandFrom(comps: seq<CompRow>, p: nat, rows: seq<CompRow>): Result<seq<CompRow>, Error>
    decreases |comps| - p
  {
    if p >= |comps| then Ok(rows)
    else
      var rows' :- ProcessRow(comps, p, rows);
      ExpandFrom(comps, p + 1, rows')
  }

  // ---------------------------------------------------------------------------------------
  // Merging and splitting.

  /** `set_index("tech")`: every technology of the rows is a label, holding the cells of its
      last row (a later row of the same technology replaces an earlier one). */
  function ByTech(rows: seq<CompRow>): (t: Table)
    ensures t.Keys == set r | r in rows :: r.tech
    ensures forall j :: 0 <= j < |rows| && (forall k :: j < k < |rows| ==> rows[k].tech != rows[j].tech) ==>
              t[rows[j].tech] == rows[j].cells
    decreases |rows|
  {
    if |rows| == 0 then map[]
    else
      var init, last := rows[..|rows| - 1], rows[|rows| - 1];
      assert forall r :: r in rows <==> r in init || r == last;
      assert forall j :: 0 <= j < |init| ==> init[j] == rows[j];
      ByTech(init)[last.tech := last.cells]
  }

  /** `update_LCO_components`: the expanded rows combined over the original ones, an
      expanded value taking precedence; there must be at least one expanded row. */
  function UpdateComponents(original: seq<CompRow>, expanded: seq<CompRow>): Result<Table, Error> {
    if |expanded| == 0 then Err(NothingToConcatenate)
    else
      var o, n := ByTech(original), ByTech(expanded);
      Ok(map t | t in o.Keys + n.Keys ::
           if t in n && t in o then o[t] + n[t] else if t in n then n[t] else o[t])
  }

  /** `split_LCO_df`: the sector rows and the fuel rows. */
  function SplitComponents(t: Table): (Table, Table) {
    (map k | k in t && ContainsAny(k, SectorWords) :: t[k],
     map k | k in t && !ContainsAny(k, SectorWords) :: t[k])
  }

  /** `breakdown_LCO_comps`. */
  function Breakdown(comps: seq<CompRow>): Result<(Table, Table), Error> {
    var table := seq(|comps|, j requires 0 <= j < |comps| => DropZeros(comps[j]));
    var rows :- ExpandFrom(table, 0, []);
    var updated :- UpdateComponents(table, rows);
    Ok(SplitComponents(updated))
  }

  // ---------------------------------------------------------------------------------------
  // Properties.

  /** A new expanded row is appended when its technology has no row yet; otherwise only
      the row of its technology changes, and there it fills in the labels the row has no
      number for, keeping every number the row already had. */
  lemma MergeFillsMissing(rows: seq<CompRow>, row: CompRow)
    requires DistinctTechs(rows)
    ensures var m := Merge(rows, row);
      && DistinctTechs(m)
      && (row.tech !in Techs(rows) ==> m == rows + [row])
      && (row.tech in Techs(rows) ==>
            && Techs(m) == Techs(rows)
            && forall j :: 0 <= j < |rows| ==>
                 if rows[j].tech == row.tech then
                   && m[j].tech == row.tech
                   && m[j].cells.Keys == rows[j].cells.Keys + row.cells.Keys
                   && (forall k :: k in rows[j].cells ==> m[j].cells[k] == rows[j].cells[k])
                   && (forall k :: k in row.cells && k !in rows[j].cells ==> m[j].cells[k] == row.cells[k])
                 else m[j] == rows[j])
  {
    var m := Merge(rows, row);
    if row.tech !in Techs(rows) {
      forall i, j | 0 <= i < j < |m| ensures m[i].tech != m[j].tech {
        if j == |rows| {
          assert Techs(rows)[i] == rows[i].tech;
        }
      }
    } else {
      assert Techs(m) == Techs(rows);
    }
  }

  /** The list of expanded rows holds at most one row per technology, and only rows of
      technologies of the table. */
  predicate ExpandedFrom(rows: seq<CompRow>, comps: seq<CompRow>) {
    DistinctTechs(rows) && forall j :: 0 <= j < |rows| ==> rows[j].tech in Techs(comps)
  }

  lemma MergeExpandedFrom(rows: seq<CompRow>, row: CompRow, comps: seq<CompRow>)
    requires ExpandedFrom(rows, comps) && row.tech in Techs(comps)
    ensures ExpandedFrom(Merge(rows, row), comps)
  {
    MergeFillsMissing(rows, row);
  }

  lemma {:induction false} ProcessFromExpanded(comps: seq<CompRow>, p: nat, q: nat, rows: seq<CompRow>)
    requires p < |comps| && ExpandedFrom(rows, comps)
    requires ProcessFrom(comps, p, q, rows).Ok?
    ensures ExpandedFrom(ProcessFrom(comps, p, q, rows).value, comps)
    decreases |comps| - q
  {
    if q < |comps| {
      if q == p || !Known(comps[q].cells, comps[p].tech) {
        ProcessFromExpanded(comps, p, q + 1, rows);
      } else {
        var row := Expand(comps[p], comps[q], rows).value;
        assert row.tech == Techs(comps)[q];
        MergeExpandedFrom(rows, row, comps);
        ProcessFromExpanded(comps, p, q + 1, Merge(rows, row));
      }
    }
  }

  /** `new_LCO_rows` never holds two rows of one technology, and holds rows of consumers
      of the table only. */
  lemma {:induction false} ExpandFromExpanded(comps: seq<CompRow>, p: nat, rows: seq<CompRow>)
    requires ExpandedFrom(rows, comps)
    requires ExpandFrom(comps, p, rows).Ok?
    ensures ExpandedFrom(ExpandFrom(comps, p, rows).value, comps)
    decreases |comps| - p
  {
    if p < |comps| {
      if !ContainsAny(comps[p].tech, NotExpanded) {
        ProcessFromExpanded(comps, p, 0, rows);
      }
      ExpandFromExpanded(comps, p + 1, ProcessRow(comps, p, rows).value);
    }
  }

  /** Without expanded rows for any of its labels, the sub-expansion adds nothing. */
  lemma {:induction false} SubExpansionNone(base: map<string, real>, rows: seq<CompRow>, j: nat, acc: map<string, real>)
    requires forall i :: j <= i < |rows| ==> rows[i].tech !in base
    ensures SubExpansion(base, rows, j, acc) == acc
    decreases |rows| - j
  {
    if j < |rows| {
      assert acc + Contribution(base, rows[j]) == acc;
      SubExpansionNone(base, rows, j + 1, acc);
    }
  }

  /** A label that no later expanded row contributes keeps its value through the
      sub-expansion. */
  lemma {:induction false} SubExpansionKeeps(base: map<string, real>, rows: seq<CompRow>, j: nat,
                                             acc: map<string, real>, lbl: string)
    requires lbl in acc
    requires forall i :: j <= i < |rows| ==> lbl !in Contribution(base, rows[i])
    ensures lbl in SubExpansion(base, rows, j, acc) && SubExpansion(base, rows, j, acc)[lbl] == acc[lbl]
    decreases |rows| - j
  {
    if j < |rows| {
      SubExpansionKeeps(base, rows, j + 1, acc + Contribution(base, rows[j]), lbl);
    }
  }

  /** Multi-hop: the component `m` of an expanded row `rows[i]` for a label of the source
      enters the sub-expansion as `rows[i].tech + "_" + m`, scaled by
      `base[rows[i].tech] / rows[i].LCO`, unless a later expanded row contributes the same
      label. */
  lemma SubExpansionAt(base: map<string, real>, rows: seq<CompRow>, acc: map<string, real>, i: nat, m: string)
    requires i < |rows| && rows[i].tech in base
    requires Known(rows[i].cells, "LCO") && m in rows[i].cells && m != "LCO"
    requires forall j :: i < j < |rows| ==> rows[i].tech + "_" + m !in Contribution(base, rows[j])
    ensures rows[i].tech + "_" + m in SubExpansion(base, rows, 0, acc)
    ensures SubExpansion(base, rows, 0, acc)[rows[i].tech + "_" + m]
         == Times(rows[i].cells[m], base[rows[i].tech] / rows[i].cells["LCO"])
  {
    var lbl := rows[i].tech + "_" + m;
    var before := SubExpansionPrefix(base, rows, 0, i, acc);
    var sc := SubComponents(rows[i], base[rows[i].tech]);
    assert m in sc && sc[m] == Times(rows[i].cells[m], base[rows[i].tech] / rows[i].cells["LCO"]);
    var c := Contribution(base, rows[i]);
    assert c == Prefix(rows[i].tech, sc);
    assert lbl in c && c[lbl] == sc[m];
    var after := before + c;
    SubExpansionKeeps(base, rows, i + 1, after, lbl);
  }

  /** The sub-expansion up to position `i` as an accumulator. */
  function SubExpansionPrefix(base: map<string, real>, rows: seq<CompRow>, j: nat, i: nat,
                              acc: map<string, real>): (r: map<string, real>)
    requires j <= i <= |rows|
    ensures SubExpansion(base, rows, j, acc) == SubExpansion(base, rows, i, r)
    decreases i - j
  {
    if j == i then acc else SubExpansionPrefix(base, rows, j + 1, i, acc + Contribution(base, rows[j]))
  }

  /** A consumer `other` of source `cur` keeps all its own entries and gets, for every
      component `k` of the source except LCO, the entry `cur.tech + "_" + k` worth
      `cur[k] * other[cur.tech] / cur.LCO`; this holds when none of the source's labels names
      an already expanded row and the consumer has no entry of that name. */
  lemma ExpandSingleHop(cur: CompRow, other: CompRow, rows: seq<CompRow>, k: string)
    requires Known(other.cells, cur.tech) && Known(cur.cells, "LCO")
    requires forall i :: 0 <= i < |rows| ==> rows[i].tech !in cur.cells || rows[i].tech == "LCO"
    ensures Expand(cur, other, rows).Ok?
    ensures var e := Expand(cur, other, rows).value;
      && e.tech == other.tech
      && (forall l :: l in other.cells ==> l in e.cells && e.cells[l] == other.cells[l])
      && (k in cur.cells && k != "LCO" && cur.tech + "_" + k !in other.cells ==>
            var lbl := cur.tech + "_" + k;
            lbl in e.cells && e.cells[lbl] == Times(cur.cells[k], other.cells[cur.tech] / cur.cells["LCO"]))
  {
    var base := Scale(cur.cells - {"LCO"}, other.cells[cur.tech] / cur.cells["LCO"]);
    SubExpansionNone(base, rows, 0, base);
  }

  /** Multi-hop: when the source's label `sub` names the already expanded row `rows[i]`,
      the consumer gets each component `m` of that row, except LCO, under the label
      `cur.tech + "_" + sub + "_" + m`, worth `rows[i][m]` scaled by the amount of `sub`
      the consumer takes through the source, `cur[sub] * other[cur.tech] / cur.LCO`, over
      `rows[i].LCO`; this holds when no later expanded row and no entry of the consumer
      have that label. */
  lemma ExpandMultiHop(cur: CompRow, other: CompRow, rows: seq<CompRow>, i: nat, m: string)
    requires Known(other.cells, cur.tech) && Known(cur.cells, "LCO")
    requires i < |rows| && rows[i].tech in cur.cells && rows[i].tech != "LCO"
    requires Known(rows[i].cells, "LCO") && m in rows[i].cells && m != "LCO"
    requires var base := Scale(cur.cells - {"LCO"}, other.cells[cur.tech] / cur.cells["LCO"]);
      forall j :: i < j < |rows| ==> rows[i].tech + "_" + m !in Contribution(base, rows[j])
    requires cur.tech + "_" + (rows[i].tech + "_" + m) !in other.cells
    ensures Expand(cur, other, rows).Ok?
    ensures cur.tech + "_" + (rows[i].tech + "_" + m) in Expand(cur, other, rows).value.cells
    ensures Expand(cur, other, rows).value.cells[cur.tech + "_" + (rows[i].tech + "_" + m)]
         == Times(rows[i].cells[m], Times(cur.cells[rows[i].tech], other.cells[cur.tech] / cur.cells["LCO"]) / rows[i].cells["LCO"])
  {
    var f := other.cells[cur.tech] / cur.cells["LCO"];
    var base := Scale(cur.cells - {"LCO"}, f);
    var sub := rows[i].tech;
    SubExpansionAt(base, rows, base, i, m);
    ExpandedEntry(cur, other, rows, sub + "_" + m);
    assert sub in cur.cells - {"LCO"};
    assert base[sub] == Times(cur.cells[sub], f);
  }

  /** An entry of the sub-expansion reaches the consumer under the source's prefix, unless
      the consumer has an entry of that name. */
  lemma ExpandedEntry(cur: CompRow, other: CompRow, rows: seq<CompRow>, inner: string)
    requires Known(other.cells, cur.tech) && Known(cur.cells, "LCO")
    requires var base := Scale(cur.cells - {"LCO"}, other.cells[cur.tech] / cur.cells["LCO"]);
      inner in SubExpansion(base, rows, 0, base)
    requires cur.tech + "_" + inner !in other.cells
    ensures cur.tech + "_" + inner in Expand(cur, other, rows).value.cells
    ensures var base := Scale(cur.cells - {"LCO"}, other.cells[cur.tech] / cur.cells["LCO"]);
      Expand(cur, other, rows).value.cells[cur.tech + "_" + inner] == SubExpansion(base, rows, 0, base)[inner]
  {
  }

  /** The worked example of the design: a consumer T taking 20 of fuel A, whose LCO of 10
      is made of capex 6 and opex 4, gets A_capex 12 and A_opex 8. */
  lemma ExpandExample()
    ensures Expand(CompRow("A", map["LCO" := 10.0, "capex" := 6.0, "opex" := 4.0]),
                   CompRow("T", map["LCO" := 50.0, "A" := 20.0]), [])
         == Ok(CompRow("T", map["LCO" := 50.0, "A" := 20.0, "A_capex" := 12.0, "A_opex" := 8.0]))
  {
    var a := CompRow("A", map["LCO" := 10.0, "capex" := 6.0, "opex" := 4.0]);
    var t := CompRow("T", map["LCO" := 50.0, "A" := 20.0]);
    assert t.cells["A"] / a.cells["LCO"] == 2.0;
    var base := Scale(a.cells - {"LCO"}, 2.0);
    assert (a.cells - {"LCO"}).Keys == {"capex", "opex"};
    assert base == map["capex" := 12.0, "opex" := 8.0];
    SubExpansionNone(base, [], 0, base);
    var p := Prefix("A", base);
    assert "A" + "_" + "capex" == "A_capex" && "A" + "_" + "opex" == "A_opex";
    assert p.Keys == {"A_capex", "A_opex"};
    assert p == map["A_capex" := 12.0, "A_opex" := 8.0];
    assert Expand(a, t, []) == Ok(CompRow("T", p + t.cells));
    assert p + t.cells == map["LCO" := 50.0, "A" := 20.0, "A_capex" := 12.0, "A_opex" := 8.0];
  }

  /** `update_LCO_components` raises exactly when nothing was expanded. Otherwise it has a
      row for every technology of either table; an expanded row's numbers take precedence,
      and the original row fills in the rest. */
  lemma UpdatePrecedence(original: seq<CompRow>, expanded: seq<CompRow>, t: string, k: string)
    ensures UpdateComponents(original, expanded).Err? <==> |expanded| == 0
    ensures UpdateComponents(original, expanded).Err? ==> UpdateComponents(original, expanded).error == NothingToConcatenate
    ensures UpdateComponents(original, expanded).Ok? ==>
      var u, o, n := UpdateComponents(original, expanded).value, ByTech(original), ByTech(expanded);
      && u.Keys == o.Keys + n.Keys
      && (t in u ==> (k in u[t] <==> (t in n && k in n[t]) || (t in o && k in o[t])))
      && (t in n && k in n[t] ==> u[t][k] == n[t][k])
      && (t in o && k in o[t] && !(t in n && k in n[t]) ==> u[t][k] == o[t][k])
  {
  }

  /** `split_LCO_df` partitions the rows: each row lands, unchanged, in the sector table
      exactly when its technology contains plane, ship, cement, chem or steel, and in the
      fuel table otherwise. */
  lemma SplitPartition(t: Table)
    ensures var (sectors, fuels) := SplitComponents(t);
      && sectors.Keys !! fuels.Keys
      && sectors.Keys + fuels.Keys == t.Keys
      && (forall k :: k in sectors <==> k in t && ContainsAny(k, SectorWords))
      && (forall k :: k in sectors ==> sectors[k] == t[k])
      && (forall k :: k in fuels ==> fuels[k] == t[k])
  {
  }

  // ---------------------------------------------------------------------------------------
  // The loops of `breakdown_LCO_comps` and `process_LCO_rows`.

  /** `new_LCO_rows`: the list of expanded rows, appended to and overwritten in place. */
  class ExpandedRows {
    var rows: seq<CompRow>

    constructor()
      ensures rows == []
    {
      rows := [];
    }

    /** The merge at the end of `process_LCO_rows`: the new row is appended when its technology has no row yet, and
        otherwise combined into the row of its technology. */
    method Absorb(row: CompRow)
      requires DistinctTechs(rows)
      modifies this
      ensures rows == Merge(old(rows), row)
    {
      var updatedParams := Techs(rows);
      if row.tech !in updatedParams {
        rows := rows + [row];
        return;
      }
      var newRow := row;
      for idx := 0 to |rows|
        invariant |rows| == |old(rows)|
        invariant forall j :: 0 <= j < idx ==> rows[j] == Merge(old(rows), row)[j]
        invariant forall j :: idx <= j < |rows| ==> rows[j] == old(rows)[j]
        invariant (forall j :: 0 <= j < idx ==> old(rows)[j].tech != row.tech) ==> newRow == row
      {
        if row.tech == rows[idx].tech {
          newRow := CombineFirst(rows[idx], newRow);
          rows := rows[idx := newRow];
        }
      }
    }
  }

  /** The expansion step of `process_LCO_rows`: the row consumer `other` gets from source `cur`, given the rows
      expanded so far. */
  method ExpandRow(cur: CompRow, other: CompRow, expanded: seq<CompRow>) returns (r: Result<CompRow, Error>)
    requires Known(other.cells, cur.tech)
    ensures r == Expand(cur, other, expanded)
  {
    if !Known(cur.cells, "LCO") {
      return Err(MissingSourceLco(cur.tech));
    }
    var paramFraction := other.cells[cur.tech] / cur.cells["LCO"];
    var base := Scale(cur.cells - {"LCO"}, paramFraction);
    var newRow := base;
    for j := 0 to |expanded|
      invariant SubExpansion(base, expanded, 0, base) == SubExpansion(base, expanded, j, newRow)
    {
      var sub := expanded[j];
      if sub.tech in base {
        newRow := newRow + Prefix(sub.tech, SubComponents(sub, base[sub.tech]));
      } else {
        assert newRow + Contribution(base, sub) == newRow;
      }
    }
    return Ok(CompRow(other.tech, Prefix(cur.tech, newRow) + other.cells));
  }

  /** `process_LCO_rows` for the source at position `p` of the table. */
  method ProcessLcoRow(comps: seq<CompRow>, p: nat, acc: ExpandedRows) returns (res: Result<(), Error>)
    requires p < |comps| && ExpandedFrom(acc.rows, comps)
    modifies acc
    ensures match ProcessRow(comps, p, old(acc.rows))
      case Ok(rows) => res.Ok? && acc.rows == rows && ExpandedFrom(rows, comps)
      case Err(e) => res == Err(e)
  {
    var cur := comps[p];
    if ContainsAny(cur.tech, NotExpanded) {
      return Ok(());
    }
    for q := 0 to |comps|
      invariant ExpandedFrom(acc.rows, comps)
      invariant ProcessFrom(comps, p, 0, old(acc.rows)) == ProcessFrom(comps, p, q, acc.rows)
    {
      var r := ProcessConsumer(comps, p, q, acc);
      if r.Err? {
        return r;
      }
    }
    return Ok(());
  }

  /** One turn of the consumer loop of `process_LCO_rows`: the consumer at position `q` of
      the source at position `p`. */
  method ProcessConsumer(comps: seq<CompRow>, p: nat, q: nat, acc: ExpandedRows) returns (res: Result<(), Error>)
    requires p < |comps| && q < |comps| && ExpandedFrom(acc.rows, comps)
    modifies acc
    ensures res.Ok? ==> ExpandedFrom(acc.rows, comps)
                        && ProcessFrom(comps, p, q, old(acc.rows)) == ProcessFrom(comps, p, q + 1, acc.rows)
    ensures res.Err? ==> ProcessFrom(comps, p, q, old(acc.rows)) == Err(res.error)
  {
    var cur, other := comps[p], comps[q];
    if q == p || !Known(other.cells, cur.tech) {
      return Ok(());
    }
    var row := ExpandRow(cur, other, acc.rows);
    if row.Err? {
      return Err(row.error);
    }
    assert row.value.tech == Techs(comps)[q];
    MergeExpandedFrom(acc.rows, row.value, comps);
    acc.Absorb(row.value);
    return Ok(());
  }

  /** `replace(0.0, np.nan, inplace=True)` on the component table. */
  method ReplaceZeros(a: array<CompRow>)
    modifies a
    ensures forall j :: 0 <= j < a.Length ==> a[j] == DropZeros(old(a[j]))
  {
    for j := 0 to a.Length
      invariant forall i :: 0 <= i < j ==> a[i] == DropZeros(old(a[i]))
      invariant forall i :: j <= i < a.Length ==> a[i] == old(a[i])
    {
      a[j] := DropZeros(a[j]);
    }
  }

  /** `breakdown_LCO_comps`: the table's zeros are replaced in place, every row is processed
      as a source, and the expanded rows are merged and split. */
  method BreakdownLcoComps(comps: array<CompRow>) returns (res: Result<(Table, Table), Error>)
    modifies comps
    ensures comps[..] == seq(comps.Length, j requires 0 <= j < comps.Length => DropZeros(old(comps[j])))
    ensures res == Breakdown(old(comps[..]))
  {
    ReplaceZeros(comps);
    var table := comps[..];
    assert table == seq(|old(comps[..])|, j requires 0 <= j < |old(comps[..])| => DropZeros(old(comps[..])[j]));
    var acc := new ExpandedRows();
    for p := 0 to |table|
      invariant comps[..] == table
      invariant ExpandedFrom(acc.rows, table)
      invariant ExpandFrom(table, 0, []) == ExpandFrom(table, p, acc.rows)
    {
      var r := ProcessLcoRow(table, p, acc);
      if r.Err? {
        return Err(r.error);
      }
    }
    var updated := UpdateComponents(table, acc.rows);
    if updated.Err? {
      return Err(updated.error);
    }
    return Ok(SplitComponents(updated.value));
  }
}
