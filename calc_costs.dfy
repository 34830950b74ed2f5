/** A run of the calculation engine: the per-run overrides are applied to every technology
    definition, the registry is emptied and refilled by evaluating the definitions in order,
    and the flat results table gets one placeholder row per technology that does not exist.
    Also the abatement-cost formula (FSCP). */
module CalcCosts {
  import opened Wrappers
  import opened Errors
  import opened PyStr
  import opened PyDict
  import opened TechDataModel
  import opened TechSpec
  import opened TechClass

  // ---------------------------------------------------------------------------------------
  // Per-run overrides: a run parameter "<techkey>_<attr>" sets attribute <attr> of the
  // definition whose key is <techkey>.

  /** The override comprehension over the run parameters from `up`, for a definition whose
      `key` entry is `key`, collected into `acc` in parameter order. A parameter without "_"
      that equals the key has no attribute part and raises. */
  function Overrides(key: Value, up: Dict<Value>, acc: Dict<Value>): Result<Dict<Value>, Error>
    decreases |up|
  {
    if |up| == 0 then Ok(acc)
    else
      var parts := RSplitOnce(up[0].0, '_');
      if Text(parts[0]) != key then Overrides(key, up[1..], acc)
      else if |parts| == 1 then Err(OverrideWithoutAttribute(up[0].0))
      else Overrides(key, up[1..], Set(acc, parts[1], up[0].1))
  }

  /** `row.update(updated_params)`: the definition as the run sees it. The definition's key is
      read only when there are run parameters. */
  function Overridden(row: Dict<Value>, up: Dict<Value>): Result<Dict<Value>, Error> {
    if |up| == 0 then Ok(row)
    else
      match Get(row, "key")
      case None => Err(MissingKey)
      case Some(key) =>
        var upd :- Overrides(key, up, []);
        Ok(Update(row, upd))
  }

  /** The override for attribute `a` of the technology keyed `p` is the run parameter
      `p + "_" + a`; an attribute name containing "_" is never set by an override. */
  lemma {:induction false} OverridesSelect(p: string, up: Dict<Value>, acc: Dict<Value>, a: string)
    requires DistinctKeys(up)
    requires Overrides(Text(p), up, acc).Ok?
    ensures Get(Overrides(Text(p), up, acc).value, a) ==
      if '_' !in a && p + "_" + a in Keys(up) then Get(up, p + "_" + a) else Get(acc, a)
    decreases |up|
  {
    if |up| > 0 {
      var k0 := up[0].0;
      var parts := RSplitOnce(k0, '_');
      var t := up[1..];
      assert DistinctKeys(t) by {
        forall i, j | 0 <= i < j < |t| ensures t[i].0 != t[j].0 {
          assert t[i] == up[i + 1] && t[j] == up[j + 1];
        }
      }
      assert k0 !in Keys(t) by {
        forall i | 0 <= i < |t| ensures Keys(t)[i] != k0 {
          assert Keys(t)[i] == up[i + 1].0;
        }
      }
      assert Keys(up) == [k0] + Keys(t);
      var pa := p + "_" + a;
      if '_' !in a && pa == k0 {
        RSplitOnceJoin(p, a, '_');
        assert parts == [p, a];
      }
      if Text(parts[0]) != Text(p) {
        OverridesSelect(p, t, acc, a);
      } else {
        var acc' := Set(acc, parts[1], up[0].1);
        OverridesSelect(p, t, acc', a);
        if a == parts[1] {
          assert '_' !in a;
          assert k0 == pa;
        } else if '_' !in a {
          assert pa != k0;
        }
      }
    }
  }

  /** The override comprehension raises exactly when a run parameter equals the key itself
      and the key has no "_", and the error names that parameter. */
  lemma {:induction false} OverridesRaise(p: string, up: Dict<Value>, acc: Dict<Value>)
    ensures Overrides(Text(p), up, acc).Err? <==> p in Keys(up) && '_' !in p
    ensures Overrides(Text(p), up, acc).Err? ==> Overrides(Text(p), up, acc).error == OverrideWithoutAttribute(p)
    decreases |up|
  {
    if |up| > 0 {
      var k0 := up[0].0;
      var parts := RSplitOnce(k0, '_');
      assert Keys(up) == [k0] + Keys(up[1..]);
      if k0 == p && '_' !in p {
        assert parts == [p];
      } else if Text(parts[0]) != Text(p) {
        OverridesRaise(p, up[1..], acc);
      } else {
        assert |parts| == 2;
        OverridesRaise(p, up[1..], Set(acc, parts[1], up[0].1));
      }
    }
  }

  /** A definition that no run parameter targets is left as it is. */
  lemma {:induction false} NotTargetedUnchanged(row: Dict<Value>, up: Dict<Value>, p: string)
    requires Get(row, "key") == Some(Text(p))
    requires forall j :: 0 <= j < |up| ==> RSplitOnce(up[j].0, '_')[0] != p
    ensures Overridden(row, up) == Ok(row)
  {
    if |up| > 0 {
      OverridesUntargeted(p, up, []);
    }
  }

  lemma {:induction false} OverridesUntargeted(p: string, up: Dict<Value>, acc: Dict<Value>)
    requires forall j :: 0 <= j < |up| ==> RSplitOnce(up[j].0, '_')[0] != p
    ensures Overrides(Text(p), up, acc) == Ok(acc)
    decreases |up|
  {
    if |up| > 0 {
      assert forall j :: 0 <= j < |up[1..]| ==> RSplitOnce(up[1..][j].0, '_')[0] != p by {
        forall j | 0 <= j < |up[1..]| ensures RSplitOnce(up[1..][j].0, '_')[0] != p {
          assert up[1..][j] == up[j + 1];
        }
      }
      OverridesUntargeted(p, up[1..], acc);
    }
  }

  /** A definition without a key is rejected as soon as there is a run parameter. */
  lemma KeylessRowRejected(row: Dict<Value>, up: Dict<Value>)
    requires Get(row, "key").None? && |up| > 0
    ensures Overridden(row, up) == Err(MissingKey)
  {
  }

  // ---------------------------------------------------------------------------------------
  // The run: every definition is overridden and evaluated in order against the registry.

  /** How one definition is turned into an evaluated technology, given the registry so far. */
  type Evaluator = (Dict<Value>, Dict<TechData>) -> Result<Evaluated, Error>

  /** One step of the run: the definition, overridden by the run parameters, evaluated
      against the registry (`Tech(row, ...)`). */
  function EvalDefinition(def: Dict<Value>, up: Dict<Value>, comp: bool, ccu: bool,
                          reg: Dict<TechData>): Result<Evaluated, Error>
  {
    var row :- Overridden(def, up);
    Evaluate(row, comp, ccu, reg)
  }

  function EvalStep(up: Dict<Value>, comp: bool, ccu: bool): Evaluator {
    (def: Dict<Value>, reg: Dict<TechData>) => EvalDefinition(def, up, comp, ccu, reg)
  }

  /** The registry after evaluating the definitions from index `i` on, each step writing the
      record of the technology it evaluated. */
  function RunWith(step: Evaluator, defs: seq<Dict<Value>>, i: nat, reg: Dict<TechData>)
    : Result<Dict<TechData>, Error>
    decreases |defs| - i
  {
    if i >= |defs| then Ok(reg)
    else
      var ev :- step(defs[i], reg);
      RunWith(step, defs, i + 1, Set(reg, ev.key, ev.data))
  }

  /** The evaluated technologies of the run from index `i` on, in order (on an error, those
      before it). */
  function TraceWith(step: Evaluator, defs: seq<Dict<Value>>, i: nat, reg: Dict<TechData>): seq<Evaluated>
    decreases |defs| - i
  {
    if i >= |defs| then []
    else
      match step(defs[i], reg)
      case Err(_) => []
      case Ok(ev) => [ev] + TraceWith(step, defs, i + 1, Set(reg, ev.key, ev.data))
  }

  /** The run of `calc_all_LCO`, from index `i` on. */
  function RunFrom(defs: seq<Dict<Value>>, up: Dict<Value>, comp: bool, ccu: bool, i: nat,
                   reg: Dict<TechData>): Result<Dict<TechData>, Error>
  {
    RunWith(EvalStep(up, comp, ccu), defs, i, reg)
  }

  function Trace(defs: seq<Dict<Value>>, up: Dict<Value>, comp: bool, ccu: bool, i: nat,
                 reg: Dict<TechData>): seq<Evaluated>
  {
    TraceWith(EvalStep(up, comp, ccu), defs, i, reg)
  }

  /** The registry writes `COMMON_DICT[key] = record` of an evaluation sequence. */
  function Written(tr: seq<Evaluated>): (w: Dict<TechData>)
    ensures |w| == |tr|
    ensures forall j :: 0 <= j < |tr| ==> w[j] == (tr[j].key, tr[j].data)
  {
    if |tr| == 0 then [] else [(tr[0].key, tr[0].data)] + Written(tr[1..])
  }

  /** A run leaves the registry it started from updated, in order, with the records of the
      technologies it evaluated. */
  lemma {:induction false} RunWrites(step: Evaluator, defs: seq<Dict<Value>>, i: nat, reg: Dict<TechData>)
    requires RunWith(step, defs, i, reg).Ok?
    ensures RunWith(step, defs, i, reg).value == Update(reg, Written(TraceWith(step, defs, i, reg)))
    decreases |defs| - i
  {
    if i < |defs| {
      var ev := step(defs[i], reg).value;
      var reg' := Set(reg, ev.key, ev.data);
      RunWrites(step, defs, i + 1, reg');
      var tr := TraceWith(step, defs, i + 1, reg');
      assert TraceWith(step, defs, i, reg) == [ev] + tr;
      assert Written([ev] + tr)[1..] == Written(tr);
    }
  }

  /** The registry after a run over a freshly emptied registry: one record per distinct
      technology key, keys in first-insertion order, and each key holding the record of the
      last definition evaluated under it. */
  lemma RunRegistry(defs: seq<Dict<Value>>, up: Dict<Value>, comp: bool, ccu: bool, k: string)
    requires RunFrom(defs, up, comp, ccu, 0, []).Ok?
    ensures var r := RunFrom(defs, up, comp, ccu, 0, []).value;
      var w := Written(Trace(defs, up, comp, ccu, 0, []));
      && DistinctKeys(r)
      && (k in Keys(r) <==> k in Keys(w))
      && Get(r, k) == LastGet(w, k)
  {
    var w := Written(Trace(defs, up, comp, ccu, 0, []));
    RunWrites(EvalStep(up, comp, ccu), defs, 0, []);
    UpdateDistinct([], w);
    UpdateKeys([], w);
    UpdateGetLast([], w, k);
  }

  /** A run over a freshly emptied registry names each technology once. */
  lemma RunDistinct(defs: seq<Dict<Value>>, up: Dict<Value>, comp: bool, ccu: bool)
    requires RunFrom(defs, up, comp, ccu, 0, []).Ok?
    ensures DistinctKeys(RunFrom(defs, up, comp, ccu, 0, []).value)
  {
    RunWrites(EvalStep(up, comp, ccu), defs, 0, []);
    UpdateDistinct([], Written(Trace(defs, up, comp, ccu, 0, [])));
  }

  // ---------------------------------------------------------------------------------------
  // Placeholder rows for technologies that do not exist.

  /** The technologies whose key contains one of these are the sector technologies (the
      alternation `plane|ship|cement|chem|steel`, in any order). */
  const SectorWords: seq<string> := ["plane", "ship", "cement", "chem", "steel"]

  /** The default `inexistant_techs`. */
  const DefaultInexistant: seq<string> :=
    ["ccs_plane", "h2_plane", "ccs_ship", "efuel_steel", "ccs_chem", "h2_chem", "efuel_cement", "h2_cement"]

  /** The row of a technology that does not exist: only its code is set. */
  function PlaceholderRow(kind: string): (r: seq<Cell>)
    ensures |r| == |Columns|
    ensures Column(r, "code") == Str("no " + kind)
    ensures forall c :: c != "code" ==> Column(r, c) == NaN
  {
    [NaN, NaN, NaN, Str("no " + kind), NaN, NaN]
  }

  /** The text before the first "_" of a technology key (`i.split("_")[0]`). */
  function TypeOf(tech: string): string {
    Split(tech, '_')[0]
  }

  /** The kind named in `calc_all_LCO`'s placeholders: every "h2" in the type becomes "h2/nh3". */
  function PlaceholderKind(tech: string): string {
    Replace(TypeOf(tech), "h2", "h2/nh3")
  }

  /** The kind named in `calc_all_LCO_wbreakdown`'s placeholders: only the type "h2" itself
      is renamed. */
  function BreakdownPlaceholderKind(tech: string): string {
    if TypeOf(tech) == "h2" then "h2/nh3" else TypeOf(tech)
  }

  /** The two builders name the same kind unless the type contains "h2" without being "h2". */
  lemma PlaceholderKindsAgree(tech: string)
    requires TypeOf(tech) == "h2" || !Contains(TypeOf(tech), "h2")
    ensures PlaceholderKind(tech) == BreakdownPlaceholderKind(tech)
  {
    if TypeOf(tech) == "h2" {
      assert "h2"[..|"h2"|] == "h2";
      assert Replace("h2"[2..], "h2", "h2/nh3") == "";
    } else {
      ReplaceAbsent(TypeOf(tech), "h2", "h2/nh3");
    }
  }

  /** ... and they differ on "blueh2": one renames it, the other keeps it. */
  lemma PlaceholderKindsDiffer()
    ensures PlaceholderKind("blueh2_steel") == "blueh2/nh3"
    ensures BreakdownPlaceholderKind("blueh2_steel") == "blueh2"
  {
    SplitBlueh2();
    ReplaceBlueh2();
  }

  lemma ReplaceBlueh2()
    ensures Replace("blueh2", "h2", "h2/nh3") == "blueh2/nh3"
  {
    ReplaceAtEnd("blue", "h2/nh3");
    assert "blue" + "h2" == "blueh2";
    assert "blue" + "h2/nh3" == "blueh2/nh3";
  }

  /** A text without an "h" followed by "h2" is replaced only at its end. */
  lemma {:induction false} ReplaceAtEnd(p: string, repl: string)
    requires forall k :: 0 <= k < |p| ==> p[k] != 'h'
    ensures Replace(p + "h2", "h2", repl) == p + repl
    decreases |p|
  {
    var s := p + "h2";
    if |p| == 0 {
      assert s[..2] == "h2";
      assert s[2..] == "";
    } else {
      assert s[..2][0] == p[0];
      assert s[1..] == p[1..] + "h2";
      ReplaceAtEnd(p[1..], repl);
      assert [p[0]] + (p[1..] + repl) == p + repl;
    }
  }

  lemma SplitBlueh2()
    ensures TypeOf("blueh2_steel") == "blueh2"
  {
    var s := "blueh2_steel";
    assert s == "blueh2" + ['_'] + "steel";
    SplitJoin(s, '_');
    SplitFirst("blueh2", "steel", '_');
  }

  /** The first piece of a split is the text before the first separator. */
  lemma SplitFirst(p: string, rest: string, sep: char)
    requires sep !in p
    ensures Split(p + [sep] + rest, sep)[0] == p
  {
    var s := p + [sep] + rest;
    var r := Split(s, sep);
    SplitJoin(s, sep);
    SplitHead(s, sep, |p|);
  }

  lemma {:induction false} SplitHead(s: string, sep: char, n: nat)
    requires n < |s| && s[n] == sep && sep !in s[..n]
    ensures Split(s, sep)[0] == s[..n]
  {
    assert forall j :: 0 <= j < n ==> s[j] != sep by {
      forall j | 0 <= j < n ensures s[j] != sep {
        assert s[..n][j] == s[j];
      }
    }
    assert FindChar(s, sep) == Some(n);
  }

  function PlaceholdersOf(techs: seq<string>, kind: string -> string): (p: Dict<seq<Cell>>)
    ensures |p| == |techs|
    ensures forall j :: 0 <= j < |techs| ==> p[j] == (techs[j], PlaceholderRow(kind(techs[j])))
  {
    if |techs| == 0 then [] else [(techs[0], PlaceholderRow(kind(techs[0])))] + PlaceholdersOf(techs[1..], kind)
  }

  /** The results table of `calc_all_LCO` (before the run-parameter columns are added). */
  function AllLco(defs: seq<Dict<Value>>, comp: bool, ccu: bool, inexistant: Option<seq<string>>,
                  up: Dict<Value>): Result<Dict<seq<Cell>>, Error>
  {
    var reg :- RunFrom(defs, up, comp, ccu, 0, []);
    if |defs| == 0 then Err(NoDefinitions)
    else
      var finalDict := Update([], MapValues(reg, GetVals));
      Ok(Update(finalDict, PlaceholdersOf(inexistant.GetOr(DefaultInexistant), PlaceholderKind)))
  }

  /** The results table has the registry's rows, except that a placeholder row replaces the
      row of every technology declared not to exist. */
  lemma AllLcoRows(defs: seq<Dict<Value>>, comp: bool, ccu: bool, inexistant: Option<seq<string>>,
                   up: Dict<Value>, k: string)
    requires AllLco(defs, comp, ccu, inexistant, up).Ok?
    ensures var t := AllLco(defs, comp, ccu, inexistant, up).value;
      var reg := RunFrom(defs, up, comp, ccu, 0, []).value;
      var techs := inexistant.GetOr(DefaultInexistant);
      && (k in techs ==> Get(t, k) == Some(PlaceholderRow(PlaceholderKind(k))))
      && (k !in techs ==> Get(t, k) == match Get(reg, k) case Some(d) => Some(GetVals(d)) case None => None)
  {
    var reg := RunFrom(defs, up, comp, ccu, 0, []).value;
    RunDistinct(defs, up, comp, ccu);
    TableRows(reg, inexistant.GetOr(DefaultInexistant), k);
  }

  /** The table built from a registry and the placeholder list, one key at a time. */
  lemma TableRows(reg: Dict<TechData>, techs: seq<string>, k: string)
    requires DistinctKeys(reg)
    ensures var t := Update(Update([], MapValues(reg, GetVals)), PlaceholdersOf(techs, PlaceholderKind));
      && (k in techs ==> Get(t, k) == Some(PlaceholderRow(PlaceholderKind(k))))
      && (k !in techs ==> Get(t, k) == match Get(reg, k) case Some(d) => Some(GetVals(d)) case None => None)
  {
    var ph := PlaceholdersOf(techs, PlaceholderKind);
    UpdateEmpty(MapValues(reg, GetVals));
    UpdateGetLast(MapValues(reg, GetVals), ph, k);
    LastGetSame(ph, k, PlaceholderRow(PlaceholderKind(k)));
  }

  /** The results table names each technology once. */
  lemma AllLcoDistinct(defs: seq<Dict<Value>>, comp: bool, ccu: bool, inexistant: Option<seq<string>>,
                       up: Dict<Value>)
    requires AllLco(defs, comp, ccu, inexistant, up).Ok?
    ensures DistinctKeys(AllLco(defs, comp, ccu, inexistant, up).value)
  {
    var reg := RunFrom(defs, up, comp, ccu, 0, []).value;
    var finalDict := Update([], MapValues(reg, GetVals));
    UpdateDistinct([], MapValues(reg, GetVals));
    UpdateDistinct(finalDict, PlaceholdersOf(inexistant.GetOr(DefaultInexistant), PlaceholderKind));
  }

  /** When every entry under `k` has the same value, the last one has it too. */
  lemma {:induction false} LastGetSame<V>(e: Dict<V>, k: string, v: V)
    requires forall j :: 0 <= j < |e| && e[j].0 == k ==> e[j].1 == v
    ensures LastGet(e, k).Some? ==> LastGet(e, k) == Some(v)
    ensures k in Keys(e) <==> exists j :: 0 <= j < |e| && e[j].0 == k
    decreases |e|
  {
    if |e| > 0 {
      assert forall j :: 0 <= j < |e[1..]| && e[1..][j].0 == k ==> e[1..][j].1 == v by {
        forall j | 0 <= j < |e[1..]| && e[1..][j].0 == k ensures e[1..][j].1 == v {
          assert e[1..][j] == e[j + 1];
        }
      }
      LastGetSame(e[1..], k, v);
      assert Keys(e) == [e[0].0] + Keys(e[1..]);
      if k in Keys(e[1..]) {
        var j :| 0 <= j < |e[1..]| && e[1..][j].0 == k;
        assert e[j + 1].0 == k;
      }
      if exists j :: 0 <= j < |e| && e[j].0 == k {
        var j :| 0 <= j < |e| && e[j].0 == k;
        if j > 0 {
          assert e[1..][j - 1].0 == k;
        }
      }
    }
  }

  /** `calc_all_LCO`: empties the registry, evaluates the definitions in order, and builds
      the results table from the registry and the placeholders. */
  method CalcAllLco(defs: seq<Dict<Value>>, comp: bool, ccu: bool, inexistant: Option<seq<string>>,
                    up: Dict<Value>, reg: Registry) returns (res: Result<Dict<seq<Cell>>, Error>)
    modifies reg
    ensures res == AllLco(defs, comp, ccu, inexistant, up)
    ensures res.Ok? ==> reg.records == RunFrom(defs, up, comp, ccu, 0, []).value
  {
    var techs := if inexistant.Some? then inexistant.value else DefaultInexistant;
    var run := RunDefinitions(defs, comp, ccu, up, reg);
    if run.Err? {
      return Err(run.error);
    }
    if |defs| == 0 {
      return Err(NoDefinitions);
    }
    var finalDict: Dict<seq<Cell>> := [];
    finalDict := Update(finalDict, reg.Table());
    finalDict := Update(finalDict, PlaceholdersOf(techs, PlaceholderKind));
    return Ok(finalDict);
  }

  /** The loop of `calc_all_LCO`: the registry is emptied and every definition is evaluated
      in order; the first error ends the run. */
  method RunDefinitions(defs: seq<Dict<Value>>, comp: bool, ccu: bool, up: Dict<Value>, reg: Registry)
    returns (res: Result<(), Error>)
    modifies reg
    ensures match RunFrom(defs, up, comp, ccu, 0, [])
      case Ok(r) => res.Ok? && reg.records == r
      case Err(e) => res == Err(e)
  {
    reg.Reset();
    for i := 0 to |defs|
      invariant RunFrom(defs, up, comp, ccu, 0, []) == RunFrom(defs, up, comp, ccu, i, reg.records)
    {
      ghost var before := reg.records;
      var r := EvaluateDefinition(defs[i], up, comp, ccu, reg);
      RunStep(EvalStep(up, comp, ccu), defs, i, before, []);
      if r.Err? {
        return Err(r.error);
      }
    }
    assert RunFrom(defs, up, comp, ccu, |defs|, reg.records) == Ok(reg.records);
    return Ok(());
  }

  // ---------------------------------------------------------------------------------------
  // `calc_all_LCO_wbreakdown`: the same run, also collecting each technology's cost components.

  /** A row of the cost-component table: the technology and its components (an absent label
      is NaN). */
  datatype CompRow = CompRow(tech: string, cells: map<string, real>)

  /** `temp_tech.LCO_comps`, whose "tech" entry is the technology key. */
  function CompRowOf(ev: Evaluated): CompRow {
    CompRow(ev.key, ev.comps)
  }

  function CompRows(tr: seq<Evaluated>): (rows: seq<CompRow>)
    ensures |rows| == |tr|
    ensures forall j :: 0 <= j < |tr| ==> rows[j] == CompRowOf(tr[j])
  {
    if |tr| == 0 then [] else [CompRowOf(tr[0])] + CompRows(tr[1..])
  }

  /** The results table and component table of `calc_all_LCO_wbreakdown`. Unlike
      `calc_all_LCO`, an empty definition list is not an error by itself; but a results table
      without rows cannot take the seven column names. */
  function AllLcoWithBreakdown(defs: seq<Dict<Value>>, comp: bool, ccu: bool,
                               inexistant: Option<seq<string>>, up: Dict<Value>)
    : Result<(Dict<seq<Cell>>, seq<CompRow>), Error>
  {
    var reg :- RunFrom(defs, up, comp, ccu, 0, []);
    var techs := inexistant.GetOr(DefaultInexistant);
    var table := Update(MapValues(reg, GetVals), PlaceholdersOf(techs, BreakdownPlaceholderKind));
    if |table| == 0 then Err(EmptyResultsTable)
    else Ok((table, CompRows(Trace(defs, up, comp, ccu, 0, []))))
  }

  /** A successful run from the empty registry leaves it empty exactly when there were no
      definitions. */
  lemma RunEmpty(defs: seq<Dict<Value>>, up: Dict<Value>, comp: bool, ccu: bool)
    requires RunFrom(defs, up, comp, ccu, 0, []).Ok?
    ensures |RunFrom(defs, up, comp, ccu, 0, []).value| == 0 <==> |defs| == 0
  {
    var step := EvalStep(up, comp, ccu);
    RunWrites(step, defs, 0, []);
    TraceLength(step, defs, 0, []);
    UpdateEmptyIff([], Written(TraceWith(step, defs, 0, [])));
  }

  /** After a successful run, `calc_all_LCO_wbreakdown` raises for the empty table exactly
      when there are neither definitions nor placeholders. */
  lemma BreakdownEmptyTable(defs: seq<Dict<Value>>, comp: bool, ccu: bool,
                            inexistant: Option<seq<string>>, up: Dict<Value>)
    requires RunFrom(defs, up, comp, ccu, 0, []).Ok?
    ensures AllLcoWithBreakdown(defs, comp, ccu, inexistant, up).Err? <==>
            |defs| == 0 && |inexistant.GetOr(DefaultInexistant)| == 0
    ensures AllLcoWithBreakdown(defs, comp, ccu, inexistant, up).Err? ==>
            AllLcoWithBreakdown(defs, comp, ccu, inexistant, up).error == EmptyResultsTable
  {
    var reg := RunFrom(defs, up, comp, ccu, 0, []).value;
    var ph := PlaceholdersOf(inexistant.GetOr(DefaultInexistant), BreakdownPlaceholderKind);
    var mv := MapValues(reg, GetVals);
    var table := Update(mv, ph);
    assert |Keys(mv)| == |mv| && |Keys(reg)| == |reg|;
    UpdateEmptyIff(mv, ph);
    RunEmpty(defs, up, comp, ccu);
    assert AllLcoWithBreakdown(defs, comp, ccu, inexistant, up)
        == if |table| == 0 then Err(EmptyResultsTable)
           else Ok((table, CompRows(Trace(defs, up, comp, ccu, 0, []))));
  }

  /** Both builders return the same rows for every technology key outside the placeholders. */
  lemma BuildersAgreeOutsidePlaceholders(defs: seq<Dict<Value>>, comp: bool, ccu: bool,
                                         inexistant: Option<seq<string>>, up: Dict<Value>, k: string)
    requires AllLco(defs, comp, ccu, inexistant, up).Ok?
    requires k !in inexistant.GetOr(DefaultInexistant)
    ensures AllLcoWithBreakdown(defs, comp, ccu, inexistant, up).Ok?
    ensures Get(AllLco(defs, comp, ccu, inexistant, up).value, k)
         == Get(AllLcoWithBreakdown(defs, comp, ccu, inexistant, up).value.0, k)
  {
    var reg := RunFrom(defs, up, comp, ccu, 0, []).value;
    var techs := inexistant.GetOr(DefaultInexistant);
    AllLcoRows(defs, comp, ccu, inexistant, up, k);
    BreakdownEmptyTable(defs, comp, ccu, inexistant, up);
    var ph := PlaceholdersOf(techs, BreakdownPlaceholderKind);
    UpdateGetLast(MapValues(reg, GetVals), ph, k);
    assert k !in Keys(ph) by {
      forall j | 0 <= j < |ph| ensures Keys(ph)[j] != k {
        assert ph[j].0 == techs[j];
      }
    }
  }

  /** The run steps of `calc_all_LCO_wbreakdown` that are collected: the component rows follow
      the evaluation order, one per definition. */
  lemma {:induction false} TraceLength(step: Evaluator, defs: seq<Dict<Value>>, i: nat, reg: Dict<TechData>)
    requires i <= |defs|
    requires RunWith(step, defs, i, reg).Ok?
    ensures |TraceWith(step, defs, i, reg)| == |defs| - i
    decreases |defs| - i
  {
    if i < |defs| {
      var ev := step(defs[i], reg).value;
      TraceLength(step, defs, i + 1, Set(reg, ev.key, ev.data));
    }
  }

  /** `calc_all_LCO_wbreakdown`: the results table is refreshed from the registry after every
      technology, and the placeholders are then written one by one. */
  method CalcAllLcoWithBreakdown(defs: seq<Dict<Value>>, comp: bool, ccu: bool,
                                 inexistant: Option<seq<string>>, up: Dict<Value>, reg: Registry)
    returns (res: Result<(Dict<seq<Cell>>, seq<CompRow>), Error>)
    modifies reg
    ensures res == AllLcoWithBreakdown(defs, comp, ccu, inexistant, up)
  {
    var run := RunCollecting(defs, comp, ccu, up, reg);
    if run.Err? {
      return Err(run.error);
    }
    var techs := if inexistant.Some? then inexistant.value else DefaultInexistant;
    var finalDict := AddPlaceholders(run.value.0, techs);
    if |finalDict| == 0 {
      return Err(EmptyResultsTable);
    }
    return Ok((finalDict, run.value.1));
  }

  /** The placeholder loop of `calc_all_LCO_wbreakdown`: `final_dict[i] = [...]` per technology. */
  method AddPlaceholders(d: Dict<seq<Cell>>, techs: seq<string>) returns (finalDict: Dict<seq<Cell>>)
    ensures finalDict == Update(d, PlaceholdersOf(techs, BreakdownPlaceholderKind))
  {
    finalDict := d;
    for j := 0 to |techs|
      invariant finalDict == Update(d, PlaceholdersOf(techs[..j], BreakdownPlaceholderKind))
    {
      var kind := TypeOf(techs[j]);
      if kind == "h2" {
        kind := "h2/nh3";
      }
      assert kind == BreakdownPlaceholderKind(techs[j]);
      PlaceholderStep(d, techs, j);
      finalDict := Set(finalDict, techs[j], PlaceholderRow(kind));
    }
    assert techs[..|techs|] == techs;
  }

  lemma PlaceholderStep(d: Dict<seq<Cell>>, techs: seq<string>, j: nat)
    requires j < |techs|
    ensures Update(d, PlaceholdersOf(techs[..j + 1], BreakdownPlaceholderKind))
         == Set(Update(d, PlaceholdersOf(techs[..j], BreakdownPlaceholderKind)), techs[j],
                PlaceholderRow(BreakdownPlaceholderKind(techs[j])))
  {
    assert techs[..j + 1] == techs[..j] + [techs[j]];
    PlaceholdersSnoc(techs[..j], techs[j], BreakdownPlaceholderKind);
    UpdateSnoc(d, PlaceholdersOf(techs[..j], BreakdownPlaceholderKind), techs[j],
               PlaceholderRow(BreakdownPlaceholderKind(techs[j])));
  }

  lemma PlaceholdersSnoc(techs: seq<string>, t: string, kind: string -> string)
    ensures PlaceholdersOf(techs + [t], kind) == PlaceholdersOf(techs, kind) + [(t, PlaceholderRow(kind(t)))]
  {
    var l, r := PlaceholdersOf(techs + [t], kind), PlaceholdersOf(techs, kind) + [(t, PlaceholderRow(kind(t)))];
    assert |l| == |r|;
    forall j | 0 <= j < |l| ensures l[j] == r[j] {
      if j < |techs| {
        assert (techs + [t])[j] == techs[j];
      }
    }
  }

  /** The loop of `calc_all_LCO_wbreakdown`: the registry is emptied, every definition is
      evaluated, its components are collected and the results table is refreshed. */
  method RunCollecting(defs: seq<Dict<Value>>, comp: bool, ccu: bool, up: Dict<Value>, reg: Registry)
    returns (res: Result<(Dict<seq<Cell>>, seq<CompRow>), Error>)
    modifies reg
    ensures match RunFrom(defs, up, comp, ccu, 0, [])
      case Ok(r) => res == Ok((MapValues(r, GetVals), CompRows(Trace(defs, up, comp, ccu, 0, []))))
      case Err(e) => res == Err(e)
  {
    reg.Reset();
    var finalDict: Dict<seq<Cell>> := [];
    var rows: seq<CompRow> := [];
    for i := 0 to |defs|
      invariant RunFrom(defs, up, comp, ccu, 0, []) == RunFrom(defs, up, comp, ccu, i, reg.records)
      invariant CollectFrom(defs, up, comp, ccu, 0, [], []) == CollectFrom(defs, up, comp, ccu, i, reg.records, rows)
      invariant DistinctKeys(reg.records)
      invariant finalDict == MapValues(reg.records, GetVals)
    {
      ghost var before := reg.records;
      var r := EvaluateDefinition(defs[i], up, comp, ccu, reg);
      RunStep(EvalStep(up, comp, ccu), defs, i, before, rows);
      if r.Err? {
        return Err(r.error);
      }
      ghost var ev := EvalDefinition(defs[i], up, comp, ccu, before).value;
      rows := rows + [r.value];
      TableRefresh(before, ev.key, ev.data);
      finalDict := Update(finalDict, reg.Table());
    }
    assert RunFrom(defs, up, comp, ccu, |defs|, reg.records) == Ok(reg.records);
    assert CollectFrom(defs, up, comp, ccu, |defs|, reg.records, rows) == Ok(rows);
    CollectAgrees(EvalStep(up, comp, ccu), defs, 0, [], []);
    assert [] + CompRows(Trace(defs, up, comp, ccu, 0, [])) == CompRows(Trace(defs, up, comp, ccu, 0, []));
    return Ok((finalDict, rows));
  }

  /** One step of both loops: the definition is overridden by the run parameters and
      `Tech(row, ...)` is built; its components are `temp_tech.LCO_comps`. */
  method EvaluateDefinition(def: Dict<Value>, up: Dict<Value>, comp: bool, ccu: bool, reg: Registry)
    returns (r: Result<CompRow, Error>)
    modifies reg
    ensures match EvalDefinition(def, up, comp, ccu, old(reg.records))
      case Ok(ev) => r == Ok(CompRowOf(ev)) && reg.records == Set(old(reg.records), ev.key, ev.data)
      case Err(e) => r == Err(e)
  {
    var row := Overridden(def, up);
    if row.Err? {
      return Err(row.error);
    }
    r := NewWithComponents(row.value, comp, ccu, reg);
  }

  /** `Tech(row, ...)` followed by `temp_tech.LCO_comps`. */
  method NewWithComponents(row: Dict<Value>, comp: bool, ccu: bool, reg: Registry)
    returns (r: Result<CompRow, Error>)
    modifies reg
    ensures match Evaluate(row, comp, ccu, old(reg.records))
      case Ok(ev) => r == Ok(CompRowOf(ev)) && reg.records == Set(old(reg.records), ev.key, ev.data)
      case Err(e) => r == Err(e)
  {
    var t, res := Tech.New(row, comp, ccu, reg);
    if res.Err? {
      return Err(res.error);
    }
    EvaluatedKey(row, comp, ccu, old(reg.records));
    return Ok(CompRow(TextAttr(t.attrs, "key").value, t.lcoComps));
  }

  /** Refreshing the results table from the registry after one more write gives the table of
      the new registry. */
  lemma TableRefresh(reg: Dict<TechData>, k: string, d: TechData)
    requires DistinctKeys(reg)
    ensures DistinctKeys(Set(reg, k, d))
    ensures Update(MapValues(reg, GetVals), MapValues(Set(reg, k, d), GetVals)) == MapValues(Set(reg, k, d), GetVals)
  {
    var reg' := Set(reg, k, d);
    SetDistinct(reg, k, d);
    var t, t' := MapValues(reg, GetVals), MapValues(reg', GetVals);
    assert DistinctKeys(t') by {
      forall i, j | 0 <= i < j < |t'| ensures t'[i].0 != t'[j].0 {
        assert Keys(t')[i] == t'[i].0 && Keys(t')[j] == t'[j].0;
        assert Keys(reg')[i] == reg'[i].0 && Keys(reg')[j] == reg'[j].0;
      }
    }
    assert Keys(t) == Keys(t')[..|t|];
    UpdateExtends(t, t');
  }

  /** One step of the run and of the collecting run. */
  lemma RunStep(step: Evaluator, defs: seq<Dict<Value>>, i: nat, reg: Dict<TechData>, rows: seq<CompRow>)
    requires i < |defs|
    ensures RunWith(step, defs, i, reg) == match step(defs[i], reg)
      case Ok(ev) => RunWith(step, defs, i + 1, Set(reg, ev.key, ev.data))
      case Err(e) => Err(e)
    ensures CollectWith(step, defs, i, reg, rows) == match step(defs[i], reg)
      case Ok(ev) => CollectWith(step, defs, i + 1, Set(reg, ev.key, ev.data), rows + [CompRowOf(ev)])
      case Err(e) => Err(e)
  {
  }

  /** The run of `calc_all_LCO_wbreakdown` with the component rows collected so far. */
  function CollectWith(step: Evaluator, defs: seq<Dict<Value>>, i: nat, reg: Dict<TechData>,
                       rows: seq<CompRow>): Result<seq<CompRow>, Error>
    decreases |defs| - i
  {
    if i >= |defs| then Ok(rows)
    else
      var ev :- step(defs[i], reg);
      CollectWith(step, defs, i + 1, Set(reg, ev.key, ev.data), rows + [CompRowOf(ev)])
  }

  function CollectFrom(defs: seq<Dict<Value>>, up: Dict<Value>, comp: bool, ccu: bool, i: nat,
                       reg: Dict<TechData>, rows: seq<CompRow>): Result<seq<CompRow>, Error>
  {
    CollectWith(EvalStep(up, comp, ccu), defs, i, reg, rows)
  }

  /** Collecting fails exactly where the run fails, and otherwise appends the component rows
      of the evaluated technologies, in order. */
  lemma {:induction false} CollectAgrees(step: Evaluator, defs: seq<Dict<Value>>, i: nat,
                                         reg: Dict<TechData>, rows: seq<CompRow>)
    ensures match RunWith(step, defs, i, reg)
      case Ok(_) => CollectWith(step, defs, i, reg, rows) == Ok(rows + CompRows(TraceWith(step, defs, i, reg)))
      case Err(e) => CollectWith(step, defs, i, reg, rows) == Err(e)
    decreases |defs| - i
  {
    if i >= |defs| {
      assert rows + [] == rows;
    } else {
      match step(defs[i], reg)
      case Err(e) =>
        assert RunWith(step, defs, i, reg) == Err(e);
      case Ok(ev) =>
        var reg' := Set(reg, ev.key, ev.data);
        CollectAgrees(step, defs, i + 1, reg', rows + [CompRowOf(ev)]);
        assert TraceWith(step, defs, i, reg) == [ev] + TraceWith(step, defs, i + 1, reg');
        CompRowsCons(rows, ev, TraceWith(step, defs, i + 1, reg'));
    }
  }

  lemma CompRowsCons(rows: seq<CompRow>, ev: Evaluated, tr: seq<Evaluated>)
    ensures rows + CompRows([ev] + tr) == rows + [CompRowOf(ev)] + CompRows(tr)
  {
    assert ([ev] + tr)[1..] == tr;
  }

  /** One more assignment after an update is an update with one more entry. */
  lemma {:induction false} UpdateSnoc<V>(d: Dict<V>, e: Dict<V>, k: string, v: V)
    ensures Update(d, e + [(k, v)]) == Set(Update(d, e), k, v)
    decreases |e|
  {
    if |e| > 0 {
      assert (e + [(k, v)])[1..] == e[1..] + [(k, v)];
      UpdateSnoc(Set(d, e[0].0, e[0].1), e[1..], k, v);
    }
  }

  // ---------------------------------------------------------------------------------------
  // Abatement cost.

  /** Rounding to the multiples of `1 / scale`, halves to the even neighbour; `np.round(x, 5)`
      and `round(x, 1)` are the scales 100000 and 10. */
  function RoundHalfEven(x: real, scale: real): real
    requires scale >= 1.0
  {
    NearestEven(x * scale) as real / scale
  }

  /** The integer nearest to `y`, the even one on a tie. */
  function NearestEven(y: real): (n: int)
    ensures -0.5 <= n as real - y <= 0.5
    ensures (y >= 0.0 ==> n >= 0) && (y <= 0.0 ==> n <= 0)
  {
    var f := y.Floor;
    var d := y - f as real;
    if d < 0.5 then f else if d > 0.5 then f + 1 else if f % 2 == 0 then f else f + 1
  }

  /** Rounding moves a value by at most half a unit of the last place, and keeps its sign. */
  lemma RoundHalfEvenBounds(x: real, scale: real)
    requires scale >= 1.0
    ensures var r := RoundHalfEven(x, scale);
      && -0.5 / scale <= r - x <= 0.5 / scale
      && (x >= 0.0 ==> r >= 0.0) && (x <= 0.0 ==> r <= 0.0)
  {
    var y := x * scale;
    var n := NearestEven(y) as real;
    var r := RoundHalfEven(x, scale);
    assert -0.5 / scale <= r - x <= 0.5 / scale by {
      var e := n - y;
      assert r - x == e / scale by {
        assert n / scale - x == (n - y) / scale;
      }
      DivMonotone(-0.5, e, scale);
      DivMonotone(e, 0.5, scale);
    }
    assert x >= 0.0 ==> r >= 0.0 by {
      if x >= 0.0 {
        assert y >= 0.0;
        DivMonotone(0.0, n, scale);
      }
    }
    assert x <= 0.0 ==> r <= 0.0 by {
      if x <= 0.0 {
        assert y <= 0.0;
        DivMonotone(n, 0.0, scale);
      }
    }
  }

  /** Dividing by a positive number keeps the order. */
  lemma DivMonotone(a: real, b: real, s: real)
    requires a <= b && s > 0.0
    ensures a / s <= b / s
  {
    assert b / s - a / s == (b - a) / s;
  }

  /** `FSCP`: the abatement cost of replacing the fossil option by the green one, defined only
      when both costs and emissions are known and the fossil option emits more. */
  function Fscp(greenCost: Option<real>, greenEm: Option<real>, fossilCost: Option<real>,
                fossilEm: Option<real>): (r: Option<real>)
    ensures r.Some? <==> greenCost.Some? && greenEm.Some? && fossilCost.Some? && fossilEm.Some?
                         && fossilEm.value > greenEm.value
  {
    if greenCost.Some? && greenEm.Some? && fossilCost.Some? && fossilEm.Some? && fossilEm.value > greenEm.value then
      Some(RoundHalfEven((greenCost.value - fossilCost.value) / (fossilEm.value - greenEm.value), 100000.0))
    else None
  }

  /** The abatement cost is within rounding of the cost difference per avoided emission, and
      it is negative exactly when the green option is cheaper (up to rounding to 0). */
  lemma FscpMeaning(gc: real, ge: real, fc: real, fe: real)
    requires fe > ge
    ensures var r := Fscp(Some(gc), Some(ge), Some(fc), Some(fe)).value;
      var q := (gc - fc) / (fe - ge);
      && -0.000005 <= r - q <= 0.000005
      && (gc >= fc ==> r >= 0.0) && (gc <= fc ==> r <= 0.0)
  {
    var q := (gc - fc) / (fe - ge);
    RoundHalfEvenBounds(q, 100000.0);
    QuotientSign(gc - fc, fe - ge);
  }

  lemma QuotientSign(a: real, b: real)
    requires b > 0.0
    ensures (a >= 0.0 ==> a / b >= 0.0) && (a <= 0.0 ==> a / b <= 0.0)
  {
    assert a / b * b == a;
  }

  /** The fossil option scored against itself has no abatement cost. */
  lemma FossilAgainstItself(cost: Option<real>, em: Option<real>)
    ensures Fscp(cost, em, cost, em).None?
  {
  }
}
