# Techno-economic calculation engine, modelled in Dafny

This project models the calculation engine under `calc/` of a tool that ranks options for
decarbonising five industrial sectors: chemicals, aviation, shipping, cement and steel. The
engine has four parts.

1. **Technology evaluator and registry** (`calc/tech_class.py`, `calc/TechData.py`).
   - A technology definition is an ordered dictionary of parameters. Its keys are checked
     against a 17-name allow-list. A key outside the list that contains `demand` names a
     feedstock.
   - Each technology gets a levelised cost (LCO), its components, its emissions, its
     electricity demand and its CO2 demand. These are computed against the registry of the
     technologies evaluated before it (`Tech.COMMON_DICT`).
   - The result is written into that registry as a `TechData` record.
2. **Run assembly** (`calc/calc_costs.py`).
   - Per-run overrides `"<techkey>_<attr>"` patch the definitions.
   - The registry is emptied, then refilled in definition order.
   - The results table gets a placeholder row for every technology that does not exist.
   - Also here: the abatement-cost formula (FSCP), its application against a fossil row,
     and the cost-breakdown expander. The expander pushes every fuel's cost components
     into the technologies that consume it, also through fuels already expanded. It merges
     the expanded rows over the originals and splits the table into sector rows and fuel
     rows.
3. **Per-sector selection** (`calc/process_full_df.py`).
   - The lowest-FSCP, lowest-cost and lowest-emission filters, then de-duplication.
   - The confidence margin `diff_fscp`.
   - The CCU supplier/consumer rule.
   - The retrofit capex offsets.
   - The `get_df` pipeline that joins each sector technology with its fossil baseline and
     picks winners and runners-up.

## How the model is organised

The modules follow the source files.

| module | file | source |
|---|---|---|
| `Wrappers` | `wrappers.dfy` | Option and Result types |
| `Errors` | `errors.dfy` | one constructor per exception the engine raises |
| `PyStr` | `pystr.dfy` | Python's `in`, `index`, `split`, `rsplit(…, 1)`, `replace` on strings |
| `PyDict` | `pydict.dfy` | insertion-ordered dictionaries as sequences of pairs: assignment, `pop`, `update` |
| `TechDataModel` | `tech_data.dfy` | `calc/TechData.py` |
| `TechSpec`, `TechProps` | `tech_spec.dfy`, `tech_props.dfy` | what one `Tech` computes, and its properties |
| `TechClass` | `tech_class.dfy` | the imperative `Tech` and the registry as classes |
| `CalcCosts` | `calc_costs.dfy` | the runs, placeholders, FSCP and rounding |
| `CostBreakdown` | `cost_breakdown.dfy` | `breakdown_LCO_comps` and its helpers |
| `Macc` | `macc.dfy` | scoring rows against a fossil row (`FSCP`, `calc_FSCP`, `co2_comp` percentage) |
| `ProcessFullDf` | `process_full_df.dfy` | selection rules, the CCU rule, retrofit parameters |
| `GetDfPipeline` | `get_df.dfy` | `get_df` |

Where the source mutates state, the model does too:

- `Tech` is a class whose methods update `attrs`, `feedstockDemand` and `lcoComps`. Each
  method is proved against a specification function of `TechSpec`.
- The registry is a `Registry` object with a `records` field. `Tech.New` writes to it.
- `new_LCO_rows` is an `ExpandedRows` object.
- `lowest_fscp`, `ccu_possible` and `replace(0.0, np.nan, inplace=True)` work on arrays in
  place.
- The loops of `calc_all_LCO`, `calc_all_LCO_wbreakdown`, `retrofit_params` and
  `process_LCO_rows` are `for` loops with invariants that tie them to recursive
  specification functions.

Simplifications:

- Numbers are `real`.
- A NaN is an absent map entry, `None`, or the cell `NaN` of a results row.
- `np.round` and `round` are exact round-half-to-even on reals.
- Every exception is an `Err` of `Errors.Error`.

Where the documented design and the code disagree, the model follows the code:

- Missing registry records do not always count as zero. The lookups of `"co2"` and
  `"co2ts"` under compensation, of `"co2ccu"` for CCU income, and of `"elec"` for the
  effective emissions are unguarded and raise (`MissingRecord`).
- The total electricity counts a direct `elec` demand twice; see `TechProps.ElecCountedTwice`.
- With mixed-sign FSCPs in a sector, `lowest_fscp` does not fall back to the lowest cost. It
  overwrites every nonzero entry with the sector minimum, which may be negative. Only an
  all-negative sector is kept whole.
- `delta_fscp` is taken over the winners together with the runners-up, which are the
  winners of the table without the first winners. It is not taken over the full candidate set.
- An expanded consumer row keeps its own entries (including the consumed fuel and its LCO)
  beside the prefixed ones.
- `wacc = 0` with a capex, or `flh = 0`, raises `ZeroDivisionError` (`ZeroDivision`).
- `calc_all_LCO` over an empty definition list raises `NameError` (`NoDefinitions`).
  `calc_all_LCO_wbreakdown` does not reach that name. With no definitions and no
  placeholders, however, its results table has no columns, and naming seven columns raises
  `ValueError` (`EmptyResultsTable`).

## Model

| member | source | states |
|---|---|---|
| TechDataModel.NewTechData | calc/TechData.py:2-8 | the record stores `LCO`, `desc` and `total_co2dem` under their own names, and `eff_em`, `eff_elec`, `total_em_eff_em` as `em`, `elec`, `co2_comp` |
| TechDataModel.Describe | calc/TechData.py:10-11 | `__str__` returns the description |
| TechDataModel.GetVals | calc/TechData.py:13-14 | `get_vals` has one value per column of the results table |
| TechDataModel.GetValsColumns | calc/TechData.py:1-14 | each table column (`cost, em, elec, code, co2, co2_comp`) holds the matching field, and reading the row back gives the same record (round trip) |
| PyStr.FindFrom | calc/tech_class.py:140 | `index` finds the first occurrence from a position, and None means there is none |
| PyStr.ContainsIff | calc/tech_class.py:149 | substring `in` holds exactly when the text occurs at some position |
| PyStr.Split | calc/calc_costs.py:63 | `split("_")` has at least one piece |
| PyStr.SplitJoin | calc/calc_costs.py:63 | joining the pieces of `split` with the separator gives back the text, and no piece holds the separator |
| PyStr.SplitOnce | calc/process_full_df.py:196 | `split("_", n=1)`: without "_" the text is the type and there is no sector; otherwise type + "_" + sector is the text and the type has no "_" |
| PyStr.RSplitOnce | calc/calc_costs.py:48 | `rsplit("_", 1)` has one piece exactly when there is no "_"; otherwise the two pieces rebuild the text and the second has no "_" |
| PyStr.RSplitOnceJoin | calc/calc_costs.py:48 | a prefix and a suffix without "_" come back apart from `rsplit` |
| PyStr.ReplaceAbsent | calc/calc_costs.py:63 | `replace` leaves a text without the pattern unchanged |
| PyDict.Get | calc/tech_class.py:297 | `dict.get` finds a value exactly when the key is present, and it is the pair stored under it |
| PyDict.Set | calc/tech_class.py:141 | item assignment keeps the key order (a new key goes last), and changes the value of that key only |
| PyDict.SetDistinct | calc/tech_class.py:141 | assignment keeps the keys distinct |
| PyDict.Pop | calc/tech_class.py:146 | `pop` changes no other key, and from a dictionary with distinct keys it removes the key |
| PyDict.PopDistinct | calc/tech_class.py:146 | `pop` keeps the keys distinct |
| PyDict.UpdateGet | calc/calc_costs.py:58 | after `d.update(e)`, a key of `e` has its value there, and any other key keeps its value in `d` |
| PyDict.UpdateKeys | calc/calc_costs.py:58 | `update` keeps `d`'s keys first in their order, and its keys are those of `d` and `e` |
| PyDict.UpdateDistinct | calc/calc_costs.py:62-65 | `update` keeps the keys distinct |
| PyDict.MapValues | calc/tech_class.py:106-108 | the dict comprehension of `get_dict` keeps the keys in order, and maps each value |
| PyDict.UpdateGetLast | calc/calc_costs.py:62-65 | updating with a list of pairs gives each key its last value in the list |
| TechSpec.Classify | calc/tech_class.py:122-141 | an allow-listed key is an attribute. Otherwise a key with "demand" is the feedstock named by the text before the first "demand". Otherwise the key is unknown |
| TechSpec.SetAttrsHandlesEachKey | calc/tech_class.py:122-132 | `set_attr` fails exactly when some key is unknown, and names the first one. Otherwise the attributes are those given and the feedstocks are added in definition order |
| TechSpec.SetAttrsRejects | calc/tech_class.py:124-132 | the KeyError raised by `set_attr` names the first unknown key |
| TechSpec.SetAttrsKeeps | calc/tech_class.py:124-141 | a successful `set_attr` sets exactly the allow-listed keys (a later one wins) and the feedstock entries |
| TechSpec.SetAttrsDistinct | calc/tech_class.py:138-141 | the feedstock dictionary names each feedstock once |
| TechSpec.CheckOffgrid | calc/tech_class.py:143-146 | without `offgrid` nothing changes. With it, the `elec` demand moves to `elecoffgrid` and the other feedstocks are unchanged. A missing `elec` demand raises a KeyError |
| TechSpec.CheckFlag | calc/tech_class.py:148-154 | the flag holds afterwards exactly when it held before or (the run flag is on, the key names a sector and not "fossil"); no other attribute changes |
| TechSpec.Anf | calc/tech_class.py:189-192 | the annuity factor satisfies anf·((1+wacc)^n − 1) = wacc·(1+wacc)^n, and the division by zero raises exactly when (1+wacc)^n = 1 |
| TechSpec.AnfRepaysCapex | calc/tech_class.py:189-192 | yearly payments of capex·anf repay a loan of capex at rate wacc exactly over the lifetime |
| TechSpec.BalanceClosed | calc/tech_class.py:189-192 | the loan balance after n years is principal·q^n − payment·(1 + q + … + q^(n−1)) |
| TechSpec.GeomSumClosed | calc/tech_class.py:192 | the geometric sum times (q − 1) is q^n − 1 |
| TechSpec.LcoxWoEnergy | calc/tech_class.py:194-211 | the result is the recorded capex plus opex components, and they are the only components written. Without capex both are 0. Raises exactly on a zero annuity denominator or zero full-load hours |
| TechSpec.CarbonTax | calc/tech_class.py:237-245 | the carbon tax is 0, and nothing is recorded, under compensation or without a co2tax record. Otherwise it is the total emissions times the co2tax record's LCO, recorded as "co2 tax" |
| TechSpec.Co2StorageCost | calc/tech_class.py:247-253 | the storage cost is 0, and nothing is recorded, without co2capt or without a co2ts record. Otherwise it is co2capt times the co2ts record's LCO, recorded as "co2 transport and storage" |
| TechSpec.CompCost | calc/tech_class.py:255-262 | without compensation the cost is 0 and nothing is recorded. With it, the call raises exactly when the co2 or co2ts record is missing, naming the first missing one; otherwise the total emissions are priced at the co2 and at the co2ts LCO, both recorded, and the cost is their sum |
| TechSpec.CcuIncome | calc/tech_class.py:265-270 | without `co2ccuincome` the income is 0. With it, the call raises exactly when the co2ccu record is missing, and otherwise is minus the CCU supply (0 when absent) times the co2ccu LCO |
| TechSpec.EvaluatedKey | calc/tech_class.py:110-113 | the record is filed under the technology's own key |
| TechSpec.Evaluate | calc/tech_class.py:37-87 | `Tech(init_dict, comp, ccu_income)` as a value: `set_attr`, the offgrid check and the two flag checks, then `append_dict` against the registry so far; the first error is the result. Stated by `EvaluatedKey`, `TechProps.EvaluatedAttributes` and `TechProps.UnknownKeyRejected` |
| TechSpec.AppendDict | calc/tech_class.py:110-120 | `append_dict`: the key is required, the LCO is computed and cached, and the record holds the LCO, effective emissions and electricity, description, CO2 demand and total minus effective emissions. Stated by `TechProps.AppendDictRecord`, `CompensationEffects` and `NoCompensationNoDelta` |
| TechSpec.GetLco | calc/tech_class.py:156-169 | `get_LCO`: an LCO on the definition is kept, otherwise the seven terms are added in source order; either way it is recorded as "LCO". Stated by `TechProps.GetLcoTerms`, `LcoIsSumOfComponents` and `ExplicitLcoKept` |
| TechSpec.EffEm | calc/tech_class.py:172-179 | `get_eff_em`: under compensation, offgrid raises and otherwise the effective electricity times the (unguarded) elec record's emissions; without it, the total emissions. Stated by `TechProps.CompensationEffects` and `CompensationWithOffgridRaises` |
| TechSpec.EffElec | calc/tech_class.py:181-187 | `get_eff_elec`: under compensation, total electricity plus total emissions times the (unguarded) co2 record's electricity; without it, the total electricity. Stated by `TechProps.CompensationEffects` and `CompensationNeedsCo2Record` |
| TechSpec.TotalEm | calc/tech_class.py:217-223 | `get_total_em`: direct emissions minus captured, CCU and recycled CO2, plus every feedstock's emissions. Stated by `TechProps.UnknownFeedstockIgnored` and `SameInputsSameResults` |
| TechSpec.TotalElec | calc/tech_class.py:225-230 | `get_total_elec`: the direct `elec` demand plus every feedstock's electricity. Stated by `TechProps.ElecCountedTwice`, `OffgridElecCountedOnce` and `UnknownFeedstockIgnored` |
| TechSpec.TotalCo2dem | calc/tech_class.py:232-235 | `get_total_co2dem`: the direct `co2` demand plus every feedstock's CO2 demand. Stated by `TechProps.UnknownFeedstockIgnored` |
| TechSpec.OtherCosts | calc/tech_class.py:272-276 | `get_other_costs`: `othercosts` or 0, recorded as "other costs". Stated by `TechProps.LcoIsSumOfComponents` |
| TechSpec.FeedstockCost | calc/tech_class.py:299-306 | `get_feedstock_cost`: 0 and no record for a feedstock the registry does not know; otherwise demand times its LCO, recorded under the feedstock. Stated by `TechProps.FeedstockCostsRecorded` |
| TechProps.FeedstockCostsRecorded | calc/tech_class.py:213-215 | the feedstock total equals the sum of what it records. A feedstock is recorded exactly when the registry knows it, and other labels are untouched |
| TechProps.GetLcoTerms | calc/tech_class.py:156-169 | with compensation and CCU income off, a computed LCO is the sum of the five base terms, and it succeeds exactly when they do |
| TechProps.LcoIsSumOfComponents | calc/tech_class.py:156-169 | with compensation and CCU income off, a computed LCO equals the sum of the recorded capex, opex, other-costs, feedstock, co2-tax and co2-storage components, and is itself recorded as "LCO" |
| TechProps.ExplicitLcoKept | calc/tech_class.py:156-169 | an LCO on the definition is stored unchanged, and it is then the only recorded component |
| TechProps.SameInputsSameResults | calc/tech_class.py:172-187 | emissions and effective electricity depend only on the emission attributes, the two flags, the feedstocks and the registry |
| TechProps.CachedLcoInvisible | calc/tech_class.py:158-167 | caching the LCO changes no emission, electricity or description result |
| TechProps.AppendDictRecord | calc/tech_class.py:110-120 | the stored record is built from the LCO computed before the cache |
| TechProps.CompensationEffects | calc/tech_class.py:172-187 | under compensation: effective elec = total elec + total em × co2.elec; effective em = effective elec × elec.em; co2_comp = total em − effective em; offgrid is excluded; and the co2 and elec records must exist |
| TechProps.CompensatedRecord | calc/tech_class.py:172-187 | the same facts for the record built from a given LCO |
| TechProps.NoCompensationNoDelta | calc/tech_class.py:113-120 | without compensation the record holds the total emissions and electricity, and co2_comp is 0 |
| TechProps.UncompensatedRecord | calc/tech_class.py:172-187 | the same facts for the record built from a given LCO |
| TechProps.CompensationWithOffgridRaises | calc/tech_class.py:174-176 | compensation with offgrid raises, once the key and the LCO are known |
| TechProps.CompensationNeedsCo2Record | calc/tech_class.py:186 | compensation without a co2 record fails |
| TechProps.UnknownFeedstockIgnored | calc/tech_class.py:308-330 | a feedstock the registry does not know adds nothing to emissions, to electricity (unless it is elec/elecoffgrid), or to CO2 demand (unless it is co2) |
| TechProps.ElecCountedTwice | calc/tech_class.py:225-230 | the direct `elec` demand enters the total electricity twice |
| TechProps.OffgridElecCountedOnce | calc/tech_class.py:315-318 | an `elecoffgrid` demand enters the total electricity once |
| TechProps.UnknownKeyRejected | calc/tech_class.py:127-132 | a definition with an unknown key is rejected, naming the first such key |
| TechProps.EvaluatedAttributes | calc/tech_class.py:51-87 | apart from the LCO and the two flags, the evaluated attributes are the defaults overridden by the allow-listed keys; the two flags only ever turn on |
| TechProps.PreparedAttributes | calc/tech_class.py:81-85 | before `append_dict` the same holds with no exception for the LCO |
| TechProps.AppendDictAttributes | calc/tech_class.py:110-120 | `append_dict` changes no attribute but the cached LCO |
| TechClass.Registry.constructor | calc/tech_class.py:34 | the registry starts empty |
| TechClass.Registry.Reset | calc/calc_costs.py:30 | resetting empties the registry |
| TechClass.Registry.Put | calc/tech_class.py:113 | storing a record sets that key and keeps the others and their order |
| TechClass.Registry.Table | calc/tech_class.py:106-108 | `get_dict` has the registry's keys in order, each with its record's `get_vals` |
| TechClass.Tech.constructor | calc/tech_class.py:51-57 | a new instance holds the definition, the defaults wacc 0.1, flh 0.9 and lifetime 20, no feedstocks and no components |
| TechClass.Tech.New | calc/tech_class.py:37-87 | `Tech(init_dict, comp, ccu_income)` stores exactly the evaluated record under its key, or reports the evaluation's error |
| TechClass.Tech.Prepare | calc/tech_class.py:81-85 | `set_attr` and the three checks leave the prepared attributes and feedstocks, or the first error |
| TechClass.Tech.SetAttr | calc/tech_class.py:122-132 | the loop of `set_attr` reaches the state of the key-by-key specification |
| TechClass.Tech.SetOne | calc/tech_class.py:125-132 | one pass of the loop: `add_attr`, `add_feedstock_cost` or the KeyError |
| TechClass.Tech.AddAttr | calc/tech_class.py:134-136 | `setattr` changes that attribute only |
| TechClass.Tech.AddFeedstockCost | calc/tech_class.py:138-141 | the demand is stored under the text before the first "demand" |
| TechClass.Tech.CheckOffgrid | calc/tech_class.py:143-146 | in place, as `TechSpec.CheckOffgrid` |
| TechClass.Tech.CheckComp | calc/tech_class.py:148-150 | sets `compensation` as `TechSpec.CheckFlag` does. A missing key when `comp` is on raises |
| TechClass.Tech.CheckCcuIncome | calc/tech_class.py:152-154 | sets `co2ccuincome` as `TechSpec.CheckFlag` does. A missing key when `ccu_income` is on raises |
| TechClass.Tech.CheckSectorFlag | calc/tech_class.py:148-154 | the flag test shared by `CheckComp` and `CheckCcuIncome` |
| TechClass.Tech.LcoxWoEnergy | calc/tech_class.py:194-211 | returns and records what `TechSpec.LcoxWoEnergy` states |
| TechClass.Tech.GetOtherCosts | calc/tech_class.py:272-276 | returns `othercosts` (or 0) and records it as "other costs" |
| TechClass.Tech.GetFeedstockCost | calc/tech_class.py:299-306 | without the feedstock, returns 0 and changes nothing. With it, returns and records demand times the feedstock's LCO when the registry knows the feedstock, and 0 unrecorded otherwise |
| TechClass.Tech.GetTotalFeedstockCosts | calc/tech_class.py:213-215 | the loop over the feedstocks returns and records what `TechSpec.FeedstockCostsFrom` states |
| TechClass.Tech.GetCarbonTax | calc/tech_class.py:237-245 | as `TechSpec.CarbonTax` |
| TechClass.Tech.GetCo2StorageCost | calc/tech_class.py:247-253 | as `TechSpec.Co2StorageCost` |
| TechClass.Tech.GetCompCost | calc/tech_class.py:255-262 | as `TechSpec.CompCost`, including its error |
| TechClass.Tech.GetCcuIncome | calc/tech_class.py:265-270 | as `TechSpec.CcuIncome`, including its error |
| TechClass.Tech.GetLco | calc/tech_class.py:156-169 | returns and records the LCO of `TechSpec.GetLco`, and caches a computed LCO as an attribute |
| TechClass.Tech.ComputeLco | calc/tech_class.py:159-167 | the seven-term sum, term by term, as `TechSpec.ComputedLco` |
| TechClass.Tech.BaseCosts | calc/tech_class.py:159-164 | the first five terms, as `TechSpec.BaseLco` |
| TechClass.Tech.AppendDict | calc/tech_class.py:110-120 | stores exactly the record of `TechSpec.AppendDict` under the key and leaves the other records alone, or reports the error |
| CalcCosts.OverridesSelect | calc/calc_costs.py:48-49 | the override for attribute `a` of the definition keyed `p` is the run parameter `p_a`. An attribute with "_" is never overridden |
| CalcCosts.OverridesRaise | calc/calc_costs.py:48 | the comprehension raises exactly when a run parameter without "_" equals the key |
| CalcCosts.NotTargetedUnchanged | calc/calc_costs.py:48-49 | a definition no parameter targets is left unchanged |
| CalcCosts.KeylessRowRejected | calc/calc_costs.py:48 | `row["key"]` raises on a definition without a key once there are run parameters |
| CalcCosts.Overrides | calc/calc_costs.py:48 | the override comprehension: every run parameter whose text before the last "_" is the key sets the attribute after it, in parameter order; one without "_" equal to the key raises. Stated by `OverridesSelect`, `OverridesRaise` and `NotTargetedUnchanged` |
| CalcCosts.RunFrom | calc/calc_costs.py:45-58 | the loop of both builders as a value: each definition is overridden and evaluated against the registry so far, and the first error stops the run. Stated by `RunWrites`, `RunRegistry`, `RunDistinct` and `TraceLength` |
| CalcCosts.RunWrites | calc/calc_costs.py:45-58 | the registry after a run is the start registry updated with every evaluated record, in evaluation order |
| CalcCosts.RunRegistry | calc/calc_costs.py:30-58 | after a run from the empty registry, each key has the record of its last definition, and the keys are distinct |
| CalcCosts.RunDistinct | calc/calc_costs.py:45-58 | the registry names each technology once |
| CalcCosts.TraceLength | calc/calc_costs.py:119-129 | a successful run evaluates every definition once |
| CalcCosts.RunEmpty | calc/calc_costs.py:45-58 | a successful run leaves the registry empty exactly when there were no definitions |
| CalcCosts.PlaceholderRow | calc/calc_costs.py:62-65 | a placeholder row has every column NaN except the code "no <type>" |
| CalcCosts.PlaceholderKindsAgree | calc/calc_costs.py:134-140 | the two builders name the same kind when the type is "h2" or does not contain "h2" |
| CalcCosts.PlaceholderKindsDiffer | calc/calc_costs.py:62-65 | for "blueh2_steel", `calc_all_LCO` says "blueh2/nh3" and the breakdown builder says "blueh2" |
| CalcCosts.AllLcoRows | calc/calc_costs.py:57-65 | a placeholder replaces the row of every technology declared not to exist. Every other key has its registry record's values, or no row |
| CalcCosts.AllLcoDistinct | calc/calc_costs.py:58-67 | the results table names each technology once |
| CalcCosts.AllLco | calc/calc_costs.py:13-77 | `calc_all_LCO` as a value: the run, `NoDefinitions` without definitions, then the registry table with the placeholders written over it. Stated by `AllLcoRows`, `AllLcoDistinct` and `PlaceholderRow` |
| CalcCosts.CalcAllLco | calc/calc_costs.py:13-77 | the loop yields the specified results table, or its error, and leaves the run's registry behind |
| CalcCosts.RunDefinitions | calc/calc_costs.py:30-52 | the registry is emptied and refilled with exactly the run's records, or the first error is returned |
| CalcCosts.EvaluateDefinition | calc/calc_costs.py:48-52 | one definition is overridden and evaluated; the registry gains its record, or the error is reported |
| CalcCosts.BuildersAgreeOutsidePlaceholders | calc/calc_costs.py:119-140 | outside the placeholders both builders give every key the same row |
| CalcCosts.CalcAllLcoWithBreakdown | calc/calc_costs.py:80-149 | yields the results table and one component row per definition in order, or the error; an empty table raises the ValueError of the column renaming |
| CalcCosts.AllLcoWithBreakdown | calc/calc_costs.py:80-149 | `calc_all_LCO_wbreakdown` as a value: the run, the registry table with the breakdown placeholders written over it, and the component rows of the evaluation trace; an empty table is an error. Stated by `BreakdownEmptyTable`, `BuildersAgreeOutsidePlaceholders` and `CollectAgrees` |
| CalcCosts.BreakdownEmptyTable | calc/calc_costs.py:143-144 | after a successful run, the breakdown builder fails exactly when there are no definitions and no technologies declared not to exist, and the error is the ValueError of the seven column names |
| CalcCosts.RunCollecting | calc/calc_costs.py:104-131 | the loop ends with the table of the run's registry and the component rows of the evaluation trace in order, or the run's error |
| CalcCosts.NewWithComponents | calc/calc_costs.py:126-129 | `Tech(row, …)` and its `LCO_comps`: the component row of the evaluated technology |
| CalcCosts.CollectAgrees | calc/calc_costs.py:128-131 | collecting the component rows during the run gives the rows of the evaluation trace, in order |
| CalcCosts.TableRefresh | calc/calc_costs.py:131 | `final_dict.update(get_dict())` after each technology equals the registry table |
| CalcCosts.AddPlaceholders | calc/calc_costs.py:134-140 | the placeholder loop writes every declared technology's placeholder over the table |
| CalcCosts.Fscp | calc/calc_costs.py:162-167 | the abatement cost is defined exactly when all inputs are and fossil_em > green_em |
| CalcCosts.FscpMeaning | calc/calc_costs.py:162-167 | it is (green_cost − fossil_cost)/(fossil_em − green_em) within 0.000005, with the sign of the cost difference |
| CalcCosts.FossilAgainstItself | calc/calc_costs.py:162-167 | the fossil row scored against itself has no abatement cost |
| CalcCosts.RoundHalfEvenBounds | calc/calc_costs.py:167 | rounding moves a value by at most half a unit of the last place and keeps its sign |
| CalcCosts.RoundHalfEven | calc/calc_costs.py:167 | `np.round(x, 5)`: the nearest multiple of 10^-5, ties to the even one. Stated by `RoundHalfEvenBounds` |
| Macc.Co2CompShare | calc/calc_costs.py:176 | `co2_comp * 100 / em` is defined exactly when both are and em ≠ 0, and it solves share·em = co2_comp·100 |
| Macc.Score | calc/process_full_df.py:212-214 | a row's fscp, elec_fscp and co2 share are computed against the baseline, and nothing else of the row changes |
| Macc.FirstOfKind | calc/calc_costs.py:171 | the position of the first fossil row, or none |
| Macc.CalcFscp | calc/calc_costs.py:169-178 | `calc_FSCP` raises exactly when there is no fossil row, and otherwise scores every row |
| Macc.CalcFscpScores | calc/calc_costs.py:169-178 | every row is scored against the first fossil row, which itself gets no abatement cost |
| CostBreakdown.DropZeros | calc/calc_costs.py:202 | after `replace(0.0, NaN)` a row has exactly its nonzero entries, unchanged |
| CostBreakdown.ReplaceZeros | calc/calc_costs.py:202 | in place, every row of the table, as `DropZeros` |
| CostBreakdown.Scale | calc/calc_costs.py:232 | `multiply` keeps the labels and multiplies every entry |
| CostBreakdown.Prefix | calc/calc_costs.py:259 | `add_prefix` renames each label to `p_label` with its value, and adds nothing else |
| CostBreakdown.Expand | calc/calc_costs.py:230-260 | expanding a consumer raises exactly when the source has no LCO, and names the consumer otherwise |
| CostBreakdown.ExpandSingleHop | calc/calc_costs.py:230-260 | the consumer keeps all its own entries. Each component of the source except LCO appears as `S_k`, scaled by `T[S]/S.LCO`, unless the consumer already has `S_k` |
| CostBreakdown.ExpandMultiHop | calc/calc_costs.py:237-257 | a label of the source that names an already expanded row is re-expanded from that row, scaled by `scaled[label]/row.LCO`, under `S_label_k` |
| CostBreakdown.ExpandedEntry | calc/calc_costs.py:237-259 | every sub-expanded entry reaches the consumer under the source's prefix |
| CostBreakdown.SubExpansionAt | calc/calc_costs.py:240-257 | the sub-expansion holds the scaled entry of the last expanded row that contributes the label |
| CostBreakdown.ExpandExample | calc/calc_costs.py:230-260 | T taking 20 of A (LCO 10, capex 6, opex 4) gets A_capex 12 and A_opex 8 beside its own entries |
| CostBreakdown.ByTech | calc/calc_costs.py:272-274 | `set_index("tech")` has exactly the technologies of the rows, and a technology named by one row only holds that row's cells |
| CostBreakdown.Merge | calc/calc_costs.py:262-269 | a row of a new technology is appended; otherwise it is combined into the row of its technology. Stated by `MergeFillsMissing` and `MergeExpandedFrom` |
| CostBreakdown.MergeFillsMissing | calc/calc_costs.py:262-269 | a new technology's row is appended. Otherwise only that technology's row changes, and only labels it lacked are filled; one row per technology stays |
| CostBreakdown.MergeExpandedFrom | calc/calc_costs.py:262-269 | merging a row of a technology of the component table keeps the list at one row per technology, each a technology of that table |
| CostBreakdown.ProcessFromExpanded | calc/calc_costs.py:221-269 | the consumer loop keeps that invariant on success |
| CostBreakdown.ExpandFromExpanded | calc/calc_costs.py:205 | so does the loop over all sources, starting from any list that has it |
| CostBreakdown.ProcessFrom | calc/calc_costs.py:221-269 | the consumer loop of `process_LCO_rows` as a value: the source itself and consumers without a number for the source are skipped; every other consumer is expanded and merged. Stated by `ProcessFromExpanded` and checked in place by `ProcessLcoRow` |
| CostBreakdown.UpdateComponents | calc/calc_costs.py:271-280 | `update_LCO_components`: `NothingToConcatenate` when nothing was expanded, otherwise the expanded table laid over the original. Stated by `UpdatePrecedence` |
| CostBreakdown.SplitComponents | calc/calc_costs.py:282-299 | `split_LCO_df`: the sector rows and the fuel rows, by sector word. Stated by `SplitPartition` |
| CostBreakdown.Breakdown | calc/calc_costs.py:198-209 | `breakdown_LCO_comps` as a value: zeros dropped, every source expanded into its consumers, the merge and the split. Checked in place by `BreakdownLcoComps` |
| CostBreakdown.UpdatePrecedence | calc/calc_costs.py:271-280 | the final merge raises exactly when nothing was expanded. Otherwise it covers both tables, an expanded value wins, and an original fills only what is missing |
| CostBreakdown.SplitPartition | calc/calc_costs.py:282-299 | the sector and fuel tables are disjoint, cover the table, and split it by whether the key contains a sector word; rows are unchanged |
| CostBreakdown.ExpandedRows.constructor | calc/calc_costs.py:204 | `new_LCO_rows` starts empty |
| CostBreakdown.ExpandedRows.Absorb | calc/calc_costs.py:262-269 | appends or combines in place, as `Merge` |
| CostBreakdown.ExpandRow | calc/calc_costs.py:230-260 | the loop over the expanded rows builds the row of `Expand` |
| CostBreakdown.ProcessLcoRow | calc/calc_costs.py:211-269 | `process_LCO_rows` for one source leaves the specified rows, one per consumer technology |
| CostBreakdown.ProcessConsumer | calc/calc_costs.py:221-269 | one consumer turn advances the specification by one position, or reports its error |
| CostBreakdown.BreakdownLcoComps | calc/calc_costs.py:198-209 | replaces the zeros in place and returns the sector and fuel tables of the specification |
| ProcessFullDf.Min | calc/process_full_df.py:39 | `min` is an entry and is no larger than any entry |
| ProcessFullDf.SecondMinPartition | calc/process_full_df.py:26-28 | `partition(lst, 1)` puts the minimum and the second smallest at distinct positions. The second is no larger than any other entry |
| ProcessFullDf.DiffFscpMeaning | calc/process_full_df.py:15-28 | the margin is ≥ 0. It is 1000 for one entry or any negative one. Otherwise it is second smallest minus smallest, and 0 exactly when the minimum occurs twice |
| ProcessFullDf.DiffFscp | calc/process_full_df.py:15-28 | `diff_fscp`: 1000 for one entry or any negative one, otherwise second smallest minus smallest. Stated by `DiffFscpMeaning` |
| ProcessFullDf.LowestFscpOf | calc/process_full_df.py:30-42 | `lowest_fscp`: an all-negative group is kept, otherwise every nonzero entry becomes the group minimum. Stated by `LowestFscpKeeps` and computed in place by `LowestFscp` |
| ProcessFullDf.LowestValueOf | calc/process_full_df.py:45-52 | `lowest_value`: a single value is kept, otherwise every entry becomes the minimum. Stated by `LowestValueKeeps` |
| ProcessFullDf.LowestFscp | calc/process_full_df.py:30-42 | the fresh array is the group transformed by `lowest_fscp` |
| ProcessFullDf.ReplaceNonZero | calc/process_full_df.py:40 | `arr[arr != 0] = m` changes only the nonzero cells, to `m` |
| ProcessFullDf.CountNonNegative | calc/process_full_df.py:32-34 | no non-negative entry exactly when all are negative |
| ProcessFullDf.ArrayMin | calc/process_full_df.py:39 | the loop finds the array's minimum |
| ProcessFullDf.LowestFscpKeeps | calc/process_full_df.py:30-42 | an entry is unchanged exactly when the group is all negative, or the entry is 0 or the group minimum |
| ProcessFullDf.LowestValueKeeps | calc/process_full_df.py:45-52 | an entry equals the `lowest_value` transform exactly when it is the group minimum |
| ProcessFullDf.GroupValues | calc/process_full_df.py:62 | the group holds the values of exactly the sector's rows |
| ProcessFullDf.KeepFromSound | calc/process_full_df.py:63 | every row of `df[mask]` is a row of the table the rule keeps, in order |
| ProcessFullDf.KeepFromComplete | calc/process_full_df.py:63 | every row the rule keeps is in `df[mask]` |
| ProcessFullDf.LowestFscpRuleAgrees | calc/process_full_df.py:62 | the fscp rule keeps a row exactly when `transform(lowest_fscp)` equals its value |
| ProcessFullDf.LowestValueRuleAgrees | calc/process_full_df.py:66-71 | the cost and emission rules keep a row exactly when `transform(lowest_value)` equals its value |
| ProcessFullDf.GetLowestFscpSubset | calc/process_full_df.py:54-77 | the selection is a subset of its input without NaN |
| ProcessFullDf.KeepSubset | calc/process_full_df.py:63 | a filter returns a subset |
| ProcessFullDf.FirstOfFscpDistinct | calc/process_full_df.py:75 | `drop_duplicates(subset=["fscp"])` leaves no two rows with one abatement cost |
| ProcessFullDf.GetLowestFscpDistinct | calc/process_full_df.py:73-75 | unless five rows survive the filters, the selection has one row per abatement cost |
| ProcessFullDf.SectorSurvives | calc/process_full_df.py:62-71 | a per-sector filter never empties a sector |
| ProcessFullDf.GetLowestFscpCoversSectors | calc/process_full_df.py:58-71 | every sector with a complete row is still present after the three filters |
| ProcessFullDf.GetLowestFscp | calc/process_full_df.py:54-77 | `get_lowest_fscp`: `dropna`, then the fscp, cost and emission filters per sector, and `drop_duplicates(subset=["fscp"])` unless exactly five rows are left. Stated by `GetLowestFscpSubset`, `GetLowestFscpDistinct` and `GetLowestFscpCoversSectors` |
| ProcessFullDf.ForceCcuOnlyFscp | calc/process_full_df.py:134-135 | forcing sets the fscp of CCU rows to 100000 and changes nothing else |
| ProcessFullDf.CcuPossible | calc/process_full_df.py:113-139 | the rule of `ccu_possible`: no winner uses CCU, or CCU winners sit both in a chem/plane/ship sector and in a steel/cement sector. Used by `CcuCheck` |
| ProcessFullDf.ForceCcu | calc/process_full_df.py:134-135 | sets the fscp of every CCU row to 100000. Stated by `ForceCcuOnlyFscp` and computed in place by `ForceCcuInPlace` |
| ProcessFullDf.CcuCheck | calc/process_full_df.py:113-139 | CCU is possible exactly as the rule states. If not, the big table is forced in place; otherwise it is unchanged |
| ProcessFullDf.ForceCcuInPlace | calc/process_full_df.py:134-135 | the in-place loop leaves the forced table |
| ProcessFullDf.FossilCapexsFrom | calc/process_full_df.py:101 | the fossil-capex comprehension raises exactly when some definition has no key |
| ProcessFullDf.RetrofitParams | calc/process_full_df.py:99-111 | no retrofit list gives no parameters |
| ProcessFullDf.ComputeRetrofitParams | calc/process_full_df.py:91-111 | the loop yields the specified parameters, or the error |
| ProcessFullDf.StepWrites | calc/process_full_df.py:103-109 | a pass over a retrofit technology writes its offset capex and its fossil counterpart's 0 |
| ProcessFullDf.RetrofitCapex | calc/process_full_df.py:103-108 | the offset capex of one retrofit technology: its capex minus its fossil counterpart's (0 when that is unlisted), rounded to one decimal; a missing capex raises. Stated by `RetrofitCapexOffset` |
| ProcessFullDf.RetrofitFossilZero | calc/process_full_df.py:109 | every retrofit technology's fossil counterpart ends with capex 0, when no retrofit technology is itself fossil |
| ProcessFullDf.RetrofitCapexOffset | calc/process_full_df.py:105-108 | a retrofit technology (the last with its key) gets `round(capex − fossil capex or 0, 1)` |
| GetDfPipeline.NoMinusOne | calc/process_full_df.py:200 | `replace(-1, NaN)` removes exactly the −1 values |
| GetDfPipeline.H2Cost | calc/process_full_df.py:189 | the h2 cost raises exactly without an "h2" row, and otherwise is that row's cost |
| GetDfPipeline.RowOf | calc/process_full_df.py:193-200 | a sector row takes its type and sector from the first "_" and its cost, emissions and electricity from the table, with −1 as NaN |
| GetDfPipeline.SectorRows | calc/process_full_df.py:193 | the sector table has exactly the rows whose name contains a sector word |
| GetDfPipeline.Fossils | calc/process_full_df.py:206 | `fossil_df` has exactly the fossil rows |
| GetDfPipeline.MergeFossil | calc/process_full_df.py:209 | the inner join pairs every row with every fossil row of its sector, and with nothing else |
| GetDfPipeline.ScoreAll | calc/process_full_df.py:209-214 | the merged rows are numbered and each is scored |
| GetDfPipeline.MaccTableIds | calc/process_full_df.py:209 | the merge gives a fresh index |
| GetDfPipeline.MaccTableRow | calc/process_full_df.py:209-214 | every row of `df_macc` is a sector row scored against a fossil row of its own sector |
| GetDfPipeline.FossilRowsIncomplete | calc/process_full_df.py:209-214 | a fossil row scored against itself has NaN fscp and is dropped by the selection |
| GetDfPipeline.IdsOf | calc/process_full_df.py:219 | the index labels of the winners |
| GetDfPipeline.Masked | calc/process_full_df.py:219-223 | the mask keeps exactly the non-winners, and drops CCU rows when coupling is on |
| GetDfPipeline.SelectRows | calc/process_full_df.py:216-238 | winners and runners-up are complete rows of the contested table, and runners-up are not winners. With coupling on, no CCU row is a runner-up |
| GetDfPipeline.SelectWithoutCcu | calc/process_full_df.py:221-228 | with coupling off, the CCU rule never applies |
| GetDfPipeline.Select | calc/process_full_df.py:216-238 | the winners by `get_lowest_fscp`, the runners-up among the masked rest; with coupling on and CCU not possible, the same on the forced table. Stated by `SelectRows` and `SelectWithoutCcu` |
| GetDfPipeline.WithDelta | calc/process_full_df.py:241-243 | every winner gets its margin and nothing else changes |
| GetDfPipeline.DeltaMeaning | calc/process_full_df.py:241-243 | the margin is `diff_fscp` over the sector's winners and runners-up: ≥ 0, 1000 when alone or negative, otherwise second smallest minus smallest |
| GetDfPipeline.DeltaAlone | calc/process_full_df.py:241-243 | a winner alone in its sector has margin 1000 |
| GetDfPipeline.Delta | calc/process_full_df.py:241-243 | `diff_fscp` over the fscp of the winners and runners-up of one winner's sector. Stated by `DeltaMeaning` and `DeltaAlone` |
| GetDfPipeline.GetDfSpec | calc/process_full_df.py:143-144 | retrofit without techs raises a ValueError |
| GetDfPipeline.GetDf | calc/process_full_df.py:141-251 | the method yields the specified rows, or the error |
| GetDfPipeline.ComputeRunArgs | calc/process_full_df.py:146-180 | the run arguments, with the retrofit capexes added when retrofitting |
| GetDfPipeline.ProcessTable | calc/process_full_df.py:186-243 | the steps after the run yield the specified rows |
| GetDfPipeline.SelectWinners | calc/process_full_df.py:216-238 | the winners and runners-up, as specified, with the CCU check done in place on a copy |
| GetDfPipeline.GetDfRows | calc/process_full_df.py:216-251 | every returned row is a complete winner with a margin ≥ 0, and is not fossil |
| GetDfPipeline.FromTableRows | calc/process_full_df.py:186-243 | the same for any results table; "not fossil" when the table names each technology once |
| GetDfPipeline.FromTable | calc/process_full_df.py:186-243 | the steps of `get_df` after the run: the h2 cost, the scored sector table, the selection and the margins. Stated by `FromTableRows` and checked in place by `ProcessTable` |
| GetDfPipeline.WinnersNotFossil | calc/process_full_df.py:216 | a winner is never its sector's fossil technology |

## Left out

- Reading `params.json`, and the `last_read_data` cache (calc/calc_costs.py:37-42, 111-116;
  calc/process_full_df.py:93-97). The parsed technology list is a parameter.
- Override persistence across runs. `row.update` mutates the cached definitions
  (calc/calc_costs.py:49). Every run here starts from the definitions it is given.
- pandas formatting:
  - `pd.DataFrame.from_dict` and the column labels;
  - the run-parameter columns (`df.assign`, calc/calc_costs.py:75, 146-147) as columns;
  - the colour column (calc/process_full_df.py:246) and the `scenario` column (248-249);
  - the unused `to_df_fmt` and the duplicate wrapper `calc_LCO_breakdown`.
- The display sort at calc/process_full_df.py:198. The sector table keeps the results-table
  order. That order decides which row `drop_duplicates(keep="first")` keeps, so the model may
  keep a different one of two tied rows.
- Run parameters inside the selection. `df.assign` copies every run parameter into every
  row, and `replace(-1, NaN)` (calc/process_full_df.py:200) and `dropna()` (59) act on those
  columns too. In the source, a run parameter that is None or −1 (for instance a retrofit
  capex offset of −1.0, added at calc/process_full_df.py:147-148) therefore empties every
  selection. `GetDfPipeline.FromTable` and `ProcessFullDf.GetLowestFscp` look only at the
  results columns and select as if that parameter were absent.
- IEEE floating point: overflow, infinities and the representation error of `round`. Reals
  are exact. A division by a zero fossil emission gives NaN (`Macc.Co2CompShare`) instead
  of ±inf. In the source a ±inf `co2_comp` survives `dropna`; here the NaN makes the row
  incomplete, so the selection drops a row that the source can keep.
- Values of the wrong type. The source would raise TypeError on, for instance, a text
  where a number is expected. Here such an attribute reads as absent, and such a feedstock
  demand as 0.
- Non-integer lifetimes. `TechSpec.Lifetime` replaces a lifetime that is not a natural
  number by the default 20, because the power is defined for natural exponents only.
- The set order of `common_subparams` (calc/calc_costs.py:238). The sub-expansion takes the
  expanded rows in list order, and a label written twice keeps the later value.
- Duplicate labels that `pd.concat` can create in an expanded row. Rows are maps; on a
  clash the consumer's own entry is kept.
- Dropping all-NaN columns. Rows are maps, so a column with no value in any row is simply
  absent.
- The display-related `get_dict` on a class-level `COMMON_DICT`. The registry is an explicit
  `Registry` object; `Tech.New` receives it, and the runs reset it.
- The legacy top-level `tech_class.py` and `calc_costs.py`. They are superseded duplicates
  and are not part of this model.
- CostBreakdown.ByTech: a table is a map from technology to row. When two definitions
  share a key, the component table has two rows with one technology; pandas keeps both index
  labels and aligns `combine_first` on them (calc/calc_costs.py:272-279), while the model
  keeps the cells of the later row only.
- ProcessFullDf.RetrofitCapexOffset: it is stated for the last definition with a given key
  and for retrofit keys without "fossil". Earlier duplicates are overwritten and are not
  described.
- ProcessFullDf.RetrofitFossilZero: it is stated only when no retrofit technology is itself
  a fossil one, because such a technology could overwrite another's zero.
