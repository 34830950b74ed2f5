/** Properties of one technology's evaluation: how the levelised cost splits into its recorded
    components, what compensation does to emissions and electricity, which registry lookups
    are silent and which raise. */
module TechProps {
  import opened Wrappers
  import opened Errors
  import opened PyDict
  import opened TechDataModel
  import opened TechSpec

  /** `LCO_comps.get(k, 0)`. */
  function CompGet(c: Comps, k: string): real {
    if k in c then c[k] else 0.0
  }

  /** The recorded components of the feedstocks from the `i`-th on. */
  function RecordedFeedstockTotal(fd: Dict<real>, i: nat, c: Comps): real
    requires i <= |fd|
    decreases |fd| - i
  {
    if i == |fd| then 0.0 else CompGet(c, fd[i].0) + RecordedFeedstockTotal(fd, i + 1, c)
  }

  predicate NoKeyFrom(fd: Dict<real>, i: nat, k: string) {
    forall j :: i <= j < |fd| ==> fd[j].0 != k
  }

  lemma {:induction false} RecordedFeedstockTotalFrame(fd: Dict<real>, i: nat, c: Comps, c': Comps)
    requires i <= |fd|
    requires forall j :: i <= j < |fd| ==> CompGet(c, fd[j].0) == CompGet(c', fd[j].0)
    ensures RecordedFeedstockTotal(fd, i, c) == RecordedFeedstockTotal(fd, i, c')
    decreases |fd| - i
  {
    if i < |fd| {
      RecordedFeedstockTotalFrame(fd, i + 1, c, c');
    }
  }

  /** The feedstock loop records exactly the feedstocks the registry knows, each under its own
      name, returns the sum of what it recorded, and leaves every other label alone. */
  lemma {:induction false} FeedstockCostsRecorded(fd: Dict<real>, i: nat, reg: Dict<TechData>, c: Comps)
    requires i <= |fd| && DistinctKeys(fd)
    requires forall j :: i <= j < |fd| ==> fd[j].0 !in c
    ensures FeedstockCostsFrom(fd, i, reg, c).cost ==
            RecordedFeedstockTotal(fd, i, FeedstockCostsFrom(fd, i, reg, c).comps)
    ensures forall j :: i <= j < |fd| ==>
              (fd[j].0 in FeedstockCostsFrom(fd, i, reg, c).comps <==> Get(reg, fd[j].0).Some?)
    ensures forall k :: NoKeyFrom(fd, i, k) ==>
              (k in FeedstockCostsFrom(fd, i, reg, c).comps <==> k in c) &&
              (k in c ==> FeedstockCostsFrom(fd, i, reg, c).comps[k] == c[k])
    decreases |fd| - i
  {
    if i < |fd| {
      var k0 := fd[i].0;
      var one := FeedstockCost(fd[i].1, k0, reg, c);
      var rest := FeedstockCostsFrom(fd, i + 1, reg, one.comps);
      assert NoKeyFrom(fd, i + 1, k0);
      FeedstockCostsRecorded(fd, i + 1, reg, one.comps);
      assert CompGet(rest.comps, k0) == one.cost;
      forall k | NoKeyFrom(fd, i, k)
        ensures (k in rest.comps <==> k in c) && (k in c ==> rest.comps[k] == c[k])
      {
        assert k != fd[i].0;
      }
    }
  }

  /** The labels the cost getters record besides the feedstock names. */
  const CostLabels: set<string> := {"capex", "opex", "other costs", "co2 tax", "co2 transport and storage", "LCO"}

  /** The sum of the recorded capex, opex, other-costs, feedstock, co2-tax and co2-storage components. */
  function ComponentTotal(c: Comps, fd: Dict<real>): real {
    CompGet(c, "capex") + CompGet(c, "opex") + CompGet(c, "other costs") + RecordedFeedstockTotal(fd, 0, c)
    + CompGet(c, "co2 tax") + CompGet(c, "co2 transport and storage")
  }

  /** The cost terms `get_LCO` adds up when compensation and CCU income are off. */
  datatype Terms = Terms(c1: Costed, c2: Costed, c3: Costed, c4: Costed, c5: Costed)

  function TermsOf(a: Attrs, fd: Dict<real>, reg: Dict<TechData>): Option<Terms> {
    match LcoxWoEnergy(a, map[])
    case Err(_) => None
    case Ok(c1) =>
      var c2 := OtherCosts(a, c1.comps);
      var c3 := FeedstockCostsFrom(fd, 0, reg, c2.comps);
      var c4 := CarbonTax(a, fd, reg, c3.comps);
      Some(Terms(c1, c2, c3, c4, Co2StorageCost(a, reg, c4.comps)))
  }

  lemma GetLcoTerms(a: Attrs, fd: Dict<real>, reg: Dict<TechData>)
    requires !FlagAttr(a, "compensation") && !FlagAttr(a, "co2ccuincome") && NumAttr(a, "LCO").None?
    ensures GetLco(a, fd, reg, map[]).Ok? <==> TermsOf(a, fd, reg).Some?
    ensures TermsOf(a, fd, reg).Some? ==>
      var t := TermsOf(a, fd, reg).value;
      var total := t.c1.cost + t.c2.cost + t.c3.cost + t.c4.cost + t.c5.cost;
      GetLco(a, fd, reg, map[]).value == Costed(total, t.c5.comps["LCO" := total])
  {
  }

  /** With compensation and CCU income off, a computed LCO is the sum of the components it
      records, and is itself recorded under "LCO". */
  lemma LcoIsSumOfComponents(a: Attrs, fd: Dict<real>, reg: Dict<TechData>)
    requires DistinctKeys(fd) && forall j :: 0 <= j < |fd| ==> fd[j].0 !in CostLabels
    requires !FlagAttr(a, "compensation") && !FlagAttr(a, "co2ccuincome") && NumAttr(a, "LCO").None?
    ensures GetLco(a, fd, reg, map[]).Ok? ==>
      var r := GetLco(a, fd, reg, map[]).value;
      "LCO" in r.comps && r.comps["LCO"] == r.cost && r.cost == ComponentTotal(r.comps, fd)
  {
    GetLcoTerms(a, fd, reg);
    if TermsOf(a, fd, reg).Some? {
      var t := TermsOf(a, fd, reg).value;
      var r := GetLco(a, fd, reg, map[]).value;
      TermsSum(t, fd, reg, r);
    }
  }

  lemma TermsSum(t: Terms, fd: Dict<real>, reg: Dict<TechData>, r: Costed)
    requires DistinctKeys(fd) && forall j :: 0 <= j < |fd| ==> fd[j].0 !in CostLabels
    requires "capex" in t.c1.comps && "opex" in t.c1.comps && t.c1.comps.Keys == {"capex", "opex"}
    requires t.c1.cost == t.c1.comps["capex"] + t.c1.comps["opex"]
    requires t.c2.comps == t.c1.comps["other costs" := t.c2.cost]
    requires t.c3 == FeedstockCostsFrom(fd, 0, reg, t.c2.comps)
    requires t.c4 == Costed(0.0, t.c3.comps) || t.c4.comps == t.c3.comps["co2 tax" := t.c4.cost]
    requires t.c5 == Costed(0.0, t.c4.comps) || t.c5.comps == t.c4.comps["co2 transport and storage" := t.c5.cost]
    requires r.cost == t.c1.cost + t.c2.cost + t.c3.cost + t.c4.cost + t.c5.cost
    requires r.comps == t.c5.comps["LCO" := r.cost]
    ensures "LCO" in r.comps && r.comps["LCO"] == r.cost && r.cost == ComponentTotal(r.comps, fd)
  {
    assert t.c2.comps.Keys == {"capex", "opex", "other costs"};
    FeedstockCostsRecorded(fd, 0, reg, t.c2.comps);
    forall k | k in CostLabels ensures NoKeyFrom(fd, 0, k) { }
    assert "co2 tax" !in t.c3.comps && "co2 transport and storage" !in t.c3.comps;
    assert forall j :: 0 <= j < |fd| ==> CompGet(t.c3.comps, fd[j].0) == CompGet(r.comps, fd[j].0);
    RecordedFeedstockTotalFrame(fd, 0, t.c3.comps, r.comps);
    assert CompGet(r.comps, "capex") + CompGet(r.comps, "opex") == t.c1.cost;
    assert CompGet(r.comps, "other costs") == t.c2.cost;
    assert CompGet(r.comps, "co2 tax") == t.c4.cost;
    assert CompGet(r.comps, "co2 transport and storage") == t.c5.cost;
  }

  /** An LCO set on the definition is returned unchanged and is then the only recorded component. */
  lemma ExplicitLcoKept(a: Attrs, fd: Dict<real>, reg: Dict<TechData>)
    requires NumAttr(a, "LCO").Some?
    ensures AppendDict(a, fd, reg).Ok? ==>
      AppendDict(a, fd, reg).value.data.lco == NumAttr(a, "LCO").value &&
      AppendDict(a, fd, reg).value.comps == map["LCO" := NumAttr(a, "LCO").value]
  {
  }

  /** Two attribute sets that agree on everything the emission and electricity formulas read. */
  predicate SameInputs(a: Attrs, b: Attrs) {
    && NumAttr(a, "co2em") == NumAttr(b, "co2em")
    && NumAttr(a, "co2capt") == NumAttr(b, "co2capt")
    && NumAttr(a, "co2ccusupply") == NumAttr(b, "co2ccusupply")
    && NumAttr(a, "recycledco2") == NumAttr(b, "recycledco2")
    && FlagAttr(a, "compensation") == FlagAttr(b, "compensation")
    && FlagAttr(a, "offgrid") == FlagAttr(b, "offgrid")
  }

  lemma SameInputsSameResults(a: Attrs, b: Attrs, fd: Dict<real>, reg: Dict<TechData>)
    requires SameInputs(a, b)
    ensures TotalEm(a, fd, reg) == TotalEm(b, fd, reg)
    ensures EffElec(a, fd, reg) == EffElec(b, fd, reg)
    ensures EffEm(a, fd, reg) == EffEm(b, fd, reg)
  {
    assert Co2Ccu(a, reg) == Co2Ccu(b, reg);
    SameTermsSameTotalEm(a, b, fd, reg);
  }

  lemma SameTermsSameTotalEm(a: Attrs, b: Attrs, fd: Dict<real>, reg: Dict<TechData>)
    requires DirectEm(a) == DirectEm(b) && Co2Capt(a) == Co2Capt(b) && RecycledCo2(a) == RecycledCo2(b)
    requires Co2Ccu(a, reg) == Co2Ccu(b, reg)
    ensures TotalEm(a, fd, reg) == TotalEm(b, fd, reg)
  {
  }

  /** Caching the LCO changes no attribute the emission and electricity formulas read. */
  lemma CachedLcoInvisible(a: Attrs, x: real, fd: Dict<real>, reg: Dict<TechData>)
    ensures TotalEm(a["LCO" := Num(x)], fd, reg) == TotalEm(a, fd, reg)
    ensures EffEm(a["LCO" := Num(x)], fd, reg) == EffEm(a, fd, reg)
    ensures EffElec(a["LCO" := Num(x)], fd, reg) == EffElec(a, fd, reg)
    ensures TextAttr(a["LCO" := Num(x)], "desc") == TextAttr(a, "desc")
  {
    var a' := a["LCO" := Num(x)];
    assert NumAttr(a', "co2em") == NumAttr(a, "co2em");
    assert NumAttr(a', "co2capt") == NumAttr(a, "co2capt");
    assert NumAttr(a', "co2ccusupply") == NumAttr(a, "co2ccusupply");
    assert NumAttr(a', "recycledco2") == NumAttr(a, "recycledco2");
    assert FlagAttr(a', "compensation") == FlagAttr(a, "compensation");
    assert FlagAttr(a', "offgrid") == FlagAttr(a, "offgrid");
    SameInputsSameResults(a', a, fd, reg);
  }

  /** What a successful `append_dict` stores, in terms of the attributes before the LCO is cached. */
  lemma AppendDictRecord(a: Attrs, fd: Dict<real>, reg: Dict<TechData>)
    ensures AppendDict(a, fd, reg).Ok? ==>
      GetLco(a, fd, reg, map[]).Ok? &&
      Record(a, GetLco(a, fd, reg, map[]).value.cost, fd, reg) == Ok(AppendDict(a, fd, reg).value.data)
  {
    if TextAttr(a, "key").Some? && GetLco(a, fd, reg, map[]).Ok? {
      var l := GetLco(a, fd, reg, map[]).value.cost;
      if NumAttr(a, "LCO").None? {
        CachedLcoInvisible(a, l, fd, reg);
        assert Record(a["LCO" := Num(l)], l, fd, reg) == Record(a, l, fd, reg);
      }
    }
  }

  lemma CompensatedRecord(a: Attrs, l: real, fd: Dict<real>, reg: Dict<TechData>)
    requires FlagAttr(a, "compensation")
    ensures Record(a, l, fd, reg).Ok? ==>
      var d := Record(a, l, fd, reg).value;
      && !FlagAttr(a, "offgrid") && Get(reg, "co2").Some? && Get(reg, "elec").Some?
      && d.elec == TotalElec(fd, reg) + Times(TotalEm(a, fd, reg), Get(reg, "co2").value.elec)
      && d.em == Times(d.elec, Get(reg, "elec").value.em)
      && d.co2Comp == TotalEm(a, fd, reg) - d.em
  {
  }

  /** Under compensation the record keeps only the emissions of the effective electricity, which
      adds the DAC electricity for the total emissions; the difference is recorded as co2_comp.
      Offgrid electricity at the same time is rejected, and the "co2" and "elec" records must exist. */
  lemma CompensationEffects(a: Attrs, fd: Dict<real>, reg: Dict<TechData>)
    requires FlagAttr(a, "compensation")
    ensures AppendDict(a, fd, reg).Ok? ==>
      var d := AppendDict(a, fd, reg).value.data;
      && !FlagAttr(a, "offgrid") && Get(reg, "co2").Some? && Get(reg, "elec").Some?
      && d.elec == TotalElec(fd, reg) + Times(TotalEm(a, fd, reg), Get(reg, "co2").value.elec)
      && d.em == Times(d.elec, Get(reg, "elec").value.em)
      && d.co2Comp == TotalEm(a, fd, reg) - d.em
  {
    AppendDictRecord(a, fd, reg);
    if AppendDict(a, fd, reg).Ok? {
      CompensatedRecord(a, GetLco(a, fd, reg, map[]).value.cost, fd, reg);
    }
  }

  lemma UncompensatedRecord(a: Attrs, l: real, fd: Dict<real>, reg: Dict<TechData>)
    requires !FlagAttr(a, "compensation")
    ensures Record(a, l, fd, reg).Ok? ==>
      var d := Record(a, l, fd, reg).value;
      d.em == TotalEm(a, fd, reg) && d.elec == TotalElec(fd, reg) && d.co2Comp == 0.0
  {
  }

  /** Without compensation the record holds the total emissions and electricity and co2_comp is 0. */
  lemma NoCompensationNoDelta(a: Attrs, fd: Dict<real>, reg: Dict<TechData>)
    requires !FlagAttr(a, "compensation")
    ensures AppendDict(a, fd, reg).Ok? ==>
      var d := AppendDict(a, fd, reg).value.data;
      d.em == TotalEm(a, fd, reg) && d.elec == TotalElec(fd, reg) && d.co2Comp == 0.0
  {
    AppendDictRecord(a, fd, reg);
    if AppendDict(a, fd, reg).Ok? {
      UncompensatedRecord(a, GetLco(a, fd, reg, map[]).value.cost, fd, reg);
    }
  }

  /** Compensation together with offgrid electricity raises once the LCO is known. */
  lemma CompensationWithOffgridRaises(a: Attrs, fd: Dict<real>, reg: Dict<TechData>)
    requires FlagAttr(a, "compensation") && FlagAttr(a, "offgrid")
    requires TextAttr(a, "key").Some? && GetLco(a, fd, reg, map[]).Ok?
    ensures AppendDict(a, fd, reg) == Err(CompensationWithOffgrid)
  {
    CachedLcoInvisible(a, GetLco(a, fd, reg, map[]).value.cost, fd, reg);
  }

  /** The compensation path looks up the "co2" record without a guard. */
  lemma CompensationNeedsCo2Record(a: Attrs, fd: Dict<real>, reg: Dict<TechData>)
    requires FlagAttr(a, "compensation") && Get(reg, "co2").None?
    ensures AppendDict(a, fd, reg).Err?
  {
    if AppendDict(a, fd, reg).Ok? {
      CompensationEffects(a, fd, reg);
    }
  }

  lemma {:induction false} SumPop(fd: Dict<real>, f: (string, real) -> real, k: string)
    requires DistinctKeys(fd) && Get(fd, k).Some?
    ensures Sum(fd, f) == f(k, Get(fd, k).value) + Sum(Pop(fd, k), f)
    decreases |fd|
  {
    if fd[0].0 != k {
      assert DistinctKeys(fd[1..]) by {
        forall i, j | 0 <= i < j < |fd[1..]| ensures fd[1..][i].0 != fd[1..][j].0 {
          assert fd[1..][i] == fd[i + 1] && fd[1..][j] == fd[j + 1];
        }
      }
      SumPop(fd[1..], f, k);
      var p := Pop(fd, k);
      assert p[0] == fd[0] && p[1..] == Pop(fd[1..], k);
    }
  }

  /** A feedstock the registry does not know adds nothing to the emissions, the electricity
      (unless it is electricity itself) or the CO2 demand (unless it is CO2 itself). */
  lemma UnknownFeedstockIgnored(a: Attrs, fd: Dict<real>, reg: Dict<TechData>, k: string)
    requires DistinctKeys(fd) && Get(fd, k).Some? && Get(reg, k).None?
    ensures TotalEm(a, fd, reg) == TotalEm(a, Pop(fd, k), reg)
    ensures k != "elec" && k != "elecoffgrid" ==> TotalElec(fd, reg) == TotalElec(Pop(fd, k), reg)
    ensures k != "co2" ==> TotalCo2dem(fd, reg) == TotalCo2dem(Pop(fd, k), reg)
  {
    SumPop(fd, EmOf(reg), k);
    SumPop(fd, ElecOf(reg), k);
    SumPop(fd, Co2demOf(reg), k);
  }

  /** The direct "elec" demand enters the total electricity twice, once through
      `feedstock_demand.get("elec", 0)` and once as a feedstock of its own. */
  lemma ElecCountedTwice(fd: Dict<real>, reg: Dict<TechData>)
    requires DistinctKeys(fd) && Get(fd, "elec").Some?
    ensures TotalElec(fd, reg) == 2.0 * Get(fd, "elec").value + Sum(Pop(fd, "elec"), ElecOf(reg))
  {
    SumPop(fd, ElecOf(reg), "elec");
  }

  /** An "elecoffgrid" demand enters the total electricity once. */
  lemma OffgridElecCountedOnce(fd: Dict<real>, reg: Dict<TechData>)
    requires DistinctKeys(fd) && Get(fd, "elec").None? && Get(fd, "elecoffgrid").Some?
    ensures TotalElec(fd, reg) == Get(fd, "elecoffgrid").value + Sum(Pop(fd, "elecoffgrid"), ElecOf(reg))
  {
    SumPop(fd, ElecOf(reg), "elecoffgrid");
  }

  /** A definition with a key outside the allow-list that does not contain "demand" is rejected,
      naming the first such key. */
  lemma UnknownKeyRejected(fields: Dict<Value>, comp: bool, ccu: bool, reg: Dict<TechData>)
    requires HasUnknownFrom(fields, 0)
    ensures exists j :: 0 <= j < |fields| && Classify(fields[j].0).Unknown? && !HasUnknownFrom(fields[..j], 0)
              && Evaluate(fields, comp, ccu, reg) == Err(UnknownAttribute(fields[j].0))
  {
    SetAttrsHandlesEachKey(fields, 0, InitialSetup);
  }

  /** With every key handled, the evaluated attributes are the defaults overridden by the
      allow-listed keys (a later key wins) plus the LCO, and the two flags only ever turn on. */
  lemma EvaluatedAttributes(fields: Dict<Value>, comp: bool, ccu: bool, reg: Dict<TechData>)
    ensures Evaluate(fields, comp, ccu, reg).Ok? ==>
      var a := Evaluate(fields, comp, ccu, reg).value.attrs;
      var a0 := InitialAttrs + AttrMap(fields, 0);
      && (forall k :: k != "LCO" && k != "compensation" && k != "co2ccuincome" ==>
            (k in a <==> k in a0) && (k in a0 ==> a[k] == a0[k]))
      && (FlagAttr(a0, "compensation") ==> FlagAttr(a, "compensation"))
      && (FlagAttr(a0, "co2ccuincome") ==> FlagAttr(a, "co2ccuincome"))
  {
    if Evaluate(fields, comp, ccu, reg).Ok? {
      var s := Prepare(fields, comp, ccu).value;
      assert Evaluate(fields, comp, ccu, reg) == AppendDict(s.attrs, s.feedstock, reg);
      PreparedAttributes(fields, comp, ccu);
      AppendDictAttributes(s.attrs, s.feedstock, reg);
    }
  }

  /** The attributes `set_attr`, `check_comp` and `check_ccuincome` leave behind. */
  lemma PreparedAttributes(fields: Dict<Value>, comp: bool, ccu: bool)
    ensures Prepare(fields, comp, ccu).Ok? ==>
      var a := Prepare(fields, comp, ccu).value.attrs;
      var a0 := InitialAttrs + AttrMap(fields, 0);
      && (forall k :: k != "compensation" && k != "co2ccuincome" ==>
            (k in a <==> k in a0) && (k in a0 ==> a[k] == a0[k]))
      && (FlagAttr(a0, "compensation") ==> FlagAttr(a, "compensation"))
      && (FlagAttr(a0, "co2ccuincome") ==> FlagAttr(a, "co2ccuincome"))
  {
    SetAttrsHandlesEachKey(fields, 0, InitialSetup);
  }

  /** `append_dict` changes no attribute but the cached LCO. */
  lemma AppendDictAttributes(a: Attrs, fd: Dict<real>, reg: Dict<TechData>)
    ensures AppendDict(a, fd, reg).Ok? ==>
      var a' := AppendDict(a, fd, reg).value.attrs;
      forall k :: k != "LCO" ==> (k in a' <==> k in a) && (k in a ==> a'[k] == a[k])
  {
  }
}
