/** The technology object and the registry it writes into. A `Tech` is built from its
    definition, fills its attributes and feedstock demand step by step, records its cost
    components while the levelised cost is computed, and finally writes its record into the
    registry shared by all technologies of a run. Every method is specified by the functions
    of `TechSpec`. */
module TechClass {
  import opened Wrappers
  import opened Errors
  import opened PyStr
  import opened PyDict
  import opened TechDataModel
  import opened TechSpec

  /** The registry of evaluated technologies (`Tech.COMMON_DICT`), in insertion order. */
  class Registry {
    var records: Dict<TechData>

    constructor()
      ensures records == []
    {
      records := [];
    }

    /** `Tech.COMMON_DICT = {}` at the start of a run. */
    method Reset()
      modifies this
      ensures records == []
    {
      records := [];
    }

    /** `COMMON_DICT[key] = record`: a new key is appended, an existing one keeps its place. */
    method Put(key: string, d: TechData)
      modifies this
      ensures records == Set(old(records), key, d)
    {
      records := Set(records, key, d);
    }

    /** `get_dict()`: one table row per registered technology, in registry order. */
    function Table(): (t: Dict<seq<Cell>>)
      reads this
      ensures Keys(t) == Keys(records)
      ensures forall k :: Get(t, k) == match Get(records, k) case Some(d) => Some(GetVals(d)) case None => None
    {
      MapValues(records, GetVals)
    }
  }

  /** How a cost getter's outcome relates to its specification: the returned cost and the
      components afterwards, or the same error. */
  predicate CostedAs(r: Result<real, Error>, comps: Comps, s: Result<Costed, Error>) {
    match s
    case Ok(c) => r == Ok(c.cost) && comps == c.comps
    case Err(e) => r == Err(e)
  }

  /** `get_LCO`'s sum from the outcomes of its getters: the first error, or the sum of the
      terms with the components the last getter left. */
  lemma ComputedFromParts(a: Attrs, fd: Dict<real>, reg: Dict<TechData>, c0: Comps, c1: Comps, c2: Comps,
                          b: Result<real, Error>, r6: Result<real, Error>, r7: Result<real, Error>,
                          r: Result<real, Error>)
    requires CostedAs(b, c1, BaseLco(a, fd, reg, c0))
    requires b.Ok? ==> CostedAs(r6, c2, CompCost(a, fd, reg, c1))
    requires b.Ok? && r6.Ok? ==> r7 == CcuIncome(a, reg)
    requires r == if b.Err? then Err(b.error) else if r6.Err? then Err(r6.error) else if r7.Err? then Err(r7.error)
                  else Ok(b.value + r6.value + r7.value)
    ensures CostedAs(r, c2, ComputedLco(a, fd, reg, c0))
  {
    var l := ComputedLco(a, fd, reg, c0);
    if b.Err? {
      assert BaseLco(a, fd, reg, c0) == Err(b.error);
      assert l == Err(b.error) && r == Err(b.error);
    } else {
      assert BaseLco(a, fd, reg, c0).Ok? && BaseLco(a, fd, reg, c0).value.comps == c1;
      if r6.Err? {
        assert CompCost(a, fd, reg, c1) == Err(r6.error);
        assert l == Err(r6.error) && r == Err(r6.error);
      } else if r7.Err? {
        assert CompCost(a, fd, reg, c1).Ok? && CcuIncome(a, reg) == Err(r7.error);
        assert l == Err(r7.error) && r == Err(r7.error);
      } else {
        CostedAsOk(b, c1, BaseLco(a, fd, reg, c0));
        CostedAsOk(r6, c2, CompCost(a, fd, reg, c1));
        ComputedSum(a, fd, reg, c0);
      }
    }
  }

  lemma ComputedSum(a: Attrs, fd: Dict<real>, reg: Dict<TechData>, c0: Comps)
    requires BaseLco(a, fd, reg, c0).Ok?
    requires CompCost(a, fd, reg, BaseLco(a, fd, reg, c0).value.comps).Ok? && CcuIncome(a, reg).Ok?
    ensures var base := BaseLco(a, fd, reg, c0).value;
      var cc := CompCost(a, fd, reg, base.comps).value;
      ComputedLco(a, fd, reg, c0) == Ok(Costed(base.cost + cc.cost + CcuIncome(a, reg).value, cc.comps))
  {
    var base := BaseLco(a, fd, reg, c0).value;
    var cc := CompCost(a, fd, reg, base.comps).value;
    var l := ComputedLco(a, fd, reg, c0);
    assert l.Ok? && l.value.comps == cc.comps;
    assert l.value.cost == base.cost + cc.cost + CcuIncome(a, reg).value;
  }

  lemma CostedAsOk(r: Result<real, Error>, comps: Comps, s: Result<Costed, Error>)
    requires CostedAs(r, comps, s) && s.Ok?
    ensures r == Ok(s.value.cost) && comps == s.value.comps
  {
  }

  class Tech {
    var initDict: Dict<Value>
    var attrs: Attrs
    var feedstockDemand: Dict<real>
    var lcoComps: Comps

    /** The field initialisation at the start of `__init__`. */
    constructor(initDict: Dict<Value>)
      ensures this.initDict == initDict && attrs == InitialAttrs
      ensures feedstockDemand == [] && lcoComps == map[]
    {
      this.initDict := initDict;
      attrs := InitialAttrs;
      feedstockDemand := [];
      lcoComps := map[];
    }

    /** `__init__`: builds the technology from its definition and registers its record. On
        an error nothing is registered. */
    static method New(initDict: Dict<Value>, comp: bool, ccuIncome: bool, reg: Registry)
      returns (t: Tech, res: Result<TechData, Error>)
      modifies reg
      ensures fresh(t)
      ensures var e := Evaluate(initDict, comp, ccuIncome, old(reg.records));
        match e
        case Ok(ev) =>
          && res == Ok(ev.data) && reg.records == Set(old(reg.records), ev.key, ev.data)
          && t.attrs == ev.attrs && t.lcoComps == ev.comps
        case Err(err) => res == Err(err) && reg.records == old(reg.records)
    {
      t := new Tech(initDict);
      var r := t.Prepare(comp, ccuIncome);
      if r.Err? {
        res := Err(r.error);
        return;
      }
      res := t.AppendDict(reg);
    }

    /** The part of `__init__` before `append_dict`: `set_attr` and the three checks. */
    method Prepare(comp: bool, ccuIncome: bool) returns (res: Result<(), Error>)
      requires attrs == InitialAttrs && feedstockDemand == [] && lcoComps == map[]
      modifies this
      ensures initDict == old(initDict) && lcoComps == map[]
      ensures match TechSpec.Prepare(initDict, comp, ccuIncome)
        case Ok(s) => res.Ok? && attrs == s.attrs && feedstockDemand == s.feedstock && DistinctKeys(feedstockDemand)
        case Err(e) => res == Err(e)
    {
      ghost var s := SetAttrsFrom(initDict, 0, InitialSetup);
      var r := SetAttr();
      if r.Err? {
        return r;
      }
      SetAttrsDistinct(initDict);
      assert s.Ok? && attrs == s.value.attrs && feedstockDemand == s.value.feedstock;
      ghost var fd := TechSpec.CheckOffgrid(s.value.attrs, s.value.feedstock);
      r := CheckOffgrid();
      if r.Err? {
        return r;
      }
      assert fd.Ok? && feedstockDemand == fd.value;
      ghost var key := TextAttr(s.value.attrs, "key");
      r := CheckComp(comp);
      if r.Err? {
        return r;
      }
      assert TextAttr(attrs, "key") == key;
      r := CheckCcuIncome(ccuIncome);
      if r.Err? {
        return r;
      }
      assert TextAttr(attrs, "key") == key;
      if TextAttr(attrs, "key").None? {
        return Err(MissingKey);
      }
      ghost var k := key.value;
      assert attrs == CheckFlag(CheckFlag(s.value.attrs, "compensation", comp, k), "co2ccuincome", ccuIncome, k);
      assert TechSpec.Prepare(initDict, comp, ccuIncome) == Ok(Setup(attrs, feedstockDemand));
      return Ok(());
    }

    /** `set_attr`: each definition key becomes an attribute or a feedstock demand, or raises. */
    method SetAttr() returns (res: Result<(), Error>)
      modifies this
      ensures initDict == old(initDict) && lcoComps == old(lcoComps)
      ensures var s := SetAttrsFrom(initDict, 0, Setup(old(attrs), old(feedstockDemand)));
        match s
        case Ok(v) => res.Ok? && attrs == v.attrs && feedstockDemand == v.feedstock
        case Err(e) => res == Err(e)
    {
      ghost var s0 := Setup(attrs, feedstockDemand);
      for i := 0 to |initDict|
        invariant initDict == old(initDict) && lcoComps == old(lcoComps)
        invariant SetAttrsFrom(initDict, 0, s0) == SetAttrsFrom(initDict, i, Setup(attrs, feedstockDemand))
      {
        var r := SetOne(initDict[i].0, initDict[i].1);
        if r.Err? {
          return r;
        }
      }
      return Ok(());
    }

    /** The body of the `set_attr` loop for one key. */
    method SetOne(k: string, v: Value) returns (res: Result<(), Error>)
      modifies this
      ensures initDict == old(initDict) && lcoComps == old(lcoComps)
      ensures match HandleKey(Setup(old(attrs), old(feedstockDemand)), k, v)
        case Ok(s) => res.Ok? && attrs == s.attrs && feedstockDemand == s.feedstock
        case Err(e) => res == Err(e)
    {
      if k in AllowedAttrs {
        AddAttr(k, v);
      } else if Contains(k, "demand") {
        AddFeedstockCost(k, v);
        assert Classify(k) == Feedstock(k[..Find(k, "demand").value]);
      } else {
        return Err(UnknownAttribute(k));
      }
      return Ok(());
    }

    /** `add_attr`: `setattr(self, k, v)`. */
    method AddAttr(k: string, v: Value)
      modifies this
      ensures attrs == old(attrs)[k := v]
      ensures initDict == old(initDict) && feedstockDemand == old(feedstockDemand) && lcoComps == old(lcoComps)
    {
      attrs := attrs[k := v];
    }

    /** `add_feedstock_cost`: the demand is stored under the text before the first "demand". */
    method AddFeedstockCost(k: string, v: Value)
      requires Contains(k, "demand")
      modifies this
      ensures feedstockDemand == Set(old(feedstockDemand), k[..Find(k, "demand").value], AsNumber(v).GetOr(0.0))
      ensures initDict == old(initDict) && attrs == old(attrs) && lcoComps == old(lcoComps)
    {
      var x := Find(k, "demand").value;
      feedstockDemand := Set(feedstockDemand, k[..x], AsNumber(v).GetOr(0.0));
    }

    /** `check_offgrid`: `feedstock_demand["elecoffgrid"] = feedstock_demand.pop("elec")`. */
    method CheckOffgrid() returns (res: Result<(), Error>)
      requires DistinctKeys(feedstockDemand)
      modifies this
      ensures initDict == old(initDict) && attrs == old(attrs) && lcoComps == old(lcoComps)
      ensures match TechSpec.CheckOffgrid(attrs, old(feedstockDemand))
        case Ok(fd) => res.Ok? && feedstockDemand == fd
        case Err(e) => res == Err(e) && feedstockDemand == old(feedstockDemand)
    {
      if FlagAttr(attrs, "offgrid") {
        match Get(feedstockDemand, "elec")
        case None =>
          return Err(MissingElecDemand);
        case Some(q) =>
          feedstockDemand := Set(Pop(feedstockDemand, "elec"), "elecoffgrid", q);
      }
      return Ok(());
    }

    /** `check_comp`: the key is read only when the run flag is on. */
    method CheckComp(comp: bool) returns (res: Result<(), Error>)
      modifies this
      ensures initDict == old(initDict) && feedstockDemand == old(feedstockDemand) && lcoComps == old(lcoComps)
      ensures comp && TextAttr(old(attrs), "key").None? ==> res == Err(MissingKey) && attrs == old(attrs)
      ensures !(comp && TextAttr(old(attrs), "key").None?) ==>
        res.Ok? && attrs == CheckFlag(old(attrs), "compensation", comp, TextAttr(old(attrs), "key").GetOr(""))
    {
      res := CheckSectorFlag("compensation", comp);
    }

    /** `check_ccuincome`. */
    method CheckCcuIncome(ccuIncome: bool) returns (res: Result<(), Error>)
      modifies this
      ensures initDict == old(initDict) && feedstockDemand == old(feedstockDemand) && lcoComps == old(lcoComps)
      ensures ccuIncome && TextAttr(old(attrs), "key").None? ==> res == Err(MissingKey) && attrs == old(attrs)
      ensures !(ccuIncome && TextAttr(old(attrs), "key").None?) ==>
        res.Ok? && attrs == CheckFlag(old(attrs), "co2ccuincome", ccuIncome, TextAttr(old(attrs), "key").GetOr(""))
    {
      res := CheckSectorFlag("co2ccuincome", ccuIncome);
    }

    method CheckSectorFlag(name: string, runFlag: bool) returns (res: Result<(), Error>)
      modifies this
      ensures initDict == old(initDict) && feedstockDemand == old(feedstockDemand) && lcoComps == old(lcoComps)
      ensures runFlag && TextAttr(old(attrs), "key").None? ==> res == Err(MissingKey) && attrs == old(attrs)
      ensures !(runFlag && TextAttr(old(attrs), "key").None?) ==>
        res.Ok? && attrs == CheckFlag(old(attrs), name, runFlag, TextAttr(old(attrs), "key").GetOr(""))
    {
      if !runFlag {
        return Ok(());
      }
      match TextAttr(attrs, "key")
      case None =>
        return Err(MissingKey);
      case Some(key) =>
        if ContainsAny(key, Sectors) && !Contains(key, "fossil") {
          attrs := attrs[name := Flag(true)];
        }
        return Ok(());
    }

    /** `LCOX_wo_energy`. */
    method LcoxWoEnergy() returns (r: Result<real, Error>)
      modifies this
      ensures initDict == old(initDict) && attrs == old(attrs) && feedstockDemand == old(feedstockDemand)
      ensures CostedAs(r, lcoComps, TechSpec.LcoxWoEnergy(attrs, old(lcoComps)))
    {
      var ann := 0.0;
      if NumAttr(attrs, "capex").Some? {
        var anf := Anf(NumAttr(attrs, "wacc").GetOr(0.1), Lifetime(attrs));
        if anf.Err? {
          return Err(anf.error);
        }
        ann := NumAttr(attrs, "capex").value * anf.value;
      }
      var fix := FixedOpex(attrs);
      var flh := Flh(attrs);
      if flh == 0.0 {
        return Err(ZeroDivision);
      }
      lcoComps := lcoComps["capex" := ann / flh];
      lcoComps := lcoComps["opex" := fix / flh];
      return Ok((ann + fix) / flh);
    }

    /** `get_other_costs`. */
    method GetOtherCosts() returns (c: real)
      modifies this
      ensures initDict == old(initDict) && attrs == old(attrs) && feedstockDemand == old(feedstockDemand)
      ensures Costed(c, lcoComps) == OtherCosts(attrs, old(lcoComps))
    {
      c := NumAttr(attrs, "othercosts").GetOr(0.0);
      lcoComps := lcoComps["other costs" := c];
    }

    /** `get_feedstock_cost(key)`. */
    method GetFeedstockCost(key: string, reg: Registry) returns (c: real)
      modifies this
      ensures initDict == old(initDict) && attrs == old(attrs) && feedstockDemand == old(feedstockDemand)
      ensures Get(feedstockDemand, key).None? ==> c == 0.0 && lcoComps == old(lcoComps)
      ensures Get(feedstockDemand, key).Some? ==>
        Costed(c, lcoComps) == FeedstockCost(Get(feedstockDemand, key).value, key, reg.records, old(lcoComps))
    {
      match (Get(feedstockDemand, key), Get(reg.records, key))
      case (Some(q), Some(d)) =>
        c := Times(q, d.lco);
        lcoComps := lcoComps[key := c];
      case _ =>
        c := 0.0;
    }

    /** `get_total_feedstock_costs`: the feedstock getters summed in demand order. */
    method GetTotalFeedstockCosts(reg: Registry) returns (c: real)
      requires DistinctKeys(feedstockDemand)
      modifies this
      ensures initDict == old(initDict) && attrs == old(attrs) && feedstockDemand == old(feedstockDemand)
      ensures Costed(c, lcoComps) == FeedstockCostsFrom(feedstockDemand, 0, reg.records, old(lcoComps))
    {
      c := 0.0;
      ghost var c0 := lcoComps;
      for i := 0 to |feedstockDemand|
        invariant initDict == old(initDict) && attrs == old(attrs) && feedstockDemand == old(feedstockDemand)
        invariant FeedstockCostsFrom(feedstockDemand, 0, reg.records, c0) ==
          var rest := FeedstockCostsFrom(feedstockDemand, i, reg.records, lcoComps);
          Costed(c + rest.cost, rest.comps)
      {
        assert Get(feedstockDemand, feedstockDemand[i].0) == Some(feedstockDemand[i].1) by {
          GetDistinct(feedstockDemand, i);
        }
        var x := GetFeedstockCost(feedstockDemand[i].0, reg);
        c := c + x;
      }
    }

    /** `get_carbon_tax`. */
    method GetCarbonTax(reg: Registry) returns (c: real)
      modifies this
      ensures initDict == old(initDict) && attrs == old(attrs) && feedstockDemand == old(feedstockDemand)
      ensures Costed(c, lcoComps) == CarbonTax(attrs, feedstockDemand, reg.records, old(lcoComps))
    {
      if FlagAttr(attrs, "compensation") {
        return 0.0;
      }
      match Get(reg.records, "co2tax")
      case None =>
        c := 0.0;
      case Some(t) =>
        c := Times(TotalEm(attrs, feedstockDemand, reg.records), t.lco);
        lcoComps := lcoComps["co2 tax" := c];
    }

    /** `get_co2_storage_cost`. */
    method GetCo2StorageCost(reg: Registry) returns (c: real)
      modifies this
      ensures initDict == old(initDict) && attrs == old(attrs) && feedstockDemand == old(feedstockDemand)
      ensures Costed(c, lcoComps) == Co2StorageCost(attrs, reg.records, old(lcoComps))
    {
      match (NumAttr(attrs, "co2capt"), Get(reg.records, "co2ts"))
      case (Some(capt), Some(ts)) =>
        c := Times(capt, ts.lco);
        lcoComps := lcoComps["co2 transport and storage" := c];
      case _ =>
        c := 0.0;
    }

    /** `get_comp_cost`. */
    method GetCompCost(reg: Registry) returns (r: Result<real, Error>)
      modifies this
      ensures initDict == old(initDict) && attrs == old(attrs) && feedstockDemand == old(feedstockDemand)
      ensures CostedAs(r, lcoComps, CompCost(attrs, feedstockDemand, reg.records, old(lcoComps)))
    {
      if !FlagAttr(attrs, "compensation") {
        return Ok(0.0);
      }
      var te := TotalEm(attrs, feedstockDemand, reg.records);
      ghost var spec := CompCost(attrs, feedstockDemand, reg.records, lcoComps);
      match Get(reg.records, "co2")
      case None =>
        assert spec == Err(MissingRecord("co2"));
        return Err(MissingRecord("co2"));
      case Some(co2) =>
        var withCo2 := lcoComps["co2" := Times(te, co2.lco)];
        lcoComps := withCo2;
        match Get(reg.records, "co2ts")
        case None =>
          assert spec == Err(MissingRecord("co2ts"));
          return Err(MissingRecord("co2ts"));
        case Some(ts) =>
          lcoComps := withCo2["co2 transport and storage" := Times(te, ts.lco)];
          assert spec == Ok(Costed(Times(te, co2.lco) + Times(te, ts.lco), lcoComps));
          return Ok(Times(te, co2.lco) + Times(te, ts.lco));
    }

    /** `get_ccu_income`. */
    method GetCcuIncome(reg: Registry) returns (r: Result<real, Error>)
      ensures r == CcuIncome(attrs, reg.records)
    {
      if !FlagAttr(attrs, "co2ccuincome") {
        return Ok(0.0);
      }
      match Get(reg.records, "co2ccu")
      case None =>
        return Err(MissingRecord("co2ccu"));
      case Some(d) =>
        return Ok(-Times(NumAttr(attrs, "co2ccusupply").GetOr(0.0), d.lco));
    }

    /** `get_LCO`: an LCO set on the definition is kept; otherwise the terms are summed and the
        result is cached in the `LCO` attribute. */
    method GetLco(reg: Registry) returns (r: Result<real, Error>)
      requires DistinctKeys(feedstockDemand)
      modifies this
      ensures initDict == old(initDict) && feedstockDemand == old(feedstockDemand)
      ensures CostedAs(r, lcoComps, TechSpec.GetLco(old(attrs), feedstockDemand, reg.records, old(lcoComps)))
      ensures r.Ok? ==> attrs == CacheLco(old(attrs), r.value)
    {
      if NumAttr(attrs, "LCO").None? {
        var x := ComputeLco(reg);
        if x.Err? {
          return Err(x.error);
        }
        attrs := attrs["LCO" := Num(x.value)];
      }
      var l := NumAttr(attrs, "LCO").value;
      lcoComps := lcoComps["LCO" := l];
      return Ok(l);
    }

    /** The sum in `get_LCO`, term by term in the source's order. */
    method ComputeLco(reg: Registry) returns (r: Result<real, Error>)
      requires DistinctKeys(feedstockDemand)
      modifies this
      ensures initDict == old(initDict) && attrs == old(attrs) && feedstockDemand == old(feedstockDemand)
      ensures CostedAs(r, lcoComps, ComputedLco(attrs, feedstockDemand, reg.records, old(lcoComps)))
    {
      ghost var c0 := lcoComps;
      var b := BaseCosts(reg);
      if b.Err? {
        ComputedFromParts(attrs, feedstockDemand, reg.records, c0, lcoComps, lcoComps, b, b, b, Err(b.error));
        return Err(b.error);
      }
      ghost var c1 := lcoComps;
      var r6 := GetCompCost(reg);
      if r6.Err? {
        ComputedFromParts(attrs, feedstockDemand, reg.records, c0, c1, lcoComps, b, r6, r6, Err(r6.error));
        return Err(r6.error);
      }
      var r7 := GetCcuIncome(reg);
      if r7.Err? {
        ComputedFromParts(attrs, feedstockDemand, reg.records, c0, c1, lcoComps, b, r6, r7, Err(r7.error));
        return Err(r7.error);
      }
      ComputedFromParts(attrs, feedstockDemand, reg.records, c0, c1, lcoComps, b, r6, r7, Ok(b.value + r6.value + r7.value));
      return Ok(b.value + r6.value + r7.value);
    }

    /** The first five terms of `get_LCO`, which do not raise once the capex is annualised. */
    method BaseCosts(reg: Registry) returns (r: Result<real, Error>)
      requires DistinctKeys(feedstockDemand)
      modifies this
      ensures initDict == old(initDict) && attrs == old(attrs) && feedstockDemand == old(feedstockDemand)
      ensures CostedAs(r, lcoComps, BaseLco(attrs, feedstockDemand, reg.records, old(lcoComps)))
    {
      var r1 := LcoxWoEnergy();
      if r1.Err? {
        return Err(r1.error);
      }
      var c2 := GetOtherCosts();
      var c3 := GetTotalFeedstockCosts(reg);
      var c4 := GetCarbonTax(reg);
      var c5 := GetCo2StorageCost(reg);
      return Ok(r1.value + c2 + c3 + c4 + c5);
    }

    /** `append_dict`: the record is computed in full and only then written to the registry. */
    method AppendDict(reg: Registry) returns (res: Result<TechData, Error>)
      requires DistinctKeys(feedstockDemand) && lcoComps == map[]
      modifies this, reg
      ensures initDict == old(initDict) && feedstockDemand == old(feedstockDemand)
      ensures match TechSpec.AppendDict(old(attrs), feedstockDemand, old(reg.records))
        case Ok(ev) =>
          && res == Ok(ev.data) && reg.records == Set(old(reg.records), ev.key, ev.data)
          && attrs == ev.attrs && lcoComps == ev.comps
        case Err(e) => res == Err(e) && reg.records == old(reg.records)
    {
      match TextAttr(attrs, "key")
      case None =>
        return Err(MissingKey);
      case Some(key) =>
        var lco := GetLco(reg);
        if lco.Err? {
          return Err(lco.error);
        }
        var rec := Record(attrs, lco.value, feedstockDemand, reg.records);
        if rec.Err? {
          return Err(rec.error);
        }
        reg.Put(key, rec.value);
        return Ok(rec.value);
    }
  }

  /** In a dict with distinct keys, looking up the `i`-th key finds the `i`-th value. */
  lemma {:induction false} GetDistinct<V>(d: Dict<V>, i: nat)
    requires DistinctKeys(d) && i < |d|
    ensures Get(d, d[i].0) == Some(d[i].1)
    decreases i
  {
    if i > 0 {
      assert d[0].0 != d[i].0;
      assert DistinctKeys(d[1..]) by {
        forall p, q | 0 <= p < q < |d[1..]| ensures d[1..][p].0 != d[1..][q].0 {
          assert d[1..][p] == d[p + 1] && d[1..][q] == d[q + 1];
        }
      }
      GetDistinct(d[1..], i - 1);
    }
  }

}
