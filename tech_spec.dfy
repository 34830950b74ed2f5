/** What one `Tech` computes from its definition and the registry of technologies evaluated
    before it: the handling of definition keys, the offgrid and compensation switches, the
    levelised cost with its recorded components, emissions, electricity and CO2 demand. */
module TechSpec {
  import opened Wrappers
  import opened Errors
  import opened PyStr
  import opened PyDict
  import opened TechDataModel

  /** A value of a parameter definition, as read from JSON. */
  datatype Value = Num(x: real) | Text(s: string) | Flag(b: bool)

  /** Python truthiness, as `getattr(self, flag, False)` is used in a condition. */
  predicate Truthy(v: Value) {
    match v
    case Num(x) => x != 0.0
    case Text(s) => s != ""
    case Flag(b) => b
  }

  /** The value in arithmetic: a bool counts as 1 or 0, a text is not a number. */
  function AsNumber(v: Value): Option<real> {
    match v
    case Num(x) => Some(x)
    case Flag(b) => Some(if b then 1.0 else 0.0)
    case Text(_) => None
  }

  const Sectors: seq<string> := ["chem", "plane", "ship", "cement", "steel"]

  const AllowedAttrs: set<string> := {
    "key", "unit", "desc", "LCO", "capex", "opex", "othercosts", "flh", "wacc", "lifetime",
    "co2em", "co2capt", "compensation", "recycledco2", "offgrid", "co2ccusupply", "co2ccuincome"
  }

  /** How `set_attr` handles one definition key. */
  datatype FieldKind = Attribute | Feedstock(name: string) | Unknown

  function Classify(k: string): (r: FieldKind)
    ensures r.Attribute? <==> k in AllowedAttrs
    ensures r.Feedstock? <==> k !in AllowedAttrs && Contains(k, "demand")
    ensures r.Feedstock? ==> OccursAt(k, "demand", |r.name|) && r.name == k[..|r.name|]
    ensures r.Feedstock? ==> forall j :: 0 <= j < |r.name| ==> !OccursAt(k, "demand", j)
  {
    if k in AllowedAttrs then Attribute
    else match Find(k, "demand")
      case Some(x) => Feedstock(k[..x])
      case None => Unknown
  }

  predicate IsNatural(x: real) {
    x >= 0.0 && x.Floor as real == x
  }

  // ---------------------------------------------------------------------------------------
  // Attributes (the instance's `__dict__`) and the feedstock demand.

  type Attrs = map<string, Value>

  /** The instance attributes before `set_attr`: the defaults for wacc, flh and lifetime. */
  const InitialAttrs: Attrs := map["wacc" := Num(0.1), "flh" := Num(0.9), "lifetime" := Num(20.0)]

  /** `getattr(self, k)` for a numeric attribute; None when the attribute is not set. */
  function NumAttr(a: Attrs, k: string): Option<real> {
    if k in a then AsNumber(a[k]) else None
  }

  /** `getattr(self, k)` for a text attribute. */
  function TextAttr(a: Attrs, k: string): Option<string> {
    if k in a && a[k].Text? then Some(a[k].s) else None
  }

  /** `getattr(self, k, False)` in a condition. */
  predicate FlagAttr(a: Attrs, k: string) {
    k in a && Truthy(a[k])
  }

  function Lifetime(a: Attrs): nat {
    var x := NumAttr(a, "lifetime").GetOr(20.0);
    if IsNatural(x) then x.Floor else 20
  }

  datatype Setup = Setup(attrs: Attrs, feedstock: Dict<real>)

  const InitialSetup: Setup := Setup(InitialAttrs, [])

  /** The loop of `set_attr` from the `i`-th definition key on. */
  function SetAttrsFrom(fields: Dict<Value>, i: nat, s: Setup): Result<Setup, Error>
    requires i <= |fields|
    decreases |fields| - i
  {
    if i == |fields| then Ok(s)
    else
      var s' :- HandleKey(s, fields[i].0, fields[i].1);
      SetAttrsFrom(fields, i + 1, s')
  }

  /** One pass of the `set_attr` loop: `add_attr`, `add_feedstock_cost`, or the KeyError. */
  function HandleKey(s: Setup, k: string, v: Value): Result<Setup, Error> {
    match Classify(k)
    case Attribute => Ok(s.(attrs := s.attrs[k := v]))
    case Feedstock(n) => Ok(s.(feedstock := Set(s.feedstock, n, AsNumber(v).GetOr(0.0))))
    case Unknown => Err(UnknownAttribute(k))
  }

  /** Reference definition: the allow-listed keys from `i` on, as a dict comprehension. */
  function AttrMap(fields: Dict<Value>, i: nat): map<string, Value>
    requires i <= |fields|
    decreases |fields| - i
  {
    if i == |fields| then map[]
    else if Classify(fields[i].0).Attribute? then map[fields[i].0 := fields[i].1] + AttrMap(fields, i + 1)
    else AttrMap(fields, i + 1)
  }

  /** Reference definition: the feedstock entries from `i` on, in definition order. */
  function FeedstockEntries(fields: Dict<Value>, i: nat): Dict<real>
    requires i <= |fields|
    decreases |fields| - i
  {
    if i == |fields| then []
    else match Classify(fields[i].0)
      case Feedstock(n) => [(n, AsNumber(fields[i].1).GetOr(0.0))] + FeedstockEntries(fields, i + 1)
      case _ => FeedstockEntries(fields, i + 1)
  }

  predicate HasUnknownFrom(fields: Dict<Value>, i: nat) {
    exists j :: i <= j < |fields| && Classify(fields[j].0).Unknown?
  }

  /** Every definition key is handled in exactly one of three ways: an allow-listed key becomes
      an attribute, another key containing "demand" becomes the feedstock named by the text
      before its first "demand", any other key raises KeyError, naming the first such key. */
  lemma SetAttrsHandlesEachKey(fields: Dict<Value>, i: nat, s: Setup)
    requires i <= |fields|
    ensures SetAttrsFrom(fields, i, s).Err? <==> HasUnknownFrom(fields, i)
    ensures SetAttrsFrom(fields, i, s).Err? ==>
      exists j :: i <= j < |fields| && Classify(fields[j].0).Unknown?
        && SetAttrsFrom(fields, i, s).error == UnknownAttribute(fields[j].0)
        && !HasUnknownFrom(fields[..j], i)
    ensures SetAttrsFrom(fields, i, s).Ok? ==>
      SetAttrsFrom(fields, i, s).value.attrs == s.attrs + AttrMap(fields, i)
    ensures SetAttrsFrom(fields, i, s).Ok? ==>
      SetAttrsFrom(fields, i, s).value.feedstock == Update(s.feedstock, FeedstockEntries(fields, i))
  {
    SetAttrsRejects(fields, i, s);
    SetAttrsKeeps(fields, i, s);
  }

  /** The error half: the loop raises exactly when an unknown key is left, naming the first. */
  lemma {:induction false} SetAttrsRejects(fields: Dict<Value>, i: nat, s: Setup)
    requires i <= |fields|
    ensures SetAttrsFrom(fields, i, s).Err? <==> HasUnknownFrom(fields, i)
    ensures SetAttrsFrom(fields, i, s).Err? ==>
      exists j :: i <= j < |fields| && Classify(fields[j].0).Unknown?
        && SetAttrsFrom(fields, i, s).error == UnknownAttribute(fields[j].0)
        && !HasUnknownFrom(fields[..j], i)
    decreases |fields| - i
  {
    if i < |fields| {
      var k, v := fields[i].0, fields[i].1;
      match Classify(k)
      case Attribute =>
        SetAttrsRejects(fields, i + 1, s.(attrs := s.attrs[k := v]));
        PrefixUnknown(fields, i);
      case Feedstock(n) =>
        SetAttrsRejects(fields, i + 1, s.(feedstock := Set(s.feedstock, n, AsNumber(v).GetOr(0.0))));
        PrefixUnknown(fields, i);
      case Unknown =>
        assert fields[..i][i..] == [];
        assert !HasUnknownFrom(fields[..i], i);
    }
  }

  /** The success half: the attributes and the feedstock demands the loop builds. */
  lemma {:induction false} SetAttrsKeeps(fields: Dict<Value>, i: nat, s: Setup)
    requires i <= |fields|
    ensures SetAttrsFrom(fields, i, s).Ok? ==>
      SetAttrsFrom(fields, i, s).value.attrs == s.attrs + AttrMap(fields, i)
    ensures SetAttrsFrom(fields, i, s).Ok? ==>
      SetAttrsFrom(fields, i, s).value.feedstock == Update(s.feedstock, FeedstockEntries(fields, i))
    decreases |fields| - i
  {
    if i < |fields| {
      var k, v := fields[i].0, fields[i].1;
      match Classify(k)
      case Attribute =>
        SetAttrsKeeps(fields, i + 1, s.(attrs := s.attrs[k := v]));
        assert s.attrs[k := v] + AttrMap(fields, i + 1) == s.attrs + (map[k := v] + AttrMap(fields, i + 1));
      case Feedstock(n) =>
        SetAttrsKeeps(fields, i + 1, s.(feedstock := Set(s.feedstock, n, AsNumber(v).GetOr(0.0))));
      case Unknown =>
    }
  }

  /** Helper: the first unknown key at or after `i` is the first one after `i` when key `i` is known. */
  lemma PrefixUnknown(fields: Dict<Value>, i: nat)
    requires i < |fields| && !Classify(fields[i].0).Unknown?
    ensures HasUnknownFrom(fields, i) <==> HasUnknownFrom(fields, i + 1)
    ensures forall j :: i < j <= |fields| ==> (HasUnknownFrom(fields[..j], i) <==> HasUnknownFrom(fields[..j], i + 1))
  {
    forall j | i < j <= |fields|
      ensures HasUnknownFrom(fields[..j], i) <==> HasUnknownFrom(fields[..j], i + 1)
    {
      assert fields[..j][i] == fields[i];
    }
  }

  /** `check_offgrid`: with offgrid set, the "elec" demand moves to "elecoffgrid". */
  function CheckOffgrid(a: Attrs, fd: Dict<real>): (r: Result<Dict<real>, Error>)
    requires DistinctKeys(fd)
    ensures !FlagAttr(a, "offgrid") ==> r == Ok(fd)
    ensures FlagAttr(a, "offgrid") ==> (r.Err? <==> Get(fd, "elec").None?)
    ensures r.Err? ==> r.error == MissingElecDemand
    ensures r.Ok? ==> DistinctKeys(r.value)
    ensures FlagAttr(a, "offgrid") && r.Ok? ==>
      && Get(r.value, "elecoffgrid") == Get(fd, "elec")
      && Get(r.value, "elec").None?
      && (forall k :: k != "elec" && k != "elecoffgrid" ==> Get(r.value, k) == Get(fd, k))
  {
    if FlagAttr(a, "offgrid") then
      match Get(fd, "elec")
      case None => Err(MissingElecDemand)
      case Some(q) =>
        PopDistinct(fd, "elec");
        SetDistinct(Pop(fd, "elec"), "elecoffgrid", q);
        Ok(Set(Pop(fd, "elec"), "elecoffgrid", q))
    else Ok(fd)
  }

  /** The condition of `check_comp` and `check_ccuincome`: the run flag is on and the key names
      a sector but not the fossil baseline. */
  predicate AutoApplies(runFlag: bool, key: string) {
    runFlag && ContainsAny(key, Sectors) && !Contains(key, "fossil")
  }

  /** `check_comp` / `check_ccuincome` for the attribute `name`: sets it to True when the rule
      applies and never clears it. */
  function CheckFlag(a: Attrs, name: string, runFlag: bool, key: string): (r: Attrs)
    ensures FlagAttr(r, name) <==> FlagAttr(a, name) || AutoApplies(runFlag, key)
    ensures forall k :: k != name ==> (k in r <==> k in a) && (k in a ==> r[k] == a[k])
  {
    if AutoApplies(runFlag, key) then a[name := Flag(true)] else a
  }

  // ---------------------------------------------------------------------------------------
  // The levelised cost and its components.

  function Pow(x: real, n: nat): real {
    if n == 0 then 1.0 else x * Pow(x, n - 1)
  }

  /** The annuity factor `wacc*(1+wacc)^n / ((1+wacc)^n - 1)`. */
  function Anf(wacc: real, n: nat): (r: Result<real, Error>)
    ensures r.Err? <==> Pow(1.0 + wacc, n) == 1.0
    ensures r.Err? ==> r.error == ZeroDivision
    ensures r.Ok? ==> r.value * (Pow(1.0 + wacc, n) - 1.0) == wacc * Pow(1.0 + wacc, n)
  {
    var q := Pow(1.0 + wacc, n);
    if q - 1.0 == 0.0 then Err(ZeroDivision) else Ok(wacc * q / (q - 1.0))
  }

  /** A loan of `principal` at rate `rate`, repaid by `payment` at the end of each of `n` years. */
  function Balance(principal: real, rate: real, payment: real, n: nat): real {
    if n == 0 then principal else Balance(principal, rate, payment, n - 1) * (1.0 + rate) - payment
  }

  function GeomSum(q: real, n: nat): real {
    if n == 0 then 0.0 else GeomSum(q, n - 1) * q + 1.0
  }

  lemma {:induction false} GeomSumClosed(q: real, n: nat)
    ensures GeomSum(q, n) * (q - 1.0) == Pow(q, n) - 1.0
  {
    if n > 0 {
      GeomSumClosed(q, n - 1);
      calc {
        GeomSum(q, n) * (q - 1.0);
        (GeomSum(q, n - 1) * q + 1.0) * (q - 1.0);
        GeomSum(q, n - 1) * (q - 1.0) * q + (q - 1.0);
        (Pow(q, n - 1) - 1.0) * q + (q - 1.0);
      }
    }
  }

  lemma {:induction false} BalanceClosed(principal: real, rate: real, payment: real, n: nat)
    ensures Balance(principal, rate, payment, n) ==
            principal * Pow(1.0 + rate, n) - payment * GeomSum(1.0 + rate, n)
  {
    if n > 0 {
      BalanceClosed(principal, rate, payment, n - 1);
      var q := 1.0 + rate;
      BalanceAlgebra(Balance(principal, rate, payment, n - 1), Balance(principal, rate, payment, n), principal, payment,
                     q, Pow(q, n - 1), GeomSum(q, n - 1), Pow(q, n), GeomSum(q, n));
    }
  }

  lemma BalanceAlgebra(b: real, b': real, principal: real, payment: real, q: real, p: real, g: real, p': real, g': real)
    requires b == principal * p - payment * g && b' == b * q - payment
    requires p' == q * p && g' == g * q + 1.0
    ensures b' == principal * p' - payment * g'
  {
    assert b * q == principal * (q * p) - payment * (g * q);
  }

  /** The annuity factor is what makes yearly payments of `capex * anf` repay `capex` exactly
      over the lifetime at the rate wacc. */
  lemma AnfRepaysCapex(capex: real, wacc: real, n: nat)
    requires Anf(wacc, n).Ok?
    ensures Balance(capex, wacc, capex * Anf(wacc, n).value, n) == 0.0
  {
    var q := Pow(1.0 + wacc, n);
    var f := Anf(wacc, n).value;
    BalanceClosed(capex, wacc, capex * f, n);
    GeomSumClosed(1.0 + wacc, n);
    var g := GeomSum(1.0 + wacc, n);
    var p := capex * f;
    assert Balance(capex, wacc, p, n) == capex * q - p * g;
    RepayAlgebra(capex, wacc, q, f, g);
    assert p == capex * Anf(wacc, n).value;
  }

  lemma RepayAlgebra(capex: real, wacc: real, q: real, f: real, g: real)
    requires g * ((1.0 + wacc) - 1.0) == q - 1.0 && q != 1.0 && f * (q - 1.0) == wacc * q
    ensures capex * q - (capex * f) * g == 0.0
  {
    assert g * wacc == q - 1.0;
    assert f * (q - 1.0) == wacc * q;
    assert wacc != 0.0;
    assert (f * g) * wacc == f * (q - 1.0);
    var d := f * g - q;
    assert d * wacc == 0.0;
    assert d == (d * wacc) / wacc;
    assert (capex * f) * g == capex * (f * g);
  }

  /** A quantity per unit times a per-unit coefficient from the registry. Written as a function
      so that products of equal factors are equal terms for the verifier. */
  function Times(q: real, c: real): real { q * c }

  /** The recorded components: label to cost per unit. */
  type Comps = map<string, real>

  /** The result of one cost getter: the cost it returns and the components afterwards. */
  datatype Costed = Costed(cost: real, comps: Comps)

  /** The annualised capex `capex * anf`, 0 when no capex is defined. */
  function AnnualCapex(a: Attrs): Result<real, Error> {
    match NumAttr(a, "capex")
    case None => Ok(0.0)
    case Some(c) => var f :- Anf(NumAttr(a, "wacc").GetOr(0.1), Lifetime(a)); Ok(c * f)
  }

  /** The fixed opex, a percentage of capex; 0 unless both are defined. */
  function FixedOpex(a: Attrs): real {
    if NumAttr(a, "opex").Some? && NumAttr(a, "capex").Some? then
      NumAttr(a, "opex").value * NumAttr(a, "capex").value / 100.0
    else 0.0
  }

  function Flh(a: Attrs): real { NumAttr(a, "flh").GetOr(0.9) }

  /** `LCOX_wo_energy`: annualised capex and fixed opex over the full-load hours, recorded as
      "capex" and "opex"; without a capex both are 0. */
  function LcoxWoEnergy(a: Attrs, comps: Comps): (r: Result<Costed, Error>)
    ensures r.Err? <==> AnnualCapex(a).Err? || Flh(a) == 0.0
    ensures r.Err? ==> r.error == ZeroDivision
    ensures r.Ok? ==> "capex" in r.value.comps && "opex" in r.value.comps
    ensures r.Ok? ==> r.value.comps == comps["capex" := r.value.comps["capex"]]["opex" := r.value.comps["opex"]]
    ensures r.Ok? ==> r.value.cost == r.value.comps["capex"] + r.value.comps["opex"]
    ensures r.Ok? && NumAttr(a, "capex").None? ==> r.value.comps["capex"] == 0.0 && r.value.comps["opex"] == 0.0
  {
    var ann :- AnnualCapex(a);
    var flh := Flh(a);
    if flh == 0.0 then Err(ZeroDivision)
    else
      var fix := FixedOpex(a);
      assert "capex" != "opex" by { assert |"capex"| != |"opex"|; }
      DivSum(ann, fix, flh);
      Ok(Costed((ann + fix) / flh, comps["capex" := ann / flh]["opex" := fix / flh]))
  }

  lemma DivSum(x: real, y: real, z: real)
    requires z != 0.0
    ensures (x + y) / z == x / z + y / z
  {
  }

  /** `get_other_costs`. */
  function OtherCosts(a: Attrs, comps: Comps): Costed {
    var c := NumAttr(a, "othercosts").GetOr(0.0);
    Costed(c, comps["other costs" := c])
  }

  /** `get_feedstock_cost(key)`: demand times the feedstock's LCO, recorded under the key;
      0 and nothing recorded when the feedstock is not in the registry. */
  function FeedstockCost(q: real, key: string, reg: Dict<TechData>, comps: Comps): Costed {
    match Get(reg, key)
    case None => Costed(0.0, comps)
    case Some(d) => Costed(Times(q, d.lco), comps[key := Times(q, d.lco)])
  }

  /** `get_total_feedstock_costs` over the feedstock entries from `i` on. */
  function FeedstockCostsFrom(fd: Dict<real>, i: nat, reg: Dict<TechData>, comps: Comps): Costed
    requires i <= |fd|
    decreases |fd| - i
  {
    if i == |fd| then Costed(0.0, comps)
    else
      var one := FeedstockCost(fd[i].1, fd[i].0, reg, comps);
      var rest := FeedstockCostsFrom(fd, i + 1, reg, one.comps);
      Costed(one.cost + rest.cost, rest.comps)
  }

  /** `sum(f(key) for key in feedstock)` for a getter that records nothing. */
  function Sum(fd: Dict<real>, f: (string, real) -> real): real {
    if |fd| == 0 then 0.0 else f(fd[0].0, fd[0].1) + Sum(fd[1..], f)
  }

  /** `get_em`, `get_co2_capt`, `get_noncombustedplastic_co2`: 0 when not defined. */
  function DirectEm(a: Attrs): real { NumAttr(a, "co2em").GetOr(0.0) }
  function Co2Capt(a: Attrs): real { NumAttr(a, "co2capt").GetOr(0.0) }
  function RecycledCo2(a: Attrs): real { NumAttr(a, "recycledco2").GetOr(0.0) }

  /** `get_co2_ccu`: supplied CCU CO2 times the registry's co2ccu emissions, 0 when either is missing. */
  function Co2Ccu(a: Attrs, reg: Dict<TechData>): real {
    match (NumAttr(a, "co2ccusupply"), Get(reg, "co2ccu"))
    case (Some(s), Some(d)) => Times(s, d.em)
    case _ => 0.0
  }

  /** `get_feedstock_em`. */
  function EmOf(reg: Dict<TechData>): (string, real) -> real {
    (k: string, q: real) => match Get(reg, k) case Some(d) => Times(q, d.em) case None => 0.0
  }

  /** `get_elec_dem`: an "elec"/"elecoffgrid" demand counts itself, others the feedstock's electricity. */
  function ElecOf(reg: Dict<TechData>): (string, real) -> real {
    (k: string, q: real) =>
      if k == "elec" || k == "elecoffgrid" then q
      else match Get(reg, k) case Some(d) => Times(q, d.elec) case None => 0.0
  }

  /** `get_feedstock_co2dem`. */
  function Co2demOf(reg: Dict<TechData>): (string, real) -> real {
    (k: string, q: real) => match Get(reg, k) case Some(d) => Times(q, d.totalCo2dem) case None => 0.0
  }

  /** `get_total_em`. */
  function TotalEm(a: Attrs, fd: Dict<real>, reg: Dict<TechData>): real {
    DirectEm(a) - Co2Capt(a) - Co2Ccu(a, reg) - RecycledCo2(a) + Sum(fd, EmOf(reg))
  }

  /** `get_total_elec`: `feedstock_demand.get("elec", 0)` plus the per-feedstock sum. */
  function TotalElec(fd: Dict<real>, reg: Dict<TechData>): real {
    Get(fd, "elec").GetOr(0.0) + Sum(fd, ElecOf(reg))
  }

  /** `get_total_co2dem`: the direct "co2" demand plus the feedstocks' own totals. */
  function TotalCo2dem(fd: Dict<real>, reg: Dict<TechData>): real {
    Get(fd, "co2").GetOr(0.0) + Sum(fd, Co2demOf(reg))
  }

  /** `get_carbon_tax`: 0 under compensation; otherwise total emissions times the co2tax LCO,
      recorded as "co2 tax", or 0 and nothing recorded without a co2tax record. */
  function CarbonTax(a: Attrs, fd: Dict<real>, reg: Dict<TechData>, comps: Comps): (r: Costed)
    ensures FlagAttr(a, "compensation") || Get(reg, "co2tax").None? ==> r == Costed(0.0, comps)
    ensures !FlagAttr(a, "compensation") && Get(reg, "co2tax").Some? ==>
      && r.cost == Times(TotalEm(a, fd, reg), Get(reg, "co2tax").value.lco)
      && r.comps == comps["co2 tax" := r.cost]
  {
    if FlagAttr(a, "compensation") then Costed(0.0, comps)
    else match Get(reg, "co2tax")
      case None => Costed(0.0, comps)
      case Some(t) =>
        var c := Times(TotalEm(a, fd, reg), t.lco);
        Costed(c, comps["co2 tax" := c])
  }

  /** `get_co2_storage_cost`: captured CO2 times the co2ts LCO, or 0 when either is missing. */
  function Co2StorageCost(a: Attrs, reg: Dict<TechData>, comps: Comps): (r: Costed)
    ensures NumAttr(a, "co2capt").None? || Get(reg, "co2ts").None? ==> r == Costed(0.0, comps)
    ensures NumAttr(a, "co2capt").Some? && Get(reg, "co2ts").Some? ==>
      && r.cost == Times(NumAttr(a, "co2capt").value, Get(reg, "co2ts").value.lco)
      && r.comps == comps["co2 transport and storage" := r.cost]
  {
    match (NumAttr(a, "co2capt"), Get(reg, "co2ts"))
    case (Some(c), Some(ts)) => Costed(Times(c, ts.lco), comps["co2 transport and storage" := Times(c, ts.lco)])
    case _ => Costed(0.0, comps)
  }

  /** `get_comp_cost`: under compensation, total emissions priced at the co2 and co2ts LCOs;
      the two registry lookups are unguarded. */
  function CompCost(a: Attrs, fd: Dict<real>, reg: Dict<TechData>, comps: Comps): (r: Result<Costed, Error>)
    ensures !FlagAttr(a, "compensation") ==> r == Ok(Costed(0.0, comps))
    ensures r.Err? <==> FlagAttr(a, "compensation") && (Get(reg, "co2").None? || Get(reg, "co2ts").None?)
    ensures r.Err? ==> r.error == MissingRecord(if Get(reg, "co2").None? then "co2" else "co2ts")
    ensures FlagAttr(a, "compensation") && r.Ok? ==>
      var te := TotalEm(a, fd, reg);
      && r.value.comps == comps["co2" := Times(te, Get(reg, "co2").value.lco)]
                               ["co2 transport and storage" := Times(te, Get(reg, "co2ts").value.lco)]
      && r.value.cost == r.value.comps["co2"] + r.value.comps["co2 transport and storage"]
  {
    if !FlagAttr(a, "compensation") then Ok(Costed(0.0, comps))
    else
      var te := TotalEm(a, fd, reg);
      match Get(reg, "co2")
      case None => Err(MissingRecord("co2"))
      case Some(co2) =>
        match Get(reg, "co2ts")
        case None => Err(MissingRecord("co2ts"))
        case Some(ts) =>
          Ok(Costed(Times(te, co2.lco) + Times(te, ts.lco),
                    comps["co2" := Times(te, co2.lco)]["co2 transport and storage" := Times(te, ts.lco)]))
  }

  /** `get_ccu_income`: minus the CCU supply priced at the co2ccu LCO, an unguarded lookup;
      it records no component. */
  function CcuIncome(a: Attrs, reg: Dict<TechData>): (r: Result<real, Error>)
    ensures !FlagAttr(a, "co2ccuincome") ==> r == Ok(0.0)
    ensures r.Err? <==> FlagAttr(a, "co2ccuincome") && Get(reg, "co2ccu").None?
    ensures r.Err? ==> r.error == MissingRecord("co2ccu")
    ensures r.Ok? && FlagAttr(a, "co2ccuincome") ==>
      r.value == -Times(NumAttr(a, "co2ccusupply").GetOr(0.0), Get(reg, "co2ccu").value.lco)
  {
    if !FlagAttr(a, "co2ccuincome") then Ok(0.0)
    else match Get(reg, "co2ccu")
      case None => Err(MissingRecord("co2ccu"))
      case Some(d) => Ok(-Times(NumAttr(a, "co2ccusupply").GetOr(0.0), d.lco))
  }

  /** The first five terms of `get_LCO`: annualised capex and opex, other costs, feedstock
      costs, carbon tax and CO2 storage, of which only the first can raise. */
  function BaseLco(a: Attrs, fd: Dict<real>, reg: Dict<TechData>, comps: Comps): Result<Costed, Error> {
    var c1 :- LcoxWoEnergy(a, comps);
    var c2 := OtherCosts(a, c1.comps);
    var c3 := FeedstockCostsFrom(fd, 0, reg, c2.comps);
    var c4 := CarbonTax(a, fd, reg, c3.comps);
    var c5 := Co2StorageCost(a, reg, c4.comps);
    Ok(Costed(c1.cost + c2.cost + c3.cost + c4.cost + c5.cost, c5.comps))
  }

  /** The whole sum in `get_LCO`: the base terms, then compensation and CCU income. */
  function ComputedLco(a: Attrs, fd: Dict<real>, reg: Dict<TechData>, comps: Comps): Result<Costed, Error> {
    var b :- BaseLco(a, fd, reg, comps);
    var c6 :- CompCost(a, fd, reg, b.comps);
    var c7 :- CcuIncome(a, reg);
    Ok(Costed(b.cost + c6.cost + c7, c6.comps))
  }

  /** `get_LCO`: an LCO set on the definition is kept; otherwise it is computed and cached.
      "LCO" is recorded last in either case. */
  function GetLco(a: Attrs, fd: Dict<real>, reg: Dict<TechData>, comps: Comps): Result<Costed, Error> {
    match NumAttr(a, "LCO")
    case Some(l) => Ok(Costed(l, comps["LCO" := l]))
    case None =>
      var c :- ComputedLco(a, fd, reg, comps);
      Ok(Costed(c.cost, c.comps["LCO" := c.cost]))
  }

  /** The attributes after `get_LCO`: a computed LCO is cached as the `LCO` attribute. */
  function CacheLco(a: Attrs, l: real): Attrs {
    if NumAttr(a, "LCO").Some? then a else a["LCO" := Num(l)]
  }

  /** `get_eff_elec`: under compensation the DAC electricity for the total emissions is added
      (an unguarded lookup of "co2"). */
  function EffElec(a: Attrs, fd: Dict<real>, reg: Dict<TechData>): Result<real, Error> {
    if FlagAttr(a, "compensation") then
      match Get(reg, "co2")
      case None => Err(MissingRecord("co2"))
      case Some(co2) => Ok(TotalElec(fd, reg) + Times(TotalEm(a, fd, reg), co2.elec))
    else Ok(TotalElec(fd, reg))
  }

  /** `get_eff_em`: under compensation only the emissions of the effective electricity remain. */
  function EffEm(a: Attrs, fd: Dict<real>, reg: Dict<TechData>): Result<real, Error> {
    if FlagAttr(a, "compensation") then
      if FlagAttr(a, "offgrid") then Err(CompensationWithOffgrid)
      else
        var e :- EffElec(a, fd, reg);
        match Get(reg, "elec")
        case None => Err(MissingRecord("elec"))
        case Some(el) => Ok(Times(e, el.em))
    else Ok(TotalEm(a, fd, reg))
  }

  /** What `append_dict` computes: the technology's key, its record, the recorded components
      (the `tech` entry is the key) and the attributes with the LCO cached. */
  datatype Evaluated = Evaluated(key: string, data: TechData, comps: Comps, attrs: Attrs)

  function AppendDict(a: Attrs, fd: Dict<real>, reg: Dict<TechData>): Result<Evaluated, Error> {
    match TextAttr(a, "key")
    case None => Err(MissingKey)
    case Some(key) =>
      var lco :- GetLco(a, fd, reg, map[]);
      var a' := CacheLco(a, lco.cost);
      var data :- Record(a', lco.cost, fd, reg);
      Ok(Evaluated(key, data, lco.comps, a'))
  }

  /** The `TechData(...)` that `append_dict` stores once the LCO is known. */
  function Record(a: Attrs, lco: real, fd: Dict<real>, reg: Dict<TechData>): Result<TechData, Error> {
    var effEm :- EffEm(a, fd, reg);
    var effElec :- EffElec(a, fd, reg);
    match TextAttr(a, "desc")
    case None => Err(MissingDesc)
    case Some(desc) =>
      Ok(NewTechData(lco, effEm, effElec, desc, TotalCo2dem(fd, reg), TotalEm(a, fd, reg) - effEm))
  }

  /** The state after `set_attr` and the three checks, before `append_dict`. */
  function Prepare(fields: Dict<Value>, comp: bool, ccu: bool): Result<Setup, Error> {
    var s :- SetAttrsFrom(fields, 0, InitialSetup);
    assert DistinctKeys(s.feedstock) by { SetAttrsDistinct(fields); }
    var fd :- CheckOffgrid(s.attrs, s.feedstock);
    match TextAttr(s.attrs, "key")
    case None => Err(MissingKey)
    case Some(key) =>
      Ok(Setup(CheckFlag(CheckFlag(s.attrs, "compensation", comp, key), "co2ccuincome", ccu, key), fd))
  }

  /** `Tech(init_dict, comp, ccu_income)`, against the registry of the technologies evaluated before. */
  function Evaluate(fields: Dict<Value>, comp: bool, ccu: bool, reg: Dict<TechData>): Result<Evaluated, Error> {
    var s :- Prepare(fields, comp, ccu);
    AppendDict(s.attrs, s.feedstock, reg)
  }

  /** The evaluated attributes still name the technology's key. */
  lemma EvaluatedKey(fields: Dict<Value>, comp: bool, ccu: bool, reg: Dict<TechData>)
    requires Evaluate(fields, comp, ccu, reg).Ok?
    ensures TextAttr(Evaluate(fields, comp, ccu, reg).value.attrs, "key") == Some(Evaluate(fields, comp, ccu, reg).value.key)
  {
    var s := Prepare(fields, comp, ccu).value;
    var key := TextAttr(s.attrs, "key").value;
    var lco := GetLco(s.attrs, s.feedstock, reg, map[]).value;
    assert "LCO" != "key";
    assert TextAttr(CacheLco(s.attrs, lco.cost), "key") == Some(key);
  }

  lemma SetAttrsDistinct(fields: Dict<Value>)
    ensures SetAttrsFrom(fields, 0, InitialSetup).Ok? ==> DistinctKeys(SetAttrsFrom(fields, 0, InitialSetup).value.feedstock)
  {
    SetAttrsHandlesEachKey(fields, 0, InitialSetup);
    UpdateDistinct([], FeedstockEntries(fields, 0));
  }
}
