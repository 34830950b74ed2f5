/** The exceptions the calculation engine raises, one constructor per cause. */
module Errors {

  datatype Error =
    // calc/tech_class.py
    | UnknownAttribute(name: string)   // KeyError: a definition key outside the allow-list without "demand"
    | MissingElecDemand                // KeyError: an offgrid technology without an "elec" demand
    | MissingKey                       // KeyError/AttributeError: a definition without "key"
    | MissingDesc                      // AttributeError: a definition without "desc"
    | MissingRecord(name: string)      // KeyError: an unguarded registry lookup of an absent technology
    | CompensationWithOffgrid          // Exception: compensation and offgrid electricity together
    | ZeroDivision                     // ZeroDivisionError: annuity denominator or full-load hours are 0
    // calc/calc_costs.py
    | OverrideWithoutAttribute(name: string)  // IndexError: an override key equal to a tech key, without "_"
    | NoDefinitions                    // NameError: calc_all_LCO over an empty definition list
    | EmptyResultsTable                // ValueError: seven column names for a results table without rows
    | MissingSourceLco(tech: string)   // KeyError: a consumed technology whose LCO is 0 (NaN after replace)
    | NothingToConcatenate             // ValueError: pd.concat of an empty list of expanded rows
    | MissingFossilRow                 // IndexError: calc_FSCP over a table without a fossil row
    // calc/process_full_df.py
    | RetrofitWithoutTechs             // ValueError: retrofit=True with retrofit_techs=None
    | RetrofitKeyWithoutSector(key: string)  // IndexError: a retrofit key without "_"
    | MissingCapex(key: string)        // TypeError: a retrofit or fossil capex that is None
    | MissingH2Row                     // IndexError: no row whose tech is "h2"
}
