# Indian personal-finance calculators: the pages' calculation logic

The repository is a web site of personal-finance calculators for Indian
savers and borrowers: loan EMIs and schedules, tax (income tax under the
old and new regimes, TDS, capital gains, LTCG, GST, HRA), deposits and
small-savings schemes (PPF, NSC, KVP, SGB, RBI floating-rate bonds,
PMVVY, PM-SYM), head-to-head comparisons (PPF vs SIP, FD vs SIP, ELSS vs
SIP, NPS vs SIP, ULIP vs SIP, RD vs FD vs SIP) and goal planners
(retirement, pension, child education, marriage, vacation, net worth,
XIRR). Each page has a script that reads its form, validates it, and
either computes the result in the browser or shows what a server returned.
This project models the computation those scripts do in the browser, one
Dafny module per page script, and proves what each page promises about
its figures.

Layout:

- `num.dfy` (`Num`): `Math.round`, `Math.floor`/`ceil`, min/max/abs,
  whole-number powers and sums, over exact reals.
- `results.dfy` (`Results`): `Result`, `Option`, and `OrDefault`, the
  pages' `parseFloat(x) || d` idiom (an empty or zero field takes the default).
- `annuity.dfy` (`Annuity`): the balance recurrences the investment pages
  share (instalments at the start or the end of each period, compounding,
  drawdown), each with its closed form proved equal to the recurrence.
- `currency.dfy`, `indian_digits.dfy`, `labels.dfy`: `toFixed`, the
  crore/lakh/thousand short forms, the hand-written Indian digit
  grouping (`12,34,567`), each with a round-trip lemma, and frequency
  keys turned into table labels.
- `sorting.dfy`, `lists.dfy`, `dates.dfy`: the stable descending sort the
  ranking pages use, the keep-the-newest-N list update behind saved
  scenarios and histories, and calendar dates as day numbers.
- `slabs.dfy`, `income_tax.dfy`, `ctc.dfy`, `tds.dfy`, `capital_gains.dfy`,
  `ltcg.dfy`, `gst.dfy`, `reverse_gst.dfy`, `hra.dfy`: the tax pages.
- One module for each remaining page script, named after it.

Figures are exact reals. `Math.round(x)` is `floor(x + 0.5)`. JavaScript's
`%` on integers truncates toward zero, and the model writes that out
where the sign can be negative. A power with a fractional exponent,
`Math.log`, and the clock reach the model as parameters of the member
that needs them.

## Model

| member | source | states |
|---|---|---|
| Currency.Units | static/js/stock_average_calculator_script.js:715-719 | The amount in last-place units is the nearest whole number of them |
| Currency.FixedAbs | static/js/stock_average_calculator_script.js:715-719 | `toFixed(p)` of a non-negative amount: plain digits, a point, and exactly `p` decimals after it |
| Currency.Fixed | static/js/net_worth_calculator_script.js:137-143 | `toFixed(p)` of a negative amount is a minus sign before its magnitude's text |
| Currency.FixedRoundTrip | static/js/stock_average_calculator_script.js:715-719 | Reading the digits of `toFixed(p)` back gives the amount rounded to the nearest last-place unit |
| Currency.PointRoundTrip | static/js/stock_average_calculator_script.js:715-719 | A count of last-place units written with its decimal point reads back as the same count |
| Currency.FixedIsClose | static/js/stock_average_calculator_script.js:715-719 | The value the text shows lies within half a last-place unit of the amount |
| Currency.ReadFixedIsClose | static/js/net_worth_calculator_script.js:137-143 | `parseFloat` of a signed `toFixed(p)` text lies within half a last-place unit of the amount |
| Currency.BandOf | static/js/stock_average_calculator_script.js:714-723 | Crore from 1e7, lakh from 1e5, thousand from 1e3, otherwise below |
| Currency.InBandUnits | static/js/stock_average_calculator_script.js:715-719 | The count of crores, lakhs or thousands times the band's unit is the amount again |
| Currency.BandCount | static/js/net_worth_calculator_script.js:137-143 | The signed count times the unit of the magnitude's band is the amount, with the amount's sign |
| Currency.LocaleFixed2 | static/js/stock_average_calculator_script.js:722-725 | The Indian-grouped two-decimal text, with its commas removed, is the plain `toFixed(2)` text |
| Currency.GroupWhole | static/js/stock_average_calculator_script.js:722-725 | Grouping the whole part and then removing the commas gives back the text |
| IndianDigits.Digits | static/js/exit_load_calculator_script.js:403 | The decimal text of a whole number is non-empty, all digits, with no leading zero |
| IndianDigits.ValueOfDigits | static/js/exit_load_calculator_script.js:403 | Reading the decimal text back gives the number |
| IndianDigits.IntString | static/js/exit_load_calculator_script.js:403 | An integer's text is its digits, with a minus sign in front when it is negative |
| IndianDigits.StripCommas | static/js/exit_load_calculator_script.js:402-427 | Deleting commas leaves no comma and never lengthens the text |
| IndianDigits.GroupedRoundTrip | static/js/exit_load_calculator_script.js:402-427 | Deleting the commas from the grouped text gives back the digits |
| IndianDigits.GroupedShape | static/js/exit_load_calculator_script.js:405-424 | Up to three digits stay as they are; longer texts keep the leading digit, never start with a comma, put a comma before the last three digits and gain one comma per further pair |
| IndianDigits.GroupedPrepend | static/js/exit_load_calculator_script.js:413-424 | One more digit in front of a grouped text adds it, plus a comma exactly where the grouping needs one |
| IndianDigits.FormatIndianNumber | static/js/exit_load_calculator_script.js:402-427 | The right-to-left loop with its two comma rules yields exactly the reference grouping (three digits, then pairs) |
| ExitLoad.FormatCurrency | static/js/exit_load_calculator_script.js:397-430 | The text is a minus sign for a negative amount, the rupee sign and the grouped digits of the rounded absolute amount |
| ExitLoad.FormatRoundTrip | static/js/exit_load_calculator_script.js:397-430 | Deleting the commas behind the signs gives back exactly the rounded amount's digits |
| ExitLoad.ExitLoadCharge | static/js/exit_load_calculator_script.js:297-298 | The charge is the rate's share of the amount when both are positive, and zero otherwise |
| ExitLoad.NetAmount | static/js/exit_load_calculator_script.js:299 | Net amount and charge add up to the redemption amount |
| ExitLoad.ChargeWithinAmount | static/js/exit_load_calculator_script.js:297-299 | For a rate up to 100% the charge and the net amount both lie between zero and the amount |
| ExitLoad.RedemptionPoints | static/js/exit_load_calculator_script.js:280-292 | Ten points from zero, ending at three times the current value (1 lakh when missing) but at least 10 lakh, strictly increasing for a positive current value |
| Annuity.DueClosedForm | static/js/elss_vs_sip_calculator_script.js:191 | The start-of-period recurrence satisfies the closed form P((1+i)^n - 1)(1+i)/i |
| Annuity.SipFormulaIsDueBalance | static/js/elss_vs_sip_calculator_script.js:191-194 | For a nonzero rate the SIP formula the comparison pages use is the balance of paying at the start of each month |
| Annuity.DueIsGrownOrdinary | static/js/elss_vs_sip_calculator_script.js:191 | Paying at the start of each period is worth one period's growth more than paying at the end |
| Annuity.ZeroRateBalances | static/js/elss_vs_sip_calculator_script.js:191 | At a zero rate both balances are just the payments made |
| Annuity.DueAtLeastPaid | static/js/elss_vs_sip_calculator_script.js:191 | With non-negative payments and rate the start-of-period balance is at least what was paid in |
| Annuity.OrdinaryAtLeastPaid | static/js/pension_calculator_script.js:265 | With non-negative payments and rate the end-of-period balance is at least what was paid in |
| Annuity.OrdinaryClosedForm | static/js/pension_calculator_script.js:265 | The end-of-period recurrence satisfies the closed form P((1+i)^n - 1)/i |
| Annuity.CompoundClosedForm | static/js/marriage_planning_calculator_script.js:227-234 | A starting balance with payments compounds to the grown start plus the end-of-period annuity |
| Annuity.PaymentForReachesTarget | static/js/retirement_calculator_script.js:247 | Dividing the target by the annuity factor gives the payment that reaches the target exactly, never negative for a non-negative target |
| Annuity.DrawdownClosedForm | static/js/retirement_calculator_script.js:229 | Withdrawing every period leaves the grown balance minus the annuity of the withdrawals |
| Annuity.PresentValueLastsExactly | static/js/retirement_calculator_script.js:229 | A corpus equal to the present-value formula pays every withdrawal and is then exactly used up |
| Annuity.ZeroRateDrawdown | static/js/retirement_calculator_script.js:231 | Without growth, n withdrawals use up n times their amount |
| Annuity.ZeroPaymentBalance | static/js/elss_vs_sip_calculator_script.js:191 | Paying nothing builds nothing |
| Sorting.SortDescendingBy | static/js/daily_compound_interest_calculator_script.js:343 | The comparator sort used for the tables returns a permutation of its input with keys in descending order |
| Sorting.InsertBy | static/js/daily_compound_interest_calculator_script.js:343 | One insertion step adds exactly the new entry to the multiset |
| Sorting.InsertDescending | static/js/daily_compound_interest_calculator_script.js:343 | Inserting into a descending sequence keeps it descending |
| Sorting.InsertKeepsTies | static/js/daily_compound_interest_calculator_script.js:343 | An inserted entry goes in front of the entries sharing its key and leaves their order alone |
| Sorting.SortKeepsTies | static/js/rd_vs_fd_vs_sip_calculator_script.js:380 | The sort is stable, as the language's array sort is: entries with equal keys keep their relative order |
| Sorting.SortedIsUnchanged | static/js/rd_vs_fd_vs_sip_calculator_script.js:380 | Sorting a sequence already in descending order returns it unchanged |
| Sorting.SortKeepsMembers | static/js/daily_compound_interest_calculator_script.js:343 | Every entry of the input is still in the sorted table |
| Labels.FirstIndex | static/js/daily_compound_interest_calculator_script.js:335 | The index found holds the character and no earlier position does |
| Labels.ReplaceFirst | static/js/daily_compound_interest_calculator_script.js:335 | Replacing a one-character pattern changes only its first occurrence, and nothing when it is absent |
| Labels.NoHyphenLabel | static/js/daily_compound_interest_calculator_script.js:335 | A frequency name without a hyphen only has its first letter capitalised |
| Labels.HyphenLabel | static/js/daily_compound_interest_calculator_script.js:335 | In a hyphenated frequency name the first letter is capitalised and only the first hyphen becomes a space ("half-yearly" reads "Half yearly") |
| Lists.Newest | static/js/net_worth_calculator_script.js:345 | Keeping the last n entries keeps min(length, n) of them, which are the suffix of the list |
| Lists.NewestAppend | static/js/net_worth_calculator_script.js:344-345 | Trimming after every append is the same as trimming once at the end |
| Ctc.HraExemption | static/js/ctc_calculator_script.js:436-444 | Zero unless the old regime is chosen and rent is paid; otherwise the least of the HRA received, 50% (metro) or 40% of basic, and rent above 10% of basic (floored at zero), so between zero and the HRA received |
| Ctc.HealthInsuranceLimit | static/js/ctc_calculator_script.js:473-479 | The 80D limit is 25000 for non-seniors without parents, 50000 for seniors without parents, 50000 for non-seniors with parents and 100000 for seniors with parents |
| Ctc.SlabsAgreeWithIncomeTax | static/js/ctc_calculator_script.js:492-529 | The CTC page's slabs equal the income-tax page's (below-60 old regime, and new regime): zero up to 2.5 lakh (old) or 3 lakh (new), non-decreasing, rising at most 30 paise per rupee |
| Ctc.RegimeDeductions | static/js/ctc_calculator_script.js:450-514 | The new regime deducts min(50000, gross) plus employee PF; the old regime also deducts the HRA exemption and the five sections: entries within their caps as entered, entries at or above their caps at the cap, and never less than the base plus the HRA exemption for non-negative entries |
| Ctc.SalaryOf | static/js/ctc_calculator_script.js:411-433 | Basic is a share of CTC; HRA, employer PF and gratuity are shares of basic; gross is CTC minus employer PF and gratuity; employee PF and professional tax are zero when not applicable |
| Ctc.GrossShareOfCtc | static/js/ctc_calculator_script.js:411-426 | Gross salary is CTC times (1 − basic% × (employer PF% + gratuity%) / 10000) |
| Ctc.TaxOf | static/js/ctc_calculator_script.js:447-530 | Taxable income is gross minus the regime's deductions, floored at zero; the tax is the regime's slab tax on it |
| Ctc.TakeHomeOf | static/js/ctc_calculator_script.js:532-541 | Monthly take-home is monthly gross minus PF, professional tax and income tax per month; over a year take-home and deductions add up to gross |
| Ctc.CalculateCtc | static/js/ctc_calculator_script.js:323-334 | Refused exactly when the CTC is not positive or basic is outside 30–60%; a monthly CTC is multiplied by 12 |
| Ctc.ExemptionWithinHra | static/js/ctc_calculator_script.js:436-444 | For accepted input the exemption lies between zero and the HRA received, and is zero under the new regime |
| Slabs.PortionGrowth | static/js/income_tax_calculator_with_old_and_new_tax_regime_script.js:267-292 | Raising the income raises each bracket's portion by between zero and the raise |
| Slabs.MarginalGrowthFrom | static/js/income_tax_calculator_with_old_and_new_tax_regime_script.js:267-292 | The tax of the upper brackets grows by at most the top rate times the growth of the income above them |
| Slabs.MarginalGrowth | static/js/income_tax_calculator_with_old_and_new_tax_regime_script.js:267-292 | Marginal tax never decreases and grows no faster than the top rate, hence is continuous at every bracket edge |
| Slabs.MarginalZeroBelow | static/js/income_tax_calculator_with_old_and_new_tax_regime_script.js:268-286 | No tax is due below the first bracket edge |
| IncomeTax.Limit80D | static/js/income_tax_calculator_with_old_and_new_tax_regime_script.js:294-297 | 50000 exactly for the '80+' and '60-80' groups, 25000 for any other string |
| IncomeTax.OldRegimeIsMarginal | static/js/income_tax_calculator_with_old_and_new_tax_regime_script.js:267-283 | The written old-regime formulas equal marginal taxation over the age group's ascending brackets |
| IncomeTax.NewRegimeIsMarginal | static/js/income_tax_calculator_with_old_and_new_tax_regime_script.js:285-292 | The written new-regime formulas equal marginal taxation over ascending brackets |
| IncomeTax.OldRegimeShape | static/js/income_tax_calculator_with_old_and_new_tax_regime_script.js:267-283 | Old-regime tax is zero up to the age group's exemption limit (2.5, 3 or 5 lakh), non-decreasing, and rises at most 30 paise per rupee |
| IncomeTax.NewRegimeShape | static/js/income_tax_calculator_with_old_and_new_tax_regime_script.js:285-292 | New-regime tax is zero up to 3 lakh, non-decreasing, and rises at most 30 paise per rupee |
| IncomeTax.OldRegimeDeductions | static/js/income_tax_calculator_with_old_and_new_tax_regime_script.js:226-230 | 80C, 80D, 80TTA, 80CCD(1) and 80EEA are capped; 80G, 80CCD(2) and other deductions pass through; entries within their caps are summed unchanged |
| IncomeTax.Recommend | static/js/income_tax_calculator_with_old_and_new_tax_regime_script.js:241-246 | "Both Similar" exactly when the taxes differ by less than 100; otherwise the regime with the lower tax |
| IncomeTax.CompareRegimes | static/js/income_tax_calculator_with_old_and_new_tax_regime_script.js:219-262 | Total income is the income entries less the exempt allowances and losses; the old-regime deductions are the capped section total; both taxable incomes are income less deductions floored at zero; each total is 1.04 times its slab tax; the saving is the absolute difference and the advice follows it |
| IncomeTax.DeductionsLowerOldTaxOnly | static/js/income_tax_calculator_with_old_and_new_tax_regime_script.js:225-240 | On the same income, larger old-regime deductions never raise the old-regime tax and cut it by at most 31.2% of the extra deductions, while the new-regime tax does not change |
| IncomeTax.SlabExamples | static/js/income_tax_calculator_with_old_and_new_tax_regime_script.js:267-292 | New regime: 15000, 45000, 90000, 150000 at 6, 9, 12, 15 lakh; old regime below 60: 12500 at 5 lakh and 112500 at 10 lakh |
| Tds.RateConfigFor | static/js/tds_calculator_script.js:173-224 | The new table is chosen only for regime "new"; an unknown section falls back to 194A; old-regime entries are all flat; the slab entry is picked exactly for 194A (or an unknown section) in the new regime |
| Tds.FirstSlabRate | static/js/tds_calculator_script.js:243-259 | The rate is that of the first slab whose closed range holds the amount, and there is a rate exactly when some slab holds it |
| Tds.RateAndTds | static/js/tds_calculator_script.js:227-278 | Below the threshold the rate and the deduction are zero; from the threshold a flat section takes the PAN or no-PAN rate and the slab section the first matching slab's rate, and the deduction is that rate's share of the payment |
| Tds.CalculateTds | static/js/tds_calculator_script.js:280-294 | The deduction and the net payment are rounded to paise; the reported percentage equals the applied rate and the reported threshold is the section's |
| Tds.CalculateTdsChecked | static/js/tds_calculator_script.js:127-133 | A payment of zero or less is refused; any other payment gets the client-side result |
| Tds.TablesRatesAtMost20 | static/js/tds_calculator_script.js:173-219 | Every rate in both tables lies between 0 and 20 percent |
| Tds.TdsWithinPayment | static/js/tds_calculator_script.js:227-278 | For any section, regime and PAN status the deduction is between zero and a fifth of the payment |
| Tds.RateBounded | static/js/tds_calculator_script.js:227-278 | Whichever entry applies, the deduction is the payment at the applied rate and that rate is within 0–20 |
| Tds.NetPlusTdsIsPayment | static/js/tds_calculator_script.js:280-285 | The rounded net payment and the rounded deduction add up to the payment to within one paisa |
| Tds.TablesPositiveFlatRates | static/js/tds_calculator_script.js:173-219 | Every flat entry has positive PAN and no-PAN rates |
| Tds.FlatThresholdIsSharp | static/js/tds_calculator_script.js:262-277 | For a flat section a positive payment has tax deducted exactly when it reaches the threshold, and a larger payment never has less deducted |
| Tds.FlatConfigIsSharp | static/js/tds_calculator_script.js:262-277 | The same two facts for any flat entry with positive rates |
| Tds.Slabs194AOnWholeRupees | static/js/tds_calculator_script.js:192-206 | For whole-rupee payments with a PAN under 194A (new regime): 0% at 50000, 10% from 50001 to 500000, 15% from 500001 |
| Tds.NoPanIgnoresSlabs | static/js/tds_calculator_script.js:192-276 | Without a PAN, 194A in the new regime is flat: 20% from the 50000 threshold, so exactly 50000 already pays 20% and the no-PAN slab list is never read |
| Tds.GapAmountPaysNothing | static/js/tds_calculator_script.js:196-259 | As written, 500000.50 falls between two slabs and pays no TDS while 500000 pays 50000 |
| Tds.CorrectedSlabRate | static/js/tds_calculator_script.js:198-200 | Contiguous slabs: 0% up to 50000, 10% up to 500000, 15% above |
| Tds.CorrectedTds194A | static/js/tds_calculator_script.js:237-259 | Nothing below the threshold, otherwise the payment at the contiguous slabs' rate |
| Tds.CorrectedTdsMonotone | static/js/tds_calculator_script.js:196-205 | With contiguous slabs the deduction never falls as the payment grows |
| Tds.CorrectedAgreesOnWholeRupees | static/js/tds_calculator_script.js:196-259 | On every whole-rupee payment the contiguous slabs deduct what the written slabs deduct |
| CapitalGains.IsLongTerm | static/js/capital_gains_calculator_with_and_without_tax_slabs_script.js:201-217 | Crypto is never long-term; listed equity is long-term from 365 days, property from 730, every other asset from 1095 |
| CapitalGains.LongTermMonotone | static/js/capital_gains_calculator_with_and_without_tax_slabs_script.js:201-217 | Holding longer never turns a long-term gain short-term; every asset but crypto is long-term after three years; nothing is long-term before a year |
| CapitalGains.CiiAscending | static/js/capital_gains_calculator_with_and_without_tax_slabs_script.js:7-12 | The cost inflation index never falls from one year to a later one |
| CapitalGains.PurchaseCii | static/js/capital_gains_calculator_with_and_without_tax_slabs_script.js:231 | The purchase-year index, falling back to the 2001 entry, is at least 100 |
| CapitalGains.SaleCii | static/js/capital_gains_calculator_with_and_without_tax_slabs_script.js:232 | The sale-year index, falling back to the 2024 entry, is at least 100 |
| CapitalGains.ShouldIndex | static/js/capital_gains_calculator_with_and_without_tax_slabs_script.js:237-251 | Indexation applies exactly to long-term property, gold and unlisted shares |
| CapitalGains.IndexFactorAtLeastOne | static/js/capital_gains_calculator_with_and_without_tax_slabs_script.js:228-234 | With both years in the table and the sale no earlier, the index ratio is at least one |
| CapitalGains.IndexationNeverLowersCost | static/js/capital_gains_calculator_with_and_without_tax_slabs_script.js:219-235 | With both years in the table, the base cost is never below the purchase value |
| CapitalGains.CalculateExemptions | static/js/capital_gains_calculator_with_and_without_tax_slabs_script.js:253-284 | Long-term equity gets min(gain, 1.25 lakh from 23 July 2024, else 1 lakh); property with a positive claimed amount gets min(claimed amount, gain less the equity allowance), which is min(claimed, gain); every other case gets no section exemption; the total never exceeds a non-negative gain |
| CapitalGains.SlabTaxIsMarginal | static/js/capital_gains_calculator_with_and_without_tax_slabs_script.js:412-420 | The slab function equals the marginal tax over ascending brackets (0/5/10/15/20/30%) |
| CapitalGains.SlabIncrementBounds | static/js/capital_gains_calculator_with_and_without_tax_slabs_script.js:336-420 | The slab tax is zero up to 3 lakh, and the extra tax a gain adds on top of other income lies between zero and 30% of the gain |
| CapitalGains.BaseTax | static/js/capital_gains_calculator_with_and_without_tax_slabs_script.js:298-382 | Crypto is taxed at a flat 30% of the taxable gain |
| CapitalGains.BaseTaxBounds | static/js/capital_gains_calculator_with_and_without_tax_slabs_script.js:298-382 | For every asset, term and mode the base tax on a positive gain lies between zero and 30% of it |
| CapitalGains.CalculateTax | static/js/capital_gains_calculator_with_and_without_tax_slabs_script.js:286-410 | No taxable gain gives all zeros; otherwise 4% cess on request, 10% surcharge on request above 50 lakh of income plus gain, and the total is base plus cess plus surcharge |
| CapitalGains.TotalTaxBounds | static/js/capital_gains_calculator_with_and_without_tax_slabs_script.js:286-410 | The total tax is never negative and at most 34.2% of the taxable gain |
| CapitalGains.ComputeCapitalGains | static/js/capital_gains_calculator_with_and_without_tax_slabs_script.js:161-199 | The gain is never negative and equals net consideration minus cost and improvement when positive; the taxable gain lies between zero and the gain; the effective rate is zero without a gain |
| CapitalGains.IndexationNeverRaisesGain | static/js/capital_gains_calculator_with_and_without_tax_slabs_script.js:169-235 | With both years in the table, the gain is at most what the unindexed purchase value would give |
| CapitalGains.GainGrowsWithSale | static/js/capital_gains_calculator_with_and_without_tax_slabs_script.js:172-175 | Selling for more never lowers the gain and raises it by at most the extra proceeds |
| CapitalGains.EquityGainWithinAllowanceIsTaxFree | static/js/capital_gains_calculator_with_and_without_tax_slabs_script.js:179-296 | A long-term equity gain within the allowance has no taxable gain, no tax and keeps the whole gain |
| CapitalGains.EffectiveRateBound | static/js/capital_gains_calculator_with_and_without_tax_slabs_script.js:185 | The effective rate on the whole gain lies between 0 and 34.2% |
| Ltcg.GetTaxRegime | static/js/ltcg_calculator_script.js:175-196 | Sales on or after 23 July 2024 take 20% short-term, 12.5% long-term and a 1.25 lakh exemption; earlier sales take 15%, 10% and 1 lakh |
| Ltcg.CalculateLtcgTax | static/js/ltcg_calculator_script.js:117-173 | A holding of at least 365 days is long-term; a loss carries no tax; a long-term gain is taxed above the exemption at the long-term rate, a short-term one in full at the short-term rate; the effective rate is tax over gain |
| Ltcg.AnniversaryIsLongTerm | static/js/ltcg_calculator_script.js:117-123 | Selling on the same date a year after buying makes the gain long-term |
| Ltcg.NextDayIsShortTerm | static/js/ltcg_calculator_script.js:117-123 | Selling the day after buying keeps the gain short-term |
| Ltcg.EffectiveRateWithinApplicable | static/js/ltcg_calculator_script.js:139-156 | The exemption can only lower the tax: the effective rate lies between zero and the applicable rate |
| Ltcg.TaxMatchesReference | static/js/ltcg_calculator_script.js:117-156 | The tax equals an independent piecewise definition on the gain, the holding class and the regime |
| Ltcg.LongTermNeverCostsMore | static/js/ltcg_calculator_script.js:143-196 | Under either regime, the long-term tax on a gain never exceeds the short-term tax on it |
| Ltcg.TaxGrowsWithGain | static/js/ltcg_calculator_script.js:139-154 | A larger gain never carries less tax, short- or long-term |
| Ltcg.ValidateInputs | static/js/ltcg_calculator_script.js:80-115 | The page computes exactly when both dates are given, the sale comes after the purchase and both values lie in (0, 10 crore]; the result is then the tax calculation |
| Ltcg.FormatLtcgCurrency | static/js/ltcg_calculator_script.js:284-290 | A leading minus exactly for a negative amount, then the rupee sign and the digits of the rounded absolute amount |
| RdVsFdVsSip.RiskLevel | static/js/rd_vs_fd_vs_sip_calculator_script.js:221-293 | Only the SIP is high risk |
| RdVsFdVsSip.CalculateRd | static/js/rd_vs_fd_vs_sip_calculator_script.js:189-225 | The RD invests twelve deposits a year; at every rate its maturity is the rounded balance of depositing at the start of each month compounded at the cube root of the quarter's growth, returns are the rounded maturity less the invested total, and a zero rate matures at exactly what was invested |
| RdVsFdVsSip.RdMaturityIsDue | static/js/rd_vs_fd_vs_sip_calculator_script.js:205-211 | Both branches of the RD maturity, the zero-rate one included, equal the start-of-month deposit recurrence at the cube-root rate |
| RdVsFdVsSip.CubeRootNotOne | static/js/rd_vs_fd_vs_sip_calculator_script.js:205-209 | For a non-zero quarterly rate the formula's denominator is not zero |
| RdVsFdVsSip.RdFormulaIsMonthlyDeposits | static/js/rd_vs_fd_vs_sip_calculator_script.js:198-210 | The RD formula is each monthly deposit compounded monthly at the cube root of the quarter's growth, the start-of-month recurrence |
| RdVsFdVsSip.CubePower | static/js/rd_vs_fd_vs_sip_calculator_script.js:207 | The quarterly growth over n quarters equals its cube root over 3n months |
| RdVsFdVsSip.DueInGrowth | static/js/rd_vs_fd_vs_sip_calculator_script.js:207-209 | The start-of-month balance in closed form, written with the growth factor |
| RdVsFdVsSip.RdDivide | static/js/rd_vs_fd_vs_sip_calculator_script.js:207-209 | The formula's division recovers the balance from the closed form |
| RdVsFdVsSip.CompoundingFrequency | static/js/rd_vs_fd_vs_sip_calculator_script.js:229-245 | Annual, half-yearly, quarterly and monthly compound 1, 2, 4 and 12 times; anything else quarterly |
| RdVsFdVsSip.CalculateFd | static/js/rd_vs_fd_vs_sip_calculator_script.js:227-261 | The FD invests its lump sum once and matures at the compounded value, with returns the difference |
| RdVsFdVsSip.FdCompoundsYearly | static/js/rd_vs_fd_vs_sip_calculator_script.js:247-248 | Compounding f times a year for t years equals compounding yearly by a year's growth |
| RdVsFdVsSip.FdAtZeroRate | static/js/rd_vs_fd_vs_sip_calculator_script.js:247-248 | At a zero rate the deposit does not grow |
| RdVsFdVsSip.CalculateSip | static/js/rd_vs_fd_vs_sip_calculator_script.js:263-297 | The SIP invests twelve instalments a year, matures at the rounded start-of-month annuity balance (both branches), and its returns are the rounded balance less the instalments paid |
| RdVsFdVsSip.SipIsMonthlyDeposits | static/js/rd_vs_fd_vs_sip_calculator_script.js:268-278 | Both branches, the zero-return one included, equal the start-of-month recurrence |
| RdVsFdVsSip.SipFormulaBranch | static/js/rd_vs_fd_vs_sip_calculator_script.js:276-277 | The annuity-due formula equals the start-of-month recurrence for a non-zero rate |
| RdVsFdVsSip.FdLumpsum | static/js/rd_vs_fd_vs_sip_calculator_script.js:172-176 | With the match option the FD lump sum is the larger of the RD's and the SIP's investment; otherwise the entered amount |
| RdVsFdVsSip.EffectiveCagr | static/js/rd_vs_fd_vs_sip_calculator_script.js:214-284 | The growth rate is zero when nothing was invested and not negative when the money has grown |
| RdVsFdVsSip.UpdateRanking | static/js/rd_vs_fd_vs_sip_calculator_script.js:378-400 | Three ranked items, 1st to 3rd, in descending order of maturity, each naming its instrument and amount |
| Gst.ValidateAmount | static/js/gst_calculator_script.js:117-125 | An amount passes exactly when it is between zero and two crore |
| Gst.Split | static/js/gst_calculator_script.js:141-151 | Base plus GST is the total; adding charges the rate on the amount, removing takes rate/(100+rate) of the inclusive amount; a zero rate changes nothing; parts of a non-negative amount are non-negative and the base is at most the total |
| Gst.CalculateGstAmounts | static/js/gst_calculator_script.js:138-162 | The reported base, GST and total are the split rounded to paise, with the amount, rate and direction echoed |
| Gst.AddThenRemove | static/js/gst_calculator_script.js:141-151 | Removing GST from the total of an addition at the same rate gives back the same base, GST and total |
| Gst.RemoveThenAdd | static/js/gst_calculator_script.js:141-151 | Adding GST to the base of a removal gives back the inclusive amount's split |
| Gst.SaveCalculation | static/js/gst_calculator_script.js:331-336 | A save puts the new record first, keeps the older records in order behind it and holds at most fifty |
| Gst.HistoryBounded | static/js/gst_calculator_script.js:314-342 | Repeated saves never let the history exceed fifty entries, and the latest save is first |
| Hra.Validate | static/js/hra_calculator_script.js:128-146 | The inputs pass exactly when basic is positive and DA, HRA and rent are not negative; a bad basic is reported first with the page's message |
| Hra.SalaryPercentage | static/js/hra_calculator_script.js:189 | The city limit is half of basic in a metro and 40% of basic elsewhere |
| Hra.CalculateHra | static/js/hra_calculator_script.js:185-214 | Total salary is basic plus DA; the city limit is half of basic in a metro and 40% of basic elsewhere; the rent test is rent less a tenth of basic plus DA, floored at zero; the exemption is the least of the allowance, the city limit and the rent test; the taxable part is what the allowance exceeds it by; the tax saving is 30% of the exemption |
| Hra.ExemptPlusTaxable | static/js/hra_calculator_script.js:193-194 | For accepted inputs the allowance splits exactly into exempt and taxable parts, each between 0 and the allowance |
| Hra.ExemptMonotoneInRent | static/js/hra_calculator_script.js:191-193 | More rent never lowers the exemption and never raises it by more than the extra rent |
| Hra.MetroAtLeastNonMetro | static/js/hra_calculator_script.js:189-193 | A metro city never gives a smaller exemption than any other city type |
| ElssVsSip.Validate | static/js/elss_vs_sip_calculator_script.js:130-138 | The inputs pass exactly when the instalment is 500 to 50000 and the duration 3 to 30 years |
| ElssVsSip.AnnualTaxSaved | static/js/elss_vs_sip_calculator_script.js:197-198 | The slab rate applies to the year's contributions capped at the 80C limit of 1.5 lakh, never negative for non-negative inputs |
| ElssVsSip.FundValue | static/js/elss_vs_sip_calculator_script.js:191-194 | The formula value is the balance of paying at the start of each month |
| ElssVsSip.TaxSavedUpToIsProduct | static/js/elss_vs_sip_calculator_script.js:199-219 | The year-by-year running tax saved equals the yearly saving times the years |
| ElssVsSip.EqualRatesBenefitIsTaxSaved | static/js/elss_vs_sip_calculator_script.js:202 | At equal return rates the ELSS's advantage is exactly the tax saved, never negative |
| ElssVsSip.YearWiseData | static/js/elss_vs_sip_calculator_script.js:205-229 | One row per year, each with that year's rounded values and advantage |
| ElssVsSip.CalculateElssVsSip | static/js/elss_vs_sip_calculator_script.js:184-241 | The final values, total tax saved and net benefit are the rounded balances and differences; the last row's advantage is the net benefit |
| Ppf.Validate | static/js/ppf_calculator_script.js:122-131 | The inputs pass exactly when the contribution is between 500 and 1.5 lakh and the duration between 15 and 30 years |
| Ppf.YearInterestIsRate | static/js/ppf_calculator_script.js:178-180 | A year's interest is the rate applied to the opening balance plus that year's contribution |
| Ppf.InterestNonNegative | static/js/ppf_calculator_script.js:178-180 | A year's interest is not negative when the contribution and the rate are not |
| Ppf.InterestsAddUp | static/js/ppf_calculator_script.js:176-194 | The yearly interests add up to the maturity value minus everything paid in |
| Ppf.YearlyBreakdown | static/js/ppf_calculator_script.js:176-191 | One row per year, each opening at the previous balance and closing at the balance of contributions made at the start of every year; the totals are all contributions and the final balance |
| Ppf.CalculatePpfReturns | static/js/ppf_calculator_script.js:169-205 | The rounded investment, maturity and interest are the contributions, the start-of-year annuity balance and their difference; the inputs are echoed and the frequency changes no figure |
| Ppf.MonthlyContribution | static/js/ppf_calculator_script.js:417-428 | The instalments of one year add up to the annual contribution: one, four or (for anything else) twelve of them |
| Ppf.FormatFrequency | static/js/ppf_calculator_script.js:431-438 | The label is one of the three frequency names; anything unrecognised reads Monthly |
| PpfVsSip.GetInputValues | static/js/ppf_vs_sip_calculator_script.js:216-224 | Each entry is read as the parsed figure or, failing that, a default: an entered non-zero figure is kept, a missing or zero one takes its default (12500, 7.1%, 12500, 12% and 15 years), so no figure is zero |
| PpfVsSip.ReturnPercent | static/js/ppf_vs_sip_calculator_script.js:255-256 | The return percentage is the gain as a percentage of the invested amount, and is undefined exactly when nothing was invested |
| PpfVsSip.CalculatePpfReturns | static/js/ppf_vs_sip_calculator_script.js:226-265 | Twelve monthly amounts are paid at the start of each year: one row per year, the maturity is the start-of-year annuity balance, and the gain and return follow from it |
| PpfVsSip.CalculateSipReturns | static/js/ppf_vs_sip_calculator_script.js:267-309 | Monthly instalments at each month end: one row per twelve months, the maturity is the ordinary annuity balance after 12 n months, and the gain and return follow from it |
| PpfVsSip.Find | static/js/ppf_vs_sip_calculator_script.js:318-319 | A found row has the year looked for; nothing is found only when no row has that year |
| PpfVsSip.FindNumbered | static/js/ppf_vs_sip_calculator_script.js:318-319 | In a breakdown numbered from its first year, the row found for a year is the one at that year's place |
| PpfVsSip.Better | static/js/ppf_vs_sip_calculator_script.js:313-323 | SIP is named exactly when it is strictly ahead; ties go to PPF |
| PpfVsSip.CompareYear | static/js/ppf_vs_sip_calculator_script.js:317-341 | A comparison row names the better option by the two balances and shows their absolute difference |
| PpfVsSip.CompareResults | static/js/ppf_vs_sip_calculator_script.js:311-349 | The headline difference and verdict come from the two maturities, the advantage is undefined exactly when the smaller maturity is zero, and there is one comparison row per year |
| PpfVsSip.ComparisonMatchesBreakdowns | static/js/ppf_vs_sip_calculator_script.js:316-341 | Year y of the comparison shows year y of each breakdown, and its last row's verdict is the headline verdict |
| ReverseGst.Validate | static/js/reverse_gst_calculator_script.js:206-214 | The inputs pass exactly when the amount is positive and the rate lies between 0 and 100 |
| ReverseGst.CalculateReverseGst | static/js/reverse_gst_calculator_script.js:232-260 | Base plus GST is the inclusive amount with the GST in proportion rate/(100+rate); within a state it is halved into CGST and SGST, otherwise all IGST |
| ReverseGst.AgreesWithRemoveMode | static/js/reverse_gst_calculator_script.js:232-235 | The reverse calculator gives the same base and GST as the GST calculator removing tax |
| ReverseGst.UpdateSliderRange | static/js/reverse_gst_calculator_script.js:109-149 | Four bands by amount, with minimum, step and a maximum of at least the band's floor and a multiple of the amount; the upper two bands are labelled in crores |
| ReverseGst.SliderCoversInput | static/js/reverse_gst_calculator_script.js:119-134 | The range always reaches the typed amount, the maximum exceeds the minimum, and the step is positive |
| ReverseGst.SliderMaxMonotone | static/js/reverse_gst_calculator_script.js:119-134 | A larger amount never gets a smaller slider maximum |
| Emi.SplitTenure | static/js/script.js:320-327 | Years mode sends the value as years; months mode splits a non-negative value into whole years and a remainder below 12 that add back up to it |
| Emi.EmiAdvance | static/js/script.js:313 | EMI in advance is requested exactly for a car loan with the advance scheme selected |
| Emi.CalculateEmi | static/js/script.js:309-360 | A non-positive principal, rate or total tenure shows a zero EMI with the principal as total; otherwise the request carries the principal, rate, the advance flag and a tenure that adds up to the field's months |
| Emi.FormatLakhCrore | static/js/script.js:276-284 | The axis label is whole crores from one crore, whole lakhs from one lakh, and whole thousands below |
| Emi.LakhCroreReadsBack | static/js/script.js:276-284 | Reading a label's number back times its unit gives the amount to within half a unit, and the number is at least 1 from one lakh on |
| Emi.SwitchTenureType | static/js/script.js:967-987 | The tab switch as written: values up to 30 are multiplied by 12 going to months, values above 30 divided by 12 and rounded going to years, anything else kept |
| Emi.SwitchLosesShortTenures | static/js/script.js:967-987 | Two years switched to months and back become 24 years |
| Emi.SwitchTenureCorrected | static/js/script.js:951-994 | The conversion keyed on the unit being left: years to months multiplies by 12, months to years divides and rounds, no change keeps the value |
| Emi.CorrectedRoundTrip | static/js/script.js:951-994 | With the corrected conversion whole years survive a trip to months and back |
| Emi.CorrectedAgreesWhenGuessRight | static/js/script.js:967-987 | The corrected conversion agrees with the page when its size test guesses the unit right |
| InterestRate.YearOf | static/js/interest_rate_script.js:472 | The loan year of a month is the one whose twelve months contain it |
| InterestRate.InYear | static/js/interest_rate_script.js:471-490 | A year's entries all belong to that year |
| InterestRate.MaxYear | static/js/interest_rate_script.js:492 | The largest year bounds every entry's year |
| InterestRate.AddPaymentKeepsRows | static/js/interest_rate_script.js:471-490 | Adding one payment to the map of year rows keeps it holding exactly the rows of the entries seen |
| InterestRate.AccumulatedRepresents | static/js/interest_rate_script.js:470-490 | After the loop, the map holds for each year with entries its row (sums of principal, interest and EMI, last balance, the months in order) and nothing else |
| InterestRate.UpdatePaymentSchedule | static/js/interest_rate_script.js:466-499 | The grouping loop yields exactly the reference year rows |
| InterestRate.YearRowsShape | static/js/interest_rate_script.js:470-492 | One row per year that has entries, in ascending year order, each summing its months and carrying its last month's balance, and every entry's year has a row |
| InterestRate.InYearIsSlice | static/js/interest_rate_script.js:472 | In a schedule numbered 1..n, year y holds months 12(y-1)+1 to 12y |
| InterestRate.ConsecutiveRows | static/js/interest_rate_script.js:470-492 | For a schedule numbered 1..n, the rows' months read in order give back the schedule and no row has more than twelve months |
| InterestRate.RowPercentIsYearEnd | static/js/interest_rate_script.js:584 | Each year row shows the paid percentage of the year's last scheduled month |
| InterestRate.MonthNameOf | static/js/interest_rate_script.js:643-649 | Month i of loan year y is labelled with the i-th month name and "Y" followed by y, and that year is the row it is grouped in |
| InterestRate.TotalMonths | static/js/interest_rate_script.js:271-280 | The total is the field times 12 rounded in years mode and the field rounded in months mode |
| InterestRate.CalculateRequest | static/js/interest_rate_script.js:262-306 | Without a positive loan, EMI and tenure the default figures are shown; otherwise the request sends the field's whole years and the total's remainder modulo 12 |
| InterestRate.RequestTenureRecombines | static/js/interest_rate_script.js:271-303 | In months mode the sent years and months add up to the total; in years mode they do exactly when rounding does not reach the next year |
| InterestRate.YearsModeDropsAYear | static/js/interest_rate_script.js:271-303 | 5.99 years stands for 72 months but is sent as 5 years and 0 months |
| InterestRate.CorrectedRequest | static/js/interest_rate_script.js:268-306 | The corrected request's years and months always add up to the total months, with months below 12 |
| InterestRate.CorrectedAgreesWhenYearsMatch | static/js/interest_rate_script.js:268-306 | The correction changes nothing in months mode, nor in years mode when rounding stays within the year |
| FdVsSip.ValidateInputs | static/js/fd_vs_sip_calculator_script.js:147-183 | The inputs pass exactly when both instalments are positive and at most 1 lakh, both durations 1 to 30 years and neither rate negative |
| FdVsSip.Periods | static/js/fd_vs_sip_calculator_script.js:482 | Monthly compounding uses 12 periods, quarterly 4, anything else 1 |
| FdVsSip.GeometricIsDue | static/js/fd_vs_sip_calculator_script.js:486-491 | Summing each year's deposit grown to the end equals depositing at the start of every year at the year's growth |
| FdVsSip.CalculateYearlyFd | static/js/fd_vs_sip_calculator_script.js:476-496 | Years beyond the FD's duration show zeros; otherwise invested is twelve instalments a year, the balance is the start-of-year deposits grown by the year's compounding factor, and interest is the difference |
| FdVsSip.SipBalanceAsWritten | static/js/fd_vs_sip_calculator_script.js:504-508 | The page's SIP formula gives a value exactly when the CAGR is nonzero (0/0 otherwise) |
| FdVsSip.ZeroCagrGivesNaN | static/js/fd_vs_sip_calculator_script.js:147-183 | A zero CAGR passes validation, yet makes the SIP balance NaN |
| FdVsSip.CalculateYearlySip | static/js/fd_vs_sip_calculator_script.js:498-512 | Years beyond the SIP's duration show zeros; otherwise invested is twelve instalments a year and returns are balance less invested |
| FdVsSip.CorrectedSipAgrees | static/js/fd_vs_sip_calculator_script.js:508 | Where the page's formula is defined the corrected balance equals it |
| FdVsSip.CorrectedSipAtZeroRate | static/js/fd_vs_sip_calculator_script.js:498-512 | At a zero CAGR the corrected balance is the amount invested and the return is zero |
| FdVsSip.Better | static/js/fd_vs_sip_calculator_script.js:455 | The SIP is shown as better exactly when its balance is strictly larger; ties go to the FD |
| FdVsSip.ComparisonTable | static/js/fd_vs_sip_calculator_script.js:436-474 | One row per year up to the longer duration, each with that year's FD and SIP figures, the better option and the absolute advantage |
| LoanAmount.JsRemReal12 | static/js/loan_amount_script.js:269 | The remainder modulo 12 keeps the sign of the value and lies strictly within 12 of zero, as the language's remainder does |
| LoanAmount.SplitTenure | static/js/loan_amount_script.js:262-270 | Years mode takes the whole years and rounds the fraction to 0..12 months; months mode takes whole dozens and the rounded remainder |
| LoanAmount.RequestTenure | static/js/loan_amount_script.js:272-275 | A tenure of zero years and zero months is sent as one month; anything else as split |
| LoanAmount.SplitRecombines | static/js/loan_amount_script.js:262-270 | For a non-negative field the years and months add back up to the field in whole months |
| LoanAmount.WholeMonthsSplitExactly | static/js/loan_amount_script.js:267-270 | A whole number of months splits into years and a remainder below 12 that add back up exactly |
| Tenure.CurrentValue | static/js/loan_amount_script.js:145 | An empty or zero field reads as the unit's default; any other value is kept |
| Tenure.SwitchUnit | static/js/loan_amount_script.js:130-210 | Switching to years divides months by twelve exactly; switching to months gives a whole number within half a month of the value, converted from years when the field held years |
| Tenure.MonthsRoundTrip | static/js/loan_amount_script.js:147-186 | A whole number of months comes back unchanged after switching to years and back to months |
| Tenure.YearsRoundTrip | static/js/loan_amount_script.js:147-186 | A number of years that is a whole number of months comes back unchanged after switching to months and back |
| Tenure.SliderFromInput | static/js/loan_amount_script.js:214-226 | The slider is clamped to 1-30 years or to whole months in 12-360, and follows an in-range field |
| Tenure.InputFromSlider | static/js/loan_amount_script.js:228-240 | The field takes the slider to one decimal of a year, or to a whole month, within half a step |
| Tenure.SliderClampIdempotent | static/js/loan_amount_script.js:214-226 | Placing the slider again from its own position leaves it where it is |
| Kvp.MaturityAmount | static/js/kisan_vikas_patra_script.js:149-155 | The interest at maturity equals the investment |
| Kvp.LockInFigures | static/js/kisan_vikas_patra_script.js:152-156 | The lock-in amount is the investment plus the lock-in interest, which is not negative when the money grows |
| Kvp.YearAmountCompounds | static/js/kisan_vikas_patra_script.js:226-229 | A year before maturity shows the investment compounded yearly for that many years |
| Kvp.LockInMatchesTable | static/js/kisan_vikas_patra_script.js:152-229 | A lock-in of a whole number of years shows the same amount as that year's row of the table |
| Kvp.ProgressionWithinMaturity | static/js/kisan_vikas_patra_script.js:219-230 | When the rate doubles the money in exactly the maturity years, every row lies between the investment and the maturity amount |
| Kvp.YearlyBreakdown | static/js/kisan_vikas_patra_script.js:216-242 | One row per year up to the first whole year at or past maturity; each row before maturity compounds, and the last row is double the investment |
| Kvp.MonthlyBreakdown | static/js/kisan_vikas_patra_script.js:244-270 | Twelve rows for each whole year within the period, each compounding the monthly rate for the months elapsed |
| Kvp.MonthlyForMaturity | static/js/kisan_vikas_patra_script.js:196 | The page's monthly table has at most 24 rows, and exactly 24 when maturity is two years or more |
| Nsc.YearlyBreakdown | static/js/national_savings_certificate_script.js:181-201 | One row per year, each holding that year's opening, interest, closing and cumulative interest |
| Nsc.RowsChain | static/js/national_savings_certificate_script.js:183-197 | Each year opens at the previous year's closing balance |
| Nsc.InterestsTelescope | static/js/national_savings_certificate_script.js:185-197 | The yearly interests add up to the last row's cumulative interest |
| Nsc.MonthlyBreakdown | static/js/national_savings_certificate_script.js:203-227 | The monthly listing has twelve rows per year but at most 24, each with its month's amount and interest |
| Nsc.MonthYear | static/js/national_savings_certificate_script.js:213 | Months 1-12 of the listing fall in year 1 and months 13-24 in year 2 |
| Nsc.CalculateNscReturns | static/js/national_savings_certificate_script.js:150-179 | Over the fixed five years the maturity is the investment compounded yearly, interest is the gain, the tax benefit is capped at 1.5 lakh; the last yearly row closes at the maturity with the total interest, and 24 monthly rows are listed |
| Pension.GetInputs | static/js/pension_calculator_script.js:149-157 | Each entry is read as the parsed figure or, failing that, a fallback (whole numbers for ages): an entered non-zero figure is kept, and a missing or zero one takes the page's fallback: expenses 0, ages 25, 60 and 85, ratio 100, inflation 6, returns 8 and 6, savings 0 |
| Pension.Validate | static/js/pension_calculator_script.js:160-173 | The inputs pass exactly when the ages are in order and the expenses are positive; the current age is checked first |
| Pension.CorpusLastsThroughRetirement | static/js/pension_calculator_script.js:240-248 | The corpus earning the real return pays the year's expenses at the end of every retirement year and is then exactly used up |
| Pension.NetCorpus | static/js/pension_calculator_script.js:251-252 | The net corpus is not negative, covers the shortfall with the grown savings, and is zero exactly when the savings suffice |
| Pension.MonthlySavingBuildsNetCorpus | static/js/pension_calculator_script.js:255-270 | Saved at every month end until retirement, the monthly saving is not negative and builds the net corpus exactly |
| Pension.BalanceClosedForm | static/js/pension_calculator_script.js:276-292 | The yearly projection is the savings grown for k years plus year-end annual savings |
| Pension.RowsChain | static/js/pension_calculator_script.js:276-292 | Each row closes at the projection after that year, which the next row opens at; the first row opens at the savings |
| Pension.YearWiseData | static/js/pension_calculator_script.js:273-293 | The table shows the first ten years at most, each row the projection for that year |
| Pension.CalculatePension | static/js/pension_calculator_script.js:220-321 | The result reports the year counts, the rounded expenses, corpus, grown savings, net corpus, savings and total investment, and the table rows |
| Pmvvy.PensionsPerYear | static/js/pradhan_mantri_vaya_vandana_yojana_script.js:110-135 | Quarterly, half-yearly and yearly pay 4, 2 and 1 times a year; anything else pays monthly |
| Pmvvy.PensionAmount | static/js/pradhan_mantri_vaya_vandana_yojana_script.js:110-135 | The payouts of a year add up to 7.40% of the investment |
| Pmvvy.YearlyBreakdown | static/js/pradhan_mantri_vaya_vandana_yojana_script.js:148-163 | Ten rows, each with the age, the year's pension, the pension received so far and the investment held until the last year |
| Pmvvy.CalculatePmvvy | static/js/pradhan_mantri_vaya_vandana_yojana_script.js:90-178 | Ages outside 60-90 or investments outside 10000 to 15 lakh are refused; otherwise the ten years pay 74% of the investment whatever the frequency, maturity is 174%, and the last row returns the investment |
| Nsc.YearEndMonthsMatchYearRows | static/js/national_savings_certificate_script.js:181-227 | When the monthly growth agrees with yearly compounding at whole years, months 12 and 24 show the yearly table's closing balances under the same year |
| Sgb.Validate | static/js/sovereign_gold_bonds_calculator_script.js:130-149 | The inputs pass exactly when quantity, issue price and expected price are positive, the rate is not negative and the tenure is positive; a bad quantity is reported first with the page's message |
| Sgb.GoldValueEnds | static/js/sovereign_gold_bonds_calculator_script.js:211 | The interpolated gold value is the investment at year 0 and the maturity value at the last year |
| Sgb.RowValueIsLinear | static/js/sovereign_gold_bonds_calculator_script.js:209-220 | The table's total value after k years is the investment plus k equal yearly gains |
| Sgb.LastRowIsTotalReturn | static/js/sovereign_gold_bonds_calculator_script.js:192-219 | The last row carries the whole interest and the maturity value, so it shows the summary's total return |
| Sgb.TotalReturnPositive | static/js/sovereign_gold_bonds_calculator_script.js:190-196 | For valid inputs the total return and the investment are positive, so the growth ratio has a real root |
| Sgb.AnnualizedSign | static/js/sovereign_gold_bonds_calculator_script.js:199-203 | The annualized return is non-negative exactly when the total return is at least the investment |
| Sgb.CalculateSgbReturns | static/js/sovereign_gold_bonds_calculator_script.js:188-239 | Money figures are rounded to whole rupees, the annualized return lies within half a paisa-percent of the growth, and the table has one row per year holding that year's figures |
| UlipVsSip.Validate | static/js/ulip_vs_sip_calculator_script.js:151-169 | The inputs pass exactly when the investment, tenure and both return rates lie in the page's ranges |
| UlipVsSip.SipTax | static/js/ulip_vs_sip_calculator_script.js:197-202 | Equity SIPs pay 10% above the 1 lakh exemption (nothing up to it), debt SIPs 20% of the gain, any other model nothing |
| UlipVsSip.UlipTax | static/js/ulip_vs_sip_calculator_script.js:237-245 | ULIP proceeds are tax-free in the exempt model and taxed at 10% of the gain otherwise |
| UlipVsSip.ValueAsWritten | static/js/ulip_vs_sip_calculator_script.js:191-192 | The page's formula gives a value exactly when the net return is nonzero (0/0 otherwise) |
| UlipVsSip.ChargesEqualToReturnGiveNaN | static/js/ulip_vs_sip_calculator_script.js:151-192 | Validation accepts a SIP whose expense ratio equals its return and a ULIP whose charges equal its return; both are then valued as NaN |
| UlipVsSip.CorrectedValueAgrees | static/js/ulip_vs_sip_calculator_script.js:192 | Where the page's formula is defined the corrected value equals it; at a zero net return the corrected value is the instalments paid |
| UlipVsSip.SipPosition | static/js/ulip_vs_sip_calculator_script.js:190-203 | A SIP position invests the instalments, grows at the net monthly rate, and is taxed under the chosen model |
| UlipVsSip.UlipPosition | static/js/ulip_vs_sip_calculator_script.js:230-246 | A ULIP position invests the premiums, grows at the return less charges, and is taxed under the chosen model |
| UlipVsSip.BestOption | static/js/ulip_vs_sip_calculator_script.js:253-258 | The headline picks the SIP + term plan only when it beats both others, the ULIP only when it beats the SIP and any term plan, and the SIP otherwise |
| UlipVsSip.YearBest | static/js/ulip_vs_sip_calculator_script.js:337-345 | The yearly verdict is the ULIP exactly when it beats the better of the SIP and any SIP + term plan |
| UlipVsSip.VerdictsAgreeWithoutTie | static/js/ulip_vs_sip_calculator_script.js:253-258 | The headline and yearly verdicts agree unless the ULIP and the SIP + term plan tie |
| UlipVsSip.TiedLeadersHeadlineNamesSip | static/js/ulip_vs_sip_calculator_script.js:254-256 | When the ULIP and the SIP + term plan tie above the SIP, the headline names the SIP while the yearly rule names the SIP + term plan |
| UlipVsSip.CalculateUlipSipComparison | static/js/ulip_vs_sip_calculator_script.js:184-287 | The SIP, optional SIP + term (investing the instalment less the premium) and ULIP positions, the verdict and the cost drag against the better SIP, with a percentage only when that SIP's value is nonzero |
| UlipVsSip.YearWiseData | static/js/ulip_vs_sip_calculator_script.js:289-359 | One row per year, each holding that year's rounded positions and verdict |
| UlipVsSip.LastRowMatchesHeadline | static/js/ulip_vs_sip_calculator_script.js:298-356 | The final year's row shows the headline's rounded figures, and its verdict is the headline's unless the ULIP and the SIP + term plan tie |
| Pmsym.MonthlyContribution | static/js/pradhan_mantri_shram_yogi_maandhan_script.js:101-126 | The contribution is 55 up to age 29 and 110 above 39, always between the two |
| Pmsym.ContributionStaircase | static/js/pradhan_mantri_shram_yogi_maandhan_script.js:102-126 | At each whole age from 29 to 40 the contribution is 55 plus 5 per year of age over 29 |
| Pmsym.ContributionMonotone | static/js/pradhan_mantri_shram_yogi_maandhan_script.js:101-126 | An older joiner never pays less a month |
| Pmsym.CorpusClosedForm | static/js/pradhan_mantri_shram_yogi_maandhan_script.js:142-148 | The month-by-month corpus equals its geometric-series closed form |
| Pmsym.CorpusAtLeastPaid | static/js/pradhan_mantri_shram_yogi_maandhan_script.js:142-148 | With a growth factor of at least 1 the corpus is at least the payments made |
| Pmsym.YearlyBreakdown | static/js/pradhan_mantri_shram_yogi_maandhan_script.js:137-160 | One row per year of contribution holding that year's figures, and the corpus ends at twelve months a year of combined contributions compounded monthly |
| Pmsym.CalculatePmsym | static/js/pradhan_mantri_shram_yogi_maandhan_script.js:87-175 | A joining age outside 18..40 is refused; otherwise the years to 60 (20 to 42), the contribution with the government's matching half, the rounded totals and corpus, and one row per year |
| VacationSaving.Validate | static/js/vacation_saving_planner_calculator_script.js:165-178 | The inputs pass exactly when the cost and months are positive and the savings do not exceed the cost |
| VacationSaving.AddMonths | static/js/vacation_saving_planner_calculator_script.js:141-143 | Moving k months keeps the month in range and shifts the month count by k |
| VacationSaving.MonthsFromDate | static/js/vacation_saving_planner_calculator_script.js:141-143 | The months until the picked date are at least one and at least the calendar difference |
| VacationSaving.SliderMonths | static/js/vacation_saving_planner_calculator_script.js:147 | The slider shows the months capped at 60 |
| VacationSaving.MonthsFromDateInvertsAddMonths | static/js/vacation_saving_planner_calculator_script.js:141-143 | Picking the date k months ahead gives back k; a date this month or earlier gives one month |
| VacationSaving.PlanMeetsCost | static/js/vacation_saving_planner_calculator_script.js:230-248 | With a positive return, the estimate reaches the inflated cost exactly when savings are needed, else the grown savings already cover it and nothing more is saved |
| VacationSaving.MonthTotalClosedForm | static/js/vacation_saving_planner_calculator_script.js:261-272 | The table's running total is the grown savings plus a start-of-month annuity of the instalments |
| VacationSaving.NoReturnTableReachesCost | static/js/vacation_saving_planner_calculator_script.js:249-272 | Without returns the table's last month reaches the inflated cost, which is the estimate, with no investment returns |
| VacationSaving.TableEndsAboveEstimate | static/js/vacation_saving_planner_calculator_script.js:237-272 | When a saving is needed the table, which credits each instalment with that month's return, ends above the estimate shown beside it |
| VacationSaving.Progress | static/js/vacation_saving_planner_calculator_script.js:273 | Progress is capped at 100, reaches 100 once the total covers the cost, and is not negative for a non-negative total |
| VacationSaving.MonthWiseData | static/js/vacation_saving_planner_calculator_script.js:257-283 | One row per month, each with that month's rounded instalment, savings, growth, total and progress |
| VacationSaving.CalculateVacationSavings | static/js/vacation_saving_planner_calculator_script.js:219-298 | The result reports the rounded inflated cost, remaining amount, instalment, estimate and returns, and one table row per month |
| RbiBonds.Validate | static/js/rbi_floating_rate_savings_bonds_script.js:115-123 | The inputs pass exactly when at least 1000 is invested at a rate in (0, 20] |
| RbiBonds.Breakdown | static/js/rbi_floating_rate_savings_bonds_script.js:171-197 | One row per year and two payout rows per year, each with its cumulative interest |
| RbiBonds.CalculateBondReturns | static/js/rbi_floating_rate_savings_bonds_script.js:160-223 | The yearly interest, half-yearly payout, tenure interest and maturity are rounded simple interest; the tables have one row per year and two per year |
| RbiBonds.LastPayoutIsTotal | static/js/rbi_floating_rate_savings_bonds_script.js:187-195 | The last payout row is number 2T and its cumulative interest is the whole tenure's interest |
| RbiBonds.NextRevisionDate | static/js/rbi_floating_rate_savings_bonds_script.js:200-208 | The next reset is 1 July this year up to June and 1 January next year from July |
| RbiBonds.RevisionWithinSixMonths | static/js/rbi_floating_rate_savings_bonds_script.js:200-208 | The reset falls one to six months ahead of the current month |
| MarriagePlanning.GetInputs | static/js/marriage_planning_calculator_script.js:125-130 | Each entry is read as the parsed figure or, failing that, a fallback (whole numbers for ages): an entered non-zero figure is kept, and a missing or zero one takes the page's fallback: cost 5 lakh, inflation 6, ages 5 and 25, return 8, savings 0 |
| MarriagePlanning.Validate | static/js/marriage_planning_calculator_script.js:133-156 | The inputs pass exactly when the marriage age exceeds the current age and every field lies in the page's range, giving a positive number of years; the age order is checked first |
| MarriagePlanning.RequiredCorpus | static/js/marriage_planning_calculator_script.js:201-207 | The corpus is the inflated cost less the grown savings when that is positive, else zero, and zero exactly when the savings cover the cost |
| MarriagePlanning.MonthlyInvestmentBuildsCorpus | static/js/marriage_planning_calculator_script.js:210-220 | Invested at every month end for the whole period, the monthly amount is not negative and builds the required corpus exactly |
| MarriagePlanning.PortfolioClosedForm | static/js/marriage_planning_calculator_script.js:227-234 | The yearly projection equals the savings grown for k years plus a year-end annuity of the investment credited with half a year's return |
| MarriagePlanning.PortfolioCompounds | static/js/marriage_planning_calculator_script.js:229-234 | Crediting half a year's return on the year's investment equals a year-end payment of the investment grown by half the rate |
| MarriagePlanning.PortfolioAtLeastInvested | static/js/marriage_planning_calculator_script.js:227-246 | With non-negative savings, investment and return the portfolio is at least what was put in, so the reported growth is not negative |
| MarriagePlanning.YearWiseData | static/js/marriage_planning_calculator_script.js:223-244 | One row per year, each holding that year's opening, returns, closing and running invested total; the loop ends at the projected portfolio and the total invested |
| MarriagePlanning.CalculateMarriagePlan | static/js/marriage_planning_calculator_script.js:196-259 | The plan reports the years, the rounded future cost, grown savings, corpus, monthly investment, total invested and growth, and one table row per year |
| MarriagePlanning.SavingsAloneSuffice | static/js/marriage_planning_calculator_script.js:207-220 | When the savings alone cover the cost nothing more is invested and the projection ends at the grown savings |
| Dates.DaysBetween | static/js/ltcg_calculator_script.js:360-363 | The day difference is non-negative exactly when the second date is on or after the first; the partner lemmas below give the count its calendar meaning |
| Dates.NextDay | static/js/ltcg_calculator_script.js:360-363 | The calendar's next day of an existing date exists |
| Dates.MarchToMarch | static/js/ltcg_calculator_script.js:360-363 | From one first of March to the next the day count grows by the length of the later year, 366 exactly in a Gregorian leap year |
| Dates.NextDayIsOneMore | static/js/ltcg_calculator_script.js:360-363 | For every existing date, the next day (within the month, across a month end, across a leap or common February and across New Year) is one day later |
| Dates.YearLater | static/js/ltcg_calculator_script.js:360-363 | The same date a year later lies the length of the year holding the February in between further on |
| Dates.DaysBetweenNextDay | static/js/ltcg_calculator_script.js:360-363 | From an existing date to its next day is one day |
| Dates.DaysBetweenYearLater | static/js/ltcg_calculator_script.js:360-363 | From a date to the same date a year later is 365 or 366 days, 366 exactly when a leap day falls in between |
| Dates.DaysBetweenAdds | static/js/ltcg_calculator_script.js:360-363 | Day counts add up along consecutive intervals |
| NpsVsSip.GetInputs | static/js/nps_vs_sip_calculator_script.js:90-98 | Each entry is read as the parsed figure or, failing that, a default: an entered non-zero figure is kept, a missing or zero one takes the default (5000, 12, 10, 30, 60, 40, 6.5), so neither return rate is zero; a zero duration becomes 20 years |
| NpsVsSip.SipReturns | static/js/nps_vs_sip_calculator_script.js:170-186 | The maturity is the balance of paying at the start of each month for the whole duration; invested and gains are the instalments and the difference |
| NpsVsSip.FormulaIsBalance | static/js/nps_vs_sip_calculator_script.js:175-176 | The page's closed formula equals the start-of-month balance |
| NpsVsSip.LtcgTax | static/js/nps_vs_sip_calculator_script.js:195-203 | Gains up to 1 lakh pay nothing and larger gains pay 10% of the excess, so the tax is between zero and a tenth of the gains |
| NpsVsSip.MonthlyPension | static/js/nps_vs_sip_calculator_script.js:206-210 | The monthly pension is the annuity corpus times the annual rate over 1200 |
| NpsVsSip.SyncAnnuityPercent | static/js/nps_vs_sip_calculator_script.js:69-72 | Editing the lump-sum share sets the annuity share so the two make 100 |
| NpsVsSip.SyncedPartsMakeCorpus | static/js/nps_vs_sip_calculator_script.js:69-72 | With synced shares the lump sum and the annuity corpus add up to the maturity value |
| NpsVsSip.AnnualTaxSaved | static/js/nps_vs_sip_calculator_script.js:115-117 | With the benefit on, the slab rate applies to the year's contributions capped at 50000; with it off nothing is saved |
| NpsVsSip.CalculateNpsSipComparison | static/js/nps_vs_sip_calculator_script.js:87-150 | Both schemes are projected by the same formula, the SIP is taxed, the NPS split into lump sum and annuity; the tax saved a year is the slab rate on contributions capped at 50000 (nothing without the benefit) and over the duration that times the years; the pension is the annuity corpus times the rate over 1200; the SIP wins exactly when its post-tax value beats the lump sum, by the non-negative gap |
| NpsVsSip.Decide | static/js/nps_vs_sip_calculator_script.js:141-150 | The SIP wins only when strictly ahead; the difference is the absolute gap |
| NpsVsSip.EqualRatesEqualCorpus | static/js/nps_vs_sip_calculator_script.js:104-109 | At equal rates the NPS grows exactly as the SIP, and the SIP's post-tax value does not exceed its maturity |
| NpsVsSip.YearlyTable | static/js/nps_vs_sip_calculator_script.js:284-324 | One row per year of the duration, each with that year's values; the last row shows the headline maturities |
| Retirement.GetInputs | static/js/retirement_calculator_script.js:144-151 | Each entry is read as the parsed figure or, failing that, a fallback (whole numbers for ages): an entered non-zero figure is kept, and a missing or zero one takes the page's fallback: ages 30, 60 and 80, income 50000, inflation 6, returns 8 and 6, savings 100000 |
| Retirement.Validate | static/js/retirement_calculator_script.js:154-167 | The inputs pass exactly when the ages are in order, income and both returns are positive, inflation and savings are not negative; an age failure is reported first |
| Retirement.CorpusLastsThroughRetirement | static/js/retirement_calculator_script.js:223-232 | Earning the post-retirement return, the corpus pays the year's income at the end of every retirement year and is then exactly used up (the annuity formula and its zero-rate fallback) |
| Retirement.AdditionalCorpus | static/js/retirement_calculator_script.js:238 | The additional corpus is not negative, together with the grown savings it covers the corpus, and it is zero exactly when the savings alone suffice |
| Retirement.MonthlySavingIsPayment | static/js/retirement_calculator_script.js:241-251 | The monthly saving is the level payment that accumulates the additional corpus at the monthly rate, and zero when nothing more is needed |
| Retirement.SavingMeetsCorpus | static/js/retirement_calculator_script.js:235-251 | Saved at every month end until retirement, the monthly saving builds exactly the additional corpus, so with the savings it meets the corpus; it is positive exactly when the savings fall short |
| Retirement.CalculateRetirement | static/js/retirement_calculator_script.js:212-271 | The result reports the corpus, saving, incomes, grown savings and additional corpus rounded to whole rupees, the two year counts as age differences, and echoes the inputs |
| Retirement.SaveScenario | static/js/retirement_calculator_script.js:467-495 | Saving appends the scenario as the last entry and keeps the newest ten of the old list plus the new one |
| Retirement.SaveAllKeepsNewestTen | static/js/retirement_calculator_script.js:484-495 | From a list of at most ten, any run of saves leaves exactly the ten newest scenarios in saving order |
| Retirement.SaveIsNewest | static/js/retirement_calculator_script.js:487-492 | One save on a list of at most ten keeps the newest ten |
| Retirement.AdjustAgesAsWritten | static/js/retirement_calculator_script.js:567-581 | The repair as written always moves retirement past the current age but leaves a life expectancy above the OLD retirement age untouched |
| Retirement.AgeRepairCanLeaveDisorder | static/js/retirement_calculator_script.js:572-580 | Ages 50, 40, 45 are repaired to retirement 60 and life expectancy 45, which the page's own age check at line 154 then refuses |
| Retirement.AdjustAges | static/js/retirement_calculator_script.js:567-581 | The corrected repair always leaves current < retirement < life expectancy, changing an age only when it was out of order |
| Retirement.AdjustAgesAgreesWhenRetirementValid | static/js/retirement_calculator_script.js:572-580 | When the retirement age needs no repair, the corrected and the written repair agree |
| ChildEducation.GetInputs | static/js/child_education_calculator_script.js:125-130 | Each entry is read as the parsed figure or, failing that, a fallback (whole numbers for ages): an entered non-zero figure is kept, and a missing or zero one takes the page's fallback: age 5, college age 18, cost 5 lakh, inflation 6%, return 12%, savings 0 |
| ChildEducation.Validate | static/js/child_education_calculator_script.js:133-151 | Accepted exactly when the college age exceeds the current age, the current age is 1–17, the college age 16–25 and the cost 1–50 lakh; the age-order message comes first |
| ChildEducation.NetAmount | static/js/child_education_calculator_script.js:199 | The shortfall is never negative, covers the future cost together with the savings, and is zero exactly when the savings already cover the cost |
| ChildEducation.SipBuildsNetAmount | static/js/child_education_calculator_script.js:202-211 | For a non-negative return the monthly SIP, paid at each month end, accumulates to exactly the shortfall; it is never negative and is zero exactly when the savings cover the cost |
| ChildEducation.CalculateEducation | static/js/child_education_calculator_script.js:191-229 | Years to college are positive; the future cost, shortfall, SIP and total investment are the rounded figures, the shortfall never negative |
| ChildEducation.PortfolioClosedForm | static/js/child_education_calculator_script.js:318-324 | The month-by-month projection equals the savings compounded plus an annuity due of the monthly SIP |
| ChildEducation.PortfolioAtLeastPaid | static/js/child_education_calculator_script.js:318-324 | With nothing negative the projection is never below the savings plus the SIPs paid |
| ChildEducation.RowGrowthNotNegative | static/js/child_education_calculator_script.js:315-337 | For a non-negative return and nothing negative invested, no yearly row shows a loss |
| ChildEducation.CumulativeStep | static/js/child_education_calculator_script.js:315 | Each year adds twelve monthly SIPs to the running investment |
| ChildEducation.GenerateYearlyData | static/js/child_education_calculator_script.js:302-342 | One row per year until college, the k-th row being the projection's year k+1 |
| DailyCompound.UnitNameRoundTrip | static/js/daily_compound_interest_calculator_script.js:133-183 | Each listed unit's selector value reads back as that unit |
| DailyCompound.LimitsFor | static/js/daily_compound_interest_calculator_script.js:133-193 | Every unit's range starts at 1 and its default lies inside the range |
| DailyCompound.TimeInYears | static/js/daily_compound_interest_calculator_script.js:223-242 | The period in years times the unit's count per year gives back the entry, and it is positive exactly when the entry is |
| DailyCompound.LongestPeriod | static/js/daily_compound_interest_calculator_script.js:133-193 | The slider's largest value is ten years in days, weeks, months and quarters and fifty years in years |
| DailyCompound.ResetPeriod | static/js/daily_compound_interest_calculator_script.js:208-212 | After a unit change the period lies in the unit's range, and an entry already in range is kept unchanged |
| DailyCompound.ResetIsIdempotent | static/js/daily_compound_interest_calculator_script.js:208-212 | Resetting the period a second time changes nothing |
| DailyCompound.ReadRequest | static/js/daily_compound_interest_calculator_script.js:216-242 | Each entry is read as the parsed figure or, failing that, a default: an entered non-zero figure is kept, a missing or zero principal reads 0, rate 10 and period 1 (so neither of these is zero); the unit and frequency are those named, and the years convert back to the entered period |
| DailyCompound.Validate | static/js/daily_compound_interest_calculator_script.js:245-268 | The request passes exactly when principal, rate and years are positive and within 1 crore, 50% and 50 years; the principal check comes first, then the rate |
| DailyCompound.SliderPeriodsAreValid | static/js/daily_compound_interest_calculator_script.js:133-193 | Any period the slider of a unit offers passes the period checks of lines 253-268 |
| DailyCompound.WholePeriodsGrow | static/js/daily_compound_interest_calculator_script.js:325 | With a non-negative rate and a whole number of compounding periods, the future value is at least the principal |
| DailyCompound.KeyRoundTrip | static/js/daily_compound_interest_calculator_script.js:313-322 | Every frequency's key is read back as that frequency |
| DailyCompound.FrequencyOf | static/js/daily_compound_interest_calculator_script.js:322 | A frequency other than daily is chosen only by its own key; anything unknown compounds daily |
| DailyCompound.CountsDescend | static/js/daily_compound_interest_calculator_script.js:313-320 | The frequency list runs from most to fewest periods a year |
| DailyCompound.RowsFor | static/js/daily_compound_interest_calculator_script.js:330-340 | One comparison row per frequency, in the list's order |
| DailyCompound.TiesKeepListOrder | static/js/daily_compound_interest_calculator_script.js:343 | Rows with equal rounded interest keep the list order after the sort |
| DailyCompound.MoreFrequentComesFirst | static/js/daily_compound_interest_calculator_script.js:343 | When each frequency earns at least as much as the next, sorting leaves the rows in list order |
| DailyCompound.DifferenceFollowsValue | static/js/daily_compound_interest_calculator_script.js:338 | The difference is non-negative for a frequency worth at least the selected one, non-positive for one worth at most, and zero for the selected one |
| DailyCompound.SelectedRowShown | static/js/daily_compound_interest_calculator_script.js:330-343 | The selected frequency's row stays in the sorted table with a zero difference |
| DailyCompound.Calculate | static/js/daily_compound_interest_calculator_script.js:308-362 | The summary shows the selected frequency's rounded value and interest, and the effective rate as the yearly growth less one, in percent, rounded to hundredths; the table is a permutation of the rows, sorted by interest largest first, and contains the selected row with the same figures |
| DailyCompound.YearlyRootSign | static/js/daily_compound_interest_calculator_script.js:327 | The yearly growth behind the effective rate is at least one exactly when the future value is at least the principal |
| DailyCompound.RootOfCompounding | static/js/daily_compound_interest_calculator_script.js:324-327 | Compounding n times a year for whole years has the yearly growth (1 + r/n)^n, the only non-negative root |
| DailyCompound.EffectiveRateIsYearlyGrowth | static/js/daily_compound_interest_calculator_script.js:324-358 | Over whole years at a non-negative rate, the effective rate shown is the selected compounding's one-year growth (1 + r/n)^n − 1 in percent, rounded to hundredths, and never negative |
| DailyCompound.TableInListOrder | static/js/daily_compound_interest_calculator_script.js:322-343 | For a request whose values fall with frequency, the table is the frequency list in order |
| DailyCompound.InterestNotNegative | static/js/daily_compound_interest_calculator_script.js:325-357 | With non-negative principal and rate and whole periods, the interest shown is not negative |
| StockAverage.SliderPrice | static/js/stock_average_calculator_script.js:21-24 | The slider value lies in [0.01, 5000]; an entry already in range is kept, a larger one becomes 5000, a missing one counts as 1 |
| StockAverage.Collect | static/js/stock_average_calculator_script.js:122-141 | Only rows with positive shares and a positive price are sent, at most one purchase per row |
| StockAverage.CollectAppend | static/js/stock_average_calculator_script.js:124-141 | Collecting goes row by row: two runs of rows give their purchases one after the other |
| StockAverage.CollectKeepsCounted | static/js/stock_average_calculator_script.js:132-140 | Every row with positive shares and price is among the purchases sent; any other row contributes nothing |
| StockAverage.CalculateAndUpdate | static/js/stock_average_calculator_script.js:117-161 | A request is sent exactly when some purchase counts and the market price is positive, and it carries exactly the collected purchases; otherwise the figures are reset to zero |
| StockAverage.LineOf | static/js/stock_average_calculator_script.js:457-460 | A purchase's investment is positive, and its profit is non-negative exactly when the market price is at least the price paid |
| StockAverage.LineReturnIsPriceChange | static/js/stock_average_calculator_script.js:457-460 | A line's return percentage is the price change in percent, whatever the number of shares |
| StockAverage.TotalProfitIsSumOfLines | static/js/stock_average_calculator_script.js:456-470 | The summary profit, total shares at the market price less the total investment, is the sum of the lines' profits |
| StockAverage.InvestmentBetween | static/js/stock_average_calculator_script.js:453-463 | With every price within [lo, hi] the total investment lies between lo and hi times the total shares |
| StockAverage.SharesPositive | static/js/stock_average_calculator_script.js:443-463 | With at least one purchase the total shares and the total investment are positive |
| StockAverage.Summarize | static/js/stock_average_calculator_script.js:453-471 | The summary's totals are the sums of the purchases' shares and investments, the current value is the shares at the market price, the profit is value less investment and equals the sum of the lines' profits, the average is investment over shares, and the return percentage is profit over investment times 100, NaN exactly when there are no purchases |
| StockAverage.AveragePrice | static/js/stock_average_calculator_script.js:468 | There is an average exactly when there is a purchase, and the average times the total shares is the total investment |
| StockAverage.AverageWithinPrices | static/js/stock_average_calculator_script.js:468 | The average price lies between the lowest and the highest price paid |
| StockAverage.AddRow | static/js/stock_average_calculator_script.js:47-74 | A new row is numbered one past the count and goes last; a well-numbered sheet stays well numbered |
| StockAverage.Renumber | static/js/stock_average_calculator_script.js:98-115 | The rows are numbered 1, 2, … in order with their entries unchanged |
| StockAverage.RemoveRow | static/js/stock_average_calculator_script.js:86-96 | The row is removed only when it exists and is not the only row; the rest are renumbered; the sheet never becomes empty |
| StockAverage.NumberIndex | static/js/stock_average_calculator_script.js:87 | The position found is the first row carrying the number; there is none exactly when no row carries it |
| StockAverage.RemoveFindsRow | static/js/stock_average_calculator_script.js:86-115 | In a well-numbered sheet, removing number k+1 takes out the k-th row |
| StockAverage.RenumberKeepsPurchases | static/js/stock_average_calculator_script.js:98-141 | Renumbering never changes the purchases sent |
| StockAverage.FormatCurrency | static/js/stock_average_calculator_script.js:706-728 | Zero and NaN show "₹0.00"; a negative amount is "-" before its magnitude's text |
| StockAverage.MagnitudeReadsBack | static/js/stock_average_calculator_script.js:713-726 | An abbreviated amount shows its count of crores, lakhs or thousands to within half a hundredth, with the spaced suffix; a small amount without its commas is its two-decimal text |
| StockAverage.FormatPercentage | static/js/stock_average_calculator_script.js:739-741 | The percentage's two-decimal text with a minus for a negative value, followed by "%" |
| NetWorth.ReadAssets | static/js/net_worth_calculator_script.js:56-84 | Each asset box reads as its number, an empty or unreadable box as 0 |
| NetWorth.ReadLiabilities | static/js/net_worth_calculator_script.js:63-84 | Each liability box reads as its number, an empty or unreadable box as 0 |
| NetWorth.CalculateNetWorth | static/js/net_worth_calculator_script.js:54-71 | The asset total is the sum of the five asset entries, the liability total the sum of the four liability entries, and the net worth their difference: positive exactly when assets exceed liabilities, negative exactly when they fall short |
| NetWorth.EntriesMoveNetWorth | static/js/net_worth_calculator_script.js:69-71 | Raising any of the five assets by d raises the net worth by d; raising any of the four liabilities by d lowers it by d |
| NetWorth.ValidateEntry | static/js/net_worth_calculator_script.js:33-51 | A negative entry is reset to zero, a zero or empty one is kept, any other is rounded to a whole number within half a rupee of it |
| NetWorth.Corrected | static/js/net_worth_calculator_script.js:33-51 | A corrected box never reads negative |
| NetWorth.CorrectionIsIdempotent | static/js/net_worth_calculator_script.js:33-51 | Correcting a corrected box changes nothing |
| NetWorth.CorrectedTotalsNotNegative | static/js/net_worth_calculator_script.js:33-69 | Once every box is corrected the asset total is not negative |
| NetWorth.SummaryAmount | static/js/net_worth_calculator_script.js:111-116 | A non-negative net worth is shown in the summary as on the card |
| NetWorth.MinusPlacement | static/js/net_worth_calculator_script.js:96-146 | An abbreviated negative net worth shows the same digits on the card ("₹-…") and in the summary ("-₹…"), the minus on different sides of the rupee sign |
| NetWorth.CardShape | static/js/net_worth_calculator_script.js:132-146 | From a thousand up, the card shows the signed count of crores, lakhs or thousands to one decimal followed by "Cr", "L" or "K" |
| NetWorth.SaveSnapshot | static/js/net_worth_calculator_script.js:340-346 | A save appends the snapshot and keeps the newest ten, the new one last |
| NetWorth.SaveAllKeepsNewestTen | static/js/net_worth_calculator_script.js:340-346 | After any run of saves the list is the ten newest of everything saved, in order |
| NetWorth.TakeSnapshot | static/js/net_worth_calculator_script.js:318-337 | The intended snapshot holds the asset and liability totals, the sums of the entries, and a net worth equal to their difference |
| NetWorth.StripMarks | static/js/net_worth_calculator_script.js:321-323 | No rupee sign, comma, K, L, C or r is left |
| NetWorth.StripOff | static/js/net_worth_calculator_script.js:321-323 | Stripping "₹", a number and a band tag leaves the number |
| NetWorth.StoredIsReadBack | static/js/net_worth_calculator_script.js:321-323 | As written, the stored figure is `parseFloat` of the card's one-decimal count |
| NetWorth.SnapshotStoresBandUnits | static/js/net_worth_calculator_script.js:321-323 | As written, an amount of a thousand or more is stored as its band count (within 0.05), which is smaller in size than the amount |
| Xirr.Entries | static/js/xirr_calculator_script.js:228-244 | At most one flow per row, and no flow has a zero amount |
| Xirr.Collect | static/js/xirr_calculator_script.js:224-249 | The flows sent are exactly the used rows' flows, as a multiset, in non-decreasing date order |
| Xirr.EntriesHaveUsedRows | static/js/xirr_calculator_script.js:232-242 | Every row with a date and a non-zero amount gives a flow |
| Xirr.EntriesComeFromRows | static/js/xirr_calculator_script.js:232-242 | Every flow comes from such a row |
| Xirr.CollectIsUsedRows | static/js/xirr_calculator_script.js:224-249 | A flow is sent exactly when some row with a date and a non-zero amount carries it |
| Xirr.CollectKeepsSameDayOrder | static/js/xirr_calculator_script.js:246 | The date sort is stable: flows on the same date keep the order of their rows |
| Xirr.CollectKeepsOrderedRows | static/js/xirr_calculator_script.js:246 | Rows already in date order are sent in page order |
| Xirr.ValidateCashFlows | static/js/xirr_calculator_script.js:251-266 | The flows pass exactly when there are at least two, one positive and one negative |
| Xirr.ValidateInputs | static/js/xirr_calculator_script.js:146-167 | The rows pass exactly when a used row is positive, a used row is negative, and the page has at least two rows |
| Xirr.InputsValidIffFlowsValid | static/js/xirr_calculator_script.js:146-266 | The row check and the flow check agree on every page |
| Xirr.RowsValidGiveFlowsValid | static/js/xirr_calculator_script.js:146-266 | Rows that pass give flows that pass |
| Xirr.FlowsValidGiveRowsValid | static/js/xirr_calculator_script.js:146-266 | Flows that pass come from rows that pass |
| Xirr.CalculateOutcome | static/js/xirr_calculator_script.js:170-187 | A request is sent exactly when the rows pass, and it carries the sorted flows, at least two of them |
| Xirr.AddRow | static/js/xirr_calculator_script.js:64-100 | A new row takes the next number and is appended; its button is shown exactly when that number exceeds two |
| Xirr.UpdateButtons | static/js/xirr_calculator_script.js:133-144 | Every button is shown exactly when more than two rows remain |
| Xirr.IndexOf | static/js/xirr_calculator_script.js:121 | The position found carries the number; none is found exactly when no row carries it |
| Xirr.RemoveRow | static/js/xirr_calculator_script.js:120-130 | A missing number changes nothing; otherwise the row goes and the buttons are updated |
| Xirr.Initial | static/js/xirr_calculator_script.js:50-58 | The page opens with three rows and the counter at three |
| Xirr.StepKeepsSound | static/js/xirr_calculator_script.js:64-144 | Adding a row or pressing a shown button keeps at least two rows, with shown buttons only while more than two rows exist |
| Xirr.RunKeepsTwoRows | static/js/xirr_calculator_script.js:50-144 | Whatever the user adds and removes from the opening page, at least two rows remain |
| Xirr.FormatCurrency | static/js/xirr_calculator_script.js:467-486 | A missing figure shows "₹0"; every text starts with the rupee sign |
| Xirr.FormatReadsBack | static/js/xirr_calculator_script.js:474-479 | From a thousand up, the text is "₹", the signed band count to two places (one for thousands), then "Cr", "L" or "K"; the count reads back within half a last-place unit |
| Xirr.FormatShowsSign | static/js/xirr_calculator_script.js:474-479 | From a thousand up, a minus follows the rupee sign exactly for a negative amount |
| Xirr.NetGainText | static/js/xirr_calculator_script.js:317-329 | The net gain text starts with a minus exactly when the net gain is negative |
| Xirr.NetGainIsSymmetric | static/js/xirr_calculator_script.js:317-329 | A loss shows as the same-sized gain's text after a minus |
| Xirr.RateText | static/js/xirr_calculator_script.js:332-345 | "N/A" exactly when no rate came back |
| Xirr.ZeroRateReadsNotAvailable | static/js/xirr_calculator_script.js:333-354 | As written, a rate of exactly 0 shows "0.00%" on the card but "N/A" in the message |
| Xirr.MessageRate | static/js/xirr_calculator_script.js:352-354 | The intended message rate is "N/A" exactly when no rate came back, and otherwise ends with "%" |
| Xirr.MessageAgreesOffZero | static/js/xirr_calculator_script.js:352-354 | Except at a zero rate, the message as written and as intended agree |
| Xirr.RunKeepsSound | static/js/xirr_calculator_script.js:64-144 | From any page with at least two rows and buttons shown only above two, every sequence of additions and removals keeps that so |
| InterestRate.RowsAscending | static/js/interest_rate_script.js:470-492 | The grouped rows come in strictly ascending year order |
| InterestRate.RowsComplete | static/js/interest_rate_script.js:470-492 | Every year in range that has entries gets a row |
| InterestRate.EntryInItsYear | static/js/interest_rate_script.js:470-478 | Each payment lands in the group of its own year |
| Emi.LabelNumberIsRounded | static/js/script.js:276-284 | The number in an axis label is the amount in its unit, rounded |

## Left out

- The server: the amortization engine, the rate and tenure solvers and the request handlers that the pages post to are not part of this model. Where a page shows a server's result (EMI schedules, the XIRR rate, PPF and the loan pages' main figures) only the page's own processing of it is modelled.
- Calculators whose every figure comes from the server, and the purely closed-form pages (SIP family, EPF, NPS, SWP, rule of 72, future value, inflation, CAGR, ETF and others): nothing is computed in the browser beyond a formula with a fractional power.
- Browser I/O: reading and writing the page, charts, PDF/Excel/CSV export, sharing, URL parameters, debouncing, and the "calculation in progress" guards. Saved histories are modelled by their list update alone (`Lists.Newest`, `Gst.SaveCalculation`); `localStorage` itself is left out.
- Floating point: figures are exact reals, so rounding error is not modelled. Where the page divides by a figure that can be zero, the model gives an explicit `None` in place of the `NaN` or `±Infinity` the language produces: the return percentage in `PpfVsSip.ReturnPercent`, the advantage percentage in `PpfVsSip.CompareResults`, the cost-drag percentage in `UlipVsSip.CalculateUlipSipComparison` (`NaN` or `±Infinity` when the better SIP value is zero), the return percentage in `StockAverage.Summarize` (no purchases), the amount `StockAverage.FormatCurrency` receives, and the as-written members of the FD-vs-SIP and ULIP-vs-SIP findings below. The effective rate of `DailyCompound.Calculate` divides by the principal inside `Math.pow`; that power is the parameter `root`, so a zero principal, which the page's validation refuses, is not modelled there.
- Fractional powers and logarithms: `Math.pow` with a non-integer exponent, `Math.log` and cube roots are inputs of the member that needs them (`growth`, `c`, `root`, `lockInGrowth`), constrained only as the member states.
- Locale formatting: `toLocaleString` and `Intl.NumberFormat` are left out, apart from the two-decimal en-IN form (`toLocaleString('en-IN', {minimumFractionDigits: 2, maximumFractionDigits: 2})`) that the stock-average page uses below ₹1,000, which `Currency.LocaleFixed2` models; the hand-written Indian grouping and the `toFixed` short forms are modelled.
- The clock: where a page needs "today" (vacation planning, net-worth snapshots) the current date is a parameter, and a snapshot's date text is left out; the maturity and lock-in dates the KVP page prints are left out.
- Kvp.LockInFigures: the lock-in growth `(1 + r)^2.5` is a parameter; only its agreement with the yearly table at whole years (`Kvp.LockInMatchesTable`) is stated.
- The KVP doubling period `log 2 / log(1 + r)` is left out: it is a ratio of logarithms that the page only prints.
- Nsc.MonthlyBreakdown: the monthly amount `(1 + r)^(m / 12)` is the parameter `growth`; it is tied to the yearly rows only at months 12 and 24 (`Nsc.YearEndMonthsMatchYearRows`).
- Gst.Split, Gst.CalculateGstAmounts, Gst.AddThenRemove, Gst.RemoveThenAdd: require a non-negative rate. The page reads the rate from its `gstRate` select, whose choices are GST rates, and the inclusive split divides by `100 + rate`.
- ReverseGst.CalculateReverseGst: requires a rate in 0 to 100, which the page's validation (`ReverseGst.Validate`) checks before it calls the calculation.
- InterestRate.UpdatePaymentSchedule and InterestRate.YearRowsShape: require month numbers from 1, as the server's schedule numbers them; a month 0 or below would fall in year 0 or earlier.
- Emi.SwitchTenureType: takes a whole number, while the page's field is read with `parseFloat`; fractional tenures in that field are not modelled.
- NpsVsSip.GetInputs: the duration is a whole number of years; the page reads it with `parseFloat(...) || 20`, and a fractional duration is not modelled.
- Ltcg.FormatLtcgCurrency: states the digits of the rounded amount with the commas removed, for whole rupees; the comma positions come from `toLocaleString('en-IN')`, which is left out.
- DailyCompound.Calculate: the summary sentence (`summary_text`, written with `toLocaleString`) and the echoed period value, unit and frequency name are left out of the result; the effective rate is tied to the compounding only over whole years (`DailyCompound.EffectiveRateIsYearlyGrowth`), because a fractional-year root has no closed form here.
- `Currency.ReadFixed` reads back only texts that `toFixed` produced; it is not a general `parseFloat`.
- Summary sentences, tooltips and percentage texts that only restate modelled figures are left out.

## Findings

| source | as written | input that shows it | evidently intended | confidence | as-written member | corrected member |
|---|---|---|---|---|---|---|
| static/js/tds_calculator_script.js:196-205 | The 194A slabs for the new regime are 0-50000, 50001-500000 and 500001 upward, and a payment is taxed at the slab whose min and max enclose it | 500000.50 lies in no slab and pays no TDS, while 500000 pays 50000 | Contiguous slabs, so every payment above the threshold has a rate | not executed | Tds.GapAmountPaysNothing | Tds.CorrectedTds194A |
| static/js/interest_rate_script.js:271-303 | In years mode the total months are `round(12 v)`, but the request sends `floor(v)` years and the total months mod 12 | 5.99 years stands for 72 months and is sent as 5 years and 0 months | Years and months that add up to the total months | not executed | InterestRate.YearsModeDropsAYear | InterestRate.CorrectedRequest |
| static/js/script.js:967-987 | The tenure tab switch guesses the unit from the size of the value (up to 30 is years) instead of from the tab being left | 2 years switched to months gives 24, and switched back gives 24 years | Convert from the unit being left | not executed | Emi.SwitchLosesShortTenures | Emi.SwitchTenureCorrected |
| static/js/fd_vs_sip_calculator_script.js:504-508 | The SIP balance divides by the monthly CAGR, which validation lets be 0 | A CAGR of 0 makes the balance 0/0 (NaN) | At a zero rate the balance is the instalments paid | not executed | FdVsSip.ZeroCagrGivesNaN | FdVsSip.CalculateYearlySip |
| static/js/ulip_vs_sip_calculator_script.js:191-192 | The SIP and ULIP values divide by the net monthly return, which is 0 when the charges equal the return | SIP return 1% with expense ratio 1% gives 0/0 (NaN), and the best option then falls to the SIP branch | At a zero net return the value is the instalments paid | not executed | UlipVsSip.ChargesEqualToReturnGiveNaN | UlipVsSip.CorrectedValueAgrees |
| static/js/retirement_calculator_script.js:567-581 | The age repair compares life expectancy with the retirement age read before the repair | Ages 50, 40 and 45 become 50, 60 and 45, which the page's own check refuses | Life expectancy compared with the repaired retirement age | not executed | Retirement.AgeRepairCanLeaveDisorder | Retirement.AdjustAges |
| static/js/net_worth_calculator_script.js:321-323 | A snapshot stores the figure shown on the card with the rupee sign, commas and K/L/Cr removed | Total assets of 150000 are shown as ₹1.5L and stored as 1.5 | The computed totals are stored | not executed | NetWorth.SnapshotStoresBandUnits | NetWorth.TakeSnapshot |
| static/js/xirr_calculator_script.js:352-354 | The success message tests the rate for truthiness, while the card tests it for presence | A rate of exactly 0 shows "0.00%" on the card and "N/A" in the message | The message shows "N/A" only when no rate came back | not executed | Xirr.ZeroRateReadsNotAvailable | Xirr.MessageRate |
