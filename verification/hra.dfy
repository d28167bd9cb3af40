/** HRA calculator: the exempt part of the house-rent allowance is the
    least of the allowance received, a share of basic pay that depends on
    the city, and the rent paid above a tenth of basic plus DA. */
module Hra {
  import opened Num
  import opened Results

  datatype HraInputs = HraInputs(basic: real, da: real, hraReceived: real, rentPaid: real, cityType: string)

  datatype HraResult = HraResult(
    totalSalary: real, actualHra: real, salaryPercentage: real,
    tenPercentTotalSalary: real, rentMinusTenPercent: real,
    hraExempt: real, taxableHra: real, taxSavings: real)

  /** The page's checks, in order: basic must be positive, DA, HRA and rent
      must not be negative. */
  function Validate(i: HraInputs): (r: Result<HraInputs>)
    ensures r.Ok? <==> i.basic > 0.0 && i.da >= 0.0 && i.hraReceived >= 0.0 && i.rentPaid >= 0.0
    ensures r.Ok? ==> r.value == i
    ensures i.basic <= 0.0 ==> r == Err("Basic salary must be greater than 0")
  {
    if i.basic <= 0.0 then Err("Basic salary must be greater than 0")
    else if i.da < 0.0 then Err("Dearness Allowance cannot be negative")
    else if i.hraReceived < 0.0 then Err("HRA received cannot be negative")
    else if i.rentPaid < 0.0 then Err("Rent paid cannot be negative")
    else Ok(i)
  }

  /** The city limit: half of basic in a metro, 40% elsewhere (DA is not
      included here, unlike in the rent test). */
  function SalaryPercentage(basic: real, cityType: string): (r: real)
    ensures cityType == "metro" ==> r * 2.0 == basic
    ensures cityType != "metro" ==> r * 5.0 == basic * 2.0
  {
    if cityType == "metro" then basic * 0.50 else basic * 0.40
  }

  function CalculateHra(i: HraInputs): (r: HraResult)
    ensures r.totalSalary == i.basic + i.da
    ensures r.actualHra == i.hraReceived
    // the city limit: half of basic in a metro, 40% of basic elsewhere
    ensures r.salaryPercentage == SalaryPercentage(i.basic, i.cityType)
    ensures i.cityType == "metro" ==> r.salaryPercentage * 2.0 == i.basic
    ensures i.cityType != "metro" ==> r.salaryPercentage * 5.0 == i.basic * 2.0
    ensures r.tenPercentTotalSalary * 10.0 == r.totalSalary
    ensures r.rentMinusTenPercent >= 0.0
    ensures r.rentMinusTenPercent >= i.rentPaid - r.totalSalary / 10.0
    ensures r.rentMinusTenPercent == 0.0 || r.rentMinusTenPercent == i.rentPaid - r.totalSalary / 10.0
    // the exemption is the least of the three limits
    ensures r.hraExempt <= i.hraReceived && r.hraExempt <= r.salaryPercentage
            && r.hraExempt <= r.rentMinusTenPercent
    ensures r.hraExempt == i.hraReceived || r.hraExempt == r.salaryPercentage
            || r.hraExempt == r.rentMinusTenPercent
    ensures r.taxableHra == Max(0.0, i.hraReceived - r.hraExempt)
    ensures r.taxSavings * 10.0 == r.hraExempt * 3.0
  {
    var total := i.basic + i.da;
    var salaryPct := SalaryPercentage(i.basic, i.cityType);
    var tenPct := total * 0.10;
    var rentMinus := Max(0.0, i.rentPaid - tenPct);
    var exempt := Min3(i.hraReceived, salaryPct, rentMinus);
    HraResult(total, i.hraReceived, salaryPct, tenPct, rentMinus, exempt,
              Max(0.0, i.hraReceived - exempt), exempt * 0.30)
  }

  /** For inputs the page accepts, the allowance splits exactly into an
      exempt and a taxable part, each between 0 and the allowance. */
  lemma ExemptPlusTaxable(i: HraInputs)
    requires Validate(i).Ok?
    ensures var r := CalculateHra(i);
            && 0.0 <= r.hraExempt <= i.hraReceived
            && 0.0 <= r.taxableHra <= i.hraReceived
            && r.hraExempt + r.taxableHra == i.hraReceived
  {
  }

  /** Paying more rent never lowers the exemption, and never raises it by
      more than the extra rent. */
  lemma ExemptMonotoneInRent(i: HraInputs, extra: real)
    requires extra >= 0.0
    ensures var a := CalculateHra(i).hraExempt;
            var b := CalculateHra(i.(rentPaid := i.rentPaid + extra)).hraExempt;
            a <= b <= a + extra
  {
  }

  /** A metro city never gives a smaller exemption than a non-metro one. */
  lemma MetroAtLeastNonMetro(i: HraInputs, other: string)
    requires i.basic >= 0.0 && other != "metro"
    ensures CalculateHra(i.(cityType := other)).hraExempt <= CalculateHra(i.(cityType := "metro")).hraExempt
  {
  }
}
