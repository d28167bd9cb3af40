/** Reverse GST calculator: recovering the base price from a GST-inclusive
    amount, splitting the tax into CGST/SGST or IGST, and choosing the
    amount slider's range. */
module ReverseGst {
  import opened Num
  import opened Results
  import IndianDigits
  import Gst

  datatype ReverseGstResult = ReverseGstResult(
    inclusiveAmount: real, basePrice: real, gstAmount: real, gstRate: real,
    transactionType: string, cgst: real, sgst: real, igst: real)

  /** Amount must be positive and the rate a percentage. */
  function Validate(inclusiveAmount: real, gstRate: real): (r: Result<(real, real)>)
    ensures r.Ok? <==> inclusiveAmount > 0.0 && 0.0 <= gstRate <= 100.0
    ensures r.Ok? ==> r.value == (inclusiveAmount, gstRate)
  {
    if inclusiveAmount <= 0.0 then Err("Amount must be greater than 0")
    else if gstRate < 0.0 || gstRate > 100.0 then Err("GST rate must be between 0 and 100")
    else Ok((inclusiveAmount, gstRate))
  }

  function CalculateReverseGst(inclusiveAmount: real, gstRate: real, transactionType: string): (r: ReverseGstResult)
    requires 0.0 <= gstRate <= 100.0
    ensures r.basePrice + r.gstAmount == inclusiveAmount
    ensures r.gstAmount * (100.0 + gstRate) == inclusiveAmount * gstRate
    ensures r.cgst + r.sgst + r.igst == r.gstAmount
    ensures transactionType == "intra-state" ==> r.cgst == r.sgst && r.igst == 0.0
    ensures transactionType != "intra-state" ==> r.cgst == 0.0 && r.sgst == 0.0 && r.igst == r.gstAmount
    ensures inclusiveAmount > 0.0 ==> 0.0 < r.basePrice <= inclusiveAmount
  {
    var basePrice := inclusiveAmount / (1.0 + gstRate / 100.0);
    var gst := inclusiveAmount - basePrice;
    assert basePrice * (100.0 + gstRate) == inclusiveAmount * 100.0;
    var intra := transactionType == "intra-state";
    ReverseGstResult(inclusiveAmount, basePrice, gst, gstRate, transactionType,
                     if intra then gst / 2.0 else 0.0,
                     if intra then gst / 2.0 else 0.0,
                     if intra then 0.0 else gst)
  }

  /** The reverse calculator and the GST calculator's remove mode agree. */
  lemma AgreesWithRemoveMode(inclusiveAmount: real, gstRate: real, transactionType: string)
    requires 0.0 <= gstRate <= 100.0
    ensures var r := CalculateReverseGst(inclusiveAmount, gstRate, transactionType);
            var s := Gst.Split(inclusiveAmount, gstRate, Gst.Remove);
            r.basePrice == s.base && r.gstAmount == s.gst
  {
    var r := CalculateReverseGst(inclusiveAmount, gstRate, transactionType);
    var s := Gst.Split(inclusiveAmount, gstRate, Gst.Remove);
    assert r.gstAmount * (100.0 + gstRate) == s.gst * (100.0 + gstRate);
    CancelPositive(r.gstAmount, s.gst, 100.0 + gstRate);
  }

  lemma CancelPositive(a: real, b: real, c: real)
    requires c > 0.0 && a * c == b * c
    ensures a == b
  {
    assert a == a * c / c;
  }

  datatype SliderRange = SliderRange(min: real, max: real, step: real, maxLabel: string)

  /** Whole crores or lakhs, rounded up, as the slider's end label. */
  function CroreLabel(x: real): string
    requires x >= 0.0
  {
    "₹" + IndianDigits.Digits(Ceil(x / 10000000.0)) + "Cr"
  }

  function LakhLabel(x: real): string
    requires x >= 0.0
  {
    "₹" + IndianDigits.Digits(Ceil(x / 100000.0)) + "L"
  }

  /** The slider's range widens in four bands as the typed amount grows.
      In the two upper bands the maximum is at least a crore, so the label
      is always in crores (the lakh alternative there cannot be chosen). */
  function UpdateSliderRange(inputValue: real): (r: SliderRange)
    ensures inputValue <= 100000.0 ==> r == SliderRange(100.0, 100000.0, 100.0, "₹1L")
    ensures 100000.0 < inputValue <= 1000000.0 ==>
              r.min == 10000.0 && r.step == 10000.0 && r.max == Max(1000000.0, inputValue * 2.0)
              && r.maxLabel == LakhLabel(r.max)
    ensures 1000000.0 < inputValue <= 10000000.0 ==>
              r.min == 100000.0 && r.step == 50000.0 && r.max == Max(10000000.0, inputValue * 1.5)
              && r.maxLabel == CroreLabel(r.max)
    ensures inputValue > 10000000.0 ==>
              r.min == 1000000.0 && r.step == 100000.0 && r.max == Max(20000000.0, inputValue * 1.2)
              && r.maxLabel == CroreLabel(r.max)
  {
    if inputValue > 10000000.0 then
      var m := Max(20000000.0, inputValue * 1.2);
      SliderRange(1000000.0, m, 100000.0, CroreLabel(m))
    else if inputValue > 1000000.0 then
      var m := Max(10000000.0, inputValue * 1.5);
      SliderRange(100000.0, m, 50000.0, CroreLabel(m))
    else if inputValue > 100000.0 then
      var m := Max(1000000.0, inputValue * 2.0);
      SliderRange(10000.0, m, 10000.0, LakhLabel(m))
    else SliderRange(100.0, 100000.0, 100.0, "₹1L")
  }

  /** The chosen range always reaches the typed amount, the maximum lies
      above the minimum, and a larger amount never gets a smaller maximum. */
  lemma SliderCoversInput(x: real)
    ensures var r := UpdateSliderRange(x);
            x <= r.max && r.min < r.max && r.step > 0.0
            && (x >= 100.0 ==> r.min <= x)
  {
  }

  lemma SliderMaxMonotone(x: real, y: real)
    requires x <= y
    ensures UpdateSliderRange(x).max <= UpdateSliderRange(y).max
  {
  }
}
