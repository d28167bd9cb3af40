/** Net worth: five asset and four liability entries, their totals and
    difference, the correction of an entry as it is typed, the page's
    currency format, and the snapshots it keeps of the ten newest saves. */
module NetWorth {
  import opened Num
  import opened Results
  import opened Currency
  import opened Lists

  datatype Assets = Assets(cashBank: real, investment: real, realEstate: real, vehicle: real, otherAssets: real)

  datatype Liabilities = Liabilities(homeLoan: real, personalLoan: real, creditCard: real, otherLiabilities: real)

  /** Each entry is read with `parseFloat(value) || 0`. */
  function ReadAssets(cashBank: Field, investment: Field, realEstate: Field, vehicle: Field, other: Field): (a: Assets)
    ensures cashBank.None? ==> a.cashBank == 0.0
    ensures investment.None? ==> a.investment == 0.0
    ensures realEstate.None? ==> a.realEstate == 0.0
    ensures vehicle.None? ==> a.vehicle == 0.0
    ensures other.None? ==> a.otherAssets == 0.0
    ensures cashBank.Some? ==> a.cashBank == cashBank.value
    ensures investment.Some? ==> a.investment == investment.value
    ensures realEstate.Some? ==> a.realEstate == realEstate.value
    ensures vehicle.Some? ==> a.vehicle == vehicle.value
    ensures other.Some? ==> a.otherAssets == other.value
  {
    Assets(OrDefault(cashBank, 0.0), OrDefault(investment, 0.0), OrDefault(realEstate, 0.0),
           OrDefault(vehicle, 0.0), OrDefault(other, 0.0))
  }

  function ReadLiabilities(homeLoan: Field, personalLoan: Field, creditCard: Field, other: Field): (l: Liabilities)
    ensures homeLoan.None? ==> l.homeLoan == 0.0
    ensures personalLoan.None? ==> l.personalLoan == 0.0
    ensures creditCard.None? ==> l.creditCard == 0.0
    ensures other.None? ==> l.otherLiabilities == 0.0
    ensures homeLoan.Some? ==> l.homeLoan == homeLoan.value
    ensures personalLoan.Some? ==> l.personalLoan == personalLoan.value
    ensures creditCard.Some? ==> l.creditCard == creditCard.value
    ensures other.Some? ==> l.otherLiabilities == other.value
  {
    Liabilities(OrDefault(homeLoan, 0.0), OrDefault(personalLoan, 0.0), OrDefault(creditCard, 0.0),
                OrDefault(other, 0.0))
  }

  function TotalAssets(a: Assets): real
  {
    a.cashBank + a.investment + a.realEstate + a.vehicle + a.otherAssets
  }

  function TotalLiabilities(l: Liabilities): real
  {
    l.homeLoan + l.personalLoan + l.creditCard + l.otherLiabilities
  }

  /** The totals and the net worth the page shows. */
  datatype Position = Position(totalAssets: real, totalLiabilities: real, netWorth: real)

  function CalculateNetWorth(a: Assets, l: Liabilities): (p: Position)
    ensures p.netWorth > 0.0 <==> TotalAssets(a) > TotalLiabilities(l)
    ensures p.netWorth < 0.0 <==> TotalAssets(a) < TotalLiabilities(l)
    ensures p.totalAssets - p.netWorth == p.totalLiabilities
    ensures p.totalAssets == a.cashBank + a.investment + a.realEstate + a.vehicle + a.otherAssets
    ensures p.totalLiabilities == l.homeLoan + l.personalLoan + l.creditCard + l.otherLiabilities
    ensures p.netWorth == p.totalAssets - p.totalLiabilities
  {
    var assets, liabilities := TotalAssets(a), TotalLiabilities(l);
    Position(assets, liabilities, assets - liabilities)
  }

  /** Raising any asset by `d` raises the net worth by `d`; raising any
      liability by `d` lowers it by `d`. */
  lemma EntriesMoveNetWorth(a: Assets, l: Liabilities, d: real)
    ensures CalculateNetWorth(a.(cashBank := a.cashBank + d), l).netWorth == CalculateNetWorth(a, l).netWorth + d
    ensures CalculateNetWorth(a.(investment := a.investment + d), l).netWorth == CalculateNetWorth(a, l).netWorth + d
    ensures CalculateNetWorth(a.(realEstate := a.realEstate + d), l).netWorth == CalculateNetWorth(a, l).netWorth + d
    ensures CalculateNetWorth(a.(vehicle := a.vehicle + d), l).netWorth == CalculateNetWorth(a, l).netWorth + d
    ensures CalculateNetWorth(a.(otherAssets := a.otherAssets + d), l).netWorth == CalculateNetWorth(a, l).netWorth + d
    ensures CalculateNetWorth(a, l.(homeLoan := l.homeLoan + d)).netWorth == CalculateNetWorth(a, l).netWorth - d
    ensures CalculateNetWorth(a, l.(personalLoan := l.personalLoan + d)).netWorth == CalculateNetWorth(a, l).netWorth - d
    ensures CalculateNetWorth(a, l.(creditCard := l.creditCard + d)).netWorth == CalculateNetWorth(a, l).netWorth - d
    ensures CalculateNetWorth(a, l.(otherLiabilities := l.otherLiabilities + d)).netWorth == CalculateNetWorth(a, l).netWorth - d
  {
  }

  // ---- Correcting an entry as it is typed -----------------------------------

  /** What `validateNetWorthInput` does to the box: a negative entry is
      replaced by 0 (and flagged), a positive one by its rounded value, and
      a zero entry is left alone. */
  datatype EntryFix = ResetToZero | RoundedTo(n: int) | Kept

  function ValidateEntry(entry: Field): (f: EntryFix)
    ensures f == ResetToZero <==> OrDefault(entry, 0.0) < 0.0
    ensures f == Kept <==> OrDefault(entry, 0.0) == 0.0
    ensures f.RoundedTo? ==> f.n >= 0 && Abs(f.n as real - entry.value) <= 0.5
  {
    var v := OrDefault(entry, 0.0);
    if v < 0.0 then ResetToZero
    else if v > 0.0 then RoundedTo(Round(v))
    else Kept
  }

  /** The box's entry after the correction. */
  function Corrected(entry: Field): (r: Field)
    ensures OrDefault(r, 0.0) >= 0.0
  {
    match ValidateEntry(entry)
    case ResetToZero => Some(0.0)
    case RoundedTo(n) => Some(n as real)
    case Kept => entry
  }

  /** Correcting an already corrected entry changes nothing. */
  lemma CorrectionIsIdempotent(entry: Field)
    ensures OrDefault(Corrected(Corrected(entry)), 0.0) == OrDefault(Corrected(entry), 0.0)
  {
    var f := ValidateEntry(entry);
    if f.RoundedTo? {
      RoundOfInteger(f.n);
    }
  }

  /** After every box is corrected no total is negative. */
  lemma CorrectedTotalsNotNegative(cashBank: Field, investment: Field, realEstate: Field, vehicle: Field, other: Field)
    ensures TotalAssets(ReadAssets(Corrected(cashBank), Corrected(investment), Corrected(realEstate),
                                   Corrected(vehicle), Corrected(other))) >= 0.0
  {
    var a := ReadAssets(Corrected(cashBank), Corrected(investment), Corrected(realEstate),
                        Corrected(vehicle), Corrected(other));
    assert a.cashBank >= 0.0 && a.investment >= 0.0 && a.realEstate >= 0.0;
    assert a.vehicle >= 0.0 && a.otherAssets >= 0.0;
  }

  // ---- The currency format ---------------------------------------------------

  /** `formatCurrency`: an abbreviated amount keeps its sign inside the
      number (`₹-1.5L`); below 1000 the page prints
      `amount.toLocaleString('en-IN')`, passed in as `small`. */
  function FormatCurrency(amount: real, small: string): (s: string)
  {
    if amount == 0.0 then "₹0"
    else
      var b := BandOf(Abs(amount));
      if b == Below then "₹" + small else "₹" + Fixed(BandCount(amount), 1) + Tag(b)
  }

  /** The summary line's amount: the magnitude's format after a minus sign. */
  function SummaryAmount(netWorth: real, small: string): (s: string)
    ensures netWorth >= 0.0 ==> s == FormatCurrency(netWorth, small)
  {
    if netWorth >= 0.0 then FormatCurrency(netWorth, small) else "-" + FormatCurrency(-netWorth, small)
  }

  /** For an abbreviated negative net worth the card and the summary show
      the same digits, the card with the minus after the rupee sign and the
      summary with it before. */
  lemma MinusPlacement(netWorth: real)
    requires netWorth <= -1000.0
    ensures var b := BandOf(-netWorth);
            var digits := FixedAbs(InBandUnits(-netWorth), 1) + Tag(b);
            FormatCurrency(netWorth, "") == "₹-" + digits && SummaryAmount(netWorth, "") == "-₹" + digits
  {
    CardNegative(netWorth);
    CardShape(-netWorth);
    assert BandOf(Abs(-netWorth)) == BandOf(-netWorth);
    assert Fixed(BandCount(-netWorth), 1) == FixedAbs(InBandUnits(-netWorth), 1);
    MinusFirst(FixedAbs(InBandUnits(-netWorth), 1), Tag(BandOf(-netWorth)));
  }

  lemma CardNegative(netWorth: real)
    requires netWorth <= -1000.0
    ensures FormatCurrency(netWorth, "") == "₹-" + (FixedAbs(InBandUnits(-netWorth), 1) + Tag(BandOf(-netWorth)))
  {
    var y := InBandUnits(-netWorth);
    assert Abs(netWorth) == -netWorth;
    CardShape(netWorth);
    FixedOfNegative(y, 1);
    MinusInside(FixedAbs(y, 1), Tag(BandOf(-netWorth)));
  }

  lemma MinusInside(m: string, t: string)
    ensures "₹" + ("-" + m) + t == "₹-" + (m + t)
  {
  }

  lemma MinusFirst(m: string, t: string)
    ensures "-" + ("₹" + m + t) == "-₹" + (m + t)
  {
  }

  /** An abbreviated amount is the band's signed unit count to one decimal
      followed by the band's tag. */
  lemma CardShape(amount: real)
    requires Abs(amount) >= 1000.0
    ensures FormatCurrency(amount, "") == "₹" + Fixed(BandCount(amount), 1) + Tag(BandOf(Abs(amount)))
  {
  }

  // ---- Snapshots -------------------------------------------------------------

  /** A saved snapshot (its date is left out). */
  datatype Snapshot = Snapshot(totalAssets: real, totalLiabilities: real, netWorth: real,
                               assets: Assets, liabilities: Liabilities)

  /** A save appends the snapshot and keeps the newest ten. */
  function SaveSnapshot(saved: seq<Snapshot>, s: Snapshot): (r: seq<Snapshot>)
    ensures r == Newest(saved + [s], 10)
    ensures |r| <= 10 && r[|r| - 1] == s
  {
    var pushed := saved + [s];
    if |pushed| > 10 then pushed[|pushed| - 10..] else pushed
  }

  function SaveAll(saved: seq<Snapshot>, snapshots: seq<Snapshot>): seq<Snapshot>
  {
    if |snapshots| == 0 then saved
    else SaveSnapshot(SaveAll(saved, snapshots[..|snapshots| - 1]), snapshots[|snapshots| - 1])
  }

  /** However many snapshots were stored before, a run of saves leaves the
      ten newest of everything, in the order they were saved. */
  lemma {:induction false} SaveAllKeepsNewestTen(saved: seq<Snapshot>, snapshots: seq<Snapshot>)
    requires |snapshots| > 0
    ensures SaveAll(saved, snapshots) == Newest(saved + snapshots, 10)
  {
    var front, x := snapshots[..|snapshots| - 1], snapshots[|snapshots| - 1];
    assert saved + snapshots == (saved + front) + [x];
    if |front| == 0 {
      assert saved + front == saved;
    } else {
      SaveAllKeepsNewestTen(saved, front);
      NewestAppend(saved + front, x, 10);
    }
  }

  /** The snapshot as it is meant: the computed totals and the entries. */
  function TakeSnapshot(a: Assets, l: Liabilities): (s: Snapshot)
    ensures s.netWorth == s.totalAssets - s.totalLiabilities
    ensures s.totalAssets == CalculateNetWorth(a, l).totalAssets
    ensures s.totalLiabilities == CalculateNetWorth(a, l).totalLiabilities
    ensures s.totalAssets == a.cashBank + a.investment + a.realEstate + a.vehicle + a.otherAssets
    ensures s.totalLiabilities == l.homeLoan + l.personalLoan + l.creditCard + l.otherLiabilities
  {
    var p := CalculateNetWorth(a, l);
    Snapshot(p.totalAssets, p.totalLiabilities, p.netWorth, a, l)
  }

  /** The characters the page deletes from a shown amount before reading it back. */
  predicate IsMark(c: char)
  {
    c == '₹' || c == ',' || c == 'K' || c == 'L' || c == 'C' || c == 'r'
  }

  /** `text.replace(/[₹,KLCr]/g, '')`. */
  function StripMarks(s: string): (r: string)
    ensures forall k :: 0 <= k < |r| ==> !IsMark(r[k])
  {
    if |s| == 0 then "" else (if IsMark(s[0]) then "" else [s[0]]) + StripMarks(s[1..])
  }

  lemma {:induction false} StripMarksAppend(a: string, b: string)
    ensures StripMarks(a + b) == StripMarks(a) + StripMarks(b)
  {
    if |a| == 0 {
      assert a + b == b;
    } else {
      assert (a + b)[0] == a[0];
      assert (a + b)[1..] == a[1..] + b;
      StripMarksAppend(a[1..], b);
    }
  }

  lemma {:induction false} StripMarksKeepsNumber(s: string)
    requires forall k :: 0 <= k < |s| ==> s[k] == '-' || s[k] == '.' || '0' <= s[k] <= '9'
    ensures StripMarks(s) == s
  {
    if |s| > 0 {
      StripMarksKeepsNumber(s[1..]);
      assert s == [s[0]] + s[1..];
    }
  }

  /** The figure `saveNetWorthSnapshot` stores for an abbreviated amount as
      written: the shown text with the marks removed, read as a number. */
  function StoredFigureAsWritten(amount: real): real
    requires Abs(amount) >= 1000.0
  {
    var t := StripMarks(FormatCurrency(amount, ""));
    if |t| >= 3 then ReadFixed(t, 1) else 0.0
  }

  /** So the stored figure is the count of the band's units, not the
      amount: it is within 0.05 of `amount / unit`, and smaller in size
      than the amount. */
  lemma SnapshotStoresBandUnits(amount: real)
    requires Abs(amount) >= 1000.0
    ensures Abs(StoredFigureAsWritten(amount) - BandCount(amount)) <= HalfUnit(1)
    ensures Abs(StoredFigureAsWritten(amount)) < Abs(amount)
  {
    StoredNearCount(amount);
    var v, q, h := StoredFigureAsWritten(amount), BandCount(amount), HalfUnit(1);
    assert Abs(q) == InBandUnits(Abs(amount));
    BandUnitsSmaller(Abs(amount));
    Smaller(v, q, Abs(amount), h);
  }

  lemma StoredNearCount(amount: real)
    requires Abs(amount) >= 1000.0
    ensures Abs(StoredFigureAsWritten(amount) - BandCount(amount)) <= HalfUnit(1)
  {
    StoredIsReadBack(amount);
    ReadFixedIsClose(BandCount(amount), 1);
  }

  lemma Smaller(v: real, q: real, a: real, h: real)
    requires Abs(v - q) <= h && Abs(q) + h < a
    ensures Abs(v) < a
  {
  }

  /** The stripped text is the one-decimal unit count. */
  lemma StoredIsReadBack(amount: real)
    requires Abs(amount) >= 1000.0
    ensures |Fixed(BandCount(amount), 1)| >= 3
    ensures StoredFigureAsWritten(amount) == ReadFixed(Fixed(BandCount(amount), 1), 1)
  {
    var f := Fixed(BandCount(amount), 1);
    CardShape(amount);
    StripOff(f, Tag(BandOf(Abs(amount))));
  }

  /** Removing the marks from the rupee sign, a number and a tag leaves the number. */
  lemma StripOff(f: string, tag: string)
    requires forall k :: 0 <= k < |f| ==> f[k] == '-' || f[k] == '.' || '0' <= f[k] <= '9'
    requires forall k :: 0 <= k < |tag| ==> IsMark(tag[k])
    ensures StripMarks("₹" + f + tag) == f
  {
    StripMarksAppend("₹" + f, tag);
    StripMarksAppend("₹", f);
    StripMarksKeepsNumber(f);
    AllMarks(tag);
    assert StripMarks("₹") == "" + StripMarks("");
  }

  lemma {:induction false} AllMarks(s: string)
    requires forall k :: 0 <= k < |s| ==> IsMark(s[k])
    ensures StripMarks(s) == ""
  {
    if |s| > 0 {
      AllMarks(s[1..]);
    }
  }

  lemma BandUnitsSmaller(a: real)
    requires a >= 1000.0
    ensures InBandUnits(a) + HalfUnit(1) < a
  {
    assert HalfUnit(1) == 0.05;
  }
}
