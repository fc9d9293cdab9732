/** The decision rules inside the HTTP handlers
    (src/risk_optima_engine/backend.py): turning request dictionaries into
    trades, the equity curve of the performance report, the Kelly warnings,
    the TWR reported beside Optimal F, and the risk-fraction sweep of the
    challenge optimiser. */
module Backend {
  import opened Types
  import opened Series
  import Kelly
  import OptimalF
  import Simulation

  // ---------------------------------------------------------------------
  // Request dictionaries to trades (parse_trades_from_data)
  // ---------------------------------------------------------------------

  /** A JSON value of a request dictionary, as far as the Trade constructor
      tells them apart: a string, a number, or null. */
  datatype Field = Text(text: string) | Number(number: real) | Null

  type TradeData = map<string, Field>

  const SymbolKey := "symbol"
  const TradeTypeKey := "trade_type"
  const VolumeKey := "volume"
  const OpenPriceKey := "open_price"
  const ClosePriceKey := "close_price"
  const ProfitKey := "profit"
  const CommissionKey := "commission"
  const SwapKey := "swap"

  /** The keys the handler reads; every other key is ignored. */
  const TradeKeys: set<string> :=
    {SymbolKey, TradeTypeKey, VolumeKey, OpenPriceKey, ClosePriceKey, ProfitKey, CommissionKey, SwapKey}

  /** A string argument: a missing key gives the default "", a value that
      is not a string is rejected by the constructor. */
  function TextArg(d: TradeData, key: string): Result<string> {
    if key !in d then Success("")
    else match d[key]
      case Text(s) => Success(s)
      case _ => Failure(WrongFieldType(key))
  }

  /** A float argument: a missing key gives the default 0.0, a null or a
      string is rejected. */
  function NumberArg(d: TradeData, key: string): Result<real> {
    if key !in d then Success(0.0)
    else match d[key]
      case Number(x) => Success(x)
      case _ => Failure(WrongFieldType(key))
  }

  /** An optional float argument: missing or null gives None, a string is
      rejected. */
  function OptionalArg(d: TradeData, key: string): Result<Option<real>> {
    if key !in d then Success(None)
    else match d[key]
      case Number(x) => Success(Some(x))
      case Null => Success(None)
      case Text(_) => Failure(WrongFieldType(key))
  }

  /** Every key the handler reads holds a value of the type its argument
      accepts, or is absent. */
  predicate WellTyped(d: TradeData) {
    && (SymbolKey !in d || d[SymbolKey].Text?)
    && (TradeTypeKey !in d || d[TradeTypeKey].Text?)
    && (VolumeKey !in d || d[VolumeKey].Number?)
    && (OpenPriceKey !in d || d[OpenPriceKey].Number?)
    && (ClosePriceKey !in d || d[ClosePriceKey].Number?)
    && (ProfitKey !in d || d[ProfitKey].Number?)
    && (CommissionKey !in d || !d[CommissionKey].Text?)
    && (SwapKey !in d || !d[SwapKey].Text?)
  }

  /** The keys in the order of the constructor's parameters. */
  const ParameterOrder: seq<string> :=
    [SymbolKey, TradeTypeKey, VolumeKey, OpenPriceKey, ClosePriceKey, ProfitKey, CommissionKey, SwapKey]

  /** The key is present and holds a value its argument does not accept:
      a non-string for the two string arguments, a string for the two
      optional floats, a non-number for the other floats. */
  predicate Offending(d: TradeData, key: string) {
    && key in d
    && if key == SymbolKey || key == TradeTypeKey then !d[key].Text?
       else if key == CommissionKey || key == SwapKey then d[key].Text?
       else !d[key].Number?
  }

  /** Whether the argument at position i of the constructor fails to
      convert. */
  predicate ArgFails(d: TradeData, i: nat)
    requires i < |ParameterOrder|
  {
    if i < 2 then TextArg(d, ParameterOrder[i]).Failure?
    else if i < 6 then NumberArg(d, ParameterOrder[i]).Failure?
    else OptionalArg(d, ParameterOrder[i]).Failure?
  }

  /** An argument fails to convert exactly when its key is offending. */
  lemma FirstOffending(d: TradeData, i: nat)
    requires i < |ParameterOrder|
    requires ArgFails(d, i) && forall j :: 0 <= j < i ==> !ArgFails(d, j)
    ensures Offending(d, ParameterOrder[i]) && forall j :: 0 <= j < i ==> !Offending(d, ParameterOrder[j])
  {
    forall j | 0 <= j <= i
      ensures ArgFails(d, j) <==> Offending(d, ParameterOrder[j])
    {
    }
  }

  /** The trade one dictionary describes; the arguments are converted in
      the constructor's parameter order and the first one of the wrong type
      is reported. */
  function TradeOf(d: TradeData): (r: Result<Trade>)
    ensures r.Success? <==> WellTyped(d)
    ensures r.Failure? ==>
      exists i :: 0 <= i < |ParameterOrder| && Offending(d, ParameterOrder[i])
                  && r.error == WrongFieldType(ParameterOrder[i])
                  && forall j :: 0 <= j < i ==> !Offending(d, ParameterOrder[j])
    ensures r.Success? ==> forall key :: key in ParameterOrder ==> !Offending(d, key)
  {
    var symbol := TextArg(d, SymbolKey);
    var tradeType := TextArg(d, TradeTypeKey);
    var volume := NumberArg(d, VolumeKey);
    var openPrice := NumberArg(d, OpenPriceKey);
    var closePrice := NumberArg(d, ClosePriceKey);
    var profit := NumberArg(d, ProfitKey);
    var commission := OptionalArg(d, CommissionKey);
    var swap := OptionalArg(d, SwapKey);
    if symbol.Failure? then FirstOffending(d, 0); Failure(symbol.error)
    else if tradeType.Failure? then FirstOffending(d, 1); Failure(tradeType.error)
    else if volume.Failure? then FirstOffending(d, 2); Failure(volume.error)
    else if openPrice.Failure? then FirstOffending(d, 3); Failure(openPrice.error)
    else if closePrice.Failure? then FirstOffending(d, 4); Failure(closePrice.error)
    else if profit.Failure? then FirstOffending(d, 5); Failure(profit.error)
    else if commission.Failure? then FirstOffending(d, 6); Failure(commission.error)
    else if swap.Failure? then FirstOffending(d, 7); Failure(swap.error)
    else Success(Trade(symbol.value, tradeType.value, volume.value, openPrice.value, closePrice.value,
                       profit.value, commission.value, swap.value))
  }

  /** The dictionary a client sends for a trade: every field present, an
      absent commission or swap sent as null. */
  function TradeRecord(t: Trade): (d: TradeData)
    ensures d.Keys == TradeKeys
  {
    map[SymbolKey := Text(t.symbol), TradeTypeKey := Text(t.tradeType), VolumeKey := Number(t.volume),
        OpenPriceKey := Number(t.openPrice), ClosePriceKey := Number(t.closePrice), ProfitKey := Number(t.profit),
        CommissionKey := OptionalField(t.commission), SwapKey := OptionalField(t.swap)]
  }

  function OptionalField(o: Option<real>): Field {
    match o
    case Some(x) => Number(x)
    case None => Null
  }

  /** Sending a trade as a dictionary and reading it back gives the same
      trade. */
  lemma TradeRecordRoundTrip(t: Trade)
    ensures TradeOf(TradeRecord(t)) == Success(t)
  {
  }

  /** An empty dictionary is the all-defaults trade. */
  lemma MissingKeysDefault()
    ensures TradeOf(map[]) == Success(Trade("", "", 0.0, 0.0, 0.0, 0.0, None, None))
  {
  }

  /** In every converted dictionary each field is its key's value, or the
      default when the key is absent: "" for the strings, 0.0 for the
      numbers, None for commission and swap (also when they are null). */
  lemma FieldsOrDefaults(d: TradeData)
    requires TradeOf(d).Success?
    ensures var t := TradeOf(d).value;
      && t.symbol == (if SymbolKey in d then d[SymbolKey].text else "")
      && t.tradeType == (if TradeTypeKey in d then d[TradeTypeKey].text else "")
      && t.volume == (if VolumeKey in d then d[VolumeKey].number else 0.0)
      && t.openPrice == (if OpenPriceKey in d then d[OpenPriceKey].number else 0.0)
      && t.closePrice == (if ClosePriceKey in d then d[ClosePriceKey].number else 0.0)
      && t.profit == (if ProfitKey in d then d[ProfitKey].number else 0.0)
      && t.commission == (if CommissionKey in d && d[CommissionKey].Number? then Some(d[CommissionKey].number) else None)
      && t.swap == (if SwapKey in d && d[SwapKey].Number? then Some(d[SwapKey].number) else None)
  {
  }

  /** Keys the handler does not read change nothing. */
  lemma ExtraKeysIgnored(d: TradeData, extra: TradeData)
    requires forall key :: key in extra ==> key !in TradeKeys
    ensures TradeOf(d + extra) == TradeOf(d)
  {
    var e := d + extra;
    assert TextArg(e, SymbolKey) == TextArg(d, SymbolKey);
    assert TextArg(e, TradeTypeKey) == TextArg(d, TradeTypeKey);
    assert NumberArg(e, VolumeKey) == NumberArg(d, VolumeKey);
    assert NumberArg(e, OpenPriceKey) == NumberArg(d, OpenPriceKey);
    assert NumberArg(e, ClosePriceKey) == NumberArg(d, ClosePriceKey);
    assert NumberArg(e, ProfitKey) == NumberArg(d, ProfitKey);
    assert OptionalArg(e, CommissionKey) == OptionalArg(d, CommissionKey);
    assert OptionalArg(e, SwapKey) == OptionalArg(d, SwapKey);
  }

  /** All dictionaries converted in order, or the first conversion error. */
  function TradesOf(ds: seq<TradeData>): (r: Result<seq<Trade>>)
    ensures r.Success? ==> |r.value| == |ds|
    decreases |ds|
  {
    if |ds| == 0 then Success([])
    else match TradesOf(ds[..|ds| - 1])
      case Failure(e) => Failure(e)
      case Success(ts) =>
        match TradeOf(ds[|ds| - 1])
        case Failure(e) => Failure(e)
        case Success(t) => Success(ts + [t])
  }

  /** The conversion succeeds exactly when every dictionary is well typed;
      then it keeps length and order, and otherwise it reports the error of
      the first dictionary that is not. */
  lemma {:induction false} TradesOfSpec(ds: seq<TradeData>)
    ensures TradesOf(ds).Success? <==> forall i :: 0 <= i < |ds| ==> WellTyped(ds[i])
    ensures TradesOf(ds).Success? ==>
      |TradesOf(ds).value| == |ds| && forall i :: 0 <= i < |ds| ==> Success(TradesOf(ds).value[i]) == TradeOf(ds[i])
    ensures TradesOf(ds).Failure? ==>
      exists i :: 0 <= i < |ds| && !WellTyped(ds[i]) && (forall j :: 0 <= j < i ==> WellTyped(ds[j]))
                  && TradesOf(ds).error == TradeOf(ds[i]).error
    decreases |ds|
  {
    if |ds| > 0 {
      var init := ds[..|ds| - 1];
      TradesOfSpec(init);
      assert forall i :: 0 <= i < |init| ==> init[i] == ds[i];
      if TradesOf(init).Failure? {
        var i :| 0 <= i < |init| && !WellTyped(init[i]) && (forall j :: 0 <= j < i ==> WellTyped(init[j]))
                 && TradesOf(init).error == TradeOf(init[i]).error;
        assert !WellTyped(ds[i]);
      } else if TradeOf(ds[|ds| - 1]).Failure? {
        assert !WellTyped(ds[|ds| - 1]);
      }
    }
  }

  /** The handler: refuses when the compiled extension is missing,
      otherwise converts every dictionary in order. */
  method ParseTradesFromData(available: bool, ds: seq<TradeData>) returns (r: Result<seq<Trade>>)
    ensures !available ==> r == Failure(ExtensionUnavailable)
    ensures available ==> r == TradesOf(ds)
  {
    if !available {
      return Failure(ExtensionUnavailable);
    }
    var trades: seq<Trade> := [];
    for i := 0 to |ds|
      invariant TradesOf(ds[..i]) == Success(trades)
    {
      assert ds[..i + 1][..i] == ds[..i];
      var t := TradeOf(ds[i]);
      if t.Failure? {
        r := Failure(t.error);
        assert TradesOf(ds[..i + 1]) == r;
        PrefixFailureSticks(ds, i + 1);
        return;
      }
      trades := trades + [t.value];
    }
    assert ds[..|ds|] == ds;
    r := Success(trades);
  }

  /** Once a prefix fails, the whole conversion fails with the same error. */
  lemma {:induction false} PrefixFailureSticks(ds: seq<TradeData>, k: nat)
    requires k <= |ds| && TradesOf(ds[..k]).Failure?
    ensures TradesOf(ds) == TradesOf(ds[..k])
    decreases |ds| - k
  {
    if k == |ds| {
      assert ds[..k] == ds;
    } else {
      assert ds[..k + 1][..k] == ds[..k];
      PrefixFailureSticks(ds, k + 1);
    }
  }

  // ---------------------------------------------------------------------
  // The equity curve of the performance report (analyze_performance)
  // ---------------------------------------------------------------------

  /** The cumulative profit after each trade. */
  function Curve(ps: seq<real>): (c: seq<real>)
    ensures |c| == |ps|
  {
    seq(|ps|, i requires 0 <= i < |ps| => PrefixSum(ps, i + 1))
  }

  /** The accumulator loop: add each profit to the running equity, which
      starts at 0, and append it. */
  method EquityCurve(trades: seq<Trade>) returns (curve: seq<real>)
    ensures curve == Curve(Profits(trades))
  {
    var ps := Profits(trades);
    curve := [];
    var equity := 0.0;
    for i := 0 to |trades|
      invariant |curve| == i
      invariant forall k :: 0 <= k < i ==> curve[k] == PrefixSum(ps, k + 1)
      invariant equity == PrefixSum(ps, i)
    {
      PrefixSumStep(ps, i);
      equity := equity + trades[i].profit;
      curve := curve + [equity];
    }
  }

  /** The curve starts with the first profit, each later point adds the
      next profit, and the last point is the net profit of the ledger. */
  lemma CurveSteps(ps: seq<real>)
    ensures |ps| > 0 ==> Curve(ps)[0] == ps[0]
    ensures forall i :: 0 < i < |ps| ==> Curve(ps)[i] == Curve(ps)[i - 1] + ps[i]
    ensures |ps| > 0 ==> Curve(ps)[|ps| - 1] == Sum(ps)
  {
    CurveEnds(ps);
    forall i | 0 < i < |ps|
      ensures Curve(ps)[i] == Curve(ps)[i - 1] + ps[i]
    {
      PrefixSumStep(ps, i);
    }
  }

  /** The first and the last point of the curve. */
  lemma CurveEnds(ps: seq<real>)
    ensures |ps| > 0 ==> Curve(ps)[0] == ps[0] && Curve(ps)[|ps| - 1] == Sum(ps)
  {
    if |ps| > 0 {
      PrefixSumStep(ps, 0);
      assert ps[..0] == [];
      assert ps[..|ps|] == ps;
    }
  }

  // ---------------------------------------------------------------------
  // The Kelly handler (calculate_kelly)
  // ---------------------------------------------------------------------

  const HighRiskWarning := "High risk fraction detected (>10%). Consider using fractional Kelly."
  const NegativeWarning := "Negative Kelly fraction indicates unfavorable risk/reward."

  /** The warnings attached to a Kelly fraction. */
  method KellyWarnings(fraction: real) returns (warnings: seq<string>)
    ensures HighRiskWarning in warnings <==> fraction > 0.1
    ensures NegativeWarning in warnings <==> fraction < 0.0
    ensures |warnings| <= 1
    ensures |warnings| == 0 <==> 0.0 <= fraction <= 0.1
  {
    warnings := [];
    if fraction > 0.1 {
      warnings := warnings + [HighRiskWarning];
    }
    if fraction < 0.0 {
      warnings := warnings + [NegativeWarning];
    }
  }

  datatype KellyResponse = KellyResponse(optimalFraction: real, warnings: seq<string>)

  const WinProbabilityKey := "win_probability"
  const WinLossRatioKey := "win_loss_ratio"

  /** A number read from the performance dictionary, 0.0 when absent. */
  function GetOrZero(d: map<string, real>, key: string): real {
    if key in d then d[key] else 0.0
  }

  /** The Kelly fraction the handler returns for a performance dictionary. */
  function KellyFractionOf(performance: map<string, real>, multiplier: real): Result<real> {
    Kelly.CalculateKellyCriterion(GetOrZero(performance, WinProbabilityKey), GetOrZero(performance, WinLossRatioKey), multiplier)
  }

  /** Reads the two statistics (0.0 when absent), refuses when the
      extension is missing, computes the scaled Kelly fraction and attaches
      its warnings; the fraction is returned unchanged. The multiplier is
      within [0, 1] by the request schema. */
  method CalculateKelly(available: bool, performance: map<string, real>, multiplier: real) returns (r: Result<KellyResponse>)
    requires 0.0 <= multiplier <= 1.0
    ensures !available ==> r == Failure(ExtensionUnavailable)
    ensures available ==> (r.Failure? <==> KellyFractionOf(performance, multiplier).Failure?)
    ensures available && r.Failure? ==> r.error == KellyFractionOf(performance, multiplier).error
    ensures r.Success? ==>
      && r.value.optimalFraction == KellyFractionOf(performance, multiplier).value
      && (HighRiskWarning in r.value.warnings <==> r.value.optimalFraction > 0.1)
      && (NegativeWarning in r.value.warnings <==> r.value.optimalFraction < 0.0)
      && |r.value.warnings| <= 1
  {
    var winProb := GetOrZero(performance, WinProbabilityKey);
    var ratio := GetOrZero(performance, WinLossRatioKey);
    if !available {
      return Failure(ExtensionUnavailable);
    }
    var kelly := Kelly.CalculateKellyCriterion(winProb, ratio, multiplier);
    if kelly.Failure? {
      return Failure(kelly.error);
    }
    var warnings := KellyWarnings(kelly.value);
    r := Success(KellyResponse(kelly.value, warnings));
  }

  /** A dictionary without a win probability is rejected as out of range. */
  lemma MissingWinProbabilityRejected(performance: map<string, real>, multiplier: real)
    requires WinProbabilityKey !in performance
    ensures KellyFractionOf(performance, multiplier) == Failure(WinProbabilityOutOfRange)
  {
  }

  /** With a positive multiplier the negative-edge warning is raised exactly
      when p * (R + 1) < 1, and a zero multiplier never warns. */
  lemma NegativeWarningIffNoEdge(performance: map<string, real>, multiplier: real)
    requires KellyFractionOf(performance, multiplier).Success?
    ensures var p, ratio := GetOrZero(performance, WinProbabilityKey), GetOrZero(performance, WinLossRatioKey);
      multiplier > 0.0 ==> (KellyFractionOf(performance, multiplier).value < 0.0 <==> p * (ratio + 1.0) < 1.0)
    ensures multiplier == 0.0 ==> 0.0 <= KellyFractionOf(performance, multiplier).value <= 0.1
  {
    var p, ratio := GetOrZero(performance, WinProbabilityKey), GetOrZero(performance, WinLossRatioKey);
    if multiplier > 0.0 {
      Kelly.KellySign(p, ratio, multiplier);
    }
  }

  /** A half-Kelly or smaller multiplier on a probability of 0.2 or less
      never raises the high-risk warning. */
  lemma SmallBetsDoNotWarn(performance: map<string, real>, multiplier: real)
    requires KellyFractionOf(performance, multiplier).Success?
    requires 0.0 < multiplier <= 0.5 && GetOrZero(performance, WinProbabilityKey) <= 0.2
    ensures KellyFractionOf(performance, multiplier).value <= 0.1
  {
    var p, ratio := GetOrZero(performance, WinProbabilityKey), GetOrZero(performance, WinLossRatioKey);
    Kelly.KellyBelowWinProbability(p, ratio, multiplier);
    assert p * multiplier <= 0.2 * 0.5;
  }

  // ---------------------------------------------------------------------
  // The TWR reported beside Optimal F (calculate_optimal_f_endpoint)
  // ---------------------------------------------------------------------

  /** The loss closest to zero, if any trade lost; on equal magnitudes the
      earliest is kept, which is the same value. */
  function LeastNegative(ps: seq<real>): (r: Option<real>)
    ensures r.Some? ==> r.value < 0.0 && r.value in ps
    ensures r.Some? ==> forall i :: 0 <= i < |ps| && ps[i] < 0.0 ==> Abs(r.value) <= Abs(ps[i])
    ensures r.None? <==> forall i :: 0 <= i < |ps| ==> ps[i] >= 0.0
    decreases |ps|
  {
    if |ps| == 0 then None
    else
      var x := ps[|ps| - 1];
      var rest := LeastNegative(ps[..|ps| - 1]);
      assert forall i :: 0 <= i < |ps| - 1 ==> ps[..|ps| - 1][i] == ps[i];
      if x >= 0.0 then rest
      else if rest.Some? && Abs(rest.value) <= Abs(x) then rest
      else Some(x)
  }

  /** The scale the handler divides by: min(losses, key=abs), -1.0 when
      there is no loss. */
  function SmallestLoss(ps: seq<real>): (l: real)
    ensures l < 0.0
    ensures (exists i :: 0 <= i < |ps| && ps[i] < 0.0) ==>
      l in ps && forall i :: 0 <= i < |ps| && ps[i] < 0.0 ==> Abs(l) <= Abs(ps[i])
    ensures (forall i :: 0 <= i < |ps| ==> ps[i] >= 0.0) ==> l == -1.0
  {
    LeastNegative(ps).GetOr(-1.0)
  }

  /** The scale the optimiser divided by is the largest loss, so the
      smallest loss is never larger; the two agree on a ledger without
      losses. */
  lemma SmallestLossAtMostLargestLoss(ps: seq<real>)
    ensures Abs(SmallestLoss(ps)) <= OptimalF.LargestLoss(ps)
    ensures (forall i :: 0 <= i < |ps| ==> ps[i] >= 0.0) ==> Abs(SmallestLoss(ps)) == OptimalF.LargestLoss(ps)
  {
    var least := LeastNegative(ps);
    if least.Some? {
      var i :| 0 <= i < |ps| && ps[i] == least.value;
      OptimalF.LargestLossBoundsLosses(ps);
    }
  }

  /** The accumulator loop twr *= 1 + f * (-profit / scale), starting at 1. */
  method TwrLoop(ps: seq<real>, f: real, scale: real) returns (twr: real)
    requires scale > 0.0
    ensures twr == OptimalF.Twr(ps, f, scale)
  {
    twr := 1.0;
    for i := 0 to |ps|
      invariant twr == OptimalF.Twr(ps[..i], f, scale)
    {
      assert ps[..i + 1][..i] == ps[..i];
      twr := twr * (1.0 + f * (-ps[i] / scale));
    }
    assert ps[..|ps|] == ps;
  }

  /** The TWR as the handler computes it, scaled by the smallest loss: it
      agrees with the optimiser's TWR when every loss has the same size
      (in particular when nothing lost), and betting nothing reports 1. */
  function ReportedTwrAsWritten(ps: seq<real>, f: real): (twr: real)
    ensures (forall i, j :: 0 <= i < |ps| && 0 <= j < |ps| && ps[i] < 0.0 && ps[j] < 0.0 ==> ps[i] == ps[j]) ==>
      twr == ReportedTwr(ps, f)
    ensures f == 0.0 ==> twr == 1.0
  {
    SameSizedLossesSameScale(ps);
    OptimalF.TwrAtZero(ps, Abs(SmallestLoss(ps)));
    OptimalF.Twr(ps, f, Abs(SmallestLoss(ps)))
  }

  /** When all losses are equal the smallest and the largest loss coincide. */
  lemma SameSizedLossesSameScale(ps: seq<real>)
    ensures (forall i, j :: 0 <= i < |ps| && 0 <= j < |ps| && ps[i] < 0.0 && ps[j] < 0.0 ==> ps[i] == ps[j]) ==>
      Abs(SmallestLoss(ps)) == OptimalF.LargestLoss(ps)
  {
    if OptimalF.MostNegative(ps).Some? {
      var i :| 0 <= i < |ps| && ps[i] == OptimalF.MostNegative(ps).value;
      var j :| 0 <= j < |ps| && ps[j] == SmallestLoss(ps);
    }
  }

  /** With losses of 10 and 1 and a win of 20, the handler's TWR at the
      grid point 0.0999 is negative although the TWR the optimiser
      maximised there is positive. */
  lemma SmallestLossMisscalesTwr()
    ensures var ps := [-10.0, -1.0, 20.0];
      && SmallestLoss(ps) == -1.0
      && OptimalF.LargestLoss(ps) == 10.0
      && ReportedTwrAsWritten(ps, OptimalF.GridPoint(999)) < 0.0
      && OptimalF.Twr(ps, OptimalF.GridPoint(999), OptimalF.LargestLoss(ps)) > 0.0
  {
    var ps := [-10.0, -1.0, 20.0];
    var f := OptimalF.GridPoint(999);
    assert f == 0.0999;
    assert ps[..2] == [-10.0, -1.0] && ps[..2][..1] == [-10.0] && ps[..2][..1][..0] == [];
    assert LeastNegative(ps[..2][..1][..0]) == None;
    assert LeastNegative(ps[..2][..1]) == Some(-10.0);
    assert LeastNegative(ps[..2]) == Some(-1.0);
    assert OptimalF.MostNegative(ps[..2][..1][..0]) == None;
    assert OptimalF.MostNegative(ps[..2][..1]) == Some(-10.0);
    assert OptimalF.MostNegative(ps[..2]) == Some(-10.0);
    assert OptimalF.Twr(ps[..2][..1][..0], f, 1.0) == 1.0;
    assert OptimalF.Twr(ps[..2][..1], f, 1.0) == 1.999;
    assert OptimalF.Twr(ps[..2], f, 1.0) == 1.999 * 1.0999;
    assert OptimalF.Twr(ps, f, 1.0) == 1.999 * 1.0999 * -0.998;
    assert OptimalF.Twr(ps[..2][..1][..0], f, 10.0) == 1.0;
    assert OptimalF.Twr(ps[..2][..1], f, 10.0) == 1.0999;
    assert OptimalF.Twr(ps[..2], f, 10.0) == 1.0999 * 1.00999;
    assert OptimalF.Twr(ps, f, 10.0) == 1.0999 * 1.00999 * 0.8002;
  }

  /** The TWR reported beside Optimal F, scaled by the largest loss as the
      optimiser's own objective is. */
  function ReportedTwr(ps: seq<real>, f: real): real {
    OptimalF.Twr(ps, f, OptimalF.LargestLoss(ps))
  }

  const EndpointIterations: nat := 1000
  const EndpointTolerance: real := 0.000001

  /** The reported TWR at the returned fraction is within the tolerance of
      (or above) the TWR of every grid point. */
  lemma ReportedTwrNearGridMaximum(ps: seq<real>)
    requires |ps| > 0
    ensures var f := OptimalF.OptimalFOf(ps, EndpointIterations, EndpointTolerance).value;
      forall k :: 0 <= k < OptimalF.GridSize ==>
        ReportedTwr(ps, f) > OptimalF.Twr(ps, OptimalF.GridPoint(k), OptimalF.LargestLoss(ps)) - EndpointTolerance
  {
    var l := OptimalF.LargestLoss(ps);
    var start := OptimalF.GridPoint(OptimalF.GridArgmax(ps, l, OptimalF.GridSize));
    OptimalF.GridArgmaxIsFirstMaximum(ps, l, OptimalF.GridSize);
    OptimalF.RefineImproves(ps, l, start, EndpointIterations, EndpointTolerance);
  }

  datatype OptimalFResponse = OptimalFResponse(optimalF: real, twr: real)

  // A ledger of two losses, 10 and 1: the optimiser scales by 10, the
  // handler's TWR by 1.

  /** The two TWRs of the ledger in closed form. */
  lemma TwoLossesTwr(f: real)
    ensures var ps := [-10.0, -1.0];
      && OptimalF.LargestLoss(ps) == 10.0
      && SmallestLoss(ps) == -1.0
      && OptimalF.Twr(ps, f, 10.0) == (1.0 + f) * (1.0 + 0.1 * f)
      && OptimalF.Twr(ps, f, 1.0) == (1.0 + 10.0 * f) * (1.0 + f)
  {
    var ps := [-10.0, -1.0];
    assert ps[..1] == [-10.0] && ps[..1][..0] == [];
    assert LeastNegative(ps[..1]) == Some(-10.0);
    assert OptimalF.MostNegative(ps[..1]) == Some(-10.0);
  }

  /** The product of two larger positive factors is larger. */
  lemma MulStrict(a: real, b: real, c: real, d: real)
    requires 0.0 < a < b && 0.0 < c <= d
    ensures a * c < b * d
  {
    assert a * c < b * c;
    assert b * c <= b * d;
  }

  /** The optimiser's TWR of the ledger grows strictly with f >= 0. */
  lemma TwoLossesTwrIncreasing(f: real, g: real)
    requires 0.0 <= f < g
    ensures OptimalF.Twr([-10.0, -1.0], f, 10.0) < OptimalF.Twr([-10.0, -1.0], g, 10.0)
  {
    TwoLossesTwr(f);
    TwoLossesTwr(g);
    MulStrict(1.0 + f, 1.0 + g, 1.0 + 0.1 * f, 1.0 + 0.1 * g);
  }

  /** A gradient step on the ledger moves every f >= 0 strictly up. */
  lemma TwoLossesStepUp(f: real)
    requires f >= 0.0
    ensures OptimalF.NextF([-10.0, -1.0], 10.0, f) > f
  {
    var ps := [-10.0, -1.0];
    TwoLossesTwr(f);
    assert ps[..1] == [-10.0] && ps[..1][..0] == [];
    var a, b := OptimalF.Growth(-10.0, f, 10.0), OptimalF.Growth(-1.0, f, 10.0);
    assert a == 1.0 + f && b == 1.0 + 0.1 * f;
    assert OptimalF.Gradient(ps[..1], f, 10.0) == 1.0 / a;
    assert OptimalF.Gradient(ps, f, 10.0) == 1.0 / a + 0.1 / b;
    assert 1.0 / a > 0.0 && 0.1 / b > 0.0;
    assert OptimalF.Twr(ps, f, 10.0) == a * b;
    assert a * b > 0.0;
  }

  /** Hill-climbing on the ledger from f >= 0 ends strictly above f when it
      may take a step. */
  lemma {:induction false} TwoLossesRefineRises(f: real, k: nat, tol: real)
    requires f >= 0.0
    ensures OptimalF.Refine([-10.0, -1.0], 10.0, f, k, tol) >= f
    ensures k > 0 ==> OptimalF.Refine([-10.0, -1.0], 10.0, f, k, tol) > f
    decreases k
  {
    if k > 0 {
      var newF := OptimalF.NextF([-10.0, -1.0], 10.0, f);
      TwoLossesStepUp(f);
      TwoLossesTwrIncreasing(f, newF);
      TwoLossesRefineRises(newF, k - 1, tol);
    }
  }

  /** For the ledger and any f > 0, the handler's TWR exceeds the TWR the
      optimiser maximises. */
  lemma TwoLossesReportGap(f: real)
    requires f > 0.0
    ensures var ps := [-10.0, -1.0];
      && ReportedTwrAsWritten(ps, f) == (1.0 + 10.0 * f) * (1.0 + f)
      && ReportedTwr(ps, f) == (1.0 + f) * (1.0 + 0.1 * f)
      && ReportedTwrAsWritten(ps, f) > ReportedTwr(ps, f)
  {
    TwoLossesTwr(f);
    MulStrict(1.0 + 0.1 * f, 1.0 + 10.0 * f, 1.0 + f, 1.0 + f);
  }

  /** The Optimal F the endpoint returns for losses of 10 and 1 is
      positive, and there the reported TWR exceeds the TWR that Optimal F
      maximised (by TwoLossesReportGap, (1 + 10 f)(1 + f) against
      (1 + f)(1 + f / 10)). */
  lemma SmallestLossMisreportsTwr(ps: seq<real>)
    requires ps == [-10.0, -1.0]
    ensures var f := OptimalF.OptimalFOf(ps, EndpointIterations, EndpointTolerance).value;
      && f > 0.0
      && ReportedTwrAsWritten(ps, f) > ReportedTwr(ps, f)
  {
    TwoLossesOptimalFPositive(ps);
    TwoLossesReportGap(OptimalF.OptimalFOf(ps, EndpointIterations, EndpointTolerance).value);
  }

  /** The endpoint's Optimal F for the ledger is positive: the climb from
      the best grid point always takes its first step. */
  lemma TwoLossesOptimalFPositive(ps: seq<real>)
    requires ps == [-10.0, -1.0]
    ensures OptimalF.OptimalFOf(ps, EndpointIterations, EndpointTolerance).value > 0.0
  {
    TwoLossesTwr(0.0);
    var start := OptimalF.GridPoint(OptimalF.GridArgmax(ps, 10.0, OptimalF.GridSize));
    TwoLossesRefineRises(start, EndpointIterations, EndpointTolerance);
  }

  /** Refuses when the extension is missing, converts the trades, runs
      Optimal F with 1000 iterations and tolerance 1e-6, and reports the TWR
      at the result, scaled by the smallest loss. */
  method CalculateOptimalFEndpoint(available: bool, data: seq<TradeData>) returns (r: Result<OptimalFResponse>)
    ensures !available ==> r == Failure(ExtensionUnavailable)
    ensures available && TradesOf(data).Failure? ==> r == Failure(TradesOf(data).error)
    ensures available && TradesOf(data).Success? ==>
      var ps := Profits(TradesOf(data).value);
      && (r.Failure? <==> |data| == 0)
      && (r.Failure? ==> r.error == NoTrades)
      && (r.Success? ==>
            && r.value.optimalF == OptimalF.OptimalFOf(ps, EndpointIterations, EndpointTolerance).value
            && r.value.optimalF >= 0.0
            && r.value.twr == ReportedTwrAsWritten(ps, r.value.optimalF))
  {
    if !available {
      return Failure(ExtensionUnavailable);
    }
    var parsed := ParseTradesFromData(available, data);
    if parsed.Failure? {
      return Failure(parsed.error);
    }
    var trades := parsed.value;
    TradesOfSpec(data);
    var optimal := OptimalF.CalculateOptimalF(trades, EndpointIterations, EndpointTolerance);
    if optimal.Failure? {
      return Failure(optimal.error);
    }
    var ps := Profits(trades);
    var twr := TwrLoop(ps, optimal.value, Abs(SmallestLoss(ps)));
    r := Success(OptimalFResponse(optimal.value, twr));
  }

  // ---------------------------------------------------------------------
  // The risk-fraction sweep (optimize_challenge)
  // ---------------------------------------------------------------------

  /** The risk fractions tried, 0.1% to 2%, in ascending order. */
  const RiskFractions: seq<real> := [0.001, 0.002, 0.005, 0.01, 0.015, 0.02]

  /** Half the width of the reported interval around the best pass rate. */
  const IntervalHalfWidth: real := 0.05

  datatype Choice = Choice(fraction: real, passRate: real)

  /** The sweep's choice: starting from (0, 0), a fraction replaces the
      current choice only when its pass rate is strictly greater. */
  function BestChoice(fractions: seq<real>, rates: seq<real>): Choice
    requires |fractions| == |rates|
    decreases |rates|
  {
    if |rates| == 0 then Choice(0.0, 0.0)
    else
      var c := BestChoice(fractions[..|rates| - 1], rates[..|rates| - 1]);
      if rates[|rates| - 1] > c.passRate then Choice(fractions[|rates| - 1], rates[|rates| - 1]) else c
  }

  /** The choice has a pass rate at least every rate and at least 0; when
      it is positive it is the first fraction reaching it (ties keep the
      earlier, lower fraction); when no rate is positive it is (0, 0). */
  lemma {:induction false} BestChoiceIsFirstMaximum(fractions: seq<real>, rates: seq<real>)
    requires |fractions| == |rates|
    ensures var c := BestChoice(fractions, rates);
      && c.passRate >= 0.0
      && (forall i :: 0 <= i < |rates| ==> rates[i] <= c.passRate)
      && (c.passRate > 0.0 ==>
            exists i :: 0 <= i < |rates| && fractions[i] == c.fraction && rates[i] == c.passRate
                        && forall j :: 0 <= j < i ==> rates[j] < rates[i])
      && (c == Choice(0.0, 0.0) <==> forall i :: 0 <= i < |rates| ==> rates[i] <= 0.0)
    decreases |rates|
  {
    if |rates| > 0 {
      var n := |rates| - 1;
      var fs, rs := fractions[..n], rates[..n];
      BestChoiceIsFirstMaximum(fs, rs);
      assert forall i :: 0 <= i < n ==> rs[i] == rates[i] && fs[i] == fractions[i];
      var c := BestChoice(fs, rs);
      if rates[n] > c.passRate {
        forall j | 0 <= j < n
          ensures rates[j] < rates[n]
        {
          assert rs[j] <= c.passRate;
        }
      } else if c.passRate > 0.0 {
        var i :| 0 <= i < n && fs[i] == c.fraction && rs[i] == c.passRate && forall j :: 0 <= j < i ==> rs[j] < rs[i];
        assert fractions[i] == c.fraction && rates[i] == c.passRate;
      }
    }
  }

  /** The pass rate of one fraction on its index sequences: the engine's
      share of passing paths. */
  function PassRate(p: ChallengeParams, riskFraction: real, profits: seq<real>, samples: seq<seq<nat>>): (rate: real)
    requires p.accountSize != 0.0 && |samples| > 0
    requires forall s :: 0 <= s < |samples| ==> Simulation.ValidSample(samples[s], |profits|)
    ensures 0.0 <= rate <= 1.0
  {
    Simulation.RateBounded(Simulation.CountTrue(Simulation.Outcomes(p, riskFraction, profits, samples)), |samples|);
    Simulation.CountTrue(Simulation.Outcomes(p, riskFraction, profits, samples)) as real / |samples| as real
  }

  /** The index sequences for every fraction: one per simulation, each a
      valid resample of n trades. */
  predicate ValidSweepSamples(samples: seq<seq<seq<nat>>>, simulationCount: nat, n: nat) {
    && |samples| == |RiskFractions|
    && forall k :: 0 <= k < |samples| ==>
         |samples[k]| == simulationCount && forall s :: 0 <= s < |samples[k]| ==> Simulation.ValidSample(samples[k][s], n)
  }

  /** The pass rate of every fraction, in sweep order. */
  function SweepRates(p: ChallengeParams, profits: seq<real>, simulationCount: nat, samples: seq<seq<seq<nat>>>): (r: seq<real>)
    requires p.accountSize != 0.0 && simulationCount > 0
    requires ValidSweepSamples(samples, simulationCount, |profits|)
    ensures |r| == |RiskFractions|
    ensures forall k :: 0 <= k < |r| ==> 0.0 <= r[k] <= 1.0
  {
    seq(|RiskFractions|, k requires 0 <= k < |RiskFractions| => PassRate(p, RiskFractions[k], profits, samples[k]))
  }

  datatype OptimizationResponse = OptimizationResponse(recommendedFraction: real, passRate: real, interval: (real, real))

  /** Refuses when the extension is missing, converts the trades, runs the
      simulation for every fraction keeping the first strictly best pass
      rate, and reports it with the interval rate -/+ 0.05. The simulation
      count is within [100, 10000] by the request schema; the challenge
      rules arrive as a record. */
  method OptimizeChallenge(available: bool, p: ChallengeParams, data: seq<TradeData>, simulationCount: nat,
                           samples: seq<seq<seq<nat>>>)
    returns (r: Result<OptimizationResponse>)
    requires p.accountSize != 0.0 && 100 <= simulationCount <= 10000
    requires ValidSweepSamples(samples, simulationCount, |data|)
    ensures !available ==> r == Failure(ExtensionUnavailable)
    ensures available && TradesOf(data).Failure? ==> r == Failure(TradesOf(data).error)
    ensures available && TradesOf(data).Success? ==>
      && (r.Failure? <==> |data| == 0)
      && (r.Failure? ==> r.error == NoTrades)
      && (r.Success? ==>
            var best := BestChoice(RiskFractions, SweepRates(p, Profits(TradesOf(data).value), simulationCount, samples));
            && r.value.recommendedFraction == best.fraction
            && r.value.passRate == best.passRate
            && r.value.interval == (best.passRate - IntervalHalfWidth, best.passRate + IntervalHalfWidth))
  {
    if !available {
      return Failure(ExtensionUnavailable);
    }
    var parsed := ParseTradesFromData(available, data);
    if parsed.Failure? {
      return Failure(parsed.error);
    }
    var trades := parsed.value;
    var best := Sweep(trades, p, simulationCount, samples);
    if best.Failure? {
      return Failure(best.error);
    }
    var rate := best.value.passRate;
    r := Success(OptimizationResponse(best.value.fraction, rate, (rate - IntervalHalfWidth, rate + IntervalHalfWidth)));
  }

  /** The sweep loop: one simulation run per fraction, keeping the fraction
      whose pass rate is strictly greater than the best so far. The engine
      reports an empty ledger on the first run. */
  method Sweep(trades: seq<Trade>, p: ChallengeParams, simulationCount: nat, samples: seq<seq<seq<nat>>>)
    returns (r: Result<Choice>)
    requires p.accountSize != 0.0 && simulationCount > 0
    requires ValidSweepSamples(samples, simulationCount, |trades|)
    ensures r.Failure? <==> |trades| == 0
    ensures r.Failure? ==> r.error == NoTrades
    ensures r.Success? ==> r.value == BestChoice(RiskFractions, SweepRates(p, Profits(trades), simulationCount, samples))
  {
    ghost var rates := SweepRates(p, Profits(trades), simulationCount, samples);
    var bestFraction := 0.0;
    var bestPassRate := 0.0;
    for k := 0 to |RiskFractions|
      invariant Choice(bestFraction, bestPassRate) == BestChoice(RiskFractions[..k], rates[..k])
      invariant k > 0 ==> |trades| > 0
    {
      var results := Simulation.RunMonteCarloSimulation(trades, p, RiskFractions[k], simulationCount, samples[k]);
      if results.Failure? {
        return Failure(results.error);
      }
      var passRate := if Simulation.PassRateKey in results.value then results.value[Simulation.PassRateKey] else 0.0;
      assert passRate == rates[k];
      assert RiskFractions[..k + 1][..k] == RiskFractions[..k];
      assert rates[..k + 1][..k] == rates[..k];
      if passRate > bestPassRate {
        bestPassRate := passRate;
        bestFraction := RiskFractions[k];
      }
    }
    assert RiskFractions[..|RiskFractions|] == RiskFractions;
    assert rates[..|rates|] == rates;
    r := Success(Choice(bestFraction, bestPassRate));
  }

  /** When no fraction passes a single path the recommendation is 0 with
      pass rate 0 and interval [-0.05, 0.05]. */
  lemma NoPassingFractionRecommendsZero(fractions: seq<real>, rates: seq<real>)
    requires |fractions| == |rates|
    requires forall i :: 0 <= i < |rates| ==> rates[i] == 0.0
    ensures BestChoice(fractions, rates) == Choice(0.0, 0.0)
  {
    BestChoiceIsFirstMaximum(fractions, rates);
  }

  /** Equal pass rates keep the lower fraction. */
  lemma TiesKeepLowerFraction(rate: real)
    requires rate > 0.0
    ensures BestChoice(RiskFractions, [rate, rate, rate, rate, rate, rate]) == Choice(0.001, rate)
  {
    var rs := [rate, rate, rate, rate, rate, rate];
    BestChoiceIsFirstMaximum(RiskFractions, rs);
    var i :| 0 <= i < |rs| && RiskFractions[i] == BestChoice(RiskFractions, rs).fraction
             && rs[i] == BestChoice(RiskFractions, rs).passRate && forall j :: 0 <= j < i ==> rs[j] < rs[i];
    assert rs[0] == rs[i];
    assert RiskFractions[0] == 0.001;
  }
}
