/** Records shared by the whole engine: the trade ledger entry, the metrics
    record, the challenge rules, and the failure values the engine returns. */
module Types {

  datatype Option<T> = None | Some(value: T) {
    function GetOr(default: T): T {
      match this
      case Some(v) => v
      case None => default
    }
  }

  /** Every way an engine call can fail. Each constructor stands for one
      error the engine raises (see Message). */
  datatype Error =
    | NoTrades
    | WinProbabilityOutOfRange
    | NonPositiveWinLossRatio
    | CsvParse(detail: string)
    | PositionsNotFound
    | ExtensionUnavailable
    | WrongFieldType(field: string)
  {
    function Message(): string {
      match this
      case NoTrades => "No trades provided"
      case WinProbabilityOutOfRange => "Win probability must be between 0 and 1"
      case NonPositiveWinLossRatio => "Win/loss ratio must be positive"
      case CsvParse(d) => "CSV parsing error: " + d
      case PositionsNotFound => "Invalid MT5 XML format: Positions section not found"
      case ExtensionUnavailable => "Rust extension not available"
      case WrongFieldType(f) => "argument '" + f + "' has the wrong type"
    }
  }

  datatype Result<T> = Success(value: T) | Failure(error: Error)

  /** One closed position of the ledger. */
  datatype Trade = Trade(
    symbol: string,
    tradeType: string,
    volume: real,
    openPrice: real,
    closePrice: real,
    profit: real,
    commission: Option<real>,
    swap: Option<real>)

  /** The statistics computed from a ledger; sharpeRatio is always None. */
  datatype PerformanceMetrics = PerformanceMetrics(
    totalTrades: nat,
    winProbability: real,
    lossProbability: real,
    avgWin: real,
    avgLoss: real,
    winLossRatio: real,
    profitFactor: real,
    expectancy: real,
    maxDrawdown: real,
    sharpeRatio: Option<real>)

  /** The rules of a funded-account challenge. */
  datatype ChallengeParams = ChallengeParams(
    accountSize: real,
    profitTargetPercent: real,
    maxDailyLossPercent: real,
    maxOverallLossPercent: real,
    minTradingDays: nat)

  /** The realised profit of every trade, in ledger order. */
  function Profits(trades: seq<Trade>): (ps: seq<real>)
    ensures |ps| == |trades|
    ensures forall i :: 0 <= i < |trades| ==> ps[i] == trades[i].profit
  {
    seq(|trades|, i requires 0 <= i < |trades| => trades[i].profit)
  }
}
