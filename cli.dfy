/**
 * The one-shot command of main.go: its own copies of the freshness predicate,
 * the normaliser and format inference (proved equal to the package versions),
 * the bounded retry around the fetch, the notification dispatch and the switch
 * over the output format. The fetch, the notification call and the clock are
 * the caller's: each fetch and each notification is answered by an oracle
 * indexed by the number of the call.
 */
module Cli {
  import opened Wrappers
  import opened GoTime
  import opened EpicGames
  import EpicFormat
  import Output

  /** `isCurrentlyFree`: the package predicate with its first guard split in two. */
  function IsCurrentlyFree(game: Game, now: Instant, parse: Parser): (free: bool)
    ensures free == EpicGames.IsCurrentlyFree(game, now, parse)
  {
    if game.status != ActiveStatus then
      false
    else if game.expiryDate == "" || game.expiryDate == NullExpiry then
      false
    else
      match parse(game.expiryDate)
      case None => false
      case Some(end) => now < end.instant
  }

  /** `normalizeData`: the same loop over `isCurrentlyFree`, so the same records as the package. */
  method NormalizeData(games: seq<Game>, now: Instant, parse: Parser) returns (result: seq<Formatter>)
    ensures result == Normalized(games, now, parse)
  {
    result := [];
    for i := 0 to |games|
      invariant result == Normalized(games[..i], now, parse)
    {
      var game := games[i];
      assert games[..i + 1][..i] == games[..i];
      // This module's own copy of `isCurrentlyFree`, not the package's.
      if !IsCurrentlyFree(game, now, parse) || game.productSlug == "" {
        continue;
      }
      var end := parse(game.expiryDate);
      if end.None? {
        continue;
      }
      result := result + [Formatter(game.title, game.productSlug, end.value, StoreBaseURL + game.productSlug)];
    }
    assert games[..|games|] == games;
  }

  /** `inferFormat`: the package's inference, written again. */
  function InferFormat(output: string, explicitFormat: string): (f: string)
    ensures f == EpicFormat.InferFormat(output, explicitFormat)
  {
    if explicitFormat != "" then EpicFormat.Lower(explicitFormat)
    else if output != "" then
      match EpicFormat.Lower(EpicFormat.Ext(output))
      case ".json" => "json"
      case ".html" => "html"
      case ".htm" => "html"
      case ".txt" => "text"
      case _ => "text"
    else "text"
  }

  /** The default of the `--format` flag. */
  const FormatFlagDefault: string := "text"

  /** With the flag left at its default the output path is never consulted: extension inference
      happens only when `--format` is given as the empty string. */
  lemma DefaultFlagSkipsInference(output: string)
    ensures InferFormat(output, FormatFlagDefault) == EpicFormat.TextFormat
    ensures InferFormat("games.json", FormatFlagDefault) == EpicFormat.TextFormat
    ensures InferFormat("games.json", "") == EpicFormat.JsonFormat
  {
    EpicFormat.ExtOfSuffix("games", ".json");
    assert "games" + ".json" == "games.json";
  }

  const MaxAttempts: nat := 3
  const RetryDelay: int := 5 * Second

  /** What one call of `fetchGames` returns. */
  datatype FetchResult = Fetched(games: seq<Game>) | FetchFailed(reason: string)

  /** The number of calls the retry loop makes from attempt `i` on: up to the first success,
      and never past the last attempt. */
  function AttemptsFrom(fetch: nat -> FetchResult, i: nat): (n: nat)
    requires i < MaxAttempts
    ensures i < n <= MaxAttempts
    ensures forall j | i <= j < n - 1 :: fetch(j).FetchFailed?
    ensures n < MaxAttempts ==> fetch(n - 1).Fetched?
    decreases MaxAttempts - i
  {
    if fetch(i).Fetched? || i == MaxAttempts - 1 then i + 1 else AttemptsFrom(fetch, i + 1)
  }

  /** The number of `fetchGames` calls `main` makes. */
  function Attempts(fetch: nat -> FetchResult): (n: nat)
    ensures 1 <= n <= MaxAttempts
    ensures forall j | 0 <= j < n - 1 :: fetch(j).FetchFailed?
    ensures fetch(n - 1).FetchFailed? <==> forall j | 0 <= j < MaxAttempts :: fetch(j).FetchFailed?
  {
    AttemptsFrom(fetch, 0)
  }

  /** The retry loop: at most three calls, stopping at the first success; every failure, the
      last one included, is followed by one five-second sleep. */
  method FetchWithRetry(fetch: nat -> FetchResult) returns (last: FetchResult, calls: nat, sleeps: seq<int>)
    ensures calls == Attempts(fetch)
    ensures last == fetch(calls - 1)
    ensures |sleeps| == if last.Fetched? then calls - 1 else calls
    ensures forall k | 0 <= k < |sleeps| :: sleeps[k] == RetryDelay
  {
    last := Fetched([]);
    calls, sleeps := 0, [];
    var i := 0;
    while i < MaxAttempts
      invariant 0 <= i <= MaxAttempts && calls == i && |sleeps| == i
      invariant forall j | 0 <= j < i :: fetch(j).FetchFailed?
      invariant forall k | 0 <= k < |sleeps| :: sleeps[k] == RetryDelay
      invariant i > 0 ==> last == fetch(i - 1)
    {
      last := fetch(i);
      calls := calls + 1;
      if last.Fetched? {
        break;
      }
      sleeps := sleeps + [RetryDelay];
      i := i + 1;
    }
  }

  /** What one call of `notify` is given. */
  datatype Notification = Notification(title: string, message: string)

  const NoGamesTitle: string := "No Free Games to claim today!"
  const GameTitle: string := "Free Game Available!"

  /** `ExpiryDate.Format("Mon Jan 2 15:04:05 2006 MST")`, supplied by the caller. */
  type Stamp = Timestamp -> string

  /** The notifications `main` sends for the normalised records: one "no free games" call with an
      empty message when there are none, otherwise one call per record, in order. */
  function Notifications(free: seq<Formatter>, stamp: Stamp): (ns: seq<Notification>)
    ensures |ns| == if free == [] then 1 else |free|
    ensures free == [] ==> ns == [Notification(NoGamesTitle, "")]
    ensures free != [] ==> forall i | 0 <= i < |free| ::
      ns[i] == Notification(GameTitle, free[i].title + " is free until " + stamp(free[i].expiryDate))
  {
    if free == [] then [Notification(NoGamesTitle, "")]
    else seq(|free|, i requires 0 <= i < |free| =>
           Notification(GameTitle, free[i].title + " is free until " + stamp(free[i].expiryDate)))
  }

  /** The titles whose notification failed, in order; `delivered(i)` answers the i-th call. */
  function Undelivered(free: seq<Formatter>, delivered: nat -> bool): (titles: seq<string>)
    ensures |titles| <= |free|
    ensures (forall i | 0 <= i < |free| :: delivered(i)) ==> titles == []
    ensures (forall i | 0 <= i < |free| :: !delivered(i)) ==> titles == seq(|free|, i requires 0 <= i < |free| => free[i].title)
  {
    if free == [] then []
    else
      Undelivered(free[..|free| - 1], delivered)
        + if delivered(|free| - 1) then [] else [free[|free| - 1].title]
  }

  /** Every failed call logs its record's title. */
  lemma {:induction false} UndeliveredComplete(free: seq<Formatter>, delivered: nat -> bool, i: int)
    requires 0 <= i < |free| && !delivered(i)
    ensures free[i].title in Undelivered(free, delivered)
  {
    var n := |free| - 1;
    if i < n {
      var front := free[..n];
      UndeliveredComplete(front, delivered, i);
      assert front[i] == free[i];
    }
  }

  /** Every logged title comes from a failed call. */
  lemma {:induction false} UndeliveredSound(free: seq<Formatter>, delivered: nat -> bool, t: string) returns (i: int)
    requires t in Undelivered(free, delivered)
    ensures 0 <= i < |free| && !delivered(i) && free[i].title == t
  {
    var n := |free| - 1;
    var front := free[..n];
    if t in Undelivered(front, delivered) {
      i := UndeliveredSound(front, delivered, t);
      assert front[i] == free[i];
    } else {
      i := n;
    }
  }

  /** A title is logged as undelivered exactly when some call for a record with that title
      failed. */
  lemma UndeliveredMember(free: seq<Formatter>, delivered: nat -> bool, t: string)
    ensures t in Undelivered(free, delivered)
            <==> exists i | 0 <= i < |free| :: !delivered(i) && free[i].title == t
  {
    if t in Undelivered(free, delivered) {
      var i := UndeliveredSound(free, delivered, t);
    }
    forall i | 0 <= i < |free| && !delivered(i) && free[i].title == t
      ensures t in Undelivered(free, delivered)
    {
      UndeliveredComplete(free, delivered, i);
    }
  }

  /** One title is logged per failed call: the log is as long as the number of failed calls. */
  lemma {:induction false} UndeliveredCount(free: seq<Formatter>, delivered: nat -> bool)
    ensures |Undelivered(free, delivered)| == |set i | 0 <= i < |free| && !delivered(i)|
  {
    if free != [] {
      var n := |free| - 1;
      UndeliveredCount(free[..n], delivered);
      var before := set i | 0 <= i < n && !delivered(i);
      var after := set i | 0 <= i < |free| && !delivered(i);
      if delivered(n) {
        assert after == before;
      } else {
        assert after == before + {n};
        assert n !in before;
      }
    }
  }

  /** The log of the first k calls is a prefix of the whole log: titles appear in call order. */
  lemma {:induction false} UndeliveredPrefix(free: seq<Formatter>, delivered: nat -> bool, k: int)
    requires 0 <= k <= |free|
    ensures Undelivered(free[..k], delivered) <= Undelivered(free, delivered)
    decreases |free| - k
  {
    if k < |free| {
      var n := |free| - 1;
      var front := free[..n];
      assert front[..k] == free[..k];
      UndeliveredPrefix(front, delivered, k);
      assert Undelivered(front, delivered) <= Undelivered(free, delivered);
    } else {
      assert free[..k] == free;
    }
  }

  /** The dispatch of main.go: a failed call is logged and the loop goes on, so what is sent does
      not depend on what was delivered. */
  method NotifyAll(free: seq<Formatter>, stamp: Stamp, delivered: nat -> bool)
    returns (sent: seq<Notification>, failures: seq<string>)
    ensures sent == Notifications(free, stamp)
    ensures failures == if free == [] then [] else Undelivered(free, delivered)
  {
    if |free| == 0 {
      sent := [Notification(NoGamesTitle, "")];
      failures := [];
      return;
    }
    sent, failures := [], [];
    for i := 0 to |free|
      invariant |sent| == i
      invariant forall k | 0 <= k < i ::
        sent[k] == Notification(GameTitle, free[k].title + " is free until " + stamp(free[k].expiryDate))
      invariant failures == Undelivered(free[..i], delivered)
    {
      var game := free[i];
      sent := sent + [Notification(GameTitle, game.title + " is free until " + stamp(game.expiryDate))];
      assert free[..i + 1][..i] == free[..i];
      var ok := delivered(i);
      if !ok {
        failures := failures + [game.title];
      }
    }
    assert free[..|free|] == free;
  }

  /** The data the format switch produces; JSON and HTML rendering are not modelled, so those
      reports carry the records they would render. */
  datatype Report = TextReport(text: string) | JsonReport(games: seq<Formatter>) | HtmlReport(games: seq<Formatter>)

  /** How `main` ends: giving up after the retries, panicking on an unknown format, or with a report. */
  datatype Outcome = GaveUp(reason: string) | UnknownFormat(format: string) | Rendered(report: Report)

  /** The format switch; its default case is the panic. */
  function Render(format: string, free: seq<Formatter>, rfc1123: Output.Rfc1123): (o: Outcome)
    ensures o.UnknownFormat? <==> format !in {"text", "json", "html"}
    ensures format == "text" ==> o == Rendered(TextReport(Output.Text(free, rfc1123)))
    ensures format == "json" ==> o == Rendered(JsonReport(free))
    ensures format == "html" ==> o == Rendered(HtmlReport(free))
  {
    match format
    case "text" => Rendered(TextReport(Output.Text(free, rfc1123)))
    case "json" => Rendered(JsonReport(free))
    case "html" => Rendered(HtmlReport(free))
    case _ => UnknownFormat(format)
  }

  /** An unknown explicit format reaches the panic; it is never replaced by text. Without an
      explicit format the switch always finds a case. */
  lemma UnknownFormatPanics(output: string, formatFlag: string, free: seq<Formatter>, rfc1123: Output.Rfc1123)
    ensures Render(InferFormat(output, formatFlag), free, rfc1123).UnknownFormat?
            <==> formatFlag != "" && EpicFormat.Lower(formatFlag) !in {"text", "json", "html"}
  {
  }

  /** `main` after flag parsing. */
  method Run(formatFlag: string, outputFlag: string, fetch: nat -> FetchResult, now: Instant, parse: Parser,
             stamp: Stamp, rfc1123: Output.Rfc1123, delivered: nat -> bool)
    returns (calls: nat, sleeps: seq<int>, sent: seq<Notification>, failures: seq<string>, outcome: Outcome)
    ensures calls == Attempts(fetch)
    ensures |sleeps| == (if fetch(calls - 1).Fetched? then calls - 1 else calls)
    ensures forall k | 0 <= k < |sleeps| :: sleeps[k] == RetryDelay
    ensures fetch(calls - 1).FetchFailed? ==>
      sent == [] && failures == [] && outcome == GaveUp(fetch(calls - 1).reason)
    ensures fetch(calls - 1).Fetched? ==>
      var free := Normalized(fetch(calls - 1).games, now, parse);
      && sent == Notifications(free, stamp)
      && failures == (if free == [] then [] else Undelivered(free, delivered))
      && outcome == Render(InferFormat(outputFlag, formatFlag), free, rfc1123)
  {
    var last;
    last, calls, sleeps := FetchWithRetry(fetch);
    sent, failures := [], [];
    if last.FetchFailed? {
      outcome := GaveUp(last.reason);
      return;
    }
    var freeGames := NormalizeData(last.games, now, parse);
    var f := InferFormat(outputFlag, formatFlag);
    sent, failures := NotifyAll(freeGames, stamp, delivered);
    match f {
      case "text" =>
        var text := Output.FormatText(freeGames, rfc1123);
        outcome := Rendered(TextReport(text));
      case "json" =>
        outcome := Rendered(JsonReport(freeGames));
      case "html" =>
        outcome := Rendered(HtmlReport(freeGames));
      case _ =>
        outcome := UnknownFormat(f);
    }
  }

  /** Three failed fetches use up every attempt, so `Run` gives up before any notification or output. */
  lemma ThreeFailuresExhaustRetries(fetch: nat -> FetchResult)
    requires forall j | 0 <= j < MaxAttempts :: fetch(j).FetchFailed?
    ensures Attempts(fetch) == MaxAttempts && fetch(Attempts(fetch) - 1).FetchFailed?
  {
  }

  /** The loop stops at the first successful call and uses its games. */
  lemma StopsAtFirstSuccess(fetch: nat -> FetchResult, k: nat)
    requires k < MaxAttempts && fetch(k).Fetched?
    requires forall j | 0 <= j < k :: fetch(j).FetchFailed?
    ensures Attempts(fetch) == k + 1
  {
  }
}
