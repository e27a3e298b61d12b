/**
 * The catalog entries of pkg/epic/fetcher.go and the pipeline that decides
 * which of them are currently free and turns those into report records.
 */
module EpicGames {
  import opened Wrappers
  import opened GoTime

  /** A promoted catalog element as the endpoint sends it; no field is trusted. */
  datatype Game = Game(title: string, productSlug: string, status: string, expiryDate: string)

  /** A normalised, presentation-ready record. */
  datatype Formatter = Formatter(title: string, productSlug: string, expiryDate: Timestamp, url: string)

  const ActiveStatus: string := "ACTIVE"
  /** The sentinel the endpoint sends for an absent expiry date. */
  const NullExpiry: string := "null"
  const StoreBaseURL: string := "https://store.epicgames.com/p/"

  /** `IsCurrentlyFree`: the status is exactly ACTIVE, the expiry is neither sentinel,
      it parses, and `now` is strictly before it. */
  function IsCurrentlyFree(game: Game, now: Instant, parse: Parser): (free: bool)
    ensures game.status != ActiveStatus ==> !free
    ensures game.expiryDate == "" || game.expiryDate == NullExpiry ==> !free
    ensures parse(game.expiryDate).None? ==> !free
    ensures free ==> now < parse(game.expiryDate).value.instant
    ensures (&& game.status == ActiveStatus && game.expiryDate != "" && game.expiryDate != NullExpiry
             && parse(game.expiryDate).Some? && now < parse(game.expiryDate).value.instant) ==> free
  {
    if game.status != ActiveStatus || game.expiryDate == "" || game.expiryDate == NullExpiry then
      false
    else
      match parse(game.expiryDate)
      case None => false
      case Some(end) => now < end.instant
  }

  /** Free now means free at every earlier instant: an entry never becomes free with time. */
  lemma FreeAtEarlierInstant(game: Game, earlier: Instant, now: Instant, parse: Parser)
    requires earlier <= now && IsCurrentlyFree(game, now, parse)
    ensures IsCurrentlyFree(game, earlier, parse)
  {
  }

  /** The expiry instant itself is no longer free. */
  lemma NotFreeAtExpiry(game: Game, parse: Parser)
    requires parse(game.expiryDate).Some?
    ensures !IsCurrentlyFree(game, parse(game.expiryDate).value.instant, parse)
  {
  }

  /** The entries the normaliser keeps. */
  predicate Kept(game: Game, now: Instant, parse: Parser)
  {
    IsCurrentlyFree(game, now, parse) && game.productSlug != ""
  }

  /** The record built for a kept entry. */
  function Record(game: Game, end: Timestamp): Formatter
  {
    Formatter(game.title, game.productSlug, end, StoreBaseURL + game.productSlug)
  }

  /** What `NormalizeData` returns, defined one entry at a time from the end of the input. */
  function Normalized(games: seq<Game>, now: Instant, parse: Parser): seq<Formatter>
  {
    if games == [] then []
    else
      var last := games[|games| - 1];
      Normalized(games[..|games| - 1], now, parse)
        + if Kept(last, now, parse) then [Record(last, parse(last.expiryDate).value)] else []
  }

  /** `NormalizeData`: the range loop that appends a record for every kept entry. The second
      parse of the expiry date cannot fail, since the first one succeeded on the same text. */
  method NormalizeData(games: seq<Game>, now: Instant, parse: Parser) returns (result: seq<Formatter>)
    ensures result == Normalized(games, now, parse)
  {
    result := [];
    for i := 0 to |games|
      invariant result == Normalized(games[..i], now, parse)
    {
      var game := games[i];
      assert games[..i + 1][..i] == games[..i];
      if !IsCurrentlyFree(game, now, parse) || game.productSlug == "" {
        continue;
      }
      var end := parse(game.expiryDate);
      if end.None? {
        continue;
      }
      result := result + [Record(game, end.value)];
    }
    assert games[..|games|] == games;
  }

  /** Normalising distributes over concatenation, so order is kept and no entry affects another. */
  lemma {:induction false} NormalizedAppend(a: seq<Game>, b: seq<Game>, now: Instant, parse: Parser)
    ensures Normalized(a + b, now, parse) == Normalized(a, now, parse) + Normalized(b, now, parse)
  {
    if b == [] {
      assert a + b == a;
    } else {
      var b' := b[..|b| - 1];
      assert (a + b)[..|a + b| - 1] == a + b';
      assert (a + b)[|a + b| - 1] == b[|b| - 1];
      NormalizedAppend(a, b', now, parse);
    }
  }

  /** A single entry yields its record exactly when it is free and has a slug. */
  lemma NormalizedSingle(game: Game, now: Instant, parse: Parser)
    ensures Normalized([game], now, parse)
            == if Kept(game, now, parse) then [Record(game, parse(game.expiryDate).value)] else []
  {
    assert [game][..0] == [];
  }

  /** An entry in the middle of the input contributes its record, in place, iff it is kept. */
  lemma EntryEmittedIffKept(a: seq<Game>, game: Game, b: seq<Game>, now: Instant, parse: Parser)
    ensures Normalized(a + [game] + b, now, parse)
            == Normalized(a, now, parse)
               + (if Kept(game, now, parse) then [Record(game, parse(game.expiryDate).value)] else [])
               + Normalized(b, now, parse)
  {
    NormalizedAppend(a + [game], b, now, parse);
    NormalizedAppend(a, [game], now, parse);
    NormalizedSingle(game, now, parse);
  }

  /** The output is never longer than the input. */
  lemma {:induction false} NormalizedLength(games: seq<Game>, now: Instant, parse: Parser)
    ensures |Normalized(games, now, parse)| <= |games|
  {
    if games != [] {
      NormalizedLength(games[..|games| - 1], now, parse);
    }
  }

  /** Every record comes from a kept input entry, copies its title and slug, carries the parsed
      expiry, which lies strictly after `now`, and links to the store page of its slug. */
  lemma {:induction false} NormalizedRecords(games: seq<Game>, now: Instant, parse: Parser)
    ensures forall r | r in Normalized(games, now, parse) ::
      && r.productSlug != ""
      && r.url == StoreBaseURL + r.productSlug
      && now < r.expiryDate.instant
      && exists j | 0 <= j < |games| ::
           && Kept(games[j], now, parse)
           && r == Record(games[j], parse(games[j].expiryDate).value)
  {
    if games != [] {
      var n := |games| - 1;
      var prefix := games[..n];
      NormalizedRecords(prefix, now, parse);
      forall r | r in Normalized(games, now, parse)
        ensures exists j | 0 <= j < |games| ::
           && Kept(games[j], now, parse)
           && r == Record(games[j], parse(games[j].expiryDate).value)
      {
        if r in Normalized(prefix, now, parse) {
          var j :| 0 <= j < |prefix| && Kept(prefix[j], now, parse)
                   && r == Record(prefix[j], parse(prefix[j].expiryDate).value);
          assert games[j] == prefix[j];
        } else {
          assert r == Record(games[n], parse(games[n].expiryDate).value);
        }
      }
    }
  }

  /** No deduplication: two free entries with the same title and distinct slugs both appear. */
  lemma SameTitleBothKept(title: string, slugA: string, slugB: string, expiry: string, now: Instant, parse: Parser)
    requires slugA != "" && slugB != "" && slugA != slugB
    requires expiry != "" && expiry != NullExpiry
    requires parse(expiry).Some? && now < parse(expiry).value.instant
    ensures var games := [Game(title, slugA, ActiveStatus, expiry), Game(title, slugB, ActiveStatus, expiry)];
            var out := Normalized(games, now, parse);
            |out| == 2 && out[0].title == out[1].title == title
            && out[0].url == StoreBaseURL + slugA && out[1].url == StoreBaseURL + slugB
  {
    var games := [Game(title, slugA, ActiveStatus, expiry), Game(title, slugB, ActiveStatus, expiry)];
    assert games == [games[0]] + [games[1]];
    NormalizedAppend([games[0]], [games[1]], now, parse);
    NormalizedSingle(games[0], now, parse);
    NormalizedSingle(games[1], now, parse);
  }

  /** An entry with an empty slug is dropped even when it is free. */
  lemma EmptySlugDropped(game: Game, now: Instant, parse: Parser)
    requires game.productSlug == ""
    ensures Normalized([game], now, parse) == []
  {
    NormalizedSingle(game, now, parse);
  }

  /** One active entry and one expired one, far from expiry: only the active one is reported. */
  lemma ActiveAndExpiredScenario(now: Instant, parse: Parser)
    requires parse("2999-01-01T00:00:00Z").Some?
    requires now < parse("2999-01-01T00:00:00Z").value.instant
    ensures var a := Game("A", "a", "ACTIVE", "2999-01-01T00:00:00Z");
            var b := Game("B", "b", "EXPIRED", "2999-01-01T00:00:00Z");
            var out := Normalized([a, b], now, parse);
            |out| == 1 && out[0].title == "A" && out[0].url == "https://store.epicgames.com/p/a"
  {
    var a := Game("A", "a", "ACTIVE", "2999-01-01T00:00:00Z");
    var b := Game("B", "b", "EXPIRED", "2999-01-01T00:00:00Z");
    assert [a, b] == [a] + [b];
    NormalizedAppend([a], [b], now, parse);
    NormalizedSingle(a, now, parse);
    NormalizedSingle(b, now, parse);
  }
}
