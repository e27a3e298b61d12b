/** `FormatText` of output.go: one block of text per record, in order. */
module Output {
  import opened GoTime
  import opened EpicGames

  /** `t.UTC().Format(time.RFC1123)`, supplied by the caller. */
  type Rfc1123 = Instant -> string

  /** The text one record contributes. */
  function Block(game: Formatter, rfc1123: Rfc1123): string
  {
    game.title + "\n" + game.url + "\n" + "Free until: " + rfc1123(game.expiryDate.instant) + "\n\n"
  }

  /** The whole text report, record after record. */
  function Text(games: seq<Formatter>, rfc1123: Rfc1123): string
  {
    if games == [] then ""
    else Text(games[..|games| - 1], rfc1123) + Block(games[|games| - 1], rfc1123)
  }

  /** The sum of the block lengths of `games`. */
  function BlocksLength(games: seq<Formatter>, rfc1123: Rfc1123): nat
  {
    if games == [] then 0
    else BlocksLength(games[..|games| - 1], rfc1123) + |Block(games[|games| - 1], rfc1123)|
  }

  /** `FormatText`: writes each record's lines into a buffer, in order. */
  method FormatText(games: seq<Formatter>, rfc1123: Rfc1123) returns (text: string)
    ensures text == Text(games, rfc1123)
  {
    var buf := "";
    for i := 0 to |games|
      invariant buf == Text(games[..i], rfc1123)
    {
      var game := games[i];
      assert games[..i + 1][..i] == games[..i];
      buf := buf + (game.title + "\n");
      buf := buf + (game.url + "\n");
      buf := buf + ("Free until: " + rfc1123(game.expiryDate.instant) + "\n\n");
    }
    assert games[..|games|] == games;
    text := buf;
  }

  /** No records, no text. */
  lemma TextOfNothing(rfc1123: Rfc1123)
    ensures Text([], rfc1123) == ""
  {
  }

  /** The report of a concatenation is the concatenation of the reports. */
  lemma {:induction false} TextAppend(a: seq<Formatter>, b: seq<Formatter>, rfc1123: Rfc1123)
    ensures Text(a + b, rfc1123) == Text(a, rfc1123) + Text(b, rfc1123)
  {
    if b == [] {
      assert a + b == a;
    } else {
      var b', last := b[..|b| - 1], b[|b| - 1];
      var ab := a + b;
      assert ab[..|ab| - 1] == a + b' && ab[|ab| - 1] == last;
      var block := Block(last, rfc1123);
      assert Text(ab, rfc1123) == Text(a + b', rfc1123) + block;
      assert Text(b, rfc1123) == Text(b', rfc1123) + block;
      TextAppend(a, b', rfc1123);
    }
  }

  /** A single record contributes exactly its block. */
  lemma TextOfOne(game: Formatter, rfc1123: Rfc1123)
    ensures Text([game], rfc1123)
            == game.title + "\n" + game.url + "\n" + "Free until: " + rfc1123(game.expiryDate.instant) + "\n\n"
  {
    assert [game][..0] == [];
  }

  /** The report is as long as its blocks together. */
  lemma {:induction false} TextLength(games: seq<Formatter>, rfc1123: Rfc1123)
    ensures |Text(games, rfc1123)| == BlocksLength(games, rfc1123)
  {
    if games != [] {
      TextLength(games[..|games| - 1], rfc1123);
    }
  }

  /** The report is empty exactly when there are no records, and otherwise ends in a blank line. */
  lemma {:induction false} TextEndsInBlankLine(games: seq<Formatter>, rfc1123: Rfc1123)
    ensures Text(games, rfc1123) == "" <==> games == []
    ensures games != [] ==> var t := Text(games, rfc1123); |t| >= 2 && t[|t| - 2..] == "\n\n"
  {
    if games != [] {
      var b := Block(games[|games| - 1], rfc1123);
      var t := Text(games, rfc1123);
      assert t == Text(games[..|games| - 1], rfc1123) + b;
      assert b[|b| - 2..] == "\n\n";
      assert t[|t| - 2..] == b[|b| - 2..];
    }
  }
}
