/**
 * The chunking of daily_checks: an alert longer than a Telegram message is sent in pieces.
 * The loop tests for more than 400 characters but cuts 4000 at a time.
 */
module Daily {
  import opened Text

  /** The most characters one piece may hold. */
  const ChunkSize: nat := 4_000

  /** The length above which the loop cuts instead of sending the rest whole. */
  const CutAbove: nat := 400

  /** The pieces joined back together. */
  function Concat(parts: seq<string>): string
  {
    if parts == [] then "" else parts[0] + Concat(parts[1..])
  }

  /** The pieces the `while len(alert) > 0` loop sends, in order. */
  function Chunks(s: string): seq<string>
    decreases |s|
  {
    if |s| == 0 then []
    else if |s| > CutAbove then
      var n := if |s| < ChunkSize then |s| else ChunkSize;
      [s[..n]] + Chunks(s[n..])
    else [s]
  }

  /** The pieces are non-empty, at most 4000 characters each, and together give back the alert. */
  lemma {:induction false} ChunksSpec(s: string)
    ensures Concat(Chunks(s)) == s
    ensures forall p :: p in Chunks(s) ==> 0 < |p| <= ChunkSize
    decreases |s|
  {
    if |s| > CutAbove {
      var n := if |s| < ChunkSize then |s| else ChunkSize;
      ChunksSpec(s[n..]);
      assert Chunks(s) == [s[..n]] + Chunks(s[n..]);
      assert ([s[..n]] + Chunks(s[n..]))[1..] == Chunks(s[n..]);
      assert s == s[..n] + s[n..];
    } else if |s| > 0 {
      assert Chunks(s) == [s];
      assert [s][1..] == [];
    }
  }

  /** Cutting at the full size only when more than 4000 characters remain. */
  function FullChunks(s: string): seq<string>
    decreases |s|
  {
    if |s| == 0 then []
    else if |s| > ChunkSize then [s[..ChunkSize]] + FullChunks(s[ChunkSize..])
    else [s]
  }

  /**
   * The `> 400` test is harmless: an alert of 401 to 4000 characters is sent whole either
   * way, so the loop sends the same pieces as one that tests `> 4000`.
   */
  lemma {:induction false} ChunksMatchFullSize(s: string)
    ensures Chunks(s) == FullChunks(s)
    decreases |s|
  {
    if |s| > ChunkSize {
      ChunksMatchFullSize(s[ChunkSize..]);
    } else if |s| > CutAbove {
      assert s[..|s|] == s;
      assert s[|s|..] == [];
    }
  }

  /** The chunk loop of daily_checks for one alert. */
  method ChunkAlert(alert: string) returns (chunks: seq<string>)
    ensures chunks == Chunks(alert)
  {
    chunks := [];
    var rest := alert;
    while |rest| > 0
      invariant chunks + Chunks(rest) == Chunks(alert)
      decreases |rest|
    {
      var chunk: string;
      if |rest| > CutAbove {
        var n := if |rest| < ChunkSize then |rest| else ChunkSize;
        chunk := rest[..n];
        rest := rest[n..];
      } else {
        chunk := rest;
        rest := "";
      }
      chunks := chunks + [chunk];
    }
  }

  /** The first heartbeat text of a daily run. */
  const FinishedText: string := "Daily Checks Finished" + "\n\n  • Duplication\n  • Fetch Error Logs\n  • Unfetched Check"

  /** The second heartbeat text: the daily module's own heartbeat lines, one per line; never blank, so always sent. */
  function CustomText(beats: seq<string>): (text: string)
    ensures !IsBlank(text)
  {
    var t := "Custom heartbeat messages: \n\n  " + Join("\n", beats);
    assert t[0] == 'C';
    t
  }

  lemma FinishedNotBlank()
    ensures !IsBlank(FinishedText)
  {
    assert FinishedText[0] == 'D';
  }
}
