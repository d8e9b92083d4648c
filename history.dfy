/**
 The game history: one record per game in the order the games were played,
 the count of games with a given result, and the view that shows the last
 ten games most-recent-first.
 */
module History {
  import opened Rules

  /** One played game; the timestamp is the clock reading taken when it was played. */
  datatype GameRecord = GameRecord(timestamp: string, player: Move, computer: Move, result: Outcome)

  /** How many games the view shows. */
  const HistoryLimit: nat := 10

  /** The record of a game played with the given moves at the given time. */
  function Record(timestamp: string, player: Move, computer: Move): (r: GameRecord)
    ensures r.timestamp == timestamp && r.player == player && r.computer == computer
    ensures r.result == DetermineWinner(player, computer)
    ensures r.result == Tie <==> player == computer
  {
    GameRecord(timestamp, player, computer, DetermineWinner(player, computer))
  }

  /** True when every record holds the resolved outcome of its own two moves. */
  ghost predicate WellFormed(h: seq<GameRecord>) {
    forall i :: 0 <= i < |h| ==> h[i].result == DetermineWinner(h[i].player, h[i].computer)
  }

  /** The number of records in `h` whose result is `o`. */
  function CountResult(h: seq<GameRecord>, o: Outcome): (n: nat)
    ensures n <= |h|
    ensures n == |h| <==> forall i :: 0 <= i < |h| ==> h[i].result == o
  {
    if h == [] then 0
    else CountResult(h[..|h| - 1], o) + (if h[|h| - 1].result == o then 1 else 0)
  }

  /** Appending a record adds one to the count of its own result and nothing to the others. */
  lemma CountAppend(h: seq<GameRecord>, r: GameRecord, o: Outcome)
    ensures CountResult(h + [r], o) == CountResult(h, o) + (if r.result == o then 1 else 0)
  {
    assert (h + [r])[..|h|] == h;
  }

  /** Every record has exactly one of the three results, so the three counts add up to the length. */
  lemma {:induction false} CountsSum(h: seq<GameRecord>)
    ensures CountResult(h, Win) + CountResult(h, Loss) + CountResult(h, Tie) == |h|
  {
    if h != [] {
      CountsSum(h[..|h| - 1]);
    }
  }

  /** The sequence in reverse order. */
  function Reversed<T>(s: seq<T>): (r: seq<T>)
    ensures |r| == |s|
  {
    if s == [] then [] else Reversed(s[1..]) + [s[0]]
  }

  /** Element k of the reversal is element |s|-1-k of the original. */
  lemma {:induction false} ReversedAt<T>(s: seq<T>, k: nat)
    requires k < |s|
    ensures Reversed(s)[k] == s[|s| - 1 - k]
  {
    if k < |s| - 1 {
      ReversedAt(s[1..], k);
    }
  }

  /** The last `n` elements of `s`, or all of them when there are fewer (a Python `s[-n:]` for n > 0). */
  function LastN<T>(s: seq<T>, n: nat): (r: seq<T>)
    ensures |r| == if |s| <= n then |s| else n
    ensures r == s[|s| - |r|..]
  {
    if |s| <= n then s else s[|s| - n..]
  }

  /** The records the history view shows, most recent first. */
  function RecentFirst(h: seq<GameRecord>): (v: seq<GameRecord>)
    ensures |v| == if |h| < HistoryLimit then |h| else HistoryLimit
  {
    Reversed(LastN(h, HistoryLimit))
  }

  /** Row i of the view is the i-th most recent game, that is h[|h|-1-i]. */
  lemma RecentFirstAt(h: seq<GameRecord>, i: nat)
    requires i < |RecentFirst(h)|
    ensures RecentFirst(h)[i] == h[|h| - 1 - i]
  {
    ReversedAt(LastN(h, HistoryLimit), i);
  }

  /** Both facts together: the view is the last ten records, most recent first. */
  lemma RecentFirstShape(h: seq<GameRecord>)
    ensures |RecentFirst(h)| == if |h| < HistoryLimit then |h| else HistoryLimit
    ensures forall i :: 0 <= i < |RecentFirst(h)| ==> RecentFirst(h)[i] == h[|h| - 1 - i]
  {
    forall i | 0 <= i < |RecentFirst(h)|
      ensures RecentFirst(h)[i] == h[|h| - 1 - i]
    {
      RecentFirstAt(h, i);
    }
  }

  /**
   The shift argument on plain sequences: if v lists the last rows of h
   newest first, and v' those of h + [r], then v' is r followed by v without
   the rows that no longer fit.
   */
  lemma ShiftDown(h: seq<GameRecord>, r: GameRecord, v: seq<GameRecord>, v': seq<GameRecord>)
    requires 0 < |v'| <= |v| + 1 && |v| <= |h|
    requires forall i :: 0 <= i < |v| ==> v[i] == h[|h| - 1 - i]
    requires forall i :: 0 <= i < |v'| ==> v'[i] == (h + [r])[|h| - i]
    ensures v'[0] == r
    ensures v'[1..] == v[..|v'| - 1]
  {
    var a, b := v'[1..], v[..|v'| - 1];
    forall i | 0 <= i < |a|
      ensures a[i] == b[i]
    {
      assert a[i] == v'[i + 1] == (h + [r])[|h| - 1 - i] == h[|h| - 1 - i];
    }
  }

  /**
   After a game is added, its record heads the view and the rest of the view
   is the previous view shifted down by one row, its oldest row dropped once
   ten rows are shown.
   */
  lemma RecentFirstAfterAppend(h: seq<GameRecord>, r: GameRecord)
    ensures |RecentFirst(h + [r])| == if |h| < HistoryLimit then |h| + 1 else HistoryLimit
    ensures RecentFirst(h + [r])[0] == r
    ensures RecentFirst(h + [r])[1..] == RecentFirst(h)[..|RecentFirst(h + [r])| - 1]
  {
    RecentFirstShape(h);
    RecentFirstShape(h + [r]);
    ShiftDown(h, r, RecentFirst(h), RecentFirst(h + [r]));
  }

  /**
   The history view as the display builds it: copy the last ten records, in
   their stored order, into a list, then walk that list backwards.
   */
  method HistoryView(history: seq<GameRecord>) returns (rows: seq<GameRecord>)
    ensures rows == RecentFirst(history)
  {
    var start := if |history| <= HistoryLimit then 0 else |history| - HistoryLimit;
    var data: seq<GameRecord> := [];
    var i := start;
    while i < |history|
      invariant start <= i <= |history|
      invariant data == history[start..i]
    {
      data := data + [history[i]];
      i := i + 1;
    }
    assert data == LastN(history, HistoryLimit);
    rows := [];
    var j := |data|;
    while j > 0
      invariant 0 <= j <= |data|
      invariant rows == Reversed(data[j..])
    {
      j := j - 1;
      assert data[j..][1..] == data[j + 1..];
      rows := rows + [data[j]];
    }
    assert data[0..] == data;
  }
}
