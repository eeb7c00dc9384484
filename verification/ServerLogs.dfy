/** The capped list of server log lines of one environment. */
module ServerLogs {
  import opened Clock

  const CAP := 1000
  const TTL := 24 * HOUR

  /** The last `n` elements, or all of them. */
  function Last<T>(n: nat, s: seq<T>): seq<T> {
    if |s| <= n then s else s[|s| - n..]
  }

  /** As many of the last elements as asked for, or all there are. */
  lemma {:induction false} LastIsSuffix<T>(n: nat, s: seq<T>)
    ensures |Last(n, s)| == if n < |s| then n else |s|
    ensures exists front :: s == front + Last(n, s)
  {
    assert s == s[..|s| - |Last(n, s)|] + Last(n, s);
  }

  /** Trimming early does not show: what is kept of kept lines is what is kept of all. */
  lemma {:induction false} LastOfLast<T>(n: nat, a: seq<T>, b: seq<T>)
    ensures Last(n, Last(n, a) + b) == Last(n, a + b)
  {
  }

  lemma {:induction false} LastShorter<T>(m: nat, n: nat, s: seq<T>)
    requires m <= n
    ensures Last(m, Last(n, s)) == Last(m, s)
  {
  }

  /** An append of a batch of lines at an instant. */
  datatype Append<T> = Append(lines: seq<T>, at: int)

  /** When the key expires after the first `k` appends; empty batches do not touch it. */
  function Expiry<T>(history: seq<Append<T>>, k: nat): int
    requires k <= |history|
  {
    if k == 0 then 0 else if history[k - 1].lines == [] then Expiry(history, k - 1) else history[k - 1].at + TTL
  }

  /** All lines appended since the key was last found expired. */
  function Stream<T>(history: seq<Append<T>>, k: nat): seq<T>
    requires k <= |history|
  {
    if k == 0 then []
    else if history[k - 1].lines == [] then Stream(history, k - 1)
    else (if history[k - 1].at < Expiry(history, k - 1) then Stream(history, k - 1) else []) + history[k - 1].lines
  }

  function Concat<T>(history: seq<Append<T>>, k: nat): seq<T>
    requires k <= |history|
  {
    if k == 0 then [] else Concat(history, k - 1) + history[k - 1].lines
  }

  /** Every batch arrives before the key left by the lines before it expires. */
  ghost predicate NeverExpires<T>(history: seq<Append<T>>) {
    forall k :: 0 <= k < |history| && history[k].lines != [] && Concat(history, k) != [] ==> history[k].at < Expiry(history, k)
  }

  /** Without an expiry the stream is everything ever appended. */
  lemma {:induction false} StreamIsEverything<T>(history: seq<Append<T>>, k: nat)
    requires k <= |history| && NeverExpires(history)
    ensures Stream(history, k) == Concat(history, k)
  {
    if k > 0 {
      StreamIsEverything(history, k - 1);
      assert Concat(history, k - 1) + [] == Concat(history, k - 1);
    }
  }

  lemma {:induction false} SnocKeeps<T>(history: seq<Append<T>>, a: Append<T>, k: nat)
    requires k <= |history|
    ensures Expiry(history + [a], k) == Expiry(history, k) && Stream(history + [a], k) == Stream(history, k)
  {
    if k > 0 { SnocKeeps(history, a, k - 1); }
  }

  /** Lines that come a day or more after the last batch start a new stream; before that they go on with the old one. */
  lemma {:induction false} DayStartsAnew<T>(history: seq<Append<T>>, last: Append<T>, next: Append<T>)
    requires last.lines != [] && next.lines != []
    ensures var n := |history|;
            Stream(history + [last] + [next], n + 2) ==
            (if next.at < last.at + 86_400_000_000_000 then Stream(history + [last], n + 1) else []) + next.lines
  {
    SnocKeeps(history + [last], next, |history| + 1);
  }

  /** LRANGE or LTRIM with the bounds -n and -1, for positive n. */
  function Suffix<T>(s: seq<T>, n: int): seq<T>
    requires n > 0
  {
    var start := |s| - n;
    s[if start < 0 then 0 else start..]
  }

  lemma {:induction false} SuffixIsLast<T>(s: seq<T>, n: int)
    requires n > 0
    ensures Suffix(s, n) == Last(n, s)
  {
  }

  lemma {:induction false} NothingLasts<T>(n: nat)
    ensures Last<T>(n, []) == []
  {
  }

  lemma {:induction false} PushNext<T>(front: seq<T>, lines: seq<T>, i: nat)
    requires i < |lines|
    ensures (front + lines[..i]) + [lines[i]] == front + lines[..i + 1]
  {
  }

  method PushAll<T>(list: seq<T>, lines: seq<T>) returns (r: seq<T>)
    ensures r == list + lines
  {
    r := list;
    for i := 0 to |lines|
      invariant r == list + lines[..i]
    {
      PushNext(list, lines, i);
      r := r + [lines[i]];
    }
    assert lines[..|lines|] == lines;
  }

  class LogList<T> {
    var items: seq<T>
    var expiry: int
    ghost var history: seq<Append<T>>

    ghost predicate Valid()
      reads this
    {
      expiry == Expiry(history, |history|) && items == Last(CAP, Stream(history, |history|))
    }

    constructor ()
      ensures Valid() && history == []
    {
      items, expiry, history := [], 0, [];
    }

    /** The stored list stays the last thousand lines since the last expiry, whatever the batch sizes. */
    method AppendServerLogs(lines: seq<T>, now: int)
      requires Valid()
      modifies this
      ensures Valid() && history == old(history) + [Append(lines, now)]
    {
      hide Last, Suffix;
      ghost var k := |history|;
      SnocKeeps(history, Append(lines, now), k);
      history := history + [Append(lines, now)];
      if |lines| == 0 {
        return;
      }
      ghost var kept := if now < expiry then Stream(history, k) else [];
      NothingLasts<T>(CAP);
      var list := PushAll(if now >= expiry then [] else items, lines);
      SuffixIsLast(list, CAP);
      LastOfLast(CAP, kept, lines);
      items := Suffix(list, CAP);
      expiry := now + TTL;
    }

    /** The last lines, oldest first, up to the limit; a limit out of range means the cap. */
    method GetServerLogs(limit: int, now: int) returns (r: seq<T>)
      requires Valid()
      ensures r == if now >= Expiry(history, |history|) then []
                   else Last(if limit <= 0 || limit > 1000 then 1000 else limit, Stream(history, |history|))
    {
      var n := limit;
      if n <= 0 || n > CAP {
        n := CAP;
      }
      if now >= expiry {
        return [];
      }
      SuffixIsLast(items, n);
      LastShorter(n, CAP, Stream(history, |history|));
      r := Suffix(items, n);
    }
  }
}
