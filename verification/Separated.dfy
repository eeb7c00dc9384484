/** Parts written one after the other, a separator before each but the first, a closer at the end. */
module Separated {
  import opened Segments

  function Sep<T>(k: nat, sep: T): seq<T> { if k == 0 then [] else [sep] }

  ghost function Joined<T>(parts: seq<seq<T>>, k: nat, sep: T, closer: T): seq<T>
    requires k <= |parts|
    decreases |parts| - k
  {
    if k == |parts| then [closer]
    else Sep(k, sep) + (parts[k] + Joined(parts, k + 1, sep, closer))
  }

  /** The parts from an index on stand at a position, with their separators and the closer, up to `stop`. */
  ghost predicate LaidOut<T>(s: seq<T>, pos: nat, parts: seq<seq<T>>, k: nat, sep: T, closer: T, stop: nat)
    requires k <= |parts|
    decreases |parts| - k
  {
    if k == |parts| then pos < |s| && s[pos] == closer && stop == pos + 1
    else
      var at := pos + |Sep(k, sep)|;
      && at < |s| && (k > 0 ==> s[pos] == sep)
      && At(s, at, parts[k])
      && LaidOut(s, at + |parts[k]|, parts, k + 1, sep, closer, stop)
  }

  /** Where a part and the rest of the list stand. */
  lemma {:induction false} Layout<T>(s: seq<T>, pos: nat, parts: seq<seq<T>>, k: nat, sep: T, closer: T)
    requires k < |parts| && At(s, pos, Joined(parts, k, sep, closer))
    ensures var at := pos + |Sep(k, sep)|;
            && (k > 0 ==> pos < |s| && s[pos] == sep)
            && At(s, at, parts[k])
            && At(s, at + |parts[k]|, Joined(parts, k + 1, sep, closer))
            && |Joined(parts, k, sep, closer)| == |Sep(k, sep)| + |parts[k]| + |Joined(parts, k + 1, sep, closer)|
  {
    var head, tail := Sep(k, sep), Joined(parts, k + 1, sep, closer);
    AtSplit(s, pos, head, parts[k] + tail);
    AtSplit(s, pos + |head|, parts[k], tail);
    if k > 0 { AtHead(s, pos, sep, []); }
  }

  lemma {:induction false} JoinedLaidOut<T>(s: seq<T>, pos: nat, parts: seq<seq<T>>, k: nat, sep: T, closer: T, stop: nat)
    requires k <= |parts| && At(s, pos, Joined(parts, k, sep, closer))
    requires stop == pos + |Joined(parts, k, sep, closer)|
    ensures LaidOut(s, pos, parts, k, sep, closer, stop) && pos < |s|
    decreases |parts| - k
  {
    if k == |parts| {
      AtHead(s, pos, closer, []);
    } else {
      Layout(s, pos, parts, k, sep, closer);
      JoinedLaidOut(s, pos + |Sep(k, sep)| + |parts[k]|, parts, k + 1, sep, closer, stop);
    }
  }
}
