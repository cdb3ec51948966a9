/** Optional values: Python's `None` and JavaScript's `null`/`-1` sentinels. */
module Wrappers {

  datatype Option<+T> = None | Some(value: T) {

    /** The value in `Some`, or `default` when `None`. */
    function GetOr(default: T): T {
      match this
      case Some(v) => v
      case None => default
    }
  }

  /** Python's `d.get(k, default)` on a map. */
  function Get<K, V>(m: map<K, V>, k: K, default: V): (v: V)
    ensures k in m ==> v == m[k]
    ensures k !in m ==> v == default
  {
    if k in m then m[k] else default
  }

  /** Python's slice `s[:stop]`: a negative `stop` counts from the end and
      both ends are clamped to the sequence. */
  function PyPrefix<T>(s: seq<T>, stop: int): (r: seq<T>)
    ensures 0 <= stop ==> r == s[..if stop <= |s| then stop else |s|]
    ensures stop < 0 ==> r == s[..if -stop <= |s| then |s| + stop else 0]
    ensures |r| <= |s| && r <= s
  {
    var k := if stop >= 0 then (if stop <= |s| then stop else |s|)
             else (if -stop <= |s| then |s| + stop else 0);
    s[..k]
  }
}
