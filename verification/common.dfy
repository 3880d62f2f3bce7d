/** Small shared vocabulary: optional values, results, and the clock readings
    that every handler takes as a parameter instead of calling `Date.now()`. */
module Common {

  datatype Option<+T> = None | Some(value: T)

  datatype Result<+T, +E> = Ok(value: T) | Err(error: E)

  /** One reading of the server clock: epoch milliseconds (what `Date.now()`
      returns, also used as message and queue-item id) and the same instant
      rendered by `toLocaleTimeString('ja-JP')`. */
  datatype Clock = Clock(millis: int, localTime: string)

  /** A Socket.IO connection id. */
  type SocketId = string

  /** No element occurs twice: the keys of a JavaScript `Map` in iteration
      order. */
  predicate Distinct<K(==)>(s: seq<K>)
  {
    forall i, j :: 0 <= i < j < |s| ==> s[i] != s[j]
  }

  /** Removing one element of a sequence without repetitions keeps it
      without repetitions and loses exactly that element. */
  lemma RemoveDistinct<K>(s: seq<K>, i: nat)
    requires i < |s| && Distinct(s)
    ensures Distinct(s[..i] + s[i + 1..])
    ensures forall k :: k in s[..i] + s[i + 1..] <==> k in s && k != s[i]
  {
    var r := s[..i] + s[i + 1..];
    forall a, b | 0 <= a < b < |r| ensures r[a] != r[b] {
      var a' := if a < i then a else a + 1;
      var b' := if b < i then b else b + 1;
      assert r[a] == s[a'] && r[b] == s[b'];
    }
    forall k ensures k in r <==> k in s && k != s[i] {
      if k in s && k != s[i] {
        var j :| 0 <= j < |s| && s[j] == k;
        if j < i { assert r[j] == k; } else { assert r[j - 1] == k; }
      }
    }
  }

  /** Dropping the last element of a sequence without repetitions keeps it
      without repetitions, and the last element is not among the rest. */
  lemma DistinctInit<K>(s: seq<K>)
    requires |s| > 0 && Distinct(s)
    ensures Distinct(s[..|s| - 1]) && s[|s| - 1] !in s[..|s| - 1]
  {
    var init := s[..|s| - 1];
    forall a, b | 0 <= a < b < |init| ensures init[a] != init[b] {
      assert init[a] == s[a] && init[b] == s[b];
    }
    forall a | 0 <= a < |init| ensures init[a] != s[|s| - 1] {
      assert init[a] == s[a];
    }
  }

  /** A sequence without repetitions has as many elements as the set of
      them. */
  lemma {:induction false} DistinctCard<K>(s: seq<K>, keys: set<K>)
    requires Distinct(s)
    requires forall k :: k in keys <==> k in s
    ensures |keys| == |s|
    decreases |s|
  {
    if s != [] {
      var last := s[|s| - 1];
      var init := s[..|s| - 1];
      assert forall k :: k in keys - {last} <==> k in init by {
        forall k ensures k in keys - {last} <==> k in init {
          if k in init {
            var j :| 0 <= j < |init| && init[j] == k;
            assert s[j] == k;
          }
          if k in s && k != last {
            var j :| 0 <= j < |s| && s[j] == k;
            assert j < |s| - 1;
            assert init[j] == k;
          }
        }
      }
      DistinctCard(init, keys - {last});
    }
  }
}
