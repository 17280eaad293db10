/** Maps kept in the order of their string keys, each key once. */
module OrderedMaps {
  import opened Wrappers
  import opened Sorting

  datatype Pair<+V> = Pair(key: string, value: V)

  ghost predicate IsOrdered<V>(m: seq<Pair<V>>) {
    forall i, j :: 0 <= i < j < |m| ==> Less(m[i].key, m[j].key)
  }

  function Get<V>(m: seq<Pair<V>>, k: string): Option<V> {
    if m == [] then None else if m[0].key == k then Some(m[0].value) else Get(m[1..], k)
  }

  function Put<V>(m: seq<Pair<V>>, k: string, v: V): seq<Pair<V>> {
    if m == [] || Less(k, m[0].key) then [Pair(k, v)] + m
    else if m[0].key == k then [Pair(k, v)] + m[1..]
    else [m[0]] + Put(m[1..], k, v)
  }

  lemma TailIsOrdered<V>(m: seq<Pair<V>>)
    requires m != [] && IsOrdered(m)
    ensures IsOrdered(m[1..])
  {
  }

  lemma {:induction false} KeysBelowAreAbsent<V>(m: seq<Pair<V>>, k: string)
    requires IsOrdered(m) && (m != [] ==> Less(k, m[0].key))
    ensures Get(m, k) == None
  {
    if m != [] {
      LessIsStrict(k, m[0].key);
      if |m| > 1 {
        LessIsTransitive(k, m[0].key, m[1].key);
      }
      KeysBelowAreAbsent(m[1..], k);
    }
  }

  lemma PrependIsOrdered<V>(p: Pair<V>, m: seq<Pair<V>>)
    requires IsOrdered(m) && (m != [] ==> Less(p.key, m[0].key))
    ensures IsOrdered([p] + m)
  {
    forall j | 0 <= j < |m| ensures Less(p.key, m[j].key) {
      if j > 0 {
        LessIsTransitive(p.key, m[0].key, m[j].key);
      }
    }
  }

  lemma {:induction false} PutKeepsOrder<V>(m: seq<Pair<V>>, k: string, v: V)
    requires IsOrdered(m)
    ensures IsOrdered(Put(m, k, v))
    ensures Put(m, k, v) != [] && (Put(m, k, v)[0].key == k || (m != [] && Put(m, k, v)[0] == m[0]))
  {
    if m == [] || Less(k, m[0].key) {
      PrependIsOrdered(Pair(k, v), m);
    } else if m[0].key == k {
      TailIsOrdered(m);
      PrependIsOrdered(Pair(k, v), m[1..]);
    } else {
      TailIsOrdered(m);
      PutKeepsOrder(m[1..], k, v);
      LessIsStrict(k, m[0].key);
      PrependIsOrdered(m[0], Put(m[1..], k, v));
    }
  }

  lemma {:induction false} GetAfterPut<V>(m: seq<Pair<V>>, k: string, v: V, other: string)
    requires IsOrdered(m)
    ensures Get(Put(m, k, v), other) == if other == k then Some(v) else Get(m, other)
  {
    if m == [] || Less(k, m[0].key) {
      assert ([Pair(k, v)] + m)[1..] == m;
    } else if m[0].key == k {
      assert ([Pair(k, v)] + m[1..])[1..] == m[1..];
    } else {
      TailIsOrdered(m);
      GetAfterPut(m[1..], k, v, other);
      assert ([m[0]] + Put(m[1..], k, v))[1..] == Put(m[1..], k, v);
    }
  }

  lemma {:induction false} GetAtIndex<V>(m: seq<Pair<V>>, i: nat)
    requires IsOrdered(m) && i < |m|
    ensures Get(m, m[i].key) == Some(m[i].value)
  {
    if i > 0 {
      LessIsStrict(m[0].key, m[i].key);
      TailIsOrdered(m);
      GetAtIndex(m[1..], i - 1);
    }
  }

  lemma {:induction false} IndexOf<V>(m: seq<Pair<V>>, k: string) returns (i: nat)
    requires Get(m, k).Some?
    ensures i < |m| && m[i] == Pair(k, Get(m, k).value)
  {
    if m[0].key == k {
      i := 0;
    } else {
      var j := IndexOf(m[1..], k);
      i := j + 1;
    }
  }
}
