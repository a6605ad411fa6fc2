/**
 * The key string `Cache._get_cache_key` builds before hashing: the function name, the
 * positional arguments in order, then the keyword arguments as `k=v` sorted by name,
 * all joined by ':'. Arguments arrive already converted with `str()`.
 */
module CacheKey {
  import opened Text

  /** Python's `<` on `str`: lexicographic order by code point. */
  predicate Below(a: string, b: string)
    decreases |a|
  {
    if a == [] then b != []
    else b != [] && (a[0] < b[0] || (a[0] == b[0] && Below(a[1..], b[1..])))
  }

  lemma {:induction false} BelowIrreflexive(a: string)
    ensures !Below(a, a)
    decreases |a|
  {
    if a != [] {
      BelowIrreflexive(a[1..]);
    }
  }

  lemma {:induction false} BelowTransitive(a: string, b: string, c: string)
    requires Below(a, b) && Below(b, c)
    ensures Below(a, c)
    decreases |a|
  {
    if a != [] && a[0] == b[0] && b[0] == c[0] {
      BelowTransitive(a[1..], b[1..], c[1..]);
    }
  }

  lemma {:induction false} BelowTotal(a: string, b: string)
    requires a != b
    ensures Below(a, b) || Below(b, a)
    decreases |a|
  {
    if a != [] && b != [] && a[0] == b[0] {
      assert a == [a[0]] + a[1..] && b == [b[0]] + b[1..];
      BelowTotal(a[1..], b[1..]);
    }
  }

  lemma {:induction false} BelowAsymmetric(a: string, b: string)
    requires Below(a, b)
    ensures !Below(b, a)
  {
    if Below(b, a) {
      BelowTransitive(a, b, a);
      BelowIrreflexive(a);
    }
  }

  /** Keyword arguments in dictionary insertion order: name and `str()` of the value. */
  type Kwargs = seq<(string, string)>

  /** A dictionary never holds one name twice. */
  predicate DistinctNames(kw: Kwargs) {
    forall i, j :: 0 <= i < j < |kw| ==> kw[i].0 != kw[j].0
  }

  predicate SortedByName(kw: Kwargs) {
    forall i, j :: 0 <= i < j < |kw| ==> Below(kw[i].0, kw[j].0)
  }

  lemma {:induction false} SortedCons(x: (string, string), kw: Kwargs)
    requires SortedByName(kw)
    requires forall q :: q in kw ==> Below(x.0, q.0)
    ensures SortedByName([x] + kw)
  {
    var r := [x] + kw;
    forall i, j | 0 <= i < j < |r| ensures Below(r[i].0, r[j].0) {
      if i == 0 {
        assert r[j] == kw[j - 1];
      } else {
        assert r[i] == kw[i - 1] && r[j] == kw[j - 1];
      }
    }
  }

  lemma {:induction false} SortedTail(a: Kwargs)
    requires a != [] && SortedByName(a)
    ensures SortedByName(a[1..])
  {
    forall i, j | 0 <= i < j < |a| - 1 ensures Below(a[1..][i].0, a[1..][j].0) {
      assert a[1..][i] == a[i + 1] && a[1..][j] == a[j + 1];
    }
  }

  /** A name below the first of a sorted list is below all of them. */
  lemma {:induction false} BelowFirstBelowAll(p: (string, string), kw: Kwargs)
    requires kw != [] && SortedByName(kw) && Below(p.0, kw[0].0)
    ensures forall q :: q in kw ==> Below(p.0, q.0)
  {
    forall q | q in kw ensures Below(p.0, q.0) {
      var j :| 0 <= j < |kw| && kw[j] == q;
      if j > 0 {
        BelowTransitive(p.0, kw[0].0, kw[j].0);
      }
    }
  }

  /** The first of a sorted list is below every pair of the rest and below any other
      name above it. */
  lemma {:induction false} FirstBelowRest(p: (string, string), kw: Kwargs, tail: Kwargs)
    requires kw != [] && SortedByName(kw)
    requires p.0 != kw[0].0 && !Below(p.0, kw[0].0)
    requires multiset(tail) == multiset(kw[1..]) + multiset{p}
    ensures forall q :: q in tail ==> Below(kw[0].0, q.0)
  {
    forall q | q in tail ensures Below(kw[0].0, q.0) {
      assert q in multiset(tail);
      if q == p {
        BelowTotal(p.0, kw[0].0);
      } else {
        assert q in multiset(kw[1..]);
        var j :| 0 <= j < |kw[1..]| && kw[1..][j] == q;
        assert kw[j + 1] == q;
      }
    }
  }

  /** Inserts one pair into a name-sorted list whose names all differ from its own. */
  function Insert(p: (string, string), kw: Kwargs): (r: Kwargs)
    requires SortedByName(kw)
    requires forall q :: q in kw ==> q.0 != p.0
    ensures SortedByName(r)
    ensures multiset(r) == multiset(kw) + multiset{p} && |r| == |kw| + 1
    decreases |kw|
  {
    if kw == [] then [p]
    else if Below(p.0, kw[0].0) then
      BelowFirstBelowAll(p, kw);
      SortedCons(p, kw);
      [p] + kw
    else
      SortedTail(kw);
      assert forall q :: q in kw[1..] ==> q in kw;
      var tail := Insert(p, kw[1..]);
      FirstBelowRest(p, kw, tail);
      SortedCons(kw[0], tail);
      assert kw == [kw[0]] + kw[1..];
      [kw[0]] + tail
  }

  lemma {:induction false} DistinctTail(kw: Kwargs)
    requires kw != [] && DistinctNames(kw)
    ensures DistinctNames(kw[1..])
  {
    forall i, j | 0 <= i < j < |kw| - 1 ensures kw[1..][i].0 != kw[1..][j].0 {
      assert kw[1..][i] == kw[i + 1] && kw[1..][j] == kw[j + 1];
    }
  }

  /** The first name differs from every name in any rearrangement of the rest. */
  lemma {:induction false} HeadNotInTail(kw: Kwargs, tail: Kwargs)
    requires kw != [] && DistinctNames(kw) && multiset(tail) == multiset(kw[1..])
    ensures forall q :: q in tail ==> q.0 != kw[0].0
  {
    forall q | q in tail ensures q.0 != kw[0].0 {
      assert q in multiset(kw[1..]);
      var j :| 0 <= j < |kw[1..]| && kw[1..][j] == q;
      assert kw[j + 1] == q;
    }
  }

  /** `sorted(kwargs.items())`: with distinct names only the names are ever compared. */
  function SortByName(kw: Kwargs): (r: Kwargs)
    requires DistinctNames(kw)
    ensures SortedByName(r)
    ensures multiset(r) == multiset(kw) && |r| == |kw|
    decreases |kw|
  {
    if kw == [] then []
    else
      DistinctTail(kw);
      var tail := SortByName(kw[1..]);
      HeadNotInTail(kw, tail);
      assert kw == [kw[0]] + kw[1..];
      Insert(kw[0], tail)
  }

  /** Two name-sorted lists with the same pairs start with the same pair. */
  lemma {:induction false} SortedSameHead(a: Kwargs, b: Kwargs)
    requires SortedByName(a) && SortedByName(b)
    requires multiset(a) == multiset(b) && a != []
    ensures b != [] && a[0] == b[0]
  {
    assert a[0] in multiset(b);
    if a[0] != b[0] {
      assert b[0] in multiset(a);
      var i :| 0 <= i < |a| && a[i] == b[0];
      var j :| 0 <= j < |b| && b[j] == a[0];
      assert Below(a[0].0, b[0].0) && Below(b[0].0, a[0].0);
      BelowAsymmetric(a[0].0, b[0].0);
    }
  }

  lemma {:induction false} SameTails(a: Kwargs, b: Kwargs)
    requires a != [] && b != [] && a[0] == b[0] && multiset(a) == multiset(b)
    ensures multiset(a[1..]) == multiset(b[1..])
  {
    assert a == [a[0]] + a[1..] && b == [b[0]] + b[1..];
    assert multiset(a[1..]) == multiset(a) - multiset{a[0]};
    assert multiset(b[1..]) == multiset(b) - multiset{b[0]};
  }

  /** Two name-sorted lists with the same pairs are the same list. */
  lemma {:induction false} SortedUnique(a: Kwargs, b: Kwargs)
    requires SortedByName(a) && SortedByName(b)
    requires multiset(a) == multiset(b)
    ensures a == b
    decreases |a|
  {
    if a == [] {
      assert |b| == |multiset(b)| == 0;
    } else {
      SortedSameHead(a, b);
      SameTails(a, b);
      SortedTail(a);
      SortedTail(b);
      SortedUnique(a[1..], b[1..]);
      assert a == [a[0]] + a[1..] && b == [b[0]] + b[1..];
    }
  }

  /** The `k=v` rendering of each keyword pair, in the given order. */
  function KwargParts(kw: Kwargs): (parts: seq<string>)
    ensures |parts| == |kw|
    ensures forall i :: 0 <= i < |kw| ==> parts[i] == kw[i].0 + "=" + kw[i].1
  {
    seq(|kw|, i requires 0 <= i < |kw| => kw[i].0 + "=" + kw[i].1)
  }

  /** The parts `_get_cache_key` joins: the function name, the positional arguments,
      then the keyword arguments sorted by name. */
  function KeyParts(name: string, args: seq<string>, kw: Kwargs): seq<string>
    requires DistinctNames(kw)
  {
    [name] + args + KwargParts(SortByName(kw))
  }

  /** The string `_get_cache_key` hashes. */
  function KeyString(name: string, args: seq<string>, kw: Kwargs): string
    requires DistinctNames(kw)
  {
    Join(":", KeyParts(name, args, kw))
  }

  /** Reordering the keyword arguments never changes the key string. */
  lemma {:induction false} KeyIgnoresKwargOrder(name: string, args: seq<string>, kw1: Kwargs, kw2: Kwargs)
    requires DistinctNames(kw1) && DistinctNames(kw2)
    requires multiset(kw1) == multiset(kw2)
    ensures KeyString(name, args, kw1) == KeyString(name, args, kw2)
  {
    SortedUnique(SortByName(kw1), SortByName(kw2));
  }

  /** Sorting keeps the pairs, so no sorted `k=v` part holds ':' when no input pair does. */
  lemma {:induction false} SortedPartsNoColon(kw: Kwargs)
    requires DistinctNames(kw)
    requires forall i :: 0 <= i < |kw| ==> ':' !in kw[i].0 + "=" + kw[i].1
    ensures forall i :: 0 <= i < |kw| ==> ':' !in KwargParts(SortByName(kw))[i]
  {
    var sorted := SortByName(kw);
    forall i | 0 <= i < |kw| ensures ':' !in KwargParts(sorted)[i] {
      assert sorted[i] in multiset(kw);
      var j :| 0 <= j < |kw| && kw[j] == sorted[i];
    }
  }

  lemma {:induction false} NoColonInParts(name: string, args: seq<string>, kp: seq<string>)
    requires ':' !in name
    requires forall i :: 0 <= i < |args| ==> ':' !in args[i]
    requires forall i :: 0 <= i < |kp| ==> ':' !in kp[i]
    ensures forall k :: 0 <= k < |[name] + args + kp| ==> ':' !in ([name] + args + kp)[k]
  {
    var parts := [name] + args + kp;
    forall k | 0 <= k < |parts| ensures ':' !in parts[k] {
      if k == 0 {
        assert parts[k] == name;
      } else if k <= |args| {
        assert parts[k] == args[k - 1];
      } else {
        assert parts[k] == kp[k - 1 - |args|];
      }
    }
  }

  /** The pieces of the key, with no ':' inside any of them. */
  lemma {:induction false} KeyPartsNoColon(name: string, args: seq<string>, kw: Kwargs)
    requires DistinctNames(kw)
    requires ':' !in name
    requires forall i :: 0 <= i < |args| ==> ':' !in args[i]
    requires forall i :: 0 <= i < |kw| ==> ':' !in kw[i].0 + "=" + kw[i].1
    ensures forall k :: 0 <= k < |KeyParts(name, args, kw)| ==> ':' !in KeyParts(name, args, kw)[k]
  {
    SortedPartsNoColon(kw);
    NoColonInParts(name, args, KwargParts(SortByName(kw)));
  }

  /** When no piece holds ':', the key string splits back into the name, the positional
      arguments in order, and the `k=v` pairs in ascending name order. */
  lemma {:induction false} KeyStringLayout(name: string, args: seq<string>, kw: Kwargs)
    requires DistinctNames(kw)
    requires ':' !in name
    requires forall i :: 0 <= i < |args| ==> ':' !in args[i]
    requires forall i :: 0 <= i < |kw| ==> ':' !in kw[i].0 + "=" + kw[i].1
    ensures Split(KeyString(name, args, kw), ':') == [name] + args + KwargParts(SortByName(kw))
  {
    KeyPartsNoColon(name, args, kw);
    SplitOfJoin(KeyParts(name, args, kw), ':');
  }

  /** The key string is not injective: a ':' inside an argument is indistinguishable
      from the separator, so `f("a:b")` and `f("a", "b")` share one key. */
  lemma {:induction false} KeyStringCollides()
    ensures KeyString("f", ["a:b"], []) == KeyString("f", ["a", "b"], [])
  {
  }
}
