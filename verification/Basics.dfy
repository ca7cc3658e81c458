/** Small vocabulary shared by every module: optional values, string tests and
    the byte-wise path order the mirror iterates in. */
module Basics {

  datatype Option<+T> = None | Some(value: T)

  predicate HasPrefix(s: string, prefix: string) {
    prefix <= s
  }

  predicate HasSuffix(s: string, suffix: string) {
    |suffix| <= |s| && s[|s| - |suffix|..] == suffix
  }

  function Lookup<K, V>(m: map<K, V>, k: K): Option<V> {
    if k in m then Some(m[k]) else None
  }

  ghost predicate NoDuplicates<T>(s: seq<T>) {
    forall i, j :: 0 <= i < j < |s| ==> s[i] != s[j]
  }

  lemma SuffixOfConcat(a: string, b: string)
    ensures HasSuffix(a + b, b)
  {
    assert (a + b)[|a|..] == b;
  }

  // ---- The order of sort.Strings: lexicographic by code point ----

  predicate LexLeq(a: string, b: string) {
    a == "" || (b != "" && (a[0] < b[0] || (a[0] == b[0] && LexLeq(a[1..], b[1..]))))
  }

  lemma {:induction false} LexTotal(a: string, b: string)
    ensures LexLeq(a, b) || LexLeq(b, a)
  {
    if a != "" && b != "" && a[0] == b[0] {
      LexTotal(a[1..], b[1..]);
    }
  }

  lemma {:induction false} LexAntisymmetric(a: string, b: string)
    requires LexLeq(a, b) && LexLeq(b, a)
    ensures a == b
  {
    if a != "" && b != "" {
      LexAntisymmetric(a[1..], b[1..]);
      assert a == [a[0]] + a[1..] && b == [b[0]] + b[1..];
    }
  }

  lemma {:induction false} LexTransitive(a: string, b: string, c: string)
    requires LexLeq(a, b) && LexLeq(b, c)
    ensures LexLeq(a, c)
  {
    if a != "" && a[0] == b[0] && b[0] == c[0] {
      LexTransitive(a[1..], b[1..], c[1..]);
    }
  }

  ghost predicate IsFirst(p: string, keys: set<string>) {
    p in keys && forall q :: q in keys ==> LexLeq(p, q)
  }

  lemma FirstExists(keys: set<string>)
    requires keys != {}
    ensures exists p :: IsFirst(p, keys)
  {
    var x :| x in keys;
    if keys == {x} {
      LexTotal(x, x);
      assert IsFirst(x, keys);
    } else {
      var rest := keys - {x};
      assert keys == rest + {x};
      FirstExists(rest);
      var m :| IsFirst(m, rest);
      LexTotal(x, m);
      LexTotal(x, x);
      if LexLeq(x, m) {
        forall q | q in keys ensures LexLeq(x, q) {
          if q != x { LexTransitive(x, m, q); }
        }
        assert IsFirst(x, keys);
      } else {
        assert IsFirst(m, keys);
      }
    }
  }

  ghost function First(keys: set<string>): (p: string)
    requires keys != {}
    ensures IsFirst(p, keys)
  {
    FirstExists(keys);
    var p :| IsFirst(p, keys);
    p
  }

  /** The keys of a map in the order sort.Strings puts them. */
  ghost function Sorted(keys: set<string>): (paths: seq<string>) {
    if keys == {} then [] else [First(keys)] + Sorted(keys - {First(keys)})
  }

  lemma {:induction false} SortedEnumerates(keys: set<string>)
    ensures NoDuplicates(Sorted(keys))
    ensures forall p :: p in Sorted(keys) <==> p in keys
  {
    if keys != {} {
      SortedEnumerates(keys - {First(keys)});
    }
  }

  lemma {:induction false} SortedIsOrdered(keys: set<string>)
    ensures forall i, j :: 0 <= i <= j < |Sorted(keys)| ==> LexLeq(Sorted(keys)[i], Sorted(keys)[j])
  {
    if keys != {} {
      var p, s, rest := First(keys), Sorted(keys), Sorted(keys - {First(keys)});
      SortedIsOrdered(keys - {p});
      SortedEnumerates(keys);
      forall i, j | 0 <= i <= j < |s| ensures LexLeq(s[i], s[j]) {
        if i == 0 {
          assert s[j] in s;
        } else {
          assert s[i] == rest[i - 1] && s[j] == rest[j - 1];
        }
      }
    }
  }

  method FirstOf(keys: set<string>) returns (least: string)
    requires keys != {}
    ensures IsFirst(least, keys)
  {
    least :| least in keys;
    var unseen := keys - {least};
    LexTotal(least, least);
    while unseen != {}
      invariant least in keys && unseen <= keys
      invariant forall q :: q in keys && q !in unseen ==> LexLeq(least, q)
      decreases |unseen|
    {
      var q :| q in unseen;
      LexTotal(least, q);
      LexTotal(q, q);
      if !LexLeq(least, q) {
        forall r | r in keys && r !in unseen ensures LexLeq(q, r) {
          LexTransitive(q, least, r);
        }
        least := q;
      }
      unseen := unseen - {q};
    }
  }

  /** sortedPaths: the map keys, sorted. */
  method SortedPaths(keys: set<string>) returns (paths: seq<string>)
    ensures paths == Sorted(keys)
  {
    paths := [];
    var rest := keys;
    while rest != {}
      invariant Sorted(keys) == paths + Sorted(rest)
      decreases |rest|
    {
      var least := FirstOf(rest);
      LexAntisymmetric(least, First(rest));
      paths := paths + [least];
      rest := rest - {least};
    }
  }
}
