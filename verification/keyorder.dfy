/**
 * Ordering of parameter sets before signing (private.c, str_compare and
 * sdb_params_sort). Comparison is strcasecmp: byte-wise lexicographic
 * order after folding ASCII upper case to lower case, a proper prefix
 * ordering first. qsort is not stable, so the model sorts with a fixed
 * algorithm and proves that, when the folded sort keys are distinct,
 * every sorted permutation is the same sequence.
 */
module KeyOrder {
  import opened Params

  /** tolower on one byte: only ASCII A-Z change. */
  function Lower(c: char): char
  {
    if 'A' <= c <= 'Z' then (c as int + 32) as char else c
  }

  function Fold(s: string): (r: string)
    ensures |r| == |s|
  {
    seq(|s|, i requires 0 <= i < |s| => Lower(s[i]))
  }

  /** strcmp(a, b) <= 0 for strings without an embedded NUL. */
  predicate LexLe(a: string, b: string)
    decreases |a|
  {
    |a| == 0 || (|b| > 0 && (a[0] < b[0] || (a[0] == b[0] && LexLe(a[1..], b[1..]))))
  }

  lemma {:induction false} LexLeTotal(a: string, b: string)
    ensures LexLe(a, b) || LexLe(b, a)
    decreases |a|
  {
    if |a| > 0 && |b| > 0 && a[0] == b[0] {
      LexLeTotal(a[1..], b[1..]);
    }
  }

  lemma {:induction false} LexLeTrans(a: string, b: string, c: string)
    requires LexLe(a, b) && LexLe(b, c)
    ensures LexLe(a, c)
    decreases |a|
  {
    if |a| > 0 && a[0] == b[0] && b[0] == c[0] {
      LexLeTrans(a[1..], b[1..], c[1..]);
    }
  }

  lemma {:induction false} LexLeAntisym(a: string, b: string)
    requires LexLe(a, b) && LexLe(b, a)
    ensures a == b
    decreases |a|
  {
    if |a| > 0 {
      LexLeAntisym(a[1..], b[1..]);
      assert a == [a[0]] + a[1..];
      assert b == [b[0]] + b[1..];
    }
  }

  /** strcasecmp(a, b) <= 0. */
  predicate CaseLe(a: string, b: string)
  {
    LexLe(Fold(a), Fold(b))
  }

  /** Sorted in strcasecmp order of the given sort key. */
  predicate SortedBy(s: seq<Pair>, rank: Pair -> string)
  {
    forall i, j :: 0 <= i < j < |s| ==> CaseLe(rank(s[i]), rank(s[j]))
  }

  /** Insert x into a sorted sequence after every element not above it. */
  function InsertBy(x: Pair, s: seq<Pair>, rank: Pair -> string): (r: seq<Pair>)
    requires SortedBy(s, rank)
    ensures SortedBy(r, rank)
    ensures multiset(r) == multiset(s) + multiset{x}
    ensures |r| == |s| + 1
  {
    if |s| == 0 then [x]
    else if CaseLe(rank(x), rank(s[0])) then
      assert forall j :: 0 < j < |s| ==> CaseLe(rank(s[0]), rank(s[j]));
      forall j | 0 <= j < |s| ensures CaseLe(rank(x), rank(s[j])) {
        if j > 0 {
          LexLeTrans(Fold(rank(x)), Fold(rank(s[0])), Fold(rank(s[j])));
        }
      }
      [x] + s
    else
      LexLeTotal(Fold(rank(x)), Fold(rank(s[0])));
      var t := InsertBy(x, s[1..], rank);
      assert s == [s[0]] + s[1..];
      forall j | 0 <= j < |t| ensures CaseLe(rank(s[0]), rank(t[j])) {
        assert t[j] in multiset(t);
        assert t[j] == x || t[j] in multiset(s[1..]);
        if t[j] != x {
          var k :| 0 <= k < |s[1..]| && s[1..][k] == t[j];
          assert s[k + 1] == t[j];
        }
      }
      [s[0]] + t
  }

  /** Insertion sort in strcasecmp order of the given sort key. */
  function SortBy(s: seq<Pair>, rank: Pair -> string): (r: seq<Pair>)
    ensures SortedBy(r, rank)
    ensures multiset(r) == multiset(s)
    ensures |r| == |s|
  {
    if |s| == 0 then []
    else
      assert s == [s[0]] + s[1..];
      InsertBy(s[0], SortBy(s[1..], rank), rank)
  }

  /** No two pairs share a sort key, even ignoring case. */
  predicate DistinctRanks(s: seq<Pair>, rank: Pair -> string)
  {
    forall i, j :: 0 <= i < j < |s| ==> Fold(rank(s[i])) != Fold(rank(s[j]))
  }

  /**
   * Two sorted permutations of the same pairs are equal when no two sort
   * keys coincide: whichever order qsort picks, the result is SortBy's.
   */
  lemma {:induction false} SortedUnique(a: seq<Pair>, b: seq<Pair>, rank: Pair -> string)
    requires multiset(a) == multiset(b)
    requires SortedBy(a, rank) && SortedBy(b, rank)
    requires DistinctRanks(a, rank)
    ensures a == b
    decreases |a|
  {
    assert |a| == |multiset(a)| == |multiset(b)| == |b|;
    if |a| > 0 {
      HeadIsLeast(b, a[0], rank);
      HeadIsLeast(a, b[0], rank);
      LexLeAntisym(Fold(rank(a[0])), Fold(rank(b[0])));
      assert a[0] == b[0] by {
        assert b[0] in multiset(a);
        var m :| 0 <= m < |a| && a[m] == b[0];
        assert m == 0;
      }
      TailMultiset(a, b);
      assert forall i, j :: 0 <= i < j < |a[1..]| ==> a[1..][i] == a[i + 1] && a[1..][j] == a[j + 1];
      SortedUnique(a[1..], b[1..], rank);
      assert a == [a[0]] + a[1..];
      assert b == [b[0]] + b[1..];
    }
  }

  lemma TailMultiset(a: seq<Pair>, b: seq<Pair>)
    requires |a| > 0 && |b| > 0 && a[0] == b[0] && multiset(a) == multiset(b)
    ensures multiset(a[1..]) == multiset(b[1..])
  {
    assert a == [a[0]] + a[1..];
    assert b == [b[0]] + b[1..];
    assert multiset(a[1..]) == multiset(a) - multiset{a[0]};
    assert multiset(b[1..]) == multiset(b) - multiset{b[0]};
  }

  /** The head of a sorted sequence is not above any of its elements. */
  lemma HeadIsLeast(s: seq<Pair>, y: Pair, rank: Pair -> string)
    requires SortedBy(s, rank) && y in multiset(s)
    ensures CaseLe(rank(s[0]), rank(y))
  {
    var k :| 0 <= k < |s| && s[k] == y;
    if k == 0 {
      LexLeTotal(Fold(rank(y)), Fold(rank(y)));
    }
  }

  function KeyOf(p: Pair): string
  {
    p.key
  }

  /** sdb_params_sort as intended: case-insensitive order of the keys. */
  function SortByKey(ps: seq<Pair>): (r: seq<Pair>)
    ensures SortedBy(r, KeyOf)
    ensures multiset(r) == multiset(ps) && |r| == |ps|
    ensures DistinctRanks(ps, KeyOf) ==>
      forall q :: multiset(q) == multiset(ps) && SortedBy(q, KeyOf) ==> q == r
  {
    var r := SortBy(ps, KeyOf);
    assert DistinctRanks(ps, KeyOf) ==> DistinctRanks(r, KeyOf) by {
      if DistinctRanks(ps, KeyOf) {
        DistinctRanksPermutation(ps, r, KeyOf);
      }
    }
    if DistinctRanks(ps, KeyOf) then
      assert forall q :: multiset(q) == multiset(ps) && SortedBy(q, KeyOf) ==> q == r by {
        forall q | multiset(q) == multiset(ps) && SortedBy(q, KeyOf) ensures q == r {
          SortedUnique(r, q, KeyOf);
        }
      }
      r
    else r
  }

  lemma DistinctRanksPermutation(a: seq<Pair>, b: seq<Pair>, rank: Pair -> string)
    requires multiset(a) == multiset(b)
    requires DistinctRanks(a, rank)
    ensures DistinctRanks(b, rank)
  {
    forall i, j | 0 <= i < j < |b| ensures Fold(rank(b[i])) != Fold(rank(b[j])) {
      assert b[i] in multiset(a) && b[j] in multiset(a);
      var i' :| 0 <= i' < |a| && a[i'] == b[i];
      var j' :| 0 <= j' < |a| && a[j'] == b[j];
      if i' == j' {
        MultisetTwice(b, i, j);
        assert multiset(a)[b[i]] >= 2;
        DistinctRanksSingle(a, i', rank);
      }
    }
  }

  lemma MultisetTwice(b: seq<Pair>, i: nat, j: nat)
    requires 0 <= i < j < |b| && b[i] == b[j]
    ensures multiset(b)[b[i]] >= 2
  {
    assert b == b[..i] + [b[i]] + b[i + 1..j] + [b[j]] + b[j + 1..];
  }

  lemma {:induction false} DistinctRanksSingle(a: seq<Pair>, i: nat, rank: Pair -> string)
    requires DistinctRanks(a, rank) && i < |a|
    ensures multiset(a)[a[i]] == 1
    decreases |a|
  {
    assert a == [a[0]] + a[1..];
    if i == 0 {
      assert a[0] !in a[1..];
    } else {
      DistinctRanksSingle(a[1..], i - 1, rank);
      assert a[i] != a[0];
    }
  }

  /**
   * What str_compare actually compares: the bytes at the start of the
   * pair structure, i.e. the little-endian bytes of the key pointer, up to
   * the first zero byte (at most the eight bytes of the pointer).
   */
  function PointerText(addr: nat): (r: string)
    ensures |r| <= 8
    ensures forall i :: 0 <= i < |r| ==> r[i] != 0 as char
  {
    PointerBytes(addr, 8)
  }

  function PointerBytes(addr: nat, n: nat): (r: string)
    ensures |r| <= n
    ensures forall i :: 0 <= i < |r| ==> r[i] != 0 as char
  {
    if n == 0 || addr % 256 == 0 then []
    else [(addr % 256) as char] + PointerBytes(addr / 256, n - 1)
  }

  /**
   * sdb_params_sort as written: the order of the key pointers' bytes,
   * addr giving the address at which each key's copy lives.
   */
  function SortAsWritten(ps: seq<Pair>, addr: string -> nat): (r: seq<Pair>)
    ensures multiset(r) == multiset(ps)
  {
    SortBy(ps, PointerRank(addr))
  }

  /** The sort key str_compare reads from a pair: the bytes of its key's address. */
  function PointerRank(addr: string -> nat): Pair -> string
  {
    (p: Pair) => PointerText(addr(p.key))
  }

  /** A pointer whose low byte alone is nonzero reads as that one byte. */
  lemma PointerTextSmall(addr: nat)
    requires 0 < addr < 256
    ensures PointerText(addr) == [addr as char]
  {
    assert PointerBytes(addr / 256, 7) == [];
  }

  /** Sorting two pairs swaps them exactly when the first ranks above the second. */
  lemma SortTwo(a: Pair, b: Pair, rank: Pair -> string)
    requires !CaseLe(rank(a), rank(b))
    ensures SortBy([a, b], rank) == [b, a]
  {
    assert [a, b][1..] == [b];
    assert SortBy([b], rank) == [b] by {
      assert [b][1..] == [];
    }
    assert InsertBy(a, [b], rank) == [b] + InsertBy(a, [], rank);
  }

  /** A pair of sort keys in the wrong order is not sorted. */
  lemma NotSortedTwo(a: Pair, b: Pair, rank: Pair -> string)
    requires !CaseLe(rank(a), rank(b))
    ensures !SortedBy([a, b], rank)
  {
    assert [a, b][0] == a && [a, b][1] == b;
  }

  /** Where the example keeps its keys: "Zeta" at address 1, every other key at address 2. */
  function ExampleAddress(k: string): nat
  {
    if k == "Zeta" then 1 else 2
  }

  /**
   * With "Zeta" stored at address 1 and "Alpha" at address 2, the
   * as-written sort puts Zeta first, which is not key order.
   */
  lemma SortAsWrittenMisorders()
    ensures var ps := [Pair("Alpha", "1", 7), Pair("Zeta", "2", 7)];
      SortAsWritten(ps, ExampleAddress) == [ps[1], ps[0]] && !SortedBy(SortAsWritten(ps, ExampleAddress), KeyOf)
  {
    var ps := [Pair("Alpha", "1", 7), Pair("Zeta", "2", 7)];
    var rank := PointerRank(ExampleAddress);
    assert ExampleAddress(ps[0].key) == 2 && ExampleAddress(ps[1].key) == 1 by {
      assert "Alpha" != "Zeta" by {
        assert |"Alpha"| != |"Zeta"|;
      }
    }
    PointerTextSmall(2);
    PointerTextSmall(1);
    assert !CaseLe(rank(ps[0]), rank(ps[1])) by {
      assert Fold([2 as char]) == [2 as char];
      assert Fold([1 as char]) == [1 as char];
    }
    SortTwo(ps[0], ps[1], rank);
    assert !CaseLe(ps[1].key, ps[0].key) by {
      assert Fold("Zeta")[0] == 'z' && Fold("Alpha")[0] == 'a';
    }
    NotSortedTwo(ps[1], ps[0], KeyOf);
  }
}
