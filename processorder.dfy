/**
 * The orderings of the process table (src/system/collector.rs): the key
 * of each sort column, `sort_by` (a stable sort, here an insertion sort)
 * and `reverse`.
 */
module ProcessOrder {
  import opened App

  // ---------------------------------------------------------------------------
  // Keys
  // ---------------------------------------------------------------------------

  /** `String::cmp`: lexicographic, character by character, a prefix first. */
  predicate LexLe(a: string, b: string)
    decreases |a|
  {
    a == [] || (b != [] && (a[0] < b[0] || (a[0] == b[0] && LexLe(a[1..], b[1..]))))
  }

  lemma {:induction false} LexLeTotal(a: string, b: string)
    ensures LexLe(a, b) || LexLe(b, a)
    decreases |a|
  {
    if a != [] && b != [] && a[0] == b[0] {
      LexLeTotal(a[1..], b[1..]);
    }
  }

  lemma {:induction false} LexLeTransitive(a: string, b: string, c: string)
    requires LexLe(a, b) && LexLe(b, c)
    ensures LexLe(a, c)
    decreases |a|
  {
    if a != [] && b != [] && c != [] && a[0] == b[0] && b[0] == c[0] {
      LexLeTransitive(a[1..], b[1..], c[1..]);
    }
  }

  /** Two names are ordered both ways only when they are equal. */
  lemma {:induction false} LexLeAntisymmetric(a: string, b: string)
    requires LexLe(a, b) && LexLe(b, a)
    ensures a == b
    decreases |a|
  {
    if a != [] {
      LexLeAntisymmetric(a[1..], b[1..]);
      assert a == [a[0]] + a[1..] && b == [b[0]] + b[1..];
    }
  }

  /**
   * The comparator of each column, read as "`a` may come before `b`":
   * pid, name, CPU usage (reals have no NaN, so `partial_cmp` never falls
   * back to `Equal`) and memory.
   */
  predicate KeyLe(col: SortColumn, a: ProcessInfo, b: ProcessInfo) {
    match col
    case Pid => a.pid <= b.pid
    case Name => LexLe(a.name, b.name)
    case Cpu => a.cpuUsage <= b.cpuUsage
    case Memory => a.memory <= b.memory
  }

  lemma KeyLeTotal(col: SortColumn, a: ProcessInfo, b: ProcessInfo)
    ensures KeyLe(col, a, b) || KeyLe(col, b, a)
  {
    if col == Name {
      LexLeTotal(a.name, b.name);
    }
  }

  lemma KeyLeTransitive(col: SortColumn, a: ProcessInfo, b: ProcessInfo, c: ProcessInfo)
    requires KeyLe(col, a, b) && KeyLe(col, b, c)
    ensures KeyLe(col, a, c)
  {
    if col == Name {
      LexLeTransitive(a.name, b.name, c.name);
    }
  }

  /** Equal keys: the comparator answers `Equal`. */
  predicate SameKey(col: SortColumn, a: ProcessInfo, b: ProcessInfo) {
    KeyLe(col, a, b) && KeyLe(col, b, a)
  }

  // ---------------------------------------------------------------------------
  // Sorting
  // ---------------------------------------------------------------------------

  /** Ascending by the column's key. */
  predicate Sorted(col: SortColumn, s: seq<ProcessInfo>) {
    forall i :: 0 <= i < |s| - 1 ==> KeyLe(col, s[i], s[i + 1])
  }

  /** Descending by the column's key. */
  predicate SortedDescending(col: SortColumn, s: seq<ProcessInfo>) {
    forall i :: 0 <= i < |s| - 1 ==> KeyLe(col, s[i + 1], s[i])
  }

  /** Puts `x` before the first element whose key is not below its own. */
  function Insert(col: SortColumn, x: ProcessInfo, s: seq<ProcessInfo>): (r: seq<ProcessInfo>)
    ensures |r| == |s| + 1
  {
    if s == [] then [x]
    else if KeyLe(col, x, s[0]) then [x] + s
    else [s[0]] + Insert(col, x, s[1..])
  }

  /** `sort_by` with the column's comparator: stable, ascending. */
  function SortBy(col: SortColumn, s: seq<ProcessInfo>): (r: seq<ProcessInfo>)
    ensures |r| == |s|
  {
    if s == [] then [] else Insert(col, s[0], SortBy(col, s[1..]))
  }

  /** Inserting adds exactly one copy of `x`. */
  lemma {:induction false} InsertPermutation(col: SortColumn, x: ProcessInfo, s: seq<ProcessInfo>)
    ensures multiset(Insert(col, x, s)) == multiset(s) + multiset{x}
  {
    if s != [] && !KeyLe(col, x, s[0]) {
      InsertPermutation(col, x, s[1..]);
      assert s == [s[0]] + s[1..];
    }
  }

  /** Sorting neither adds nor drops a process. */
  lemma {:induction false} SortByPermutation(col: SortColumn, s: seq<ProcessInfo>)
    ensures multiset(SortBy(col, s)) == multiset(s)
  {
    if s != [] {
      SortByPermutation(col, s[1..]);
      InsertPermutation(col, s[0], SortBy(col, s[1..]));
      assert s == [s[0]] + s[1..];
    }
  }

  lemma {:induction false} InsertSorted(col: SortColumn, x: ProcessInfo, s: seq<ProcessInfo>)
    requires Sorted(col, s)
    ensures Sorted(col, Insert(col, x, s))
    ensures s != [] ==> Insert(col, x, s)[0] == x || Insert(col, x, s)[0] == s[0]
  {
    if s != [] && !KeyLe(col, x, s[0]) {
      KeyLeTotal(col, x, s[0]);
      InsertSorted(col, x, s[1..]);
      var t := Insert(col, x, s[1..]);
      if s[1..] != [] {
        assert t[0] == x || t[0] == s[1];
      }
    }
  }

  /** The sorted list is ascending in the active column. */
  lemma {:induction false} SortBySorted(col: SortColumn, s: seq<ProcessInfo>)
    ensures Sorted(col, SortBy(col, s))
  {
    if s != [] {
      SortBySorted(col, s[1..]);
      InsertSorted(col, s[0], SortBy(col, s[1..]));
    }
  }

  /** Ascending between neighbours is ascending between any two positions. */
  lemma {:induction false} SortedPairwise(col: SortColumn, s: seq<ProcessInfo>, i: nat, j: nat)
    requires Sorted(col, s) && i <= j < |s|
    ensures KeyLe(col, s[i], s[j])
    decreases j - i
  {
    if i == j {
      KeyLeTotal(col, s[i], s[i]);
    } else {
      SortedPairwise(col, s, i + 1, j);
      KeyLeTransitive(col, s[i], s[i + 1], s[j]);
    }
  }

  /** The elements whose key equals `p`'s, in list order. */
  function KeyClass(col: SortColumn, s: seq<ProcessInfo>, p: ProcessInfo): (r: seq<ProcessInfo>)
    ensures |r| <= |s|
  {
    if s == [] then []
    else (if SameKey(col, s[0], p) then [s[0]] else []) + KeyClass(col, s[1..], p)
  }

  lemma {:induction false} InsertClass(col: SortColumn, x: ProcessInfo, s: seq<ProcessInfo>, p: ProcessInfo)
    ensures KeyClass(col, Insert(col, x, s), p)
         == (if SameKey(col, x, p) then [x] else []) + KeyClass(col, s, p)
  {
    if s == [] {
    } else if KeyLe(col, x, s[0]) {
      KeyClassCons(col, x, s, p);
    } else {
      var t := Insert(col, x, s[1..]);
      assert Insert(col, x, s) == [s[0]] + t;
      InsertClass(col, x, s[1..], p);
      KeyClassCons(col, s[0], t, p);
      KeyClassCons(col, s[0], s[1..], p);
      assert s == [s[0]] + s[1..];
      if SameKey(col, x, p) && SameKey(col, s[0], p) {
        KeyLeTransitive(col, x, p, s[0]);
        assert false;
      }
    }
  }

  lemma KeyClassCons(col: SortColumn, a: ProcessInfo, t: seq<ProcessInfo>, p: ProcessInfo)
    ensures KeyClass(col, [a] + t, p) == (if SameKey(col, a, p) then [a] else []) + KeyClass(col, t, p)
  {
    assert ([a] + t)[1..] == t;
  }

  /** `sort_by` is stable: elements with equal keys keep their relative order. */
  lemma {:induction false} SortByStable(col: SortColumn, s: seq<ProcessInfo>, p: ProcessInfo)
    ensures KeyClass(col, SortBy(col, s), p) == KeyClass(col, s, p)
  {
    if s != [] {
      SortByStable(col, s[1..], p);
      InsertClass(col, s[0], SortBy(col, s[1..]), p);
    }
  }

  /** Sorting an already sorted list changes nothing. */
  lemma {:induction false} SortBySortedInput(col: SortColumn, s: seq<ProcessInfo>)
    requires Sorted(col, s)
    ensures SortBy(col, s) == s
  {
    if s != [] {
      assert Sorted(col, s[1..]);
      SortBySortedInput(col, s[1..]);
      if |s| > 1 {
        assert KeyLe(col, s[0], s[1]);
      }
      assert s == [s[0]] + s[1..];
    }
  }

  // ---------------------------------------------------------------------------
  // Reversal
  // ---------------------------------------------------------------------------

  /** `reverse`: the last element first. */
  function Reverse(s: seq<ProcessInfo>): (r: seq<ProcessInfo>)
    ensures |r| == |s|
    ensures forall i :: 0 <= i < |s| ==> r[i] == s[|s| - 1 - i]
  {
    if s == [] then [] else Reverse(s[1..]) + [s[0]]
  }

  lemma ReverseInvolution(s: seq<ProcessInfo>)
    ensures Reverse(Reverse(s)) == s
  {
  }

  lemma {:induction false} ReversePermutation(s: seq<ProcessInfo>)
    ensures multiset(Reverse(s)) == multiset(s)
  {
    if s != [] {
      ReversePermutation(s[1..]);
      assert s == [s[0]] + s[1..];
    }
  }

  lemma {:induction false} KeyClassAppend(col: SortColumn, a: seq<ProcessInfo>, b: seq<ProcessInfo>, p: ProcessInfo)
    ensures KeyClass(col, a + b, p) == KeyClass(col, a, p) + KeyClass(col, b, p)
  {
    if a == [] {
      assert a + b == b;
    } else {
      assert a + b == [a[0]] + (a[1..] + b);
      KeyClassCons(col, a[0], a[1..] + b, p);
      KeyClassAppend(col, a[1..], b, p);
    }
  }

  /** Reversal lists the elements with a given key in reverse order. */
  lemma {:induction false} KeyClassReverse(col: SortColumn, s: seq<ProcessInfo>, p: ProcessInfo)
    ensures KeyClass(col, Reverse(s), p) == Reverse(KeyClass(col, s, p))
  {
    if s != [] {
      KeyClassReverse(col, s[1..], p);
      KeyClassAppend(col, Reverse(s[1..]), [s[0]], p);
      assert KeyClass(col, [s[0]], p) == (if SameKey(col, s[0], p) then [s[0]] else []) by {
        assert [s[0]][1..] == [];
      }
      var k := KeyClass(col, s[1..], p);
      if SameKey(col, s[0], p) {
        assert ([s[0]] + k)[1..] == k;
      } else {
        assert [] + k == k;
      }
    }
  }

  /** Reversing an ascending list gives a descending one. */
  lemma ReverseDescending(col: SortColumn, s: seq<ProcessInfo>)
    requires Sorted(col, s)
    ensures SortedDescending(col, Reverse(s))
  {
    var r := Reverse(s);
    forall i | 0 <= i < |r| - 1
      ensures KeyLe(col, r[i + 1], r[i])
    {
      assert r[i] == s[|s| - 1 - i] && r[i + 1] == s[|s| - 2 - i];
    }
  }
}
