/**
 * Generic collection operations the scripts get from Python's runtime: the stable
 * `list.sort(key=...)`, grouping into a `defaultdict(list)`, counting into a
 * `defaultdict(int)`, and a dict filled by assignment where a later row replaces an
 * earlier one with the same key. Dict key order is first-insertion order, as in Python.
 */
module Collections {
  import opened Wrappers

  // ---------------------------------------------------------------------------
  // Stable sorting
  // ---------------------------------------------------------------------------

  /** `le` compares the sort keys of two elements: total and transitive. */
  ghost predicate TotalPreorder<T(!new)>(le: (T, T) -> bool) {
    && (forall a, b :: le(a, b) || le(b, a))
    && (forall a, b, c :: le(a, b) && le(b, c) ==> le(a, c))
  }

  predicate SortedBy<T>(s: seq<T>, le: (T, T) -> bool) {
    forall i, j :: 0 <= i < j < |s| ==> le(s[i], s[j])
  }

  /** How many leading elements of `s` do not come after `x`. */
  function InsertPos<T>(x: T, s: seq<T>, le: (T, T) -> bool): (k: nat)
    ensures k <= |s|
    ensures forall i :: 0 <= i < k ==> le(s[i], x)
    ensures k < |s| ==> !le(s[k], x)
  {
    if s == [] || !le(s[0], x) then 0 else 1 + InsertPos(x, s[1..], le)
  }

  /** Places `x` after every leading element that does not come after it. */
  function InsertBy<T>(x: T, s: seq<T>, le: (T, T) -> bool): (r: seq<T>)
    ensures r == s[..InsertPos(x, s, le)] + [x] + s[InsertPos(x, s, le)..]
  {
    if s == [] then [x]
    else if le(s[0], x) then
      var t := InsertBy(x, s[1..], le);
      ConsAround(s, x, InsertPos(x, s[1..], le));
      [s[0]] + t
    else [x] + s
  }

  /** Putting the head back in front of the tail split around `x` at `q`. */
  lemma ConsAround<T>(s: seq<T>, x: T, q: nat)
    requires s != [] && q < |s|
    ensures [s[0]] + (s[1..][..q] + [x] + s[1..][q..]) == s[..q + 1] + [x] + s[q + 1..]
  {
    assert s[..q + 1] == [s[0]] + s[1..][..q];
    assert s[q + 1..] == s[1..][q..];
  }

  /**
   * Python's stable `list.sort(key=...)` with `le` comparing keys: the elements are
   * inserted one by one, left to right, each after all elements whose key ties with it.
   */
  function SortBy<T>(xs: seq<T>, le: (T, T) -> bool): (r: seq<T>)
    ensures |r| == |xs|
  {
    if xs == [] then [] else InsertBy(xs[|xs| - 1], SortBy(xs[..|xs| - 1], le), le)
  }

  /** The elements of `s` whose key ties with that of `x`, in order. */
  function Ties<T>(s: seq<T>, x: T, le: (T, T) -> bool): seq<T> {
    if s == [] then [] else (if le(s[0], x) && le(x, s[0]) then [s[0]] else []) + Ties(s[1..], x, le)
  }

  lemma TiesAppend<T>(a: seq<T>, b: seq<T>, x: T, le: (T, T) -> bool)
    ensures Ties(a + b, x, le) == Ties(a, x, le) + Ties(b, x, le)
  {
    if a != [] {
      assert (a + b)[0] == a[0];
      assert (a + b)[1..] == a[1..] + b;
      TiesAppend(a[1..], b, x, le);
    } else {
      assert a + b == b;
    }
  }

  /** In a sorted list, everything from the insertion point on comes strictly after `x`. */
  lemma AfterInsertPos<T(!new)>(x: T, s: seq<T>, le: (T, T) -> bool)
    requires TotalPreorder(le) && SortedBy(s, le)
    ensures forall i :: InsertPos(x, s, le) <= i < |s| ==> !le(s[i], x)
  {
    var k := InsertPos(x, s, le);
    forall i | k <= i < |s| ensures !le(s[i], x) {
      if i > k {
        assert le(s[k], s[i]);
      }
    }
  }

  /** The element at each position after inserting `x`. */
  lemma InsertByAt<T>(x: T, s: seq<T>, le: (T, T) -> bool, i: nat)
    requires i <= |s|
    ensures var k := InsertPos(x, s, le);
      InsertBy(x, s, le)[i] == if i < k then s[i] else if i == k then x else s[i - 1]
  {
  }

  lemma InsertSortedPair<T(!new)>(x: T, s: seq<T>, le: (T, T) -> bool, i: nat, j: nat)
    requires TotalPreorder(le) && SortedBy(s, le)
    requires i < j <= |s|
    ensures le(InsertBy(x, s, le)[i], InsertBy(x, s, le)[j])
  {
    var k := InsertPos(x, s, le);
    InsertByAt(x, s, le, i);
    InsertByAt(x, s, le, j);
    if i == k {
      AfterInsertPos(x, s, le);
      assert !le(s[j - 1], x);
    } else if j > k && i < k {
      assert le(s[i], x);
      assert le(s[i], s[j - 1]);
    }
  }

  lemma InsertSorted<T(!new)>(x: T, s: seq<T>, le: (T, T) -> bool)
    requires TotalPreorder(le) && SortedBy(s, le)
    ensures SortedBy(InsertBy(x, s, le), le)
  {
    var r := InsertBy(x, s, le);
    forall i, j | 0 <= i < j < |r| ensures le(r[i], r[j]) {
      InsertSortedPair(x, s, le, i, j);
    }
  }

  lemma TiesSplice<T>(front: seq<T>, x: T, back: seq<T>, y: T, le: (T, T) -> bool)
    requires le(x, y) && le(y, x) ==> Ties(back, y, le) == []
    ensures Ties(front + [x] + back, y, le) == Ties(front + back, y, le) + Ties([x], y, le)
  {
    TiesAppend(front, back, y, le);
    TiesAppend(front + [x], back, y, le);
    TiesAppend(front, [x], y, le);
    var tf, tx, tb := Ties(front, y, le), Ties([x], y, le), Ties(back, y, le);
    if le(x, y) && le(y, x) {
      assert tb == [];
      assert tf + tx + tb == (tf + tb) + tx;
    } else {
      assert tx == [];
      assert tf + tx + tb == (tf + tb) + tx;
    }
  }

  lemma InsertTies<T>(x: T, s: seq<T>, y: T, le: (T, T) -> bool)
    requires le(x, y) && le(y, x) ==> Ties(s[InsertPos(x, s, le)..], y, le) == []
    ensures Ties(InsertBy(x, s, le), y, le) == Ties(s, y, le) + Ties([x], y, le)
  {
    var k := InsertPos(x, s, le);
    assert s == s[..k] + s[k..];
    TiesSplice(s[..k], x, s[k..], y, le);
  }

  lemma NoTies<T(!new)>(back: seq<T>, x: T, y: T, le: (T, T) -> bool)
    requires TotalPreorder(le) && le(x, y) && le(y, x)
    requires forall i :: 0 <= i < |back| ==> !le(back[i], x)
    ensures Ties(back, y, le) == []
  {
    if back != [] {
      assert !le(back[0], x);
      NoTies(back[1..], x, y, le);
    }
  }

  lemma {:induction false} SortBySorted<T(!new)>(xs: seq<T>, le: (T, T) -> bool)
    requires TotalPreorder(le)
    ensures SortedBy(SortBy(xs, le), le)
    decreases |xs|
  {
    if xs != [] {
      SortBySorted(xs[..|xs| - 1], le);
      InsertSorted(xs[|xs| - 1], SortBy(xs[..|xs| - 1], le), le);
    }
  }

  lemma InsertPermutes<T>(x: T, s: seq<T>, le: (T, T) -> bool)
    ensures multiset(InsertBy(x, s, le)) == multiset(s) + multiset{x}
  {
    var k := InsertPos(x, s, le);
    var front, back := s[..k], s[k..];
    assert s == front + back;
    calc {
      multiset(InsertBy(x, s, le));
      multiset(front + [x] + back);
      multiset(front) + multiset{x} + multiset(back);
    }
  }

  lemma {:induction false} SortByPermutes<T>(xs: seq<T>, le: (T, T) -> bool)
    ensures multiset(SortBy(xs, le)) == multiset(xs)
    decreases |xs|
  {
    if xs != [] {
      var init, x := xs[..|xs| - 1], xs[|xs| - 1];
      assert xs == init + [x];
      SortByPermutes(init, le);
      InsertPermutes(x, SortBy(init, le), le);
    }
  }

  lemma {:induction false} SortByStable<T(!new)>(xs: seq<T>, y: T, le: (T, T) -> bool)
    requires TotalPreorder(le)
    ensures Ties(SortBy(xs, le), y, le) == Ties(xs, y, le)
    decreases |xs|
  {
    if xs != [] {
      var init, x := xs[..|xs| - 1], xs[|xs| - 1];
      assert xs == init + [x];
      SortByStable(init, y, le);
      SortBySorted(init, le);
      var s := SortBy(init, le);
      if le(x, y) && le(y, x) {
        AfterInsertPos(x, s, le);
        NoTies(s[InsertPos(x, s, le)..], x, y, le);
      }
      InsertTies(x, s, y, le);
      TiesAppend(init, [x], y, le);
    }
  }

  /**
   * What `list.sort` promises: the result is ordered by key, is a permutation of the
   * input, and elements whose keys tie keep their original relative order.
   */
  /** Every element of the sorted list sits somewhere in the input. */
  lemma SortByElement<T>(xs: seq<T>, le: (T, T) -> bool, i: nat) returns (j: nat)
    requires i < |SortBy(xs, le)|
    ensures j < |xs| && xs[j] == SortBy(xs, le)[i]
  {
    SortByPermutes(xs, le);
    assert SortBy(xs, le)[i] in multiset(xs);
    j :| 0 <= j < |xs| && xs[j] == SortBy(xs, le)[i];
  }

  lemma SortByCorrect<T(!new)>(xs: seq<T>, le: (T, T) -> bool)
    requires TotalPreorder(le)
    ensures SortedBy(SortBy(xs, le), le)
    ensures multiset(SortBy(xs, le)) == multiset(xs)
    ensures forall y :: Ties(SortBy(xs, le), y, le) == Ties(xs, y, le)
  {
    SortBySorted(xs, le);
    SortByPermutes(xs, le);
    forall y ensures Ties(SortBy(xs, le), y, le) == Ties(xs, y, le) {
      SortByStable(xs, y, le);
    }
  }

  // ---------------------------------------------------------------------------
  // Grouping by key, in first-appearance order
  // ---------------------------------------------------------------------------

  /** The distinct keys of `xs`, in the order they first appear (a dict's key order). */
  function GroupKeys<T, K(==, !new)>(xs: seq<T>, key: T -> K): (ks: seq<K>)
    ensures forall i, j :: 0 <= i < j < |ks| ==> ks[i] != ks[j]
    ensures forall k :: k in ks <==> exists i :: 0 <= i < |xs| && key(xs[i]) == k
  {
    if xs == [] then []
    else
      var init := xs[..|xs| - 1];
      var ks := GroupKeys(init, key);
      var k := key(xs[|xs| - 1]);
      assert forall i :: 0 <= i < |init| ==> init[i] == xs[i];
      if k in ks then ks else ks + [k]
  }

  /** The elements of `xs` with key `k`, in order (a `defaultdict(list)` entry). */
  function Members<T, K(==, !new)>(xs: seq<T>, key: T -> K, k: K): (m: seq<T>)
    ensures |m| <= |xs|
    ensures forall i :: 0 <= i < |m| ==> key(m[i]) == k && m[i] in xs
  {
    if xs == [] then []
    else
      var init := xs[..|xs| - 1];
      var m := Members(init, key, k);
      assert forall x :: x in init ==> x in xs;
      m + (if key(xs[|xs| - 1]) == k then [xs[|xs| - 1]] else [])
  }

  /** A key has members exactly when it is one of the group keys. */
  lemma {:induction false} MembersNonEmpty<T, K(!new)>(xs: seq<T>, key: T -> K, k: K)
    ensures |Members(xs, key, k)| > 0 <==> k in GroupKeys(xs, key)
    decreases |xs|
  {
    if xs != [] {
      MembersNonEmpty(xs[..|xs| - 1], key, k);
    }
  }

  /** Every element with key `k` is a member of `k`'s group. */
  lemma {:induction false} MembersComplete<T, K(!new)>(xs: seq<T>, key: T -> K, i: nat)
    requires i < |xs|
    ensures xs[i] in Members(xs, key, key(xs[i]))
    decreases |xs|
  {
    if i < |xs| - 1 {
      MembersComplete(xs[..|xs| - 1], key, i);
    }
  }

  /** The sizes of the groups, summed over the keys `ks`. */
  function TotalSize<T, K(==, !new)>(xs: seq<T>, key: T -> K, ks: seq<K>): nat {
    if ks == [] then 0 else |Members(xs, key, ks[0])| + TotalSize(xs, key, ks[1..])
  }

  lemma TotalSizeSnoc<T, K(!new)>(xs: seq<T>, key: T -> K, ks: seq<K>, k: K)
    ensures TotalSize(xs, key, ks + [k]) == TotalSize(xs, key, ks) + |Members(xs, key, k)|
  {
    if ks != [] {
      assert (ks + [k])[1..] == ks[1..] + [k];
      TotalSizeSnoc(xs, key, ks[1..], k);
    }
  }

  lemma TotalSizeStep<T, K(!new)>(init: seq<T>, x: T, key: T -> K, ks: seq<K>)
    requires forall i, j :: 0 <= i < j < |ks| ==> ks[i] != ks[j]
    ensures TotalSize(init + [x], key, ks) == TotalSize(init, key, ks) + (if key(x) in ks then 1 else 0)
  {
    var xs := init + [x];
    assert xs[..|xs| - 1] == init;
    if ks != [] {
      TotalSizeStep(init, x, key, ks[1..]);
      assert key(x) in ks <==> key(x) == ks[0] || key(x) in ks[1..];
      if key(x) == ks[0] {
        assert key(x) !in ks[1..] by {
          forall j | 0 <= j < |ks[1..]| ensures ks[1..][j] != ks[0] { assert ks[1..][j] == ks[j + 1]; }
        }
      }
    }
  }

  /** Every element lands in exactly one group: the group sizes add up to the input length. */
  lemma {:induction false} GroupSizesSum<T, K(!new)>(xs: seq<T>, key: T -> K)
    ensures TotalSize(xs, key, GroupKeys(xs, key)) == |xs|
    decreases |xs|
  {
    if xs != [] {
      var init, x := xs[..|xs| - 1], xs[|xs| - 1];
      assert xs == init + [x];
      GroupSizesSum(init, key);
      var ks := GroupKeys(init, key);
      TotalSizeStep(init, x, key, ks);
      if key(x) !in ks {
        TotalSizeSnoc(xs, key, ks, key(x));
        MembersNonEmpty(init, key, key(x));
        assert Members(xs, key, key(x)) == Members(init, key, key(x)) + [x];
      }
    }
  }

  /** Taking the key at position `j` out of the list takes exactly its group out of the total. */
  lemma {:induction false} TotalSizeRemove<T, K(!new)>(xs: seq<T>, key: T -> K, ks: seq<K>, j: nat)
    requires j < |ks|
    ensures TotalSize(xs, key, ks) == |Members(xs, key, ks[j])| + TotalSize(xs, key, ks[..j] + ks[j + 1..])
    decreases j
  {
    if j == 0 {
      assert ks[..0] + ks[1..] == ks[1..];
    } else {
      TotalSizeRemove(xs, key, ks[1..], j - 1);
      assert ks[1..][j - 1] == ks[j];
      var rest := ks[..j] + ks[j + 1..];
      assert rest[0] == ks[0] && rest[1..] == ks[1..][..j - 1] + ks[1..][j..];
    }
  }

  /** No key is listed twice. */
  predicate Distinct<K(==)>(ks: seq<K>) {
    forall i, j :: 0 <= i < j < |ks| ==> ks[i] != ks[j]
  }

  /** Dropping the key at position `j` of a distinct list leaves the others, still distinct. */
  lemma DropAt<K>(ks: seq<K>, j: nat)
    requires j < |ks| && Distinct(ks)
    ensures Distinct(ks[..j] + ks[j + 1..])
    ensures forall k :: k in ks[..j] + ks[j + 1..] <==> k in ks && k != ks[j]
  {
    var r := ks[..j] + ks[j + 1..];
    assert forall i :: 0 <= i < |r| ==> r[i] == (if i < j then ks[i] else ks[i + 1]);
    forall k | k in ks && k != ks[j] ensures k in r {
      var i :| 0 <= i < |ks| && ks[i] == k;
      assert k == r[if i < j then i else i - 1];
    }
  }

  /** The total depends only on which keys are listed, not on their order. */
  lemma {:induction false} TotalSizeReordered<T, K(!new)>(xs: seq<T>, key: T -> K, a: seq<K>, b: seq<K>)
    requires Distinct(a) && Distinct(b)
    requires |a| == |b| && forall k :: k in a <==> k in b
    ensures TotalSize(xs, key, a) == TotalSize(xs, key, b)
    decreases |a|
  {
    if a != [] {
      assert a[0] in b;
      var j :| 0 <= j < |b| && b[j] == a[0];
      TotalSizeRemove(xs, key, b, j);
      assert a[..0] + a[1..] == a[1..];
      DropAt(a, 0);
      DropAt(b, j);
      var b' := b[..j] + b[j + 1..];
      assert forall k :: k in a[1..] <==> k in b' by {
        forall k ensures k in a[1..] <==> k in b' {
          assert k in a[..0] + a[1..] <==> k in a && k != a[0];
        }
      }
      TotalSizeReordered(xs, key, a[1..], b');
    }
  }

  /** Extending a prefix by one element adds its key to the group keys if it is new. */
  lemma GroupKeysStep<T, K(!new)>(xs: seq<T>, key: T -> K, i: nat)
    requires i < |xs|
    ensures GroupKeys(xs[..i + 1], key) ==
      var ks := GroupKeys(xs[..i], key); if key(xs[i]) in ks then ks else ks + [key(xs[i])]
  {
    assert xs[..i + 1][..i] == xs[..i];
  }

  /** Extending a prefix by one element appends it to its own group and to no other. */
  lemma MembersStep<T, K(!new)>(xs: seq<T>, key: T -> K, i: nat, k: K)
    requires i < |xs|
    ensures Members(xs[..i + 1], key, k) == Members(xs[..i], key, k) + (if key(xs[i]) == k then [xs[i]] else [])
  {
    assert xs[..i + 1][..i] == xs[..i];
  }

  /** Every key of `groups` maps to its members in `xs`. */
  ghost predicate HoldsMembers<T, K(!new)>(groups: map<K, seq<T>>, xs: seq<T>, key: T -> K) {
    forall k :: k in groups ==> groups[k] == Members(xs, key, k)
  }

  /** Appending the next element to its key's group (a new group if need be) keeps every group exact. */
  lemma HoldsMembersStep<T, K(!new)>(groups: map<K, seq<T>>, xs: seq<T>, key: T -> K, i: nat)
    requires i < |xs| && HoldsMembers(groups, xs[..i], key)
    requires key(xs[i]) !in groups ==> Members(xs[..i], key, key(xs[i])) == []
    ensures var k := key(xs[i]);
      HoldsMembers(groups[k := (if k in groups then groups[k] else []) + [xs[i]]], xs[..i + 1], key)
  {
    var k := key(xs[i]);
    var g := groups[k := (if k in groups then groups[k] else []) + [xs[i]]];
    forall k' | k' in g ensures g[k'] == Members(xs[..i + 1], key, k') {
      MembersStep(xs, key, i, k');
    }
  }

  /** One iteration of the loop of `GroupBy`: its three invariants carry over to the next prefix. */
  lemma GroupStepInvariants<T, K(!new)>(xs: seq<T>, key: T -> K, i: nat, keys: seq<K>, groups: map<K, seq<T>>)
    requires i < |xs|
    requires keys == GroupKeys(xs[..i], key)
    requires forall k :: k in groups <==> k in keys
    requires HoldsMembers(groups, xs[..i], key)
    ensures var k := key(xs[i]); var keys' := if k in groups then keys else keys + [k];
      var groups' := groups[k := (if k in groups then groups[k] else []) + [xs[i]]];
      && keys' == GroupKeys(xs[..i + 1], key)
      && (forall k' :: k' in groups' <==> k' in keys')
      && HoldsMembers(groups', xs[..i + 1], key)
  {
    var k := key(xs[i]);
    GroupKeysStep(xs, key, i);
    if k !in groups {
      MembersNonEmpty(xs[..i], key, k);
    }
    HoldsMembersStep(groups, xs, key, i);
  }

  /** `defaultdict(list)` filled by appending every element under its key. */
  method GroupBy<T, K(==, !new)>(xs: seq<T>, key: T -> K) returns (keys: seq<K>, groups: map<K, seq<T>>)
    ensures keys == GroupKeys(xs, key)
    ensures forall k :: k in groups <==> k in keys
    ensures HoldsMembers(groups, xs, key)
  {
    keys, groups := [], map[];
    for i := 0 to |xs|
      invariant keys == GroupKeys(xs[..i], key)
      invariant forall k :: k in groups <==> k in keys
      invariant HoldsMembers(groups, xs[..i], key)
    {
      var k := key(xs[i]);
      GroupStepInvariants(xs, key, i, keys, groups);
      if k !in groups {
        keys := keys + [k];
      }
      groups := groups[k := (if k in groups then groups[k] else []) + [xs[i]]];
    }
    PrefixAll(xs);
  }

  /** Every key of `counts` maps to the number of its members in `xs`. */
  ghost predicate HoldsCounts<T, K(!new)>(counts: map<K, int>, xs: seq<T>, key: T -> K) {
    forall k :: k in counts ==> counts[k] == |Members(xs, key, k)|
  }

  /** Extending a prefix by one element adds its key to the group keys, and to a map's keys, if it is new. */
  lemma KeysStep<T, K(!new), V>(xs: seq<T>, key: T -> K, i: nat, keys: seq<K>, m: map<K, V>, v: V)
    requires i < |xs|
    requires keys == GroupKeys(xs[..i], key)
    requires forall k :: k in m <==> k in keys
    ensures var k := key(xs[i]); var keys' := if k in m then keys else keys + [k];
      && keys' == GroupKeys(xs[..i + 1], key)
      && (forall k' :: k' in m[k := v] <==> k' in keys')
  {
    GroupKeysStep(xs, key, i);
  }

  /** Counting the next element under its key keeps every count exact. */
  lemma HoldsCountsStep<T, K(!new)>(counts: map<K, int>, xs: seq<T>, key: T -> K, i: nat)
    requires i < |xs| && HoldsCounts(counts, xs[..i], key)
    requires key(xs[i]) !in counts ==> Members(xs[..i], key, key(xs[i])) == []
    ensures var k := key(xs[i]);
      HoldsCounts(counts[k := (if k in counts then counts[k] else 0) + 1], xs[..i + 1], key)
  {
    var k := key(xs[i]);
    var c := counts[k := (if k in counts then counts[k] else 0) + 1];
    forall k' | k' in c ensures c[k'] == |Members(xs[..i + 1], key, k')| {
      MembersStep(xs, key, i, k');
    }
  }

  /** `defaultdict(int)` (or `d.get(k, 0) + 1`) counting the elements under each key. */
  method Tally<T, K(==, !new)>(xs: seq<T>, key: T -> K) returns (keys: seq<K>, counts: map<K, int>)
    ensures keys == GroupKeys(xs, key)
    ensures forall k :: k in counts <==> k in keys
    ensures HoldsCounts(counts, xs, key)
  {
    keys, counts := [], map[];
    for i := 0 to |xs|
      invariant keys == GroupKeys(xs[..i], key)
      invariant forall k :: k in counts <==> k in keys
      invariant HoldsCounts(counts, xs[..i], key)
    {
      var k := key(xs[i]);
      KeysStep(xs, key, i, keys, counts, (if k in counts then counts[k] else 0) + 1);
      if k !in counts {
        MembersNonEmpty(xs[..i], key, k);
      }
      HoldsCountsStep(counts, xs, key, i);
      if k !in counts {
        keys := keys + [k];
      }
      counts := counts[k := (if k in counts then counts[k] else 0) + 1];
    }
    PrefixAll(xs);
  }

  /** Every key of `table` has members in `xs`, and maps to the last of them. */
  ghost predicate HoldsLast<T, K(!new)>(table: map<K, T>, xs: seq<T>, key: T -> K) {
    forall k :: k in table ==>
      |Members(xs, key, k)| > 0 && table[k] == Members(xs, key, k)[|Members(xs, key, k)| - 1]
  }

  /** Storing the next element under its key keeps every key mapped to its last member. */
  lemma HoldsLastStep<T, K(!new)>(table: map<K, T>, xs: seq<T>, key: T -> K, i: nat)
    requires i < |xs| && HoldsLast(table, xs[..i], key)
    ensures HoldsLast(table[key(xs[i]) := xs[i]], xs[..i + 1], key)
  {
    var t := table[key(xs[i]) := xs[i]];
    forall k | k in t
      ensures |Members(xs[..i + 1], key, k)| > 0 && t[k] == Members(xs[..i + 1], key, k)[|Members(xs[..i + 1], key, k)| - 1]
    {
      MembersStep(xs, key, i, k);
    }
  }

  /** One iteration of the loop of `IndexByKey`: its three invariants carry over to the next prefix. */
  lemma IndexStep<T, K(!new)>(xs: seq<T>, key: T -> K, i: nat, keys: seq<K>, table: map<K, T>)
    requires i < |xs|
    requires keys == GroupKeys(xs[..i], key)
    requires forall k :: k in table <==> k in keys
    requires HoldsLast(table, xs[..i], key)
    ensures var k := key(xs[i]); var keys' := if k in table then keys else keys + [k];
      && keys' == GroupKeys(xs[..i + 1], key)
      && (forall k' :: k' in table[k := xs[i]] <==> k' in keys')
      && HoldsLast(table[k := xs[i]], xs[..i + 1], key)
  {
    GroupKeysStep(xs, key, i);
    HoldsLastStep(table, xs, key, i);
  }

  /**
   * A dict filled by `d[key(x)] = x` for every element in order: keys in first-appearance
   * order, each mapped to the last element with that key.
   */
  method IndexByKey<T, K(==, !new)>(xs: seq<T>, key: T -> K) returns (keys: seq<K>, table: map<K, T>)
    ensures keys == GroupKeys(xs, key)
    ensures forall k :: k in table <==> k in keys
    ensures HoldsLast(table, xs, key)
  {
    keys, table := [], map[];
    for i := 0 to |xs|
      invariant keys == GroupKeys(xs[..i], key)
      invariant forall k :: k in table <==> k in keys
      invariant HoldsLast(table, xs[..i], key)
    {
      var k := key(xs[i]);
      IndexStep(xs, key, i, keys, table);
      if k !in table {
        keys := keys + [k];
      }
      table := table[k := xs[i]];
    }
    PrefixAll(xs);
  }

  /** The positions of the elements with key `k`, in increasing order. */
  function Positions<T, K(==)>(xs: seq<T>, key: T -> K, k: K): (ps: seq<nat>)
    ensures forall u :: 0 <= u < |ps| ==> ps[u] < |xs| && key(xs[ps[u]]) == k
    ensures forall u, v :: 0 <= u < v < |ps| ==> ps[u] < ps[v]
  {
    if xs == [] then []
    else
      var init := xs[..|xs| - 1];
      assert forall i :: 0 <= i < |init| ==> init[i] == xs[i];
      Positions(init, key, k) + (if key(xs[|xs| - 1]) == k then [|xs| - 1] else [])
  }

  /** Every element's position is listed under its key. */
  lemma {:induction false} PositionsComplete<T, K>(xs: seq<T>, key: T -> K, j: nat)
    requires j < |xs|
    ensures j in Positions(xs, key, key(xs[j]))
    decreases |xs|
  {
    var init := xs[..|xs| - 1];
    if j < |init| {
      assert init[j] == xs[j];
      PositionsComplete(init, key, j);
    }
  }

  /** A key has positions exactly when it is one of the group keys. */
  lemma {:induction false} PositionsNonEmpty<T, K(!new)>(xs: seq<T>, key: T -> K, k: K)
    ensures |Positions(xs, key, k)| > 0 <==> k in GroupKeys(xs, key)
    decreases |xs|
  {
    if xs != [] {
      var init := xs[..|xs| - 1];
      PositionsNonEmpty(init, key, k);
      assert forall i :: 0 <= i < |init| ==> init[i] == xs[i];
    }
  }

  /** Extending a prefix by one element: how the group keys and the positions of every key change. */
  lemma GroupStep<T, K(!new)>(xs: seq<T>, key: T -> K, i: nat)
    requires i < |xs|
    ensures GroupKeys(xs[..i + 1], key) ==
      var ks := GroupKeys(xs[..i], key); if key(xs[i]) in ks then ks else ks + [key(xs[i])]
    ensures forall k ::
      (Positions(xs[..i + 1], key, k) == Positions(xs[..i], key, k) + (if key(xs[i]) == k then [i] else []))
  {
    assert xs[..i + 1][..i] == xs[..i];
  }

  /** A prefix one longer is the prefix with the next element appended. */
  lemma PrefixSnoc<T>(xs: seq<T>, i: nat)
    requires i < |xs|
    ensures xs[..i + 1] == xs[..i] + [xs[i]]
  {
  }

  /** A list of one element is sorted as it is. */
  lemma SortBySingle<T>(x: T, le: (T, T) -> bool)
    ensures SortBy([x], le) == [x]
  {
    assert [x][..0] == [];
  }

  /** The values `f(x)` of the elements `x` of `xs` that satisfy `p` (a set filled in a loop). */
  function ValuesWhere<T, V(==)>(xs: seq<T>, f: T -> V, p: V -> bool): set<V> {
    if xs == [] then {}
    else
      var v := f(xs[|xs| - 1]);
      ValuesWhere(xs[..|xs| - 1], f, p) + (if p(v) then {v} else {})
  }

  /** The set holds exactly the values that satisfy `p`. */
  lemma {:induction false} ValuesWhereMembers<T, V>(xs: seq<T>, f: T -> V, p: V -> bool, v: V)
    ensures v in ValuesWhere(xs, f, p) <==> exists j :: 0 <= j < |xs| && f(xs[j]) == v && p(v)
    decreases |xs|
  {
    if xs != [] {
      var init := xs[..|xs| - 1];
      ValuesWhereMembers(init, f, p, v);
      if v in ValuesWhere(init, f, p) {
        var j :| 0 <= j < |init| && f(init[j]) == v && p(v);
        assert xs[j] == init[j];
      }
      if exists j :: 0 <= j < |xs| && f(xs[j]) == v && p(v) {
        var j :| 0 <= j < |xs| && f(xs[j]) == v && p(v);
        if j < |init| {
          assert init[j] == xs[j];
        }
      }
    }
  }

  /** Extending a prefix by one element adds its value if it satisfies `p`. */
  lemma ValuesWhereStep<T, V>(xs: seq<T>, f: T -> V, p: V -> bool, i: nat)
    requires i < |xs|
    ensures ValuesWhere(xs[..i + 1], f, p) ==
      ValuesWhere(xs[..i], f, p) + (if p(f(xs[i])) then {f(xs[i])} else {})
  {
    assert xs[..i + 1][..i] == xs[..i];
  }

  /** The union of the sets `f` gives for the elements of a list. */
  function UnionOf<T, V>(xs: seq<T>, f: T -> set<V>): set<V> {
    if xs == [] then {} else UnionOf(xs[..|xs| - 1], f) + f(xs[|xs| - 1])
  }

  /** A value is in the union exactly when it is in the set of some element. */
  lemma {:induction false} UnionOfMembers<T, V>(xs: seq<T>, f: T -> set<V>, v: V)
    ensures v in UnionOf(xs, f) <==> exists j :: 0 <= j < |xs| && v in f(xs[j])
    decreases |xs|
  {
    if xs != [] {
      var init := xs[..|xs| - 1];
      UnionOfMembers(init, f, v);
      if v in UnionOf(init, f) {
        var j :| 0 <= j < |init| && v in f(init[j]);
        assert xs[j] == init[j];
      }
      if exists j :: 0 <= j < |xs| && v in f(xs[j]) {
        var j :| 0 <= j < |xs| && v in f(xs[j]);
        if j < |init| {
          assert init[j] == xs[j];
        }
      }
    }
  }

  lemma UnionOfStep<T, V>(xs: seq<T>, f: T -> set<V>, i: nat)
    requires i < |xs|
    ensures UnionOf(xs[..i + 1], f) == UnionOf(xs[..i], f) + f(xs[i])
  {
    assert xs[..i + 1][..i] == xs[..i];
  }

  /** The prefix of length `i` of the prefix of length `i + 1`. */
  lemma PrefixOfPrefix<T>(xs: seq<T>, i: nat)
    requires i < |xs|
    ensures xs[..i + 1][..i] == xs[..i]
  {
  }

  /** The prefix of full length is the whole list. */
  lemma PrefixAll<T>(xs: seq<T>)
    ensures xs[..|xs|] == xs
  {
  }

  /** A non-empty list is its prefix without the last element, followed by that element. */
  lemma InitLast<T>(xs: seq<T>)
    requires xs != []
    ensures xs == xs[..|xs| - 1] + [xs[|xs| - 1]]
  {
  }

  /** Appending is associative; stated once so that long appended blocks are not compared element by element. */
  /** Appending leaves every prefix of the left operand in place. */
  lemma PrefixOfAppend<T>(a: seq<T>, b: seq<T>, k: nat)
    requires k <= |a|
    ensures (a + b)[..k] == a[..k]
  {
  }

  lemma AppendAssoc<T>(a: seq<T>, b: seq<T>, c: seq<T>)
    ensures (a + b) + c == a + (b + c)
  {
  }

  /** The positions at which two lists of the same length differ. */
  function Differences<T(==)>(a: seq<T>, b: seq<T>): (d: set<int>)
    requires |a| == |b|
    ensures forall j :: j in d <==> 0 <= j < |a| && a[j] != b[j]
  {
    set j | 0 <= j < |a| && a[j] != b[j]
  }

  /** Changing a position where two lists agree adds exactly that position to their differences. */
  lemma DifferencesGrow<T>(a: seq<T>, b: seq<T>, j: int, x: T)
    requires |a| == |b| && 0 <= j < |a| && a[j] == b[j] && x != a[j]
    ensures |Differences(a, b[j := x])| == |Differences(a, b)| + 1
  {
    assert Differences(a, b[j := x]) == Differences(a, b) + {j};
  }

  // ---------------------------------------------------------------------------
  // Sums over a list
  // ---------------------------------------------------------------------------

  /** `sum(f(x) for x in xs)`. */
  function SumBy<T>(xs: seq<T>, f: T -> nat): nat {
    if xs == [] then 0 else SumBy(xs[..|xs| - 1], f) + f(xs[|xs| - 1])
  }

  lemma SumBySnoc<T>(a: seq<T>, x: T, f: T -> nat)
    ensures SumBy(a + [x], f) == SumBy(a, f) + f(x)
  {
    assert (a + [x])[..|a|] == a;
  }

  lemma {:induction false} SumByAppend<T>(a: seq<T>, b: seq<T>, f: T -> nat)
    ensures SumBy(a + b, f) == SumBy(a, f) + SumBy(b, f)
    decreases |b|
  {
    if b == [] {
      assert a + b == a;
    } else {
      var b0 := b[..|b| - 1];
      assert (a + b)[..|a + b| - 1] == a + b0;
      assert (a + b)[|a + b| - 1] == b[|b| - 1];
      SumByAppend(a, b0, f);
    }
  }

  /** A positive sum has a positive term. */
  lemma {:induction false} SumByPositive<T>(xs: seq<T>, f: T -> nat) returns (i: nat)
    requires SumBy(xs, f) > 0
    ensures i < |xs| && f(xs[i]) > 0
    decreases |xs|
  {
    var init := xs[..|xs| - 1];
    if f(xs[|xs| - 1]) > 0 {
      i := |xs| - 1;
    } else {
      i := SumByPositive(init, f);
      assert xs[i] == init[i];
    }
  }

  /** A sum of ones is the length. */
  lemma {:induction false} SumByOnes<T>(xs: seq<T>, f: T -> nat)
    requires forall i :: 0 <= i < |xs| ==> f(xs[i]) == 1
    ensures SumBy(xs, f) == |xs|
    decreases |xs|
  {
    if xs != [] {
      var init := xs[..|xs| - 1];
      assert forall i :: 0 <= i < |init| ==> init[i] == xs[i];
      SumByOnes(init, f);
    }
  }

  /** Taking out the element at `j` takes its term out of the sum. */
  lemma SumByRemove<T>(b: seq<T>, j: nat, f: T -> nat)
    requires j < |b|
    ensures SumBy(b, f) == SumBy(b[..j] + b[j + 1..], f) + f(b[j])
  {
    var front, x, back := b[..j], b[j], b[j + 1..];
    PartsAround(b, j);
    SumByAppend(front + [x], back, f);
    SumByAppend(front, [x], f);
    SumByAppend(front, back, f);
    assert SumBy([x], f) == f(x) by { assert [x][..0] == []; }
  }

  /** A list is its part before `j`, its element at `j` and its part after. */
  lemma PartsAround<T>(b: seq<T>, j: nat)
    requires j < |b|
    ensures b == b[..j] + [b[j]] + b[j + 1..]
  {
  }

  lemma MultisetRemove<T>(b: seq<T>, j: nat)
    requires j < |b|
    ensures multiset(b[..j] + b[j + 1..]) + multiset{b[j]} == multiset(b)
  {
    PartsAround(b, j);
  }

  /** A sum does not depend on the order of the elements. */
  lemma {:induction false} SumByPermutation<T>(a: seq<T>, b: seq<T>, f: T -> nat)
    requires multiset(a) == multiset(b)
    ensures SumBy(a, f) == SumBy(b, f)
    decreases |a|
  {
    if a == [] {
      assert |b| == |multiset(b)| == 0;
    } else {
      var init, x := a[..|a| - 1], a[|a| - 1];
      assert multiset(a) == multiset(init) + multiset{x} by { assert a == init + [x]; }
      assert x in multiset(b);
      var j :| 0 <= j < |b| && b[j] == x;
      SumByRemove(b, j, f);
      MultisetRemove(b, j);
      assert multiset(init) == multiset(b) - multiset{x};
      assert multiset(b[..j] + b[j + 1..]) == multiset(b) - multiset{x};
      SumByPermutation(init, b[..j] + b[j + 1..], f);
    }
  }

  // ---------------------------------------------------------------------------
  // Lists built by a loop that appends at most one element per key
  // ---------------------------------------------------------------------------

  /** `for k in ks: if f(k) is not None: out.append(f(k))`. */
  function Gather<K, R>(ks: seq<K>, f: K -> Option<R>): seq<R>
    decreases |ks|
  {
    if ks == [] then [] else Gather(ks[..|ks| - 1], f) + f(ks[|ks| - 1]).ToSeq()
  }

  lemma GatherStep<K, R>(ks: seq<K>, f: K -> Option<R>, i: nat)
    requires i < |ks|
    ensures Gather(ks[..i + 1], f) == Gather(ks[..i], f) + f(ks[i]).ToSeq()
  {
    assert ks[..i + 1][..i] == ks[..i];
  }

  /** Every gathered element is the value of one of the keys. */
  lemma {:induction false} GatherElement<K, R>(ks: seq<K>, f: K -> Option<R>, i: nat) returns (k: K)
    requires i < |Gather(ks, f)|
    ensures k in ks && f(k) == Some(Gather(ks, f)[i])
    decreases |ks|
  {
    var init := ks[..|ks| - 1];
    if i < |Gather(init, f)| {
      k := GatherElement(init, f, i);
    } else {
      k := ks[|ks| - 1];
    }
  }

  /**
   * When every value carries its own key and the keys are distinct, the gathered list
   * holds one element with key `k` if `k` has a value, and none otherwise.
   */
  lemma {:induction false} GatherKeyCount<K(!new), R>(ks: seq<K>, f: K -> Option<R>, key: R -> K, ind: R -> nat, k: K)
    requires forall i, j :: 0 <= i < j < |ks| ==> ks[i] != ks[j]
    requires forall j :: 0 <= j < |ks| && f(ks[j]).Some? ==> key(f(ks[j]).value) == ks[j]
    requires forall r :: ind(r) == if key(r) == k then 1 else 0
    ensures SumBy(Gather(ks, f), ind) == if k in ks && f(k).Some? then 1 else 0
    decreases |ks|
  {
    if ks != [] {
      var init, last := ks[..|ks| - 1], ks[|ks| - 1];
      assert forall j :: 0 <= j < |init| ==> init[j] == ks[j];
      GatherKeyCount(init, f, key, ind, k);
      GatherLastCount(ks, f, ind);
      LastKeyCount(ks, f, key, ind, k);
    }
  }

  /** The count over the gathered values splits into that of the earlier keys and that of the last one. */
  lemma GatherLastCount<K, R>(ks: seq<K>, f: K -> Option<R>, ind: R -> nat)
    requires ks != []
    ensures var last := ks[|ks| - 1];
      SumBy(Gather(ks, f), ind) ==
        SumBy(Gather(ks[..|ks| - 1], f), ind) + (if f(last).Some? then ind(f(last).value) else 0)
  {
    var tail := f(ks[|ks| - 1]).ToSeq();
    SumByAppend(Gather(ks[..|ks| - 1], f), tail, ind);
    if tail != [] {
      assert tail[..0] == [];
    }
  }

  /** With distinct keys, `k` is the last key or one of the earlier ones, not both. */
  lemma LastKeyCount<K(!new), R>(ks: seq<K>, f: K -> Option<R>, key: R -> K, ind: R -> nat, k: K)
    requires ks != []
    requires forall i, j :: 0 <= i < j < |ks| ==> ks[i] != ks[j]
    requires f(ks[|ks| - 1]).Some? ==> key(f(ks[|ks| - 1]).value) == ks[|ks| - 1]
    requires forall r :: ind(r) == if key(r) == k then 1 else 0
    ensures var init, last := ks[..|ks| - 1], ks[|ks| - 1];
      (if k in ks && f(k).Some? then 1 else 0) ==
        (if k in init && f(k).Some? then 1 else 0) + (if f(last).Some? then ind(f(last).value) else 0)
  {
    var init, last := ks[..|ks| - 1], ks[|ks| - 1];
    assert ks == init + [last];
    if k == last {
      assert k !in init by {
        forall j | 0 <= j < |init| ensures init[j] != k {
          assert init[j] == ks[j];
        }
      }
      assert k in ks;
    }
    if f(last).Some? {
      IndicatorAt(key, ind, k, f(last).value);
    }
  }

  /** The indicator of `k` at one value (stated for a value taken out of an `Option`). */
  lemma IndicatorAt<K(!new), R>(key: R -> K, ind: R -> nat, k: K, r: R)
    requires forall r :: ind(r) == if key(r) == k then 1 else 0
    ensures ind(r) == if key(r) == k then 1 else 0
  {
  }
}
