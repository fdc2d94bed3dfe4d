/** Stable sorting by a comparison that is a total preorder on the elements at hand: any two
    stable sorts agree, and what reversing the comparison does to the result. */
module StableSort {
  import opened Common

  ghost predicate Within<T>(s: seq<T>, u: set<T>) {
    forall x :: x in s ==> x in u
  }

  ghost predicate PreorderOn<T>(le: (T, T) -> bool, u: set<T>) {
    && (forall x, y :: x in u && y in u ==> le(x, y) || le(y, x))
    && (forall x, y, z :: x in u && y in u && z in u && le(x, y) && le(y, z) ==> le(x, z))
  }

  ghost predicate Sorted<T>(le: (T, T) -> bool, s: seq<T>) {
    forall i, j :: 0 <= i < j < |s| ==> le(s[i], s[j])
  }

  predicate Tied<T>(le: (T, T) -> bool, x: T, y: T) {
    le(x, y) && le(y, x)
  }

  /** The elements of `s` that tie with `x`, in order. */
  function Block<T>(le: (T, T) -> bool, x: T, s: seq<T>): seq<T> {
    if s == [] then []
    else (if Tied(le, x, s[0]) then [s[0]] else []) + Block(le, x, s[1..])
  }

  ghost predicate SameBlocks<T>(le: (T, T) -> bool, u: set<T>, s: seq<T>, t: seq<T>) {
    forall x :: x in u ==> Block(le, x, s) == Block(le, x, t)
  }

  /** What a stable sort promises: ordered, and ties keep the order they had. */
  ghost predicate IsStableSort<T>(le: (T, T) -> bool, u: set<T>, s: seq<T>, out: seq<T>) {
    Within(out, u) && Sorted(le, out) && SameBlocks(le, u, s, out)
  }

  lemma {:induction false} BlockMember<T>(le: (T, T) -> bool, u: set<T>, x: T, s: seq<T>)
    requires PreorderOn(le, u) && x in u
    ensures x in s <==> x in Block(le, x, s)
    decreases |s|
  {
    if s != [] {
      BlockMember(le, u, x, s[1..]);
    }
  }

  lemma {:induction false} BlockAppend<T>(le: (T, T) -> bool, x: T, s: seq<T>, t: seq<T>)
    ensures Block(le, x, s + t) == Block(le, x, s) + Block(le, x, t)
    decreases |s|
  {
    if s == [] {
      assert s + t == t;
    } else {
      TailOfAppend(s, t);
      BlockAppend(le, x, s[1..], t);
      AppendAssoc(if Tied(le, x, s[0]) then [s[0]] else [], Block(le, x, s[1..]), Block(le, x, t));
    }
  }

  lemma {:induction false} BlockCount<T>(le: (T, T) -> bool, u: set<T>, x: T, s: seq<T>)
    requires PreorderOn(le, u) && x in u
    ensures multiset(Block(le, x, s))[x] == multiset(s)[x]
    decreases |s|
  {
    if s != [] {
      assert s == [s[0]] + s[1..];
      BlockCount(le, u, x, s[1..]);
    }
  }

  /** Equal blocks make a permutation. */
  lemma SameBlocksPermute<T>(le: (T, T) -> bool, u: set<T>, s: seq<T>, t: seq<T>)
    requires PreorderOn(le, u) && Within(s, u) && Within(t, u) && SameBlocks(le, u, s, t)
    ensures multiset(s) == multiset(t)
  {
    forall x ensures multiset(s)[x] == multiset(t)[x] {
      if x in u {
        BlockCount(le, u, x, s);
        BlockCount(le, u, x, t);
      } else {
        assert x !in s && x !in t;
      }
    }
  }

  lemma FirstsAgree<T>(le: (T, T) -> bool, u: set<T>, s: seq<T>, t: seq<T>)
    requires PreorderOn(le, u) && Within(s, u) && Within(t, u) && SameBlocks(le, u, s, t)
    requires Sorted(le, s) && Sorted(le, t) && s != []
    ensures t != [] && s[0] == t[0]
  {
    var x := s[0];
    BlockMember(le, u, x, s);
    BlockMember(le, u, x, t);
    var y := t[0];
    BlockMember(le, u, y, t);
    BlockMember(le, u, y, s);
    assert y in s && le(x, y) && le(y, x);
    assert Block(le, x, s)[0] == x && Block(le, x, t)[0] == y;
  }

  /** Any two stable sorts of the same rows give the same list. */
  lemma {:induction false} StableSortUnique<T>(le: (T, T) -> bool, u: set<T>, s: seq<T>, t: seq<T>)
    requires PreorderOn(le, u) && Within(s, u) && Within(t, u) && SameBlocks(le, u, s, t)
    requires Sorted(le, s) && Sorted(le, t)
    ensures s == t
    decreases |s|
  {
    if s == [] {
      SameBlocksPermute(le, u, s, t);
      assert |multiset(t)| == 0;
    } else {
      FirstsAgree(le, u, s, t);
      forall x | x in u ensures Block(le, x, s[1..]) == Block(le, x, t[1..]) {
        var head := if Tied(le, x, s[0]) then [s[0]] else [];
        assert Block(le, x, s) == head + Block(le, x, s[1..]) && Block(le, x, t) == head + Block(le, x, t[1..]);
        assert Block(le, x, s[1..]) == Block(le, x, s)[|head|..];
      }
      StableSortUnique(le, u, s[1..], t[1..]);
      assert s == [s[0]] + s[1..] && t == [t[0]] + t[1..];
    }
  }

  // ---------- A stable sort exists ----------

  function Insert<T>(le: (T, T) -> bool, x: T, s: seq<T>): (r: seq<T>)
    ensures forall y :: y in r ==> y == x || y in s
  {
    if s == [] || le(x, s[0]) then [x] + s
    else
      assert s == [s[0]] + s[1..];
      [s[0]] + Insert(le, x, s[1..])
  }

  function Sort<T>(le: (T, T) -> bool, s: seq<T>): (r: seq<T>)
    ensures forall y :: y in r ==> y in s
  {
    if s == [] then []
    else
      assert s == [s[0]] + s[1..];
      Insert(le, s[0], Sort(le, s[1..]))
  }

  lemma {:induction false} InsertSorted<T>(le: (T, T) -> bool, u: set<T>, x: T, s: seq<T>)
    requires PreorderOn(le, u) && x in u && Within(s, u) && Sorted(le, s)
    ensures Sorted(le, Insert(le, x, s))
    decreases |s|
  {
    if s != [] && !le(x, s[0]) {
      var rest := Insert(le, x, s[1..]);
      InsertSorted(le, u, x, s[1..]);
      assert s[0] in s;
      forall k | 0 <= k < |rest| ensures le(s[0], rest[k]) {
        assert rest[k] in rest;
        if rest[k] != x {
          var m :| 0 <= m < |s| - 1 && s[1..][m] == rest[k];
          assert s[m + 1] == rest[k];
        }
      }
    }
  }

  /** An element that comes strictly after another is in none of its blocks. */
  lemma ApartBlocks<T>(le: (T, T) -> bool, u: set<T>, x: T, z: T, y: T)
    requires PreorderOn(le, u) && x in u && y in u && z in u && !le(x, z)
    ensures Block(le, y, [x]) == [] || Block(le, y, [z]) == []
  {
    assert Tied(le, y, x) && Tied(le, y, z) ==> le(x, z);
  }

  /** Inserting puts the element before the ones it ties with. */
  lemma {:induction false} InsertBlock<T>(le: (T, T) -> bool, u: set<T>, x: T, s: seq<T>, y: T)
    requires PreorderOn(le, u) && x in u && y in u && Within(s, u)
    ensures Block(le, y, Insert(le, x, s)) == Block(le, y, [x]) + Block(le, y, s)
    decreases |s|
  {
    if s == [] || le(x, s[0]) {
      BlockAppend(le, y, [x], s);
    } else {
      var rest := Insert(le, x, s[1..]);
      assert s[0] in s;
      InsertBlock(le, u, x, s[1..], y);
      BlockAppend(le, y, [s[0]], rest);
      BlockAppend(le, y, [s[0]], s[1..]);
      assert s == [s[0]] + s[1..];
      ApartBlocks(le, u, x, s[0], y);
    }
  }

  /** The insertion sort is a stable sort. */
  lemma {:induction false} SortIsStable<T>(le: (T, T) -> bool, u: set<T>, s: seq<T>)
    requires PreorderOn(le, u) && Within(s, u)
    ensures IsStableSort(le, u, s, Sort(le, s))
    decreases |s|
  {
    if s != [] {
      assert s[0] in s;
      SortIsStable(le, u, s[1..]);
      InsertSorted(le, u, s[0], Sort(le, s[1..]));
      forall x | x in u ensures Block(le, x, s) == Block(le, x, Sort(le, s)) {
        InsertBlock(le, u, s[0], Sort(le, s[1..]), x);
        BlockAppend(le, x, [s[0]], s[1..]);
        assert s == [s[0]] + s[1..];
      }
    }
  }

  // ---------- Reversing the comparison ----------

  /** How many leading elements tie with `x`. */
  function LeadingTies<T>(le: (T, T) -> bool, x: T, s: seq<T>): (n: nat)
    ensures n <= |s|
    ensures forall k :: 0 <= k < n ==> Tied(le, x, s[k])
    ensures n < |s| ==> !Tied(le, x, s[n])
  {
    if s == [] || !Tied(le, x, s[0]) then 0 else 1 + LeadingTies(le, x, s[1..])
  }

  /** The blocks of a sorted list in reverse order, each block as it was. */
  function ReverseBlocks<T>(le: (T, T) -> bool, s: seq<T>): (r: seq<T>)
    ensures |r| == |s|
    ensures forall x :: x in r ==> x in s
    decreases |s|
  {
    if s == [] then []
    else
      var n := 1 + LeadingTies(le, s[0], s[1..]);
      ReverseBlocks(le, s[n..]) + s[..n]
  }

  lemma {:induction false} BlockOfNone<T>(le: (T, T) -> bool, x: T, s: seq<T>)
    requires forall k :: 0 <= k < |s| ==> !Tied(le, x, s[k])
    ensures Block(le, x, s) == []
    decreases |s|
  {
    if s != [] {
      BlockOfNone(le, x, s[1..]);
    }
  }

  /** In a sorted list the leading block is all there is of it. */
  lemma LeadingBlock<T>(le: (T, T) -> bool, u: set<T>, s: seq<T>, n: nat)
    requires PreorderOn(le, u) && Within(s, u) && Sorted(le, s) && s != []
    requires n == 1 + LeadingTies(le, s[0], s[1..])
    ensures forall k :: 0 <= k < n ==> Tied(le, s[0], s[k])
    ensures forall k :: n <= k < |s| ==> !le(s[k], s[0])
  {
    assert forall k :: 0 <= k < |s| ==> s[k] in u;
    forall k | 1 <= k < n ensures Tied(le, s[0], s[k]) {
      assert s[1..][k - 1] == s[k];
    }
    if n < |s| {
      assert s[1..][n - 1] == s[n];
      assert !Tied(le, s[0], s[n]);
      forall k | n <= k < |s| ensures !le(s[k], s[0]) {
        assert (k == n || le(s[n], s[k])) && le(s[0], s[n]);
      }
    }
  }

  /** Moving the leading block behind the rest keeps every block. */
  lemma FirstBehindRest<T>(le: (T, T) -> bool, u: set<T>, s: seq<T>, n: nat, back: seq<T>, x: T)
    requires PreorderOn(le, u) && Within(s, u) && Sorted(le, s) && s != [] && x in u
    requires n == 1 + LeadingTies(le, s[0], s[1..])
    requires Block(le, x, back) == Block(le, x, s[n..])
    ensures Block(le, x, back + s[..n]) == Block(le, x, s)
  {
    LeadingBlock(le, u, s, n);
    assert s == s[..n] + s[n..];
    BlockAppend(le, x, s[..n], s[n..]);
    BlockAppend(le, x, back, s[..n]);
    assert forall k :: 0 <= k < |s| ==> s[k] in u;
    if Tied(le, x, s[0]) {
      BlockOfNone(le, x, s[n..]);
    } else {
      forall k | 0 <= k < n ensures !Tied(le, x, s[..n][k]) {
        assert Tied(le, s[0], s[k]);
      }
      BlockOfNone(le, x, s[..n]);
    }
  }

  lemma {:induction false} ReverseBlocksKeeps<T>(le: (T, T) -> bool, u: set<T>, s: seq<T>)
    requires PreorderOn(le, u) && Within(s, u) && Sorted(le, s)
    ensures forall i, j :: 0 <= i < j < |ReverseBlocks(le, s)| ==> le(ReverseBlocks(le, s)[j], ReverseBlocks(le, s)[i])
    ensures SameBlocks(le, u, s, ReverseBlocks(le, s))
    decreases |s|
  {
    if s != [] {
      var n := 1 + LeadingTies(le, s[0], s[1..]);
      var back := ReverseBlocks(le, s[n..]);
      ReverseBlocksKeeps(le, u, s[n..]);
      forall x | x in u ensures Block(le, x, s) == Block(le, x, back + s[..n]) {
        FirstBehindRest(le, u, s, n, back, x);
      }
      BackBeforeFirst(le, u, s, n, back);
    }
  }

  lemma BackBeforeFirst<T>(le: (T, T) -> bool, u: set<T>, s: seq<T>, n: nat, back: seq<T>)
    requires PreorderOn(le, u) && Within(s, u) && Sorted(le, s) && s != []
    requires n == 1 + LeadingTies(le, s[0], s[1..])
    requires forall k, m :: 0 <= k < m < |back| ==> le(back[m], back[k])
    requires forall x :: x in back ==> x in s[n..]
    ensures forall i, j :: 0 <= i < j < |back + s[..n]| ==> le((back + s[..n])[j], (back + s[..n])[i])
  {
    var r := back + s[..n];
    LeadingBlock(le, u, s, n);
    assert forall k :: 0 <= k < |s| ==> s[k] in u;
    forall i, j | 0 <= i < j < |r| ensures le(r[j], r[i]) {
      if j >= |back| {
        assert r[j] == s[j - |back|] && Tied(le, s[0], r[j]);
        if i < |back| {
          assert r[i] in back;
          var k :| 0 <= k < |s| - n && s[n..][k] == r[i];
          assert le(s[0], s[n + k]);
        } else {
          assert r[i] == s[i - |back|] && Tied(le, s[0], r[i]);
        }
      }
    }
  }
}
