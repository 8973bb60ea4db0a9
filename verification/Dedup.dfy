/** The order-sensitive de-duplication family: `_delete_duplicates` and the insert loops at the end
    of `MergeFlags`, all tied to two reference functions. */
module Dedup {

  /** An element of a construction variable's list: a string, or some other Python object, which may
      be unhashable. */
  datatype Item = Str(text: string) | Object(id: nat, hashable: bool)

  predicate Hashable(x: Item) { x.Str? || x.hashable }

  function Rev<T>(s: seq<T>): (r: seq<T>)
    ensures |r| == |s|
    ensures forall i | 0 <= i < |s| :: r[i] == s[|s| - 1 - i]
  {
    if s == [] then [] else Rev(s[1..]) + [s[0]]
  }

  /** Keep the first of equal elements. */
  function KeepFirst<T(==,!new)>(s: seq<T>): (r: seq<T>)
    ensures forall x :: x in r <==> x in s
  {
    if s == [] then []
    else
      var n := |s| - 1;
      assert s == s[..n] + [s[n]];
      if s[n] in s[..n] then KeepFirst(s[..n]) else KeepFirst(s[..n]) + [s[n]]
  }

  /** Keep the last of equal elements. */
  function KeepLast<T(==,!new)>(s: seq<T>): (r: seq<T>)
    ensures forall x :: x in r <==> x in s
  {
    if s == [] then []
    else
      assert s == [s[0]] + s[1..];
      if s[0] in s[1..] then KeepLast(s[1..]) else [s[0]] + KeepLast(s[1..])
  }

  predicate Distinct<T(==,!new)>(s: seq<T>) {
    forall i, j | 0 <= i < j < |s| :: s[i] != s[j]
  }

  lemma RevRev<T(!new)>(s: seq<T>)
    ensures Rev(Rev(s)) == s
  {}

  lemma RevAppend<T(!new)>(a: seq<T>, b: seq<T>)
    ensures Rev(a + b) == Rev(b) + Rev(a)
  {}

  lemma RevMember<T(!new)>(s: seq<T>, x: T)
    ensures x in Rev(s) <==> x in s
  {
    if x in s {
      var i :| 0 <= i < |s| && s[i] == x;
      assert Rev(s)[|s| - 1 - i] == x;
    }
  }

  // ---- What the reference functions mean ----

  function FirstIndex<T(==,!new)>(s: seq<T>, x: T): (i: nat)
    requires x in s
    ensures i < |s| && s[i] == x && x !in s[..i]
  {
    if s[0] == x then 0
    else
      assert s == [s[0]] + s[1..];
      var i := FirstIndex(s[1..], x);
      assert s[..i + 1] == [s[0]] + s[1..][..i];
      i + 1
  }

  /** `KeepFirst` lists each element once, in the order of first occurrence. */
  lemma {:induction false} KeepFirstMeaning<T(!new)>(s: seq<T>)
    ensures Distinct(KeepFirst(s)) && InOrder(s, KeepFirst(s))
  {
    if s != [] {
      var n := |s| - 1;
      KeepFirstMeaning(s[..n]);
      var r := KeepFirst(s);
      forall i | 0 <= i < |r| ensures r[i] in s { assert r[i] in r; }
      forall i, j | 0 <= i < j < |r| ensures FirstIndex(s, r[i]) < FirstIndex(s, r[j]) {
        FirstIndexExtends(s, r[i]);
        FirstIndexExtends(s, r[j]);
      }
    }
  }

  lemma {:induction false} FirstIndexUnique<T(!new)>(s: seq<T>, x: T, k: nat)
    requires k < |s| && s[k] == x && x !in s[..k]
    ensures FirstIndex(s, x) == k
  {
    if k > 0 {
      assert s[..k] == [s[0]] + s[1..][..k - 1];
      FirstIndexUnique(s[1..], x, k - 1);
    }
  }

  lemma FirstIndexExtends<T(!new)>(s: seq<T>, x: T)
    requires s != [] && x in s
    ensures x in s[..|s| - 1] ==> FirstIndex(s, x) == FirstIndex(s[..|s| - 1], x)
    ensures x !in s[..|s| - 1] ==> FirstIndex(s, x) == |s| - 1
  {
    var p := s[..|s| - 1];
    if x in p {
      var k := FirstIndex(p, x);
      assert p[..k] == s[..k];
      FirstIndexUnique(s, x, k);
    } else {
      assert s == p + [s[|s| - 1]];
      FirstIndexUnique(s, x, |s| - 1);
    }
  }

  /** The elements of `r` are in `s` and come in the order of their first occurrences there. */
  predicate InOrder<T(==,!new)>(s: seq<T>, r: seq<T>) {
    && (forall i | 0 <= i < |r| :: r[i] in s)
    && (forall i, j | 0 <= i < j < |r| :: FirstIndex(s, r[i]) < FirstIndex(s, r[j]))
  }

  lemma InOrderShorter<T(!new)>(s: seq<T>, r: seq<T>)
    requires s != [] && InOrder(s, r) && forall i | 0 <= i < |r| :: r[i] in s[..|s| - 1]
    ensures InOrder(s[..|s| - 1], r)
  {
    forall i | 0 <= i < |r| ensures FirstIndex(s[..|s| - 1], r[i]) == FirstIndex(s, r[i]) {
      FirstIndexExtends(s, r[i]);
    }
  }

  lemma KeepFirstSnoc<T(!new)>(p: seq<T>, y: T)
    ensures KeepFirst(p + [y]) == if y in p then KeepFirst(p) else KeepFirst(p) + [y]
  {
    assert (p + [y])[..|p|] == p;
  }

  lemma DeterminedBelow<T(!new)>(s: seq<T>, r: seq<T>)
    requires s != [] && InOrder(s, r) && forall x :: x in r <==> x in s[..|s| - 1]
    ensures InOrder(s[..|s| - 1], r)
  {
    forall i | 0 <= i < |r| ensures r[i] in s[..|s| - 1] { assert r[i] in r; }
    InOrderShorter(s, r);
  }

  lemma {:induction false} NoMembers<T(!new)>(r: seq<T>)
    requires forall x :: x !in r
    ensures r == []
  {
    if r != [] {
      var x := SomeMember(r);
      assert false;
    }
  }

  lemma SomeMember<T(!new)>(r: seq<T>) returns (x: T)
    requires r != []
    ensures x in r
  {
    x := r[0];
  }

  /** Only one list says each element once in the order of first occurrence, so the meaning above
      determines `KeepFirst`. */
  lemma {:induction false} KeepFirstIsDetermined<T(!new)>(s: seq<T>, r: seq<T>)
    requires Distinct(r) && InOrder(s, r) && (forall x :: x in r <==> x in s)
    ensures r == KeepFirst(s)
  {
    if s == [] {
      NoMembers(r);
    } else {
      var q := DeterminedShrink(s, r);
      var n := |s| - 1;
      KeepFirstIsDetermined(s[..n], q);
      KeepFirstSnoc(s[..n], s[n]);
      assert s == s[..n] + [s[n]];
    }
  }

  lemma DeterminedShrink<T(!new)>(s: seq<T>, r: seq<T>) returns (q: seq<T>)
    requires s != [] && Distinct(r) && InOrder(s, r) && (forall x :: x in r <==> x in s)
    ensures var p, y := s[..|s| - 1], s[|s| - 1];
            Distinct(q) && InOrder(p, q) && (forall x :: x in q <==> x in p) && r == if y in p then q else q + [y]
  {
    var p, y := s[..|s| - 1], s[|s| - 1];
    assert s == p + [y];
    if y in p {
      q := r;
    } else {
      LastIsLast(s, r);
      q := r[..|r| - 1];
      DropLastMembers(p, y, q, r);
    }
    DeterminedBelow(s, q);
  }

  lemma DropLastMembers<T(!new)>(p: seq<T>, y: T, q: seq<T>, r: seq<T>)
    requires r == q + [y] && Distinct(r) && y !in p && forall x :: x in r <==> x in p + [y]
    ensures forall x :: x in q <==> x in p
  {
    forall x ensures x in q <==> x in p {
      assert x in r <==> x in q || x == y;
      assert x in p + [y] <==> x in p || x == y;
      if y in q { var i :| 0 <= i < |q| && q[i] == y; assert r[i] == r[|q|]; }
    }
  }

  lemma LastIsLast<T(!new)>(s: seq<T>, r: seq<T>)
    requires s != [] && s[|s| - 1] !in s[..|s| - 1] && InOrder(s, r) && (forall x :: x in r <==> x in s)
    ensures r != [] && r[|r| - 1] == s[|s| - 1]
  {
    var y := s[|s| - 1];
    assert y in r;
    var k :| 0 <= k < |r| && r[k] == y;
    FirstIndexExtends(s, y);
  }

  /** Keeping the last is keeping the first of the reversed list, reversed back. */
  lemma {:induction false} KeepLastIsMirrored<T(!new)>(s: seq<T>)
    ensures KeepLast(s) == Rev(KeepFirst(Rev(s)))
  {
    if s != [] {
      KeepLastIsMirrored(s[1..]);
      var r := Rev(s);
      assert r[..|r| - 1] == Rev(s[1..]) && r[|r| - 1] == s[0];
      RevMember(s[1..], s[0]);
      RevAppend(KeepFirst(Rev(s[1..])), [s[0]]);
      assert Rev([s[0]]) == [s[0]];
    }
  }

  lemma {:induction false} KeepFirstOfDistinct<T(!new)>(s: seq<T>)
    requires Distinct(s)
    ensures KeepFirst(s) == s
  {
    if s != [] {
      var n := |s| - 1;
      KeepFirstOfDistinct(s[..n]);
      assert s == s[..n] + [s[n]];
    }
  }

  lemma DistinctRev<T(!new)>(s: seq<T>)
    requires Distinct(s)
    ensures Distinct(Rev(s))
  {}

  lemma KeepLastOfDistinct<T(!new)>(s: seq<T>)
    requires Distinct(s)
    ensures KeepLast(s) == s
  {
    KeepLastIsMirrored(s);
    DistinctRev(s);
    KeepFirstOfDistinct(Rev(s));
    RevRev(s);
  }

  lemma KeepLastDistinct<T(!new)>(s: seq<T>)
    ensures Distinct(KeepLast(s))
  {
    KeepLastIsMirrored(s);
    KeepFirstMeaning(Rev(s));
    DistinctRev(KeepFirst(Rev(s)));
  }

  /** The elements of `s` that are not in `t`. */
  function Without<T(==,!new)>(s: seq<T>, t: seq<T>): (r: seq<T>)
    ensures forall x :: x in r <==> x in s && x !in t
  {
    if s == [] then []
    else
      assert s == [s[0]] + s[1..];
      (if s[0] in t then [] else [s[0]]) + Without(s[1..], t)
  }

  lemma {:induction false} WithoutSplit<T(!new)>(a: seq<T>, b: seq<T>, t: seq<T>)
    ensures Without(a + b, t) == Without(a, t) + Without(b, t)
  {
    if a == [] {
      assert a + b == b;
    } else {
      assert (a + b)[1..] == a[1..] + b;
      WithoutSplit(a[1..], b, t);
    }
  }

  lemma WithoutOne<T(!new)>(x: T, t: seq<T>)
    ensures Without([x], t) == if x in t then [] else [x]
  {
    assert [x][1..] == [];
  }

  lemma {:induction false} WithoutNothing<T(!new)>(s: seq<T>, t: seq<T>)
    requires forall x | x in s :: x !in t
    ensures Without(s, t) == s
  {
    if s != [] { WithoutNothing(s[1..], t); }
  }

  lemma {:induction false} WithoutAll<T(!new)>(s: seq<T>, t: seq<T>)
    requires forall x | x in s :: x in t
    ensures Without(s, t) == []
  {
    if s != [] { WithoutAll(s[1..], t); }
  }

  lemma {:induction false} WithoutRev<T(!new)>(s: seq<T>, t: seq<T>)
    ensures Without(Rev(s), t) == Rev(Without(s, t))
  {
    if s != [] {
      WithoutRev(s[1..], t);
      WithoutSplit(Rev(s[1..]), [s[0]], t);
      RevAppend(if s[0] in t then [] else [s[0]], Without(s[1..], t));
      assert Rev([s[0]]) == [s[0]];
    }
  }

  lemma {:induction false} WithoutSame<T(!new)>(s: seq<T>, t: seq<T>, u: seq<T>)
    requires forall x :: x in t <==> x in u
    ensures Without(s, t) == Without(s, u)
  {
    if s != [] { WithoutSame(s[1..], t, u); }
  }

  /** Keeping the first over a concatenation: the second part loses what the first part has. */
  lemma {:induction false} KeepFirstSplit<T(!new)>(a: seq<T>, b: seq<T>)
    ensures KeepFirst(a + b) == KeepFirst(a) + Without(KeepFirst(b), a)
  {
    if b == [] {
      assert a + b == a;
    } else {
      var n := |b| - 1;
      var p, y := b[..n], b[n];
      assert a + b == (a + p) + [y] && b == p + [y];
      KeepFirstSplit(a, p);
      KeepFirstSnoc(a + p, y);
      KeepFirstSnoc(p, y);
      KeepFirstSplitStep(KeepFirst(a), KeepFirst(p), y, a);
      assert y in a + p <==> y in a || y in p;
    }
  }

  lemma KeepFirstSplitStep<T(!new)>(ka: seq<T>, kp: seq<T>, y: T, a: seq<T>)
    ensures ka + Without(kp + [y], a) == if y in a then ka + Without(kp, a) else (ka + Without(kp, a)) + [y]
  {
    WithoutSplit(kp, [y], a);
    WithoutOne(y, a);
  }

  lemma KeepLastSplit<T(!new)>(a: seq<T>, b: seq<T>)
    ensures KeepLast(a + b) == Without(KeepLast(a), b) + KeepLast(b)
  {
    KeepLastIsMirrored(a + b);
    KeepLastIsMirrored(a);
    KeepLastIsMirrored(b);
    RevAppend(a, b);
    KeepFirstSplit(Rev(b), Rev(a));
    RevAppend(KeepFirst(Rev(b)), Without(KeepFirst(Rev(a)), Rev(b)));
    WithoutRev(KeepFirst(Rev(a)), Rev(b));
    forall x ensures x in Rev(b) <==> x in b { RevMember(b, x); }
    WithoutSame(Rev(KeepFirst(Rev(a))), Rev(b), b);
  }

  // ---- _delete_duplicates ----

  /** What `_delete_duplicates` keeps going forward: unhashable elements are never dropped. */
  function DropSeen(s: seq<Item>): (r: seq<Item>)
    ensures forall x :: x in r <==> x in s
  {
    if s == [] then []
    else
      var n := |s| - 1;
      assert s == s[..n] + [s[n]];
      if Hashable(s[n]) && s[n] in s[..n] then DropSeen(s[..n]) else DropSeen(s[..n]) + [s[n]]
  }

  function DeleteDuplicates(s: seq<Item>, keepLast: bool): seq<Item> {
    if keepLast then Rev(DropSeen(Rev(s))) else DropSeen(s)
  }

  predicate RepeatsUnhashable(s: seq<Item>) {
    exists i, j :: 0 <= i < j < |s| && s[i] == s[j] && !Hashable(s[i])
  }

  lemma {:induction false} DropSeenExactly(s: seq<Item>)
    ensures |DropSeen(s)| >= |KeepFirst(s)|
    ensures DropSeen(s) == KeepFirst(s) <==> !RepeatsUnhashable(s)
  {
    if s != [] {
      var n := |s| - 1;
      var p := s[..n];
      DropSeenExactly(p);
      assert RepeatsUnhashable(s) <==> RepeatsUnhashable(p) || (s[n] in p && !Hashable(s[n])) by {
        if RepeatsUnhashable(s) {
          var i, j :| 0 <= i < j < |s| && s[i] == s[j] && !Hashable(s[i]);
          if j < n { assert p[i] == p[j] && !Hashable(p[i]); } else { assert p[i] == s[n]; }
        }
        if RepeatsUnhashable(p) {
          var i, j :| 0 <= i < j < |p| && p[i] == p[j] && !Hashable(p[i]);
          assert s[i] == s[j];
        }
        if s[n] in p && !Hashable(s[n]) {
          var i :| 0 <= i < n && p[i] == s[n];
          assert s[i] == s[n];
        }
      }
      if s[n] in p && !Hashable(s[n]) {
        assert |DropSeen(s)| > |KeepFirst(s)|;
      } else if s[n] !in p {
        assert (DropSeen(p) + [s[n]])[..|DropSeen(p)|] == DropSeen(p);
        assert (KeepFirst(p) + [s[n]])[..|KeepFirst(p)|] == KeepFirst(p);
      }
    }
  }

  /** The reverse-and-seen-set code keeps exactly the first, or the last, of equal elements if and
      only if no unhashable element is repeated. */
  lemma DeleteDuplicatesExactly(s: seq<Item>, keepLast: bool)
    ensures DeleteDuplicates(s, keepLast) == (if keepLast then KeepLast(s) else KeepFirst(s)) <==> !RepeatsUnhashable(s)
  {
    if keepLast {
      DropSeenExactly(Rev(s));
      KeepLastIsMirrored(s);
      RevRev(DropSeen(Rev(s)));
      RevRev(KeepFirst(Rev(s)));
      RepeatsRevIff(s);
    } else {
      DropSeenExactly(s);
    }
  }

  lemma RepeatsRev(s: seq<Item>)
    requires RepeatsUnhashable(s)
    ensures RepeatsUnhashable(Rev(s))
  {
    var i, j :| 0 <= i < j < |s| && s[i] == s[j] && !Hashable(s[i]);
    assert Rev(s)[|s| - 1 - j] == Rev(s)[|s| - 1 - i];
  }

  lemma RepeatsRevIff(s: seq<Item>)
    ensures RepeatsUnhashable(s) <==> RepeatsUnhashable(Rev(s))
  {
    if RepeatsUnhashable(s) { RepeatsRev(s); }
    if RepeatsUnhashable(Rev(s)) { RepeatsRev(Rev(s)); RevRev(s); }
  }

  // ---- The loops ----

  method ReverseInPlace(l: array<Item>)
    modifies l
    ensures l[..] == Rev(old(l[..]))
  {
    var i, j := 0, l.Length;
    while i < j
      invariant 0 <= i && j <= l.Length && i + j == l.Length
      invariant forall k | 0 <= k < l.Length && (k < i || j <= k) :: l[k] == old(l[l.Length - 1 - k])
      invariant forall k | i <= k < j :: l[k] == old(l[k])
    {
      j := j - 1;
      l[i], l[j] := l[j], l[i];
      i := i + 1;
    }
  }

  /** `_delete_duplicates`: note that keeping the last reverses the caller's own list. */
  method DeleteDuplicatesLoop(l: array<Item>, keepLast: bool) returns (result: seq<Item>)
    modifies l
    ensures result == DeleteDuplicates(old(l[..]), keepLast)
    ensures l[..] == if keepLast then Rev(old(l[..])) else old(l[..])
  {
    if keepLast { ReverseInPlace(l); }
    var seen: set<Item> := {};
    result := [];
    var i := 0;
    while i < l.Length
      invariant 0 <= i <= l.Length
      invariant result == DropSeen(l[..i])
      invariant forall x :: x in seen <==> Hashable(x) && x in l[..i]
    {
      assert l[..i + 1] == l[..i] + [l[i]];
      if !Hashable(l[i]) {
        result := result + [l[i]];
      } else if l[i] !in seen {
        result := result + [l[i]];
        seen := seen + {l[i]};
      }
      i := i + 1;
    }
    assert l[..l.Length] == l[..];
    if keepLast { result := Rev(result); }
  }

  /** The loop of `MergeFlags` for path variables. */
  method KeepFirstLoop(orig: seq<Item>) returns (t: seq<Item>)
    ensures t == KeepFirst(orig)
  {
    t := [];
    for i := 0 to |orig|
      invariant t == KeepFirst(orig[..i])
    {
      assert orig[..i + 1][..i] == orig[..i];
      if orig[i] !in t { t := t + [orig[i]]; }
    }
    assert orig[..|orig|] == orig;
  }

  /** The loop of `MergeFlags` for other variables: backwards, inserting at the front. */
  method KeepLastLoop(orig: seq<Item>) returns (t: seq<Item>)
    ensures t == KeepLast(orig)
  {
    t := [];
    var i := |orig|;
    while i > 0
      invariant 0 <= i <= |orig|
      invariant t == KeepLast(orig[i..])
    {
      i := i - 1;
      assert orig[i..][1..] == orig[i + 1..];
      if orig[i] !in t { t := [orig[i]] + t; }
    }
  }
}
