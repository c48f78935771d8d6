/** Optional values, and the facts about sequences that several components share. */
module Common {
  datatype Option<+T> = None | Some(value: T)

  ghost predicate NoDup<T>(s: seq<T>) {
    forall i, j :: 0 <= i < j < |s| ==> s[i] != s[j]
  }

  function Remove<T(==,!new)>(s: seq<T>, x: T): (r: seq<T>)
    ensures forall y :: y in r <==> y in s && y != x
    ensures |r| <= |s| && (x in s ==> |r| < |s|)
    ensures NoDup(s) ==> NoDup(r)
  {
    if s == [] then [] else
      var t := Remove(s[1..], x);
      assert forall k :: 0 <= k < |t| ==> t[k] in s[1..];
      if s[0] == x then t else [s[0]] + t
  }

  lemma EmptyOrFirst<T>(s: seq<T>)
    ensures s == [] || exists x :: x in s
  {
    if s != [] { assert s[0] in s; }
  }

  lemma EmptyOrMember(s: set<int>)
    ensures s == {} || exists x :: x in s
  {
    if forall x :: x !in s { assert s == {}; }
  }

  lemma {:induction false} MinimumExists(s: set<int>)
    requires s != {}
    ensures exists m :: m in s && forall y :: y in s ==> m <= y
    decreases s
  {
    EmptyOrMember(s);
    var x :| x in s;
    var rest := s - {x};
    var least := x;
    if rest != {} {
      MinimumExists(rest);
      var m :| m in rest && forall y :: y in rest ==> m <= y;
      if m < x { least := m; }
    }
    assert least in s;
    assert forall y :: y in s ==> y == x || y in rest;
  }

  function Minimum(s: set<int>): (m: int)
    requires s != {}
    ensures m in s && forall y :: y in s ==> m <= y
  {
    MinimumExists(s);
    var m :| m in s && forall y :: y in s ==> m <= y;
    m
  }

  ghost predicate Ascending(s: seq<int>) {
    forall i, j :: 0 <= i < j < |s| ==> s[i] < s[j]
  }

  lemma {:induction false} RemoveAscending(s: seq<int>, x: int)
    requires Ascending(s)
    ensures Ascending(Remove(s, x))
  {
    if s != [] {
      var t := Remove(s[1..], x);
      RemoveAscending(s[1..], x);
      forall y | y in t ensures s[0] < y {
        assert y in s[1..];
      }
      assert forall k :: 0 <= k < |t| ==> t[k] in t;
    }
  }

  lemma NoDupSize<T>(s: seq<T>, members: set<T>)
    requires NoDup(s) && members == (set x | x in s)
    ensures |members| == |s|
  {
    if s == [] {
      assert members == {};
    } else {
      var init := s[..|s| - 1];
      var last := s[|s| - 1];
      assert s == init + [last];
      NoDupSize(init, members - {last});
    }
  }

  lemma SubsetSize<T>(a: set<T>, b: set<T>)
    requires a <= b
    ensures |a| <= |b|
  {
    assert b == a + (b - a);
  }

  lemma Appended<T>(a: seq<T>, b: seq<T>, c: seq<T>)
    ensures (a + b) + c == a + (b + c)
  {
  }

  // ----- sorting, as Python's `sorted` leaves its result

  ghost predicate TotalOrder<T(!new)>(le: (T, T) -> bool) {
    && (forall a, b :: le(a, b) || le(b, a))
    && (forall a, b, c :: le(a, b) && le(b, c) ==> le(a, c))
  }

  ghost predicate SortedBy<T>(s: seq<T>, le: (T, T) -> bool) {
    forall i, j :: 0 <= i < j < |s| ==> le(s[i], s[j])
  }

  /** `x` put after everything in `s` that is no greater, so that equal items keep their order. */
  function Insert<T>(s: seq<T>, x: T, le: (T, T) -> bool): (r: seq<T>)
    ensures |r| == |s| + 1
  {
    if s == [] || le(s[|s| - 1], x) then s + [x] else Insert(s[..|s| - 1], x, le) + [s[|s| - 1]]
  }

  function Sort<T>(s: seq<T>, le: (T, T) -> bool): (r: seq<T>)
    ensures |r| == |s|
  {
    if s == [] then [] else Insert(Sort(s[..|s| - 1], le), s[|s| - 1], le)
  }

  lemma {:induction false} InsertKeeps<T>(s: seq<T>, x: T, le: (T, T) -> bool)
    ensures multiset(Insert(s, x, le)) == multiset(s) + multiset{x}
  {
    if s != [] && !le(s[|s| - 1], x) {
      var init, last := s[..|s| - 1], s[|s| - 1];
      InsertKeeps(init, x, le);
      assert s == init + [last];
      assert Insert(s, x, le) == Insert(init, x, le) + [last];
    }
  }

  lemma {:induction false} InsertSorts<T(!new)>(s: seq<T>, x: T, le: (T, T) -> bool)
    requires TotalOrder(le) && SortedBy(s, le)
    ensures SortedBy(Insert(s, x, le), le)
  {
    if s == [] {
    } else if le(s[|s| - 1], x) {
      var last := |s| - 1;
      forall i | 0 <= i < |s| ensures le(s[i], x) {
        if i < last { assert le(s[i], s[last]) && le(s[last], x); }
      }
    } else {
      var init, last := s[..|s| - 1], s[|s| - 1];
      InsertSorts(init, x, le);
      InsertKeeps(init, x, le);
      assert s == init + [last];
      var r := Insert(init, x, le);
      assert Insert(s, x, le) == r + [last];
      forall i | 0 <= i < |r| ensures le(r[i], last) {
        assert r[i] in multiset(r);
        assert r[i] == x || r[i] in init;
      }
    }
  }

  /** `Sort` permutes its argument into order. */
  lemma {:induction false} SortSpec<T(!new)>(s: seq<T>, le: (T, T) -> bool)
    ensures multiset(Sort(s, le)) == multiset(s)
    ensures TotalOrder(le) ==> SortedBy(Sort(s, le), le)
  {
    if s != [] {
      SortSpec(s[..|s| - 1], le);
      InsertKeeps(Sort(s[..|s| - 1], le), s[|s| - 1], le);
      if TotalOrder(le) { InsertSorts(Sort(s[..|s| - 1], le), s[|s| - 1], le); }
      assert s == s[..|s| - 1] + [s[|s| - 1]];
    }
  }
}
