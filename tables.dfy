// Sequence operations that stand for the SQL the query layer issues
// (WHERE, COUNT, OFFSET/LIMIT, a primary-key lookup) and for the list
// copies the front-end makes (filter by index, remove one element).
module Tables {
  import opened Wrappers

  function Min(a: int, b: int): int { if a <= b then a else b }

  /** The rows of `s` that satisfy `p`, in table order (a WHERE clause). */
  function Where<T>(s: seq<T>, p: T -> bool): (r: seq<T>)
    ensures |r| <= |s|
    ensures forall x :: x in r ==> x in s && p(x)
    ensures forall k :: 0 <= k < |s| && p(s[k]) ==> s[k] in r
    decreases |s|
  {
    if s == [] then []
    else
      var init := s[..|s| - 1];
      assert forall k :: 0 <= k < |init| ==> init[k] == s[k];
      Where(init, p) + (if p(s[|s| - 1]) then [s[|s| - 1]] else [])
  }

  /** SELECT COUNT(*) ... WHERE p. */
  function CountWhere<T>(s: seq<T>, p: T -> bool): (n: nat)
    ensures n <= |s|
  {
    |Where(s, p)|
  }

  /** The positions of the rows that satisfy `p`. */
  ghost function IndicesWhere<T>(s: seq<T>, p: T -> bool): set<int>
  {
    set k | 0 <= k < |s| && p(s[k])
  }

  /** Appending a row extends the WHERE result by that row exactly when it matches. */
  lemma WhereSnoc<T>(s: seq<T>, x: T, p: T -> bool)
    ensures Where(s + [x], p) == Where(s, p) + (if p(x) then [x] else [])
  {
    assert (s + [x])[..|s|] == s;
  }

  /** The count is the number of matching positions. */
  lemma {:induction false} CountIsNumberOfMatches<T>(s: seq<T>, p: T -> bool)
    ensures CountWhere(s, p) == |IndicesWhere(s, p)|
    decreases |s|
  {
    if s == [] {
      assert IndicesWhere(s, p) == {};
    } else {
      var init, last := s[..|s| - 1], s[|s| - 1];
      assert s == init + [last];
      WhereSnoc(init, last, p);
      CountIsNumberOfMatches(init, p);
      IndicesSnoc(s, p);
    }
  }

  lemma IndicesSnoc<T>(s: seq<T>, p: T -> bool)
    requires s != []
    ensures |IndicesWhere(s, p)| == |IndicesWhere(s[..|s| - 1], p)| + (if p(s[|s| - 1]) then 1 else 0)
  {
    var init := s[..|s| - 1];
    var before := IndicesWhere(init, p);
    if p(s[|s| - 1]) {
      assert IndicesWhere(s, p) == before + {|s| - 1};
      assert |s| - 1 !in before;
    } else {
      assert IndicesWhere(s, p) == before;
    }
  }

  /** Every row matches exactly when the count is the whole table. */
  lemma {:induction false} CountAllIff<T>(s: seq<T>, p: T -> bool)
    ensures CountWhere(s, p) == |s| <==> forall k :: 0 <= k < |s| ==> p(s[k])
    decreases |s|
  {
    if s != [] {
      var init, last := s[..|s| - 1], s[|s| - 1];
      assert s == init + [last];
      WhereSnoc(init, last, p);
      CountAllIff(init, p);
      assert forall k :: 0 <= k < |init| ==> init[k] == s[k];
    }
  }

  /** More rows never lower a count. */
  lemma {:induction false} CountMonotone<T>(s: seq<T>, extra: seq<T>, p: T -> bool)
    ensures CountWhere(s, p) <= CountWhere(s + extra, p)
    decreases |extra|
  {
    if extra == [] {
      assert s + extra == s;
    } else {
      var init, last := extra[..|extra| - 1], extra[|extra| - 1];
      assert s + extra == (s + init) + [last];
      WhereSnoc(s + init, last, p);
      CountMonotone(s, init, p);
    }
  }

  /** OFFSET skip LIMIT limit over rows already in order. */
  function Page<T>(s: seq<T>, skip: nat, limit: nat): (r: seq<T>)
    ensures |r| == if skip >= |s| then 0 else Min(limit, |s| - skip)
    ensures forall k :: 0 <= k < |r| ==> r[k] == s[skip + k]
  {
    if skip >= |s| then [] else s[skip..skip + Min(limit, |s| - skip)]
  }

  /** The position of the first row satisfying `p`, if any. */
  function IndexWhere<T>(s: seq<T>, p: T -> bool): (r: Option<nat>)
    ensures r.Some? ==> r.value < |s| && p(s[r.value])
    ensures r.Some? ==> forall j :: 0 <= j < r.value ==> !p(s[j])
    ensures r.None? <==> forall j :: 0 <= j < |s| ==> !p(s[j])
    decreases |s|
  {
    if s == [] then None
    else if p(s[0]) then Some(0)
    else match IndexWhere(s[1..], p)
      case None => None
      case Some(k) => Some(k + 1)
  }

  /** `s.filter((_, i) => i !== k)`: drop position k, keep the order of the rest. */
  function RemoveAt<T>(s: seq<T>, k: nat): (r: seq<T>)
    ensures k < |s| ==> |r| == |s| - 1
    ensures k < |s| ==> forall j :: 0 <= j < k ==> r[j] == s[j]
    ensures k < |s| ==> forall j :: k <= j < |r| ==> r[j] == s[j + 1]
    ensures k >= |s| ==> r == s
  {
    if k < |s| then s[..k] + s[k + 1..] else s
  }
}
