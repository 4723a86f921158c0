/** Vocabulary shared by every model file: identifiers, timestamps, the optional
    value, the library oracles the handlers call, and an order-preserving filter
    that stands for a `SELECT ... WHERE` over a table. */
module Common {

  /** Primary keys that the handlers generate with `uuid::Uuid::new_v4().to_string()`. */
  type Id = string

  /** A `chrono::NaiveDateTime`, counted in whole seconds. */
  type Timestamp = int

  /** `chrono::Duration::hours(3)`, the shift several writes add to a timestamp. */
  const ThreeHours: int := 3 * 60 * 60

  datatype Option<T> = None | Some(value: T)

  /** A library parser (`str::parse`, `NaiveDateTime::parse_from_str`): the model
      never interprets it, it only asks whether the text parsed and to what. */
  type Parser = string -> Option<int>

  /** Bounds of the integer column types the handlers parse into. */
  const I16Min: int := -0x8000
  const I16Max: int := 0x7FFF
  const I32Min: int := -0x8000_0000
  const I32Max: int := 0x7FFF_FFFF

  /** `s.parse::<iN>()`: the text must be a decimal integer that fits the width. */
  function ParseBounded(parse: Parser, s: string, lo: int, hi: int): (r: Option<int>)
    ensures r.Some? <==> parse(s).Some? && lo <= parse(s).value <= hi
    ensures r.Some? ==> r.value == parse(s).value && lo <= r.value <= hi
  {
    match parse(s)
    case Some(v) => if lo <= v <= hi then Some(v) else None
    case None => None
  }

  /** The rows of `s` that satisfy `keep`, in table order. */
  function Filter<T(!new)>(s: seq<T>, keep: T -> bool): (r: seq<T>)
    ensures |r| <= |s|
    ensures forall x {:trigger multiset(r)[x]} :: multiset(r)[x] == if keep(x) then multiset(s)[x] else 0
    ensures forall x {:trigger x in r} :: x in r <==> x in s && keep(x)
  {
    if s == [] then []
    else
      var init, last := s[..|s| - 1], s[|s| - 1];
      assert s == init + [last];
      Filter(init, keep) + (if keep(last) then [last] else [])
  }

  /** The position `.first()` reads on a filtered query: the earliest row in
      storage order that satisfies `keep` (the handlers `expect` it, so a match
      must exist). */
  function FirstIndex<T(!new)>(s: seq<T>, keep: T -> bool): (i: nat)
    requires exists x :: x in s && keep(x)
    ensures i < |s| && keep(s[i])
    ensures forall j :: 0 <= j < i ==> !keep(s[j])
  {
    if keep(s[0]) then 0
    else
      assert exists x :: x in s[1..] && keep(x) by {
        var x :| x in s && keep(x);
        var k :| 0 <= k < |s| && s[k] == x;
        assert s[1..][k - 1] == x;
      }
      1 + FirstIndex(s[1..], keep)
  }

  /** `.first()` on a filtered query. */
  function First<T(!new)>(s: seq<T>, keep: T -> bool): (r: T)
    requires exists x :: x in s && keep(x)
    ensures r in s && keep(r)
  {
    s[FirstIndex(s, keep)]
  }

  /** Two tables of the same length that agree on which positions match have
      their first match at the same position. */
  lemma FirstIndexAgree<T(!new)>(s: seq<T>, t: seq<T>, keep: T -> bool)
    requires |s| == |t| && forall i :: 0 <= i < |s| ==> (keep(s[i]) <==> keep(t[i]))
    requires exists x :: x in s && keep(x)
    ensures exists x :: x in t && keep(x)
    ensures FirstIndex(s, keep) == FirstIndex(t, keep)
  {
    var i := FirstIndex(s, keep);
    assert t[i] in t;
    var j := FirstIndex(t, keep);
    assert !(i < j) && !(j < i);
  }

  /** Filtering distributes over appending one row. */
  lemma FilterSnoc<T(!new)>(s: seq<T>, x: T, keep: T -> bool)
    ensures Filter(s + [x], keep) == Filter(s, keep) + (if keep(x) then [x] else [])
  {
    assert (s + [x])[..|s|] == s;
  }

  /** Two tables of the same length that agree at every position where either
      row is kept give the same filtered result. */
  lemma {:induction false} FilterAgree<T(!new)>(s: seq<T>, t: seq<T>, keep: T -> bool)
    requires |s| == |t|
    requires forall i :: 0 <= i < |s| && (keep(s[i]) || keep(t[i])) ==> s[i] == t[i]
    ensures Filter(s, keep) == Filter(t, keep)
  {
    if s != [] {
      var n := |s| - 1;
      FilterAgree(s[..n], t[..n], keep);
      assert s == s[..n] + [s[n]];
      assert t == t[..n] + [t[n]];
      FilterSnoc(s[..n], s[n], keep);
      FilterSnoc(t[..n], t[n], keep);
    }
  }

  /** Filtering distributes over concatenation. */
  lemma {:induction false} FilterAppend<T(!new)>(s: seq<T>, t: seq<T>, keep: T -> bool)
    ensures Filter(s + t, keep) == Filter(s, keep) + Filter(t, keep)
  {
    if t != [] {
      var n := |t| - 1;
      FilterAppend(s, t[..n], keep);
      assert s + t == (s + t[..n]) + [t[n]];
      assert t == t[..n] + [t[n]];
      FilterSnoc(s + t[..n], t[n], keep);
      FilterSnoc(t[..n], t[n], keep);
    } else {
      assert s + t == s;
    }
  }

  /** A second, weaker filter adds nothing to a stronger one. */
  lemma {:induction false} FilterFilter<T(!new)>(s: seq<T>, outer: T -> bool, inner: T -> bool)
    requires forall x :: inner(x) ==> outer(x)
    ensures Filter(Filter(s, outer), inner) == Filter(s, inner)
  {
    if s != [] {
      var n := |s| - 1;
      FilterFilter(s[..n], outer, inner);
      assert s == s[..n] + [s[n]];
      FilterSnoc(s[..n], s[n], outer);
      FilterSnoc(s[..n], s[n], inner);
      if outer(s[n]) {
        FilterSnoc(Filter(s[..n], outer), s[n], inner);
      } else {
        assert Filter(s, outer) == Filter(s[..n], outer);
      }
    }
  }

  /** Two tests that agree on every row of the table select the same rows. */
  lemma {:induction false} FilterSame<T(!new)>(s: seq<T>, f: T -> bool, g: T -> bool)
    requires forall x :: x in s ==> f(x) == g(x)
    ensures Filter(s, f) == Filter(s, g)
  {
    if s != [] {
      var n := |s| - 1;
      assert s == s[..n] + [s[n]];
      FilterSame(s[..n], f, g);
    }
  }

  /** Two filters applied one after the other select the same rows, in the
      same order, whichever runs first. */
  lemma {:induction false} FilterCommute<T(!new)>(s: seq<T>, f: T -> bool, g: T -> bool)
    ensures Filter(Filter(s, f), g) == Filter(Filter(s, g), f)
  {
    if s != [] {
      var n := |s| - 1;
      assert s == s[..n] + [s[n]];
      FilterCommute(s[..n], f, g);
      FilterSnoc(s[..n], s[n], f);
      FilterSnoc(s[..n], s[n], g);
      if f(s[n]) {
        FilterSnoc(Filter(s[..n], f), s[n], g);
      } else {
        assert Filter(s, f) == Filter(s[..n], f);
      }
      if g(s[n]) {
        FilterSnoc(Filter(s[..n], g), s[n], f);
      } else {
        assert Filter(s, g) == Filter(s[..n], g);
      }
    }
  }

  /** Nothing passes a filter that no row satisfies. */
  lemma {:induction false} FilterNone<T(!new)>(s: seq<T>, keep: T -> bool)
    requires forall i :: 0 <= i < |s| ==> !keep(s[i])
    ensures Filter(s, keep) == []
  {
    if s != [] {
      var n := |s| - 1;
      FilterNone(s[..n], keep);
    }
  }

  /** `ORDER BY ... ASC` */
  ghost predicate Ascending(s: seq<int>)
  {
    forall i, j :: 0 <= i < j < |s| ==> s[i] <= s[j]
  }

  /** Every value of a permutation of `s` plus `x` is at least `low` when
      every value of `s` and `x` itself are. */
  lemma NoSmallerThan(rest: seq<int>, s: seq<int>, x: int, low: int)
    requires multiset(rest) == multiset(s) + multiset{x}
    requires forall k :: 0 <= k < |s| ==> low <= s[k]
    requires low <= x
    ensures forall k :: 0 <= k < |rest| ==> low <= rest[k]
  {
    forall k | 0 <= k < |rest| ensures low <= rest[k] {
      assert rest[k] in multiset(rest);
      if rest[k] != x {
        assert rest[k] in multiset(s);
        var i :| 0 <= i < |s| && s[i] == rest[k];
      }
    }
  }

  /** A value no larger than any of an ascending sequence can go in front. */
  lemma ConsAscending(h: int, s: seq<int>)
    requires Ascending(s)
    requires forall k :: 0 <= k < |s| ==> h <= s[k]
    ensures Ascending([h] + s)
  {
    forall i, j | 0 <= i < j < |[h] + s| ensures ([h] + s)[i] <= ([h] + s)[j] {
      if i > 0 {
        assert ([h] + s)[i] == s[i - 1];
      }
      assert ([h] + s)[j] == s[j - 1];
    }
  }

  /** Inserts `x` into an ascending sequence, keeping it ascending. */
  function InsertAscending(x: int, s: seq<int>): (r: seq<int>)
    requires Ascending(s)
    ensures Ascending(r)
    ensures |r| == |s| + 1
    ensures multiset(r) == multiset(s) + multiset{x}
  {
    if s == [] || x <= s[0] then
      ConsAscending(x, s);
      [x] + s
    else
      var rest := InsertAscending(x, s[1..]);
      assert s == [s[0]] + s[1..];
      NoSmallerThan(rest, s[1..], x, s[0]);
      ConsAscending(s[0], rest);
      [s[0]] + rest
  }

  /** The values of `s` in ascending order (what the database returns for
      `ORDER BY column ASC`). */
  function SortAscending(s: seq<int>): (r: seq<int>)
    ensures Ascending(r)
    ensures multiset(r) == multiset(s)
    ensures |r| == |s|
  {
    if s == [] then []
    else
      assert s == [s[0]] + s[1..];
      InsertAscending(s[0], SortAscending(s[1..]))
  }
}
