/** What every controller shares: document ids, the HTTP status codes the
    handlers answer with, a collection listed in its natural order, and the
    `skip`/`limit` pagination with its `Math.ceil(total / limit)` page count. */
module Base {
  import opened Common
  import opened Sorting

  /** A document id; ids are handed out in increasing order, so ascending id
      is the order documents were inserted in. */
  type Id = nat

  const OK := 200
  const CREATED := 201
  const BAD_REQUEST := 400
  const FORBIDDEN := 403
  const NOT_FOUND := 404
  const SERVER_ERROR := 500

  /** The documents of a collection whose ids lie below `n`, in id order. */
  function Listing<T>(m: map<Id, T>, n: nat): (r: seq<(Id, T)>)
    ensures forall k :: 0 <= k < |r| ==> r[k].0 in m && r[k].0 < n && m[r[k].0] == r[k].1
    ensures forall i :: i in m && i < n ==> (i, m[i]) in r
    ensures forall a, b :: 0 <= a < b < |r| ==> r[a].0 < r[b].0
  {
    if n == 0 then []
    else
      var prev := Listing(m, n - 1);
      if n - 1 in m then prev + [(n - 1, m[n - 1])] else prev
  }

  /** The documents with ids below `n` that satisfy the query `p`, in id
      order. */
  function Select<T>(m: map<Id, T>, n: nat, p: T -> bool): (r: seq<(Id, T)>)
    ensures forall k :: 0 <= k < |r| ==> r[k].0 in m && r[k].0 < n && m[r[k].0] == r[k].1 && p(r[k].1)
    ensures forall i :: i in m && i < n && p(m[i]) ==> (i, m[i]) in r
    ensures forall a, b :: 0 <= a < b < |r| ==> r[a].0 < r[b].0
  {
    if n == 0 then []
    else
      var prev := Select(m, n - 1, p);
      if n - 1 in m && p(m[n - 1]) then prev + [(n - 1, m[n - 1])] else prev
  }

  /** `find(query).sort(key)`: the documents below `n` satisfying `p`,
      ordered by `key`. */
  function SelectSorted<T>(m: map<Id, T>, n: nat, p: T -> bool, key: ((Id, T)) -> int): (r: seq<(Id, T)>)
    ensures forall k :: 0 <= k < |r| ==> r[k].0 in m && r[k].0 < n && m[r[k].0] == r[k].1 && p(r[k].1)
    ensures forall i :: i in m && i < n && p(m[i]) ==> (i, m[i]) in r
    ensures SortedBy(r, key)
    ensures multiset(r) == multiset(Select(m, n, p))
    ensures forall a, b :: 0 <= a < b < |r| ==> r[a].0 != r[b].0
  {
    var sel := Select(m, n, p);
    var r := SortBy(sel, key);
    forall k | 0 <= k < |r| ensures r[k] in sel {
      SortByMembers(sel, key, r[k]);
    }
    forall i | i in m && i < n && p(m[i]) ensures (i, m[i]) in r {
      SortByMembers(sel, key, (i, m[i]));
    }
    forall a, b | 0 <= a < b < |r| ensures r[a].0 != r[b].0 {
      CountOnce(sel, r[a]);
      RepeatCounts(r, a, b);
    }
    r
  }

  /** In a list without repeated elements, each element occurs at most
      once. */
  lemma {:induction false} CountOnce<T>(s: seq<T>, x: T)
    requires forall a, b :: 0 <= a < b < |s| ==> s[a] != s[b]
    ensures multiset(s)[x] <= 1
  {
    if s != [] {
      assert s == [s[0]] + s[1..];
      CountOnce(s[1..], x);
      if s[0] == x {
        assert x !in s[1..];
      }
    }
  }

  /** An element found at two positions occurs at least twice. */
  lemma RepeatCounts<T>(s: seq<T>, a: nat, b: nat)
    requires a < b < |s|
    ensures s[a] == s[b] ==> multiset(s)[s[a]] >= 2
  {
    assert s == s[..b] + s[b..];
    assert s[a] == s[..b][a] && s[b] == s[b..][0];
  }

  /** A query nothing satisfies selects nothing. */
  lemma {:induction false} SelectNone<T>(m: map<Id, T>, n: nat, p: T -> bool)
    requires forall i :: i in m && i < n ==> !p(m[i])
    ensures Select(m, n, p) == []
  {
    if n > 0 {
      SelectNone(m, n - 1, p);
    }
  }

  /** Two collections that agree on the documents satisfying `p` select the
      same rows. */
  lemma {:induction false} SelectSame<T>(m: map<Id, T>, m': map<Id, T>, n: nat, p: T -> bool)
    requires forall i :: i < n ==> ((i in m && p(m[i])) <==> (i in m' && p(m'[i])))
    requires forall i :: i < n && i in m && p(m[i]) ==> m'[i] == m[i]
    ensures Select(m', n, p) == Select(m, n, p)
  {
    if n > 0 {
      SelectSame(m, m', n - 1, p);
    }
  }

  /** Changing one document so that it no longer satisfies `p` drops it,
      and only it, from the selection. */
  lemma {:induction false} SelectLess<T>(m: map<Id, T>, m': map<Id, T>, n: nat, p: T -> bool, id: Id)
    requires m'.Keys == m.Keys && id in m && !p(m'[id])
    requires forall i :: i in m && i != id ==> m'[i] == m[i]
    ensures |Select(m', n, p)| == |Select(m, n, p)| - (if id < n && p(m[id]) then 1 else 0)
  {
    if n > 0 {
      var j := n - 1;
      SelectLess(m, m', j, p, id);
      SelectStep(m, j, p);
      SelectStep(m', j, p);
      if j in m && j != id {
        assert m'[j] == m[j];
      }
    }
  }

  /** One more id adds a row exactly when that document satisfies `p`. */
  lemma SelectStep<T>(m: map<Id, T>, n: nat, p: T -> bool)
    ensures |Select(m, n + 1, p)| == |Select(m, n, p)| + (if n in m && p(m[n]) then 1 else 0)
  {
  }

  /** The elements satisfying `p`, in their original order. */
  function Where<T(!new)>(s: seq<T>, p: T -> bool): (r: seq<T>)
    ensures |r| <= |s|
    ensures forall x :: x in r <==> x in s && p(x)
    ensures forall k :: 0 <= k < |r| ==> p(r[k])
    ensures forall x :: multiset(r)[x] == if p(x) then multiset(s)[x] else 0
  {
    if s == [] then []
    else
      var rest := Where(s[1..], p);
      assert s == [s[0]] + s[1..];
      WhereCons(s[0], s[1..], rest, p);
      if p(s[0]) then [s[0]] + rest else rest
  }

  /** What `Where` promises, one element further. */
  lemma WhereCons<T(!new)>(h: T, t: seq<T>, rt: seq<T>, p: T -> bool)
    requires |rt| <= |t|
    requires forall x :: x in rt <==> x in t && p(x)
    requires forall k :: 0 <= k < |rt| ==> p(rt[k])
    requires forall x :: multiset(rt)[x] == if p(x) then multiset(t)[x] else 0
    ensures var r := if p(h) then [h] + rt else rt;
      && |r| <= |[h] + t|
      && (forall x :: x in r <==> x in [h] + t && p(x))
      && (forall k :: 0 <= k < |r| ==> p(r[k]))
      && (forall x :: multiset(r)[x] == if p(x) then multiset([h] + t)[x] else 0)
  {
    assert forall x :: x in [h] + t <==> x == h || x in t;
    assert multiset([h] + t) == multiset{h} + multiset(t);
    if p(h) {
      var r := [h] + rt;
      assert multiset(r) == multiset{h} + multiset(rt);
      assert forall k :: 0 < k < |r| ==> r[k] == rt[k - 1];
    }
  }

  /** Filtering a concatenation filters each part, keeping their order. */
  lemma {:induction false} WhereAppend<T(!new)>(a: seq<T>, b: seq<T>, p: T -> bool)
    ensures Where(a + b, p) == Where(a, p) + Where(b, p)
  {
    if a == [] {
      assert a + b == b;
    } else {
      assert a + b == [a[0]] + (a[1..] + b);
      WhereAppend(a[1..], b, p);
    }
  }

  /** Keeping every element keeps the list. */
  lemma {:induction false} WhereAll<T(!new)>(s: seq<T>, p: T -> bool)
    requires forall k :: 0 <= k < |s| ==> p(s[k])
    ensures Where(s, p) == s
  {
    if s != [] {
      assert forall k :: 0 <= k < |s[1..]| ==> s[1..][k] == s[k + 1];
      WhereAll(s[1..], p);
      assert [s[0]] + s[1..] == s;
    }
  }

  /** No element occurs twice. */
  predicate NoDup<T(==)>(s: seq<T>) {
    forall i, j :: 0 <= i < j < |s| ==> s[i] != s[j]
  }

  lemma NoDupCons<T>(h: T, t: seq<T>)
    ensures NoDup([h] + t) <==> h !in t && NoDup(t)
  {
    var r := [h] + t;
    assert forall k :: 0 <= k < |t| ==> r[k + 1] == t[k];
    if h !in t && NoDup(t) {
      forall i, j | 0 <= i < j < |r| ensures r[i] != r[j] {
        if i == 0 {
          assert r[j] in t;
        }
      }
    }
    if NoDup(r) {
      forall i, j | 0 <= i < j < |t| ensures t[i] != t[j] {
        assert r[i + 1] != r[j + 1];
      }
    }
    if h in t {
      var k :| 0 <= k < |t| && t[k] == h;
      assert r[0] == r[k + 1];
    }
  }

  /** A filter of a list without duplicates has none. */
  lemma {:induction false} WhereNoDup<T(!new)>(s: seq<T>, p: T -> bool)
    requires NoDup(s)
    ensures NoDup(Where(s, p))
  {
    if s != [] {
      assert s == [s[0]] + s[1..];
      NoDupCons(s[0], s[1..]);
      WhereNoDup(s[1..], p);
      if p(s[0]) {
        NoDupCons(s[0], Where(s[1..], p));
      }
    }
  }

  /** `s.filter(y => y != x)`: every occurrence of `x` removed. */
  function Remove<T(==,!new)>(s: seq<T>, x: T): (r: seq<T>)
    ensures forall y :: y in r <==> y in s && y != x
    ensures x !in s ==> r == s
    ensures NoDup(s) ==> NoDup(r)
  {
    RemoveFacts(s, x);
    Where(s, y => y != x)
  }

  lemma RemoveFacts<T(!new)>(s: seq<T>, x: T)
    ensures x !in s ==> Where(s, y => y != x) == s
    ensures NoDup(s) ==> NoDup(Where(s, y => y != x))
  {
    if x !in s {
      WhereAll(s, y => y != x);
    }
    if NoDup(s) {
      WhereNoDup(s, y => y != x);
    }
  }

  /** `if (!s.includes(x)) s.push(x)`: `x` added at the end unless present. */
  function AddOnce<T(==,!new)>(s: seq<T>, x: T): (r: seq<T>)
    ensures forall y :: y in r <==> y in s || y == x
    ensures x in s ==> r == s
    ensures x !in s ==> r == s + [x]
    ensures NoDup(s) ==> NoDup(r)
  {
    if x in s then s
    else
      assert forall i :: 0 <= i < |s| ==> (s + [x])[i] == s[i];
      s + [x]
  }

  /** How many elements satisfy `p`. */
  function Count<T(!new)>(s: seq<T>, p: T -> bool): (n: nat)
    ensures n <= |s|
    ensures n == |Where(s, p)|
  {
    if s == [] then 0 else (if p(s[0]) then 1 else 0) + Count(s[1..], p)
  }

  lemma {:induction false} CountZero<T(!new)>(s: seq<T>, p: T -> bool)
    ensures Count(s, p) == 0 <==> forall k :: 0 <= k < |s| ==> !p(s[k])
  {
    if s != [] {
      CountZero(s[1..], p);
      assert forall k :: 1 <= k < |s| ==> s[k] == s[1..][k - 1];
    }
  }

  /** The number of rows before page `page`: `(page - 1) * limit`, written
      as a sum of whole pages so that the arithmetic stays linear. */
  function Skip(page: int, limit: nat): nat {
    if page <= 1 then 0 else Skip(page - 1, limit) + limit
  }

  lemma {:induction false} SkipIsProduct(page: int, limit: nat)
    requires page >= 1
    ensures Skip(page, limit) == (page - 1) * limit
  {
    if page > 1 {
      SkipIsProduct(page - 1, limit);
      assert (page - 2) * limit + limit == (page - 1) * limit;
    }
  }

  /** `.skip((page - 1) * limit).limit(limit)`. */
  function Page<T>(s: seq<T>, page: int, limit: int): (r: seq<T>)
    requires page >= 1 && limit >= 1
    ensures |r| <= limit
    ensures forall k :: 0 <= k < |r| ==> Skip(page, limit) + k < |s| && r[k] == s[Skip(page, limit) + k]
    ensures var from := Skip(page, limit);
      |r| == if from >= |s| then 0 else if from + limit <= |s| then limit else |s| - from
  {
    var from := Skip(page, limit);
    if from >= |s| then []
    else s[from..if from + limit <= |s| then from + limit else |s|]
  }

  /** A page of a sorted list is sorted. */
  lemma PageSorted<T>(s: seq<T>, page: int, limit: int, key: T -> int)
    requires page >= 1 && limit >= 1 && SortedBy(s, key)
    ensures SortedBy(Page(s, page, limit), key)
  {
    var r := Page(s, page, limit);
    forall i, j | 0 <= i < j < |r| ensures key(r[i]) <= key(r[j]) {
      assert r[i] == s[Skip(page, limit) + i] && r[j] == s[Skip(page, limit) + j];
    }
  }

  /** A page of a list of stored documents satisfying `q` holds only stored
      documents satisfying `q`. */
  lemma StoredPage<T>(all: seq<(Id, T)>, m: map<Id, T>, q: T -> bool, page: int, limit: int)
    requires page >= 1 && limit >= 1
    requires forall k :: 0 <= k < |all| ==> all[k].0 in m && m[all[k].0] == all[k].1 && q(all[k].1)
    ensures var rows := Page(all, page, limit);
      forall k :: 0 <= k < |rows| ==> rows[k].0 in m && m[rows[k].0] == rows[k].1 && q(rows[k].1)
  {
    var rows := Page(all, page, limit);
    forall k | 0 <= k < |rows| ensures rows[k].0 in m && m[rows[k].0] == rows[k].1 && q(rows[k].1) {
      assert rows[k] == all[Skip(page, limit) + k];
    }
  }

  /** `Math.ceil(total / limit)`. */
  function TotalPages(total: nat, limit: int): (p: int)
    requires limit >= 1
    ensures p >= 0
    ensures p * limit >= total && (p - 1) * limit < total
  {
    CeilDiv(total, limit)
  }

  lemma MulMono(a: int, b: int, c: int)
    requires a <= b && c >= 0
    ensures a * c <= b * c
  {
    assert b * c - a * c == (b - a) * c;
  }

  /** A results page covers exactly the positions from `(page - 1) * limit`
      up to, not including, `page * limit`, so position `k` is on page
      `k / limit + 1` and on no other. */
  lemma PageOfPosition(limit: int, page: int, k: nat)
    requires limit >= 1 && page >= 1
    ensures (page - 1) * limit <= k < page * limit <==> page == k / limit + 1
  {
    var q := k / limit;
    assert q * limit + k % limit == k;
    if page - 1 < q {
      MulMono(page, q, limit);
    } else if page - 1 > q {
      MulMono(q + 1, page - 1, limit);
    }
  }

  /** The page of position `k` is no later than the last page reported. */
  lemma LastPageBound(total: nat, limit: int, k: nat)
    requires limit >= 1 && k < total
    ensures 1 <= k / limit + 1 <= TotalPages(total, limit)
  {
    var q := k / limit;
    assert q * limit <= k;
    var p := TotalPages(total, limit);
    if p < q + 1 {
      MulMono(p, q, limit);
    }
  }

  /** Position `k` is row `k % limit` of page `k / limit + 1`. */
  lemma RowOfPosition<T>(s: seq<T>, limit: int, k: nat)
    requires limit >= 1 && k < |s|
    ensures k % limit < |Page(s, k / limit + 1, limit)|
    ensures Page(s, k / limit + 1, limit)[k % limit] == s[k]
  {
    var q := k / limit;
    var r := k % limit;
    DivMod(k, limit);
    SkipIsProduct(q + 1, limit);
    assert Skip(q + 1, limit) + r == k;
  }

  lemma DivMod(k: nat, limit: int)
    requires limit >= 1
    ensures (k / limit) * limit + k % limit == k && 0 <= k % limit < limit
  {
  }

  /** Every result lies on a page no later than the last one reported, at
      position `k % limit` of page `k / limit + 1`. */
  lemma EveryRowOnAPage<T>(s: seq<T>, limit: int, k: nat)
    requires limit >= 1 && k < |s|
    ensures 1 <= k / limit + 1 <= TotalPages(|s|, limit)
    ensures k % limit < |Page(s, k / limit + 1, limit)|
    ensures Page(s, k / limit + 1, limit)[k % limit] == s[k]
  {
    LastPageBound(|s|, limit, k);
    RowOfPosition(s, limit, k);
  }

  /** Every element of a list is on some page no later than the last one
      reported. */
  lemma OnSomePage<T>(s: seq<T>, limit: int, x: T)
    requires limit >= 1 && x in s
    ensures exists p :: 1 <= p <= TotalPages(|s|, limit) && x in Page(s, p, limit)
  {
    var k :| 0 <= k < |s| && s[k] == x;
    EveryRowOnAPage(s, limit, k);
    var p := k / limit + 1;
    assert Page(s, p, limit)[k % limit] == x;
  }
}
