/** Small value types shared by every part of the model: optional values,
    the "field was supplied or not" wrapper that drives partial updates,
    results with an error, and the OFFSET/LIMIT and row-order helpers that
    stand for the database's queries. */
module Common {

  datatype Option<+T> = None | Some(value: T)

  /** A field of an update request: `Unset` when the client did not send it
      (the request's `dict(exclude_unset=True)` drops it), `Set(v)` when it did. */
  datatype Patch<+T> = Unset | Set(value: T)

  /** The value a field ends with: the supplied one, or the current one. */
  function Pick<T>(patch: Patch<T>, current: T): T {
    if patch.Set? then patch.value else current
  }

  datatype Result<+R, +E> = Ok(value: R) | Err(error: E)

  function Min(a: int, b: int): int { if a <= b then a else b }

  /** SQL `OFFSET skip LIMIT limit` over an ordered result. */
  function Paginate<T>(s: seq<T>, skip: nat, limit: nat): (r: seq<T>)
    ensures |r| == if skip >= |s| then 0 else Min(limit, |s| - skip)
    ensures forall i :: 0 <= i < |r| ==> skip + i < |s| && r[i] == s[skip + i]
  {
    if skip >= |s| then [] else s[skip..skip + Min(limit, |s| - skip)]
  }

  /** A first page at least as long as the whole result is the whole result. */
  lemma PaginateAll<T>(s: seq<T>, limit: nat)
    requires limit >= |s|
    ensures Paginate(s, 0, limit) == s
  {
  }

  predicate StrictlyIncreasing(s: seq<int>) {
    forall i, j :: 0 <= i < j < |s| ==> s[i] < s[j]
  }

  /** The keys of a table below `n`, in ascending order: the order in which
      a table whose ids are handed out by a counter yields its rows when the
      query has no ORDER BY. */
  function IdsBelow(keys: set<int>, n: int): (r: seq<int>)
    ensures StrictlyIncreasing(r)
    ensures forall i :: 0 <= i < |r| ==> r[i] in keys && 1 <= r[i] < n
    ensures forall k :: k in keys && 1 <= k < n ==> k in r
    decreases n
  {
    if n <= 1 then []
    else
      var prefix := IdsBelow(keys, n - 1);
      if n - 1 in keys then prefix + [n - 1] else prefix
  }

  /** The keys of a table below `n`, as a set. */
  function KeysBelow(keys: set<int>, n: int): set<int> {
    set k | k in keys && 1 <= k < n
  }

  lemma KeysBelowStep(keys: set<int>, n: int)
    requires n > 1
    ensures n - 1 in keys ==> KeysBelow(keys, n) == KeysBelow(keys, n - 1) + {n - 1}
    ensures n - 1 !in keys ==> KeysBelow(keys, n) == KeysBelow(keys, n - 1)
    ensures n - 1 !in KeysBelow(keys, n - 1)
  {
  }

  /** A table's keys below `n` are listed once each. */
  lemma {:induction false} IdsBelowCount(keys: set<int>, n: int)
    ensures |IdsBelow(keys, n)| == |KeysBelow(keys, n)|
    decreases n
  {
    if n <= 1 {
      assert KeysBelow(keys, n) == {};
    } else {
      IdsBelowCount(keys, n - 1);
      KeysBelowStep(keys, n);
    }
  }

  /** The rows of a table, in ascending id order. */
  function Rows<T>(m: map<int, T>, next: int): (r: seq<T>)
    ensures |r| == |IdsBelow(m.Keys, next)|
    ensures forall i :: 0 <= i < |r| ==> IdsBelow(m.Keys, next)[i] in m && r[i] == m[IdsBelow(m.Keys, next)[i]]
  {
    var ids := IdsBelow(m.Keys, next);
    seq(|ids|, i requires 0 <= i < |ids| => m[ids[i]])
  }

  /** Every row listed is a stored row. */
  lemma RowsAreStored<T>(m: map<int, T>, next: int)
    ensures forall x :: x in Rows(m, next) ==> x in m.Values
  {
    var ids := IdsBelow(m.Keys, next);
    var rows := Rows(m, next);
    forall x | x in rows ensures x in m.Values {
      var i :| 0 <= i < |rows| && rows[i] == x;
      assert m[ids[i]] == x;
    }
  }

  /** The rows of a table are its stored rows, and each of them is listed. */
  lemma RowsCover<T>(m: map<int, T>, next: int)
    requires forall k :: k in m ==> 1 <= k < next
    ensures forall x :: x in Rows(m, next) ==> x in m.Values
    ensures forall k :: k in m ==> m[k] in Rows(m, next)
    ensures |Rows(m, next)| == |m|
  {
    assert KeysBelow(m.Keys, next) == m.Keys;
    IdsBelowCount(m.Keys, next);
    var ids := IdsBelow(m.Keys, next);
    var rows := Rows(m, next);
    forall x | x in rows ensures x in m.Values {
      var i :| 0 <= i < |rows| && rows[i] == x;
      assert m[ids[i]] == x;
    }
    forall k | k in m ensures m[k] in rows {
      var i :| 0 <= i < |ids| && ids[i] == k;
      assert rows[i] == m[k];
    }
  }

  /** The record that results from assigning the entries of `fs` one after
      the other with `setAttr`: what a `for key, value in data: setattr(...)`
      loop leaves behind. */
  function ApplyAll<R, F>(setAttr: (R, F) -> R, r: R, fs: seq<F>): R
    decreases |fs|
  {
    if fs == [] then r else setAttr(ApplyAll(setAttr, r, fs[..|fs| - 1]), fs[|fs| - 1])
  }

  /** Assigning `a + b` is assigning `a`, then `b`. */
  lemma {:induction false} ApplyAllConcat<R, F>(setAttr: (R, F) -> R, r: R, a: seq<F>, b: seq<F>)
    ensures ApplyAll(setAttr, r, a + b) == ApplyAll(setAttr, ApplyAll(setAttr, r, a), b)
    decreases |b|
  {
    if b == [] {
      assert a + b == a;
    } else {
      var b' := b[..|b| - 1];
      assert (a + b)[..|a + b| - 1] == a + b';
      ApplyAllConcat(setAttr, r, a, b');
    }
  }

  /** The dictionary entry of one update field: present only when supplied. */
  function PatchEntry<T, F>(p: Patch<T>, entry: T -> F): (d: seq<F>)
    ensures p.Set? ==> d == [entry(p.value)]
    ensures p.Unset? ==> d == []
  {
    if p.Set? then [entry(p.value)] else []
  }

  /** Assigning one more supplied field after `d`. */
  lemma ApplyAllPatch<R, T, F>(setAttr: (R, F) -> R, r: R, d: seq<F>, p: Patch<T>, entry: T -> F)
    ensures ApplyAll(setAttr, r, d + PatchEntry(p, entry)) ==
            if p.Set? then setAttr(ApplyAll(setAttr, r, d), entry(p.value)) else ApplyAll(setAttr, r, d)
  {
    if p.Set? {
      assert (d + [entry(p.value)])[..|d|] == d;
    } else {
      assert d + [] == d;
    }
  }

  /** Assigning one more entry after `d`. */
  lemma ApplyAllSnoc<R, F>(setAttr: (R, F) -> R, r: R, d: seq<F>, x: F)
    ensures ApplyAll(setAttr, r, d + [x]) == setAttr(ApplyAll(setAttr, r, d), x)
  {
    assert (d + [x])[..|d|] == d;
  }
}
