/** The operations the panel list and the staged list share: swapping two
    neighbours to move an entry up or down, and removing every entry with a
    given id. Entries are of any type `T` whose id is read by a `key`
    function. Also here: the predicates on unique ids, and the lemma that
    appending a batch of new, distinct ids keeps ids unique. Appending itself
    is sequence concatenation, and only the panel list is appended to. */
module OrderedList {
  import opened MangaTypes

  /** No two entries of `s` have the same key. */
  predicate DistinctKeys<T>(s: seq<T>, key: T -> Id)
  {
    forall a, b :: 0 <= a < b < |s| ==> key(s[a]) != key(s[b])
  }

  /** No identifier occurs twice in `ids`: distinct keys for bare ids. */
  predicate DistinctIds(ids: seq<Id>)
  {
    DistinctKeys(ids, (i: Id) => i)
  }

  /** No entry of `a` shares its key with an entry of `b`. */
  predicate DisjointKeys<T>(a: seq<T>, b: seq<T>, key: T -> Id)
  {
    forall i, j :: 0 <= i < |a| && 0 <= j < |b| ==> key(a[i]) != key(b[j])
  }

  /** `a` is `b` with some entries dropped and the rest in their original order. */
  predicate IsSubsequence<T(==)>(a: seq<T>, b: seq<T>)
    decreases |b|
  {
    if a == [] then true
    else if b == [] then false
    else (a[0] == b[0] && IsSubsequence(a[1..], b[1..])) || IsSubsequence(a, b[1..])
  }

  /** Positions `i` and `j` exchanged; the result is a permutation of `s`. */
  function Swap<T>(s: seq<T>, i: nat, j: nat): (r: seq<T>)
    requires i < |s| && j < |s|
    ensures |r| == |s| && r[i] == s[j] && r[j] == s[i]
    ensures forall k :: 0 <= k < |s| && k != i && k != j ==> r[k] == s[k]
    ensures multiset(r) == multiset(s)
  {
    s[i := s[j]][j := s[i]]
  }

  /** Moving the entry at `i` one place towards the front: nothing happens
      at the front itself, otherwise `i` and `i - 1` change places. */
  function MoveUp<T>(s: seq<T>, i: nat): (r: seq<T>)
    requires i < |s|
    ensures |r| == |s| && multiset(r) == multiset(s)
    ensures i == 0 ==> r == s
    ensures 0 < i ==> r[i] == s[i - 1] && r[i - 1] == s[i]
    ensures forall k :: 0 <= k < |s| && k != i && k != i - 1 ==> r[k] == s[k]
  {
    if i == 0 then s else Swap(s, i, i - 1)
  }

  /** Moving the entry at `i` one place towards the back: nothing happens
      at the last position, otherwise `i` and `i + 1` change places. */
  function MoveDown<T>(s: seq<T>, i: nat): (r: seq<T>)
    requires i < |s|
    ensures |r| == |s| && multiset(r) == multiset(s)
    ensures i == |s| - 1 ==> r == s
    ensures i < |s| - 1 ==> r[i] == s[i + 1] && r[i + 1] == s[i]
    ensures forall k :: 0 <= k < |s| && k != i && k != i + 1 ==> r[k] == s[k]
  {
    if i == |s| - 1 then s else Swap(s, i, i + 1)
  }

  /** Every entry whose key is not `id`, in the original order. */
  function RemoveById<T(==)>(s: seq<T>, key: T -> Id, id: Id): (r: seq<T>)
    ensures |r| <= |s|
    ensures forall k :: 0 <= k < |r| ==> r[k] in s && key(r[k]) != id
    ensures forall k :: 0 <= k < |s| && key(s[k]) != id ==> s[k] in r
  {
    if s == [] then []
    else if key(s[0]) == id then RemoveById(s[1..], key, id)
    else [s[0]] + RemoveById(s[1..], key, id)
  }

  /** Copies `s` into a fresh array, exchanges positions `i` and `j` there
      and returns the copy; `s` itself is a value and stays as it was. */
  method SwapCopy<T>(s: seq<T>, i: nat, j: nat) returns (r: seq<T>)
    requires i < |s| && j < |s|
    ensures r == Swap(s, i, j)
  {
    var a := new T[|s|](k requires 0 <= k < |s| => s[k]);
    var t := a[i];
    a[i] := a[j];
    a[j] := t;
    r := a[..];
  }

  /** Moving up and then moving back down restores the list. */
  lemma MoveUpThenDown<T>(s: seq<T>, i: nat)
    requires 0 < i < |s|
    ensures MoveDown(MoveUp(s, i), i - 1) == s
  {
  }

  /** Moving down and then moving back up restores the list. */
  lemma MoveDownThenUp<T>(s: seq<T>, i: nat)
    requires i + 1 < |s|
    ensures MoveUp(MoveDown(s, i), i + 1) == s
  {
  }

  /** Exchanging two entries keeps the keys distinct. */
  lemma SwapKeepsDistinct<T>(s: seq<T>, key: T -> Id, i: nat, j: nat)
    requires i < |s| && j < |s| && DistinctKeys(s, key)
    ensures DistinctKeys(Swap(s, i, j), key)
  {
  }

  /** Both moves keep the keys distinct. */
  lemma MovesKeepDistinct<T>(s: seq<T>, key: T -> Id, i: nat)
    requires i < |s| && DistinctKeys(s, key)
    ensures DistinctKeys(MoveUp(s, i), key)
    ensures DistinctKeys(MoveDown(s, i), key)
  {
  }

  /** Away from the front, moving up is the exchange with the previous entry,
      and it keeps distinct keys distinct. */
  lemma MoveUpIsSwap<T>(s: seq<T>, key: T -> Id, i: nat)
    requires 0 < i < |s| && DistinctKeys(s, key)
    ensures MoveUp(s, i) == Swap(s, i, i - 1)
    ensures DistinctKeys(MoveUp(s, i), key)
  {
    SwapKeepsDistinct(s, key, i, i - 1);
  }

  /** Away from the back, moving down is the exchange with the next entry,
      and it keeps distinct keys distinct. */
  lemma MoveDownIsSwap<T>(s: seq<T>, key: T -> Id, i: nat)
    requires i + 1 < |s| && DistinctKeys(s, key)
    ensures MoveDown(s, i) == Swap(s, i, i + 1)
    ensures DistinctKeys(MoveDown(s, i), key)
  {
    SwapKeepsDistinct(s, key, i, i + 1);
  }

  /** Removal works entry by entry, so it distributes over concatenation. */
  lemma {:induction false} RemoveConcat<T>(a: seq<T>, b: seq<T>, key: T -> Id, id: Id)
    ensures RemoveById(a + b, key, id) == RemoveById(a, key, id) + RemoveById(b, key, id)
  {
    if a != [] {
      assert (a + b)[0] == a[0];
      assert (a + b)[1..] == a[1..] + b;
      RemoveConcat(a[1..], b, key, id);
    } else {
      assert a + b == b;
    }
  }

  /** Removing an id that no entry carries leaves the list as it was. */
  lemma {:induction false} RemoveMissing<T>(s: seq<T>, key: T -> Id, id: Id)
    requires forall k :: 0 <= k < |s| ==> key(s[k]) != id
    ensures RemoveById(s, key, id) == s
  {
    if s != [] {
      RemoveMissing(s[1..], key, id);
      assert [s[0]] + s[1..] == s;
    }
  }

  /** Removing the same id a second time changes nothing. */
  lemma RemoveIdempotent<T>(s: seq<T>, key: T -> Id, id: Id)
    ensures RemoveById(RemoveById(s, key, id), key, id) == RemoveById(s, key, id)
  {
  }

  /** The entries that remain keep their original relative order. */
  lemma {:induction false} RemoveIsSubsequence<T>(s: seq<T>, key: T -> Id, id: Id)
    ensures IsSubsequence(RemoveById(s, key, id), s)
  {
    if s != [] {
      var rest := RemoveById(s[1..], key, id);
      RemoveIsSubsequence(s[1..], key, id);
      if key(s[0]) != id {
        var r := [s[0]] + rest;
        assert r[0] == s[0] && r[1..] == rest;
      }
    }
  }

  /** Removal never introduces a repeated key. */
  lemma {:induction false} RemoveKeepsDistinct<T>(s: seq<T>, key: T -> Id, id: Id)
    requires DistinctKeys(s, key)
    ensures DistinctKeys(RemoveById(s, key, id), key)
  {
    if s != [] {
      var tail := s[1..];
      assert DistinctKeys(tail, key) by {
        forall a, b | 0 <= a < b < |tail| ensures key(tail[a]) != key(tail[b]) {
          assert tail[a] == s[a + 1] && tail[b] == s[b + 1];
        }
      }
      var rest := RemoveById(tail, key, id);
      RemoveKeepsDistinct(tail, key, id);
      if key(s[0]) != id {
        var r := [s[0]] + rest;
        forall b | 0 <= b < |rest| ensures key(s[0]) != key(rest[b]) {
          assert rest[b] in tail;
          var j :| 0 <= j < |tail| && tail[j] == rest[b];
          assert s[j + 1] == rest[b];
        }
        forall a, b | 0 <= a < b < |r| ensures key(r[a]) != key(r[b]) {
          assert r[b] == rest[b - 1];
          if a > 0 {
            assert r[a] == rest[a - 1];
          }
        }
      }
    }
  }

  /** Removing the id of a single entry that no other entry carries takes out
      exactly that entry. */
  lemma RemoveOnly<T>(before: seq<T>, x: T, after: seq<T>, key: T -> Id, id: Id)
    requires key(x) == id
    requires forall j :: 0 <= j < |before| ==> key(before[j]) != id
    requires forall j :: 0 <= j < |after| ==> key(after[j]) != id
    ensures RemoveById(before + [x] + after, key, id) == before + after
  {
    RemoveMissing(before, key, id);
    RemoveMissing(after, key, id);
    assert RemoveById([x], key, id) == [];
    calc {
      RemoveById(before + [x] + after, key, id);
      { RemoveConcat(before + [x], after, key, id); }
      RemoveById(before + [x], key, id) + RemoveById(after, key, id);
      { RemoveConcat(before, [x], key, id); }
      RemoveById(before, key, id) + RemoveById([x], key, id) + RemoveById(after, key, id);
      before + after;
    }
  }

  /** When keys are distinct and the entry at `k` carries `id`, removal takes
      out exactly that entry. */
  lemma RemoveTheOne<T>(s: seq<T>, key: T -> Id, id: Id, k: nat)
    requires DistinctKeys(s, key) && k < |s| && key(s[k]) == id
    ensures RemoveById(s, key, id) == s[..k] + s[k + 1..]
  {
    var before, after := s[..k], s[k + 1..];
    forall j | 0 <= j < |before| ensures key(before[j]) != id {
      assert before[j] == s[j];
    }
    forall j | 0 <= j < |after| ensures key(after[j]) != id {
      assert after[j] == s[k + 1 + j];
    }
    RemoveOnly(before, s[k], after, key, id);
    assert s == before + [s[k]] + after;
  }

  /** Appending a batch whose keys are distinct and not already present keeps
      the keys of the whole list distinct. */
  lemma AppendKeepsDistinct<T>(a: seq<T>, b: seq<T>, key: T -> Id)
    requires DistinctKeys(a, key) && DistinctKeys(b, key) && DisjointKeys(a, b, key)
    ensures DistinctKeys(a + b, key)
  {
  }
}
