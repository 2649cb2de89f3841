/**
 * Shared vocabulary of the model: optional values, HTTP replies, record
 * lookup by a predicate, and the descending sort that the database applies
 * to `sort({ createdAt: -1 })`.
 */
module Common {

  /** Opaque identifiers of the two collections (Mongo ObjectIds). */
  type UserId = nat
  type MessageId = nat

  datatype Option<T> = None | Some(value: T)

  /**
   * What a controller sends back: a success status with its JSON body, or an
   * error status with the text of the body's `error` field.
   */
  datatype Reply<T> = Ok(code: int, value: T) | Err(code: int, error: string)

  const StatusOk := 200
  const StatusCreated := 201
  const StatusBadRequest := 400
  const StatusUnauthorized := 401
  const StatusForbidden := 403
  const StatusNotFound := 404
  const StatusConflict := 409
  const StatusServerError := 500

  function Min(a: int, b: int): int { if a <= b then a else b }

  /** `findOne` / `findById`: the index of the first record satisfying `p`. */
  function FindIndex<T>(s: seq<T>, p: T -> bool): (r: Option<nat>)
    ensures r.Some? ==> r.value < |s| && p(s[r.value])
    ensures r.Some? ==> forall j :: 0 <= j < r.value ==> !p(s[j])
    ensures r.None? ==> forall j :: 0 <= j < |s| ==> !p(s[j])
  {
    if |s| == 0 then None
    else if p(s[0]) then Some(0)
    else match FindIndex(s[1..], p)
      case None => None
      case Some(k) => Some(k + 1)
  }

  /** Replacing the found record by another one that still matches keeps the lookup where it was. */
  lemma FindIndexAfterUpdate<T>(s: seq<T>, p: T -> bool, i: nat, x: T)
    requires FindIndex(s, p) == Some(i) && p(x)
    ensures FindIndex(s[i := x], p) == Some(i)
  {
    var r := FindIndex(s[i := x], p);
    assert s[i := x][i] == x;
    assert r.Some?;
  }

  /** `s` is ordered by `key`, largest first. */
  ghost predicate SortedDesc<T>(s: seq<T>, key: T -> int) {
    forall i, j :: 0 <= i < j < |s| ==> key(s[i]) >= key(s[j])
  }

  /** Insert `x` in front of the first element whose key does not exceed its own. */
  function Insert<T>(x: T, s: seq<T>, key: T -> int): (r: seq<T>)
    ensures |r| == |s| + 1
    ensures multiset(r) == multiset(s) + multiset{x}
    ensures r[0] == x || (|s| > 0 && r[0] == s[0])
  {
    if |s| == 0 || key(s[0]) <= key(x) then [x] + s
    else
      assert s == [s[0]] + s[1..];
      [s[0]] + Insert(x, s[1..], key)
  }

  /** Inserting into an ordered sequence keeps it ordered. */
  lemma {:induction false} InsertSorted<T>(x: T, s: seq<T>, key: T -> int)
    requires SortedDesc(s, key)
    ensures SortedDesc(Insert(x, s, key), key)
  {
    if |s| > 0 && key(s[0]) > key(x) {
      var t := s[1..];
      assert SortedDesc(t, key) by {
        forall i, j | 0 <= i < j < |t| ensures key(t[i]) >= key(t[j]) {
          assert t[i] == s[i + 1] && t[j] == s[j + 1];
        }
      }
      InsertSorted(x, t, key);
      var rest := Insert(x, t, key);
      assert Insert(x, s, key) == [s[0]] + rest;
      assert key(rest[0]) <= key(s[0]) by {
        if rest[0] != x { assert rest[0] == s[1]; }
      }
      forall k | 0 <= k < |rest| ensures key(rest[k]) <= key(s[0]) {
        if k > 0 { assert key(rest[k]) <= key(rest[0]); }
      }
      ConsSorted(s[0], rest, key);
    }
  }

  /** An element no smaller than every element of an ordered sequence can go in front of it. */
  lemma ConsSorted<T>(x: T, rest: seq<T>, key: T -> int)
    requires SortedDesc(rest, key)
    requires forall j :: 0 <= j < |rest| ==> key(rest[j]) <= key(x)
    ensures SortedDesc([x] + rest, key)
  {
    var r := [x] + rest;
    forall i, j | 0 <= i < j < |r| ensures key(r[i]) >= key(r[j]) {
      assert r[j] == rest[j - 1];
      if i > 0 { assert r[i] == rest[i - 1]; }
    }
  }

  /**
   * The database's descending sort on `key`, as an insertion sort: the result
   * is ordered largest first and is a permutation of the input.
   */
  function SortDesc<T>(s: seq<T>, key: T -> int): (r: seq<T>)
    ensures |r| == |s|
    ensures multiset(r) == multiset(s)
    ensures SortedDesc(r, key)
  {
    if |s| == 0 then []
    else
      assert s == [s[0]] + s[1..];
      var t := SortDesc(s[1..], key);
      InsertSorted(s[0], t, key);
      Insert(s[0], t, key)
  }

  /** A permutation has the same members. */
  lemma PermutationMembers<T>(a: seq<T>, b: seq<T>)
    requires multiset(a) == multiset(b)
    ensures forall x :: x in a <==> x in b
  {
    forall x ensures x in a <==> x in b {
      assert x in a <==> x in multiset(a);
      assert x in b <==> x in multiset(b);
    }
  }

  /** Sorting what is already ordered changes nothing, ties included. */
  lemma {:induction false} SortDescOfSorted<T>(s: seq<T>, key: T -> int)
    requires SortedDesc(s, key)
    ensures SortDesc(s, key) == s
  {
    if |s| > 0 {
      assert SortedDesc(s[1..], key) by {
        forall i, j | 0 <= i < j < |s[1..]| ensures key(s[1..][i]) >= key(s[1..][j]) {
          assert s[1..][i] == s[i + 1] && s[1..][j] == s[j + 1];
        }
      }
      SortDescOfSorted(s[1..], key);
      assert s == [s[0]] + s[1..];
    }
  }
}
