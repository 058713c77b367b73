/**
 * The list operations the screens and the store apply to records keyed by
 * an `id`: `filter(d => d.id !== id)`, `find(d => d.id === id)` and
 * `map(d => d.id === id ? f(d) : d)`. The key is passed as a function so
 * that the store's designs and the dashboard's cards share one definition.
 */
module Lists {
  import opened Wrappers

  /** No element of `s` has key `id`. */
  predicate Absent<T>(s: seq<T>, key: T -> string, id: string) {
    forall i :: 0 <= i < |s| ==> key(s[i]) != id
  }

  /** No two elements of `s` share a key. */
  predicate UniqueKeys<T>(s: seq<T>, key: T -> string) {
    forall i, j :: 0 <= i < j < |s| ==> key(s[i]) != key(s[j])
  }

  /** How many elements of `s` have key `id`. */
  function Count<T>(s: seq<T>, key: T -> string, id: string): nat {
    if s == [] then 0 else (if key(s[0]) == id then 1 else 0) + Count(s[1..], key, id)
  }

  /** `s.filter(x => key(x) !== id)`. */
  function Without<T>(s: seq<T>, key: T -> string, id: string): (r: seq<T>)
    ensures forall i :: 0 <= i < |r| ==> r[i] in s && key(r[i]) != id
    ensures forall i :: 0 <= i < |s| && key(s[i]) != id ==> s[i] in r
    ensures |r| == |s| - Count(s, key, id)
    ensures Absent(r, key, id)
  {
    if s == [] then []
    else if key(s[0]) != id then [s[0]] + Without(s[1..], key, id)
    else Without(s[1..], key, id)
  }

  /** Filtering a concatenation filters each part in place: the order of the kept elements is preserved. */
  lemma {:induction false} WithoutAppend<T>(a: seq<T>, b: seq<T>, key: T -> string, id: string)
    ensures Without(a + b, key, id) == Without(a, key, id) + Without(b, key, id)
  {
    if a == [] {
      assert a + b == b;
    } else {
      var ab := a + b;
      assert ab[0] == a[0] && ab[1..] == a[1..] + b;
      WithoutAppend(a[1..], b, key, id);
      if key(a[0]) != id {
        calc {
          Without(ab, key, id);
          [a[0]] + Without(a[1..] + b, key, id);
          [a[0]] + (Without(a[1..], key, id) + Without(b, key, id));
          ([a[0]] + Without(a[1..], key, id)) + Without(b, key, id);
        }
      }
    }
  }

  /** Filtering out a key that no element has leaves the list as it is. */
  lemma {:induction false} WithoutAbsent<T>(s: seq<T>, key: T -> string, id: string)
    requires Absent(s, key, id)
    ensures Without(s, key, id) == s
  {
    if s != [] {
      WithoutAbsent(s[1..], key, id);
    }
  }

  /** Filtering out the same key twice is filtering it out once. */
  lemma WithoutIdempotent<T>(s: seq<T>, key: T -> string, id: string)
    ensures Without(Without(s, key, id), key, id) == Without(s, key, id)
  {
    WithoutAbsent(Without(s, key, id), key, id);
  }

  /** Index `i` holds the first element of `s` with key `id`. */
  predicate IsFirst<T>(s: seq<T>, key: T -> string, id: string, i: int) {
    0 <= i < |s| && key(s[i]) == id && forall j :: 0 <= j < i ==> key(s[j]) != id
  }

  /** `s.find(x => key(x) === id)`: the first element with key `id`. */
  function Find<T(==)>(s: seq<T>, key: T -> string, id: string): (r: Option<T>)
    ensures r.None? <==> Absent(s, key, id)
    ensures r.Some? ==> exists i :: IsFirst(s, key, id, i) && r.value == s[i]
  {
    if s == [] then None
    else if key(s[0]) == id then
      assert IsFirst(s, key, id, 0);
      Some(s[0])
    else
      var r := Find(s[1..], key, id);
      if r.Some? then
        var i :| IsFirst(s[1..], key, id, i) && r.value == s[1..][i];
        assert IsFirst(s, key, id, i + 1);
        r
      else
        r
  }

  /** With unique keys, the element found is the one at any index holding the key. */
  lemma FindUnique<T>(s: seq<T>, key: T -> string, id: string, k: int)
    requires UniqueKeys(s, key)
    requires 0 <= k < |s| && key(s[k]) == id
    ensures Find(s, key, id) == Some(s[k])
  {
    var r := Find(s, key, id);
    var i :| IsFirst(s, key, id, i) && r.value == s[i];
  }

  /** `s.map(x => key(x) === id ? f(x) : x)`. */
  function Replace<T>(s: seq<T>, key: T -> string, id: string, f: T -> T): (r: seq<T>)
    ensures |r| == |s|
    ensures forall i :: 0 <= i < |s| && key(s[i]) == id ==> r[i] == f(s[i])
    ensures forall i :: 0 <= i < |s| && key(s[i]) != id ==> r[i] == s[i]
  {
    if s == [] then []
    else [if key(s[0]) == id then f(s[0]) else s[0]] + Replace(s[1..], key, id, f)
  }

  /** Replacing at a key that no element has leaves the list as it is. */
  lemma ReplaceAbsent<T>(s: seq<T>, key: T -> string, id: string, f: T -> T)
    requires Absent(s, key, id)
    ensures Replace(s, key, id, f) == s
  {
  }
}
