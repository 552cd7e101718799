/**
 * Shared vocabulary of the model: optional values, the shape of an HTTP
 * reply, middleware outcomes, and the sequence operations (`Array.prototype.find`,
 * `findIndex` and `filter`) that the handlers are built from.
 */
module Common {

  datatype Option<+T> = None | Some(value: T)

  /** What a route handler sends: a success status with its JSON body, or an
      error status with the `{ message }` body every failure carries. */
  datatype Reply<+T> = Ok(status: int, value: T) | Fail(status: int, message: string)

  /** What a middleware does: call `next()` (passing the value it attached to
      the request) or end the response with an error. */
  datatype Gate<+T> = Next(value: T) | Stop(status: int, message: string)

  /** JavaScript truthiness of an optional string field of a request body:
      a missing field and the empty string are both falsy. */
  predicate Present(o: Option<string>) {
    o.Some? && o.value != ""
  }

  /** `Array.prototype.findIndex`: the index of the first element that satisfies `p`. */
  function FindFirst<T>(s: seq<T>, p: T -> bool): (r: Option<nat>)
    ensures r.Some? ==> r.value < |s| && p(s[r.value])
    ensures r.Some? ==> forall j :: 0 <= j < r.value ==> !p(s[j])
    ensures r.None? ==> forall j :: 0 <= j < |s| ==> !p(s[j])
  {
    if s == [] then None
    else if p(s[0]) then Some(0)
    else match FindFirst(s[1..], p)
      case None => None
      case Some(k) => Some(k + 1)
  }

  /** `Array.prototype.filter`: the elements that satisfy `p`, in their order. */
  function Filter<T>(s: seq<T>, p: T -> bool): (r: seq<T>)
    ensures |r| <= |s|
    ensures forall k :: 0 <= k < |r| ==> p(r[k])
  {
    if s == [] then []
    else (if p(s[0]) then [s[0]] else []) + Filter(s[1..], p)
  }

  /** `array.filter(p).length` */
  function Count<T>(s: seq<T>, p: T -> bool): nat {
    |Filter(s, p)|
  }

  /** `Filter` keeps exactly the elements of `s` that satisfy `p`. */
  lemma {:induction false} FilterMembership<T>(s: seq<T>, p: T -> bool, x: T)
    ensures x in Filter(s, p) <==> x in s && p(x)
  {
    if s != [] {
      FilterMembership(s[1..], p, x);
      assert s == [s[0]] + s[1..];
    }
  }

  /** Filtering distributes over concatenation, so the relative order of the
      elements kept is the order they had in `s`. */
  lemma {:induction false} FilterAppend<T>(s: seq<T>, t: seq<T>, p: T -> bool)
    ensures Filter(s + t, p) == Filter(s, p) + Filter(t, p)
  {
    if s == [] {
      assert s + t == t;
    } else {
      assert (s + t)[1..] == s[1..] + t;
      FilterAppend(s[1..], t, p);
    }
  }

  /** What `Filter` drops is exactly what the complementary filter keeps:
      together the two account for every element of `s`, with multiplicity. */
  lemma {:induction false} FilterPartition<T>(s: seq<T>, p: T -> bool, q: T -> bool)
    requires forall x :: q(x) <==> !p(x)
    ensures multiset(Filter(s, p)) + multiset(Filter(s, q)) == multiset(s)
  {
    if s != [] {
      var fp, fq := Filter(s[1..], p), Filter(s[1..], q);
      FilterPartition(s[1..], p, q);
      assert multiset(s) == multiset{s[0]} + multiset(s[1..]) by {
        assert s == [s[0]] + s[1..];
      }
      if p(s[0]) {
        assert Filter(s, p) == [s[0]] + fp && Filter(s, q) == fq;
        assert multiset(Filter(s, p)) == multiset{s[0]} + multiset(fp);
      } else {
        assert Filter(s, q) == [s[0]] + fq && Filter(s, p) == fp;
        assert multiset(Filter(s, q)) == multiset{s[0]} + multiset(fq);
      }
    }
  }

  /** Two counts whose predicates never hold together add up to at most the length. */
  lemma {:induction false} CountDisjoint<T>(s: seq<T>, p: T -> bool, q: T -> bool)
    requires forall x :: !(p(x) && q(x))
    ensures Count(s, p) + Count(s, q) <= |s|
  {
    if s != [] {
      CountDisjoint(s[1..], p, q);
    }
  }

  /** No two positions of `s` share a key. */
  ghost predicate UniqueBy<T, K>(s: seq<T>, key: T -> K) {
    forall i, j :: 0 <= i < |s| && 0 <= j < |s| && key(s[i]) == key(s[j]) ==> i == j
  }

  /** Filtering keeps keys unique. */
  lemma {:induction false} FilterKeepsUnique<T, K>(s: seq<T>, p: T -> bool, key: T -> K)
    requires UniqueBy(s, key)
    ensures UniqueBy(Filter(s, p), key)
  {
    if s != [] {
      var tail := Filter(s[1..], p);
      FilterKeepsUnique(s[1..], p, key);
      forall x | x in tail ensures key(x) != key(s[0]) {
        FilterMembership(s[1..], p, x);
        var j :| 0 <= j < |s[1..]| && s[1..][j] == x;
        assert s[j + 1] == x;
      }
      var r := Filter(s, p);
      if p(s[0]) {
        assert r == [s[0]] + tail;
        forall i, j | 0 <= i < |r| && 0 <= j < |r| && key(r[i]) == key(r[j]) ensures i == j {
          if i > 0 && j > 0 {
            assert r[i] == tail[i - 1] && r[j] == tail[j - 1];
          }
        }
      } else {
        assert r == tail;
      }
    }
  }

  /** Removing one element keeps keys unique. */
  lemma RemoveKeepsUnique<T, K>(s: seq<T>, k: nat, key: T -> K)
    requires k < |s| && UniqueBy(s, key)
    ensures UniqueBy(s[..k] + s[k + 1..], key)
  {
    var r := s[..k] + s[k + 1..];
    forall i, j | 0 <= i < |r| && 0 <= j < |r| && key(r[i]) == key(r[j]) ensures i == j {
      var i' := if i < k then i else i + 1;
      var j' := if j < k then j else j + 1;
      assert r[i] == s[i'] && r[j] == s[j'];
    }
  }

  /** Appending an element with a new key keeps keys unique. */
  lemma AppendKeepsUnique<T, K>(s: seq<T>, x: T, key: T -> K)
    requires UniqueBy(s, key)
    requires forall i :: 0 <= i < |s| ==> key(s[i]) != key(x)
    ensures UniqueBy(s + [x], key)
  {
  }

  /** Replacing an element by one with the same key keeps keys unique. */
  lemma ReplaceKeepsUnique<T, K>(s: seq<T>, k: nat, x: T, key: T -> K)
    requires k < |s| && UniqueBy(s, key) && key(x) == key(s[k])
    ensures UniqueBy(s[k := x], key)
  {
  }

  predicate IsUpper(c: char) { 'A' <= c <= 'Z' }

  /** ASCII `toLowerCase` of one character. */
  function LowerChar(c: char): char {
    if IsUpper(c) then (c as int - 'A' as int + 'a' as int) as char else c
  }

  /** `String.prototype.toLowerCase`, restricted to the ASCII letters: no
      capital is left, every other character is kept, and each capital
      becomes the letter 32 code points above it. */
  function ToLower(s: string): (r: string)
    ensures |r| == |s|
    ensures forall i :: 0 <= i < |r| ==> !IsUpper(r[i])
    ensures forall i :: 0 <= i < |s| && !IsUpper(s[i]) ==> r[i] == s[i]
    ensures forall i :: 0 <= i < |s| && IsUpper(s[i]) ==> r[i] as int == s[i] as int + 32 && 'a' <= r[i] <= 'z'
  {
    seq(|s|, i requires 0 <= i < |s| => LowerChar(s[i]))
  }

  /** Lowering twice is lowering once, so comparing lowered strings is
      stable under lowering either side again. */
  lemma ToLowerIdempotent(s: string)
    ensures ToLower(ToLower(s)) == ToLower(s)
  {
  }

  /** `a.toLowerCase() === b.toLowerCase()` */
  predicate SameIgnoringCase(a: string, b: string) {
    ToLower(a) == ToLower(b)
  }
}
