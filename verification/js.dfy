/**
 The JavaScript values the pipeline reads and writes, modelled as data:
 optional and failing results, primitive prop/style values with
 JavaScript truthiness, and style maps with the lodash/`Object.assign`
 operations the passes use on them.

 A missing key of a map stands for `undefined`.
 */
module Js {

  /** `undefined`/`null` versus a present value. */
  datatype Option<+T> = None | Some(value: T)

  /** A computation that either returns a value or throws an `Error` with a message. */
  datatype Result<+T, +E> = Success(value: T) | Failure(error: E)

  /** A primitive value held in a props or style object. */
  datatype Value = Null | Bool(b: bool) | Num(n: int) | Str(s: string)

  /** JavaScript truthiness: `null`, `false`, `0` and `''` are falsy. */
  predicate Truthy(v: Value) {
    match v
    case Null => false
    case Bool(b) => b
    case Num(n) => n != 0
    case Str(s) => s != ""
  }

  /** A style object: property name to value. */
  type Style = map<string, Value>

  /** `pick(style, keys)`: the entries of `s` whose key is listed. */
  function Pick(s: Style, keys: set<string>): Style {
    map k | k in s && k in keys :: s[k]
  }

  /** `omit(style, keys)`: the entries of `s` whose key is not listed. */
  function Omit(s: Style, keys: set<string>): Style {
    s - keys
  }

  /** `Object.assign({}, a, b)`: every entry of `b`, and the entries of `a` that `b` does not override. */
  function Assign(a: Style, b: Style): Style {
    a + b
  }

  /** `hasAnyDefined(style, keys)`: some listed key has a value in `s`. */
  predicate HasAnyDefined(s: Style, keys: set<string>) {
    exists k :: k in keys && k in s
  }

  /** `Array.prototype.filter(l => l)` on a list of objects or nulls: the present entries, in order. */
  function Present<T>(xs: seq<Option<T>>): (r: seq<T>)
    ensures |r| <= |xs|
    ensures (forall i :: 0 <= i < |xs| ==> xs[i].None?) ==> r == []
  {
    if xs == [] then []
    else (if xs[0].Some? then [xs[0].value] else []) + Present(xs[1..])
  }

  /** `filter` keeps exactly the present entries: each kept value was present, and each present value is kept. */
  lemma {:induction false} PresentMembers<T>(xs: seq<Option<T>>)
    ensures forall i :: 0 <= i < |Present(xs)| ==> Some(Present(xs)[i]) in xs
    ensures forall i :: 0 <= i < |xs| && xs[i].Some? ==> xs[i].value in Present(xs)
  {
    if xs != [] {
      PresentMembers(xs[1..]);
      assert xs == [xs[0]] + xs[1..];
      var r := Present(xs);
      var rest := Present(xs[1..]);
      forall i | 0 <= i < |r| ensures Some(r[i]) in xs {
        if xs[0].Some? && i == 0 {
          assert r[0] == xs[0].value;
        } else {
          var k := if xs[0].Some? then i - 1 else i;
          assert r[i] == rest[k];
          assert Some(rest[k]) in xs[1..];
        }
      }
      forall i | 0 <= i < |xs| && xs[i].Some? ensures xs[i].value in r {
        if i > 0 {
          assert xs[i] == xs[1..][i - 1];
          assert xs[i].value in rest;
        }
      }
    }
  }

  /** `filter` distributes over concatenation, so relative order is kept. */
  lemma {:induction false} PresentAppend<T>(a: seq<Option<T>>, b: seq<Option<T>>)
    ensures Present(a + b) == Present(a) + Present(b)
  {
    if a == [] {
      assert a + b == b;
    } else {
      var ab := a + b;
      assert ab[0] == a[0] && ab[1..] == a[1..] + b;
      PresentAppend(a[1..], b);
      var head: seq<T> := if a[0].Some? then [a[0].value] else [];
      assert Present(ab) == head + Present(ab[1..]);
      assert Present(a) == head + Present(a[1..]);
      assert head + (Present(a[1..]) + Present(b)) == (head + Present(a[1..])) + Present(b);
    }
  }

  /** Every element wrapped as present. */
  function Somes<T>(xs: seq<T>): (r: seq<Option<T>>)
    ensures |r| == |xs|
    ensures forall i :: 0 <= i < |xs| ==> r[i] == Some(xs[i])
  {
    if xs == [] then [] else [Some(xs[0])] + Somes(xs[1..])
  }

  /** A list without nulls passes through `filter` unchanged. */
  lemma {:induction false} PresentAllSome<T>(xs: seq<T>)
    ensures Present(Somes(xs)) == xs
  {
    if xs != [] {
      assert Somes(xs)[1..] == Somes(xs[1..]);
      PresentAllSome(xs[1..]);
      assert [xs[0]] + xs[1..] == xs;
    }
  }
}
